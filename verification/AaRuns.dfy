/**
 What insertion and deletion do to the set of nodes and to their order, how deep a valid tree
 can be, and what therefore holds after any sequence of insertions and deletions.
 */
module AaRuns {
  import opened HeapEntries
  import opened AaTree
  import opened Powers

  // u holds the nodes of t, in the same order.
  ghost predicate Rearranged(t: Tree, u: Tree) {
    && Entries(u) == Entries(t)
    && Count(u) == Count(t) && Bytes(u) == Bytes(t)
    && forall lo, hi :: Between(t, lo, hi) ==> Between(u, lo, hi)
  }

  lemma SkewRearranges(t: Tree)
    ensures Rearranged(t, Skew(t))
  {
  }

  lemma SplitRearranges(t: Tree)
    ensures Rearranged(t, Split(t))
  {
  }

  lemma LowerRearranges(t: Tree)
    requires t.Node? && t.level > 0
    ensures Rearranged(t, Lower(t))
  {
  }

  lemma BelowRearranges(t: Tree, r: Tree)
    requires t.Node? && Rearranged(t.right, r)
    ensures Rearranged(t, t.(right := r))
  {
  }

  lemma SkewRightRearranges(t: Tree)
    ensures Rearranged(t, SkewRight(t))
  {
    if t.Node? {
      SkewRearranges(t.right);
      BelowRearranges(t, Skew(t.right));
    }
  }

  lemma BalanceRearranges(t: Tree)
    ensures Rearranged(t, Balance(t))
  {
    if TooHigh(t) {
      LowerRearranges(t);
      var t1 := Skew(Lower(t));
      SkewRearranges(Lower(t));
      SkewRightRearranges(t1);
      var t2 := SkewRight(t1);
      SkewRightRearranges(t2.right);
      BelowRearranges(t2, SkewRight(t2.right));
      var t3 := SkewRightRight(t2);
      SplitRearranges(t3);
      var t4 := Split(t3);
      SplitRearranges(t4.right);
      BelowRearranges(t4, Split(t4.right));
    }
  }

  lemma {:induction false} InsertAdds(t: Tree, e: HeapEntry, lo: int, hi: int)
    requires Between(t, lo, hi) && lo < e.addr < hi && forall x <- Entries(t) :: x.addr != e.addr
    ensures Between(Insert(t, e), lo, hi)
    ensures Entries(Insert(t, e)) == Entries(t) + {e}
    ensures Count(Insert(t, e)) == Count(t) + 1 && Bytes(Insert(t, e)) == Bytes(t) + e.size
  {
    if t.Node? {
      var u;
      if t.entry.addr < e.addr {
        InsertAdds(t.right, e, t.entry.addr, hi);
        u := t.(right := Insert(t.right, e));
      } else {
        InsertAdds(t.left, e, lo, t.entry.addr);
        u := t.(left := Insert(t.left, e));
      }
      SkewRearranges(u);
      SplitRearranges(Skew(u));
    }
  }

  // Putting a higher node d in place of the rightmost one keeps the order.
  lemma {:induction false} ReplaceMaxOrder(t: Tree, d: HeapEntry, lo: int)
    requires t.Node? && Between(t, lo, d.addr)
    ensures lo < MaxEntry(t).addr < d.addr && MaxEntry(t) in Entries(t)
    ensures Between(ReplaceMax(t, d), lo, d.addr + 1)
    ensures Entries(ReplaceMax(t, d)) == Entries(t) - {MaxEntry(t)} + {d}
    ensures forall x <- Entries(t) - {MaxEntry(t)} :: x.addr < MaxEntry(t).addr
    ensures Bytes(ReplaceMax(t, d)) == Bytes(t) - MaxEntry(t).size + d.size
  {
    InRange(t, lo, d.addr);
    InRange(t.left, lo, t.entry.addr);
    if t.right.Node? {
      ReplaceMaxOrder(t.right, d, t.entry.addr);
    } else {
      Widen(t.left, lo, t.entry.addr, lo, d.addr);
    }
  }

  // A tree all of whose nodes lie below hi can be bounded by it.
  lemma {:induction false} Tighten(t: Tree, lo: int, hi: int, hi': int)
    requires Between(t, lo, hi) && forall x <- Entries(t) :: x.addr < hi'
    ensures Between(t, lo, hi')
  {
    if t.Node? {
      assert t.entry in Entries(t);
      Tighten(t.right, t.entry.addr, hi, hi');
    }
  }

  // The nodes lost are those called d: all of them when d is in the tree, none otherwise.
  lemma {:induction false} RemoveTakes(t: Tree, d: HeapEntry, lo: int, hi: int)
    requires Between(t, lo, hi)
    ensures Between(Remove(t, d), lo, hi)
    ensures Entries(Remove(t, d)) == Entries(t) - {d}
    decreases Count(t)
  {
    if t.Node? {
      InRange(t.left, lo, t.entry.addr);
      InRange(t.right, t.entry.addr, hi);
      if t.entry == d {
        if t.left.Node? && t.right.Node? {
          RemoveRoot(t, d, lo, hi);
        } else {
          Widen(t.right, d.addr, hi, lo, hi);
          Widen(t.left, lo, d.addr, lo, hi);
          BalanceRearranges(if t.left.Leaf? then t.right else t.left);
        }
      } else if t.entry.addr < d.addr {
        RemoveTakes(t.right, d, t.entry.addr, hi);
        BalanceRearranges(t.(right := Remove(t.right, d)));
      } else {
        RemoveTakes(t.left, d, lo, t.entry.addr);
        BalanceRearranges(t.(left := Remove(t.left, d)));
      }
    }
  }

  // The node-swap deletion: the heir takes the root's place and the root is deleted from below it.
  lemma {:induction false} RemoveRoot(t: Tree, d: HeapEntry, lo: int, hi: int)
    requires Between(t, lo, hi) && t.Node? && t.entry == d && t.left.Node? && t.right.Node?
    ensures Between(Remove(t, d), lo, hi)
    ensures Entries(Remove(t, d)) == Entries(t) - {d}
    decreases Count(t), 0
  {
    var l := ReplaceMax(t.left, d);
    var heir := MaxEntry(t.left);
    InRange(t.left, lo, d.addr);
    InRange(t.right, d.addr, hi);
    ReplaceMaxOrder(t.left, d, lo);
    RemoveTakes(l, d, lo, d.addr + 1);
    assert Entries(Remove(l, d)) == Entries(t.left) - {heir};
    Tighten(Remove(l, d), lo, d.addr + 1, heir.addr);
    Widen(t.right, d.addr, hi, heir.addr, hi);
    assert Entries(Node(Remove(l, d), heir, t.level, t.right)) == Entries(t) - {d};
    BalanceRearranges(Node(Remove(l, d), heir, t.level, t.right));
  }

  lemma {:induction false} RemoveSizes(t: Tree, d: HeapEntry, lo: int, hi: int)
    requires Between(t, lo, hi) && d in Entries(t)
    ensures Count(Remove(t, d)) == Count(t) - 1 && Bytes(Remove(t, d)) == Bytes(t) - d.size
    decreases Count(t)
  {
    InRange(t.left, lo, t.entry.addr);
    InRange(t.right, t.entry.addr, hi);
    var u;
    if t.entry == d {
      if t.left.Node? && t.right.Node? {
        var l := ReplaceMax(t.left, d);
        ReplaceMaxOrder(t.left, d, lo);
        RemoveSizes(l, d, lo, d.addr + 1);
        u := Node(Remove(l, d), MaxEntry(t.left), t.level, t.right);
      } else {
        u := if t.left.Leaf? then t.right else t.left;
      }
    } else if t.entry.addr < d.addr {
      RemoveSizes(t.right, d, t.entry.addr, hi);
      u := t.(right := Remove(t.right, d));
    } else {
      RemoveSizes(t.left, d, lo, t.entry.addr);
      u := t.(left := Remove(t.left, d));
    }
    BalanceRearranges(u);
  }

  // ---------------------------------------------------------------- how deep a tree can be

  ghost function Height(t: Tree): nat {
    if t.Leaf? then 0
    else 1 + if Height(t.left) >= Height(t.right) then Height(t.left) else Height(t.right)
  }

  // A tree of level n holds at least 2^n - 1 nodes, and no path in it is longer than 2n.
  lemma {:induction false} LevelBounds(t: Tree)
    requires Aa(t)
    ensures Count(t) >= Pow2(Lvl(t)) - 1
    ensures Height(t) <= 2 * Lvl(t)
    ensures Single(t) ==> Height(t) < 2 * Lvl(t)
  {
    if t.Node? {
      LevelBounds(t.left);
      LevelBounds(t.right);
      if t.right.Node? && t.right.level == t.level {
        assert Single(t.right);
      }
    }
  }

  // Distinct addresses leave room for no more nodes than addresses.
  lemma {:induction false} CountWithin(t: Tree, lo: int, hi: int)
    requires Between(t, lo, hi) && lo < hi
    ensures Count(t) < hi - lo
  {
    if t.Node? {
      CountWithin(t.left, lo, t.entry.addr);
      CountWithin(t.right, t.entry.addr, hi);
    }
  }

  // An address-ordered tree that obeys the level rules.
  ghost predicate Valid(t: Tree) {
    Aa(t) && Ordered(t)
  }

  // In a 32-bit address space levels fit a byte with room to spare, and no path has over 64 nodes.
  lemma {:induction false} ValidTreesAreShallow(t: Tree)
    requires Valid(t)
    ensures Count(t) <= TWO32
    ensures Lvl(t) <= 32 && Height(t) <= 64
  {
    CountWithin(t, -1, TWO32);
    LevelBounds(t);
    if Lvl(t) > 32 {
      Pow2Monotone(33, Lvl(t));
      Pow2Of33();
    }
  }

  lemma Pow2Of33()
    ensures Pow2(33) == 2 * TWO32
  {
    assert Pow2(8) == 256;
    assert Pow2(16) == 256 * 256;
    assert Pow2(24) == 256 * 256 * 256;
    assert Pow2(32) == 256 * 256 * 256 * 256;
  }

  // ---------------------------------------------------------------- any run of insertions and deletions

  datatype Op = Add(e: HeapEntry) | Drop(e: HeapEntry)

  ghost function Apply(t: Tree, op: Op): Tree {
    match op
    case Add(e) => Insert(t, e)
    case Drop(e) => Remove(t, e)
  }

  ghost function TreeAfter(t: Tree, ops: seq<Op>): Tree
    decreases |ops|
  {
    if ops == [] then t else TreeAfter(Apply(t, ops[0]), ops[1..])
  }

  // The set of nodes a run leaves: inserted minus deleted.
  ghost function Replay(s: set<HeapEntry>, ops: seq<Op>): set<HeapEntry>
    decreases |ops|
  {
    if ops == [] then s
    else Replay(match ops[0] case Add(e) => s + {e} case Drop(e) => s - {e}, ops[1..])
  }

  // Entries inserted have 32-bit addresses of their own; entries deleted are present.
  ghost predicate Legal(s: set<HeapEntry>, ops: seq<Op>)
    decreases |ops|
  {
    ops == [] ||
    match ops[0]
    case Add(e) => Fresh(s, e) && Legal(s + {e}, ops[1..])
    case Drop(e) => e in s && Legal(s - {e}, ops[1..])
  }

  ghost predicate Fresh(s: set<HeapEntry>, e: HeapEntry) {
    e.addr < TWO32 && forall x <- s :: x.addr != e.addr
  }

  lemma {:induction false} InsertKeepsValid(t: Tree, e: HeapEntry)
    requires Valid(t) && Fresh(Entries(t), e)
    ensures Valid(Insert(t, e)) && Entries(Insert(t, e)) == Entries(t) + {e}
    ensures Count(Insert(t, e)) == Count(t) + 1 && Bytes(Insert(t, e)) == Bytes(t) + e.size
  {
    ValidTreesAreShallow(t);
    InsertLevels(t, e);
    InsertAdds(t, e, -1, TWO32);
  }

  lemma {:induction false} RemoveKeepsValid(t: Tree, d: HeapEntry)
    requires Valid(t)
    ensures Valid(Remove(t, d)) && Entries(Remove(t, d)) == Entries(t) - {d}
    ensures d in Entries(t) ==> Count(Remove(t, d)) == Count(t) - 1 && Bytes(Remove(t, d)) == Bytes(t) - d.size
  {
    ValidTreesAreShallow(t);
    RemoveLevels(t, d);
    RemoveTakes(t, d, -1, TWO32);
    if d in Entries(t) {
      RemoveSizes(t, d, -1, TWO32);
    }
  }

  lemma {:induction false} RunsKeepValid(t: Tree, ops: seq<Op>)
    requires Valid(t) && Legal(Entries(t), ops)
    ensures Valid(TreeAfter(t, ops)) && Entries(TreeAfter(t, ops)) == Replay(Entries(t), ops)
    decreases |ops|
  {
    if ops != [] {
      match ops[0]
      case Add(e) =>
        InsertKeepsValid(t, e);
        RunsKeepValid(Insert(t, e), ops[1..]);
      case Drop(e) =>
        RemoveKeepsValid(t, e);
        RunsKeepValid(Remove(t, e), ops[1..]);
    }
  }
}
