/**
 The balanced-tree algorithm on tree values: what the rotations compute, and why insertion and
 deletion keep an address-ordered Andersson tree. Levels are bytes, so raising one wraps at 256.
 */
module AaTree {
  import opened HeapEntries

  function Inc8(level: nat): nat { (level + 1) % 256 }

  ghost function Right(t: Tree): Tree { if t.Leaf? then Leaf else t.right }

  // ---------------------------------------------------------------- what the rotations compute

  ghost function Skew(t: Tree): Tree {
    if t.Node? && t.left.Node? && t.left.level == t.level && t.level != 0 then
      var s := t.left;
      Node(s.left, s.entry, s.level, Node(s.right, t.entry, t.level, t.right))
    else t
  }

  ghost function Split(t: Tree): Tree {
    if t.Node? && Lvl(Right(t.right)) == t.level && t.level != 0 && t.right.Node? then
      var s := t.right;
      Node(Node(t.left, t.entry, t.level, s.left), s.entry, Inc8(s.level), s.right)
    else t
  }

  ghost function SkewRight(t: Tree): Tree {
    if t.Leaf? then t else t.(right := Skew(t.right))
  }

  ghost function SkewRightRight(t: Tree): Tree {
    if t.Leaf? then t else t.(right := SkewRight(t.right))
  }

  ghost function SplitRight(t: Tree): Tree {
    if t.Leaf? then t else t.(right := Split(t.right))
  }

  // A node lost a child level: lower it, and its right child with it when that would stand above it.
  ghost function Lower(t: Tree): Tree
    requires t.Node? && t.level > 0
  {
    var lv := t.level - 1;
    Node(t.left, t.entry, lv, if Lvl(t.right) > lv then t.right.(level := lv) else t.right)
  }

  ghost predicate TooHigh(t: Tree) {
    t.Node? && (Lvl(t.left) + 1 < t.level || Lvl(t.right) + 1 < t.level)
  }

  ghost function Balance(t: Tree): Tree {
    if TooHigh(t) then
      SplitRight(Split(SkewRightRight(SkewRight(Skew(Lower(t))))))
    else t
  }

  // ---------------------------------------------------------------- what insertion and deletion compute

  ghost function Insert(t: Tree, e: HeapEntry): Tree {
    match t
    case Leaf => Node(Leaf, e, 1, Leaf)
    case Node(l, x, lv, r) =>
      if x.addr < e.addr then Split(Skew(Node(l, x, lv, Insert(r, e))))
      else Split(Skew(Node(Insert(l, e), x, lv, r)))
  }

  ghost function MaxEntry(t: Tree): HeapEntry
    requires t.Node?
  {
    if t.right.Leaf? then t.entry else MaxEntry(t.right)
  }

  // The tree with its rightmost node replaced by d, at the same level.
  ghost function ReplaceMax(t: Tree, d: HeapEntry): (r: Tree)
    requires t.Node?
    ensures r.Node? && Count(r) == Count(t) && Lvl(r) == Lvl(t)
  {
    if t.right.Leaf? then t.(entry := d) else t.(right := ReplaceMax(t.right, d))
  }

  ghost function Remove(t: Tree, d: HeapEntry): Tree
    decreases Count(t)
  {
    match t
    case Leaf => Leaf
    case Node(l, x, lv, r) =>
      if x == d then
        if l.Node? && r.Node? then
          Balance(Node(Remove(ReplaceMax(l, d), d), MaxEntry(l), lv, r))
        else Balance(if l.Leaf? then r else l)
      else if x.addr < d.addr then Balance(Node(l, x, lv, Remove(r, d)))
      else Balance(Node(Remove(l, d), x, lv, r))
  }

  // ---------------------------------------------------------------- the level rules

  ghost predicate Aa(t: Tree) {
    match t
    case Leaf => true
    case Node(l, _, lv, r) =>
      && lv == Lvl(l) + 1
      && Lvl(r) <= lv <= Lvl(r) + 1
      && Lvl(Right(r)) < lv
      && Aa(l) && Aa(r)
  }

  // No right child on the same level.
  ghost predicate Single(t: Tree) {
    t.Node? && Lvl(t.right) < t.level
  }

  lemma Join(l: Tree, x: HeapEntry, lv: nat, r: Tree)
    requires Aa(l) && Aa(r) && lv == Lvl(l) + 1 == Lvl(r) + 1
    ensures Aa(Node(l, x, lv, r)) && Single(Node(l, x, lv, r))
  {
  }

  // What insertion may do to the level of a valid tree t that becomes u.
  ghost predicate Grown(t: Tree, u: Tree) {
    && Aa(u)
    && Lvl(t) <= Lvl(u) <= Lvl(t) + 1
    && (Lvl(u) > Lvl(t) ==> Single(u))
    && (Single(t) ==> Lvl(u) == Lvl(t))
  }

  lemma {:induction false} GrowLeft(t: Tree, l: Tree)
    requires Aa(t) && t.Node? && Grown(t.left, l) && Lvl(t) < 255
    ensures Grown(t, Split(Skew(Node(l, t.entry, t.level, t.right))))
  {
  }

  lemma {:induction false} GrowRight(t: Tree, r: Tree)
    requires Aa(t) && t.Node? && Grown(t.right, r) && Lvl(t) < 255
    ensures Grown(t, Split(Skew(Node(t.left, t.entry, t.level, r))))
  {
    var u := Node(t.left, t.entry, t.level, r);
    assert Skew(u) == u;
    if Lvl(Right(r)) == t.level {
      Join(t.left, t.entry, t.level, r.left);
      Join(Split(u).left, r.entry, t.level + 1, r.right);
    }
  }

  lemma {:induction false} InsertLevels(t: Tree, e: HeapEntry)
    requires Aa(t) && Lvl(t) < 255
    ensures Grown(t, Insert(t, e))
    decreases t
  {
    if t.Node? {
      if t.entry.addr < e.addr {
        InsertLevels(t.right, e);
        GrowRight(t, Insert(t.right, e));
      } else {
        InsertLevels(t.left, e);
        GrowLeft(t, Insert(t.left, e));
      }
    }
  }

  // What deletion may do to the level of a valid tree t that becomes u.
  ghost predicate Shrunk(t: Tree, u: Tree) {
    && Aa(u)
    && Lvl(u) <= Lvl(t) <= Lvl(u) + 1
    && (Lvl(u) == Lvl(t) && Single(t) ==> Single(u))
  }

  lemma Settled(t: Tree)
    requires Aa(t)
    ensures Skew(t) == t && Split(t) == t
  {
  }

  lemma {:induction false} BalanceLeft(t: Tree, l: Tree, x: HeapEntry)
    requires Aa(t) && t.Node? && Shrunk(t.left, l) && Lvl(t) < 255
    ensures Shrunk(t, Balance(Node(l, x, t.level, t.right)))
  {
    if Lvl(l) < Lvl(t.left) {
      if t.right.level < t.level {
        LeftLostSingle(t, l, x);
      } else {
        LeftLostHorizontal(t, l, x);
      }
    }
  }

  // The left child sank and the right child stood one level below: at most one split.
  lemma {:induction false} LeftLostSingle(t: Tree, l: Tree, x: HeapEntry)
    requires Aa(t) && Single(t) && Aa(l) && Lvl(l) + 2 == t.level && Lvl(t) < 255
    ensures Shrunk(t, Balance(Node(l, x, t.level, t.right)))
  {
    var u := Node(l, x, t.level - 1, t.right);
    assert Lower(Node(l, x, t.level, t.right)) == u;
    Settled(t.right);
    Settled(t.right.right);
    assert SkewRightRight(SkewRight(Skew(u))) == u;
    if Lvl(t.right.right) == t.level - 1 {
      var v := Node(Node(l, x, t.level - 1, t.right.left), t.right.entry, t.level, t.right.right);
      assert Split(u) == v;
      assert SplitRight(v) == v;
      Join(l, x, t.level - 1, t.right.left);
      Join(v.left, t.right.entry, t.level, t.right.right);
    } else {
      assert Split(u) == u && SplitRight(u) == u;
    }
  }

  // The left child sank and the right child stood on the same level: its children are rotated in.
  lemma {:induction false} LeftLostHorizontal(t: Tree, l: Tree, x: HeapEntry)
    requires Aa(t) && t.Node? && Lvl(t.right) == t.level && Aa(l) && Lvl(l) + 2 == t.level && Lvl(t) < 255
    ensures Shrunk(t, Balance(Node(l, x, t.level, t.right)))
  {
    var lv := t.level - 1;
    var r := t.right;
    var a, b := r.left, r.right;
    assert Aa(a) && Aa(b) && a.level == lv && b.level == lv;
    var u := Node(l, x, lv, r.(level := lv));
    assert Lower(Node(l, x, t.level, r)) == u;
    assert Skew(u) == u;
    var w := Node(a.right, r.entry, lv, b);
    var u1 := Node(l, x, lv, Node(a.left, a.entry, lv, w));
    assert SkewRight(u) == u1;
    assert Balance(Node(l, x, t.level, r)) == SplitRight(Split(SkewRightRight(u1)));
    if Lvl(a.right) == lv {
      InnerHorizontal(l, x, lv, a, r.entry, b);
    } else {
      InnerUpright(l, x, lv, a, r.entry, b);
    }
  }

  // What the last skew and the two splits make of it when a and its right child are on the same level.
  lemma InnerHorizontal(l: Tree, x: HeapEntry, lv: nat, a: Tree, y: HeapEntry, b: Tree)
    requires Aa(l) && Lvl(l) + 1 == lv && lv < 254 && Aa(a) && Aa(b)
    requires a.Node? && b.Node? && a.level == lv == b.level && Lvl(a.right) == lv
    ensures
      var u := SplitRight(Split(SkewRightRight(Node(l, x, lv, Node(a.left, a.entry, lv, Node(a.right, y, lv, b))))));
      Aa(u) && Lvl(u) == lv + 1
  {
    var c := a.right;
    assert Aa(c) && Aa(c.left) && Aa(c.right) && Lvl(c.left) + 1 == lv && Lvl(c.right) + 1 == lv;
    var w1 := Node(c.left, c.entry, lv, Node(c.right, y, lv, b));
    assert SkewRightRight(Node(l, x, lv, Node(a.left, a.entry, lv, Node(a.right, y, lv, b)))) ==
           Node(l, x, lv, Node(a.left, a.entry, lv, w1));
    assert Split(Node(l, x, lv, Node(a.left, a.entry, lv, w1))) == Node(Node(l, x, lv, a.left), a.entry, lv + 1, w1);
    var w2 := Node(Node(c.left, c.entry, lv, c.right), y, lv + 1, b);
    assert Split(w1) == w2;
    Join(l, x, lv, a.left);
    Join(c.left, c.entry, lv, c.right);
    assert Aa(w2);
  }

  // And when they are not.
  lemma InnerUpright(l: Tree, x: HeapEntry, lv: nat, a: Tree, y: HeapEntry, b: Tree)
    requires Aa(l) && Lvl(l) + 1 == lv && lv < 254 && Aa(a) && Aa(b)
    requires a.Node? && b.Node? && a.level == lv == b.level && Lvl(a.right) < lv
    ensures
      var u := SplitRight(Split(SkewRightRight(Node(l, x, lv, Node(a.left, a.entry, lv, Node(a.right, y, lv, b))))));
      Aa(u) && Lvl(u) == lv + 1
  {
    var w := Node(a.right, y, lv, b);
    var u := Node(l, x, lv, Node(a.left, a.entry, lv, w));
    assert SkewRightRight(u) == u && Split(u) == Node(Node(l, x, lv, a.left), a.entry, lv + 1, w);
    Join(l, x, lv, a.left);
    if Lvl(b.right) == lv {
      var w2 := Node(Node(a.right, y, lv, b.left), b.entry, lv + 1, b.right);
      assert Split(w) == w2;
      Join(a.right, y, lv, b.left);
      Join(w2.left, b.entry, lv + 1, b.right);
    } else {
      assert Split(w) == w;
      assert Aa(w);
    }
  }

  lemma {:induction false} BalanceRight(t: Tree, r: Tree, x: HeapEntry)
    requires Aa(t) && t.Node? && Shrunk(t.right, r) && Lvl(t) < 255
    ensures Shrunk(t, Balance(Node(t.left, x, t.level, r)))
  {
    if Lvl(r) + 1 < t.level {
      RightLost(t, r, x);
    }
  }

  // The right child sank below its place: the left child is rotated over.
  lemma {:induction false} RightLost(t: Tree, r: Tree, x: HeapEntry)
    requires Aa(t) && t.Node? && Aa(r) && Lvl(r) + 2 == t.level && Lvl(t) < 255
    ensures Shrunk(t, Balance(Node(t.left, x, t.level, r)))
  {
    var lv := t.level - 1;
    var l := t.left;
    var u := Node(l, x, lv, r);
    assert Lower(Node(l, x, t.level, r)) == u;
    var w := Node(l.right, x, lv, r);
    var u1 := Node(l.left, l.entry, lv, w);
    assert Skew(u) == u1;
    if Lvl(l.right) == lv {
      var c := l.right;
      assert Aa(c) && Aa(c.left) && Aa(c.right) && Lvl(c.left) + 1 == lv && Lvl(c.right) + 1 == lv;
      var w1 := Node(c.left, c.entry, lv, Node(c.right, x, lv, r));
      var u2 := Node(l.left, l.entry, lv, w1);
      assert SkewRight(u1) == u2;
      assert SkewRightRight(u2) == u2;
      var v := Node(Node(l.left, l.entry, lv, c.left), c.entry, t.level, w1.right);
      assert Split(u2) == v;
      Join(l.left, l.entry, lv, c.left);
      Join(c.right, x, lv, r);
      Join(v.left, c.entry, t.level, v.right);
      Settled(v.right);
      assert SplitRight(v) == v;
    } else {
      Settled(r);
      Join(l.right, x, lv, r);
      assert SkewRight(u1) == u1 && SkewRightRight(u1) == u1 && Split(u1) == u1 && SplitRight(u1) == u1;
    }
  }

  lemma {:induction false} ReplaceMaxLevels(t: Tree, d: HeapEntry)
    requires t.Node? && Aa(t)
    ensures Aa(ReplaceMax(t, d)) && (Single(ReplaceMax(t, d)) <==> Single(t))
    ensures Lvl(Right(ReplaceMax(t, d))) == Lvl(Right(t))
  {
    if t.right.Node? {
      ReplaceMaxLevels(t.right, d);
    }
  }

  lemma {:induction false} RemoveLevels(t: Tree, d: HeapEntry)
    requires Aa(t) && Lvl(t) < 255
    ensures Shrunk(t, Remove(t, d))
    decreases Count(t)
  {
    if t.Node? {
      if t.entry == d {
        if t.left.Node? && t.right.Node? {
          ReplaceMaxLevels(t.left, d);
          RemoveLevels(ReplaceMax(t.left, d), d);
          BalanceLeft(t, Remove(ReplaceMax(t.left, d), d), MaxEntry(t.left));
        }
      } else if t.entry.addr < d.addr {
        RemoveLevels(t.right, d);
        BalanceRight(t, Remove(t.right, d), t.entry);
      } else {
        RemoveLevels(t.left, d);
        BalanceLeft(t, Remove(t.left, d), t.entry);
      }
    }
  }
}
