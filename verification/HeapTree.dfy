/**
 The tree operations of the heap, on linked nodes that are overwritten in place. Each method is
 tied to the function of AaTree that says what tree it leaves; the terminating node `nil` is a
 real node whose level is read and whose links are rewritten with themselves.
 */
module HeapTree {
  import opened HeapEntries
  import opened AaTree
  import opened AaRuns

  // The linked structure at root is the tree t.
  ghost predicate Linked(root: HeapEntry, nil: HeapEntry, t: Tree)
    reads nil`left, nil`right, nil`level, Entries(t)`left, Entries(t)`right, Entries(t)`level
  {
    && NilOk(nil)
    && root == Root(t, nil)
    && Shape(t, nil)
  }

  lemma {:induction false} NilIsOutside(t: Tree, nil: HeapEntry)
    requires Shape(t, nil)
    ensures nil !in Entries(t)
  {
    if t.Node? {
      NilIsOutside(t.left, nil);
      NilIsOutside(t.right, nil);
    }
  }

  lemma {:induction false} AllAllocated(t: Tree)
    ensures forall e <- Entries(t) :: allocated(e)
  {
    if t.Node? {
      AllAllocated(t.left);
      AllAllocated(t.right);
    }
  }

  lemma Children(t: Tree, nil: HeapEntry)
    requires Shape(t, nil) && Distinct(t) && NilOk(nil)
    ensures nil !in Entries(t)
    ensures t.Node? ==> Linked(t.entry.left, nil, t.left) && Linked(t.entry.right, nil, t.right)
    ensures t.Node? ==> Distinct(t.left) && Distinct(t.right) && t.entry.level == t.level
  {
  }

  method TreeSkew(root: HeapEntry, nil: HeapEntry, ghost t: Tree) returns (r: HeapEntry)
    requires Linked(root, nil, t) && Distinct(t)
    modifies Entries(t)`left, Entries(t)`right
    ensures Linked(r, nil, Skew(t))
  {
    Children(t, nil);
    assert t.Node? ==> root.level == t.level && root.left.level == Lvl(t.left);
    r := root;
    if root.left.level == root.level && root.level != 0 {
      var save := root.left;
      assert t.Node? && t.left.Node? && Shape(t.left, nil) && Distinct(t.left);
      assert save == t.left.entry && Shape(t.left.left, nil) && Shape(t.left.right, nil);
      root.left := save.right;
      save.right := root;
      r := save;
    }
  }

  method TreeSplit(root: HeapEntry, nil: HeapEntry, ghost t: Tree) returns (r: HeapEntry)
    requires Linked(root, nil, t) && Distinct(t)
    modifies Entries(t)`left, Entries(t)`right, Entries(t)`level
    ensures Linked(r, nil, Split(t))
  {
    Children(t, nil);
    r := root;
    RightRightLevel(t, nil);
    if root.right.right.level == root.level && root.level != 0 {
      var save := root.right;
      assert t.Node? && t.right.Node? && Shape(t.right, nil) && Distinct(t.right);
      assert save == t.right.entry && Shape(t.right.left, nil) && Shape(t.right.right, nil);
      root.right := save.left;
      save.left := root;
      r := save;
      r.level := Inc8(r.level);
    }
  }

  lemma RightRightLevel(t: Tree, nil: HeapEntry)
    requires Linked(Root(t, nil), nil, t)
    ensures Root(t, nil).right.right.level == Lvl(Right(Right(t)))
  {
    if t.Node? && t.right.Node? {
      assert Shape(t.right, nil) && Shape(t.right.right, nil);
    }
  }

  // root.right := TreeSkew(root.right), which for nil writes back nil.
  method SkewRightChild(root: HeapEntry, nil: HeapEntry, ghost t: Tree)
    requires Linked(root, nil, t) && Distinct(t)
    modifies nil`right, Entries(t)`left, Entries(t)`right
    ensures Linked(root, nil, SkewRight(t)) && Distinct(SkewRight(t)) && Entries(SkewRight(t)) == Entries(t)
  {
    Children(t, nil);
    SkewDistinct(Right(t));
    AllAllocated(t);
    var r := TreeSkew(root.right, nil, Right(t));
    assert t.Node? ==> Shape(t.left, nil);
    root.right := r;
    assert t.Node? ==> Shape(t.left, nil) && Shape(Skew(t.right), nil);
  }

  // root.right := TreeSplit(root.right), which for nil writes back nil.
  method SplitRightChild(root: HeapEntry, nil: HeapEntry, ghost t: Tree)
    requires Linked(root, nil, t) && Distinct(t)
    modifies nil`right, Entries(t)`left, Entries(t)`right, Entries(t)`level
    ensures Linked(root, nil, SplitRight(t))
  {
    Children(t, nil);
    SplitDistinct(Right(t));
    AllAllocated(t);
    var r := TreeSplit(root.right, nil, Right(t));
    assert t.Node? ==> Shape(t.left, nil);
    root.right := r;
    assert t.Node? ==> Shape(t.left, nil) && Shape(Split(t.right), nil);
  }

  method LowerLevels(root: HeapEntry, nil: HeapEntry, ghost t: Tree)
    requires Linked(root, nil, t) && Distinct(t) && t.Node? && t.level > 0
    modifies Entries(t)`level
    ensures Linked(root, nil, Lower(t)) && Distinct(Lower(t)) && Entries(Lower(t)) == Entries(t)
  {
    Children(t, nil);
    Children(t.right, nil);
    LowerDistinct(t);
    root.level := root.level - 1;
    if root.right.level > root.level {
      root.right.level := root.level;
      assert Shape(t.right.(level := root.level), nil);
    }
  }

  method TreeBalance(root: HeapEntry, nil: HeapEntry, ghost t: Tree) returns (r: HeapEntry)
    requires Linked(root, nil, t) && Distinct(t)
    modifies nil`right, Entries(t)`left, Entries(t)`right, Entries(t)`level
    ensures Linked(r, nil, Balance(t))
  {
    Children(t, nil);
    r := root;
    if root.left.level < root.level - 1 || root.right.level < root.level - 1 {
      LowerLevels(root, nil, t);
      ghost var t0 := Lower(t);
      r := TreeSkew(root, nil, t0);
      SkewDistinct(t0);
      SkewRightChild(r, nil, Skew(t0));
      SkewRightRightChild(r, nil, SkewRight(Skew(t0)));
      ghost var t3 := SkewRightRight(SkewRight(Skew(t0)));
      r := TreeSplit(r, nil, t3);
      SplitDistinct(t3);
      SplitRightChild(r, nil, Split(t3));
    }
  }

  // root.right.right := TreeSkew(root.right.right)
  method SkewRightRightChild(root: HeapEntry, nil: HeapEntry, ghost t: Tree)
    requires Linked(root, nil, t) && Distinct(t)
    modifies nil`right, Entries(t)`left, Entries(t)`right
    ensures Linked(root, nil, SkewRightRight(t))
    ensures Distinct(SkewRightRight(t)) && Entries(SkewRightRight(t)) == Entries(t)
  {
    Children(t, nil);
    AllAllocated(t);
    SkewRightChild(root.right, nil, Right(t));
    assert t.Node? ==> Shape(t.left, nil);
  }

  lemma SkewDistinct(t: Tree)
    requires Distinct(t)
    ensures Distinct(Skew(t)) && Entries(Skew(t)) == Entries(t)
  {
  }

  lemma SplitDistinct(t: Tree)
    requires Distinct(t)
    ensures Distinct(Split(t)) && Entries(Split(t)) == Entries(t)
  {
  }

  lemma LowerDistinct(t: Tree)
    requires Distinct(t) && t.Node? && t.level > 0
    ensures Distinct(Lower(t)) && Entries(Lower(t)) == Entries(t)
  {
  }

  // root->pLink[1] = c, where the tree at c is r.
  method LinkRight(root: HeapEntry, c: HeapEntry, nil: HeapEntry, ghost t: Tree, ghost r: Tree)
    requires t.Node? && root == t.entry && root != nil && root.level == t.level && root.left == Root(t.left, nil)
    requires Linked(c, nil, r) && Shape(t.left, nil) && Distinct(t.(right := r))
    modifies root`right
    ensures Linked(root, nil, t.(right := r))
  {
    root.right := c;
    assert Shape(r, nil) && Shape(t.left, nil);
  }

  // root->pLink[0] = c, where the tree at c is l.
  method LinkLeft(root: HeapEntry, c: HeapEntry, nil: HeapEntry, ghost t: Tree, ghost l: Tree)
    requires t.Node? && root == t.entry && root != nil && root.level == t.level && root.right == Root(t.right, nil)
    requires Linked(c, nil, l) && Shape(t.right, nil) && Distinct(t.(left := l))
    modifies root`left
    ensures Linked(root, nil, t.(left := l))
  {
    root.left := c;
    assert Shape(l, nil) && Shape(t.right, nil);
  }

  // ---------------------------------------------------------------- insertion

  method TreeInsert(root: HeapEntry, entry: HeapEntry, nil: HeapEntry, ghost t: Tree, ghost lo: int, ghost hi: int)
    returns (r: HeapEntry)
    requires Linked(root, nil, t) && Between(t, lo, hi) && lo < entry.addr < hi && entry != nil
    requires forall x <- Entries(t) :: x.addr != entry.addr
    modifies entry`marked, (Entries(t) + {entry})`left, (Entries(t) + {entry})`right, (Entries(t) + {entry})`level
    ensures Linked(r, nil, Insert(t, entry)) && entry.marked == 0
    decreases t
  {
    BetweenIsDistinct(t, lo, hi);
    Children(t, nil);
    AllAllocated(t);
    if root == nil {
      r := entry;
      r.level := 1;
      r.left, r.right := nil, nil;
      r.marked := 0;
    } else {
      ghost var u;
      if root.addr < entry.addr {
        var c := TreeInsert(root.right, entry, nil, t.right, t.entry.addr, hi);
        InsertAdds(t.right, entry, t.entry.addr, hi);
        u := t.(right := Insert(t.right, entry));
        BetweenIsDistinct(u, lo, hi);
        LinkRight(root, c, nil, t, u.right);
      } else {
        var c := TreeInsert(root.left, entry, nil, t.left, lo, t.entry.addr);
        InsertAdds(t.left, entry, lo, t.entry.addr);
        u := t.(left := Insert(t.left, entry));
        BetweenIsDistinct(u, lo, hi);
        LinkLeft(root, c, nil, t, u.left);
      }
      r := SkewAndSplit(root, nil, u);
    }
  }

  method SkewAndSplit(root: HeapEntry, nil: HeapEntry, ghost t: Tree) returns (r: HeapEntry)
    requires Linked(root, nil, t) && Distinct(t)
    modifies Entries(t)`left, Entries(t)`right, Entries(t)`level
    ensures Linked(r, nil, Split(Skew(t)))
  {
    SkewDistinct(t);
    r := TreeSkew(root, nil, t);
    r := TreeSplit(r, nil, Skew(t));
  }

  // ---------------------------------------------------------------- deletion

  // The node whose right link leads to the rightmost node.
  ghost function HeirParent(t: Tree): HeapEntry
    requires t.Node? && t.right.Node?
  {
    if t.right.right.Leaf? then t.entry else HeirParent(t.right)
  }

  lemma {:induction false} HeirIsInside(t: Tree)
    requires t.Node?
    ensures MaxEntry(t) in Entries(t)
    ensures t.right.Node? ==> HeirParent(t) in Entries(t)
    ensures Distinct(t) && t.right.Node? ==> HeirParent(t) != MaxEntry(t)
  {
    if t.right.Node? {
      HeirIsInside(t.right);
    }
  }

  datatype Links = Links(left: HeapEntry, right: HeapEntry, level: nat)

  ghost function LinksOf(s: set<HeapEntry>): map<HeapEntry, Links>
    reads s
  {
    map x <- s :: Links(x.left, x.right, x.level)
  }

  // The shape of t, in recorded links rather than in memory.
  ghost predicate ShapeIn(m: map<HeapEntry, Links>, t: Tree, nil: HeapEntry) {
    match t
    case Leaf => true
    case Node(l, e, lv, r) =>
      && e != nil && e in m && m[e] == Links(Root(l, nil), Root(r, nil), lv)
      && ShapeIn(m, l, nil) && ShapeIn(m, r, nil)
  }

  lemma {:induction false} RecordShape(t: Tree, s: set<HeapEntry>, nil: HeapEntry)
    requires Entries(t) <= s
    ensures ShapeIn(LinksOf(s), t, nil) == Shape(t, nil)
  {
    if t.Node? {
      RecordShape(t.left, s, nil);
      RecordShape(t.right, s, nil);
    }
  }

  lemma {:induction false} SameLinks(m: map<HeapEntry, Links>, m': map<HeapEntry, Links>, t: Tree, nil: HeapEntry)
    requires ShapeIn(m, t, nil)
    requires forall x <- Entries(t) :: x in m && x in m' && m'[x] == m[x]
    ensures ShapeIn(m', t, nil)
  {
    if t.Node? {
      SameLinks(m, m', t.left, nil);
      SameLinks(m, m', t.right, nil);
    }
  }

  // Relinking the parent of the rightmost node to d, and giving d that node's links, replaces it by d.
  lemma {:induction false} Graft(
    m: map<HeapEntry, Links>, m': map<HeapEntry, Links>, t: Tree, d: HeapEntry, nil: HeapEntry)
    requires t.Node? && ShapeIn(m, t, nil) && Distinct(t) && d !in Entries(t) && d != nil && d in m'
    requires forall x <- Entries(t) :: x in m && x in m'
    requires forall x <- Entries(t) - {MaxEntry(t)} ::
               m'[x] == if t.right.Node? && x == HeirParent(t) then m[x].(right := d) else m[x]
    requires MaxEntry(t) in m && m'[d] == m[MaxEntry(t)].(right := nil)
    ensures ShapeIn(m', ReplaceMax(t, d), nil)
  {
    HeirIsInside(t);
    if t.right.Node? {
      HeirIsInside(t.right);
      SameLinks(m, m', t.left, nil);
      Graft(m, m', t.right, d, nil);
    } else {
      SameLinks(m, m', t.left, nil);
    }
  }

  // Walks to the rightmost node of the tree at start, remembering the link that leads to it; for
  // the top node itself that link is its own left one.
  method FindHeir(start: HeapEntry, nil: HeapEntry, ghost l: Tree)
    returns (heir: HeapEntry, linkOwner: HeapEntry, linkIsRight: bool)
    requires Linked(start, nil, l) && l.Node?
    ensures heir == MaxEntry(l)
    ensures linkIsRight == l.right.Node?
    ensures linkOwner == if linkIsRight then HeirParent(l) else heir
  {
    heir := start;
    linkOwner, linkIsRight := heir, false;
    ghost var cur := l;
    while heir.right != nil
      invariant cur.Node? && heir == cur.entry && Shape(cur, nil)
      invariant MaxEntry(cur) == MaxEntry(l) && (cur.right.Node? ==> l.right.Node? && HeirParent(cur) == HeirParent(l))
      invariant !linkIsRight ==> cur == l && linkOwner == heir
      invariant linkIsRight ==> l.right.Node? && (cur.right.Leaf? ==> linkOwner == HeirParent(l))
      decreases cur
    {
      linkOwner, linkIsRight := heir, true;
      heir := heir.right;
      cur := cur.right;
    }
  }

  // Exchanges the root with the rightmost node of its left subtree, which comes to stand in its place.
  method SwapWithHeir(root: HeapEntry, nil: HeapEntry, ghost t: Tree) returns (heir: HeapEntry)
    requires Linked(root, nil, t) && Distinct(t) && t.Node? && t.left.Node? && t.right.Node?
    modifies Entries(t)`left, Entries(t)`right, Entries(t)`level
    ensures Linked(heir, nil, Node(ReplaceMax(t.left, root), MaxEntry(t.left), t.level, t.right))
  {
    Children(t, nil);
    AllAllocated(t);
    ghost var l := t.left;
    ghost var s := Entries(l) + {root};
    RecordShape(l, s, nil);
    ghost var m := LinksOf(s);
    HeirIsInside(l);
    var linkOwner, linkIsRight;
    heir, linkOwner, linkIsRight := FindHeir(root.left, nil, l);
    assert Shape(t.right, nil) && {heir, linkOwner, root} !! Entries(t.right);
    ExchangeNodes(root, nil, heir, linkOwner, linkIsRight);
    assert Shape(t.right, nil);
    HeirSwapped(m, t, nil);
  }

  // Brings the heir to the root's place and sends the root to the heir's.
  method ExchangeNodes(root: HeapEntry, nil: HeapEntry, heir: HeapEntry, linkOwner: HeapEntry, linkIsRight: bool)
    requires heir != root && linkOwner != root && (linkIsRight <==> linkOwner != heir)
    modifies {root, heir, linkOwner}`left, {root, heir, linkOwner}`right, {root, heir, linkOwner}`level
    ensures heir.left == if linkIsRight then old(root.left) else root
    ensures heir.right == old(root.right) && heir.level == old(root.level)
    ensures root.left == old(heir.left) && root.right == nil && root.level == old(heir.level)
    ensures linkIsRight ==>
              linkOwner.right == root && linkOwner.left == old(linkOwner.left) && linkOwner.level == old(linkOwner.level)
  {
    var heirLeft, heirLevel := heir.left, heir.level;
    heir.left := root.left;
    heir.right := root.right;
    heir.level := root.level;
    if linkIsRight {
      linkOwner.right := root;
    } else {
      linkOwner.left := root;
    }
    root.left := heirLeft;
    root.right := nil;
    root.level := heirLevel;
  }

  lemma HeirSwapped(m: map<HeapEntry, Links>, t: Tree, nil: HeapEntry)
    requires Distinct(t) && t.Node? && t.left.Node? && t.right.Node? && NilOk(nil) && t.entry != nil
    requires m.Keys == Entries(t.left) + {t.entry} && ShapeIn(m, t.left, nil) && Shape(t.right, nil)
    requires MaxEntry(t.left) in m
    requires
      var heir, root := MaxEntry(t.left), t.entry;
      && (forall x <- Entries(t.left) - {heir} ::
            Links(x.left, x.right, x.level) == if t.left.right.Node? && x == HeirParent(t.left) then m[x].(right := root) else m[x])
      && Links(root.left, root.right, root.level) == m[heir].(right := nil)
      && heir.left == (if t.left.right.Node? then t.left.entry else root)
      && heir.right == t.right.entry && heir.level == t.level
    ensures
      Linked(MaxEntry(t.left), nil, Node(ReplaceMax(t.left, t.entry), MaxEntry(t.left), t.level, t.right))
  {
    var l, root := t.left, t.entry;
    var s := Entries(l) + {root};
    HeirIsInside(l);
    Graft(m, LinksOf(s), l, root, nil);
    ReplaceMaxEntries(l, root);
    RecordShape(ReplaceMax(l, root), s, nil);
    InShape(m, l, nil);
  }

  lemma {:induction false} InShape(m: map<HeapEntry, Links>, t: Tree, nil: HeapEntry)
    requires ShapeIn(m, t, nil)
    ensures nil !in Entries(t)
  {
    if t.Node? {
      InShape(m, t.left, nil);
      InShape(m, t.right, nil);
    }
  }

  lemma {:induction false} ReplaceMaxEntries(t: Tree, d: HeapEntry)
    requires t.Node? && Distinct(t) && d !in Entries(t)
    ensures Entries(ReplaceMax(t, d)) == Entries(t) - {MaxEntry(t)} + {d}
    ensures Distinct(ReplaceMax(t, d))
  {
    HeirIsInside(t);
    if t.right.Node? {
      HeirIsInside(t.right);
      ReplaceMaxEntries(t.right, d);
    }
  }

  method TreeRemove(root: HeapEntry, del: HeapEntry, nil: HeapEntry, ghost t: Tree, ghost lo: int, ghost hi: int)
    returns (r: HeapEntry)
    requires Linked(root, nil, t) && Between(t, lo, hi)
    modifies nil`right, Entries(t)`left, Entries(t)`right, Entries(t)`level
    ensures Linked(r, nil, Remove(t, del))
    decreases Count(t)
  {
    BetweenIsDistinct(t, lo, hi);
    Children(t, nil);
    AllAllocated(t);
    r := root;
    ghost var u := t;
    if root != nil {
      if root == del {
        if root.left != nil && root.right != nil {
          r, u := RemoveSwapped(root, nil, t, lo, hi);
        } else {
          r := if root.left == nil then root.right else root.left;
          u := if t.left.Leaf? then t.right else t.left;
        }
      } else if root.addr < del.addr {
        var c := TreeRemove(root.right, del, nil, t.right, t.entry.addr, hi);
        RemoveTakes(t.right, del, t.entry.addr, hi);
        u := t.(right := Remove(t.right, del));
        BetweenIsDistinct(u, lo, hi);
        LinkRight(root, c, nil, t, u.right);
      } else {
        var c := TreeRemove(root.left, del, nil, t.left, lo, t.entry.addr);
        RemoveTakes(t.left, del, lo, t.entry.addr);
        u := t.(left := Remove(t.left, del));
        BetweenIsDistinct(u, lo, hi);
        LinkLeft(root, c, nil, t, u.left);
      }
    }
    r := TreeBalance(r, nil, u);
  }

  // The case of two children: swap with the heir, then delete the node that was sent down.
  method RemoveSwapped(root: HeapEntry, nil: HeapEntry, ghost t: Tree, ghost lo: int, ghost hi: int)
    returns (heir: HeapEntry, ghost u: Tree)
    requires Linked(root, nil, t) && Between(t, lo, hi) && t.Node? && t.left.Node? && t.right.Node?
    modifies nil`right, Entries(t)`left, Entries(t)`right, Entries(t)`level
    ensures u == Node(Remove(ReplaceMax(t.left, root), root), MaxEntry(t.left), t.level, t.right)
    ensures Linked(heir, nil, u) && Distinct(u) && Entries(u) <= Entries(t)
    decreases Count(t), 0
  {
    BetweenIsDistinct(t, lo, hi);
    ReplaceMaxOrder(t.left, root, lo);
    ReplaceMaxEntries(t.left, root);
    heir := SwapWithHeir(root, nil, t);
    ghost var l := ReplaceMax(t.left, root);
    ghost var v := Node(l, MaxEntry(t.left), t.level, t.right);
    HeirIsInside(t.left);
    Children(v, nil);
    AllAllocated(v);
    var c := TreeRemove(heir.left, root, nil, l, lo, root.addr + 1);
    RemoveTakes(l, root, lo, root.addr + 1);
    BetweenIsDistinct(Remove(l, root), lo, root.addr + 1);
    u := v.(left := Remove(l, root));
    LinkLeft(heir, c, nil, v, u.left);
  }

  // ---------------------------------------------------------------- search

  // The extent of an entry is closed: its end address belongs to it, so that objects of no
  // size at all can be found.
  ghost predicate Contains(e: HeapEntry, memRef: int) {
    e.addr <= memRef <= e.addr + e.size
  }

  // No two extents meet.
  ghost predicate Apart(s: set<HeapEntry>) {
    forall x, y :: x in s && y in s && x.addr < y.addr ==> x.addr + x.size < y.addr
  }

  method TreeSearch(root: HeapEntry, memRef: int, nil: HeapEntry, ghost t: Tree, ghost lo: int, ghost hi: int)
    returns (r: HeapEntry)
    requires Linked(root, nil, t) && Between(t, lo, hi) && Apart(Entries(t))
    ensures r != nil ==> r in Entries(t) && Contains(r, memRef)
    ensures forall e <- Entries(t) :: Contains(e, memRef) ==> e == r
    ensures r == nil <==> forall e <- Entries(t) :: !Contains(e, memRef)
  {
    NilIsOutside(t, nil);
    r := root;
    ghost var u, l, h := t, lo, hi;
    while r != nil
      invariant Linked(r, nil, u) && Between(u, l, h) && Entries(u) <= Entries(t)
      invariant forall e <- Entries(t) :: Contains(e, memRef) ==> e in Entries(u)
      decreases u
    {
      InRange(u.left, l, u.entry.addr);
      InRange(u.right, u.entry.addr, h);
      if memRef < r.addr {
        r, u, h := r.left, u.left, r.addr;
      } else if memRef > r.addr + r.size {
        forall e | e in Entries(u.left) ensures !Contains(e, memRef) {
          assert e in Entries(t) && e.addr < r.addr;
        }
        r, u, l := r.right, u.right, r.addr;
      } else {
        forall e | e in Entries(u.left) + Entries(u.right) ensures !Contains(e, memRef) {
          assert e in Entries(t) && r in Entries(t);
        }
        break;
      }
    }
  }
}
