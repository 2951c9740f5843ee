/**
 The sweep phase. The tree is walked with an explicit stack of 80 slots; entries not marked are
 queued for finalization or put on a list, and the entries of that list are then deleted
 from the tree.
 */
module Sweeping {
  import opened HeapEntries
  import opened AaRuns
  import opened AaTree
  import opened HeapTree
  import opened Finalizers

  const MAX_TREE_DEPTH := 40

  // ---------------------------------------------------------------- the trees on the stack

  // The stack of the walk, as the subtrees whose roots its slots hold.
  datatype Forest = Empty | Stacked(top: Tree, below: Forest)

  ghost function Depth(f: Forest): nat {
    if f.Empty? then 0 else Depth(f.below) + 1
  }

  // u is a tree that is not empty, on top of the others.
  ghost function Push(f: Forest, u: Tree): Forest {
    if u.Leaf? then f else Stacked(u, f)
  }

  // The right subtree of u and then the left one go on top of the others, as far as they are not empty.
  ghost function WithChildren(f: Forest, u: Tree): Forest
    requires u.Node?
  {
    Push(Push(f, u.right), u.left)
  }

  // The entries still to be visited when these trees are stacked.
  ghost function LeftIn(f: Forest): set<HeapEntry> {
    if f.Empty? then {} else Entries(f.top) + LeftIn(f.below)
  }

  ghost function Size(f: Forest): nat {
    if f.Empty? then 0 else Count(f.top) + Size(f.below)
  }

  // No entry is stacked twice.
  ghost predicate Disjoint(f: Forest) {
    f.Stacked? ==> Distinct(f.top) && Entries(f.top) !! LeftIn(f.below) && Disjoint(f.below)
  }

  // Replacing the top tree by its children takes its root off the entries still to be visited.
  lemma ChildrenPushed(f: Forest)
    requires f.Stacked? && f.top.Node? && Disjoint(f)
    ensures
      var g := WithChildren(f.below, f.top);
      && LeftIn(f) == LeftIn(g) + {f.top.entry} && f.top.entry !in LeftIn(g)
      && Size(g) < Size(f) && Disjoint(g)
  {
  }

  ghost predicate Subtree(u: Tree, t: Tree) {
    u == t || (t.Node? && (Subtree(u, t.left) || Subtree(u, t.right)))
  }

  lemma {:induction false} SubtreeShape(u: Tree, t: Tree, links: map<HeapEntry, Links>, nil: HeapEntry)
    requires Subtree(u, t) && ShapeIn(links, t, nil)
    ensures ShapeIn(links, u, nil) && Entries(u) <= Entries(t)
    decreases t
  {
    if u != t {
      if Subtree(u, t.left) {
        SubtreeShape(u, t.left, links, nil);
      } else {
        SubtreeShape(u, t.right, links, nil);
      }
    }
  }

  lemma {:induction false} SubtreeChildren(u: Tree, t: Tree)
    requires Subtree(u, t) && u.Node?
    ensures Subtree(u.left, t) && Subtree(u.right, t)
    decreases t
  {
    if u != t {
      if Subtree(u, t.left) {
        SubtreeChildren(u, t.left);
      } else {
        SubtreeChildren(u, t.right);
      }
    }
  }

  // These subtrees of t fit on a stack of h slots: none rises above h when it stands on those below.
  ghost predicate Fits(f: Forest, h: nat, t: Tree) {
    f.Stacked? ==> f.top.Node? && Depth(f.below) + Height(f.top) <= h && Subtree(f.top, t) && Fits(f.below, h, t)
  }

  // The slots of the explicit stack hold the roots of these trees.
  ghost predicate HoldsRoots(up: seq<HeapEntry>, f: Forest) {
    f.Stacked? ==>
      f.top.Node? && Depth(f.below) < |up| && up[Depth(f.below)] == f.top.entry && HoldsRoots(up, f.below)
  }

  // Slots above the stack may be overwritten.
  lemma {:induction false} HoldsStill(up: seq<HeapEntry>, i: nat, e: HeapEntry, f: Forest)
    requires HoldsRoots(up, f) && Depth(f) <= i < |up|
    ensures HoldsRoots(up[i := e], f)
  {
    if f.Stacked? {
      HoldsStill(up, i, e, f.below);
    }
  }

  // The children of the top tree fit in its place.
  lemma FitsChildren(f: Forest, h: nat, t: Tree)
    requires f.Stacked? && Fits(f, h, t)
    ensures Fits(WithChildren(f.below, f.top), h, t)
    ensures Depth(WithChildren(f.below, f.top)) <= h
  {
    var u := f.top;
    SubtreeChildren(u, t);
    assert u.left.Node? ==> Height(u) > Height(u.left) > 0;
    assert u.right.Node? ==> Height(u) > Height(u.right) > 0;
    assert Fits(Push(f.below, u.right), h, t);
  }

  // ---------------------------------------------------------------- the fate of each entry

  // The marks of the entries when the sweep starts decide what becomes of them.
  datatype Marks = Marks(marked: nat, needToFinalize: nat)

  ghost function MarksOf(s: set<HeapEntry>): map<HeapEntry, Marks>
    reads s`marked, s`needToFinalize
  {
    map e <- s :: Marks(e.marked, e.needToFinalize)
  }

  ghost function Dead(m: map<HeapEntry, Marks>): set<HeapEntry> {
    set e | e in m && m[e] == Marks(0, 0)
  }

  ghost function ToFinalize(m: map<HeapEntry, Marks>): set<HeapEntry> {
    set e | e in m && m[e] == Marks(0, 1)
  }

  ghost function Pinned(m: map<HeapEntry, Marks>): set<HeapEntry> {
    set e | e in m && m[e].marked == PINNED
  }

  function MarkAfter(marked: nat): nat {
    if marked == PINNED then PINNED else 0
  }

  // The marks an entry has after the sweep.
  ghost function AfterVisit(m: Marks): Marks {
    Marks(MarkAfter(m.marked), if m == Marks(0, 1) then 2 else m.needToFinalize)
  }

  // What has become of the entries already visited, and that the others are as they were.
  ghost predicate Walked(s: set<HeapEntry>, m: map<HeapEntry, Marks>, done: set<HeapEntry>)
    reads s`marked, s`needToFinalize
  {
    && m.Keys == s
    && forall e <- s :: Marks(e.marked, e.needToFinalize) == if e in done then AfterVisit(m[e]) else m[e]
  }

  // No entry occurs twice.
  ghost predicate NoDuplicates(s: seq<HeapEntry>) {
    forall i, j :: 0 <= i < j < |s| ==> s[i] != s[j]
  }

  // The sequence collects, without repetition, the entries of m among those done.
  ghost predicate Collects(list: seq<HeapEntry>, done: set<HeapEntry>, m: set<HeapEntry>) {
    NoDuplicates(list) && (forall e <- list :: e in done && e in m) && (forall e <- done :: e in m ==> e in list)
  }

  lemma CollectsNext(list: seq<HeapEntry>, done: set<HeapEntry>, m: set<HeapEntry>, e: HeapEntry)
    requires Collects(list, done, m) && e !in done
    ensures e in m ==> Collects(list + [e], done + {e}, m)
    ensures e !in m ==> Collects(list, done + {e}, m)
  {
  }

  // ---------------------------------------------------------------- the walk

  // The action on one node: unmark it, or queue it for finalization, or put it on the deletion list.
  method Visit(node: HeapEntry, queue: FinalizerQueue, toDelete: seq<HeapEntry>)
    returns (newToDelete: seq<HeapEntry>, pinned: bool)
    requires queue.Valid()
    modifies node`marked, node`needToFinalize, queue, queue.toFinalize
    ensures queue.Valid() && (queue.toFinalize == old(queue.toFinalize) || fresh(queue.toFinalize))
    ensures Marks(node.marked, node.needToFinalize) == AfterVisit(old(Marks(node.marked, node.needToFinalize)))
    ensures pinned <==> old(node.marked) == PINNED
    ensures queue.Contents() == old(queue.Contents()) +
              if old(Marks(node.marked, node.needToFinalize)) == Marks(0, 1) then [node] else []
    ensures newToDelete == if old(Marks(node.marked, node.needToFinalize)) == Marks(0, 0) then toDelete + [node] else toDelete
  {
    newToDelete, pinned := toDelete, false;
    if node.marked != 0 {
      if node.marked != PINNED {
        node.marked := 0;
      } else {
        pinned := true;
      }
    } else if node.needToFinalize != 0 {
      if node.needToFinalize == 1 {
        queue.AddFinalizer(node);
        node.needToFinalize := 2;
      }
    } else {
      newToDelete := toDelete + [node];
    }
  }

  // Replaces the top of the stack, which held node, by the children of node.
  method PushChildren(up: array<HeapEntry>, top: nat, node: HeapEntry, nil: HeapEntry, ghost below: Forest, ghost u: Tree)
    returns (newTop: nat)
    requires u.Node? && node == u.entry && node.left == Root(u.left, nil) && node.right == Root(u.right, nil)
    requires nil !in Entries(u)
    requires Depth(below) == top && HoldsRoots(up[..], below) && Depth(WithChildren(below, u)) <= up.Length
    modifies up
    ensures newTop == Depth(WithChildren(below, u)) && HoldsRoots(up[..], WithChildren(below, u))
  {
    newTop := top;
    if node.right != nil {
      HoldsStill(up[..], newTop, node.right, below);
      ghost var before := up[..];
      up[newTop] := node.right;
      assert up[..] == before[newTop := node.right];
      newTop := newTop + 1;
    }
    if node.left != nil {
      HoldsStill(up[..], newTop, node.left, Push(below, u.right));
      ghost var before := up[..];
      up[newTop] := node.left;
      assert up[..] == before[newTop := node.left];
      newTop := newTop + 1;
    }
  }

  // The entries are those visited and those under the stacked trees, which fit the stack.
  ghost predicate Midway(f: Forest, h: nat, t: Tree, done: set<HeapEntry>) {
    && Fits(f, h, t) && Disjoint(f)
    && done !! LeftIn(f) && done + LeftIn(f) == Entries(t)
  }

  lemma MidwayNext(f: Forest, h: nat, t: Tree, done: set<HeapEntry>)
    requires f.Stacked? && Midway(f, h, t, done)
    ensures Midway(WithChildren(f.below, f.top), h, t, done + {f.top.entry})
    ensures f.top.entry in Entries(t) - done
    ensures Size(WithChildren(f.below, f.top)) < Size(f)
    ensures Depth(WithChildren(f.below, f.top)) <= h
  {
    FitsChildren(f, h, t);
    ChildrenPushed(f);
    var e, g := f.top.entry, WithChildren(f.below, f.top);
    assert (done + {e}) + LeftIn(g) == done + LeftIn(f);
  }

  // What the walk gathers: the entries it queues, those it will delete, and the number it finds pinned.
  datatype Gathered = Gathered(queued: seq<HeapEntry>, toDelete: seq<HeapEntry>, numPinned: nat)

  ghost function Gather(g: Gathered, e: HeapEntry, m: Marks): Gathered {
    Gathered(if m == Marks(0, 1) then g.queued + [e] else g.queued,
             if m == Marks(0, 0) then g.toDelete + [e] else g.toDelete,
             if m.marked == PINNED then g.numPinned + 1 else g.numPinned)
  }

  ghost predicate Tally(g: Gathered, m: map<HeapEntry, Marks>, done: set<HeapEntry>) {
    && Collects(g.queued, done, ToFinalize(m))
    && Collects(g.toDelete, done, Dead(m))
    && g.numPinned == |done * Pinned(m)|
  }

  lemma TallyNext(g: Gathered, m: map<HeapEntry, Marks>, done: set<HeapEntry>, e: HeapEntry)
    requires Tally(g, m, done) && e in m && e !in done
    ensures Tally(Gather(g, e, m[e]), m, done + {e})
  {
    CollectsNext(g.queued, done, ToFinalize(m), e);
    CollectsNext(g.toDelete, done, Dead(m), e);
    PinnedNext(done, Pinned(m), e);
  }

  lemma PinnedNext(done: set<HeapEntry>, pinned: set<HeapEntry>, e: HeapEntry)
    requires e !in done
    ensures |(done + {e}) * pinned| == |done * pinned| + if e in pinned then 1 else 0
  {
    assert (done + {e}) * pinned == done * pinned + if e in pinned then {e} else {};
  }

  // Acts on an entry not yet visited.
  method Act(node: HeapEntry, queue: FinalizerQueue, toDelete: seq<HeapEntry>, ghost s: set<HeapEntry>,
             ghost m: map<HeapEntry, Marks>, ghost done: set<HeapEntry>)
    returns (newToDelete: seq<HeapEntry>, pinned: bool)
    requires Walked(s, m, done) && node in s - done && queue.Valid()
    modifies node`marked, node`needToFinalize, queue, queue.toFinalize
    ensures Walked(s, m, done + {node})
    ensures queue.Valid() && (queue.toFinalize == old(queue.toFinalize) || fresh(queue.toFinalize))
    ensures queue.Contents() == old(queue.Contents()) + if m[node] == Marks(0, 1) then [node] else []
    ensures newToDelete == if m[node] == Marks(0, 0) then toDelete + [node] else toDelete
    ensures pinned <==> m[node].marked == PINNED
  {
    newToDelete, pinned := Visit(node, queue, toDelete);
  }

  lemma Queued(q: seq<HeapEntry>, g: Gathered, e: HeapEntry, m: Marks)
    ensures q + Gather(g, e, m).queued == q + g.queued + if m == Marks(0, 1) then [e] else []
  {
  }

  // Pops the top of the stack, acts on that entry and pushes its children.
  method Step(up: array<HeapEntry>, top: nat, nil: HeapEntry, queue: FinalizerQueue, toDelete: seq<HeapEntry>,
              numPinned: nat, ghost f: Forest, ghost s: set<HeapEntry>, ghost m: map<HeapEntry, Marks>,
              ghost done: set<HeapEntry>, ghost g: Gathered, ghost q: seq<HeapEntry>)
    returns (newTop: nat, newToDelete: seq<HeapEntry>, newNumPinned: nat)
    requires f.Stacked? && top == Depth(f) && HoldsRoots(up[..], f)
    requires Depth(WithChildren(f.below, f.top)) <= up.Length
    requires ShapeIn(LinksOf(s), f.top, nil) && Entries(f.top) <= s && nil !in s
    requires Walked(s, m, done) && f.top.entry !in done
    requires queue.Valid() && queue.toFinalize != up
    requires toDelete == g.toDelete && numPinned == g.numPinned && queue.Contents() == q + g.queued
    modifies s`marked, s`needToFinalize, queue, queue.toFinalize, up
    ensures newTop == Depth(WithChildren(f.below, f.top)) && HoldsRoots(up[..], WithChildren(f.below, f.top))
    ensures Walked(s, m, done + {f.top.entry}) && LinksOf(s) == old(LinksOf(s))
    ensures queue.Valid() && (queue.toFinalize == old(queue.toFinalize) || fresh(queue.toFinalize))
    ensures
      var h := Gather(g, f.top.entry, m[f.top.entry]);
      newToDelete == h.toDelete && newNumPinned == h.numPinned && queue.Contents() == q + h.queued
  {
    newTop := top - 1;
    var node := up[newTop];
    var pinned;
    newToDelete, pinned := Act(node, queue, toDelete, s, m, done);
    Queued(q, g, node, m[node]);
    newTop := PushChildren(up, newTop, node, nil, f.below, f.top);
    newNumPinned := if pinned then numPinned + 1 else numPinned;
  }

  // Visits everything under the stacked trees.
  method Drain(up: array<HeapEntry>, nil: HeapEntry, queue: FinalizerQueue, ghost t: Tree,
               ghost m: map<HeapEntry, Marks>)
    returns (toDelete: seq<HeapEntry>, numPinned: nat, ghost g: Gathered)
    requires up.Length == MAX_TREE_DEPTH * 2 && up[0] == Root(t, nil)
    requires ShapeIn(LinksOf(Entries(t)), t, nil) && nil !in Entries(t)
    requires Midway(Stacked(t, Empty), MAX_TREE_DEPTH * 2, t, {}) && Walked(Entries(t), m, {})
    requires queue.Valid() && queue.toFinalize != up
    modifies Entries(t)`marked, Entries(t)`needToFinalize, queue, queue.toFinalize, up
    ensures queue.Valid() && (queue.toFinalize == old(queue.toFinalize) || fresh(queue.toFinalize))
    ensures queue.Contents() == old(queue.Contents()) + g.queued
    ensures Walked(Entries(t), m, Entries(t))
    ensures toDelete == g.toDelete && numPinned == g.numPinned && Tally(g, m, Entries(t))
  {
    ghost var links := LinksOf(Entries(t));
    var top := 1;
    toDelete, numPinned := [], 0;
    g := Gathered([], [], 0);
    ghost var done, f := {}, Stacked(t, Empty);
    ghost var q := queue.Contents();
    while top != 0
      invariant top == Depth(f) && HoldsRoots(up[..], f) && Midway(f, MAX_TREE_DEPTH * 2, t, done)
      invariant queue.Valid() && queue.Contents() == q + g.queued
      invariant queue.toFinalize != up && (queue.toFinalize == old(queue.toFinalize) || fresh(queue.toFinalize))
      invariant LinksOf(Entries(t)) == links
      invariant Walked(Entries(t), m, done)
      invariant toDelete == g.toDelete && numPinned == g.numPinned && Tally(g, m, done)
      decreases Size(f)
    {
      ghost var node := f.top.entry;
      MidwayNext(f, MAX_TREE_DEPTH * 2, t, done);
      TallyNext(g, m, done, node);
      SubtreeShape(f.top, t, links, nil);
      top, toDelete, numPinned := Step(up, top, nil, queue, toDelete, numPinned, f, Entries(t), m, done, g, q);
      done, f, g := done + {node}, WithChildren(f.below, f.top), Gather(g, node, m[node]);
    }
  }

  lemma WalkStarts(t: Tree)
    requires Valid(t) && t.Node?
    ensures Midway(Stacked(t, Empty), MAX_TREE_DEPTH * 2, t, {})
  {
    ValidTreesAreShallow(t);
    BetweenIsDistinct(t, -1, TWO32);
  }

  method Walk(root: HeapEntry, nil: HeapEntry, queue: FinalizerQueue, ghost t: Tree)
    returns (toDelete: seq<HeapEntry>, numPinned: nat, ghost g: Gathered)
    requires Linked(root, nil, t) && Valid(t) && t.Node? && queue.Valid()
    modifies Entries(t)`marked, Entries(t)`needToFinalize, queue, queue.toFinalize
    ensures queue.Valid() && (queue.toFinalize == old(queue.toFinalize) || fresh(queue.toFinalize))
    ensures queue.Contents() == old(queue.Contents()) + g.queued
    ensures Walked(Entries(t), old(MarksOf(Entries(t))), Entries(t))
    ensures toDelete == g.toDelete && numPinned == g.numPinned && Tally(g, old(MarksOf(Entries(t))), Entries(t))
  {
    ghost var m := MarksOf(Entries(t));
    AllAllocated(t);
    WalkStarts(t);
    NilIsOutside(t, nil);
    RecordShape(t, Entries(t), nil);
    var up := new HeapEntry[MAX_TREE_DEPTH * 2](_ => nil);
    up[0] := root;
    toDelete, numPinned, g := Drain(up, nil, queue, t, m);
  }

  // ---------------------------------------------------------------- deletion

  function Sub32(a: nat, b: nat): nat {
    (a - b) % TWO32
  }

  ghost function From(s: seq<HeapEntry>, n: nat): set<HeapEntry>
    requires n <= |s|
  {
    set i | n <= i < |s| :: s[i]
  }

  lemma FromNext(list: seq<HeapEntry>, n: nat)
    requires n < |list| && NoDuplicates(list)
    ensures From(list, n) == From(list, n + 1) + {list[n]} && list[n] !in From(list, n + 1)
    ensures list[n] in From(list, 0)
  {
  }

  method DeleteOne(root: HeapEntry, nil: HeapEntry, doomed: HeapEntry, numNodes: nat, heapSize: nat, ghost t: Tree)
    returns (newRoot: HeapEntry, newNumNodes: nat, newHeapSize: nat, ghost u: Tree)
    requires Linked(root, nil, t) && Valid(t) && doomed in Entries(t)
    requires numNodes == Count(t) < TWO32 && heapSize == Bytes(t) < TWO32
    modifies nil`right, Entries(t)`left, Entries(t)`right, Entries(t)`level
    ensures Linked(newRoot, nil, u) && Valid(u) && Entries(u) == Entries(t) - {doomed}
    ensures newNumNodes == Count(u) < TWO32 && newHeapSize == Bytes(u) < TWO32
  {
    RemoveKeepsValid(t, doomed);
    u := Remove(t, doomed);
    newRoot := TreeRemove(root, doomed, nil, t, -1, TWO32);
    newNumNodes := Sub32(numNodes, 1);
    newHeapSize := Sub32(heapSize, doomed.size);
  }

  // Deletes the entries listed, the last one first, and keeps the accounts.
  method DeleteAll(root: HeapEntry, nil: HeapEntry, toDelete: seq<HeapEntry>, numNodes: nat, heapSize: nat, ghost t: Tree)
    returns (newRoot: HeapEntry, newNumNodes: nat, newHeapSize: nat, ghost u: Tree)
    requires Linked(root, nil, t) && Valid(t) && NoDuplicates(toDelete) && From(toDelete, 0) <= Entries(t)
    requires numNodes == Count(t) < TWO32 && heapSize == Bytes(t) < TWO32
    modifies nil`right, Entries(t)`left, Entries(t)`right, Entries(t)`level
    ensures Linked(newRoot, nil, u) && Valid(u) && Entries(u) == Entries(t) - From(toDelete, 0)
    ensures newNumNodes == Count(u) < TWO32 && newHeapSize == Bytes(u) < TWO32
  {
    newRoot, newNumNodes, newHeapSize, u := root, numNodes, heapSize, t;
    var n: nat := |toDelete|;
    while n > 0
      invariant n <= |toDelete|
      invariant Linked(newRoot, nil, u) && Valid(u) && Entries(u) == Entries(t) - From(toDelete, n)
      invariant newNumNodes == Count(u) < TWO32 && newHeapSize == Bytes(u) < TWO32
    {
      n := n - 1;
      FromNext(toDelete, n);
      newRoot, newNumNodes, newHeapSize, u := DeleteOne(newRoot, nil, toDelete[n], newNumNodes, newHeapSize, u);
    }
  }
}
