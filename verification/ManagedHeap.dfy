/**
 The heap as a whole: the tree with its accounts, collection, allocation, pinning and the life of
 finalizable objects. `Heap.Valid` is what every operation keeps, so it holds over every run.
 */
module ManagedHeap {
  import opened HeapEntries
  import opened AaTree
  import opened AaRuns
  import opened HeapTree
  import opened Marking
  import opened Finalizers
  import opened Sweeping

  const MIN_HEAP_SIZE := 1_000_000
  const MAX_HEAP_EXCESS := 4_000_000

  // ---------------------------------------------------------------- the accounts

  // Every entry lies in the 32-bit address space and has room for its header; no two extents meet.
  ghost predicate LaidOut(s: set<HeapEntry>) {
    Apart(s) && forall e <- s :: HEADER_SIZE <= e.size && e.addr + e.size < TWO32
  }

  // The same for the entries of an ordered tree, told node by node.
  ghost predicate Spaced(t: Tree, lo: int, hi: int) {
    match t
    case Leaf => true
    case Node(l, e, _, r) =>
      lo < e.addr && HEADER_SIZE <= e.size && e.addr + e.size < hi && Spaced(l, lo, e.addr) && Spaced(r, e.addr + e.size, hi)
  }

  lemma {:induction false} SpacedInside(t: Tree, lo: int, hi: int)
    requires Spaced(t, lo, hi)
    ensures Apart(Entries(t)) && forall e <- Entries(t) :: lo < e.addr && HEADER_SIZE <= e.size && e.addr + e.size < hi
  {
    if t.Node? {
      SpacedInside(t.left, lo, t.entry.addr);
      SpacedInside(t.right, t.entry.addr + t.entry.size, hi);
    }
  }

  lemma SpacedIsLaidOut(t: Tree)
    requires Spaced(t, -1, TWO32)
    ensures LaidOut(Entries(t))
  {
    SpacedInside(t, -1, TWO32);
  }

  lemma {:induction false} LaidOutIsSpaced(t: Tree, lo: int, hi: int, from: int)
    requires Between(t, lo, hi) && Apart(Entries(t))
    requires forall e <- Entries(t) :: from < e.addr && HEADER_SIZE <= e.size && e.addr + e.size < hi
    ensures Spaced(t, from, hi)
  {
    if t.Node? {
      var e := t.entry;
      assert e in Entries(t);
      InRange(t.left, lo, e.addr);
      InRange(t.right, e.addr, hi);
      forall x | x in Entries(t.left) + Entries(t.right)
        ensures if x in Entries(t.left) then x.addr + x.size < e.addr else e.addr + e.size < x.addr
      {
        assert x in Entries(t);
      }
      LaidOutIsSpaced(t.left, lo, e.addr, from);
      LaidOutIsSpaced(t.right, e.addr, hi, e.addr + e.size);
    }
  }

  // Entries laid out between two addresses take no more bytes than lie between them.
  lemma {:induction false} BytesWithin(t: Tree, lo: int, hi: int)
    requires Spaced(t, lo, hi) && lo < hi
    ensures Bytes(t) + Count(t) < hi - lo && Count(t) <= Bytes(t)
  {
    if t.Node? {
      BytesWithin(t.left, lo, t.entry.addr);
      BytesWithin(t.right, t.entry.addr + t.entry.size, hi);
    }
  }

  // So neither the byte count nor the node count can wrap around.
  lemma AccountsFit(t: Tree)
    requires Spaced(t, -1, TWO32)
    ensures Count(t) <= Bytes(t) < TWO32
  {
    BytesWithin(t, -1, TWO32);
  }

  // ---------------------------------------------------------------- the life of a finalizable object

  // Between collections nothing is marked but what is pinned.
  ghost predicate AtRest(m: map<HeapEntry, Marks>) {
    forall e <- m.Keys :: m[e].marked in {0, PINNED}
  }

  // Marks are at rest; needToFinalize is 2 exactly for the entries queued or being finalized; the queue
  // holds live entries, each once.
  ghost predicate InOrder(m: map<HeapEntry, Marks>, queue: seq<HeapEntry>, finalizing: set<HeapEntry>) {
    && AtRest(m)
    && (forall e <- m.Keys ::
          m[e].needToFinalize <= 2 && (m[e].needToFinalize == 2 <==> e in queue || e in finalizing))
    && NoDuplicates(queue) && (forall e <- queue :: e in m && e !in finalizing)
    && finalizing <= m.Keys
  }

  lemma OrderWithMark(m: map<HeapEntry, Marks>, queue: seq<HeapEntry>, finalizing: set<HeapEntry>, e: HeapEntry, mark: nat)
    requires InOrder(m, queue, finalizing) && e in m && mark in {0, PINNED}
    ensures InOrder(m[e := Marks(mark, m[e].needToFinalize)], queue, finalizing)
  {
  }

  lemma OrderWithNew(m: map<HeapEntry, Marks>, queue: seq<HeapEntry>, finalizing: set<HeapEntry>, e: HeapEntry, hasFinalizer: bool)
    requires InOrder(m, queue, finalizing) && e !in m
    ensures InOrder(m[e := Marks(0, if hasFinalizer then 1 else 0)], queue, finalizing)
  {
  }

  lemma OrderDequeued(m: map<HeapEntry, Marks>, queue: seq<HeapEntry>, finalizing: set<HeapEntry>, e: HeapEntry)
    requires InOrder(m, queue + [e], finalizing)
    ensures InOrder(m, queue, finalizing + {e}) && e in m && m[e].needToFinalize == 2
  {
    var all := queue + [e];
    assert all[|queue|] == e;
    assert forall i :: 0 <= i < |queue| ==> queue[i] == all[i];
    assert forall x <- queue :: x in all;
  }

  lemma OrderFinalized(m: map<HeapEntry, Marks>, queue: seq<HeapEntry>, finalizing: set<HeapEntry>, e: HeapEntry)
    requires InOrder(m, queue, finalizing) && e in finalizing
    ensures InOrder(m[e := Marks(m[e].marked, 0)], queue, finalizing - {e})
  {
  }

  lemma OrderSuppressed(m: map<HeapEntry, Marks>, queue: seq<HeapEntry>, finalizing: set<HeapEntry>, e: HeapEntry)
    requires InOrder(m, queue, finalizing) && e in m
    ensures InOrder(m[e := Marks(m[e].marked, 0)], queue, finalizing) <==> e !in queue && e !in finalizing
  {
  }

  // An entry survives a collection if it is pinned, reachable, or not yet through with its finalizer.
  ghost predicate Survives(m: Marks, reachable: bool) {
    m.marked == PINNED || reachable || m.needToFinalize != 0
  }

  // A collection finds this entry garbage but has to run its finalizer first.
  ghost predicate Condemned(m: Marks, reachable: bool) {
    m.marked != PINNED && !reachable && m.needToFinalize == 1
  }

  // The entries freed, and those queued for their finalizer.
  ghost function Freed(m: map<HeapEntry, Marks>, reach: set<HeapEntry>): set<HeapEntry> {
    set e | e in m && !Survives(m[e], e in reach)
  }

  ghost function Doomed(m: map<HeapEntry, Marks>, reach: set<HeapEntry>): set<HeapEntry> {
    set e | e in m && Condemned(m[e], e in reach)
  }

  // What a collection does to the entries m, of which those in reach are reachable.
  ghost predicate Collected(m: map<HeapEntry, Marks>, reach: set<HeapEntry>, after: map<HeapEntry, Marks>, queued: seq<HeapEntry>) {
    && after.Keys == m.Keys - Freed(m, reach)
    && (forall e <- after.Keys :: after[e] == if Condemned(m[e], e in reach) then Marks(m[e].marked, 2) else m[e])
    && Collects(queued, m.Keys, Doomed(m, reach))
  }

  // An example: suppressing the finalizer of a queued object leaves it to the next collection, which frees it while it is
  // still in the queue.
  lemma SuppressedTooLate(e: HeapEntry)
    ensures
      var m := map[e := Marks(0, 2)];
      var suppressed := m[e := Marks(0, 0)];
      InOrder(m, [e], {}) && !InOrder(suppressed, [e], {}) && Freed(suppressed, {}) == {e}
  {
    var suppressed := map[e := Marks(0, 2)][e := Marks(0, 0)];
    assert e in suppressed && e in [e];
    assert Freed(suppressed, {}) == {e};
  }

  lemma CollectionKeepsOrder(m: map<HeapEntry, Marks>, reach: set<HeapEntry>, after: map<HeapEntry, Marks>,
                             queued: seq<HeapEntry>, queue: seq<HeapEntry>, finalizing: set<HeapEntry>)
    requires InOrder(m, queue, finalizing) && Collected(m, reach, after, queued)
    ensures InOrder(after, queue + queued, finalizing)
  {
    forall e | e in after ensures after[e].needToFinalize == 2 <==> e in queue + queued || e in finalizing {
      assert Condemned(m[e], e in reach) <==> e in queued;
    }
    forall e | e in queue + queued ensures e in after && e !in finalizing {
      if e in queued {
        assert m[e].needToFinalize == 1;
      }
    }
    forall e | e in queue ensures e !in queued {
      assert m[e].needToFinalize == 2;
    }
    StillNoDuplicates(queue, queued);
  }

  lemma StillNoDuplicates(a: seq<HeapEntry>, b: seq<HeapEntry>)
    requires NoDuplicates(a) && NoDuplicates(b) && forall e <- a :: e !in b
    ensures NoDuplicates(a + b)
  {
    forall i, j | 0 <= i < j < |a + b| ensures (a + b)[i] != (a + b)[j] {
      if i < |a| <= j {
        assert a[i] in a && b[j - |a|] in b;
      }
    }
  }

  // Marking the marks of m gives marked.
  ghost predicate MarkedFrom(m: map<HeapEntry, Marks>, reach: set<HeapEntry>, marked: map<HeapEntry, Marks>) {
    && marked.Keys == m.Keys
    && forall e <- m.Keys ::
        && marked[e].needToFinalize == m[e].needToFinalize
        && (marked[e].marked != 0 <==> m[e].marked == PINNED || e in reach)
        && (marked[e].marked == PINNED <==> m[e].marked == PINNED)
  }

  lemma CollectedAll(list: seq<HeapEntry>, all: set<HeapEntry>, m: set<HeapEntry>)
    requires Collects(list, all, m) && m <= all
    ensures From(list, 0) == m
  {
  }

  // The fates that the sweep reads off the marks are those of a collection.
  lemma Fates(m: map<HeapEntry, Marks>, reach: set<HeapEntry>, marked: map<HeapEntry, Marks>)
    requires AtRest(m) && MarkedFrom(m, reach, marked)
    ensures Dead(marked) == Freed(m, reach) && ToFinalize(marked) == Doomed(m, reach)
    ensures m.Keys * Pinned(marked) == Pinned(m)
    ensures forall e <- m.Keys ::
              AfterVisit(marked[e]) == if Condemned(m[e], e in reach) then Marks(m[e].marked, 2) else m[e]
  {
  }

  // Marking followed by sweeping is a collection.
  lemma MarkThenSweep(m: map<HeapEntry, Marks>, reach: set<HeapEntry>, marked: map<HeapEntry, Marks>, g: Gathered,
                      after: map<HeapEntry, Marks>)
    requires AtRest(m) && MarkedFrom(m, reach, marked) && Tally(g, marked, m.Keys)
    requires after.Keys == m.Keys - From(g.toDelete, 0) && forall e <- after.Keys :: after[e] == AfterVisit(marked[e])
    ensures Collected(m, reach, after, g.queued)
    ensures g.numPinned == |Pinned(m)|
  {
    Fates(m, reach, marked);
    CollectedAll(g.toDelete, m.Keys, Dead(marked));
  }

  // ---------------------------------------------------------------- what the living refer to

  // Whatever a reached entry refers to survives, if the entry is not pinned and its type may refer to anything.
  lemma LivingKeepAlive(m: map<HeapEntry, Marks>, roots: seq<seq<nat>>, reach: set<HeapEntry>, e: HeapEntry, f: HeapEntry)
    requires reach == ReachableSet(roots, m.Keys, Pinned(m)) && e in reach && e in m && f in m && m[e].marked != PINNED
    requires e.typ.stackType in {4, 5, 7} && !e.typ.isString && !e.typ.isWeakReference
    requires e.typ.arrayElement.ElementType? ==> e.typ.arrayElement.stackType in {4, 5, 7}
    requires exists w <- e.memory :: w != 0 && f.addr <= w <= f.addr + f.size
    ensures f !in Freed(m, reach)
  {
    var w :| w in e.memory && w != 0 && f.addr <= w <= f.addr + f.size;
    assert Contains(f, w);
    ReferencesAreFollowed(e, f, roots, m.Keys, Pinned(m));
  }

  // An example: a root holds the address of an object, and that object the address of another one. Neither is freed.
  lemma ObjectKeepsObject(e: HeapEntry, f: HeapEntry)
    requires e != f && e.addr > 0 && f.addr > 0 && e.typ == TypeDef(5, false, false, NotAnArray, false) && e.memory == [f.addr]
    ensures
      var m := map[e := Marks(0, 0), f := Marks(0, 0)];
      Freed(m, ReachableSet([[e.addr]], m.Keys, Pinned(m))) == {}
  {
    var m, roots := map[e := Marks(0, 0), f := Marks(0, 0)], [[e.addr]];
    var reach := ReachableSet(roots, m.Keys, Pinned(m));
    assert roots[0][0] == e.addr && Contains(e, e.addr) && Refers(roots[0], e);
    assert ReachedIn(e, 0, roots, m.Keys, Pinned(m));
    assert e.memory[0] == f.addr;
    assert f.addr in e.memory && f.addr <= f.addr + f.size;
    LivingKeepAlive(m, roots, reach, e, f);
    assert e in reach;
  }

  // ---------------------------------------------------------------- what is left refers to what is left

  // No entry that could hold references refers to one that was freed.
  ghost predicate NothingDangles(left: set<HeapEntry>, freed: set<HeapEntry>)
    reads left`memory
  {
    forall e, f | e in left && f in freed && Scanned(e.typ) :: !Refers(e.memory, f)
  }

  // Kept although marking has not searched it: pinned, or not reached but not yet through with its finalizer.
  ghost predicate KeptUnsearched(m: Marks, reachable: bool) {
    m.marked == PINNED || (!reachable && m.needToFinalize != 0)
  }

  // Whatever these refer to survives for another reason.
  ghost predicate UnsearchedReferToSurvivors(m: map<HeapEntry, Marks>, reach: set<HeapEntry>)
    reads m.Keys`memory
  {
    forall e, f | e in m && f in m && KeptUnsearched(m[e], e in reach) && Scanned(e.typ) && Refers(e.memory, f) ::
      Survives(m[f], f in reach)
  }

  // After a collection no entry refers to a freed one exactly when that was so; and no root does, in any case.
  lemma NothingDanglesExactlyWhen(m: map<HeapEntry, Marks>, roots: seq<seq<nat>>, reach: set<HeapEntry>)
    requires reach == ReachableSet(roots, m.Keys, Pinned(m))
    ensures NothingDangles(m.Keys - Freed(m, reach), Freed(m, reach)) <==> UnsearchedReferToSurvivors(m, reach)
    ensures forall r, f | r in roots && f in Freed(m, reach) :: !Refers(r, f)
  {
    ReachableIsClosed(roots, m.Keys, Pinned(m));
    if UnsearchedReferToSurvivors(m, reach) {
      forall e, f | e in m.Keys - Freed(m, reach) && f in Freed(m, reach) && Scanned(e.typ) ensures !Refers(e.memory, f) {
        if !KeptUnsearched(m[e], e in reach) {
          assert Searched(e, Pinned(m));
        }
      }
    } else {
      var e, f :| e in m && f in m && KeptUnsearched(m[e], e in reach) && Scanned(e.typ) && Refers(e.memory, f)
                  && !Survives(m[f], f in reach);
      assert e in m.Keys - Freed(m, reach) && f in Freed(m, reach);
    }
  }

  // An example: nothing leads to e, whose finalizer has yet to run, and e alone leads to f. Then e is queued and f freed,
  // and the finalizer of e meets an address where f is no more.
  lemma FinalizerMeetsFreedObject(e: HeapEntry, f: HeapEntry)
    requires e != f && Scanned(e.typ) && f.addr > 0 && e.memory == [f.addr]
    ensures
      var m := map[e := Marks(0, 1), f := Marks(0, 0)];
      var reach := ReachableSet([], m.Keys, Pinned(m));
      && Doomed(m, reach) == {e} && Freed(m, reach) == {f} && Refers(e.memory, f)
      && !NothingDangles(m.Keys - Freed(m, reach), Freed(m, reach))
  {
    var m := map[e := Marks(0, 1), f := Marks(0, 0)];
    var reach := ReachableSet([], m.Keys, Pinned(m));
    forall x | x in reach ensures false {
      var n: nat :| ReachedIn(x, n, [], m.Keys, Pinned(m));
      ReachableIsLeast(x, n, {}, [], m.Keys, Pinned(m));
    }
    assert reach == {};
    assert e.memory[0] == f.addr && Contains(f, f.addr);
    assert e in m.Keys - Freed(m, reach) && f in Freed(m, reach);
  }

  // ---------------------------------------------------------------- one collection

  // The entries reachable from the roots, given which entries are pinned.
  ghost function Reached(roots: seq<seq<nat>>, s: set<HeapEntry>): set<HeapEntry>
    reads s`memory, s`marked, s`needToFinalize
  {
    ReachableSet(roots, s, Pinned(MarksOf(s)))
  }

  method MarkPhase(root: HeapEntry, nil: HeapEntry, roots: seq<seq<nat>>, ghost t: Tree)
    requires Linked(root, nil, t) && Valid(t) && Spaced(t, -1, TWO32)
    requires AtRest(MarksOf(Entries(t)))
    modifies Entries(t)`marked
    ensures MarkedFrom(old(MarksOf(Entries(t))), old(Reached(roots, Entries(t))), MarksOf(Entries(t)))
    ensures Linked(root, nil, t)
  {
    AllAllocated(t);
    SpacedIsLaidOut(t);
    ghost var m := MarksOf(Entries(t));
    assert forall e <- Entries(t) :: m[e].marked == e.marked;
    Mark(root, nil, roots, t, Pinned(m));
  }

  lemma ToDeleteIsInside(g: Gathered, m: map<HeapEntry, Marks>)
    requires Tally(g, m, m.Keys)
    ensures NoDuplicates(g.toDelete) && From(g.toDelete, 0) <= m.Keys
  {
  }

  // What the walk has done to the marks and the queue.
  ghost predicate Swept(queue: FinalizerQueue, contents: seq<HeapEntry>, g: Gathered, m: map<HeapEntry, Marks>, s: set<HeapEntry>)
    reads queue, queue.toFinalize, s`marked, s`needToFinalize
  {
    queue.Valid() && queue.Contents() == contents + g.queued && Tally(g, m, s) && Walked(s, m, s)
  }

  method WalkPhase(root: HeapEntry, nil: HeapEntry, queue: FinalizerQueue, ghost t: Tree, ghost m: map<HeapEntry, Marks>,
                   ghost contents: seq<HeapEntry>)
    returns (toDelete: seq<HeapEntry>, numPinned: nat, ghost g: Gathered)
    requires Linked(root, nil, t) && Valid(t) && t.Node? && queue.Valid()
    requires m == MarksOf(Entries(t)) && contents == queue.Contents()
    modifies Entries(t)`marked, Entries(t)`needToFinalize, queue, queue.toFinalize
    ensures queue.toFinalize == old(queue.toFinalize) || fresh(queue.toFinalize)
    ensures Linked(root, nil, t) && toDelete == g.toDelete && numPinned == g.numPinned
    ensures NoDuplicates(toDelete) && From(toDelete, 0) <= Entries(t)
    ensures Swept(queue, contents, g, m, Entries(t))
  {
    AllAllocated(t);
    toDelete, numPinned, g := Walk(root, nil, queue, t);
    ToDeleteIsInside(g, m);
  }

  // The deletion touches neither the marks nor the queue.
  method DeletePhase(root: HeapEntry, nil: HeapEntry, toDelete: seq<HeapEntry>, numNodes: nat, heapSize: nat, ghost t: Tree,
                     ghost queue: FinalizerQueue, ghost contents: seq<HeapEntry>, ghost g: Gathered, ghost m: map<HeapEntry, Marks>)
    returns (newRoot: HeapEntry, newNumNodes: nat, newHeapSize: nat, ghost u: Tree)
    requires Linked(root, nil, t) && Valid(t) && NoDuplicates(toDelete) && From(toDelete, 0) <= Entries(t)
    requires numNodes == Count(t) < TWO32 && heapSize == Bytes(t) < TWO32 && Swept(queue, contents, g, m, Entries(t))
    modifies nil`right, Entries(t)`left, Entries(t)`right, Entries(t)`level
    ensures Linked(newRoot, nil, u) && Valid(u) && Entries(u) == Entries(t) - From(toDelete, 0)
    ensures newNumNodes == Count(u) < TWO32 && newHeapSize == Bytes(u) < TWO32 && Swept(queue, contents, g, m, Entries(t))
  {
    newRoot, newNumNodes, newHeapSize, u := DeleteAll(root, nil, toDelete, numNodes, heapSize, t);
  }

  method SweepPhase(root: HeapEntry, nil: HeapEntry, queue: FinalizerQueue, numNodes: nat, heapSize: nat, ghost t: Tree,
                    ghost m: map<HeapEntry, Marks>, ghost contents: seq<HeapEntry>)
    returns (newRoot: HeapEntry, newNumNodes: nat, newHeapSize: nat, numPinned: nat, ghost u: Tree, ghost g: Gathered)
    requires Linked(root, nil, t) && Valid(t) && t.Node? && queue.Valid()
    requires m == MarksOf(Entries(t)) && contents == queue.Contents()
    requires numNodes == Count(t) < TWO32 && heapSize == Bytes(t) < TWO32
    modifies nil`right, Entries(t)`left, Entries(t)`right, Entries(t)`level
    modifies Entries(t)`marked, Entries(t)`needToFinalize, queue, queue.toFinalize
    ensures Linked(newRoot, nil, u) && Valid(u) && Entries(u) == Entries(t) - From(g.toDelete, 0)
    ensures newNumNodes == Count(u) < TWO32 && newHeapSize == Bytes(u) < TWO32
    ensures numPinned == g.numPinned && Swept(queue, contents, g, m, Entries(t))
    ensures queue.toFinalize == old(queue.toFinalize) || fresh(queue.toFinalize)
  {
    AllAllocated(t);
    var toDelete;
    toDelete, numPinned, g := WalkPhase(root, nil, queue, t, m, contents);
    newRoot, newNumNodes, newHeapSize, u := DeletePhase(root, nil, toDelete, numNodes, heapSize, t, queue, contents, g, m);
  }

  lemma StillSpaced(t: Tree, u: Tree)
    requires Spaced(t, -1, TWO32) && Valid(u) && Entries(u) <= Entries(t)
    ensures Spaced(u, -1, TWO32)
  {
    SpacedIsLaidOut(t);
    SpacedInside(t, -1, TWO32);
    LaidOutIsSpaced(u, -1, TWO32, -1);
  }

  // Marking followed by sweeping is a collection and keeps the life cycle in order.
  lemma CollectionIsDone(m: map<HeapEntry, Marks>, reach: set<HeapEntry>, marked: map<HeapEntry, Marks>, g: Gathered,
                         after: map<HeapEntry, Marks>, contents: seq<HeapEntry>, finalizing: set<HeapEntry>)
    requires InOrder(m, contents, finalizing) && MarkedFrom(m, reach, marked) && Tally(g, marked, m.Keys)
    requires after.Keys == m.Keys - From(g.toDelete, 0) && forall e <- after.Keys :: after[e] == AfterVisit(marked[e])
    ensures Collected(m, reach, after, g.queued) && InOrder(after, contents + g.queued, finalizing)
    ensures g.numPinned == |Pinned(m)|
  {
    MarkThenSweep(m, reach, marked, g, after);
    CollectionKeepsOrder(m, reach, after, g.queued, contents, finalizing);
  }

  // Heap_GarbageCollect, of a tree whose marks are m and in which reach are reachable.
  method Collect(root: HeapEntry, nil: HeapEntry, queue: FinalizerQueue, roots: seq<seq<nat>>, numNodes: nat, heapSize: nat,
                 ghost t: Tree, ghost finalizing: set<HeapEntry>, ghost m: map<HeapEntry, Marks>, ghost reach: set<HeapEntry>,
                 ghost contents: seq<HeapEntry>)
    returns (newRoot: HeapEntry, newNumNodes: nat, newHeapSize: nat, numPinned: nat, ghost u: Tree, ghost queued: seq<HeapEntry>)
    requires Linked(root, nil, t) && Valid(t) && t.Node? && Spaced(t, -1, TWO32) && queue.Valid()
    requires numNodes == Count(t) && heapSize == Bytes(t)
    requires m == MarksOf(Entries(t)) && reach == Reached(roots, Entries(t)) && contents == queue.Contents()
    requires InOrder(m, contents, finalizing)
    modifies nil`right, Entries(t)`left, Entries(t)`right, Entries(t)`level
    modifies Entries(t)`marked, Entries(t)`needToFinalize, queue, queue.toFinalize
    ensures Linked(newRoot, nil, u) && Valid(u) && Spaced(u, -1, TWO32)
    ensures newNumNodes == Count(u) && newHeapSize == Bytes(u) && numPinned == |Pinned(m)|
    ensures Collected(m, reach, MarksOf(Entries(u)), queued)
    ensures queue.Valid() && (queue.toFinalize == old(queue.toFinalize) || fresh(queue.toFinalize))
    ensures queue.Contents() == contents + queued && InOrder(MarksOf(Entries(u)), queue.Contents(), finalizing)
  {
    AllAllocated(t);
    AccountsFit(t);
    MarkPhase(root, nil, roots, t);
    ghost var marked := MarksOf(Entries(t));
    ghost var g;
    newRoot, newNumNodes, newHeapSize, numPinned, u, g := SweepPhase(root, nil, queue, numNodes, heapSize, t, marked, contents);
    StillSpaced(t, u);
    CollectionIsDone(m, reach, marked, g, MarksOf(Entries(u)), contents, finalizing);
    queued := g.queued;
  }

  // ---------------------------------------------------------------- the limit that triggers a collection

  function Add32(a: nat, b: nat): nat {
    (a + b) % TWO32
  }

  // The limit set after a collection that leaves heapSize bytes, when total more are wanted.
  function NextLimit(heapSize: nat, total: nat): nat {
    var wanted := Add32(heapSize, total);
    var doubled := Add32(wanted, wanted);
    var atLeast := if doubled < Add32(wanted, MIN_HEAP_SIZE) then Add32(wanted, MIN_HEAP_SIZE) else doubled;
    if atLeast > Add32(wanted, MAX_HEAP_EXCESS) then Add32(wanted, MAX_HEAP_EXCESS) else atLeast
  }

  // The limit leaves the promised room exactly when the largest limit it may choose does not wrap around. It is then twice
  // what is wanted, but leaves at least one megabyte and at most four; and only one where the double wraps around.
  lemma LimitLeavesRoom(heapSize: nat, total: nat)
    requires heapSize + total < TWO32
    ensures
      var wanted := heapSize + total;
      && (wanted + MIN_HEAP_SIZE <= NextLimit(heapSize, total) <==> wanted + MAX_HEAP_EXCESS < TWO32)
      && (wanted + MAX_HEAP_EXCESS < TWO32 ==> NextLimit(heapSize, total) <= wanted + MAX_HEAP_EXCESS)
      && (wanted + MAX_HEAP_EXCESS < TWO32 ==>
            NextLimit(heapSize, total) ==
              if wanted < 1_000_000 then wanted + 1_000_000
              else if wanted <= 4_000_000 then 2 * wanted
              else if 2 * wanted < TWO32 then wanted + 4_000_000
              else wanted + 1_000_000)
  {
  }

  // An example: with all but one megabyte in use the next limit is three megabytes.
  lemma LimitBelowTheHeap()
    ensures NextLimit(0xfff0_0000, 24) == 2_951_448 < 0xfff0_0000
  {
    assert Add32(0xfff0_0000, 24) == 0xfff0_0018;
  }

  ghost predicate Clear(s: set<HeapEntry>, addr: nat, size: nat) {
    forall x <- s :: addr + size < x.addr || x.addr + x.size < addr
  }

  lemma StillLaidOut(s: set<HeapEntry>, e: HeapEntry)
    requires LaidOut(s) && HEADER_SIZE <= e.size && e.addr + e.size < TWO32 && Clear(s, e.addr, e.size)
    ensures LaidOut(s + {e}) && Fresh(s, e)
  {
  }

  // Inserting a block that meets no other keeps the heap spaced and the accounts right.
  lemma BlockAdded(t: Tree, e: HeapEntry)
    requires Valid(t) && Spaced(t, -1, TWO32) && Clear(Entries(t), e.addr, e.size)
    requires HEADER_SIZE <= e.size && e.addr + e.size < TWO32
    ensures Fresh(Entries(t), e) && Valid(Insert(t, e)) && Spaced(Insert(t, e), -1, TWO32)
    ensures Entries(Insert(t, e)) == Entries(t) + {e}
    ensures Add32(Count(t), 1) == Count(Insert(t, e)) && Add32(Bytes(t), e.size) == Bytes(Insert(t, e))
  {
    BlockSpaced(t, e);
    AccountsFit(Insert(t, e));
    NoWrap(Count(t), 1);
    NoWrap(Bytes(t), e.size);
  }

  lemma NoWrap(a: nat, b: nat)
    requires a + b < TWO32
    ensures Add32(a, b) == a + b
  {
  }

  lemma BlockSpaced(t: Tree, e: HeapEntry)
    requires Valid(t) && Spaced(t, -1, TWO32) && Clear(Entries(t), e.addr, e.size)
    requires HEADER_SIZE <= e.size && e.addr + e.size < TWO32
    ensures Fresh(Entries(t), e) && Valid(Insert(t, e)) && Spaced(Insert(t, e), -1, TWO32)
    ensures Entries(Insert(t, e)) == Entries(t) + {e}
    ensures Count(Insert(t, e)) == Count(t) + 1 && Bytes(Insert(t, e)) == Bytes(t) + e.size
  {
    SpacedIsLaidOut(t);
    StillLaidOut(Entries(t), e);
    InsertKeepsValid(t, e);
    LaidOutIsSpaced(Insert(t, e), -1, TWO32, -1);
  }

  // ---------------------------------------------------------------- the heap

  function Zeros(n: nat): seq<nat> {
    seq(n, _ => 0)
  }

  ghost predicate Recorded(m: map<HeapEntry, Marks>)
    reads m.Keys`marked, m.Keys`needToFinalize
  {
    forall e <- m.Keys :: m[e] == Marks(e.marked, e.needToFinalize)
  }

  class Heap {
    var root: HeapEntry
    var trackHeapSize: nat
    var heapSizeMax: nat
    var numNodes: nat
    var numPinned: nat
    var numCollections: nat
    const nil: HeapEntry
    const queue: FinalizerQueue
    ghost var tree: Tree
    ghost var marks: map<HeapEntry, Marks>  // of the entries in the tree
    ghost var waiting: seq<HeapEntry>       // what the queue holds
    ghost var finalizing: set<HeapEntry>    // entries whose finalizer is running

    // The tree is in place and the accounts agree with it.
    ghost predicate Indexed()
      reads this`root, this`tree, this`numNodes, this`trackHeapSize
      reads nil`left, nil`right, nil`level, Entries(tree)`left, Entries(tree)`right, Entries(tree)`level
    {
      && Linked(root, nil, tree) && AaRuns.Valid(tree) && Spaced(tree, -1, TWO32)
      && numNodes == Count(tree) && trackHeapSize == Bytes(tree)
    }

    ghost predicate Valid()
      reads this`root, this`tree, this`numNodes, this`trackHeapSize, this`marks, this`waiting, this`finalizing
      reads nil`left, nil`right, nil`level, Entries(tree)`left, Entries(tree)`right, Entries(tree)`level
      reads marks.Keys`marked, marks.Keys`needToFinalize, queue, queue.toFinalize
    {
      && Indexed()
      && marks.Keys == Entries(tree) && Recorded(marks)
      && queue.Valid() && queue.Contents() == waiting && InOrder(marks, waiting, finalizing)
    }

    constructor ()
      ensures Valid() && marks == map[] && waiting == [] && heapSizeMax == MIN_HEAP_SIZE
      ensures fresh(nil) && fresh(queue) && fresh(queue.toFinalize)
    {
      var end := new HeapEntry.Nil();
      var empty := new FinalizerQueue(end);
      nil, root, queue := end, end, empty;
      trackHeapSize, heapSizeMax, numNodes, numPinned, numCollections := 0, MIN_HEAP_SIZE, 0, 0, 0;
      tree, marks, waiting, finalizing := Leaf, map[], [], {};
    }

    // Records the marks and the queue of a new tree.
    ghost method NoteOutcome(after: map<HeapEntry, Marks>, nowWaiting: seq<HeapEntry>)
      requires Indexed() && after.Keys == Entries(tree) && Recorded(after)
      requires queue.Valid() && queue.Contents() == nowWaiting && InOrder(after, nowWaiting, finalizing)
      modifies this`marks, this`waiting
      ensures Valid() && marks == after && waiting == nowWaiting
    {
      marks, waiting := after, nowWaiting;
    }

    // Makes newTree the tree of the heap.
    method Plant(newRoot: HeapEntry, newNumNodes: nat, newHeapSize: nat, ghost newTree: Tree,
                 ghost after: map<HeapEntry, Marks>, ghost nowWaiting: seq<HeapEntry>)
      requires Linked(newRoot, nil, newTree) && AaRuns.Valid(newTree) && Spaced(newTree, -1, TWO32)
      requires newNumNodes == Count(newTree) && newHeapSize == Bytes(newTree)
      requires after.Keys == Entries(newTree) && Recorded(after)
      requires queue.Valid() && queue.Contents() == nowWaiting && InOrder(after, nowWaiting, finalizing)
      modifies this`root, this`numNodes, this`trackHeapSize, this`tree, this`marks, this`waiting
      ensures Valid() && marks == after && waiting == nowWaiting && tree == newTree
    {
      AllAllocated(newTree);
      root, numNodes, trackHeapSize, tree := newRoot, newNumNodes, newHeapSize, newTree;
      NoteOutcome(after, nowWaiting);
    }

    // Records the outcome of a collection.
    method Replant(newRoot: HeapEntry, newNumNodes: nat, newHeapSize: nat, pinned: nat, ghost newTree: Tree,
                   ghost after: map<HeapEntry, Marks>, ghost nowWaiting: seq<HeapEntry>)
      requires Linked(newRoot, nil, newTree) && AaRuns.Valid(newTree) && Spaced(newTree, -1, TWO32)
      requires newNumNodes == Count(newTree) && newHeapSize == Bytes(newTree)
      requires after.Keys == Entries(newTree) && Recorded(after)
      requires queue.Valid() && queue.Contents() == nowWaiting && InOrder(after, nowWaiting, finalizing)
      modifies this
      ensures Valid() && marks == after && waiting == nowWaiting && tree == newTree && finalizing == old(finalizing)
      ensures numPinned == pinned && numCollections == Add32(old(numCollections), 1) && heapSizeMax == old(heapSizeMax)
    {
      AllAllocated(newTree);
      numPinned := pinned;
      numCollections := Add32(numCollections, 1);
      Plant(newRoot, newNumNodes, newHeapSize, newTree, after, nowWaiting);
    }

    // Runs a collection and records its outcome.
    method CollectAndReplant(roots: seq<seq<nat>>) returns (ghost queued: seq<HeapEntry>)
      requires Valid() && tree.Node?
      modifies this, nil`right, Entries(tree)`left, Entries(tree)`right, Entries(tree)`level
      modifies Entries(tree)`marked, Entries(tree)`needToFinalize, queue, queue.toFinalize
      ensures Valid() && Collected(old(marks), old(Reached(roots, Entries(tree))), marks, queued)
      ensures waiting == old(waiting) + queued && finalizing == old(finalizing)
      ensures queue.toFinalize == old(queue.toFinalize) || fresh(queue.toFinalize)
      ensures numPinned == |old(Pinned(marks))| && numCollections == Add32(old(numCollections), 1)
      ensures heapSizeMax == old(heapSizeMax)
    {
      var newRoot, newNumNodes, newHeapSize, pinned;
      ghost var u;
      assert MarksOf(Entries(tree)) == marks;
      newRoot, newNumNodes, newHeapSize, pinned, u, queued :=
        Collect(root, nil, queue, roots, numNodes, trackHeapSize, tree, finalizing, marks, Reached(roots, Entries(tree)), waiting);
      Replant(newRoot, newNumNodes, newHeapSize, pinned, u, MarksOf(Entries(u)), waiting + queued);
    }

    method GarbageCollect(roots: seq<seq<nat>>) returns (ghost queued: seq<HeapEntry>)
      requires Valid() && tree.Node?
      modifies this, nil`right, Entries(tree)`left, Entries(tree)`right, Entries(tree)`level
      modifies Entries(tree)`marked, Entries(tree)`needToFinalize, queue, queue.toFinalize
      ensures Valid() && Collected(old(marks), old(Reached(roots, Entries(tree))), marks, queued)
      ensures NothingDangles(marks.Keys, old(marks.Keys) - marks.Keys) <==>
              old(UnsearchedReferToSurvivors(marks, Reached(roots, Entries(tree))))
      ensures waiting == old(waiting) + queued && finalizing == old(finalizing)
      ensures queue.toFinalize == old(queue.toFinalize) || fresh(queue.toFinalize)
      ensures numPinned == |old(Pinned(marks))| && numCollections == Add32(old(numCollections), 1)
      ensures heapSizeMax == old(heapSizeMax)
    {
      ghost var m, reach := marks, Reached(roots, Entries(tree));
      assert MarksOf(Entries(tree)) == m;
      NothingDanglesExactlyWhen(m, roots, reach);
      AllAllocated(tree);
      queued := CollectAndReplant(roots);
      assert marks.Keys == m.Keys - Freed(m, reach) && m.Keys - marks.Keys == Freed(m, reach);
    }

    method SetLimit(size: nat)
      requires Valid()
      modifies this`heapSizeMax
      ensures Valid() && heapSizeMax == NextLimit(trackHeapSize, Add32(HEADER_SIZE, size))
    {
      heapSizeMax := NextLimit(trackHeapSize, Add32(HEADER_SIZE, size));
    }

    // The first half of an allocation: a collection when the limit has been reached.
    method BeforeAlloc(size: nat, roots: seq<seq<nat>>) returns (collected: bool, ghost queued: seq<HeapEntry>)
      requires Valid() && (trackHeapSize >= heapSizeMax ==> tree.Node?)
      modifies this, nil`right, Entries(tree)`left, Entries(tree)`right, Entries(tree)`level
      modifies Entries(tree)`marked, Entries(tree)`needToFinalize, queue, queue.toFinalize
      ensures Valid() && (collected <==> old(trackHeapSize) >= old(heapSizeMax))
      ensures collected ==> Collected(old(marks), old(Reached(roots, Entries(tree))), marks, queued)
      ensures collected ==> heapSizeMax == NextLimit(trackHeapSize, Add32(HEADER_SIZE, size))
      ensures !collected ==> marks == old(marks) && queued == [] && heapSizeMax == old(heapSizeMax)
      ensures waiting == old(waiting) + queued && finalizing == old(finalizing)
      ensures queue.toFinalize == old(queue.toFinalize) || fresh(queue.toFinalize)
    {
      collected, queued := trackHeapSize >= heapSizeMax, [];
      if collected {
        queued := GarbageCollect(roots);
        SetLimit(size);
      }
    }

    // The second half: the block found by the system allocator, which meets no other, joins the tree.
    method AllocBlock(addr: nat, typ: TypeDef, size: nat) returns (entry: HeapEntry)
      requires Valid() && addr + HEADER_SIZE + size < TWO32 && Clear(Entries(tree), addr, HEADER_SIZE + size)
      modifies this`root, this`trackHeapSize, this`numNodes, this`tree, this`marks, this`waiting
      modifies Entries(tree)`left, Entries(tree)`right, Entries(tree)`level
      ensures Valid() && fresh(entry) && waiting == old(waiting)
      ensures marks == old(marks)[entry := Marks(0, if typ.hasFinalizer then 1 else 0)]
      ensures entry.addr == addr && entry.typ == typ && entry.size == HEADER_SIZE + size
      ensures |entry.memory| == size / 4 && (forall k :: 0 <= k < size / 4 ==> entry.memory[k] == 0)
    {
      entry := new HeapEntry.Allocate(addr, HEADER_SIZE + size, typ, Zeros(size / 4), nil);
      AllAllocated(tree);
      Join(entry, marks[entry := Marks(0, if typ.hasFinalizer then 1 else 0)]);
    }

    method Join(entry: HeapEntry, ghost after: map<HeapEntry, Marks>)
      requires Valid() && entry !in marks && entry != nil && Clear(Entries(tree), entry.addr, entry.size)
      requires HEADER_SIZE <= entry.size && entry.addr + entry.size < TWO32
      requires entry.marked == 0 && entry.needToFinalize == if entry.typ.hasFinalizer then 1 else 0
      requires after == marks[entry := Marks(0, if entry.typ.hasFinalizer then 1 else 0)]
      modifies this`root, this`trackHeapSize, this`numNodes, this`tree, this`marks, this`waiting
      modifies Entries(tree)`left, Entries(tree)`right, Entries(tree)`level
      modifies entry`left, entry`right, entry`level, entry`marked
      ensures Valid() && waiting == old(waiting) && marks == after
    {
      AllAllocated(tree);
      BlockAdded(tree, entry);
      OrderWithNew(marks, waiting, finalizing, entry, entry.typ.hasFinalizer);
      ghost var newTree := Insert(tree, entry);
      var newNumNodes, newHeapSize := Add32(numNodes, 1), Add32(trackHeapSize, entry.size);
      var newRoot := TreeInsert(root, entry, nil, tree, -1, TWO32);
      Plant(newRoot, newNumNodes, newHeapSize, newTree, after, waiting);
    }

    // Records new marks.
    ghost method Note(after: map<HeapEntry, Marks>, nowFinalizing: set<HeapEntry>)
      requires Indexed() && after.Keys == Entries(tree) && Recorded(after)
      requires queue.Valid() && queue.Contents() == waiting && InOrder(after, waiting, nowFinalizing)
      modifies this`marks, this`finalizing
      ensures Valid() && marks == after && finalizing == nowFinalizing
    {
      marks, finalizing := after, nowFinalizing;
    }

    method MakeUndeletable(e: HeapEntry)
      requires Valid() && e in marks
      modifies e`marked, this`marks, this`finalizing
      ensures Valid() && marks == old(marks)[e := Marks(PINNED, old(marks)[e].needToFinalize)] && finalizing == old(finalizing)
    {
      OrderWithMark(marks, waiting, finalizing, e, PINNED);
      e.marked := PINNED;
      Note(marks[e := Marks(PINNED, marks[e].needToFinalize)], finalizing);
    }

    method MakeDeletable(e: HeapEntry)
      requires Valid() && e in marks
      modifies e`marked, this`marks, this`finalizing
      ensures Valid() && marks == old(marks)[e := Marks(0, old(marks)[e].needToFinalize)] && finalizing == old(finalizing)
    {
      OrderWithMark(marks, waiting, finalizing, e, 0);
      e.marked := 0;
      Note(marks[e := Marks(0, marks[e].needToFinalize)], finalizing);
    }

    // Takes the next object off the queue; its finalizer runs until FinalizerDone.
    method RunFinalizer() returns (e: HeapEntry?)
      requires Valid()
      modifies queue`ofs, this`waiting, this`finalizing
      ensures Valid() && (e == null <==> old(waiting) == [])
      ensures e == null ==> waiting == [] && finalizing == old(finalizing)
      ensures e != null ==> old(waiting) == waiting + [e] && finalizing == old(finalizing) + {e}
      ensures e != null ==> e in marks && marks[e].needToFinalize == 2
    {
      e := queue.GetNextFinalizer();
      if e != null {
        OrderDequeued(marks, queue.Contents(), finalizing, e);
        waiting, finalizing := queue.Contents(), finalizing + {e};
      }
    }

    // The frame of the finalizer of e has been deleted.
    method FinalizerDone(e: HeapEntry)
      requires Valid() && e in finalizing
      modifies e`needToFinalize, this`marks, this`finalizing
      ensures Valid() && finalizing == old(finalizing) - {e}
      ensures marks == old(marks)[e := Marks(old(marks)[e].marked, 0)]
    {
      OrderFinalized(marks, waiting, finalizing, e);
      e.needToFinalize := 0;
      Note(marks[e := Marks(marks[e].marked, 0)], finalizing - {e});
    }

    // Suppressing the finalizer of an object is safe exactly when it is neither queued nor being finalized.
    method SuppressFinalize(e: HeapEntry)
      requires Valid() && e in marks
      modifies e`needToFinalize, this`marks
      ensures marks == old(marks)[e := Marks(old(marks)[e].marked, 0)]
      ensures Valid() <==> e !in waiting && e !in finalizing
    {
      OrderSuppressed(marks, waiting, finalizing, e);
      e.needToFinalize := 0;
      marks := marks[e := Marks(marks[e].marked, 0)];
    }
  }
}
