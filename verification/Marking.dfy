/**
 The mark phase. The collector treats every word it meets as a possible address, looks it up in
 the tree, and marks what it finds. Pinned entries are never searched; nor are entries of types
 that cannot hold references.
 */
module Marking {
  import opened HeapEntries
  import opened HeapTree

  // ---------------------------------------------------------------- the stack of pending memory areas

  // A memory area waiting to be searched, as the words it holds.
  class HeapRoots {
    var capacity: nat
    var num: nat
    var heapEntries: array<seq<nat>>

    ghost predicate Valid()
      reads this, heapEntries
    {
      num <= capacity == heapEntries.Length && 0 < capacity
    }

    ghost function Contents(): seq<seq<nat>>
      reads this, heapEntries
      requires Valid()
    {
      heapEntries[..num]
    }

    constructor ()
      ensures Valid() && Contents() == [] && fresh(heapEntries)
    {
      capacity, num := 64, 0;
      heapEntries := new seq<nat>[64](_ => []);
    }

    method SetRoots(words: seq<nat>)
      requires Valid()
      modifies this, heapEntries
      ensures Valid() && Contents() == old(Contents()) + [words]
      ensures heapEntries == old(heapEntries) || fresh(heapEntries)
    {
      if num >= capacity {
        var grown := new seq<nat>[capacity * 2](_ => []);
        for i := 0 to num
          invariant heapEntries == old(heapEntries) && heapEntries[..] == old(heapEntries[..]) && num == old(num) && capacity == old(capacity)
          invariant grown[..i] == heapEntries[..i]
        {
          grown[i] := heapEntries[i];
        }
        capacity, heapEntries := capacity * 2, grown;
      }
      heapEntries[num] := words;
      num := num + 1;
    }

    // Takes the words of the last entry and marks the entry as done, leaving it on the stack.
    method TakeLast() returns (words: seq<nat>)
      requires Valid() && num > 0
      modifies heapEntries
      ensures Valid() && words == old(Contents())[num - 1]
      ensures Contents() == old(Contents())[..num - 1] + [[]]
    {
      words := heapEntries[num - 1];
      heapEntries[num - 1] := [];
    }

    method Drop()
      requires Valid() && num > 0
      modifies this`num
      ensures Valid() && Contents() == old(Contents())[..old(num) - 1]
    {
      num := num - 1;
    }
  }

  // ---------------------------------------------------------------- reachability

  // The words of a memory area lead to e.
  ghost predicate Refers(words: seq<nat>, e: HeapEntry) {
    exists w <- words :: w != 0 && Contains(e, w)
  }

  // References in the memory of e are followed.
  ghost predicate Searched(e: HeapEntry, pinned: set<HeapEntry>) {
    e !in pinned && Scanned(e.typ)
  }

  // e can be reached from the roots through n references that are followed.
  ghost predicate ReachedIn(e: HeapEntry, n: nat, roots: seq<seq<nat>>, s: set<HeapEntry>, pinned: set<HeapEntry>)
    reads s`memory
  {
    if n == 0 then exists r <- roots :: Refers(r, e)
    else exists f <- s :: ReachedIn(f, n - 1, roots, s, pinned) && Searched(f, pinned) && Refers(f.memory, e)
  }

  ghost predicate Reachable(e: HeapEntry, roots: seq<seq<nat>>, s: set<HeapEntry>, pinned: set<HeapEntry>)
    reads s`memory
  {
    exists n: nat :: ReachedIn(e, n, roots, s, pinned)
  }

  ghost function ReachableSet(roots: seq<seq<nat>>, s: set<HeapEntry>, pinned: set<HeapEntry>): set<HeapEntry>
    reads s`memory
  {
    set e | e in s && Reachable(e, roots, s, pinned)
  }

  // The set holds whatever the roots lead to, and whatever its own members lead to.
  ghost predicate Closed(reach: set<HeapEntry>, roots: seq<seq<nat>>, s: set<HeapEntry>, pinned: set<HeapEntry>)
    reads s`memory
  {
    && (forall r, e | r in roots && e in s && Refers(r, e) :: e in reach)
    && forall e, f | e in reach && e in s && f in s && Searched(e, pinned) && Refers(e.memory, f) :: f in reach
  }

  lemma ReachableIsClosed(roots: seq<seq<nat>>, s: set<HeapEntry>, pinned: set<HeapEntry>)
    ensures Closed(ReachableSet(roots, s, pinned), roots, s, pinned)
  {
    forall r, e | r in roots && e in s && Refers(r, e) ensures Reachable(e, roots, s, pinned) {
      assert ReachedIn(e, 0, roots, s, pinned);
    }
    forall e, f | e in s && Reachable(e, roots, s, pinned) && f in s && Searched(e, pinned) && Refers(e.memory, f)
      ensures Reachable(f, roots, s, pinned)
    {
      var n: nat :| ReachedIn(e, n, roots, s, pinned);
      assert ReachedIn(f, n + 1, roots, s, pinned);
    }
  }

  // No closed set leaves out anything reachable.
  lemma {:induction false} ReachableIsLeast(
    e: HeapEntry, n: nat, m: set<HeapEntry>, roots: seq<seq<nat>>, s: set<HeapEntry>, pinned: set<HeapEntry>)
    requires Closed(m, roots, s, pinned) && e in s && ReachedIn(e, n, roots, s, pinned)
    ensures e in m
  {
    if n == 0 {
      var r :| r in roots && Refers(r, e);
    } else {
      var f :| f in s && ReachedIn(f, n - 1, roots, s, pinned) && Searched(f, pinned) && Refers(f.memory, e);
      ReachableIsLeast(f, n - 1, m, roots, s, pinned);
    }
  }

  // ---------------------------------------------------------------- which types are searched

  // Pointers, objects and value types, by their numbers on the evaluation stack.
  predicate IsReferenceLike(stackType: nat) {
    stackType in {4, 5, 7}
  }

  // No strings, no weak references, and arrays only of such elements.
  predicate MayRefer(t: TypeDef) {
    && IsReferenceLike(t.stackType) && !t.isString && !t.isWeakReference
    && (t.arrayElement.ElementType? ==> IsReferenceLike(t.arrayElement.stackType))
  }

  // Whatever a reached entry of such a type refers to is reached, unless the entry is pinned.
  lemma ReferencesAreFollowed(e: HeapEntry, f: HeapEntry, roots: seq<seq<nat>>, s: set<HeapEntry>, pinned: set<HeapEntry>)
    requires e in ReachableSet(roots, s, pinned) && e !in pinned && f in s && MayRefer(e.typ) && Refers(e.memory, f)
    ensures f in ReachableSet(roots, s, pinned)
  {
    ReachableIsClosed(roots, s, pinned);
    assert Searched(e, pinned);
  }

  // An entry of any other type is as good as pinned: nothing is reached through it.
  lemma OthersAreNotFollowed(e: HeapEntry, roots: seq<seq<nat>>, s: set<HeapEntry>, pinned: set<HeapEntry>)
    requires !MayRefer(e.typ)
    ensures ReachableSet(roots, s, pinned) == ReachableSet(roots, s, pinned + {e})
  {
    forall x, n: nat | x in s ensures ReachedIn(x, n, roots, s, pinned) <==> ReachedIn(x, n, roots, s, pinned + {e}) {
      ReachedAlike(x, n, e, roots, s, pinned);
    }
    forall x | x in s ensures Reachable(x, roots, s, pinned) <==> Reachable(x, roots, s, pinned + {e}) {
    }
  }

  lemma {:induction false} ReachedAlike(
    x: HeapEntry, n: nat, e: HeapEntry, roots: seq<seq<nat>>, s: set<HeapEntry>, pinned: set<HeapEntry>)
    requires !MayRefer(e.typ)
    ensures ReachedIn(x, n, roots, s, pinned) <==> ReachedIn(x, n, roots, s, pinned + {e})
    decreases n
  {
    if n > 0 {
      forall f | f in s
        ensures ReachedIn(f, n - 1, roots, s, pinned) && Searched(f, pinned) && Refers(f.memory, x) <==>
                ReachedIn(f, n - 1, roots, s, pinned + {e}) && Searched(f, pinned + {e}) && Refers(f.memory, x)
      {
        ReachedAlike(f, n - 1, e, roots, s, pinned);
      }
    }
  }

  // ---------------------------------------------------------------- the state between two steps

  ghost predicate Pends(stack: seq<seq<nat>>, w: nat) {
    exists words <- stack :: w in words
  }

  // The word leads to no entry outside the set.
  ghost predicate LeadsInto(w: nat, m: set<HeapEntry>, s: set<HeapEntry>) {
    w != 0 ==> forall e <- s :: Contains(e, w) ==> e in m
  }

  ghost function Unmarked(s: set<HeapEntry>): set<HeapEntry>
    reads s`marked
  {
    set e | e in s && e.marked == 0
  }

  // What is marked was pinned or is in reach.
  ghost predicate MarksSound(reach: set<HeapEntry>, s: set<HeapEntry>, pinned: set<HeapEntry>)
    reads s`marked
  {
    forall e <- s ::
      && (e.marked == PINNED <==> e in pinned)
      && e.marked in {0, 1, PINNED}
      && (e.marked == 1 ==> e in reach)
  }

  // A word that has to be followed: one of the roots, or of a searched entry already marked.
  ghost predicate Due(w: nat, roots: seq<seq<nat>>, s: set<HeapEntry>)
    reads s`memory, s`marked
  {
    Pends(roots, w) || exists e <- s :: e.marked == 1 && Scanned(e.typ) && w in e.memory
  }

  // Nothing is forgotten: every word that has to be followed has been, or is pending, or is in rest.
  ghost predicate NothingForgotten(stack: seq<seq<nat>>, rest: seq<nat>, roots: seq<seq<nat>>, s: set<HeapEntry>)
    reads s`memory, s`marked
  {
    forall w: nat :: Due(w, roots, s) ==> LeadsInto(w, s - Unmarked(s), s) || Pends(stack, w) || w in rest
  }

  ghost predicate AllJustified(stack: seq<seq<nat>>, rest: seq<nat>, reach: set<HeapEntry>, s: set<HeapEntry>) {
    forall w: nat :: Pends(stack, w) || w in rest ==> LeadsInto(w, reach, s)
  }

  // The state of marking: stack and rest are still to be searched.
  ghost predicate Progress(
    stack: seq<seq<nat>>, rest: seq<nat>, roots: seq<seq<nat>>, reach: set<HeapEntry>, s: set<HeapEntry>, pinned: set<HeapEntry>)
    reads s`memory, s`marked
  {
    && Closed(reach, roots, s, pinned)
    && MarksSound(reach, s, pinned)
    && NothingForgotten(stack, rest, roots, s)
    && AllJustified(stack, rest, reach, s)
  }

  // What marking promises: the marked entries are the pinned ones and the reachable ones.
  ghost predicate MarkedExactly(roots: seq<seq<nat>>, s: set<HeapEntry>, pinned: set<HeapEntry>)
    reads s`memory, s`marked
  {
    forall e <- s ::
      && (e.marked != 0 <==> e in pinned || Reachable(e, roots, s, pinned))
      && (e.marked == PINNED <==> e in pinned)
  }

  lemma Finished(roots: seq<seq<nat>>, s: set<HeapEntry>, pinned: set<HeapEntry>)
    requires MarksSound(ReachableSet(roots, s, pinned), s, pinned) && NothingForgotten([], [], roots, s)
    ensures MarkedExactly(roots, s, pinned)
  {
    var m := s - Unmarked(s);
    forall r, e | r in roots && e in s && Refers(r, e) ensures e in m {
      var w :| w in r && w != 0 && Contains(e, w);
      assert Pends(roots, w) && Due(w, roots, s);
    }
    forall e, f | e in m && f in s && Searched(e, pinned) && Refers(e.memory, f) ensures f in m {
      var w :| w in e.memory && w != 0 && Contains(f, w);
      assert Due(w, roots, s);
    }
    forall e | e in s && Reachable(e, roots, s, pinned) ensures e.marked != 0 {
      var n: nat :| ReachedIn(e, n, roots, s, pinned);
      ReachableIsLeast(e, n, m, roots, s, pinned);
    }
  }

  // ---------------------------------------------------------------- the algorithm

  method Mark(root: HeapEntry, nil: HeapEntry, roots: seq<seq<nat>>, ghost t: Tree, ghost pinned: set<HeapEntry>)
    requires Linked(root, nil, t) && Ordered(t) && Apart(Entries(t))
    requires forall e <- Entries(t) :: e.marked == if e in pinned then PINNED else 0
    modifies Entries(t)`marked
    ensures MarkedExactly(roots, Entries(t), pinned)
    ensures forall e <- Entries(t) :: e.marked in {0, 1, PINNED}
    ensures Linked(root, nil, t)
  {
    AllAllocated(t);
    ghost var s := Entries(t);
    ghost var reach := ReachableSet(roots, s, pinned);
    ReachableIsClosed(roots, s, pinned);
    InitialState(roots, s, pinned);
    var heapRoots := PushRoots(roots);
    SearchAll(heapRoots, root, nil, roots, t, pinned, reach);
    Finished(roots, s, pinned);
  }

  method SearchAll(
    heapRoots: HeapRoots, root: HeapEntry, nil: HeapEntry, ghost roots: seq<seq<nat>>,
    ghost t: Tree, ghost pinned: set<HeapEntry>, ghost reach: set<HeapEntry>)
    requires heapRoots.Valid() && Linked(root, nil, t) && Ordered(t) && Apart(Entries(t))
    requires Progress(heapRoots.Contents(), [], roots, reach, Entries(t), pinned)
    modifies heapRoots, heapRoots.heapEntries, Entries(t)`marked
    ensures Linked(root, nil, t)
    ensures Progress([], [], roots, reach, Entries(t), pinned)
  {
    AllAllocated(t);
    while heapRoots.num > 0
      invariant heapRoots.Valid() && (heapRoots.heapEntries == old(heapRoots.heapEntries) || fresh(heapRoots.heapEntries))
      invariant Linked(root, nil, t)
      invariant Progress(heapRoots.Contents(), [], roots, reach, Entries(t), pinned)
      decreases Unmarked(Entries(t)), heapRoots.num
    {
      SearchLast(heapRoots, root, nil, roots, t, pinned, reach);
    }
    assert heapRoots.Contents() == [];
  }

  method PushRoots(roots: seq<seq<nat>>) returns (heapRoots: HeapRoots)
    ensures fresh(heapRoots) && fresh(heapRoots.heapEntries)
    ensures heapRoots.Valid() && heapRoots.Contents() == roots
  {
    heapRoots := new HeapRoots();
    for i := 0 to |roots|
      invariant heapRoots.Valid() && heapRoots.Contents() == roots[..i]
      invariant fresh(heapRoots) && fresh(heapRoots.heapEntries)
    {
      heapRoots.SetRoots(roots[i]);
    }
  }

  lemma InitialState(roots: seq<seq<nat>>, s: set<HeapEntry>, pinned: set<HeapEntry>)
    requires forall e <- s :: e.marked == if e in pinned then PINNED else 0
    requires Closed(ReachableSet(roots, s, pinned), roots, s, pinned)
    ensures MarksSound(ReachableSet(roots, s, pinned), s, pinned)
    ensures NothingForgotten(roots, [], roots, s)
    ensures AllJustified(roots, [], ReachableSet(roots, s, pinned), s)
  {
  }

  // One round of the outer loop: searches the area on top of the stack.
  method SearchLast(
    heapRoots: HeapRoots, root: HeapEntry, nil: HeapEntry, ghost roots: seq<seq<nat>>,
    ghost t: Tree, ghost pinned: set<HeapEntry>, ghost reach: set<HeapEntry>)
    requires heapRoots.Valid() && heapRoots.num > 0
    requires Linked(root, nil, t) && Ordered(t) && Apart(Entries(t))
    requires Progress(heapRoots.Contents(), [], roots, reach, Entries(t), pinned)
    modifies heapRoots, heapRoots.heapEntries, Entries(t)`marked
    ensures heapRoots.Valid() && (heapRoots.heapEntries == old(heapRoots.heapEntries) || fresh(heapRoots.heapEntries))
    ensures Linked(root, nil, t)
    ensures Progress(heapRoots.Contents(), [], roots, reach, Entries(t), pinned)
    ensures Unmarked(Entries(t)) < old(Unmarked(Entries(t)))
            || (Unmarked(Entries(t)) == old(Unmarked(Entries(t))) && heapRoots.num < old(heapRoots.num))
  {
    AllAllocated(t);
    ghost var s := Entries(t);
    var moreRootsAdded := false;
    ghost var stack := heapRoots.Contents();
    var mem := heapRoots.TakeLast();
    Taken(stack, mem);
    for i := 0 to |mem|
      invariant heapRoots.Valid() && |heapRoots.Contents()| > 0
      invariant heapRoots.heapEntries == old(heapRoots.heapEntries) || fresh(heapRoots.heapEntries)
      invariant Linked(root, nil, t)
      invariant Progress(heapRoots.Contents(), mem[i..], roots, reach, s, pinned)
      invariant Unmarked(s) <= old(Unmarked(s))
      invariant moreRootsAdded ==> Unmarked(s) < old(Unmarked(s))
      invariant !moreRootsAdded ==> heapRoots.Contents() == stack[..|stack| - 1] + [[]]
    {
      assert mem[i..] == [mem[i]] + mem[i + 1..];
      var added := Follow(heapRoots, root, nil, mem[i], mem[i + 1..], roots, t, pinned, reach);
      moreRootsAdded := moreRootsAdded || added;
    }
    if !moreRootsAdded {
      Dropped(stack[..|stack| - 1]);
      heapRoots.Drop();
      assert heapRoots.Contents() == stack[..|stack| - 1];
    }
  }

  // Emptying the top entry leaves its words to be searched and all others pending.
  lemma Taken(stack: seq<seq<nat>>, mem: seq<nat>)
    requires stack != [] && mem == stack[|stack| - 1]
    ensures forall w: nat :: Pends(stack, w) <==> Pends(stack[..|stack| - 1] + [[]], w) || w in mem
  {
  }

  lemma Dropped(stack: seq<seq<nat>>)
    ensures forall w: nat :: Pends(stack + [[]], w) <==> Pends(stack, w)
  {
  }

  lemma Pushed(stack: seq<seq<nat>>, mem: seq<nat>)
    ensures forall w: nat :: Pends(stack + [mem], w) <==> Pends(stack, w) || w in mem
  {
  }

  // One round of the inner loop: looks the word up and marks what it finds.
  method Follow(
    heapRoots: HeapRoots, root: HeapEntry, nil: HeapEntry, memRef: nat, ghost rest: seq<nat>, ghost roots: seq<seq<nat>>,
    ghost t: Tree, ghost pinned: set<HeapEntry>, ghost reach: set<HeapEntry>) returns (added: bool)
    requires heapRoots.Valid() && Linked(root, nil, t) && Ordered(t) && Apart(Entries(t))
    requires Progress(heapRoots.Contents(), [memRef] + rest, roots, reach, Entries(t), pinned)
    modifies heapRoots, heapRoots.heapEntries, Entries(t)`marked
    ensures heapRoots.Valid() && (heapRoots.heapEntries == old(heapRoots.heapEntries) || fresh(heapRoots.heapEntries))
    ensures Linked(root, nil, t)
    ensures Progress(heapRoots.Contents(), rest, roots, reach, Entries(t), pinned)
    ensures Unmarked(Entries(t)) <= old(Unmarked(Entries(t)))
    ensures added ==> Unmarked(Entries(t)) < old(Unmarked(Entries(t)))
    ensures |heapRoots.Contents()| >= |old(heapRoots.Contents())|
    ensures !added ==> heapRoots.Contents() == old(heapRoots.Contents())
  {
    AllAllocated(t);
    added := false;
    if memRef != 0 {
      var node := TreeSearch(root, memRef, nil, t, -1, TWO32);
      if node != nil && node.marked == 0 {
        added := MarkNode(heapRoots, node, memRef, rest, roots, Entries(t), pinned, reach);
      }
    }
  }

  // Marks a node found through memRef, and adds its memory to the roots if it has to be searched.
  method MarkNode(
    heapRoots: HeapRoots, node: HeapEntry, ghost memRef: nat, ghost rest: seq<nat>, ghost roots: seq<seq<nat>>,
    ghost s: set<HeapEntry>, ghost pinned: set<HeapEntry>, ghost reach: set<HeapEntry>) returns (added: bool)
    requires heapRoots.Valid() && node in s && node.marked == 0
    requires memRef != 0 && Contains(node, memRef) && forall e <- s :: Contains(e, memRef) ==> e == node
    requires Progress(heapRoots.Contents(), [memRef] + rest, roots, reach, s, pinned)
    modifies heapRoots, heapRoots.heapEntries, node`marked
    ensures heapRoots.Valid() && (heapRoots.heapEntries == old(heapRoots.heapEntries) || fresh(heapRoots.heapEntries))
    ensures Progress(heapRoots.Contents(), rest, roots, reach, s, pinned)
    ensures Unmarked(s) == old(Unmarked(s)) - {node}
    ensures node.marked == 1
    ensures |heapRoots.Contents()| >= |old(heapRoots.Contents())|
    ensures !added ==> heapRoots.Contents() == old(heapRoots.Contents())
  {
    added := false;
    ghost var stack := heapRoots.Contents();
    assert memRef in [memRef] + rest;
    assert LeadsInto(memRef, reach, s);
    node.marked := 1;
    if Scanned(node.typ) {
      Pushed(stack, node.memory);
      heapRoots.SetRoots(node.memory);
      added := true;
      forall w: nat | w in node.memory ensures LeadsInto(w, reach, s) {
        forall e | e in s && w != 0 && Contains(e, w) ensures e in reach {
          assert Refers(node.memory, e);
        }
      }
    }
  }
}
