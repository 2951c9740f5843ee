/**
 The life of finalizable objects over whole runs: the steps are those that the methods of ManagedHeap.Heap perform, seen
 through its ghost fields.
 */
module FinalizerLife {
  import opened HeapEntries
  import opened Sweeping
  import opened ManagedHeap

  // The ghost fields of a heap, with all entries allocated so far and all those queued so far.
  datatype Life = Life(
    marks: map<HeapEntry, Marks>, waiting: seq<HeapEntry>, finalizing: set<HeapEntry>,
    born: set<HeapEntry>, everQueued: seq<HeapEntry>)

  datatype Event =
    | Allocate(e: HeapEntry, hasFinalizer: bool)
    | Collect(reach: set<HeapEntry>, queued: seq<HeapEntry>)
    | Pin(e: HeapEntry, mark: nat)
    | Start
    | Finish(e: HeapEntry)
    | Suppress(e: HeapEntry)

  const NOTHING := Life(map[], [], {}, {}, [])

  ghost predicate Next(s: Life, v: Event, s': Life) {
    match v
    case Allocate(e, f) =>
      e !in s.born
      && s' == s.(marks := s.marks[e := Marks(0, if f then 1 else 0)], born := s.born + {e})
    case Collect(reach, queued) =>
      Collected(s.marks, reach, s'.marks, queued)
      && s' == s.(marks := s'.marks, waiting := s.waiting + queued, everQueued := s.everQueued + queued)
    case Pin(e, mark) =>
      e in s.marks && mark in {0, PINNED}
      && s' == s.(marks := s.marks[e := Marks(mark, s.marks[e].needToFinalize)])
    case Start =>
      s.waiting != []
      && var n := |s.waiting| - 1; s' == s.(waiting := s.waiting[..n], finalizing := s.finalizing + {s.waiting[n]})
    case Finish(e) =>
      e in s.finalizing && e in s.marks
      && s' == s.(marks := s.marks[e := Marks(s.marks[e].marked, 0)], finalizing := s.finalizing - {e})
    case Suppress(e) => // of an object neither queued nor being finalized
      e in s.marks && e !in s.waiting && e !in s.finalizing
      && s' == s.(marks := s.marks[e := Marks(s.marks[e].marked, 0)])
  }

  ghost predicate Run(states: seq<Life>, events: seq<Event>) {
    && |states| == |events| + 1 && states[0] == NOTHING
    && forall i :: 0 <= i < |events| ==> Next(states[i], events[i], states[i + 1])
  }

  ghost predicate Sound(s: Life) {
    && InOrder(s.marks, s.waiting, s.finalizing)
    && NoDuplicates(s.everQueued)
    && s.marks.Keys <= s.born
    && (forall e <- s.everQueued :: e in s.born && (e in s.marks ==> s.marks[e].needToFinalize != 1))
  }

  lemma NextKeepsSound(s: Life, v: Event, s': Life)
    requires Sound(s) && Next(s, v, s')
    ensures Sound(s')
  {
    match v
    case Allocate(e, f) => OrderWithNew(s.marks, s.waiting, s.finalizing, e, f);
    case Collect(reach, queued) =>
      CollectionKeepsOrder(s.marks, reach, s'.marks, queued, s.waiting, s.finalizing);
      forall e | e in s.everQueued ensures e !in queued {
      }
      StillNoDuplicates(s.everQueued, queued);
    case Pin(e, mark) => OrderWithMark(s.marks, s.waiting, s.finalizing, e, mark);
    case Start =>
      var n := |s.waiting| - 1;
      assert s.waiting == s.waiting[..n] + [s.waiting[n]];
      OrderDequeued(s.marks, s.waiting[..n], s.finalizing, s.waiting[n]);
    case Finish(e) => OrderFinalized(s.marks, s.waiting, s.finalizing, e);
    case Suppress(e) => OrderSuppressed(s.marks, s.waiting, s.finalizing, e);
  }

  lemma {:induction false} RunsAreSound(states: seq<Life>, events: seq<Event>, i: nat)
    requires Run(states, events) && i <= |events|
    ensures Sound(states[i])
  {
    if i > 0 {
      RunsAreSound(states, events, i - 1);
      NextKeepsSound(states[i - 1], events[i - 1], states[i]);
    }
  }

  // needToFinalize stays, or goes from 1 to 2 when the object is queued, or from 2 to 0 when its finalizer
  // has run, or from anything but 2 to 0 when it is suppressed; an object freed has it at 0.
  lemma NeedToFinalizeAdvances(states: seq<Life>, events: seq<Event>, i: nat, e: HeapEntry)
    requires Run(states, events) && i < |events| && e in states[i].marks
    ensures
      var before, after := states[i].marks[e].needToFinalize, states[i + 1].marks;
      if e !in after then events[i].Collect? && before == 0
      else
        || after[e].needToFinalize == before
        || (before == 1 && after[e].needToFinalize == 2 && events[i].Collect? && e in events[i].queued)
        || (before == 2 && after[e].needToFinalize == 0 && events[i] == Finish(e))
        || (before == 1 && after[e].needToFinalize == 0 && events[i] == Suppress(e))
  {
    RunsAreSound(states, events, i);
    assert Next(states[i], events[i], states[i + 1]);
  }

  // No object is queued twice, and none leaves the heap between being queued and the end of its finalizer.
  lemma FinalizedOnce(states: seq<Life>, events: seq<Event>, i: nat)
    requires Run(states, events) && i <= |events|
    ensures NoDuplicates(states[i].everQueued)
    ensures forall e <- states[i].waiting :: e in states[i].marks && states[i].marks[e].needToFinalize == 2
    ensures forall e <- states[i].finalizing :: e in states[i].marks && states[i].marks[e].needToFinalize == 2
  {
    RunsAreSound(states, events, i);
  }

  // ---------------------------------------------------------------- the heap performs these steps

  // The life as the heap has it.
  ghost predicate Lives(h: Heap, s: Life)
    reads h`marks, h`waiting, h`finalizing
  {
    s.marks == h.marks && s.waiting == h.waiting && s.finalizing == h.finalizing
  }

  method AllocateStep(h: Heap, addr: nat, typ: TypeDef, size: nat, ghost s: Life) returns (e: HeapEntry, ghost s': Life)
    requires h.Valid() && Lives(h, s)
    requires addr + HEADER_SIZE + size < TWO32 && Clear(Entries(h.tree), addr, HEADER_SIZE + size)
    modifies h`root, h`trackHeapSize, h`numNodes, h`tree, h`marks, h`waiting
    modifies Entries(h.tree)`left, Entries(h.tree)`right, Entries(h.tree)`level
    ensures h.Valid() && Lives(h, s') && Next(s, Allocate(e, typ.hasFinalizer), s')
  {
    e := h.AllocBlock(addr, typ, size);
    s' := s.(marks := h.marks, born := s.born + {e});
  }

  method CollectStep(h: Heap, roots: seq<seq<nat>>, ghost s: Life) returns (ghost v: Event, ghost s': Life)
    requires h.Valid() && Lives(h, s) && h.tree.Node?
    modifies h, h.nil`right, Entries(h.tree)`left, Entries(h.tree)`right, Entries(h.tree)`level
    modifies Entries(h.tree)`marked, Entries(h.tree)`needToFinalize, h.queue, h.queue.toFinalize
    ensures h.Valid() && Lives(h, s') && v.Collect? && Next(s, v, s')
  {
    ghost var reach := Reached(roots, Entries(h.tree));
    ghost var queued := h.GarbageCollect(roots);
    v, s' := Collect(reach, queued), s.(marks := h.marks, waiting := h.waiting, everQueued := s.everQueued + queued);
  }

  method PinStep(h: Heap, e: HeapEntry, pin: bool, ghost s: Life) returns (ghost s': Life)
    requires h.Valid() && Lives(h, s) && e in h.marks
    modifies e`marked, h`marks, h`finalizing
    ensures h.Valid() && Lives(h, s') && Next(s, Pin(e, if pin then PINNED else 0), s')
  {
    if pin {
      h.MakeUndeletable(e);
    } else {
      h.MakeDeletable(e);
    }
    s' := s.(marks := h.marks);
  }

  method StartStep(h: Heap, ghost s: Life) returns (e: HeapEntry?, ghost s': Life)
    requires h.Valid() && Lives(h, s)
    modifies h.queue`ofs, h`waiting, h`finalizing
    ensures h.Valid() && Lives(h, s') && if e == null then s' == s && s.waiting == [] else Next(s, Start, s')
  {
    e := h.RunFinalizer();
    s' := s.(waiting := h.waiting, finalizing := h.finalizing);
  }

  method FinishStep(h: Heap, e: HeapEntry, ghost s: Life) returns (ghost s': Life)
    requires h.Valid() && Lives(h, s) && e in h.finalizing
    modifies e`needToFinalize, h`marks, h`finalizing
    ensures h.Valid() && Lives(h, s') && Next(s, Finish(e), s')
  {
    h.FinalizerDone(e);
    s' := s.(marks := h.marks, finalizing := h.finalizing);
  }

  // Of an object neither queued nor being finalized.
  method SuppressStep(h: Heap, e: HeapEntry, ghost s: Life) returns (ghost s': Life)
    requires h.Valid() && Lives(h, s) && e in h.marks && e !in h.waiting && e !in h.finalizing
    modifies e`needToFinalize, h`marks
    ensures h.Valid() && Lives(h, s') && Next(s, Suppress(e), s')
  {
    h.SuppressFinalize(e);
    s' := s.(marks := h.marks);
  }
}
