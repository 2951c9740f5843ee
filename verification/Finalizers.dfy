/**
 The queue of objects waiting for their finalizer: an array that doubles when it is full and is
 emptied from its end.
 */
module Finalizers {
  import opened HeapEntries

  class FinalizerQueue {
    var toFinalize: array<HeapEntry>
    var ofs: nat
    var capacity: nat

    ghost predicate Valid()
      reads this, toFinalize
    {
      ofs <= capacity == toFinalize.Length && 0 < capacity
    }

    ghost function Contents(): seq<HeapEntry>
      reads this, toFinalize
      requires Valid()
    {
      toFinalize[..ofs]
    }

    // The slots not in use hold any entry at all.
    constructor (filler: HeapEntry)
      ensures Valid() && Contents() == [] && fresh(toFinalize)
    {
      capacity, ofs := 4, 0;
      toFinalize := new HeapEntry[4](_ => filler);
    }

    method AddFinalizer(e: HeapEntry)
      requires Valid()
      modifies this, toFinalize
      ensures Valid() && Contents() == old(Contents()) + [e]
      ensures toFinalize == old(toFinalize) || fresh(toFinalize)
    {
      if ofs >= capacity {
        var grown := new HeapEntry[capacity * 2](_ => e);
        for i := 0 to ofs
          invariant toFinalize == old(toFinalize) && ofs == old(ofs) && capacity == old(capacity)
          invariant toFinalize[..] == old(toFinalize[..])
          invariant grown[..i] == toFinalize[..i]
        {
          grown[i] := toFinalize[i];
        }
        capacity, toFinalize := capacity * 2, grown;
      }
      toFinalize[ofs] := e;
      ofs := ofs + 1;
    }

    // The entry added last, or null when there is none.
    method GetNextFinalizer() returns (e: HeapEntry?)
      requires Valid()
      modifies this`ofs
      ensures Valid()
      ensures e == null <==> old(Contents()) == []
      ensures e == null ==> Contents() == []
      ensures e != null ==> old(Contents()) == Contents() + [e]
    {
      if ofs == 0 {
        return null;
      }
      ofs := ofs - 1;
      e := toFinalize[ofs];
    }
  }
}
