/**
 The sync block of a heap object: who holds its lock, and the weak references that refer to it. The block is made
 when it is first needed and dropped when neither needs it.
 */
module SyncBlocks {
  import opened Options

  class WeakRef {
    var target: Entry?
    const trackRes: bool
    var next: WeakRef?

    constructor (trackRes: bool)
      ensures target == null && next == null && this.trackRes == trackRes
    {
      target, this.trackRes, next := null, trackRes, null;
    }
  }

  class Sync {
    var thread: Option<nat>
    var count: nat
    var weakRef: WeakRef?
    ghost const owner: Entry // the object it was made for

    constructor (ghost owner: Entry)
      ensures thread == None && count == 0 && weakRef == null && this.owner == owner
    {
      thread, count, weakRef := None, 0, null;
      this.owner := owner;
    }
  }

  // What a sync block says, whatever its address.
  datatype State = NoSync | Block(thread: Option<nat>, count: nat, weak: bool)

  function Ensured(s: State): (r: State)
    ensures r.Block? && (r == s || s.NoSync?)
  {
    if s.NoSync? then Block(None, 0, false) else s
  }

  function Dropped(s: State): State {
    if s.Block? && s.count == 0 && !s.weak then NoSync else s
  }

  class Entry {
    var pSync: Sync?

    constructor ()
      ensures State() == NoSync
    {
      pSync := null;
    }

    ghost function State(): State
      reads this, pSync
    {
      if pSync == null then NoSync else Block(pSync.thread, pSync.count, pSync.weakRef != null)
    }

    method EnsureSync() returns (r: Sync)
      modifies this
      ensures pSync == r && State() == Ensured(old(State()))
      ensures if old(pSync) == null then fresh(r) && r.weakRef == null && r.owner == this else r == old(pSync) && unchanged(this)
    {
      if pSync == null {
        pSync := new Sync(this);
      }
      r := pSync;
    }

    method DeleteSync()
      modifies this
      ensures State() == Dropped(old(State()))
      ensures pSync == null || pSync == old(pSync)
      ensures pSync == null && old(pSync) != null ==> old(pSync).weakRef == null
    {
      if pSync != null && pSync.count == 0 && pSync.weakRef == null {
        pSync := null;
      }
    }
  }
}
