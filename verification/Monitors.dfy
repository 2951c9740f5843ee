/**
 Monitors: entering, leaving and waiting for the lock of an object, over every run of the threads and of the weak
 references to the object.
 */
module Monitors {
  import opened Options
  import opened SyncBlocks

  const MAX_U32 := 0xffff_ffff

  // Counting in 32 bits.
  function Inc(n: nat): nat {
    if n == MAX_U32 then 0 else n + 1
  }

  function Dec(n: nat): nat {
    if n == 0 then MAX_U32 else n - 1
  }

  // What Heap_SyncTryEnter and Heap_SyncExit do, and whether they succeed.
  function Entered(s: State, t: nat): State {
    var e := Ensured(s);
    if e.thread == None then e.(thread := Some(t), count := 1)
    else if e.thread == Some(t) then e.(count := Inc(e.count))
    else e
  }

  predicate CanEnter(s: State, t: nat) {
    s.NoSync? || s.thread == None || s.thread == Some(t)
  }

  function Left(s: State, t: nat): State {
    if !CanExit(s, t) then s
    else if Dec(s.count) == 0 then Dropped(s.(count := 0))
    else s.(count := Dec(s.count))
  }

  predicate CanExit(s: State, t: nat) {
    s.Block? && s.thread == Some(t)
  }

  method SyncTryEnter(entry: Entry, current: nat) returns (ok: bool)
    modifies entry, entry.pSync
    ensures entry.State() == Entered(old(entry.State()), current) && ok == CanEnter(old(entry.State()), current)
    ensures !ok ==> unchanged(entry) && entry.pSync != null && unchanged(entry.pSync)
  {
    var sync := entry.EnsureSync();
    if sync.thread == None {
      sync.thread, sync.count := Some(current), 1;
      return true;
    }
    if sync.thread == Some(current) {
      sync.count := Inc(sync.count);
      return true;
    }
    ok := false;
  }

  method SyncExit(entry: Entry, current: nat) returns (ok: bool)
    modifies entry, entry.pSync
    ensures entry.State() == Left(old(entry.State()), current) && ok == CanExit(old(entry.State()), current)
  {
    if entry.pSync == null {
      return false;
    }
    if entry.pSync.thread != Some(current) {
      return false;
    }
    entry.pSync.count := Dec(entry.pSync.count);
    if entry.pSync.count == 0 {
      entry.DeleteSync();
    }
    ok := true;
  }

  // ---------------------------------------------------------------- runs

  // What can happen to one object. The list of weak references to it grows; one of them is removed from it; or they are
  // told that the object is gone, except for those that outlive it.
  datatype Event = Enter(thread: nat) | Exit(thread: nat) | WeakAdded | WeakRemoved(left: bool) | TargetGone(left: bool)

  function Weakened(s: State, left: bool): State {
    if s.Block? then s.(weak := left) else s
  }

  function Step(s: State, e: Event): State {
    match e
    case Enter(t) => Entered(s, t)
    case Exit(t) => Left(s, t)
    case WeakAdded => var e := Ensured(s); e.(weak := true)
    case WeakRemoved(left) => Dropped(Weakened(s, left))
    case TargetGone(left) => Weakened(s, left)
  }

  function After(run: seq<Event>): State {
    if run == [] then NoSync else Step(After(run[..|run| - 1]), run[|run| - 1])
  }

  // How often a thread has entered and not left.
  function Held(run: seq<Event>, t: nat): int {
    if run == [] then 0
    else
      var before, e := run[..|run| - 1], run[|run| - 1];
      Held(before, t) +
      if e == Enter(t) && CanEnter(After(before), t) then 1 else if e == Exit(t) && CanExit(After(before), t) then -1 else 0
  }

  // Threads leave only what they entered.
  ghost predicate Disciplined(run: seq<Event>) {
    run != [] ==>
      var before, e := run[..|run| - 1], run[|run| - 1];
      Disciplined(before) && (e.Exit? ==> Held(before, e.thread) > 0)
  }

  // The lock is held by the thread it says, as often as it says, and by no other.
  ghost predicate Accurate(s: State, run: seq<Event>) {
    && (forall t: nat :: (s.NoSync? || s.thread != Some(t)) ==> Held(run, t) == 0)
    && (s.Block? ==> if s.thread == None then s.count == 0 else s.count == Held(run, s.thread.value))
  }

  lemma {:induction false} RunsAreAccurate(run: seq<Event>)
    requires Disciplined(run) && |run| <= MAX_U32
    ensures Accurate(After(run), run)
    ensures forall t: nat :: 0 <= Held(run, t) <= |run|
    decreases |run|
  {
    if run != [] {
      var before := run[..|run| - 1];
      RunsAreAccurate(before);
    }
  }

  // At most one thread is inside.
  lemma MutualExclusion(run: seq<Event>, t: nat, u: nat)
    requires Disciplined(run) && |run| <= MAX_U32 && Held(run, t) > 0 && Held(run, u) > 0
    ensures t == u
  {
    RunsAreAccurate(run);
  }

  // Who is let in finds nobody else inside, and who is inside gets out.
  lemma NobodyElseInside(run: seq<Event>, t: nat)
    requires Disciplined(run) && |run| <= MAX_U32
    ensures CanEnter(After(run), t) ==> forall u: nat :: u != t ==> Held(run, u) == 0
    ensures Held(run, t) > 0 ==> CanExit(After(run), t) && CanEnter(After(run), t)
  {
    RunsAreAccurate(run);
  }

  // What happens to weak references never takes the lock away from the thread that holds it.
  lemma WeakReferencesLeaveLocks(run: seq<Event>, e: Event, t: nat)
    requires Disciplined(run) && |run| < MAX_U32 && !e.Enter? && !e.Exit?
    ensures Held(run + [e], t) == Held(run, t)
    ensures Held(run, t) > 0 ==> CanExit(After(run + [e]), t)
  {
    var more := run + [e];
    assert more[..|more| - 1] == run;
    RunsAreAccurate(run);
    RunsAreAccurate(more);
  }

  // When a thread leaves for the last time, another thread can enter exactly if the object has no weak reference: if it
  // has one, the sync block stays, and with it the name of the thread that left.
  lemma LastExitFreesExactlyWithoutWeakReferences(run: seq<Event>, t: nat, u: nat)
    requires Disciplined(run) && |run| <= MAX_U32 && Held(run, t) == 1 && t != u
    ensures Held(run + [Exit(t)], t) == 0
    ensures CanEnter(After(run + [Exit(t)]), u) <==> !After(run).weak
  {
    var more := run + [Exit(t)];
    assert more[..|more| - 1] == run;
    RunsAreAccurate(run);
  }

  // An example: thread 0 enters, a weak reference is made, thread 0 leaves. Nobody is inside, and thread 1 is kept out.
  lemma LeftButTaken()
    ensures
      var run := [Enter(0), WeakAdded, Exit(0)];
      && Disciplined(run) && (forall t: nat :: Held(run, t) == 0)
      && After(run) == Block(Some(0), 0, true) && !CanEnter(After(run), 1)
  {
    var entered, weak, left := [Enter(0)], [Enter(0), WeakAdded], [Enter(0), WeakAdded, Exit(0)];
    assert entered[..0] == [] && weak[..1] == entered && left[..2] == weak;
    assert After([]) == NoSync && After(entered) == Block(Some(0), 1, false) && After(weak) == Block(Some(0), 1, true);
    assert forall t: nat :: Held(entered, t) == if t == 0 then 1 else 0;
    assert forall t: nat :: Held(weak, t) == Held(entered, t);
    assert Disciplined([]) && Disciplined(entered) && Disciplined(weak);
  }

  // An object that nobody holds is open to every thread as soon as its last weak reference is removed. That its weak
  // references are told that it is gone does not open it.
  lemma RemovingTheLastWeakReferenceFrees(run: seq<Event>, u: nat)
    requires Disciplined(run) && |run| <= MAX_U32 && forall t: nat :: Held(run, t) == 0
    ensures CanEnter(After(run + [WeakRemoved(false)]), u)
    ensures CanEnter(After(run + [TargetGone(false)]), u) <==> CanEnter(After(run), u)
  {
    var removed, gone := run + [WeakRemoved(false)], run + [TargetGone(false)];
    assert removed[..|removed| - 1] == run && gone[..|gone| - 1] == run;
    RunsAreAccurate(run);
  }

  // The count wraps around without losing the lock: entered once more at 2^32 - 1 it is 0, and left then it is 2^32 - 1 again.
  lemma CountWrapsAround(t: nat, weak: bool)
    ensures Entered(Block(Some(t), 0xffff_ffff, weak), t) == Block(Some(t), 0, weak)
    ensures Left(Block(Some(t), 0, weak), t) == Block(Some(t), 0xffff_ffff, weak)
  {
  }

  // ---------------------------------------------------------------- waiting

  const TWO32 := 0x1_0000_0000

  // The low 32 bits of a difference of times, as a signed number.
  function Elapsed(start: nat, now: nat): int {
    var low := (now as int - start) % TWO32;
    if low < TWO32 / 2 then low else low - TWO32
  }

  // Whether a thread that cannot enter stops waiting. It has not begun to wait when it has no start time.
  predicate GivesUp(timeout: int, start: Option<nat>, now: nat) {
    timeout == 0 || (timeout > 0 && start.Some? && Elapsed(start.value, now) > timeout)
  }

  // A thread waits as long as it was asked to, unless it is left waiting for 2^31 milliseconds: then it waits on.
  lemma WaitsAsLongAsAsked(timeout: int, start: nat, waited: nat)
    requires 0 < timeout < TWO32 / 2
    ensures waited < TWO32 / 2 ==> (GivesUp(timeout, Some(start), start + waited) <==> waited > timeout)
    ensures TWO32 / 2 <= waited < TWO32 ==> !GivesUp(timeout, Some(start), start + waited)
  {
  }

  // Internal_TryEntry_Check.
  method TryEntryCheck(entry: Entry, current: nat, timeout: int, start: Option<nat>, now: nat)
    returns (unblocked: bool, entered: bool)
    modifies entry, entry.pSync
    ensures entry.State() == Entered(old(entry.State()), current)
    ensures entered == CanEnter(old(entry.State()), current)
    ensures unblocked == (entered || GivesUp(timeout, start, now))
    ensures !entered ==> unchanged(entry) && entry.pSync != null && unchanged(entry.pSync)
  {
    entered := SyncTryEnter(entry, current);
    if entered {
      return true, true;
    }
    if timeout < 0 {
      return false, false;
    }
    if timeout == 0 {
      return true, false;
    }
    if start.None? {
      return false, false;
    }
    unblocked := Elapsed(start.value, now) > timeout;
  }
}
