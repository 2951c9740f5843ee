/**
 The scheduler: the threads are asked in turn, beginning behind the one that ran last, and the first that is ready
 runs next.
 */
module Scheduler {
  import opened Options
  import MachineInts
  import Powers
  import opened SyncBlocks
  import opened Monitors

  const THREADSTATE_RUNNING := 0x0000
  const THREADSTATE_BACKGROUND := 0x0004
  const THREADSTATE_UNSTARTED := 0x0008
  const THREADSTATE_SUSPENDED := 0x0040
  const IO_SLEEP := 5
  const NO_SLEEP := 0xffff_ffff

  // What a thread waits for: a time, a lock, or something else that is asked about when the thread's turn comes.
  datatype Async = Sleep(sleepTime: nat, start: nat) | Lock(entry: Entry, timeout: int, start: nat) | Other(request: nat)

  datatype Wait =
    | Nothing
    | ForTime(sleepTime: nat, start: nat)
    | ForLock(entry: Entry, lock: State, timeout: int, start: nat)
    | ForOther(request: nat)
  datatype View = Viewed(id: nat, running: bool, wait: Wait)

  // How much of a sleep is left, in signed 32-bit numbers that wrap around.
  function Remaining(sleepTime: nat, start: nat, now: nat): int {
    Elapsed(now, start + sleepTime)
  }

  // A thread sleeps as long as it was asked to. From 2^31 milliseconds later on it would sleep again.
  lemma SleepsAsLongAsAsked(sleepTime: nat, start: nat, slept: nat)
    requires sleepTime < TWO32 / 2 && slept < TWO32
    ensures slept <= sleepTime ==> Remaining(sleepTime, start, start + slept) == sleepTime - slept
    ensures Remaining(sleepTime, start, start + slept) <= 0 <==> sleepTime <= slept <= sleepTime + TWO32 / 2
  {
    var left := sleepTime - slept;
    assert start + sleepTime - (start + slept) == left;
    MachineInts.RemainderIs(left, TWO32, if left < 0 then -1 else 0, if left < 0 then left + TWO32 else left);
  }

  // Whether the thread can run, at a time, when the other things waited for are there or not.
  predicate Ready(v: View, now: nat, io: nat -> bool) {
    v.running &&
    match v.wait
    case Nothing => true
    case ForTime(sleepTime, start) => Remaining(sleepTime, start, now) <= 0
    case ForLock(_, lock, timeout, start) => CanEnter(lock, v.id) || GivesUp(timeout, Some(start), now)
    case ForOther(request) => io(request)
  }

  class Thread {
    const id: nat
    var state: nat
    var pAsync: Option<Async>
    var returned: bool // what was found when the lock was asked for

    constructor (id: nat, state: nat)
      ensures this.id == id && this.state == state && pAsync == None
    {
      this.id, this.state, pAsync, returned := id, state, None, false;
    }

    ghost function LockEntry(): set<object>
      reads this
    {
      if pAsync.Some? && pAsync.value.Lock? then {pAsync.value.entry} else {}
    }

    ghost function LockSync(): set<object>
      reads this, LockEntry()
    {
      if pAsync.Some? && pAsync.value.Lock? && pAsync.value.entry.pSync != null then {pAsync.value.entry.pSync} else {}
    }

    // The state without the background flag.
    predicate Running()
      reads this
    {
      state == THREADSTATE_RUNNING || state == THREADSTATE_BACKGROUND
    }

    // Neither in the background nor still to be started nor suspended.
    predicate KeepsAlive()
      reads this
    {
      state / THREADSTATE_BACKGROUND % 2 == 0 && state != THREADSTATE_UNSTARTED && state != THREADSTATE_SUSPENDED
    }

    // System_Threading_Thread_Start: of the state only the background bit is left.
    method Start()
      modifies this`state
      ensures MachineInts.HasBit(state, 2) == old(MachineInts.HasBit(state, 2)) && Running()
      ensures View().wait == old(View().wait)
    {
      ghost var before := state;
      state := MachineInts.OnBits(MachineInts.AndBits, state, THREADSTATE_BACKGROUND);
      OnlyOneBit(before);
    }

    // What the thread waits for, with the state of the lock.
    ghost function View(): View
      reads this, LockEntry(), LockSync()
    {
      match pAsync
      case None => Viewed(id, Running(), Nothing)
      case Some(Sleep(sleepTime, start)) => Viewed(id, Running(), ForTime(sleepTime, start))
      case Some(Lock(entry, timeout, start)) => Viewed(id, Running(), ForLock(entry, entry.State(), timeout, start))
      case Some(Other(request)) => Viewed(id, Running(), ForOther(request))
    }

    // The thread goes on: what it waited for is done, except that a sleep is left in place. A lock that it waited for is
    // entered in its own name.
    ghost predicate Resumed(v: View)
      reads this, if v.wait.ForLock? then {v.wait.entry} else {}
      reads if v.wait.ForLock? && v.wait.entry.pSync != null then {v.wait.entry.pSync} else {}
    {
      match v.wait
      case ForTime(sleepTime, start) => pAsync == Some(Sleep(sleepTime, start))
      case ForLock(entry, lock, _, _) => pAsync == None && returned == CanEnter(lock, id) && entry.State() == Entered(lock, id)
      case _ => pAsync == None
    }

    // Asks whether the thread can run.
    method Poll(now: nat, io: nat -> bool, minSleepTime: nat) returns (ready: bool, shortest: nat)
      requires Running()
      modifies this, LockEntry(), LockSync()
      ensures ready == Ready(old(View()), now, io)
      ensures ready ==> Resumed(old(View()))
      ensures !ready ==> shortest <= IO_SLEEP || (shortest <= minSleepTime && shortest <= Patience(old(View()), now))
      ensures !ready ==> unchanged(this) && unchanged(LockEntry()) && unchanged(LockSync())
    {
      shortest := minSleepTime;
      match pAsync
      case None => ready := true;
      case Some(Sleep(sleepTime, start)) =>
        var remaining := Remaining(sleepTime, start, now);
        ready := remaining <= 0;
        if !ready && remaining < minSleepTime {
          shortest := remaining;
        }
      case Some(Lock(entry, timeout, start)) =>
        var unblocked, entered := TryEntryCheck(entry, id, timeout, Some(start), now);
        ready := unblocked;
        if unblocked {
          pAsync, returned := None, entered;
        } else {
          shortest := IO_SLEEP;
        }
      case Some(Other(request)) =>
        ready := io(request);
        if ready {
          pAsync := None;
        } else {
          shortest := IO_SLEEP;
        }
    }
  }

  // ---------------------------------------------------------------- the bits of the state

  // The state has no other bit than the one that says that the thread is in the background.
  ghost predicate OnlyBackground(state: nat) {
    forall k: nat :: MachineInts.HasBit(state, k) ==> k == 2
  }

  // The states differ at most in whether the thread is in the background.
  ghost predicate SameButBackground(state: nat, other: nat) {
    forall k: nat :: k != 2 ==> (MachineInts.HasBit(state, k) <==> MachineInts.HasBit(other, k))
  }

  lemma StateOfBits(state: nat)
    ensures OnlyBackground(state) <==> state == 0x0000 || state == 0x0004
  {
    MachineInts.Pow2Of64();
    assert Powers.Pow2(2) == 4;
    forall k: nat ensures !MachineInts.HasBit(0, k) && (MachineInts.HasBit(4, k) <==> k == 2) {
      MachineInts.BitsOfPower(2, k);
      MachineInts.NoBitsOfZero(k);
    }
    if OnlyBackground(state) {
      MachineInts.SameBits(state, if MachineInts.HasBit(state, 2) then 4 else 0);
    }
  }

  lemma OnlyOneBit(state: nat)
    ensures
      var masked := MachineInts.OnBits(MachineInts.AndBits, state, 4);
      OnlyBackground(masked) && (MachineInts.HasBit(masked, 2) <==> MachineInts.HasBit(state, 2)) && (masked == 0 || masked == 4)
  {
    assert Powers.Pow2(2) == 4;
    forall k: nat
      ensures MachineInts.HasBit(MachineInts.OnBits(MachineInts.AndBits, state, 4), k) <==> k == 2 && MachineInts.HasBit(state, k)
    {
      MachineInts.BitsOfPower(2, k);
      MachineInts.BitsAreCombined(MachineInts.AndBits, state, 4, k);
    }
    StateOfBits(MachineInts.OnBits(MachineInts.AndBits, state, 4));
  }

  // A thread is running exactly if no bit of its state other than 0x0004 is set.
  lemma RunningExactlyWhen(t: Thread)
    ensures t.View().running <==> OnlyBackground(t.state)
  {
    StateOfBits(t.state);
  }

  // The scheduler does not see whether a thread is in the background.
  lemma BackgroundIsNotSeen(t: Thread, u: Thread)
    requires t.id == u.id && t.pAsync == u.pAsync && SameButBackground(t.state, u.state)
    ensures t.View() == u.View()
    ensures forall now: nat, io: nat -> bool :: Ready(t.View(), now, io) <==> Ready(u.View(), now, io)
  {
    RunningExactlyWhen(t);
    RunningExactlyWhen(u);
  }

  // A thread in the background never keeps the program alive; of the others exactly those still to be started, 0x0008, and
  // those suspended, 0x0040, do not.
  lemma KeepsAliveExactlyWhen(t: Thread)
    ensures MachineInts.HasBit(t.state, 2) ==> !t.KeepsAlive()
    ensures !MachineInts.HasBit(t.state, 2) ==> (t.KeepsAlive() <==> t.state != 0x0008 && t.state != 0x0040)
  {
    assert Powers.Pow2(2) == 4;
  }

  // An example: the thread that ran last waits for something that has not come, and the other one, in the background, for
  // nothing. It is selected.
  lemma BackgroundThreadRuns(t: Thread, u: Thread, request: nat, clock: nat -> nat, io: nat -> (nat -> bool))
    requires t.state == 0x0004 && t.pAsync == None && u.state == 0x0000 && u.pAsync == Some(Other(request))
    ensures Selects([t.View(), u.View()], 1, clock, io, Some(0), 1)
  {
    assert Turn(2, 1, 0) == 1 && Turn(2, 1, 1) == 0;
  }

  // The thread behind one of n, or the first one again.
  function Following(n: nat, i: nat): nat {
    if i + 1 < n then i + 1 else 0
  }

  // Which of n threads is asked at the j-th turn, however many laps that takes.
  function Turn(n: nat, prev: nat, j: nat): (r: nat)
    requires prev < n
    ensures r < n
  {
    if j == 0 then prev else Following(n, Turn(n, prev, j - 1))
  }

  // Within a lap.
  lemma {:induction false} TurnWithin(n: nat, prev: nat, j: nat)
    requires prev < n && j <= n
    ensures Turn(n, prev, j) == if prev + j < n then prev + j else prev + j - n
    decreases j
  {
    if j > 0 {
      TurnWithin(n, prev, j - 1);
    }
  }

  // A lap later it is the same thread's turn again.
  lemma {:induction false} TurnAgain(n: nat, prev: nat, j: nat)
    requires prev < n
    ensures Turn(n, prev, j + n) == Turn(n, prev, j)
    decreases j
  {
    if j > 0 {
      TurnAgain(n, prev, j - 1);
    } else {
      TurnWithin(n, prev, n);
    }
  }

  // Whether the thread asked at the j-th turn is ready.
  predicate ReadyAt(views: seq<View>, prev: nat, clock: nat -> nat, io: nat -> (nat -> bool), j: nat)
    requires prev < |views|
  {
    Ready(views[Turn(|views|, prev, j)], clock(j), io(j))
  }

  ghost predicate NoneReady(views: seq<View>, prev: nat, clock: nat -> nat, io: nat -> (nat -> bool), turns: nat)
    requires prev < |views|
  {
    forall j :: 1 <= j <= turns ==> !ReadyAt(views, prev, clock, io, j)
  }

  // How long the thread can be left alone, at most: for one that does not sleep it is not known.
  function Patience(v: View, now: nat): int {
    if v.wait.ForTime? then Remaining(v.wait.sleepTime, v.wait.start, now) else IO_SLEEP
  }

  // The thread asked at the j-th turn can be left alone for so long.
  predicate Bears(views: seq<View>, prev: nat, clock: nat -> nat, sleep: nat, j: nat)
    requires prev < |views|
  {
    var v := views[Turn(|views|, prev, j)];
    v.running ==> sleep <= IO_SLEEP || sleep <= Patience(v, clock(j))
  }

  // It is not slept longer than any blocked thread asks for, nor than it takes to ask again for what is not a time.
  ghost predicate WakesInTime(views: seq<View>, prev: nat, clock: nat -> nat, turns: nat, sleep: nat)
    requires prev < |views|
  {
    forall j :: 1 <= j <= turns ==> Bears(views, prev, clock, sleep, j)
  }

  ghost predicate Searching(views: seq<View>, prev: nat, clock: nat -> nat, io: nat -> (nat -> bool), turns: nat, sleep: nat)
    requires prev < |views|
  {
    NoneReady(views, prev, clock, io, turns) && WakesInTime(views, prev, clock, turns, sleep)
  }

  lemma StillWakesInTime(views: seq<View>, prev: nat, clock: nat -> nat, turns: nat, sleep: nat, next: nat)
    requires prev < |views| && WakesInTime(views, prev, clock, turns, sleep)
    requires next <= IO_SLEEP || next <= sleep
    requires Bears(views, prev, clock, next, turns + 1)
    ensures WakesInTime(views, prev, clock, turns + 1, next)
  {
    forall j | 1 <= j <= turns ensures Bears(views, prev, clock, next, j) {
      assert Bears(views, prev, clock, sleep, j);
    }
  }

  // The threads are asked in turn, from the one behind the previous thread, until one is ready. When the previous thread
  // itself is running and has been asked in vain, all threads are blocked.
  ghost predicate Selects(views: seq<View>, prev: nat, clock: nat -> nat, io: nat -> (nat -> bool), next: Option<nat>, turns: nat) {
    && prev < |views| && 1 <= turns && NoneReady(views, prev, clock, io, turns - 1)
    && (views[prev].running ==> turns <= |views|)
    && ReadyAt(views, prev, clock, io, turns) == next.Some?
    && if next.Some? then next.value == Turn(|views|, prev, turns) else views[prev].running && turns == |views|
  }

  // ---------------------------------------------------------------- waiting for a turn

  // How many turns it takes until the thread i is asked.
  function Distance(n: nat, prev: nat, i: nat): (r: nat)
    requires prev < n && i < n
    ensures 1 <= r <= n && Turn(n, prev, r) == i
  {
    var d := if i > prev then i - prev else i + n - prev;
    TurnWithin(n, prev, d);
    d
  }

  // A thread that is ready when it is asked is not passed over: it runs next, or it comes closer.
  lemma ReadyThreadsComeCloser(views: seq<View>, prev: nat, clock: nat -> nat, io: nat -> (nat -> bool), next: Option<nat>,
                               turns: nat, i: nat)
    requires Selects(views, prev, clock, io, next, turns) && i < |views|
    requires ReadyAt(views, prev, clock, io, Distance(|views|, prev, i))
    ensures next.Some? && next.value < |views|
    ensures next.value != i ==> Distance(|views|, next.value, i) < Distance(|views|, prev, i)
  {
    TurnWithin(|views|, prev, turns);
  }

  // A new thread is put first. So it is asked when the end of the list has been reached, and those behind the previous
  // thread are asked as soon as without it, all others one turn later.
  lemma NewThreadCostsOneTurn(n: nat, prev: nat, i: nat)
    requires prev < n && i < n
    ensures Distance(n + 1, prev + 1, 0) == n - prev
    ensures Distance(n + 1, prev + 1, i + 1) == Distance(n, prev, i) + if i > prev then 0 else 1
  {
  }

  // One pass of the scheduler.
  datatype Pass = Pass(views: seq<View>, prev: nat, clock: nat -> nat, io: nat -> (nat -> bool), next: Option<nat>, turns: nat)

  // Passes over n threads, none of which exits and none of which is created, with thread i ready whenever it is asked.
  ghost predicate StaysReady(run: seq<Pass>, n: nat, i: nat) {
    && (forall k :: 0 <= k < |run| ==>
          var p := run[k];
          && |p.views| == n && i < n && Selects(p.views, p.prev, p.clock, p.io, p.next, p.turns)
          && ReadyAt(p.views, p.prev, p.clock, p.io, Distance(n, p.prev, i)))
    && (forall k :: 0 <= k < |run| - 1 ==> run[k].next == Some(run[k + 1].prev))
  }

  // It runs within a lap: after at most as many passes as it is threads away.
  lemma {:induction false} RunsWithinALap(run: seq<Pass>, n: nat, i: nat) returns (k: nat)
    requires StaysReady(run, n, i) && run != [] && Distance(n, run[0].prev, i) <= |run|
    ensures k < Distance(n, run[0].prev, i) && run[k].next == Some(i)
    decreases |run|
  {
    var p := run[0];
    ReadyThreadsComeCloser(p.views, p.prev, p.clock, p.io, p.next, p.turns, i);
    if p.next == Some(i) {
      k := 0;
    } else {
      assert |run| > 1;
      assert run[0 + 1].prev == p.next.value;
      var rest := RunsWithinALap(run[1..], n, i);
      k := rest + 1;
    }
  }

  // ---------------------------------------------------------------- when the search ends

  // Whether the search ends at the j-th turn.
  ghost predicate EndsAt(views: seq<View>, prev: nat, clock: nat -> nat, io: nat -> (nat -> bool), j: nat)
    requires prev < |views|
  {
    ReadyAt(views, prev, clock, io, j) || (Turn(|views|, prev, j) == prev && views[prev].running)
  }

  // Between two turns of the same thread, a lap apart, the clock does not go back and advances by no more than a
  // millisecond; it goes on for ever.
  ghost predicate Steady(clock: nat -> nat, n: nat) {
    && (forall j: nat :: Slow(clock, n, j))
    && forall j: nat, t: nat :: ComesTo(clock, n, j, t)
  }

  predicate Slow(clock: nat -> nat, n: nat, j: nat) {
    clock(j) <= clock(j + n) <= clock(j) + 1
  }

  ghost predicate ComesTo(clock: nat -> nat, n: nat, j: nat, t: nat) {
    exists k: nat :: clock(Later(j, n, k)) >= t
  }

  // The turn k laps later.
  function Later(j: nat, n: nat, k: nat): nat {
    if k == 0 then j else Later(j, n, k - 1) + n
  }

  // What comes is there from some turn on; what does not come is never there.
  ghost predicate Settles(io: nat -> (nat -> bool), comes: nat -> bool) {
    forall request: nat ::
      if comes(request) then exists j: nat :: ThereFrom(io, request, j) else forall k: nat :: !io(k)(request)
  }

  ghost predicate ThereFrom(io: nat -> (nat -> bool), request: nat, j: nat) {
    forall k: nat :: k >= j ==> io(k)(request)
  }

  // While no thread runs, the thread will be found ready: it waits for nothing, or for a time, or for a lock that it can
  // enter or for which it does not wait for ever, or for something that comes.
  predicate WillBeReady(v: View, comes: nat -> bool) {
    v.running &&
    match v.wait
    case Nothing => true
    case ForTime(_, _) => true
    case ForLock(_, lock, timeout, _) => CanEnter(lock, v.id) || 0 <= timeout < TWO32 / 2 - 1
    case ForOther(request) => comes(request)
  }

  lemma {:induction false} TurnLater(n: nat, prev: nat, j: nat, k: nat)
    requires prev < n
    ensures Turn(n, prev, Later(j, n, k)) == Turn(n, prev, j) && Later(j, n, k) >= j + k
    decreases k
  {
    if k > 0 {
      TurnLater(n, prev, j, k - 1);
      TurnAgain(n, prev, Later(j, n, k - 1));
    }
  }

  // The clock passes through every time at the turns of a thread.
  lemma {:induction false} Strikes(clock: nat -> nat, n: nat, j: nat, k: nat, t: nat) returns (m: nat)
    requires Steady(clock, n) && clock(j) <= t <= clock(Later(j, n, k))
    ensures clock(Later(j, n, m)) == t
    decreases k
  {
    if k == 0 || clock(Later(j, n, k)) == t {
      m := k;
    } else {
      var before := Later(j, n, k - 1);
      assert Slow(clock, n, before);
      m := Strikes(clock, n, j, k - 1, t);
    }
  }

  // So it comes to any time again and again, in 32 bits.
  lemma TimePasses(clock: nat -> nat, n: nat, j: nat, time: nat) returns (k: nat)
    requires Steady(clock, n)
    ensures Elapsed(time, clock(Later(j, n, k))) == 0
  {
    var t := time + clock(j) * TWO32;
    MachineInts.RemainderIs(clock(j) * TWO32, TWO32, clock(j), 0);
    assert ComesTo(clock, n, j, t);
    var last: nat :| clock(Later(j, n, last)) >= t;
    k := Strikes(clock, n, j, last, t);
  }

  // A time that is as far from one as from another is as far from them in 32 bits.
  lemma ElapsedFrom(time: nat, now: nat, since: nat)
    requires Elapsed(time, now) == 0 && since < TWO32 / 2
    ensures Elapsed(now, time) == 0
    ensures time >= since ==> Elapsed(time - since, now) == since
  {
    var k := (now as int - time) / TWO32;
    MachineInts.RemainderIs(time - now, TWO32, -k, 0);
    MachineInts.RemainderIs(now - time + since, TWO32, k, since);
  }

  // At which of its turns a thread that will be ready is found so.
  lemma ReadyLater(v: View, clock: nat -> nat, io: nat -> (nat -> bool), comes: nat -> bool, n: nat, d: nat) returns (k: nat)
    requires n > 0 && Steady(clock, n) && Settles(io, comes) && WillBeReady(v, comes)
    ensures Ready(v, clock(Later(d, n, k)), io(Later(d, n, k)))
  {
    k := 0;
    match v.wait {
      case Nothing =>
      case ForTime(sleepTime, start) =>
        k := TimePasses(clock, n, d, start + sleepTime);
        ElapsedFrom(start + sleepTime, clock(Later(d, n, k)), 0);
      case ForLock(_, lock, timeout, start) =>
        if !CanEnter(lock, v.id) && timeout > 0 {
          k := TimePasses(clock, n, d, start + timeout + 1);
          ElapsedFrom(start + timeout + 1, clock(Later(d, n, k)), timeout + 1);
        }
      case ForOther(request) =>
        var from: nat :| ThereFrom(io, request, from);
        k := from;
        TurnLater(n, 0, d, k);
    }
  }

  lemma FoundReady(views: seq<View>, prev: nat, clock: nat -> nat, io: nat -> (nat -> bool), comes: nat -> bool, i: nat)
    returns (j: nat)
    requires prev < |views| && i < |views| && Steady(clock, |views|) && Settles(io, comes) && WillBeReady(views[i], comes)
    ensures j > 0 && EndsAt(views, prev, clock, io, j)
  {
    var d := Distance(|views|, prev, i);
    var k := ReadyLater(views[i], clock, io, comes, |views|, d);
    j := Later(d, |views|, k);
    TurnLater(|views|, prev, d, k);
  }

  // One that will not be is never found ready.
  lemma NeverReady(v: View, now: nat, io: nat -> bool, comes: nat -> bool)
    requires !WillBeReady(v, comes) && (v.wait.ForOther? && io(v.wait.request) ==> comes(v.wait.request))
    ensures !Ready(v, now, io)
  {
  }

  // While no thread runs, the search for the next one ends exactly if the previous one is still running or some thread
  // will be ready. Otherwise it goes round for ever: that all threads are blocked is only noticed at a previous thread
  // that is running.
  lemma SearchEndsExactlyWhen(views: seq<View>, prev: nat, clock: nat -> nat, io: nat -> (nat -> bool), comes: nat -> bool)
    requires prev < |views| && Steady(clock, |views|) && Settles(io, comes)
    ensures (exists j: nat :: j > 0 && EndsAt(views, prev, clock, io, j)) <==>
            views[prev].running || exists v <- views :: WillBeReady(v, comes)
  {
    if views[prev].running {
      TurnWithin(|views|, prev, |views|);
      assert EndsAt(views, prev, clock, io, |views|);
    } else if v :| v in views && WillBeReady(v, comes) {
      var i :| 0 <= i < |views| && views[i] == v;
      var j := FoundReady(views, prev, clock, io, comes, i);
    } else {
      forall j: nat | j > 0 ensures !EndsAt(views, prev, clock, io, j) {
        NeverReady(views[Turn(|views|, prev, j)], clock(j), io(j), comes);
      }
    }
  }

  // An example: the previous thread has been suspended, and the other one waits for a lock that a third thread holds,
  // for as long as it takes. Then the search never ends, whatever the clock.
  lemma SearchGoesRoundForEver(e: Entry, clock: nat -> nat, io: nat -> (nat -> bool), j: nat)
    requires j > 0
    ensures !EndsAt([Viewed(1, false, Nothing), Viewed(2, true, ForLock(e, Block(Some(3), 1, false), -1, 0))], 0, clock, io, j)
  {
    var views := [Viewed(1, false, Nothing), Viewed(2, true, ForLock(e, Block(Some(3), 1, false), -1, 0))];
    var at := Turn(|views|, 0, j);
    assert at == 0 || at == 1;
  }

  class Scheduler {
    var threads: seq<Thread> // all of them, the newest first
    var current: Thread?

    constructor ()
      ensures threads == [] && current == null
    {
      threads, current := [], null;
    }

    // The threads and what they wait for; the locks are among these objects.
    ghost predicate Seen(views: seq<View>, locks: set<object>)
      reads this, threads, locks
    {
      && |views| == |threads|
      && forall i :: 0 <= i < |threads| ==>
           threads[i].LockEntry() <= locks && threads[i].LockSync() <= locks && threads[i].View() == views[i]
    }

    // The thread becomes the current one, and is asked if it is running.
    method Ask(at: nat, now: nat, io: nat -> bool, minSleepTime: nat, ghost views: seq<View>, ghost locks: set<object>)
      returns (running: bool, ready: bool, shortest: nat)
      requires at < |threads| && Seen(views, locks) && this !in locks
      modifies this`current, threads, locks
      ensures running == views[at].running && current == threads[at]
      ensures ready == Ready(views[at], now, io)
      ensures ready ==> threads[at].Resumed(views[at])
      ensures !ready ==> Seen(views, locks)
      ensures !ready ==> shortest <= IO_SLEEP || (shortest <= minSleepTime && (running ==> shortest <= Patience(views[at], now)))
    {
      shortest, ready := minSleepTime, false;
      current := threads[at];
      running := threads[at].Running();
      if running {
        ready, shortest := threads[at].Poll(now, io, minSleepTime);
      }
    }

    // The next turn: the thread behind, or the first one again.
    method AskNext(prev: nat, before: nat, turns: nat, clock: nat -> nat, io: nat -> (nat -> bool), minSleepTime: nat,
                   ghost views: seq<View>, ghost locks: set<object>)
      returns (at: nat, running: bool, ready: bool, shortest: nat)
      requires Seen(views, locks) && this !in locks && prev < |threads|
      requires before == Turn(|threads|, prev, turns) && Searching(views, prev, clock, io, turns, minSleepTime)
      modifies this`current, threads, locks
      ensures at == Turn(|threads|, prev, turns + 1) < |threads| && current == threads[at]
      ensures running == views[at].running && ready == Ready(views[at], clock(turns + 1), io(turns + 1))
      ensures ready ==> threads[at].Resumed(views[at])
      ensures !ready ==> Seen(views, locks) && Searching(views, prev, clock, io, turns + 1, shortest)
    {
      at := before + 1;
      if at == |threads| {
        at := 0;
      }
      running, ready, shortest := Ask(at, clock(turns + 1), io(turns + 1), minSleepTime, views, locks);
      assert Turn(|threads|, prev, turns + 1) == at;
      assert ready == ReadyAt(views, prev, clock, io, turns + 1);
      if !ready {
        StillWakesInTime(views, prev, clock, turns, minSleepTime, shortest);
      }
    }

    // The inner loop of Thread_Execute: what is ready is asked at each turn. None when all threads are blocked. The search
    // ends at some turn; without that the loop does not end either.
    method Next(prev: nat, clock: nat -> nat, io: nat -> (nat -> bool), ghost views: seq<View>, ghost locks: set<object>,
                ghost end: nat)
      returns (next: Option<nat>, minSleepTime: nat, turns: nat)
      requires prev < |threads| && Seen(views, locks) && this !in locks
      requires end > 0 && EndsAt(views, prev, clock, io, end)
      modifies this`current, threads, locks
      ensures Selects(views, prev, clock, io, next, turns) && turns <= end
      ensures next.Some? ==> threads[next.value].Resumed(views[next.value]) && current == threads[next.value]
      ensures next.None? ==> WakesInTime(views, prev, clock, turns, minSleepTime)
    {
      minSleepTime := NO_SLEEP;
      var at := prev;
      turns := 0;
      while true
        invariant turns < end && at == Turn(|threads|, prev, turns) && Seen(views, locks)
        invariant Searching(views, prev, clock, io, turns, minSleepTime)
        invariant views[prev].running ==> turns < |threads|
        decreases end - turns
      {
        var running, ready;
        at, running, ready, minSleepTime := AskNext(prev, at, turns, clock, io, minSleepTime, views, locks);
        turns := turns + 1;
        if views[prev].running {
          TurnWithin(|threads|, prev, turns);
        }
        if !running {
          continue;
        }
        if ready {
          return Some(at), minSleepTime, turns;
        }
        if at == prev {
          return None, minSleepTime, turns;
        }
      }
    }

    // A new thread is the first in the list.
    method Add(t: Thread)
      modifies this`threads
      ensures threads == [t] + old(threads)
    {
      threads := [t] + threads;
    }

    // A thread that has exited is taken out of the list, wherever it is by then. Nothing is left to do when no thread
    // keeps the program alive; otherwise the search goes on as if the first thread had run.
    method Exited(t: Thread) returns (canExit: bool, prev: nat)
      requires t in threads
      modifies this`threads
      ensures exists at :: 0 <= at < |old(threads)| && old(threads)[at] == t && threads == old(threads[..at] + threads[at + 1..])
      ensures canExit <==> forall u <- threads :: !u.KeepsAlive()
      ensures !canExit ==> prev == 0 < |threads|
    {
      var at := 0;
      while threads[at] != t
        invariant at < |threads| && t in threads[at..]
        decreases |threads| - at
      {
        at := at + 1;
      }
      threads := threads[..at] + threads[at + 1..];
      prev, canExit := 0, true;
      for i := 0 to |threads|
        invariant forall k :: 0 <= k < i ==> !threads[k].KeepsAlive()
      {
        if threads[i].KeepsAlive() {
          assert threads[i] in threads;
          canExit := false;
          break;
        }
      }
    }
  }
}
