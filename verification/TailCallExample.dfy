/**
 Two methods of which one calls the other in its own place. The frame of the called one is so large that it runs over the
 end of the chunk and lies on the word that says where it ends.
 */
module TailCallExample {
  import opened Options
  import opened MachineInts
  import opened Interpreter
  import opened TimeSlices
  import opened Leftovers

  // tail. call, ret; and ldloc, ret of the last local but one.
  const SMALL := Method(0x1000, 0x2000, [0x166, 0x7, 1, 0x1], 1, 0, 0, 1, 8, false)
  const LARGE := Method(0x1100, 0x2100, [0x31, 49_952, 0x1], 1, 0, 12_490, 1, 8, false)
  const PROGRAM := [SMALL, LARGE]

  function InSmall(ip: nat): Stack<Call> {
    Push(Call(0, Frame(ip, Stack.Empty, [])), Stack.Empty)
  }

  // The state of the second method, with x in the local it loads.
  predicate InLarge(calls: Stack<Call>, ip: nat, stack: Stack<nat>, x: nat) {
    && calls.Push? && calls.below.Empty? && calls.top.index == 1
    && calls.top.frame.ip == ip && calls.top.frame.stack == stack
    && |calls.top.frame.locals| == 12_490 && calls.top.frame.locals[12_488] == x
  }

  // The first method fits. It calls the second one, and the frame now made ends two words behind the chunk.
  lemma TailCallRunsOver(memory: Memory, address: nat)
    ensures
      var s := Start(PROGRAM, 0, [], memory, address);
      var o := ThreadStep(PROGRAM, s, JIT_NOP);
      && Fits(PROGRAM, s) && o.Running? && Fits(PROGRAM, o.thread)
      && var o' := ThreadStep(PROGRAM, o.thread, o.op);
         && Overruns(PROGRAM, o.thread, o.op) && o'.Running? && !Fits(PROGRAM, o'.thread)
         && Base(PROGRAM, o'.thread.calls) == CHUNK_WORDS + 2
  {
    var s := Begins(memory, address);
    var o := AtThePrefix(s);
    var q := CallsLarge(o.thread);
  }

  // The local that it loads is the word ofs.
  lemma LoadsOfs(memory: Memory, address: nat, num: nat)
    requires num > 1
    ensures Slice(PROGRAM, Start(PROGRAM, 0, [], memory, address), JIT_NOP, num) == Ended([4 * (CHUNK_WORDS + 2)])
  {
    var s := Begins(memory, address);
    var o := AtThePrefix(s);
    SliceUnfolds(PROGRAM, s, JIT_NOP, num, o);
    var q := CallsLarge(o.thread);
    SliceUnfolds(PROGRAM, o.thread, o.op, num, q);
    LoadsAndReturns(q.thread, q.op, 4 * (CHUNK_WORDS + 2), num - 1);
  }

  lemma Begins(memory: Memory, address: nat) returns (s: Thread)
    ensures s == Start(PROGRAM, 0, [], memory, address) && s.calls == InSmall(0) && Fits(PROGRAM, s)
  {
    s := Start(PROGRAM, 0, [], memory, address);
    EnteredFits(PROGRAM, Stack.Empty, memory, address, 0, []);
    assert s.calls.top.frame.locals == [];
  }

  lemma AtThePrefix(t: Thread) returns (o: Outcome)
    requires t.calls == InSmall(0) && Fits(PROGRAM, t)
    ensures o == ThreadStep(PROGRAM, t, JIT_NOP) && o.Running? && !o.checked && o.op == JIT_TAILCALL_PREFIX
    ensures o.thread.calls == InSmall(1) && Fits(PROGRAM, o.thread)
  {
    o := ThreadStep(PROGRAM, t, JIT_NOP);
    GoOnFits(PROGRAM, t, Frame(1, Stack.Empty, []), JIT_TAILCALL_PREFIX, false);
  }

  lemma CallsLarge(t: Thread) returns (o: Outcome)
    requires t.calls == InSmall(1) && Fits(PROGRAM, t)
    ensures o == ThreadStep(PROGRAM, t, JIT_TAILCALL_PREFIX) && o.Running? && o.checked
    ensures Overruns(PROGRAM, t, JIT_TAILCALL_PREFIX) && !Fits(PROGRAM, o.thread)
    ensures Base(PROGRAM, o.thread.calls) == CHUNK_WORDS + 2
    ensures InLarge(o.thread.calls, 0, Stack.Empty, 4 * (CHUNK_WORDS + 2))
  {
    StepCalls(PROGRAM, t, JIT_TAILCALL_PREFIX);
    WantsLarge();
    o := PlaceCall(PROGRAM, t, Calling(t.calls.top, t.calls.below, Stack.Empty), true, 1, []);
    EntersLarge(t.memory, t.address);
  }

  lemma WantsLarge()
    ensures WantedCall(PROGRAM, 0, Frame(1, Stack.Empty, []), JIT_TAILCALL_PREFIX) == Some(Wanted(1, [], Stack.Empty, true))
  {
    assert TakeWords(Stack<nat>.Empty, 0) == Some(Words([], Stack.Empty));
  }

  lemma EntersLarge(memory: Memory, address: nat)
    ensures
      var t := Enter(PROGRAM, Stack.Empty, memory, address, 1, []);
      && InLarge(t.calls, 0, Stack.Empty, 4 * (CHUNK_WORDS + 2))
      && Base(PROGRAM, t.calls) == CHUNK_WORDS + 2
  {
    var calls := Push(Call(1, Frame(0, Stack.Empty, [])), Stack.Empty);
    assert Base(PROGRAM, calls) == CHUNK_WORDS + 2;
    var ended := SetOfs(PROGRAM, calls, memory);
    OverwrittenAt(memory, OFS_WORD, [4 * Base(PROGRAM, calls)], OFS_WORD);
    assert Leftover(ended, 0, LARGE)[12_488] == ended[OFS_WORD];
    assert [] + Leftover(ended, 0, LARGE) == Leftover(ended, 0, LARGE);
  }

  lemma LoadsAndReturns(t: Thread, prev: nat, x: nat, num: nat)
    requires num > 0 && InLarge(t.calls, 0, Stack.Empty, x)
    ensures Slice(PROGRAM, t, prev, num) == Ended([x])
  {
    var o := LoadsWord(t, prev, x);
    SliceUnfolds(PROGRAM, t, prev, num, o);
    ReturnsWord(o.thread, o.op, x);
    SliceUnfolds(PROGRAM, o.thread, o.op, num, Exited([x]));
  }

  lemma LoadsWord(t: Thread, prev: nat, x: nat) returns (o: Outcome)
    requires InLarge(t.calls, 0, Stack.Empty, x)
    ensures o == ThreadStep(PROGRAM, t, prev) && o.Running? && !o.checked && InLarge(o.thread.calls, 2, Push(x, Stack.Empty), x)
  {
    o := ThreadStep(PROGRAM, t, prev);
    OneWord(x);
    assert Fetch(LARGE.ops, 0) == Some(Fetched(LoadLocal(W32, 12_488), 2));
    assert Turn(LARGE.ops, 4, t.calls.top.frame) == Continue(Frame(2, Push(x, Stack.Empty), t.calls.top.frame.locals));
  }

  lemma ReturnsWord(t: Thread, prev: nat, x: nat)
    requires InLarge(t.calls, 2, Push(x, Stack.Empty), x)
    ensures ThreadStep(PROGRAM, t, prev) == Exited([x])
  {
    OneWord(x);
    assert Fetch(LARGE.ops, 2) == Some(Fetched(MicroOp.Leave, 3));
    assert Turn(LARGE.ops, 4, t.calls.top.frame) == Returned(Frame(3, Push(x, Stack.Empty), t.calls.top.frame.locals));
  }
}
