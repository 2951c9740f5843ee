/**
 Two programs that do not store every local before they load it: one sees what the memory of its thread held, the other
 one sees where its run was cut into slices.
 */
module LeftoverExamples {
  import opened Options
  import opened MachineInts
  import opened Interpreter
  import opened TimeSlices
  import opened Leftovers

  // A frame that lies in the chunk begins with what was there.
  lemma BeginsWithLeftover(program: seq<Method>, memory: Memory, address: nat, target: nat)
    requires target < |program| && FrameWords(program[target]) <= CHUNK_WORDS
    ensures Enter(program, Stack.Empty, memory, address, target, []).calls ==
            Push(Call(target, Frame(0, Stack.Empty, Leftover(memory, 0, program[target]))), Stack.Empty)
  {
    var m := program[target];
    var ended := SetOfs(program, Push(Call(target, Frame(0, Stack.Empty, [])), Stack.Empty), memory);
    assert ended[..CHUNK_WORDS] == memory[..CHUNK_WORDS];
    assert Leftover(ended, 0, m) == Leftover(memory, 0, m);
    assert [] + Leftover(memory, 0, m) == Leftover(memory, 0, m);
  }

  // ldloc.0; ret
  const LOADS_LOCAL := Method(0x1000, 0x2000, [0x127, 0x1], 1, 0, 1, 1, 8, false)

  // It returns whatever the memory of the thread held.
  lemma LeftoverIsSeen(memory: Memory, address: nat, num: nat)
    requires num > 0
    ensures Slice([LOADS_LOCAL], Start([LOADS_LOCAL], 0, [], memory, address), JIT_NOP, num) == Ended([memory[12]])
    ensures !StoresBeforeLoading(LOADS_LOCAL)
  {
    BeginsWithLeftover([LOADS_LOCAL], memory, address, 0);
    assert Leftover(memory, 0, LOADS_LOCAL) == [memory[12]];
    LoadsAndReturnsIt(Start([LOADS_LOCAL], 0, [], memory, address), memory[12], num);
    LoadsBeforeStoring();
  }

  lemma LoadsBeforeStoring()
    ensures !StoresBeforeLoading(LOADS_LOCAL)
  {
    var path := Push(0, Stack.Empty);
    assert Path(LOADS_LOCAL, path) && 0 in Loads(LOADS_LOCAL, 0) && !StoredOn(LOADS_LOCAL, path, 0);
  }

  lemma LoadsAndReturnsIt(t: Thread, x: nat, num: nat)
    requires num > 0 && t.calls == Push(Call(0, Frame(0, Stack.Empty, [x])), Stack.Empty)
    ensures Slice([LOADS_LOCAL], t, JIT_NOP, num) == Ended([x])
  {
    var o := LoadsLocal(t, JIT_NOP, x);
    SliceUnfolds([LOADS_LOCAL], t, JIT_NOP, num, o);
    ReturnsWord(o.thread, o.op, x);
    SliceUnfolds([LOADS_LOCAL], o.thread, o.op, num, Exited([x]));
  }

  lemma LoadsLocal(t: Thread, prev: nat, x: nat) returns (o: Outcome)
    requires t.calls == Push(Call(0, Frame(0, Stack.Empty, [x])), Stack.Empty)
    ensures o == ThreadStep([LOADS_LOCAL], t, prev) && o.Running? && !o.checked
    ensures o.thread.calls == Push(Call(0, Frame(1, Push(x, Stack.Empty), [x])), Stack.Empty)
  {
    o := ThreadStep([LOADS_LOCAL], t, prev);
    OneWord(x);
    assert Fetch([0x127, 0x1], 0) == Some(Fetched(LoadLocal(W32, 0), 1));
    assert Turn([0x127, 0x1], 4, t.calls.top.frame) == Continue(Frame(1, Push(x, Stack.Empty), [x]));
  }

  lemma ReturnsWord(t: Thread, prev: nat, x: nat)
    requires t.calls == Push(Call(0, Frame(1, Push(x, Stack.Empty), [x])), Stack.Empty)
    ensures ThreadStep([LOADS_LOCAL], t, prev) == Exited([x])
  {
    OneWord(x);
    assert Fetch([0x127, 0x1], 1) == Some(Fetched(MicroOp.Leave, 2));
    assert Turn([0x127, 0x1], 4, t.calls.top.frame) == Returned(Frame(2, Push(x, Stack.Empty), [x]));
  }

  // ldarg.0; stloc.0; ldloc.0; ret
  const STORES_LOCAL := Method(0x1000, 0x2000, [0x127, 0x130, 0x128, 0x1], 1, 1, 1, 1, 8, false)

  lemma OpsOfStoresLocal()
    ensures OpOf(STORES_LOCAL, 0) == Some(Fetched(LoadLocal(W32, 0), 1))
    ensures OpOf(STORES_LOCAL, 1) == Some(Fetched(StoreLocal(W32, 1), 2))
    ensures OpOf(STORES_LOCAL, 2) == Some(Fetched(LoadLocal(W32, 1), 3))
    ensures OpOf(STORES_LOCAL, 3) == Some(Fetched(MicroOp.Leave, 4))
  {
  }

  lemma StoresBefore()
    ensures StoresBeforeLoading(STORES_LOCAL)
  {
    OpsOfStoresLocal();
    forall p: Stack<nat>, cell: nat | Path(STORES_LOCAL, p) && cell in Loads(STORES_LOCAL, p.top) && cell >= 1
      ensures StoredOn(STORES_LOCAL, p, cell)
    {
      assert p.top == 2 && cell == 1;
      assert LeadsTo(STORES_LOCAL, p.below.top, 2);
      assert p.below.top == 1;
    }
  }

  // It stores its local first, so it ends alike whatever the memory held.
  lemma LeftoverIsNotSeen(x: nat, memory: Memory, address: nat, other: Memory, num: nat)
    requires num > 0 && |memory| == |other|
    ensures AlikeEnds([STORES_LOCAL], Slice([STORES_LOCAL], Start([STORES_LOCAL], 0, [x], memory, address), JIT_NOP, num),
                      Slice([STORES_LOCAL], Start([STORES_LOCAL], 0, [x], other, address), JIT_NOP, num))
  {
    StoresBefore();
    MemoryPlaysNoPart([STORES_LOCAL], 0, [x], memory, address, other, address, num);
  }

  // The first method calls the second one, in which a slice may end, and then the third one in its own place.
  const CALLS_TWICE := Method(0x1000, 0x2000, [0x7, 1, 0x166, 0x7, 2, 0x1], 1, 0, 0, 1, 8, false)
  const BRANCHES := Method(0x1100, 0x2100, [0x3, 2, 0x1], 0, 0, 0, 0, 1, false)
  const LOADS_THIRD := Method(0x1200, 0x2200, [0x129, 0x1], 1, 0, 3, 1, 8, false)
  const PROGRAM := [CALLS_TWICE, BRANCHES, LOADS_THIRD]

  function InCaller(ip: nat): Stack<Call> {
    Push(Call(0, Frame(ip, Stack.Empty, [])), Stack.Empty)
  }

  function InCallee(ip: nat): Stack<Call> {
    Push(Call(1, Frame(ip, Stack.Empty, [])), InCaller(2))
  }

  // Up to the branch: the header of the second method says that it has not begun.
  lemma UpToTheBranch(memory: Memory, address: nat) returns (t: Thread)
    ensures t.calls == InCallee(2) && t.memory[14] == 0 && t.address == address
    ensures Slice(PROGRAM, Start(PROGRAM, 0, [], memory, address), JIT_NOP, 2) == Stopped(t)
  {
    var s := Start(PROGRAM, 0, [], memory, address);
    assert Leftover(memory, 0, CALLS_TWICE) == [];
    assert s.calls == InCaller(0);
    var o := ThreadStep(PROGRAM, s, JIT_NOP);
    CallsTheSecond(s, JIT_NOP);
    SliceUnfolds(PROGRAM, s, JIT_NOP, 2, o);
    var o' := ThreadStep(PROGRAM, o.thread, o.op);
    Branches(o.thread, o.op);
    SliceUnfolds(PROGRAM, o.thread, o.op, 1, o');
    t := o'.thread;
  }

  lemma CallsTheSecond(s: Thread, prev: nat)
    requires s.calls == InCaller(0)
    ensures
      var o := ThreadStep(PROGRAM, s, prev);
      o.Running? && o.checked && o.thread.calls == InCallee(0) && o.thread.memory[14] == 0 && o.thread.address == s.address
  {
    var saved := InCaller(2);
    assert Base(PROGRAM, Stack.Empty) == 0 && Base(PROGRAM, saved) == 12;
    var header := Header(PROGRAM, BRANCHES, saved, s.address);
    var ended := SetOfs(PROGRAM, InCallee(0), s.memory);
    OverwrittenAt(ended, 12, header, 14);
    assert Leftover(ended, 12, BRANCHES) == [];
    var entered := Enter(PROGRAM, saved, s.memory, s.address, 1, []);
    assert entered.memory[14] == 0;
    OverwrittenAt(entered.memory, 2, [2, 0], 14);
  }

  lemma Branches(s: Thread, prev: nat)
    requires s.calls == InCallee(0)
    ensures
      var o := ThreadStep(PROGRAM, s, prev);
      o.Running? && o.checked && o.thread.calls == InCallee(2) && o.thread.memory == s.memory && o.thread.address == s.address
  {
    assert Turn(BRANCHES.ops, 0, s.calls.top.frame) == Checked(Frame(2, Stack.Empty, []));
    NothingToMirror(InCallee(2), s.memory);
  }

  // From the branch on: the last call reads what the header of the second method said.
  lemma FromTheBranch(t: Thread) returns (o: Outcome)
    requires t.calls == InCallee(2)
    ensures o == ThreadStep(PROGRAM, t, JIT_NOP) && o.Running? && !o.checked
    ensures o.thread.calls == InCaller(2) && o.thread.memory[14] == t.memory[14]
  {
    assert Turn(BRANCHES.ops, 0, t.calls.top.frame) == Returned(Frame(3, Stack.Empty, []));
    StepReturns(PROGRAM, t, JIT_NOP, Frame(3, Stack.Empty, []));
    Returns(t);
    o := DoReturn(PROGRAM, t, Frame(3, Stack.Empty, []));
  }

  lemma Returns(t: Thread)
    requires t.calls == InCallee(2)
    ensures
      var o := DoReturn(PROGRAM, t, Frame(3, Stack.Empty, []));
      o.Running? && !o.checked && o.thread.calls == InCaller(2) && o.thread.memory[14] == t.memory[14]
  {
    assert TakeWords(Stack.Empty, 0) == Some(Words([], Stack.Empty));
    assert PushAll([], Stack.Empty) == Stack.Empty;
    var ended := SetOfs(PROGRAM, InCaller(2), t.memory);
    OverwrittenAt(t.memory, OFS_WORD, [4 * Base(PROGRAM, InCaller(2))], 14);
    NothingToMirror(InCaller(2), ended);
  }

  lemma NothingToMirror(calls: Stack<Call>, memory: Memory)
    requires calls.Push? && calls.top.frame.stack == Stack.Empty && calls.top.frame.locals == []
    ensures Mirror(PROGRAM, calls, memory) == memory
  {
    forall at: nat ensures Overwrite(memory, at, []) == memory {
    }
  }

  lemma AtThePrefix(t: Thread, prev: nat) returns (o: Outcome)
    requires t.calls == InCaller(2)
    ensures o == ThreadStep(PROGRAM, t, prev) && o.Running? && !o.checked && o.op == JIT_TAILCALL_PREFIX
    ensures o.thread.calls == InCaller(3) && o.thread.memory == t.memory && o.thread.address == t.address
  {
    o := ThreadStep(PROGRAM, t, prev);
    NothingToMirror(InCaller(3), t.memory);
  }

  function InLast(ip: nat, stack: Stack<nat>, a: nat, b: nat, c: nat): Stack<Call> {
    Push(Call(2, Frame(ip, stack, [a, b, c])), Stack.Empty)
  }

  lemma CallsTheThird(t: Thread) returns (o: Outcome)
    requires t.calls == InCaller(3)
    ensures o == ThreadStep(PROGRAM, t, JIT_TAILCALL_PREFIX) && o.Running? && o.checked
    ensures o.thread.calls == InLast(0, Stack.Empty, t.memory[12], t.memory[13], t.memory[14])
  {
    StepCalls(PROGRAM, t, JIT_TAILCALL_PREFIX);
    WantsTheThird();
    PlacesTheThird(t);
    o := PlaceCall(PROGRAM, t, Calling(t.calls.top, t.calls.below, Stack.Empty), true, 2, []);
  }

  lemma PlacesTheThird(t: Thread)
    requires t.calls == InCaller(3)
    ensures
      var o := PlaceCall(PROGRAM, t, Calling(t.calls.top, t.calls.below, Stack.Empty), true, 2, []);
      o.Running? && o.checked && o.thread.calls == InLast(0, Stack.Empty, t.memory[12], t.memory[13], t.memory[14])
  {
    EntersTheThird(t.memory, t.address);
  }

  lemma WantsTheThird()
    ensures WantedCall(PROGRAM, 0, Frame(3, Stack.Empty, []), JIT_TAILCALL_PREFIX) == Some(Wanted(2, [], Stack.Empty, true))
  {
    assert TakeWords(Stack<nat>.Empty, 0) == Some(Words([], Stack.Empty));
  }

  lemma EntersTheThird(memory: Memory, address: nat)
    ensures Enter(PROGRAM, Stack.Empty, memory, address, 2, []).calls == InLast(0, Stack.Empty, memory[12], memory[13], memory[14])
  {
    BeginsWithLeftover(PROGRAM, memory, address, 2);
    assert Leftover(memory, 0, LOADS_THIRD) == [memory[12], memory[13], memory[14]];
  }

  lemma LoadsAndReturns(t: Thread, prev: nat, a: nat, b: nat, c: nat, num: nat)
    requires num > 0 && t.calls == InLast(0, Stack.Empty, a, b, c)
    ensures Slice(PROGRAM, t, prev, num) == Ended([c])
  {
    var o := LoadsWord(t, prev, a, b, c);
    SliceUnfolds(PROGRAM, t, prev, num, o);
    ReturnsLast(o.thread, o.op, a, b, c);
    SliceUnfolds(PROGRAM, o.thread, o.op, num, Exited([c]));
  }

  lemma LoadsWord(t: Thread, prev: nat, a: nat, b: nat, c: nat) returns (o: Outcome)
    requires t.calls == InLast(0, Stack.Empty, a, b, c)
    ensures o == ThreadStep(PROGRAM, t, prev) && o.Running? && !o.checked && o.thread.calls == InLast(1, Push(c, Stack.Empty), a, b, c)
  {
    o := ThreadStep(PROGRAM, t, prev);
    OneWord(c);
    assert Fetch([0x129, 0x1], 0) == Some(Fetched(LoadLocal(W32, 2), 1));
    assert Turn([0x129, 0x1], 4, t.calls.top.frame) == Continue(Frame(1, Push(c, Stack.Empty), [a, b, c]));
  }

  lemma ReturnsLast(t: Thread, prev: nat, a: nat, b: nat, c: nat)
    requires t.calls == InLast(1, Push(c, Stack.Empty), a, b, c)
    ensures ThreadStep(PROGRAM, t, prev) == Exited([c])
  {
    OneWord(c);
    assert Fetch([0x129, 0x1], 1) == Some(Fetched(MicroOp.Leave, 2));
    assert Turn([0x129, 0x1], 4, t.calls.top.frame) == Returned(Frame(2, Push(c, Stack.Empty), [a, b, c]));
  }

  lemma WhatTheHeaderSaid(t: Thread, num: nat)
    requires t.calls == InCallee(2) && num > 1
    ensures Slice(PROGRAM, t, JIT_NOP, num) == Ended([t.memory[14]])
  {
    var o := FromTheBranch(t);
    SliceUnfolds(PROGRAM, t, JIT_NOP, num, o);
    FromThePrefix(o.thread, o.op, num);
  }

  lemma FromThePrefix(t: Thread, prev: nat, num: nat)
    requires t.calls == InCaller(2) && num > 1
    ensures Slice(PROGRAM, t, prev, num) == Ended([t.memory[14]])
  {
    var o := AtThePrefix(t, prev);
    SliceUnfolds(PROGRAM, t, prev, num, o);
    var q := CallsTheThird(o.thread);
    SliceUnfolds(PROGRAM, o.thread, o.op, num, q);
    LoadsAndReturns(q.thread, q.op, t.memory[12], t.memory[13], t.memory[14], num - 1);
  }

  // In one slice of five ops that count the thread ends with 0. Cut in two behind the branch, it ends with 2.
  lemma SaveIsSeen(memory: Memory, address: nat)
    ensures Slice(PROGRAM, Start(PROGRAM, 0, [], memory, address), JIT_NOP, 5) == Ended([0])
    ensures Sliced(PROGRAM, Start(PROGRAM, 0, [], memory, address), Before(2, Last(3))) == Ended([2])
  {
    var t := UpToTheBranch(memory, address);
    InOneSlice(Start(PROGRAM, 0, [], memory, address), t);
    InTwoSlices(Start(PROGRAM, 0, [], memory, address), t);
  }

  lemma InOneSlice(s: Thread, t: Thread)
    requires Slice(PROGRAM, s, JIT_NOP, 2) == Stopped(t) && t.calls == InCallee(2) && t.memory[14] == 0
    ensures Slice(PROGRAM, s, JIT_NOP, 5) == Ended([0])
  {
    SlicingIsTransparent(PROGRAM, s, JIT_NOP, 5, 2, 3);
    WhatTheHeaderSaid(t, 3);
  }

  lemma InTwoSlices(s: Thread, t: Thread)
    requires Slice(PROGRAM, s, JIT_NOP, 2) == Stopped(t) && t.calls == InCallee(2)
    ensures Sliced(PROGRAM, s, Before(2, Last(3))) == Ended([2])
  {
    SavesTheIp(t);
    WhatTheHeaderSaid(Saved(PROGRAM, t), 3);
    SlicedInTwo(s, 2, 3, t);
  }

  lemma SavesTheIp(t: Thread)
    requires t.calls == InCallee(2)
    ensures Saved(PROGRAM, t).calls == t.calls && Saved(PROGRAM, t).memory[14] == 2
  {
    assert Base(PROGRAM, InCaller(2)) == 12;
    OverwrittenAt(t.memory, 14, [2, 0], 14);
  }

  lemma SlicedInTwo(s: Thread, k1: SliceLength, k2: SliceLength, t: Thread)
    requires Slice(PROGRAM, s, JIT_NOP, k1) == Stopped(t)
    ensures
      var e := Slice(PROGRAM, Saved(PROGRAM, t), JIT_NOP, k2);
      e.Ended? ==> Sliced(PROGRAM, s, Before(k1, Last(k2))) == e
  {
  }
}
