/**
 Two programs: one calls a method with two different parameters, the other one a method with a 64-bit result.
 */
module CallExample {
  import opened Options
  import opened MachineInts
  import opened IntegerOps
  import opened Interpreter
  import opened TimeSlices
  import opened Leftovers

  // An op that the thread goes on behind.
  lemma GoesOn(program: seq<Method>, t: Thread, prev: nat, op: nat, fr: Frame, num: nat) returns (u: Thread)
    requires num > 0 && t.calls.Push? && t.calls.top.index < |program|
    requires OpAt(program[t.calls.top.index], t.calls.top.frame.ip) == Some(op) && op != JIT_TAILCALL_PREFIX && op != JIT_CALL_O
    requires Turn(program[t.calls.top.index].ops, 4 * program[t.calls.top.index].stackWords, t.calls.top.frame) == Continue(fr)
    ensures u.calls == Push(t.calls.top.(frame := fr), t.calls.below)
    ensures Slice(program, t, prev, num) == Slice(program, u, op, num)
  {
    var o := ThreadStep(program, t, prev);
    assert o == GoOn(program, t, fr, op, false);
    SliceUnfolds(program, t, prev, num, o);
    u := o.thread;
  }

  function Words2(a: nat, b: nat): Stack<nat> {
    Push(b, Push(a, Stack.Empty))
  }

  const NOTHING: Stack<nat> := Stack.Empty

  // ---------------------------------------------------------------- two parameters

  // ldc 10; ldc 3; call; ret. And ldarg.0; ldarg.1; sub; ret.
  const ASKS := Method(0x1000, 0x2000, [0x2, 10, 0x2, 3, 0x7, 1, 0x1], 2, 0, 0, 1, 8, false)
  const SUBTRACTS := Method(0x1100, 0x2100, [0x127, 0x128, 0x81, 0x1], 2, 2, 0, 1, 8, false)
  const DIFFERENCE := [ASKS, SUBTRACTS]

  function Asking(ip: nat, stack: Stack<nat>): Stack<Call> {
    Push(Call(0, Frame(ip, stack, [])), Stack.Empty)
  }

  function Subtracting(ip: nat, stack: Stack<nat>): Stack<Call> {
    Push(Call(1, Frame(ip, stack, [10, 3])), Asking(6, NOTHING))
  }

  lemma Bytes2(a: nat, b: nat)
    ensures StackBytes(Words2(a, b)) == 8 && StackBytes(Push(a, NOTHING)) == 4 && StackBytes(NOTHING) == 0
  {
    assert StackBytes(NOTHING) == 0;
    assert StackBytes(Push(a, NOTHING)) == 4;
  }

  lemma TurnsOfAsks()
    ensures Turn(ASKS.ops, 8, Frame(0, NOTHING, [])) == Continue(Frame(2, Push(10, NOTHING), []))
    ensures Turn(ASKS.ops, 8, Frame(2, Push(10, NOTHING), [])) == Continue(Frame(4, Words2(10, 3), []))
  {
    Bytes2(10, 3);
    assert Fetch(ASKS.ops, 0) == Some(Fetched(Load([10]), 2));
    assert Fetch(ASKS.ops, 2) == Some(Fetched(Load([3]), 4));
  }

  lemma TurnsOfSubtracts()
    ensures Turn(SUBTRACTS.ops, 8, Frame(0, NOTHING, [10, 3])) == Continue(Frame(1, Push(10, NOTHING), [10, 3]))
    ensures Turn(SUBTRACTS.ops, 8, Frame(1, Push(10, NOTHING), [10, 3])) == Continue(Frame(2, Words2(10, 3), [10, 3]))
    ensures Turn(SUBTRACTS.ops, 8, Frame(2, Words2(10, 3), [10, 3])) == Continue(Frame(3, Push(7, NOTHING), [10, 3]))
  {
    Bytes2(10, 3);
    Bytes2(7, 0);
    assert Fetch(SUBTRACTS.ops, 0) == Some(Fetched(LoadLocal(W32, 0), 1));
    assert Fetch(SUBTRACTS.ops, 1) == Some(Fetched(LoadLocal(W32, 1), 2));
    assert Fetch(SUBTRACTS.ops, 2) == Some(Fetched(Binary(Sub, W32), 3));
    assert BinaryPattern(Sub, W32, 10, 3) == Some(7);
  }

  lemma TakesTwo(a: nat, b: nat)
    ensures TakeWords(Words2(a, b), 2) == Some(Words([a, b], NOTHING))
  {
    assert TakeWords(NOTHING, 0) == Some(Words([], NOTHING));
    assert TakeWords(Push(a, NOTHING), 1) == Some(Words([a], NOTHING)) by {
      assert [] + [a] == [a];
    }
    assert [a] + [b] == [a, b];
  }

  lemma CallsSubtracts(t: Thread, prev: nat) returns (o: Outcome)
    requires t.calls == Asking(4, Words2(10, 3)) && prev != JIT_TAILCALL_PREFIX
    ensures o == ThreadStep(DIFFERENCE, t, prev) && o.Running? && o.checked && o.thread.calls == Subtracting(0, NOTHING)
  {
    StepCalls(DIFFERENCE, t, prev);
    TakesTwo(10, 3);
    assert WantedCall(DIFFERENCE, 0, t.calls.top.frame, prev) == Some(Wanted(1, [10, 3], NOTHING, false));
    PlacesSubtracts(t);
    o := PlaceCall(DIFFERENCE, t, Calling(t.calls.top, t.calls.below, NOTHING), false, 1, [10, 3]);
  }

  lemma PlacesSubtracts(t: Thread)
    requires t.calls == Asking(4, Words2(10, 3))
    ensures
      var o := PlaceCall(DIFFERENCE, t, Calling(t.calls.top, t.calls.below, NOTHING), false, 1, [10, 3]);
      o.Running? && o.checked && o.thread.calls == Subtracting(0, NOTHING)
  {
    var saved := Calling(t.calls.top, t.calls.below, NOTHING);
    assert saved == Asking(6, NOTHING) && Base(DIFFERENCE, Stack.Empty) == 0 && Base(DIFFERENCE, saved) == 13;
    var entered := Enter(DIFFERENCE, saved, t.memory, t.address, 1, [10, 3]);
    assert entered.calls.top.frame.locals == [10, 3];
  }

  // 10 less 3 is 7.
  lemma ParametersInOrder(memory: Memory, address: nat, num: nat)
    requires num > 1
    ensures Slice(DIFFERENCE, Start(DIFFERENCE, 0, [], memory, address), JIT_NOP, num) == Ended([7])
  {
    var t := Start(DIFFERENCE, 0, [], memory, address);
    assert t.calls.top.frame.locals == [];
    TurnsOfAsks();
    t := GoesOn(DIFFERENCE, t, JIT_NOP, 0x2, Frame(2, Push(10, NOTHING), []), num);
    t := GoesOn(DIFFERENCE, t, 0x2, 0x2, Frame(4, Words2(10, 3), []), num);
    var o := CallsSubtracts(t, 0x2);
    SliceUnfolds(DIFFERENCE, t, 0x2, num, o);
    FromSubtracts(o.thread, o.op, num - 1);
  }

  lemma FromSubtracts(s: Thread, prev: nat, num: nat)
    requires num > 0 && s.calls == Subtracting(0, NOTHING)
    ensures Slice(DIFFERENCE, s, prev, num) == Ended([7])
  {
    TurnsOfSubtracts();
    var t := GoesOn(DIFFERENCE, s, prev, 0x127, Frame(1, Push(10, NOTHING), [10, 3]), num);
    t := GoesOn(DIFFERENCE, t, 0x127, 0x128, Frame(2, Words2(10, 3), [10, 3]), num);
    t := GoesOn(DIFFERENCE, t, 0x128, 0x81, Frame(3, Push(7, NOTHING), [10, 3]), num);
    ReturnsTwice(t, 0x81, num);
  }

  lemma ReturnsTwice(t: Thread, prev: nat, num: nat)
    requires num > 0 && t.calls == Subtracting(3, Push(7, NOTHING))
    ensures Slice(DIFFERENCE, t, prev, num) == Ended([7])
  {
    var o := ReturnsToAsks(t, prev);
    SliceUnfolds(DIFFERENCE, t, prev, num, o);
    var p := ThreadStep(DIFFERENCE, o.thread, o.op);
    EndsAsks(o.thread, o.op);
    SliceUnfolds(DIFFERENCE, o.thread, o.op, num, p);
  }

  lemma ReturnsToAsks(t: Thread, prev: nat) returns (o: Outcome)
    requires t.calls == Subtracting(3, Push(7, NOTHING))
    ensures o == ThreadStep(DIFFERENCE, t, prev) && o.Running? && !o.checked && o.thread.calls == Asking(6, Push(7, NOTHING))
  {
    OneWord(7);
    assert Turn(SUBTRACTS.ops, 8, t.calls.top.frame) == Returned(Frame(4, Push(7, NOTHING), [10, 3]));
    StepReturns(DIFFERENCE, t, prev, Frame(4, Push(7, NOTHING), [10, 3]));
    assert PushAll([7], NOTHING) == Push(7, NOTHING);
    o := DoReturn(DIFFERENCE, t, Frame(4, Push(7, NOTHING), [10, 3]));
  }

  lemma EndsAsks(t: Thread, prev: nat)
    requires t.calls == Asking(6, Push(7, NOTHING))
    ensures ThreadStep(DIFFERENCE, t, prev) == Exited([7])
  {
    OneWord(7);
    assert Turn(ASKS.ops, 8, t.calls.top.frame) == Returned(Frame(7, Push(7, NOTHING), []));
    StepReturns(DIFFERENCE, t, prev, Frame(7, Push(7, NOTHING), []));
  }

  // ---------------------------------------------------------------- a result of two words

  // call; ldc 0x1_0000_0002; ceq; ret. And ldc 0x1_0000_0002; ret.
  const COMPARES := Method(0x1000, 0x2000, [0x7, 1, 0x29, 2, 1, 0x75, 0x1], 4, 0, 0, 1, 8, false)
  const IS_WIDE := Method(0x1100, 0x2100, [0x29, 2, 1, 0x1], 2, 0, 0, 2, 10, false)
  const EQUALITY := [COMPARES, IS_WIDE]

  function Comparing(ip: nat, stack: Stack<nat>): Stack<Call> {
    Push(Call(0, Frame(ip, stack, [])), Stack.Empty)
  }

  function InWide(ip: nat, stack: Stack<nat>): Stack<Call> {
    Push(Call(1, Frame(ip, stack, [])), Comparing(2, NOTHING))
  }

  const FOUR := Push(1, Push(2, Words2(2, 1)))

  lemma TurnsOfWide()
    ensures Turn(IS_WIDE.ops, 8, Frame(0, NOTHING, [])) == Continue(Frame(3, Words2(2, 1), []))
    ensures Turn(IS_WIDE.ops, 8, Frame(3, Words2(2, 1), [])) == Returned(Frame(4, Words2(2, 1), []))
  {
    Bytes2(2, 1);
    assert IS_WIDE.ops[1..3] == [2, 1];
    assert Fetch(IS_WIDE.ops, 0) == Some(Fetched(Load([2, 1]), 3));
  }

  lemma TurnsOfCompares()
    ensures Turn(COMPARES.ops, 16, Frame(2, Words2(2, 1), [])) == Continue(Frame(5, FOUR, []))
    ensures Turn(COMPARES.ops, 16, Frame(5, FOUR, [])) == Continue(Frame(6, Push(1, NOTHING), []))
    ensures Turn(COMPARES.ops, 16, Frame(6, Push(1, NOTHING), [])) == Returned(Frame(7, Push(1, NOTHING), []))
  {
    Bytes2(2, 1);
    Bytes2(1, 0);
    assert StackBytes(FOUR) == 16;
    assert COMPARES.ops[3..5] == [2, 1];
    assert Fetch(COMPARES.ops, 2) == Some(Fetched(Load([2, 1]), 5));
    assert Fetch(COMPARES.ops, 5) == Some(Fetched(Compared(Eq, W64), 6));
  }

  lemma CallsWide(t: Thread, prev: nat) returns (o: Outcome)
    requires t.calls == Comparing(0, NOTHING) && prev != JIT_TAILCALL_PREFIX
    ensures o == ThreadStep(EQUALITY, t, prev) && o.Running? && o.checked && o.thread.calls == InWide(0, NOTHING)
  {
    StepCalls(EQUALITY, t, prev);
    assert TakeWords(NOTHING, 0) == Some(Words([], NOTHING));
    assert WantedCall(EQUALITY, 0, t.calls.top.frame, prev) == Some(Wanted(1, [], NOTHING, false));
    var saved := Calling(t.calls.top, t.calls.below, NOTHING);
    PlacesWide(t, saved);
    o := PlaceCall(EQUALITY, t, saved, false, 1, []);
  }

  lemma PlacesWide(t: Thread, saved: Stack<Call>)
    requires saved == Comparing(2, NOTHING)
    ensures
      var o := PlaceCall(EQUALITY, t, saved, false, 1, []);
      o.Running? && o.checked && o.thread.calls == InWide(0, NOTHING)
  {
    assert Base(EQUALITY, Stack.Empty) == 0 && Base(EQUALITY, saved) == 15;
    var entered := Enter(EQUALITY, saved, t.memory, t.address, 1, []);
    assert entered.calls.top.frame.locals == [];
  }

  lemma ReturnsWide(t: Thread, prev: nat) returns (o: Outcome)
    requires t.calls == InWide(3, Words2(2, 1))
    ensures o == ThreadStep(EQUALITY, t, prev) && o.Running? && !o.checked && o.thread.calls == Comparing(2, Words2(2, 1))
  {
    TurnsOfWide();
    TakesTwo(2, 1);
    Bytes2(2, 1);
    StepReturns(EQUALITY, t, prev, Frame(4, Words2(2, 1), []));
    assert PushAll([1], Push(2, NOTHING)) == Words2(2, 1);
    assert [2, 1][1..] == [1];
    assert PushAll([2, 1], NOTHING) == Words2(2, 1);
    o := DoReturn(EQUALITY, t, Frame(4, Words2(2, 1), []));
  }

  lemma EndsCompares(t: Thread, prev: nat)
    requires t.calls == Comparing(6, Push(1, NOTHING))
    ensures ThreadStep(EQUALITY, t, prev) == Exited([1])
  {
    TurnsOfCompares();
    OneWord(1);
    StepReturns(EQUALITY, t, prev, Frame(7, Push(1, NOTHING), []));
  }

  // The words of the result arrive in order: it is equal to the number.
  lemma ResultInOrder(memory: Memory, address: nat, num: nat)
    requires num > 1
    ensures Slice(EQUALITY, Start(EQUALITY, 0, [], memory, address), JIT_NOP, num) == Ended([1])
  {
    var t := Start(EQUALITY, 0, [], memory, address);
    assert t.calls.top.frame.locals == [];
    var o := CallsWide(t, JIT_NOP);
    SliceUnfolds(EQUALITY, t, JIT_NOP, num, o);
    TurnsOfWide();
    t := GoesOn(EQUALITY, o.thread, o.op, 0x29, Frame(3, Words2(2, 1), []), num - 1);
    o := ReturnsWide(t, 0x29);
    SliceUnfolds(EQUALITY, t, 0x29, num - 1, o);
    FromCompares(o.thread, o.op, num - 1);
  }

  lemma FromCompares(s: Thread, prev: nat, num: nat)
    requires num > 0 && s.calls == Comparing(2, Words2(2, 1))
    ensures Slice(EQUALITY, s, prev, num) == Ended([1])
  {
    TurnsOfCompares();
    var t := GoesOn(EQUALITY, s, prev, 0x29, Frame(5, FOUR, []), num);
    t := GoesOn(EQUALITY, t, 0x29, 0x75, Frame(6, Push(1, NOTHING), []), num);
    EndsCompares(t, 0x75);
    SliceUnfolds(EQUALITY, t, 0x75, num, Exited([1]));
  }
}
