/**
 A method with a loop, to show that what the translation theorem asks for can be met.
 */
module CountDown {
  import opened MachineInts
  import opened IntegerOps
  import opened Powers
  import opened Options
  import opened Cil
  import opened Layout
  import opened Simulation
  import opened TypeTracking
  import opened Interpreter
  import opened Translator
  import opened Translation
  import opened Correctness

  // do { n = n - 1; } while (n != 0); return n;
  const BODY: seq<U8> := [0x02, 0x17, 0x59, 0x10, 0x00, 0x02, 0x2d, 0xf8, 0x02, 0x2a]
  const SIGNATURE := Signature([Int32], [], Some(Int32))

  const NONE: Stack<Width> := Stack.Empty
  const ONE := Push(W32, NONE)
  const TYPES := map[0 := NONE, 1 := ONE, 2 := Push(W32, ONE), 3 := ONE, 5 := NONE, 6 := ONE, 8 := NONE, 9 := ONE]

  // What the method body is read as.
  ghost predicate Reads(code: seq<U8>) {
    && |code| == 10
    && Decode(code, 0) == Some(Line(0x02, 0, [], 1))
    && Decode(code, 1) == Some(Line(0x17, 0, [], 2))
    && Decode(code, 2) == Some(Line(0x59, 0, [], 3))
    && Decode(code, 3) == Some(Line(0x10, 0, [], 5))
    && Decode(code, 5) == Some(Line(0x02, 0, [], 6))
    && Decode(code, 6) == Some(Line(0x2d, 0, [0], 8))
    && Decode(code, 8) == Some(Line(0x02, 0, [], 9))
    && Decode(code, 9) == Some(Line(0x2a, 0, [], 10))
    && Decode(code, 10) == None
  }

  // An instruction without operands.
  lemma DecodedPlain(code: seq<U8>, o: nat)
    requires o < |code| && code[o] in {0x02, 0x17, 0x59, 0x2a}
    ensures Decode(code, o) == Some(Line(code[o], 0, [], o + 1))
  {
  }

  lemma DecodedStore(code: seq<U8>)
    requires 5 <= |code| && code[3] == 0x10 && code[4] == 0x00
    ensures Decode(code, 3) == Some(Line(0x10, 0, [], 5))
  {
    assert Read(code, 5, 0) == 0;
    assert Read(code, 4, 1) == 0x00;
  }

  lemma DecodedBranch(code: seq<U8>)
    requires 8 <= |code| && code[6] == 0x2d && code[7] == 0xf8
    ensures Decode(code, 6) == Some(Line(0x2d, 0, [0], 8))
  {
    assert Read(code, 8, 0) == 0;
    assert Read(code, 7, 1) == 0xf8;
    assert SignExtended(0x100, 0xf8) == -8 && Target(8, -8) == 0;
  }

  predicate IsBody(code: seq<U8>) {
    && |code| == 10 && code[0] == 0x02 && code[1] == 0x17 && code[2] == 0x59 && code[3] == 0x10 && code[4] == 0x00
    && code[5] == 0x02 && code[6] == 0x2d && code[7] == 0xf8 && code[8] == 0x02 && code[9] == 0x2a
  }

  lemma BodyReads(code: seq<U8>)
    requires IsBody(code)
    ensures Reads(code)
  {
    DecodedPlain(code, 0);
    DecodedPlain(code, 1);
    DecodedPlain(code, 2);
    DecodedStore(code);
    DecodedPlain(code, 5);
    DecodedBranch(code);
    DecodedPlain(code, 8);
    DecodedPlain(code, 9);
  }

  lemma Starting(code: seq<U8>)
    requires Reads(code)
    ensures Starts(code, 0) == TYPES.Keys
  {
    assert Starts(code, 10) == {};
    assert Starts(code, 9) == {9};
    assert Starts(code, 8) == {8, 9};
    assert Starts(code, 6) == {6, 8, 9};
    assert Starts(code, 5) == {5, 6, 8, 9};
    assert Starts(code, 3) == {3, 5, 6, 8, 9};
    assert Starts(code, 2) == {2, 3, 5, 6, 8, 9};
    assert Starts(code, 1) == {1, 2, 3, 5, 6, 8, 9};
  }

  // An instruction that is no branch, followed by another.
  lemma TypedStraight(code: seq<U8>, o: nat, l: Line)
    requires o in TYPES && Decode(code, o) == Some(l) && l.targets == [] && !Unconditional(l)
    requires l.next in TYPES && Flow(SIGNATURE, Meaning(l), TYPES[o]) == Some(TYPES[l.next])
    ensures TypedAt(SIGNATURE, code, TYPES, o) && Harmless(code, TYPES, o)
  {
  }

  lemma TypedBranch(code: seq<U8>)
    requires Reads(code)
    ensures TypedAt(SIGNATURE, code, TYPES, 6) && Harmless(code, TYPES, 6)
  {
  }

  lemma TypedReturn(code: seq<U8>)
    requires Reads(code)
    ensures TypedAt(SIGNATURE, code, TYPES, 9) && Harmless(code, TYPES, 9)
  {
  }

  lemma TypedEverywhere(code: seq<U8>, o: nat)
    requires Reads(code) && o in TYPES
    ensures TypedAt(SIGNATURE, code, TYPES, o) && Harmless(code, TYPES, o)
  {
    if o == 6 {
      TypedBranch(code);
    } else if o == 9 {
      TypedReturn(code);
    } else {
      Flows();
      TypedStraight(code, o, Decode(code, o).value);
    }
  }

  lemma Flows()
    ensures Flow(SIGNATURE, Meaning(Line(0x02, 0, [], 1)), NONE) == Some(ONE) == Flow(SIGNATURE, Meaning(Line(0x02, 0, [], 6)), NONE)
    ensures Flow(SIGNATURE, Meaning(Line(0x02, 0, [], 9)), NONE) == Some(ONE)
    ensures Flow(SIGNATURE, Meaning(Line(0x17, 0, [], 2)), ONE) == Some(Push(W32, ONE))
    ensures Flow(SIGNATURE, Meaning(Line(0x59, 0, [], 3)), Push(W32, ONE)) == Some(ONE)
    ensures Flow(SIGNATURE, Meaning(Line(0x10, 0, [], 5)), ONE) == Some(NONE)
  {
  }

  // The method is well typed, and no branch in it does harm.
  lemma WellTyped(code: seq<U8>)
    requires Reads(code)
    ensures AllHarmless(SIGNATURE, code, TYPES)
  {
    Starting(code);
    forall o | o in TYPES ensures TypedAt(SIGNATURE, code, TYPES, o) && Harmless(code, TYPES, o) {
      TypedEverywhere(code, o);
    }
  }

  function StateAt(ofs: nat, stack: Stack<Value>, n: int): CilState {
    CilState(ofs, stack, [V32(n)], [])
  }

  function On(v: int, stack: Stack<Value>): Stack<Value> {
    Push(V32(v), stack)
  }

  const EMPTY: Stack<Value> := Stack.Empty

  // Each state leads to the next one.
  ghost predicate Chain(code: seq<U8>, states: seq<CilState>) {
    forall i :: 0 <= i < |states| - 1 ==> StepsTo(SIGNATURE, code, states[i], states[i + 1])
  }

  lemma Longer(code: seq<U8>, s: CilState, states: seq<CilState>)
    requires Chain(code, states) && states != [] && StepsTo(SIGNATURE, code, s, states[0])
    ensures Chain(code, [s] + states)
  {
    var all := [s] + states;
    forall i | 0 <= i < |all| - 1 ensures StepsTo(SIGNATURE, code, all[i], all[i + 1]) {
      if i > 0 {
        var j := i - 1;
        assert all[i] == states[j] && all[i + 1] == states[j + 1];
      }
    }
  }

  lemma Loads(code: seq<U8>, n: int)
    requires Reads(code)
    ensures StepsTo(SIGNATURE, code, StateAt(0, EMPTY, n), StateAt(1, On(n, EMPTY), n))
    ensures StepsTo(SIGNATURE, code, StateAt(1, On(n, EMPTY), n), StateAt(2, On(1, On(n, EMPTY)), n))
  {
  }

  lemma Subtracts(code: seq<U8>, n: int)
    requires Reads(code) && 0 < n && InRange(W32, n)
    ensures StepsTo(SIGNATURE, code, StateAt(2, On(1, On(n, EMPTY)), n), StateAt(3, On(n - 1, EMPTY), n))
  {
  }

  lemma Stores(code: seq<U8>, n: int)
    requires Reads(code)
    ensures StepsTo(SIGNATURE, code, StateAt(3, On(n - 1, EMPTY), n), StateAt(5, EMPTY, n - 1))
  {
  }

  lemma Branches(code: seq<U8>, n: int)
    requires Reads(code)
    ensures StepsTo(SIGNATURE, code, StateAt(5, EMPTY, n), StateAt(6, On(n, EMPTY), n))
    ensures StepsTo(SIGNATURE, code, StateAt(6, On(n, EMPTY), n), StateAt(if n == 0 then 8 else 0, EMPTY, n))
  {
  }

  lemma Returns(code: seq<U8>)
    requires Reads(code)
    ensures StepsTo(SIGNATURE, code, StateAt(8, EMPTY, 0), StateAt(9, On(0, EMPTY), 0))
    ensures Step(SIGNATURE, code, StateAt(9, On(0, EMPTY), 0)) == Done(Some(V32(0)))
  {
  }

  // One round of the loop before the states that follow it.
  lemma Round(code: seq<U8>, n: int, rest: seq<CilState>) returns (states: seq<CilState>)
    requires Reads(code) && 0 < n && InRange(W32, n)
    requires Chain(code, rest) && rest != [] && rest[0] == StateAt(if n == 1 then 8 else 0, EMPTY, n - 1)
    ensures Chain(code, states) && states != [] && states[0] == StateAt(0, EMPTY, n)
    ensures states[|states| - 1] == rest[|rest| - 1]
  {
    Loads(code, n);
    Subtracts(code, n);
    Stores(code, n);
    Branches(code, n - 1);
    states := rest;
    Longer(code, StateAt(6, On(n - 1, EMPTY), n - 1), states);
    states := [StateAt(6, On(n - 1, EMPTY), n - 1)] + states;
    Longer(code, StateAt(5, EMPTY, n - 1), states);
    states := [StateAt(5, EMPTY, n - 1)] + states;
    Longer(code, StateAt(3, On(n - 1, EMPTY), n), states);
    states := [StateAt(3, On(n - 1, EMPTY), n)] + states;
    Longer(code, StateAt(2, On(1, On(n, EMPTY)), n), states);
    states := [StateAt(2, On(1, On(n, EMPTY)), n)] + states;
    Longer(code, StateAt(1, On(n, EMPTY), n), states);
    states := [StateAt(1, On(n, EMPTY), n)] + states;
    Longer(code, StateAt(0, EMPTY, n), states);
    states := [StateAt(0, EMPTY, n)] + states;
  }

  lemma Ending(code: seq<U8>) returns (states: seq<CilState>)
    requires Reads(code)
    ensures Chain(code, states) && states != [] && states[0] == StateAt(8, EMPTY, 0)
    ensures Step(SIGNATURE, code, states[|states| - 1]) == Done(Some(V32(0)))
  {
    Returns(code);
    states := [StateAt(9, On(0, EMPTY), 0)];
    Longer(code, StateAt(8, EMPTY, 0), states);
    states := [StateAt(8, EMPTY, 0)] + states;
  }

  // From any positive number the method runs and returns 0.
  lemma {:induction false} Runs(code: seq<U8>, n: int) returns (states: seq<CilState>)
    requires Reads(code) && 0 < n && InRange(W32, n)
    ensures Chain(code, states) && states != [] && states[0] == StateAt(0, EMPTY, n)
    ensures Step(SIGNATURE, code, states[|states| - 1]) == Done(Some(V32(0)))
    decreases n
  {
    var rest;
    if n > 1 {
      rest := Runs(code, n - 1);
    } else {
      rest := Ending(code);
    }
    states := Round(code, n, rest);
  }

  lemma TranslationOf(code: seq<U8>, n: int) returns (states: seq<CilState>)
    requires Reads(code) && 0 < n && InRange(W32, n)
    ensures CilRun(SIGNATURE, code, states) && states[0] == StateAt(0, EMPTY, n)
    ensures Step(SIGNATURE, code, states[|states| - 1]) == Done(Some(V32(0)))
    ensures Translate(SIGNATURE, code).Some?
    ensures InterpreterRun(Translate(SIGNATURE, code).value, FramesOf(states, OpIndices(SIGNATURE, code)))
    ensures ReturnsZero(Translate(SIGNATURE, code).value, FramesOf(states, OpIndices(SIGNATURE, code))[|states| - 1])
  {
    WellTyped(code);
    states := Runs(code, n);
    TranslationPreservesMeaning(SIGNATURE, code, TYPES, states);
    var last := states[|states| - 1];
    ReturningFits(SIGNATURE, code, last);
    ZeroIsReturned(code, last, Translate(SIGNATURE, code).value, FramesOf(states, OpIndices(SIGNATURE, code))[|states| - 1]);
  }

  // The next op returns the number 0.
  predicate ReturnsZero(t: Jitted, fr: Frame) {
    var e := Turn(t.ops, t.maxStack, fr);
    e.Returned? && e.frame.stack == Push(0, Stack.Empty)
  }

  lemma ZeroIsReturned(code: seq<U8>, s: CilState, t: Jitted, fr: Frame)
    requires Step(SIGNATURE, code, s) == Done(Some(V32(0))) && EndsAlike(SIGNATURE, code, s, t, fr)
    ensures ReturnsZero(t, fr)
  {
    assert ResultWords(Some(V32(0))) == Push(0, Stack.Empty);
  }

  // So do its ops: the method is translated, and what is translated runs step by step like it, from any positive number,
  // and returns 0.
  lemma TranslatedRuns(n: int) returns (code: seq<U8>, states: seq<CilState>)
    requires 0 < n && InRange(W32, n)
    ensures code == BODY && CilRun(SIGNATURE, code, states) && states[0] == StateAt(0, EMPTY, n)
    ensures Step(SIGNATURE, code, states[|states| - 1]) == Done(Some(V32(0)))
    ensures Translate(SIGNATURE, code).Some?
    ensures InterpreterRun(Translate(SIGNATURE, code).value, FramesOf(states, OpIndices(SIGNATURE, code)))
    ensures ReturnsZero(Translate(SIGNATURE, code).value, FramesOf(states, OpIndices(SIGNATURE, code))[|states| - 1])
  {
    code := BODY;
    BodyReads(code);
    states := TranslationOf(code, n);
  }
}
