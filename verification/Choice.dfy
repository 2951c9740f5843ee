/**
 A method with a switch, from its bytes to its result: the displacements in the table count from the end of the table.
 */
module Choice {
  import opened MachineInts
  import opened IntegerOps
  import opened Options
  import opened Cil
  import opened Assembly
  import opened TypeTracking
  import opened Interpreter
  import opened Translator
  import opened Translation
  import opened Correctness
  import opened Layout

  // switch (n) { case 0: return 2; } return 1;
  const BODY: seq<U8> :=
    [0x02, 0x45, 0x01, 0x00, 0x00, 0x00, 0x04, 0x00, 0x00, 0x00, 0x00, 0x00, 0x17, 0x2a, 0x18, 0x2a]
  const SIGNATURE := Signature([Int32], [], Some(Int32))

  const NONE: Stack<Width> := Stack.Empty
  const ONE := Push(W32, NONE)
  const TYPES := map[0 := NONE, 1 := ONE, 10 := NONE, 11 := NONE, 12 := NONE, 13 := ONE, 14 := NONE, 15 := ONE]

  // What the method body is read as.
  ghost predicate Reads(code: seq<U8>) {
    && |code| == 16
    && Decode(code, 0) == Some(Line(0x02, 0, [], 1))
    && Decode(code, 1) == Some(Line(0x45, 0, [14], 10))
    && Decode(code, 10) == Some(Line(0x00, 0, [], 11))
    && Decode(code, 11) == Some(Line(0x00, 0, [], 12))
    && Decode(code, 12) == Some(Line(0x17, 0, [], 13))
    && Decode(code, 13) == Some(Line(0x2a, 0, [], 14))
    && Decode(code, 14) == Some(Line(0x18, 0, [], 15))
    && Decode(code, 15) == Some(Line(0x2a, 0, [], 16))
    && Decode(code, 16) == None
  }

  lemma ReadsPlain(code: seq<U8>, o: nat)
    requires o < |code| && code[o] in {0x00, 0x02, 0x17, 0x18, 0x2a}
    ensures Decode(code, o) == Some(Line(code[o], 0, [], o + 1))
  {
  }

  const SWITCH := Text(Long, Switch([14]))

  lemma SwitchIsWritten()
    ensures Writable(SWITCH, 1) && Write(SWITCH, 1) == [0x45, 0x01, 0x00, 0x00, 0x00, 0x04, 0x00, 0x00, 0x00]
    ensures LineOf(SWITCH, 1) == Line(0x45, 0, [14], 10)
  {
    assert Displacement(14, 10) == 4;
    FourBytes(1);
    FourBytes(4);
    assert TableBytes([], 10) == [];
    assert TableBytes([14], 10) == [0x04, 0x00, 0x00, 0x00];
  }

  lemma FourBytes(b: U8)
    ensures Bytes(4, b) == [b, 0x00, 0x00, 0x00]
  {
    assert Bytes(0, 0) == [];
    assert Bytes(1, 0) == [0x00];
    assert Bytes(2, 0) == [0x00, 0x00];
    assert Bytes(3, 0) == [0x00, 0x00, 0x00];
  }

  predicate IsBody(code: seq<U8>) {
    && |code| == 16 && code[0] == 0x02 && code[1..10] == [0x45, 0x01, 0x00, 0x00, 0x00, 0x04, 0x00, 0x00, 0x00]
    && code[10] == 0x00 && code[11] == 0x00 && code[12] == 0x17 && code[13] == 0x2a && code[14] == 0x18 && code[15] == 0x2a
  }

  lemma SwitchReads(code: seq<U8>)
    requires IsBody(code)
    ensures Decode(code, 1) == Some(Line(0x45, 0, [14], 10))
  {
    SwitchIsWritten();
    PlacedIsRead(code, SWITCH, 1);
  }

  lemma BodyReads(code: seq<U8>)
    requires IsBody(code)
    ensures Reads(code)
  {
    ReadsPlain(code, 0);
    SwitchReads(code);
    ReadsPlain(code, 10);
    ReadsPlain(code, 11);
    ReadsPlain(code, 12);
    ReadsPlain(code, 13);
    ReadsPlain(code, 14);
    ReadsPlain(code, 15);
  }

  lemma Starting(code: seq<U8>)
    requires Reads(code)
    ensures Starts(code, 0) == TYPES.Keys
  {
    assert Starts(code, 16) == {};
    assert Starts(code, 15) == {15};
    assert Starts(code, 14) == {14, 15};
    assert Starts(code, 13) == {13, 14, 15};
    assert Starts(code, 12) == {12, 13, 14, 15};
    assert Starts(code, 11) == {11, 12, 13, 14, 15};
    assert Starts(code, 10) == {10, 11, 12, 13, 14, 15};
    assert Starts(code, 1) == {1, 10, 11, 12, 13, 14, 15};
  }

  // An instruction that is no branch, followed by another.
  lemma TypedStraight(code: seq<U8>, o: nat, l: Line)
    requires o in TYPES && Decode(code, o) == Some(l) && l.targets == [] && !Unconditional(l)
    requires l.next in TYPES && Flow(SIGNATURE, Meaning(l), TYPES[o]) == Some(TYPES[l.next])
    ensures TypedAt(SIGNATURE, code, TYPES, o) && Harmless(code, TYPES, o)
  {
  }

  lemma TypedSwitch(code: seq<U8>)
    requires Reads(code)
    ensures TypedAt(SIGNATURE, code, TYPES, 1) && Harmless(code, TYPES, 1)
  {
  }

  lemma TypedReturn(code: seq<U8>, o: nat)
    requires Reads(code) && (o == 13 || o == 15)
    ensures TypedAt(SIGNATURE, code, TYPES, o) && Harmless(code, TYPES, o)
  {
  }

  lemma Flows(next: nat)
    ensures Flow(SIGNATURE, Meaning(Line(0x00, 0, [], next)), NONE) == Some(NONE)
    ensures Flow(SIGNATURE, Meaning(Line(0x02, 0, [], next)), NONE) == Some(ONE)
    ensures Flow(SIGNATURE, Meaning(Line(0x17, 0, [], next)), NONE) == Some(ONE)
    ensures Flow(SIGNATURE, Meaning(Line(0x18, 0, [], next)), NONE) == Some(ONE)
  {
  }

  // One that finds the stack empty.
  lemma TypedFromEmpty(code: seq<U8>, o: nat, op: nat, next: nat)
    requires o in TYPES && TYPES[o] == NONE && next in TYPES && op in {0x00, 0x02, 0x17, 0x18}
    requires Decode(code, o) == Some(Line(op, 0, [], next)) && TYPES[next] == if op == 0x00 then NONE else ONE
    ensures TypedAt(SIGNATURE, code, TYPES, o) && Harmless(code, TYPES, o)
  {
    Flows(next);
    TypedStraight(code, o, Line(op, 0, [], next));
  }

  lemma TypedEverywhere(code: seq<U8>, o: nat)
    requires Reads(code) && o in TYPES
    ensures TypedAt(SIGNATURE, code, TYPES, o) && Harmless(code, TYPES, o)
  {
    if o == 1 {
      TypedSwitch(code);
    } else if o == 13 || o == 15 {
      TypedReturn(code, o);
    } else {
      TypedFromEmpty(code, o, Decode(code, o).value.op, o + 1);
    }
  }

  lemma WellTyped(code: seq<U8>)
    requires Reads(code)
    ensures AllHarmless(SIGNATURE, code, TYPES)
  {
    Starting(code);
    forall o | o in TYPES ensures TypedAt(SIGNATURE, code, TYPES, o) && Harmless(code, TYPES, o) {
      TypedEverywhere(code, o);
    }
  }

  function StateAt(ofs: nat, stack: Stack<Value>, n: int): CilState {
    CilState(ofs, stack, [V32(n)], [])
  }

  function On(v: int): Stack<Value> {
    Push(V32(v), Stack.Empty)
  }

  const EMPTY: Stack<Value> := Stack.Empty

  // The states that the method goes through.
  function Through(n: int): seq<CilState> {
    [StateAt(0, EMPTY, n), StateAt(1, On(n), n)] +
    if n == 0 then [StateAt(14, EMPTY, n), StateAt(15, On(2), n)]
    else [StateAt(10, EMPTY, n), StateAt(11, EMPTY, n), StateAt(12, EMPTY, n), StateAt(13, On(1), n)]
  }

  lemma LoadsNumber(code: seq<U8>, n: int)
    requires Reads(code)
    ensures StepsTo(SIGNATURE, code, StateAt(0, EMPTY, n), StateAt(1, On(n), n))
  {
  }

  lemma Switches(code: seq<U8>, n: int)
    requires Reads(code) && InRange(W32, n)
    ensures StepsTo(SIGNATURE, code, StateAt(1, On(n), n), StateAt(if n == 0 then 14 else 10, EMPTY, n))
  {
    assert Pattern(W32, n) == 0 <==> n == 0;
    assert Meaning(Line(0x45, 0, [14], 10)) == Switch([14]);
  }

  lemma GoesOn(code: seq<U8>, n: int)
    requires Reads(code)
    ensures StepsTo(SIGNATURE, code, StateAt(10, EMPTY, n), StateAt(11, EMPTY, n))
    ensures StepsTo(SIGNATURE, code, StateAt(11, EMPTY, n), StateAt(12, EMPTY, n))
    ensures StepsTo(SIGNATURE, code, StateAt(12, EMPTY, n), StateAt(13, On(1), n))
    ensures StepsTo(SIGNATURE, code, StateAt(14, EMPTY, n), StateAt(15, On(2), n))
  {
  }

  lemma Returns(code: seq<U8>, n: int)
    requires Reads(code)
    ensures Step(SIGNATURE, code, StateAt(13, On(1), n)) == Done(Some(V32(1)))
    ensures Step(SIGNATURE, code, StateAt(15, On(2), n)) == Done(Some(V32(2)))
  {
  }

  lemma Runs(code: seq<U8>, n: int)
    requires Reads(code) && InRange(W32, n)
    ensures CilRun(SIGNATURE, code, Through(n))
    ensures Step(SIGNATURE, code, Through(n)[|Through(n)| - 1]) == Done(Some(V32(if n == 0 then 2 else 1)))
  {
    LoadsNumber(code, n);
    Switches(code, n);
    GoesOn(code, n);
    Returns(code, n);
  }

  // The next op returns the number.
  predicate ReturnsNumber(t: Jitted, fr: Frame, v: nat) {
    var e := Turn(t.ops, t.maxStack, fr);
    e.Returned? && e.frame.stack == Push(v, Stack.Empty)
  }

  lemma EndsWithNumber(code: seq<U8>, s: CilState, t: Jitted, fr: Frame, v: nat)
    requires Step(SIGNATURE, code, s) == Done(Some(V32(v))) && v < 3 && EndsAlike(SIGNATURE, code, s, t, fr)
    ensures ReturnsNumber(t, fr, v)
  {
    assert ResultWords(Some(V32(v))) == Push(v, Stack.Empty);
  }

  lemma TranslationOf(code: seq<U8>, n: int)
    requires Reads(code) && InRange(W32, n)
    ensures CilRun(SIGNATURE, code, Through(n)) && Translate(SIGNATURE, code).Some?
    ensures
      var t, frames := Translate(SIGNATURE, code).value, FramesOf(Through(n), OpIndices(SIGNATURE, code));
      InterpreterRun(t, frames) && ReturnsNumber(t, frames[|Through(n)| - 1], if n == 0 then 2 else 1)
  {
    WellTyped(code);
    Runs(code, n);
    TranslationPreservesMeaning(SIGNATURE, code, TYPES, Through(n));
    var last := Through(n)[|Through(n)| - 1];
    ReturningFits(SIGNATURE, code, last);
    EndsWithNumber(code, last, Translate(SIGNATURE, code).value,
                   FramesOf(Through(n), OpIndices(SIGNATURE, code))[|Through(n)| - 1], if n == 0 then 2 else 1);
  }

  // The method is translated, and its ops return 2 for 0 and 1 for every other number.
  lemma TranslatedChooses(n: int) returns (code: seq<U8>)
    requires InRange(W32, n)
    ensures code == BODY && CilRun(SIGNATURE, code, Through(n)) && Through(n)[0] == StateAt(0, EMPTY, n)
    ensures Translate(SIGNATURE, code).Some?
    ensures
      var t, frames := Translate(SIGNATURE, code).value, FramesOf(Through(n), OpIndices(SIGNATURE, code));
      InterpreterRun(t, frames) && ReturnsNumber(t, frames[|Through(n)| - 1], if n == 0 then 2 else 1)
  {
    code := BODY;
    BodyReads(code);
    TranslationOf(code, n);
  }
}
