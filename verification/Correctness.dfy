/**
 Translation preserves meaning: run on the ops that the translator produces, the interpreter does step by step
 what the CIL machine does, and its stack never leaves the space recorded for it.
 */
module Correctness {
  import opened MachineInts
  import opened Options
  import opened Cil
  import opened Interpreter
  import opened Translator
  import opened Layout
  import opened Simulation
  import opened TypeTracking
  import opened TypeSoundness
  import opened Translation

  // ---------------------------------------------------------------- one step

  // A state whose stack has the types of its instruction.
  ghost predicate At(sig: Signature, types: map<nat, Stack<Width>>, s: CilState) {
    s.ofs in types && HasTypes(s.stack, types[s.ofs]) && WellFormed(sig, s)
  }

  // A store at this state does not truncate.
  ghost predicate Fits(sig: Signature, code: seq<U8>, s: CilState) {
    Decode(code, s.ofs).Some? ==> StoreFits(sig, Meaning(Decode(code, s.ofs).value), s)
  }

  lemma {:induction false} FlatBytes(st: Stack<Value>, types: Stack<Width>)
    requires HasTypes(st, types)
    ensures StackBytes(Flat(st)) == WidthBytes(types)
  {
    if st.Push? {
      FlatBytes(st.below, types.below);
    }
  }

  lemma DecodedConstantFits(l: Line)
    requires Shaped(l)
    ensures ConstantFits(Meaning(l))
  {
  }

  lemma StepIsSound(sig: Signature, code: seq<U8>, types: map<nat, Stack<Width>>, s: CilState)
    requires Typed(sig, code, types) && At(sig, types, s)
    ensures Decode(code, s.ofs).Some? && Shaped(Decode(code, s.ofs).value)
    ensures
      match Step(sig, code, s)
      case Next(s') => At(sig, types, s')
      case Done(_) => true
      case Stuck => Faults(Meaning(Decode(code, s.ofs).value), s.stack)
  {
    assert TypedAt(sig, code, types, s.ofs);
    var l := Decode(code, s.ofs).value;
    DecodedIsShaped(code, s.ofs);
    DecodedConstantFits(l);
    TargetsOfMeaning(l);
    MeaningIsUnconditional(l);
    ExecuteSound(sig, Meaning(l), l.next, types[s.ofs], s);
  }

  lemma MeaningIsUnconditional(l: Line)
    requires Shaped(l)
    ensures Unconditional(l) <==> Meaning(l).Branch? || Meaning(l).Return?
  {
  }

  // What the CIL machine did, told by the interpreter: where e is Turn's effect.
  ghost predicate Mirrors(s: CilState, o: Outcome, e: Effect, offsets: map<nat, nat>) {
    match o
    case Next(s') => s'.ofs in offsets && (e.Continue? || e.Checked?) && e.frame == FrameOf(s', offsets[s'.ofs])
    case Done(_) => e.Returned? && e.frame.stack == Flat(s.stack)
    case Stuck => true
  }

  lemma AgreementMirrors(i: Instr, next: nat, s: CilState, o: Outcome, e: Effect, offsets: map<nat, nat>, end: nat)
    requires Agrees(i, next, s, o, e, offsets, end) && Consistent(i, next, offsets, end)
    requires o.Next? ==> o.state.ofs in offsets
    ensures Mirrors(s, o, e, offsets)
  {
  }

  lemma TurnPerforms(ops: seq<nat>, maxStack: nat, s: CilState, ip: nat, f: Fetched)
    requires Fetch(ops, ip) == Some(f)
    requires var e := Perform(f.op, FrameOf(s, f.next)); !e.Undefined? ==> StackBytes(e.frame.stack) <= maxStack
    ensures Turn(ops, maxStack, FrameOf(s, ip)) == Perform(f.op, FrameOf(s, f.next))
  {
  }

  lemma StepSimulated(sig: Signature, code: seq<U8>, types: map<nat, Stack<Width>>, offsets: map<nat, nat>,
                      tracks: map<nat, Stack<Ty>>, t: Jitted, s: CilState)
    requires Typed(sig, code, types) && Translated(sig, code, types, offsets, tracks, t)
    requires At(sig, types, s) && Fits(sig, code, s) && !Step(sig, code, s).Stuck?
    ensures Mirrors(s, Step(sig, code, s), Turn(t.ops, t.maxStack, FrameOf(s, offsets[s.ofs])), offsets)
  {
    StepIsSound(sig, code, types, s);
    assert TranslatedAt(sig, code, types, offsets, tracks, t, s.ofs);
    var l, o := Decode(code, s.ofs).value, Step(sig, code, s);
    var f := Fetch(t.ops, offsets[s.ofs]).value;
    var e := Perform(f.op, FrameOf(s, f.next));
    Performs(sig, Meaning(l), l.next, s, tracks[s.ofs], offsets, f.next);
    AgreementMirrors(Meaning(l), l.next, s, o, e, offsets, f.next);
    FlatBytes(s.stack, types[s.ofs]);
    if o.Next? {
      assert TranslatedAt(sig, code, types, offsets, tracks, t, o.state.ofs);
      FlatBytes(o.state.stack, types[o.state.ofs]);
    }
    TurnPerforms(t.ops, t.maxStack, s, offsets[s.ofs], f);
  }

  // ---------------------------------------------------------------- whole runs

  // A run of the CIL machine from the entry of a method.
  ghost predicate CilRun(sig: Signature, code: seq<U8>, states: seq<CilState>) {
    && states != [] && states[0].ofs == 0 && states[0].stack == Stack.Empty && WellFormed(sig, states[0])
    && forall i :: 0 <= i < |states| - 1 ==> StepsTo(sig, code, states[i], states[i + 1])
  }

  // One step, in which no store truncates.
  ghost predicate StepsTo(sig: Signature, code: seq<U8>, s: CilState, s': CilState) {
    Fits(sig, code, s) && Step(sig, code, s) == Next(s')
  }

  // A run of the interpreter; no turn of it is undefined or leaves the stack.
  ghost predicate InterpreterRun(t: Jitted, frames: seq<Frame>) {
    forall i :: 0 <= i < |frames| - 1 ==> TurnsTo(t, frames[i], frames[i + 1])
  }

  ghost predicate TurnsTo(t: Jitted, fr: Frame, fr': Frame) {
    var e := Turn(t.ops, t.maxStack, fr);
    e == Continue(fr') || e == Checked(fr')
  }

  // The frames that stand for these states.
  ghost function FramesOf(states: seq<CilState>, offsets: map<nat, nat>): (frames: seq<Frame>)
    ensures |frames| == |states|
    ensures forall i :: 0 <= i < |states| ==> frames[i] == FrameOf(states[i], IndexOf(offsets, states[i].ofs))
  {
    seq(|states|, i requires 0 <= i < |states| => FrameOf(states[i], IndexOf(offsets, states[i].ofs)))
  }

  // The words that stand for a result.
  ghost function ResultWords(r: Option<Value>): Stack<nat> {
    if r.None? then Stack.Empty else Flat(Push(r.value, Stack.Empty))
  }

  lemma OnlyReturnIsDone(sig: Signature, i: Instr, next: nat, s: CilState)
    requires Execute(sig, i, next, s).Done?
    ensures Flat(s.stack) == ResultWords(Execute(sig, i, next, s).result)
  {
  }

  lemma StepStaysTyped(sig: Signature, code: seq<U8>, types: map<nat, Stack<Width>>, s: CilState, s': CilState)
    requires Typed(sig, code, types) && At(sig, types, s) && StepsTo(sig, code, s, s')
    ensures At(sig, types, s')
  {
    StepIsSound(sig, code, types, s);
  }

  lemma {:induction false} RunStaysTyped(sig: Signature, code: seq<U8>, types: map<nat, Stack<Width>>, states: seq<CilState>, i: nat)
    requires Typed(sig, code, types) && CilRun(sig, code, states) && i < |states|
    ensures At(sig, types, states[i])
  {
    if i > 0 {
      RunStaysTyped(sig, code, types, states, i - 1);
      assert StepsTo(sig, code, states[i - 1], states[i]);
      StepStaysTyped(sig, code, types, states[i - 1], states[i]);
    }
  }

  lemma StepTurns(sig: Signature, code: seq<U8>, types: map<nat, Stack<Width>>, offsets: map<nat, nat>,
                  tracks: map<nat, Stack<Ty>>, t: Jitted, s: CilState, s': CilState)
    requires Typed(sig, code, types) && Translated(sig, code, types, offsets, tracks, t)
    requires At(sig, types, s) && StepsTo(sig, code, s, s')
    ensures TurnsTo(t, FrameOf(s, IndexOf(offsets, s.ofs)), FrameOf(s', IndexOf(offsets, s'.ofs)))
  {
    StepSimulated(sig, code, types, offsets, tracks, t, s);
  }

  // How a run ends when the CIL machine does not go on: it returns the words of the result, or the instruction is
  // arithmetic that is undefined on its operands.
  ghost predicate EndsAlike(sig: Signature, code: seq<U8>, s: CilState, t: Jitted, fr: Frame) {
    match Step(sig, code, s)
    case Next(_) => true
    case Done(r) => var e := Turn(t.ops, t.maxStack, fr); e.Returned? && e.frame.stack == ResultWords(r)
    case Stuck => Decode(code, s.ofs).Some? && Faults(Meaning(Decode(code, s.ofs).value), s.stack)
  }

  // A state in which the method returns is not about to store.
  lemma ReturningFits(sig: Signature, code: seq<U8>, s: CilState)
    requires Step(sig, code, s).Done?
    ensures Fits(sig, code, s)
  {
  }

  lemma LastTurns(sig: Signature, code: seq<U8>, types: map<nat, Stack<Width>>, offsets: map<nat, nat>,
                  tracks: map<nat, Stack<Ty>>, t: Jitted, s: CilState)
    requires Typed(sig, code, types) && Translated(sig, code, types, offsets, tracks, t)
    requires At(sig, types, s) && Fits(sig, code, s)
    ensures EndsAlike(sig, code, s, t, FrameOf(s, IndexOf(offsets, s.ofs)))
  {
    StepIsSound(sig, code, types, s);
    if Step(sig, code, s).Done? {
      StepSimulated(sig, code, types, offsets, tracks, t, s);
      OnlyReturnIsDone(sig, Meaning(Decode(code, s.ofs).value), Decode(code, s.ofs).value.next, s);
    }
  }

  // The main result. Every well-typed method body on which the pass tracks the types is translated. For every run in
  // which no store truncates, the interpreter goes through the frames that stand for the same states, turn by turn;
  // it returns the words of the same result; and it never leaves its stack.
  lemma TranslationPreservesMeaning(sig: Signature, code: seq<U8>, types: map<nat, Stack<Width>>, states: seq<CilState>)
    requires AllHarmless(sig, code, types) && CilRun(sig, code, states)
    ensures Translate(sig, code).Some?
    ensures
      var t, frames := Translate(sig, code).value, FramesOf(states, OpIndices(sig, code));
      && frames[0].ip == 0 && InterpreterRun(t, frames)
      && var n := |states| - 1;
      Fits(sig, code, states[n]) ==> EndsAlike(sig, code, states[n], t, frames[n])
  {
    var tracks := TranslationSucceeds(sig, code, types);
    var t, offsets := Translate(sig, code).value, OpIndices(sig, code);
    var frames := FramesOf(states, offsets);
    forall i | 0 <= i < |states| - 1 ensures TurnsTo(t, frames[i], frames[i + 1]) {
      RunStaysTyped(sig, code, types, states, i);
      assert StepsTo(sig, code, states[i], states[i + 1]);
      StepTurns(sig, code, types, offsets, tracks, t, states[i], states[i + 1]);
    }
    var n := |states| - 1;
    RunStaysTyped(sig, code, types, states, n);
    if Fits(sig, code, states[n]) {
      LastTurns(sig, code, types, offsets, tracks, t, states[n]);
    }
  }

  // ---------------------------------------------------------------- stores

  lemma SameWordsSameValue(x: Value, y: Value)
    requires IsValue(x) && IsValue(y) && x.Width() == y.Width() && Pattern(x.Width(), x.v) == Pattern(y.Width(), y.v)
    ensures x == y
  {
  }

  // The words of the locals determine them.
  lemma LocalsDiffer(sig: Signature, s: CilState, n: nat, x: Value, y: Value)
    requires WellFormed(sig, s) && n < |s.locals| && IsValue(x) && IsValue(y)
    requires x.Width() == y.Width() == s.locals[n].Width() && x != y
    ensures Slots(s.args) + Slots(s.locals[n := x]) != Slots(s.args) + Slots(s.locals[n := y])
  {
    var s1, s2 := s.(locals := s.locals[n := x]), s.(locals := s.locals[n := y]);
    LocalAt(sig, s1, n, x);
    LocalAt(sig, s2, n, y);
    if Slots(s.args) + Slots(s.locals[n := x]) == Slots(s.args) + Slots(s.locals[n := y]) {
      SameWordsSameValue(x, y);
    }
  }

  // So do the words of the arguments.
  lemma ArgumentsDiffer(sig: Signature, s: CilState, n: nat, x: Value, y: Value)
    requires WellFormed(sig, s) && n < |s.args| && IsValue(x) && IsValue(y)
    requires x.Width() == y.Width() == s.args[n].Width() && x != y
    ensures Slots(s.args[n := x]) + Slots(s.locals) != Slots(s.args[n := y]) + Slots(s.locals)
  {
    var s1, s2 := s.(args := s.args[n := x]), s.(args := s.args[n := y]);
    ArgumentAt(sig, s1, n, x);
    ArgumentAt(sig, s2, n, y);
    if Slots(s.args[n := x]) + Slots(s.locals) == Slots(s.args[n := y]) + Slots(s.locals) {
      SameWordsSameValue(x, y);
    }
  }

  // An argument of a small type is stored whole: the interpreter agrees with the CIL machine exactly when the value is
  // one of the type of the argument.
  lemma ArgumentStoreAgreesExactlyWhenItFits(sig: Signature, i: Instr, next: nat, s: CilState, st: Stack<Ty>, end: nat)
    requires WellFormed(sig, s) && HasTypes(s.stack, Widths(st)) && i.StoreArg? && Execute(sig, i, next, s).Next?
    ensures
      var s' := Execute(sig, i, next, s).state;
      Perform(OpFor(sig, i, st, map[]), FrameOf(s, end)) == Continue(FrameOf(s', end)) <==> StoreFits(sig, i, s)
  {
    var x := s.stack.top;
    var t := sig.args[i.n];
    var s' := Execute(sig, i, next, s).state;
    TopTypes(s.stack, st);
    TruncatedIsValue(t, x);
    ArgumentAt(sig, s, i.n, x);
    Stored(s, s.args[i.n], CellOf(sig.args, i.n), s'.(args := s.args[i.n := x]), end);
    if Truncated(t, x) != x {
      ArgumentsDiffer(sig, s, i.n, x, Truncated(t, x));
    }
  }

  // A local of a small type is stored whole: the interpreter agrees with the CIL machine exactly when the value is
  // one of the type of the local.
  lemma StoreAgreesExactlyWhenItFits(sig: Signature, i: Instr, next: nat, s: CilState, st: Stack<Ty>, end: nat)
    requires WellFormed(sig, s) && HasTypes(s.stack, Widths(st)) && i.StoreLocal? && Execute(sig, i, next, s).Next?
    ensures
      var s' := Execute(sig, i, next, s).state;
      Perform(OpFor(sig, i, st, map[]), FrameOf(s, end)) == Continue(FrameOf(s', end)) <==> StoreFits(sig, i, s)
  {
    var x := s.stack.top;
    var t := sig.locals[i.n];
    var s' := Execute(sig, i, next, s).state;
    TopTypes(s.stack, st);
    TruncatedIsValue(t, x);
    LocalAt(sig, s, i.n, x);
    Stored(s, s.locals[i.n], LocalCell(sig, i.n), s'.(locals := s.locals[i.n := x]), end);
    if Truncated(t, x) != x {
      LocalsDiffer(sig, s, i.n, x, Truncated(t, x));
    }
  }

  // An example: 300 stored in a byte. The standard stores 44; the interpreter stores 300.
  lemma StoringIntoAByte(sig: Signature, s: CilState)
    requires sig.locals == [Byte] && s.locals == [V32(0)] && s.stack == Push(V32(300), Stack.Empty)
    ensures Execute(sig, Instr.StoreLocal(0), 1, s) == Next(s.(ofs := 1, stack := Stack.Empty, locals := [V32(44)]))
    ensures !StoreFits(sig, Instr.StoreLocal(0), s)
    ensures WellFormed(sig, s) ==>
              Perform(OpFor(sig, Instr.StoreLocal(0), Push(Int32, Stack.Empty), map[]), FrameOf(s, 1)) ==
              Continue(FrameOf(s.(stack := Stack.Empty, locals := [V32(300)]), 1))
  {
    if WellFormed(sig, s) {
      LocalAt(sig, s, 0, V32(300));
      assert s.locals[0 := V32(300)] == [V32(300)];
      Stored(s, s.locals[0], LocalCell(sig, 0), s.(stack := Stack.Empty, locals := [V32(300)]), 1);
    }
  }
}
