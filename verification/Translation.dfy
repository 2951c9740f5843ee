/**
 Translation preserves meaning: the interpreter, run on what the translator produces, does step by step what
 the CIL machine does, and its stack never leaves the space recorded for it.
 */
module Translation {
  import opened MachineInts
  import opened Options
  import opened Cil
  import opened Interpreter
  import opened Translator
  import opened Layout
  import opened Simulation
  import opened TypeTracking
  import opened TypeSoundness
  import opened EmittedCode

  // ---------------------------------------------------------------- branch operands

  // Every op that holds a branch target holds one of these offsets.
  ghost predicate HoldsKnown(j: Pass, known: set<nat>) {
    forall b <- j.branches :: b < |j.ops| && j.ops[b] in known
  }

  lemma AppendHoldsKnown(ofs: nat, l: Line, f: Selected, j: Pass, known: set<nat>)
    requires HoldsKnown(j, known) && TargetsLast(f, l.targets) && forall t <- l.targets :: t in known
    ensures HoldsKnown(Append(ofs, l, f, j), known)
  {
  }

  lemma {:induction false} PassHoldsKnown(sig: Signature, code: seq<U8>, starts: set<nat>, ofs: nat, j: Pass, known: set<nat>)
    requires Chained(code, starts) && ofs in starts && EmitFrom(sig, code, ofs, j).Some? && HoldsKnown(j, known)
    requires forall q <- starts, t | BranchesTo(code, q, t) :: t in known
    ensures HoldsKnown(EmitFrom(sig, code, ofs, j).value, known)
    decreases |code| - ofs
  {
    var l := Decode(code, ofs).value;
    assert ChainedAt(code, starts, ofs);
    DecodedIsShaped(code, ofs);
    HolesAreTargets(sig, l, j.stack);
    assert forall t <- l.targets :: BranchesTo(code, ofs, t);
    AppendHoldsKnown(ofs, l, Select(sig, l, j.stack).value, j, known);
    if l.next < |code| {
      PassHoldsKnown(sig, code, starts, l.next, Emit(sig, ofs, l, j).value, known);
    }
  }

  lemma {:induction false} FixedAt(ops: seq<nat>, branches: seq<nat>, offsets: map<nat, nat>)
    requires Increasing(branches) && forall b <- branches :: b < |ops| && ops[b] in offsets
    ensures
      var r := Fixed(ops, branches, offsets);
      && r.Some? && |r.value| == |ops|
      && forall i :: 0 <= i < |ops| ==> r.value[i] == if i in branches then offsets[ops[i]] else ops[i]
    decreases |branches|
  {
    if branches != [] {
      var p, rest := branches[0], branches[1..];
      assert p in branches && forall b <- rest :: b in branches;
      var ops' := ops[p := offsets[ops[p]]];
      assert forall b <- rest :: b > p;
      FixedAt(ops', rest, offsets);
      forall i | 0 <= i < |ops| ensures i in branches <==> i == p || i in rest {
      }
    }
  }

  // The words of an instruction in the finished code.
  lemma PlacedResolved(f: Selected, targets: seq<nat>, p: nat, k: Pass, ops: seq<nat>)
    requires TargetsLast(f, targets) && Placed(f.words, f.holes, p, k) && |ops| == |k.ops|
    requires forall t <- targets :: t in k.offsets
    requires forall i :: 0 <= i < |ops| ==> ops[i] == if i in k.branches then IndexOf(k.offsets, k.ops[i]) else k.ops[i]
    ensures p + |f.words| <= |ops| && ops[p..p + |f.words|] == Resolve(f.words, targets, k.offsets)
  {
  }

  // Fetching looks at nothing but the words of the op.
  lemma FetchLocally(ops: seq<nat>, pc: nat, words: seq<nat>, op: MicroOp)
    requires Fetches(words, op) && pc + |words| <= |ops| && ops[pc..pc + |words|] == words
    ensures Fetch(ops, pc) == Some(Fetched(op, pc + |words|))
  {
    var n := |words|;
    assert forall i :: 0 <= i < n ==> ops[pc + i] == words[i];
    if Plain(words[0]).None? && WithParameter(words[0], words[1]).None? {
      if words[0] == JIT_LOAD_I64 {
        assert ops[pc + 1..pc + 3] == words[1..3];
      } else {
        assert ops[pc + 2..pc + 2 + words[1]] == words[2..2 + words[1]];
      }
    }
  }

  // ---------------------------------------------------------------- the finished code

  ghost predicate OperandsFixed(k: Pass, ops: seq<nat>) {
    |ops| == |k.ops| &&
    forall i :: 0 <= i < |ops| ==> ops[i] == if i in k.branches then IndexOf(k.offsets, k.ops[i]) else k.ops[i]
  }

  lemma OpPlaced(f: Selected, targets: seq<nat>, op: MicroOp, k: Pass, ops: seq<nat>, p: nat)
    requires TargetsLast(f, targets) && SelectsRight(f, targets, k.offsets, op)
    requires OperandsFixed(k, ops) && Placed(f.words, f.holes, p, k) && forall t <- targets :: t in k.offsets
    ensures Fetch(ops, p) == Some(Fetched(op, p + |f.words|))
  {
    PlacedResolved(f, targets, p, k, ops);
    FetchLocally(ops, p, Resolve(f.words, targets, k.offsets), op);
  }

  lemma TargetsOfMeaning(l: Line)
    requires Shaped(l)
    ensures Targets(Meaning(l)) == l.targets
  {
  }

  // The op at the index of the instruction at o is the operation meant by it.
  ghost predicate FinishedAt(sig: Signature, code: seq<U8>, offsets: map<nat, nat>, ops: seq<nat>, o: nat, st: Stack<Ty>) {
    && Decode(code, o).Some? && o in offsets
    && var i, next := Meaning(Decode(code, o).value), Decode(code, o).value.next;
    && Fetch(ops, offsets[o]).Some?
    && Fetch(ops, offsets[o]).value.op == OpFor(sig, i, st, offsets)
    && Consistent(i, next, offsets, Fetch(ops, offsets[o]).value.next)
  }

  lemma CodeIsFinished(sig: Signature, code: seq<U8>, k: Pass, ops: seq<nat>, o: nat, st: Stack<Ty>)
    requires CodeAt(sig, code, k, o, st) && OperandsFixed(k, ops)
    requires forall t <- Decode(code, o).value.targets :: t in k.offsets
    ensures FinishedAt(sig, code, k.offsets, ops, o, st)
  {
    var l := Decode(code, o).value;
    DecodedIsShaped(code, o);
    TargetsOfMeaning(l);
    HolesAreTargets(sig, l, st);
    OpcodeArithmetic(sig, l, st, k.offsets);
    OpPlaced(Select(sig, l, st).value, l.targets, OpFor(sig, Meaning(l), st, k.offsets), k, ops, k.offsets[o]);
  }

  lemma TargetsAt(sig: Signature, code: seq<U8>, types: map<nat, Stack<Width>>, o: nat)
    requires Typed(sig, code, types) && o in types
    ensures Decode(code, o).Some? && forall t <- Decode(code, o).value.targets :: t in types
  {
    assert TypedAt(sig, code, types, o);
  }

  lemma TargetsKnown(sig: Signature, code: seq<U8>, types: map<nat, Stack<Width>>)
    requires Typed(sig, code, types)
    ensures forall q <- types.Keys, t | BranchesTo(code, q, t) :: t in types
  {
    forall q, t | q in types.Keys && BranchesTo(code, q, t) ensures t in types {
      TargetsAt(sig, code, types, q);
    }
  }

  // Every branch operand is rewritten.
  lemma FixUpsSucceed(sig: Signature, code: seq<U8>, types: map<nat, Stack<Width>>)
    requires Typed(sig, code, types) && EmitFrom(sig, code, 0, START).Some?
    requires EmitFrom(sig, code, 0, START).value.offsets.Keys == types.Keys
    ensures
      var k := EmitFrom(sig, code, 0, START).value;
      Fixed(k.ops, k.branches, k.offsets).Some? && OperandsFixed(k, Fixed(k.ops, k.branches, k.offsets).value)
  {
    var k := EmitFrom(sig, code, 0, START).value;
    TypedIsChained(sig, code, types);
    TargetsKnown(sig, code, types);
    PassExtends(sig, code, 0, START);
    PassHoldsKnown(sig, code, types.Keys, 0, START, types.Keys);
    FixedAt(k.ops, k.branches, k.offsets);
  }

  // What the translator has done with a method body: the index of the first op of each instruction, the types
  // tracked there, and the ops.
  ghost predicate Translated(sig: Signature, code: seq<U8>, types: map<nat, Stack<Width>>,
                             offsets: map<nat, nat>, tracks: map<nat, Stack<Ty>>, t: Jitted) {
    && offsets.Keys == tracks.Keys == types.Keys && 0 in offsets && offsets[0] == 0
    && forall o <- types.Keys :: TranslatedAt(sig, code, types, offsets, tracks, t, o)
  }

  ghost predicate TranslatedAt(sig: Signature, code: seq<U8>, types: map<nat, Stack<Width>>,
                               offsets: map<nat, nat>, tracks: map<nat, Stack<Ty>>, t: Jitted, o: nat) {
    && o in types && o in tracks
    && WidthBytes(types[o]) <= t.maxStack && Widths(tracks[o]) == types[o]
    && FinishedAt(sig, code, offsets, t.ops, o, tracks[o])
  }

  lemma PassIsTranslated(sig: Signature, code: seq<U8>, types: map<nat, Stack<Width>>, k: Pass,
                         tracks: map<nat, Stack<Ty>>, ops: seq<nat>)
    requires Typed(sig, code, types) && k.offsets.Keys == tracks.Keys == types.Keys && 0 in types && k.offsets[0] == 0
    requires forall o <- tracks :: CodeAt(sig, code, k, o, tracks[o])
    requires forall o <- types.Keys :: Widths(tracks[o]) == types[o] && WidthBytes(types[o]) <= k.maxBytes
    requires OperandsFixed(k, ops)
    ensures Translated(sig, code, types, k.offsets, tracks, Jitted(ops, k.maxBytes))
  {
    forall o | o in types ensures TranslatedAt(sig, code, types, k.offsets, tracks, Jitted(ops, k.maxBytes), o) {
      TargetsAt(sig, code, types, o);
      CodeIsFinished(sig, code, k, ops, o, tracks[o]);
    }
  }

  lemma PassIsComplete(sig: Signature, code: seq<U8>, k: Pass, tracks: map<nat, Stack<Ty>>)
    requires EmitFrom(sig, code, 0, START) == Some(k) && TracksFrom(sig, code, 0, START) == tracks
    ensures k.offsets.Keys == tracks.Keys && 0 in k.offsets && k.offsets[0] == 0
    ensures forall o <- tracks :: CodeAt(sig, code, k, o, tracks[o])
  {
    PassExtends(sig, code, 0, START);
    CodeEverywhere(sig, code, 0, START);
  }

  lemma TranslateIs(sig: Signature, code: seq<U8>, k: Pass, ops: seq<nat>)
    requires EmitFrom(sig, code, 0, START) == Some(k) && Fixed(k.ops, k.branches, k.offsets) == Some(ops)
    ensures Translate(sig, code) == Some(Jitted(ops, k.maxBytes))
  {
  }

  // The index of the first op of each instruction.
  function OpIndices(sig: Signature, code: seq<U8>): map<nat, nat> {
    match EmitFrom(sig, code, 0, START)
    case None => map[]
    case Some(k) => k.offsets
  }

  // A well-typed body is translated, and the op at the index of each instruction is the operation meant, with every
  // branch operand the index of the instruction it leads to.
  lemma TranslationSucceeds(sig: Signature, code: seq<U8>, types: map<nat, Stack<Width>>)
    returns (tracks: map<nat, Stack<Ty>>)
    requires AllHarmless(sig, code, types)
    ensures Translate(sig, code).Some?
    ensures Translated(sig, code, types, OpIndices(sig, code), tracks, Translate(sig, code).value)
  {
    TrackedTypesAreRight(sig, code, types);
    var k := EmitFrom(sig, code, 0, START).value;
    tracks := TracksFrom(sig, code, 0, START);
    PassIsComplete(sig, code, k, tracks);
    FixUpsSucceed(sig, code, types);
    var ops := Fixed(k.ops, k.branches, k.offsets).value;
    TranslateIs(sig, code, k, ops);
    PassIsTranslated(sig, code, types, k, tracks, ops);
  }
}
