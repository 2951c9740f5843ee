/**
 The single forward pass infers the evaluation stack correctly: it agrees with the typing of the whole
 method body, except after an unconditional branch to the very next instruction.
 */
module TypeTracking {
  import opened MachineInts
  import opened Options
  import opened Cil
  import opened Interpreter
  import opened Translator
  import opened Layout
  import opened Simulation

  // ---------------------------------------------------------------- one instruction

  lemma TopWidths(st: Stack<Ty>)
    ensures Widths(st).Push? <==> st.Push?
    ensures st.Push? ==> Widths(st).top == st.top.Width() && Widths(st).below == Widths(st.below)
    ensures HasTwo(Widths(st)) <==> HasTwo(st)
    ensures HasTwo(st) ==> Widths(st).below.top == st.below.top.Width() && Widths(st).below.below == Widths(st.below.below)
  {
  }

  ghost predicate Accepts(sig: Signature, l: Line, st: Stack<Ty>) {
    Select(sig, l, st).Some? && Some(Widths(Select(sig, l, st).value.after)) == Flow(sig, Meaning(l), Widths(st))
  }

  lemma SelectsSimple(sig: Signature, l: Line, st: Stack<Ty>)
    requires Shaped(l) && Flow(sig, Meaning(l), Widths(st)).Some? && (l.op == 0 || 0x15 <= l.op <= 0x2a)
    ensures Accepts(sig, l, st)
  {
    TopWidths(st);
  }

  lemma SelectsVariable(sig: Signature, l: Line, st: Stack<Ty>)
    requires Shaped(l) && Flow(sig, Meaning(l), Widths(st)).Some?
    requires 0x02 <= l.op <= 0x13 || l.op == 0xfe0c || l.op == 0xfe0e
    ensures Accepts(sig, l, st)
  {
    TopWidths(st);
  }

  lemma SelectsBranch(sig: Signature, l: Line, st: Stack<Ty>)
    requires Shaped(l) && Flow(sig, Meaning(l), Widths(st)).Some? && 0x2b <= l.op <= 0x45
    ensures Accepts(sig, l, st)
  {
    TopWidths(st);
  }

  lemma SelectsBinary(sig: Signature, l: Line, st: Stack<Ty>)
    requires Shaped(l) && Flow(sig, Meaning(l), Widths(st)).Some?
    requires 0x58 <= l.op <= 0x64 || 0xfe01 <= l.op <= 0xfe05
    ensures Accepts(sig, l, st)
  {
    TopWidths(st);
  }

  lemma SelectsUnary(sig: Signature, l: Line, st: Stack<Ty>)
    requires Shaped(l) && Flow(sig, Meaning(l), Widths(st)).Some? && 0x65 <= l.op <= 0x66
    ensures Accepts(sig, l, st)
  {
    TopWidths(st);
  }

  lemma SelectsSigned(sig: Signature, l: Line, st: Stack<Ty>)
    requires Shaped(l) && Flow(sig, Meaning(l), Widths(st)).Some? && 0x67 <= l.op <= 0x69
    ensures Accepts(sig, l, st)
  {
    TopWidths(st);
  }

  lemma SelectsUnsigned(sig: Signature, l: Line, st: Stack<Ty>)
    requires Shaped(l) && Flow(sig, Meaning(l), Widths(st)).Some? && 0x6d <= l.op <= 0xd2
    ensures Accepts(sig, l, st)
  {
    TopWidths(st);
  }

  // Whatever the typing rules allow, the translator accepts, and it tracks the same stack types.
  lemma SelectsTyped(sig: Signature, l: Line, st: Stack<Ty>)
    requires Shaped(l) && Flow(sig, Meaning(l), Widths(st)).Some?
    ensures Accepts(sig, l, st)
  {
    if l.op == 0 || 0x15 <= l.op <= 0x2a {
      SelectsSimple(sig, l, st);
    } else if 0x02 <= l.op <= 0x13 || l.op >= 0xfe0c {
      SelectsVariable(sig, l, st);
    } else if l.op <= 0x45 {
      SelectsBranch(sig, l, st);
    } else if l.op <= 0x64 || l.op >= 0xfe01 {
      SelectsBinary(sig, l, st);
    } else if l.op <= 0x66 {
      SelectsUnary(sig, l, st);
    } else if l.op <= 0x69 {
      SelectsSigned(sig, l, st);
    } else {
      SelectsUnsigned(sig, l, st);
    }
  }

  // ---------------------------------------------------------------- the pass

  ghost function WidthBytes(st: Stack<Width>): nat {
    if st.Empty? then 0 else (if st.top.W32? then 4 else 8) + WidthBytes(st.below)
  }

  lemma {:induction false} BytesOfWidths(st: Stack<Ty>)
    ensures TypeBytes(st) == WidthBytes(Widths(st))
  {
    if st.Push? {
      BytesOfWidths(st.below);
    }
  }

  // After an unconditional branch to the very next instruction the tracked stack is forgotten. That does no harm when
  // the stack is empty there, or when an earlier instruction branches there too.
  ghost predicate Harmless(code: seq<U8>, types: map<nat, Stack<Width>>, o: nat)
    requires o in types && Decode(code, o).Some?
  {
    var l := Decode(code, o).value;
    Unconditional(l) && l.next in l.targets && l.next in types ==>
      types[l.next] == Stack.Empty || exists q <- types.Keys :: q < o && BranchesTo(code, q, l.next)
  }

  // The instructions before this offset are those already translated.
  ghost predicate Reached(code: seq<U8>, starts: set<nat>, ofs: nat) {
    forall q <- starts ::
      if q < ofs then Decode(code, q).Some? && Decode(code, q).value.next <= ofs else q in Starts(code, ofs)
  }

  // The stacks kept are right, and none that a forward branch needs is missing.
  ghost predicate SavedRight(types: map<nat, Stack<Width>>, saved: map<nat, Stack<Ty>>) {
    forall t <- saved :: t in types && Widths(saved[t]) == types[t]
  }

  ghost predicate SavedEnough(code: seq<U8>, types: map<nat, Stack<Width>>, ofs: nat, saved: map<nat, Stack<Ty>>) {
    forall q <- types.Keys, t | t in types :: q < ofs && Jumps(code, q, t) ==> t in saved
  }

  // What the pass knows when it comes to an offset.
  ghost predicate Knows(code: seq<U8>, types: map<nat, Stack<Width>>, ofs: nat, j: Pass) {
    && (ofs in types ==> Widths(j.stack) == types[ofs])
    && SavedRight(types, j.saved)
    && SavedEnough(code, types, ofs, j.saved)
  }

  // Branches forward, past the next instruction.
  predicate Jumps(code: seq<U8>, q: nat, t: nat) {
    BranchesTo(code, q, t) && t > Decode(code, q).value.next
  }

  ghost predicate Bounded(j: Pass) {
    TypeBytes(j.stack) <= j.maxBytes && forall t <- j.saved :: TypeBytes(j.saved[t]) <= j.maxBytes
  }

  lemma {:induction false} StartsAhead(code: seq<U8>, ofs: nat)
    ensures forall q <- Starts(code, ofs) :: q >= ofs
    decreases |code| - ofs
  {
    if Decode(code, ofs).Some? {
      StartsAhead(code, Decode(code, ofs).value.next);
    }
  }

  lemma ReachedNext(code: seq<U8>, starts: set<nat>, ofs: nat)
    requires Reached(code, starts, ofs) && Decode(code, ofs).Some?
    ensures Reached(code, starts, Decode(code, ofs).value.next)
  {
    var next := Decode(code, ofs).value.next;
    StartsAhead(code, next);
    forall q | q in starts && q >= ofs ensures q == ofs || q in Starts(code, next) {
      assert Starts(code, ofs) == {ofs} + Starts(code, next);
    }
  }

  lemma {:induction false} SavedAll(saved: map<nat, Stack<Ty>>, targets: seq<nat>, next: nat, st: Stack<Ty>)
    ensures forall t <- saved :: t in SaveAll(saved, targets, next, st)
    ensures forall t <- targets :: t > next ==> t in SaveAll(saved, targets, next, st)
    ensures forall t <- SaveAll(saved, targets, next, st) ::
              var u := SaveAll(saved, targets, next, st)[t];
              (t in targets && (|targets| == 1 ==> t > next) && u == st) || (t in saved && u == saved[t])
    decreases |targets|
  {
    if targets != [] {
      SavedAll(if targets[0] + 4 * (|targets| - 1) > next then saved[targets[0] := st] else saved, targets[1..], next, st);
    }
  }

  lemma PopsShrink(sig: Signature, l: Line, st: Stack<Ty>)
    requires Select(sig, l, st).Some? && !Select(sig, l, st).value.pushed
    ensures TypeBytes(Select(sig, l, st).value.after) <= TypeBytes(st)
  {
  }

  // When the stack kept for the instruction after an unconditional branch is missing, it is empty there.
  lemma Forgotten(sig: Signature, code: seq<U8>, types: map<nat, Stack<Width>>, ofs: nat, saved: map<nat, Stack<Ty>>)
    requires Typed(sig, code, types) && ofs in types && Reached(code, types.Keys, ofs)
    requires TypedAt(sig, code, types, ofs) && Harmless(code, types, ofs)
    requires SavedEnough(code, types, ofs, saved)
    requires Unconditional(Decode(code, ofs).value) && Decode(code, ofs).value.next in types
    requires Decode(code, ofs).value.next !in saved
    ensures types[Decode(code, ofs).value.next] == Stack.Empty
  {
    var n := Decode(code, ofs).value.next;
    if types[n] != Stack.Empty {
      var q :| q in types.Keys && q <= ofs && q < n && BranchesTo(code, q, n);
      if q < ofs {
        assert Jumps(code, q, n);
      } else {
        var p :| p in types.Keys && p < ofs && BranchesTo(code, p, n);
        assert Jumps(code, p, n);
      }
    }
  }

  // The types after an instruction are those at every place it leads to.
  ghost predicate LeadsTo(types: map<nat, Stack<Width>>, l: Line, after: Stack<Width>) {
    && (forall t <- l.targets :: t in types && types[t] == after)
    && (!Unconditional(l) ==> l.next in types && types[l.next] == after)
  }

  lemma SelectedLeadsTo(sig: Signature, code: seq<U8>, types: map<nat, Stack<Width>>, ofs: nat, st: Stack<Ty>)
    requires ofs in types && TypedAt(sig, code, types, ofs) && Widths(st) == types[ofs]
    ensures
      var l := Decode(code, ofs).value;
      Select(sig, l, st).Some? && LeadsTo(types, l, Widths(Select(sig, l, st).value.after))
  {
    DecodedIsShaped(code, ofs);
    SelectsTyped(sig, Decode(code, ofs).value, st);
  }

  lemma NoneBetween(code: seq<U8>, starts: set<nat>, ofs: nat, q: nat)
    requires Reached(code, starts, ofs) && Decode(code, ofs).Some?
    requires q in starts && ofs <= q < Decode(code, ofs).value.next
    ensures q == ofs
  {
    StartsAhead(code, Decode(code, ofs).value.next);
    assert Starts(code, ofs) == {ofs} + Starts(code, Decode(code, ofs).value.next);
  }

  lemma SaveKeepsEnough(code: seq<U8>, types: map<nat, Stack<Width>>, ofs: nat, saved: map<nat, Stack<Ty>>, st: Stack<Ty>)
    requires Reached(code, types.Keys, ofs) && Decode(code, ofs).Some?
    requires SavedEnough(code, types, ofs, saved)
    ensures
      var l := Decode(code, ofs).value;
      SavedEnough(code, types, l.next, SaveAll(saved, l.targets, l.next, st))
  {
    var l := Decode(code, ofs).value;
    var saved' := SaveAll(saved, l.targets, l.next, st);
    SavedAll(saved, l.targets, l.next, st);
    forall q, t | q in types.Keys && t in types && q < l.next && Jumps(code, q, t) ensures t in saved' {
      if q >= ofs {
        NoneBetween(code, types.Keys, ofs, q);
        assert t in l.targets && t > l.next;
      } else {
        assert t in saved;
      }
    }
  }

  lemma EmitKeepsTypes(sig: Signature, code: seq<U8>, types: map<nat, Stack<Width>>, ofs: nat, j: Pass)
    requires Typed(sig, code, types) && ofs in types && Reached(code, types.Keys, ofs)
    requires TypedAt(sig, code, types, ofs) && Harmless(code, types, ofs)
    requires Knows(code, types, ofs, j)
    ensures
      var l := Decode(code, ofs).value;
      Emit(sig, ofs, l, j).Some? && Knows(code, types, l.next, Emit(sig, ofs, l, j).value)
  {
    var l := Decode(code, ofs).value;
    SelectedLeadsTo(sig, code, types, ofs, j.stack);
    var after := Select(sig, l, j.stack).value.after;
    var saved := SaveAll(j.saved, l.targets, l.next, after);
    SavedAll(j.saved, l.targets, l.next, after);
    SaveKeepsEnough(code, types, ofs, j.saved, after);
    assert SavedRight(types, saved);
    if Unconditional(l) && l.next in types && l.next !in saved {
      Forgotten(sig, code, types, ofs, j.saved);
    }
  }

  lemma EmitKeepsBounds(sig: Signature, ofs: nat, l: Line, j: Pass)
    requires Emit(sig, ofs, l, j).Some? && Bounded(j)
    ensures Bounded(Emit(sig, ofs, l, j).value) && j.maxBytes <= Emit(sig, ofs, l, j).value.maxBytes
  {
    var f := Select(sig, l, j.stack).value;
    SavedAll(j.saved, l.targets, l.next, f.after);
    if !f.pushed {
      PopsShrink(sig, l, j.stack);
    }
  }

  // ---------------------------------------------------------------- the whole body

  ghost predicate AllHarmless(sig: Signature, code: seq<U8>, types: map<nat, Stack<Width>>) {
    Typed(sig, code, types) && forall o <- types.Keys :: TypedAt(sig, code, types, o) && Harmless(code, types, o)
  }

  ghost predicate TracksRight(types: map<nat, Stack<Width>>, ofs: nat, tracks: map<nat, Stack<Ty>>, max: nat) {
    && (forall o <- tracks :: o in types && Widths(tracks[o]) == types[o] && TypeBytes(tracks[o]) <= max)
    && (forall o <- types.Keys :: o >= ofs ==> o in tracks)
  }

  lemma TracksOneMore(code: seq<U8>, types: map<nat, Stack<Width>>, ofs: nat, st: Stack<Ty>, tracks: map<nat, Stack<Ty>>, max: nat)
    requires ofs in types && Reached(code, types.Keys, ofs) && Decode(code, ofs).Some?
    requires Widths(st) == types[ofs] && TypeBytes(st) <= max
    requires TracksRight(types, Decode(code, ofs).value.next, tracks, max)
    ensures TracksRight(types, ofs, tracks[ofs := st], max)
  {
    forall o | o in types && o >= ofs ensures o in tracks[ofs := st] {
      if o < Decode(code, ofs).value.next {
        NoneBetween(code, types.Keys, ofs, o);
      }
    }
  }

  // Every type stack tracked is that of the typing, and fits the stack size recorded.
  lemma {:induction false} PassTracksTypes(sig: Signature, code: seq<U8>, types: map<nat, Stack<Width>>, ofs: nat, j: Pass)
    requires AllHarmless(sig, code, types) && ofs in types && Reached(code, types.Keys, ofs)
    requires Knows(code, types, ofs, j) && Bounded(j)
    ensures EmitFrom(sig, code, ofs, j).Some? && j.maxBytes <= EmitFrom(sig, code, ofs, j).value.maxBytes
    ensures TracksRight(types, ofs, TracksFrom(sig, code, ofs, j), EmitFrom(sig, code, ofs, j).value.maxBytes)
    decreases |code| - ofs
  {
    var l := Decode(code, ofs).value;
    EmitKeepsTypes(sig, code, types, ofs, j);
    EmitKeepsBounds(sig, ofs, l, j);
    var j' := Emit(sig, ofs, l, j).value;
    ReachedNext(code, types.Keys, ofs);
    var max := j'.maxBytes;
    if l.next < |code| {
      PassTracksTypes(sig, code, types, l.next, j');
      max := EmitFrom(sig, code, l.next, j').value.maxBytes;
    } else {
      NothingBehind(sig, code, types, l.next, j', max);
    }
    TracksOneMore(code, types, ofs, j.stack, TracksFrom(sig, code, l.next, j'), max);
  }

  lemma NothingBehind(sig: Signature, code: seq<U8>, types: map<nat, Stack<Width>>, ofs: nat, j: Pass, max: nat)
    requires Reached(code, types.Keys, ofs) && ofs >= |code|
    ensures TracksRight(types, ofs, TracksFrom(sig, code, ofs, j), max)
  {
  }

  // The instruction at o brings a stack of these types to that size.
  predicate GrowsTo(sig: Signature, code: seq<U8>, o: nat, st: Stack<Ty>, size: nat) {
    && Decode(code, o).Some?
    && var f := Select(sig, Decode(code, o).value, st);
       f.Some? && TypeBytes(f.value.after) == size
  }

  lemma {:induction false} TracksLieBehind(sig: Signature, code: seq<U8>, ofs: nat, j: Pass)
    ensures forall o <- TracksFrom(sig, code, ofs, j) :: o >= ofs
    decreases |code| - ofs
  {
    if Decode(code, ofs).Some? && Emit(sig, ofs, Decode(code, ofs).value, j).Some? {
      TracksLieBehind(sig, code, Decode(code, ofs).value.next, Emit(sig, ofs, Decode(code, ofs).value, j).value);
    }
  }

  // The size is the one there was, or some instruction needs it all.
  ghost predicate Needed(sig: Signature, code: seq<U8>, tracks: map<nat, Stack<Ty>>, was: nat, size: nat) {
    size == was || exists o :: o in tracks && GrowsTo(sig, code, o, tracks[o], size)
  }

  lemma EmitRecords(sig: Signature, code: seq<U8>, ofs: nat, l: Line, j: Pass)
    requires Decode(code, ofs) == Some(l) && Emit(sig, ofs, l, j).Some?
    ensures
      var max := Emit(sig, ofs, l, j).value.maxBytes;
      max == j.maxBytes || GrowsTo(sig, code, ofs, j.stack, max)
  {
  }

  // One more instruction in front of others.
  lemma NeededByMore(sig: Signature, code: seq<U8>, ofs: nat, st: Stack<Ty>, rest: map<nat, Stack<Ty>>, was: nat, via: nat, max: nat)
    requires ofs !in rest && (via == was || GrowsTo(sig, code, ofs, st, via)) && Needed(sig, code, rest, via, max)
    ensures Needed(sig, code, rest[ofs := st], was, max)
  {
    var tracks := rest[ofs := st];
    if max == via {
      assert ofs in tracks && tracks[ofs] == st;
    } else {
      var o :| o in rest && GrowsTo(sig, code, o, rest[o], max);
      assert o in tracks && tracks[o] == rest[o];
    }
  }

  lemma PassUnfolds(sig: Signature, code: seq<U8>, ofs: nat, j: Pass, l: Line, j': Pass)
    requires Decode(code, ofs) == Some(l) && Emit(sig, ofs, l, j) == Some(j')
    ensures EmitFrom(sig, code, ofs, j) == if l.next < |code| then EmitFrom(sig, code, l.next, j') else Some(j')
    ensures TracksFrom(sig, code, ofs, j) == TracksFrom(sig, code, l.next, j')[ofs := j.stack]
    ensures l.next >= |code| ==> TracksFrom(sig, code, l.next, j') == map[]
  {
  }

  // The stack size recorded is no larger than it has to be.
  lemma {:induction false} RecordedSizeIsNeeded(sig: Signature, code: seq<U8>, ofs: nat, j: Pass)
    requires EmitFrom(sig, code, ofs, j).Some?
    ensures Needed(sig, code, TracksFrom(sig, code, ofs, j), j.maxBytes, EmitFrom(sig, code, ofs, j).value.maxBytes)
    decreases |code| - ofs
  {
    var l := Decode(code, ofs).value;
    var j' := Emit(sig, ofs, l, j).value;
    PassUnfolds(sig, code, ofs, j, l, j');
    EmitRecords(sig, code, ofs, l, j);
    if l.next < |code| {
      RecordedSizeIsNeeded(sig, code, l.next, j');
    }
    TracksLieBehind(sig, code, l.next, j');
    NeededByMore(sig, code, ofs, j.stack, TracksFrom(sig, code, l.next, j'), j.maxBytes, j'.maxBytes,
                 EmitFrom(sig, code, ofs, j).value.maxBytes);
  }

  // The single pass agrees with the typing of the whole method body at every instruction, and the size it records
  // bounds the stack at each of them.
  lemma TrackedTypesAreRight(sig: Signature, code: seq<U8>, types: map<nat, Stack<Width>>)
    requires AllHarmless(sig, code, types)
    ensures EmitFrom(sig, code, 0, START).Some?
    ensures
      var tracks, max := TracksFrom(sig, code, 0, START), EmitFrom(sig, code, 0, START).value.maxBytes;
      && tracks.Keys == types.Keys
      && forall o <- types.Keys :: Widths(tracks[o]) == types[o] && WidthBytes(types[o]) <= max
  {
    StartsAhead(code, 0);
    PassTracksTypes(sig, code, types, 0, START);
    var tracks := TracksFrom(sig, code, 0, START);
    forall o | o in types ensures o in tracks && WidthBytes(types[o]) == TypeBytes(tracks[o]) {
      BytesOfWidths(tracks[o]);
    }
  }

  // ---------------------------------------------------------------- exactly when

  // Only targets of instructions already translated have a stack kept for them.
  ghost predicate SavedOnly(code: seq<U8>, starts: set<nat>, ofs: nat, saved: map<nat, Stack<Ty>>) {
    forall t <- saved :: exists q <- starts :: q < ofs && BranchesTo(code, q, t)
  }

  lemma SaveKeepsOnly(code: seq<U8>, starts: set<nat>, ofs: nat, saved: map<nat, Stack<Ty>>, st: Stack<Ty>)
    requires SavedOnly(code, starts, ofs, saved) && ofs in starts && Decode(code, ofs).Some?
    ensures
      var l := Decode(code, ofs).value;
      SavedOnly(code, starts, l.next, SaveAll(saved, l.targets, l.next, st))
  {
    var l := Decode(code, ofs).value;
    var saved' := SaveAll(saved, l.targets, l.next, st);
    SavedAll(saved, l.targets, l.next, st);
    forall t | t in saved' ensures exists q <- starts :: q < l.next && BranchesTo(code, q, t) {
      if t in l.targets {
        assert BranchesTo(code, ofs, t);
      } else {
        var q :| q in starts && q < ofs && BranchesTo(code, q, t);
      }
    }
  }

  // One instruction follows another to the end of the body.
  ghost predicate Chained(code: seq<U8>, starts: set<nat>) {
    forall p <- starts :: ChainedAt(code, starts, p)
  }

  ghost predicate ChainedAt(code: seq<U8>, starts: set<nat>, p: nat) {
    Decode(code, p).Some? && (Decode(code, p).value.next in starts || Decode(code, p).value.next == |code|)
  }

  lemma SuccessorStarts(code: seq<U8>, starts: set<nat>, ofs: nat, o: nat)
    requires ChainedAt(code, starts, ofs) && o in starts && Reached(code, starts, ofs) && ofs < o
    ensures Decode(code, ofs).value.next in starts && Decode(code, ofs).value.next <= o
  {
    var n := Decode(code, ofs).value.next;
    assert o in Starts(code, ofs) && o in Starts(code, n);
    StartsAhead(code, n);
  }

  // An unconditional branch has one target, a return none.
  lemma OneTarget(code: seq<U8>, o: nat)
    requires Decode(code, o).Some? && Unconditional(Decode(code, o).value)
    ensures |Decode(code, o).value.targets| <= 1
  {
  }

  lemma LostHere(sig: Signature, code: seq<U8>, starts: set<nat>, o: nat, j: Pass)
    requires SavedOnly(code, starts, o, j.saved) && Decode(code, o).Some?
    requires Unconditional(Decode(code, o).value)
    requires forall q <- starts :: q < o ==> !BranchesTo(code, q, Decode(code, o).value.next)
    ensures
      var l := Decode(code, o).value;
      var j' := Emit(sig, o, l, j);
      j'.Some? ==> j'.value.stack == Stack.Empty
  {
    var l := Decode(code, o).value;
    if Emit(sig, o, l, j).Some? {
      var after := Select(sig, l, j.stack).value.after;
      SavedAll(j.saved, l.targets, l.next, after);
      OneTarget(code, o);
      assert l.next !in SaveAll(j.saved, l.targets, l.next, after);
    }
  }

  // One instruction further on the way to the one at o.
  lemma OneFurther(sig: Signature, code: seq<U8>, starts: set<nat>, ofs: nat, j: Pass, o: nat)
    requires ofs in starts && o in starts && ChainedAt(code, starts, ofs)
    requires Reached(code, starts, ofs) && SavedOnly(code, starts, ofs, j.saved) && ofs < o
    requires Emit(sig, ofs, Decode(code, ofs).value, j).Some?
    ensures
      var l := Decode(code, ofs).value;
      && l.next in starts && l.next <= o && Reached(code, starts, l.next)
      && SavedOnly(code, starts, l.next, Emit(sig, ofs, l, j).value.saved)
  {
    SaveKeepsOnly(code, starts, ofs, j.saved, Select(sig, Decode(code, ofs).value, j.stack).value.after);
    ReachedNext(code, starts, ofs);
    SuccessorStarts(code, starts, ofs, o);
  }

  // The instruction at o branches unconditionally; n follows it, and no earlier instruction branches there.
  ghost predicate OnlyFrom(code: seq<U8>, starts: set<nat>, o: nat, n: nat) {
    && Decode(code, o).Some? && n == Decode(code, o).value.next && Unconditional(Decode(code, o).value)
    && forall q <- starts :: q < o ==> !BranchesTo(code, q, n)
  }

  // The stack tracked at n is empty, if one is tracked there at all.
  ghost predicate EmptyAt(tracks: map<nat, Stack<Ty>>, n: nat) {
    n in tracks ==> tracks[n] == Stack.Empty
  }

  lemma EmptyLater(sig: Signature, code: seq<U8>, ofs: nat, j: Pass, n: nat)
    requires ofs < n && Decode(code, ofs).Some?
    requires Emit(sig, ofs, Decode(code, ofs).value, j).Some? ==>
               EmptyAt(TracksFrom(sig, code, Decode(code, ofs).value.next, Emit(sig, ofs, Decode(code, ofs).value, j).value), n)
    ensures EmptyAt(TracksFrom(sig, code, ofs, j), n)
  {
  }

  lemma EmptyNow(sig: Signature, code: seq<U8>, ofs: nat, j: Pass)
    requires j.stack == Stack.Empty
    ensures EmptyAt(TracksFrom(sig, code, ofs, j), ofs)
  {
  }

  lemma PassForgetsHere(sig: Signature, code: seq<U8>, starts: set<nat>, j: Pass, o: nat, n: nat)
    requires SavedOnly(code, starts, o, j.saved) && OnlyFrom(code, starts, o, n)
    ensures EmptyAt(TracksFrom(sig, code, o, j), n)
  {
    var l := Decode(code, o).value;
    if Emit(sig, o, l, j).Some? {
      LostHere(sig, code, starts, o, j);
      EmptyNow(sig, code, n, Emit(sig, o, l, j).value);
    }
    EmptyLater(sig, code, o, j, n);
  }

  // There the stack is lost.
  lemma {:induction false} PassForgets(sig: Signature, code: seq<U8>, starts: set<nat>, ofs: nat, j: Pass, o: nat, n: nat)
    requires Chained(code, starts) && Reached(code, starts, ofs) && SavedOnly(code, starts, ofs, j.saved)
    requires ofs in starts && o in starts && ofs <= o && OnlyFrom(code, starts, o, n)
    ensures EmptyAt(TracksFrom(sig, code, ofs, j), n)
    decreases o - ofs
  {
    if ofs == o {
      PassForgetsHere(sig, code, starts, j, o, n);
    } else {
      assert ChainedAt(code, starts, ofs);
      var l := Decode(code, ofs).value;
      if Emit(sig, ofs, l, j).Some? {
        OneFurther(sig, code, starts, ofs, j, o);
        PassForgets(sig, code, starts, l.next, Emit(sig, ofs, l, j).value, o, n);
      }
      EmptyLater(sig, code, ofs, j, n);
    }
  }

  lemma TypedIsChained(sig: Signature, code: seq<U8>, types: map<nat, Stack<Width>>)
    requires Typed(sig, code, types)
    ensures Chained(code, types.Keys)
  {
  }

  ghost predicate PassIsRight(sig: Signature, code: seq<U8>, types: map<nat, Stack<Width>>) {
    && EmitFrom(sig, code, 0, START).Some?
    && var tracks := TracksFrom(sig, code, 0, START);
    && tracks.Keys == types.Keys
    && forall o <- types.Keys :: Widths(tracks[o]) == types[o]
  }

  // The pass is right exactly when no unconditional branch to the very next instruction does harm.
  lemma PassIsRightExactlyWhenHarmless(sig: Signature, code: seq<U8>, types: map<nat, Stack<Width>>)
    requires Typed(sig, code, types)
    ensures PassIsRight(sig, code, types) <==> forall o <- types.Keys :: Decode(code, o).Some? && Harmless(code, types, o)
  {
    if forall o <- types.Keys :: Decode(code, o).Some? && Harmless(code, types, o) {
      TrackedTypesAreRight(sig, code, types);
    }
    if PassIsRight(sig, code, types) {
      forall o | o in types ensures Decode(code, o).Some? && Harmless(code, types, o) {
        assert TypedAt(sig, code, types, o);
        if !Harmless(code, types, o) {
          StartsAhead(code, 0);
          TypedIsChained(sig, code, types);
          PassForgets(sig, code, types.Keys, 0, START, o, Decode(code, o).value.next);
        }
      }
    }
  }

  // An example: ldc.i4.1; br.s to the next instruction; ret. It is well typed with the number on the stack before the
  // return, and the pass tracks an empty stack there.
  const FORGETS: seq<U8> := [0x17, 0x2b, 0x00, 0x2a]
  const RETURNS_NUMBER := Signature([], [], Some(Int32))

  lemma ThreeInstructions()
    ensures Decode(FORGETS, 0) == Some(Line(0x17, 0, [], 1))
    ensures Decode(FORGETS, 1) == Some(Line(0x2b, 0, [3], 3))
    ensures Decode(FORGETS, 3) == Some(Line(0x2a, 0, [], 4))
  {
    WithoutOperand(FORGETS, 0);
    ShortBranch(FORGETS, 1);
    WithoutOperand(FORGETS, 3);
  }

  lemma WithoutOperand(code: seq<U8>, ofs: nat)
    requires ofs < |code| && code[ofs] != 0xfe && OperandOf(code[ofs]) == Some(NoOperand)
    ensures Decode(code, ofs) == Some(Line(code[ofs], 0, [], ofs + 1))
  {
  }

  lemma ShortBranch(code: seq<U8>, ofs: nat)
    requires ofs + 1 < |code| < M32 && 0x2b <= code[ofs] <= 0x37 && code[ofs + 1] == 0
    ensures Decode(code, ofs) == Some(Line(code[ofs], 0, [ofs + 2], ofs + 2))
  {
    assert Read(code, ofs + 1, 1) == code[ofs + 1] + 0x100 * Read(code, ofs + 2, 0);
    assert Target(ofs + 2, 0) == ofs + 2;
  }

  lemma ThreeStarts()
    ensures Starts(FORGETS, 0) == {0, 1, 3}
  {
    ThreeInstructions();
    assert Starts(FORGETS, 4) == {} && Starts(FORGETS, 3) == {3} && Starts(FORGETS, 1) == {1, 3};
  }

  lemma PassForgetsNumber(types: map<nat, Stack<Width>>)
    requires types == map[0 := Stack.Empty, 1 := Push(W32, Stack.Empty), 3 := Push(W32, Stack.Empty)]
    ensures Typed(RETURNS_NUMBER, FORGETS, types) && !PassIsRight(RETURNS_NUMBER, FORGETS, types)
  {
    NumberIsTyped(types);
    NumberIsHarmed(types);
    PassIsRightExactlyWhenHarmless(RETURNS_NUMBER, FORGETS, types);
  }

  lemma NumberIsTyped(types: map<nat, Stack<Width>>)
    requires types == map[0 := Stack.Empty, 1 := Push(W32, Stack.Empty), 3 := Push(W32, Stack.Empty)]
    ensures Typed(RETURNS_NUMBER, FORGETS, types)
  {
    ThreeInstructions();
    ThreeStarts();
    NumberFlows();
    assert TypedAt(RETURNS_NUMBER, FORGETS, types, 0);
    assert BranchesTo(FORGETS, 1, 3) && ForwardTarget(FORGETS, types.Keys, 1, 3);
    assert TypedAt(RETURNS_NUMBER, FORGETS, types, 1);
    assert TypedAt(RETURNS_NUMBER, FORGETS, types, 3);
  }

  lemma NumberFlows()
    ensures Flow(RETURNS_NUMBER, Meaning(Line(0x17, 0, [], 1)), Stack.Empty) == Some(Push(W32, Stack.Empty))
    ensures Flow(RETURNS_NUMBER, Meaning(Line(0x2b, 0, [3], 3)), Push(W32, Stack.Empty)) == Some(Push(W32, Stack.Empty))
    ensures Flow(RETURNS_NUMBER, Meaning(Line(0x2a, 0, [], 4)), Push(W32, Stack.Empty)).Some?
  {
    assert Meaning(Line(0x17, 0, [], 1)) == Const32(1);
    assert Meaning(Line(0x2b, 0, [3], 3)) == Branch(3);
    assert Meaning(Line(0x2a, 0, [], 4)) == Instr.Return;
  }

  lemma NumberIsHarmed(types: map<nat, Stack<Width>>)
    requires types == map[0 := Stack.Empty, 1 := Push(W32, Stack.Empty), 3 := Push(W32, Stack.Empty)]
    ensures Decode(FORGETS, 1).Some? && !Harmless(FORGETS, types, 1)
  {
    ThreeInstructions();
    forall q | q in types.Keys && q < 1 ensures !BranchesTo(FORGETS, q, 3) {
      assert q == 0;
    }
  }
}
