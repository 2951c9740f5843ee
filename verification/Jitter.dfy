/**
 The translator as it works in place: one loop over the method body that fills arrays as it goes, and one
 loop over the branches that rewrites their operands.
 */
module Jitter {
  import opened Options
  import opened Cil
  import opened Interpreter
  import opened Translator
  import opened TypeTracking
  import opened EmittedCode
  import opened Translation

  // Branches lead to instructions of the body.
  ghost predicate BranchesInside(code: seq<U8>) {
    forall o <- Starts(code, 0) :: forall t | BranchesTo(code, o, t) :: t in Starts(code, 0)
  }

  // The array holds a stack for each offset that the map does.
  ghost predicate Keeps(stacks: seq<Option<Stack<Ty>>>, saved: map<nat, Stack<Ty>>) {
    forall i :: 0 <= i < |stacks| ==> stacks[i] == if i in saved then Some(saved[i]) else None
  }

  ghost predicate Records(indices: seq<nat>, offsets: map<nat, nat>) {
    forall o <- offsets :: o < |indices| && indices[o] == offsets[o]
  }

  // Keeps a copy of the type stack for each target ahead of the cursor.
  method CopyTypeStacks(typeStacks: array<Option<Stack<Ty>>>, targets: seq<nat>, next: nat, st: Stack<Ty>,
                        ghost saved: map<nat, Stack<Ty>>)
    requires Keeps(typeStacks[..], saved) && forall t <- targets :: t < typeStacks.Length
    modifies typeStacks
    ensures Keeps(typeStacks[..], SaveAll(saved, targets, next, st))
  {
    ghost var m: map<nat, Stack<Ty>> := saved;
    for i := 0 to |targets|
      invariant Keeps(typeStacks[..], m)
      invariant SaveAll(m, targets[i..], next, st) == SaveAll(saved, targets, next, st)
    {
      assert targets[i..][1..] == targets[i + 1..];
      assert targets[i] in targets;
      if targets[i] + 4 * (|targets| - 1 - i) > next {
        typeStacks[targets[i]] := Some(st);
        m := m[targets[i] := st];
      }
    }
  }

  method RestoreTypeStack(kept: Option<Stack<Ty>>) returns (st: Stack<Ty>)
    ensures st == if kept.Some? then kept.value else Stack.Empty
  {
    match kept
    case None => st := Stack.Empty;
    case Some(copy) => st := copy;
  }

  // Replaces each branch target, so far an offset in the method body, by the index of its first op.
  method FixBranches(ops: array<nat>, branches: seq<nat>, jitOffsets: array<nat>, ghost offsets: map<nat, nat>)
    requires Records(jitOffsets[..], offsets) && Fixed(ops[..], branches, offsets).Some? && ops != jitOffsets
    modifies ops
    ensures Some(ops[..]) == old(Fixed(ops[..], branches, offsets))
  {
    for i := 0 to |branches|
      invariant Records(jitOffsets[..], offsets)
      invariant Fixed(ops[..], branches[i..], offsets) == old(Fixed(ops[..], branches, offsets))
    {
      var p := branches[i];
      assert branches[i..][1..] == branches[i + 1..];
      ghost var before := ops[..];
      ops[p] := jitOffsets[ops[p]];
      assert ops[..] == before[p := offsets[before[p]]];
    }
    assert branches[|branches|..] == [];
  }

  lemma {:induction false} StartsWithin(code: seq<U8>, ofs: nat)
    ensures forall o <- Starts(code, ofs) :: o < |code|
    decreases |code| - ofs
  {
    if Decode(code, ofs).Some? {
      StartsWithin(code, Decode(code, ofs).value.next);
    }
  }

  lemma TargetsWithin(code: seq<U8>, ofs: nat)
    requires BranchesInside(code) && ofs in Starts(code, 0) && Decode(code, ofs).Some?
    ensures forall t <- Decode(code, ofs).value.targets :: t < |code|
  {
    StartsWithin(code, 0);
    forall t | t in Decode(code, ofs).value.targets ensures t in Starts(code, 0) {
      assert BranchesTo(code, ofs, t);
    }
  }

  // The pass has recorded the index of every instruction, one after the other to the end of the body.
  lemma {:induction false} PassCovers(sig: Signature, code: seq<U8>, ofs: nat, j: Pass)
    requires EmitFrom(sig, code, ofs, j).Some?
    ensures TracksFrom(sig, code, ofs, j).Keys == Starts(code, ofs) && Chained(code, Starts(code, ofs)) && ofs in Starts(code, ofs)
    decreases |code| - ofs
  {
    var l := Decode(code, ofs).value;
    if l.next < |code| {
      PassCovers(sig, code, l.next, Emit(sig, ofs, l, j).value);
      forall p | p in Starts(code, ofs) ensures ChainedAt(code, Starts(code, ofs), p) {
        if p != ofs {
          assert ChainedAt(code, Starts(code, l.next), p);
        }
      }
    }
  }

  lemma FixUpsDefined(sig: Signature, code: seq<U8>)
    requires BranchesInside(code) && EmitFrom(sig, code, 0, START).Some?
    ensures var k := EmitFrom(sig, code, 0, START).value; Fixed(k.ops, k.branches, k.offsets).Some?
  {
    var k := EmitFrom(sig, code, 0, START).value;
    PassCovers(sig, code, 0, START);
    CodeEverywhere(sig, code, 0, START);
    PassExtends(sig, code, 0, START);
    PassHoldsKnown(sig, code, Starts(code, 0), 0, START, Starts(code, 0));
    FixedAt(k.ops, k.branches, k.offsets);
  }

  // What the pass builds up. The arrays have a slot for every offset, and typeStacks one more, for a stack that is
  // restored after the last instruction.
  class Builder {
    var ops: seq<nat>
    var stack: Stack<Ty>
    var maxBytes: nat
    var branches: seq<nat>
    const jitOffsets: array<nat>
    const typeStacks: array<Option<Stack<Ty>>>
    ghost var pass: Pass

    ghost predicate Valid()
      reads this, jitOffsets, typeStacks
    {
      && typeStacks.Length == jitOffsets.Length + 1
      && Keeps(typeStacks[..], pass.saved) && Records(jitOffsets[..], pass.offsets)
      && pass == Pass(ops, stack, maxBytes, pass.offsets, pass.saved, branches)
    }

    constructor (codeSize: nat)
      ensures Valid() && pass == START && jitOffsets.Length == codeSize && fresh(jitOffsets) && fresh(typeStacks)
    {
      ops, stack, maxBytes, branches := [], Stack.Empty, 0, [];
      jitOffsets := new nat[codeSize](_ => 0);
      typeStacks := new Option<Stack<Ty>>[codeSize + 1](_ => None);
      pass := START;
    }

    // One turn of the loop, with the words selected for the instruction.
    method EmitWords(ofs: nat, l: Line, f: Selected)
      requires Valid() && ofs < jitOffsets.Length && l.next < typeStacks.Length
      requires forall t <- l.targets :: t < typeStacks.Length
      modifies this, jitOffsets, typeStacks
      ensures Valid() && pass == Append(ofs, l, f, old(pass))
    {
      jitOffsets[ofs] := |ops|;
      CopyTypeStacks(typeStacks, l.targets, l.next, f.after, pass.saved);
      var size := TypeBytes(f.after);
      if f.pushed && size > maxBytes {
        maxBytes := size;
      }
      var end := |ops| + |f.words|;
      branches := branches + Range(if f.holes <= end then end - f.holes else 0, f.holes);
      ops := ops + f.words;
      stack := f.after;
      if Unconditional(l) {
        stack := RestoreTypeStack(typeStacks[l.next]);
      }
      pass := Append(ofs, l, f, pass);
    }
  }

  // The pass over the body, until it ends or an instruction cannot be translated.
  method RunPass(sig: Signature, code: seq<U8>, b: Builder) returns (ok: bool)
    requires |code| > 0 && BranchesInside(code)
    requires b.Valid() && b.pass == START && b.jitOffsets.Length == |code|
    modifies b, b.jitOffsets, b.typeStacks
    ensures b.Valid() && EmitFrom(sig, code, 0, START) == if ok then Some(b.pass) else None
  {
    var cilOfs := 0;
    while cilOfs < |code|
      invariant b.Valid() && cilOfs <= |code|
      invariant EmitFrom(sig, code, 0, START) == if cilOfs < |code| then EmitFrom(sig, code, cilOfs, b.pass) else Some(b.pass)
      invariant Starts(code, cilOfs) <= Starts(code, 0)
      decreases |code| - cilOfs
    {
      var decoded := Decode(code, cilOfs);
      if decoded.None? {
        return false;
      }
      var l := decoded.value;
      var selected := Select(sig, l, b.stack);
      if selected.None? {
        return false;
      }
      assert cilOfs in Starts(code, cilOfs);
      TargetsWithin(code, cilOfs);
      b.EmitWords(cilOfs, l, selected.value);
      cilOfs := l.next;
    }
    ok := true;
  }

  method JITit(sig: Signature, code: seq<U8>) returns (r: Option<Jitted>)
    requires |code| > 0 && BranchesInside(code)
    ensures r == Translate(sig, code)
  {
    var b := new Builder(|code|);
    var ok := RunPass(sig, code, b);
    if !ok {
      return None;
    }
    FixUpsDefined(sig, code);
    var ops := b.ops;
    var finalOps := new nat[|ops|](i requires 0 <= i < |ops| => ops[i]);
    assert finalOps[..] == ops;
    FixBranches(finalOps, b.branches, b.jitOffsets, b.pass.offsets);
    return Some(Jitted(finalOps[..], b.maxBytes));
  }
}
