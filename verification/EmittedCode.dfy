/**
 Where the words of each instruction end up: after the pass, and after every branch operand has been
 rewritten to the index of the first op of its target.
 */
module EmittedCode {
  import opened MachineInts
  import opened Options
  import opened Cil
  import opened Interpreter
  import opened Translator
  import opened Simulation

  ghost predicate Increasing(s: seq<nat>) {
    forall i, j :: 0 <= i < j < |s| ==> s[i] < s[j]
  }

  // The pass before the instruction at ofs.
  ghost predicate Sane(ofs: nat, j: Pass) {
    && Increasing(j.branches) && (forall b <- j.branches :: b < |j.ops|)
    && (forall o <- j.offsets :: o < ofs)
  }

  // k contains what j does, and whatever it adds lies behind.
  ghost predicate Extends(j: Pass, k: Pass) {
    && |j.ops| <= |k.ops| && k.ops[..|j.ops|] == j.ops
    && (forall b <- j.branches :: b in k.branches)
    && (forall b <- k.branches :: b < |j.ops| ==> b in j.branches)
    && (forall o <- j.offsets :: o in k.offsets && k.offsets[o] == j.offsets[o])
  }

  lemma ExtendsTransitive(a: Pass, b: Pass, c: Pass)
    requires Extends(a, b) && Extends(b, c)
    ensures Extends(a, c)
  {
  }

  // The last words of an instruction are its branch targets.
  ghost predicate TargetsLast(f: Selected, targets: seq<nat>) {
    f.holes == |targets| <= |f.words| && f.words[|f.words| - f.holes..] == targets
  }

  lemma BranchTargetLast(sig: Signature, l: Line, st: Stack<Ty>)
    requires Shaped(l) && Select(sig, l, st).Some? && 0x2b <= l.op <= 0x44
    ensures TargetsLast(Select(sig, l, st).value, l.targets)
  {
    var f := Select(sig, l, st).value;
    if l.op == 0x2b || l.op == 0x38 {
      BranchSelected(JIT_BRANCH, l, st, f);
    } else if l.op <= 0x2d {
      BranchIfSelected(0x2c, l, st, f);
    } else if l.op <= 0x37 {
      BranchOnSelected(0x2e, l, st, f);
    } else if l.op <= 0x3a {
      BranchIfSelected(0x39, l, st, f);
    } else {
      BranchOnSelected(0x3b, l, st, f);
    }
  }

  lemma BranchSelected(word: nat, l: Line, after: Stack<Ty>, f: Selected)
    requires SelectBranch(word, l, after) == Some(f)
    ensures TargetsLast(f, l.targets)
  {
    assert l.targets == [l.targets[0]] == [word, l.targets[0]][1..];
  }

  lemma BranchIfSelected(first: nat, l: Line, st: Stack<Ty>, f: Selected)
    requires first <= l.op && SelectBranchIf(first, l, st) == Some(f)
    ensures TargetsLast(f, l.targets)
  {
    BranchSelected((if st.top.StackSize() == 4 then JIT_BRANCH_FALSE else JIT_BRANCH64_FALSE) + (l.op - first), l, st.below, f);
  }

  lemma BranchOnSelected(first: nat, l: Line, st: Stack<Ty>, f: Selected)
    requires first <= l.op && SelectBranchOn(first, l, st) == Some(f)
    ensures TargetsLast(f, l.targets)
  {
    var base := OfTwo(st, JIT_BEQ_I32I32, JIT_BEQ_I64I64).value;
    BranchSelected(base + (l.op - first), l, st.below.below, f);
  }

  lemma SwitchTargetsLast(sig: Signature, l: Line, st: Stack<Ty>)
    requires Shaped(l) && Select(sig, l, st).Some? && l.op == 0x45
    ensures TargetsLast(Select(sig, l, st).value, l.targets)
  {
  }

  lemma NoTargets(f: Selected)
    requires f.holes == 0
    ensures TargetsLast(f, [])
  {
  }

  lemma HolesAreTargets(sig: Signature, l: Line, st: Stack<Ty>)
    requires Shaped(l) && Select(sig, l, st).Some?
    ensures TargetsLast(Select(sig, l, st).value, l.targets)
  {
    if 0x2b <= l.op <= 0x44 {
      BranchTargetLast(sig, l, st);
    } else if l.op == 0x45 {
      SwitchTargetsLast(sig, l, st);
    } else {
      OpcodeArithmetic(sig, l, st, map[]);
      NoTargets(Select(sig, l, st).value);
    }
  }

  lemma IncreasingOnward(s: seq<nat>, first: nat, n: nat)
    requires Increasing(s) && forall x <- s :: x < first
    ensures Increasing(s + Range(first, n))
  {
    var t := s + Range(first, n);
    forall i, k | 0 <= i < k < |t| ensures t[i] < t[k] {
      if i < |s| <= k {
        assert s[i] in s;
      }
    }
  }

  // Adding the words of an instruction, the last ones holding its branch targets.
  lemma AppendExtends(ofs: nat, l: Line, f: Selected, j: Pass)
    requires Sane(ofs, j) && f.holes <= |f.words| && ofs < l.next
    ensures Sane(l.next, Append(ofs, l, f, j)) && Extends(j, Append(ofs, l, f, j))
  {
    var j' := Append(ofs, l, f, j);
    var first := |j.ops| + |f.words| - f.holes;
    assert j'.branches == j.branches + Range(first, f.holes);
    IncreasingOnward(j.branches, first, f.holes);
    assert ofs !in j.offsets;
    assert j'.ops[..|j.ops|] == j.ops;
  }

  lemma EmitExtends(sig: Signature, ofs: nat, l: Line, j: Pass)
    requires Shaped(l) && Emit(sig, ofs, l, j).Some? && Sane(ofs, j) && ofs < l.next
    ensures Sane(l.next, Emit(sig, ofs, l, j).value) && Extends(j, Emit(sig, ofs, l, j).value)
  {
    HolesAreTargets(sig, l, j.stack);
    AppendExtends(ofs, l, Select(sig, l, j.stack).value, j);
  }

  lemma {:induction false} PassExtends(sig: Signature, code: seq<U8>, ofs: nat, j: Pass)
    requires EmitFrom(sig, code, ofs, j).Some? && Sane(ofs, j)
    ensures
      var k := EmitFrom(sig, code, ofs, j).value;
      Extends(j, k) && ofs in k.offsets && k.offsets[ofs] == |j.ops| && Increasing(k.branches) && forall b <- k.branches :: b < |k.ops|
    decreases |code| - ofs
  {
    var l := Decode(code, ofs).value;
    DecodedIsShaped(code, ofs);
    EmitExtends(sig, ofs, l, j);
    var j' := Emit(sig, ofs, l, j).value;
    if l.next < |code| {
      PassExtends(sig, code, l.next, j');
      ExtendsTransitive(j, j', EmitFrom(sig, code, l.next, j').value);
    }
  }

  // These words stand at p, and the last ones are known to hold branch targets.
  ghost predicate Placed(words: seq<nat>, holes: nat, p: nat, k: Pass) {
    && p + |words| <= |k.ops| && k.ops[p..p + |words|] == words
    && forall i :: p <= i < p + |words| ==> (i in k.branches <==> i >= p + |words| - holes)
  }

  // The words of the instruction at o, which was translated with this stack of types.
  ghost predicate CodeAt(sig: Signature, code: seq<U8>, k: Pass, o: nat, st: Stack<Ty>) {
    && Decode(code, o).Some?
    && var l := Decode(code, o).value;
    && Select(sig, l, st).Some?
    && var f := Select(sig, l, st).value;
    && o in k.offsets && Placed(f.words, f.holes, k.offsets[o], k)
    && (l.next in k.offsets ==> k.offsets[l.next] == k.offsets[o] + |f.words|)
  }

  lemma HoleAt(branches: seq<nat>, first: nat, n: nat, i: nat)
    requires i < first + n && i !in branches
    ensures i in branches + Range(first, n) <==> i >= first
  {
    if i >= first {
      assert Range(first, n)[i - first] == i;
    }
  }

  lemma WordsPlaced(ofs: nat, l: Line, f: Selected, j: Pass, k: Pass)
    requires Sane(ofs, j) && f.holes <= |f.words| && Extends(Append(ofs, l, f, j), k)
    ensures Placed(f.words, f.holes, |j.ops|, k)
    ensures ofs in k.offsets && k.offsets[ofs] == |j.ops|
  {
    var p, n, j' := |j.ops|, |f.words|, Append(ofs, l, f, j);
    assert j'.branches == j.branches + Range(p + n - f.holes, f.holes);
    assert k.ops[p..p + n] == k.ops[..p + n][p..] == f.words;
    forall i | p <= i < p + n ensures i in k.branches <==> i >= p + n - f.holes {
      HoleAt(j.branches, p + n - f.holes, f.holes, i);
    }
  }

  lemma ExtendsItself(j: Pass)
    ensures Extends(j, j)
  {
  }

  // The pass goes on from the instruction at ofs to the one that follows it.
  lemma Onward(sig: Signature, code: seq<U8>, ofs: nat, j: Pass)
    requires EmitFrom(sig, code, ofs, j).Some? && Sane(ofs, j)
    ensures
      var l, k := Decode(code, ofs).value, EmitFrom(sig, code, ofs, j).value;
      && Shaped(l) && Emit(sig, ofs, l, j).Some?
      && var j' := Emit(sig, ofs, l, j).value;
      && Sane(l.next, j') && Extends(j', k)
      && (l.next < |code| ==> EmitFrom(sig, code, l.next, j') == Some(k) && l.next in k.offsets && k.offsets[l.next] == |j'.ops|)
      && (l.next >= |code| ==> k == j')
  {
    var l := Decode(code, ofs).value;
    DecodedIsShaped(code, ofs);
    EmitExtends(sig, ofs, l, j);
    var j' := Emit(sig, ofs, l, j).value;
    if l.next < |code| {
      PassExtends(sig, code, l.next, j');
    } else {
      ExtendsItself(j');
    }
  }

  // The instruction just translated.
  lemma CodeHere(sig: Signature, code: seq<U8>, ofs: nat, j: Pass)
    requires EmitFrom(sig, code, ofs, j).Some? && Sane(ofs, j)
    ensures CodeAt(sig, code, EmitFrom(sig, code, ofs, j).value, ofs, j.stack)
  {
    var l, k := Decode(code, ofs).value, EmitFrom(sig, code, ofs, j).value;
    Onward(sig, code, ofs, j);
    HolesAreTargets(sig, l, j.stack);
    WordsPlaced(ofs, l, Select(sig, l, j.stack).value, j, k);
  }

  // Every instruction of the pass.
  lemma {:induction false} CodeEverywhere(sig: Signature, code: seq<U8>, ofs: nat, j: Pass)
    requires EmitFrom(sig, code, ofs, j).Some? && Sane(ofs, j)
    ensures
      var k, tracks := EmitFrom(sig, code, ofs, j).value, TracksFrom(sig, code, ofs, j);
      && (forall o <- tracks :: CodeAt(sig, code, k, o, tracks[o]))
      && k.offsets.Keys == j.offsets.Keys + tracks.Keys
    decreases |code| - ofs
  {
    var l := Decode(code, ofs).value;
    Onward(sig, code, ofs, j);
    CodeHere(sig, code, ofs, j);
    if l.next < |code| {
      CodeEverywhere(sig, code, l.next, Emit(sig, ofs, l, j).value);
    }
  }
}
