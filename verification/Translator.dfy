/**
 The translator from the common intermediate language to internal opcodes: one forward pass that tracks
 the types on the evaluation stack, selects opcodes by arithmetic on their numbers, and afterwards
 rewrites the branch operands.
 */
module Translator {
  import opened MachineInts
  import opened Options
  import opened Cil
  import opened Interpreter

  function StackType(t: Ty): nat {
    if t.Width().W32? then EVALSTACK_INT32 else EVALSTACK_INT64
  }

  // Parameters, and then locals, lie one after the other.
  function OffsetOf(types: seq<Ty>, n: nat): nat
    requires n <= |types|
  {
    if n == 0 then 0 else OffsetOf(types, n - 1) + types[n - 1].StackSize()
  }

  function ParameterStackSize(sig: Signature): nat {
    OffsetOf(sig.args, |sig.args|)
  }

  // ---------------------------------------------------------------- selecting the opcode

  // What one instruction adds: its words, of which the last ones hold branch targets, and the stack of types
  // after it, which was pushed to or not.
  datatype Selected = Selected(words: seq<nat>, holes: nat, after: Stack<Ty>, pushed: bool)

  function Just(word: nat, after: Stack<Ty>, pushed: bool): Option<Selected> {
    Some(Selected([word], 0, after, pushed))
  }

  function SelectLoad(t: Ty, ofs: nat, st: Stack<Ty>): Option<Selected> {
    if t.StackSize() == 4 && ofs < 32 then Just(JIT_LOADPARAMLOCAL_0 + ofs / 4, Push(t, st), true)
    else Some(Selected([JIT_LOADPARAMLOCAL_TYPEID + StackType(t), ofs], 0, Push(t, st), true))
  }

  // The type is that on the stack, whatever the type of the variable.
  function SelectStore(ofs: nat, st: Stack<Ty>): Option<Selected> {
    if st.Empty? then None
    else if st.top.StackSize() == 4 && ofs < 32 then Just(JIT_STOREPARAMLOCAL_0 + ofs / 4, st.below, false)
    else Some(Selected([JIT_STOREPARAMLOCAL_TYPEID + StackType(st.top), ofs], 0, st.below, false))
  }

  function SelectLoadArg(sig: Signature, n: int, st: Stack<Ty>): Option<Selected> {
    if 0 <= n < |sig.args| then SelectLoad(sig.args[n], OffsetOf(sig.args, n), st) else None
  }

  function SelectStoreArg(sig: Signature, n: int, st: Stack<Ty>): Option<Selected> {
    if 0 <= n < |sig.args| then SelectStore(OffsetOf(sig.args, n), st) else None
  }

  function SelectLoadLocal(sig: Signature, n: int, st: Stack<Ty>): Option<Selected> {
    if 0 <= n < |sig.locals| then SelectLoad(sig.locals[n], ParameterStackSize(sig) + OffsetOf(sig.locals, n), st) else None
  }

  function SelectStoreLocal(sig: Signature, n: int, st: Stack<Ty>): Option<Selected> {
    if 0 <= n < |sig.locals| then SelectStore(ParameterStackSize(sig) + OffsetOf(sig.locals, n), st) else None
  }

  function SelectConstant(v: int, st: Stack<Ty>): Option<Selected> {
    if -1 <= v <= 2 then Just(JIT_LOAD_I4_0 + v, Push(Int32, st), true)
    else Some(Selected([JIT_LOAD_I32, Pattern(W32, v)], 0, Push(Int32, st), true))
  }

  function SelectBranch(word: nat, l: Line, after: Stack<Ty>): Option<Selected> {
    if |l.targets| == 1 then Some(Selected([word, l.targets[0]], 1, after, false)) else None
  }

  // brfalse and brtrue, whose short or long form starts at the opcode first.
  function SelectBranchIf(first: nat, l: Line, st: Stack<Ty>): Option<Selected>
    requires first <= l.op
  {
    if st.Empty? then None
    else SelectBranch((if st.top.StackSize() == 4 then JIT_BRANCH_FALSE else JIT_BRANCH64_FALSE) + (l.op - first), l, st.below)
  }

  // An opcode on two operands of the same stack type: the group of opcodes starts at one number or another.
  function OfTwo(st: Stack<Ty>, on32: nat, on64: nat): Option<nat> {
    if !HasTwo(st) then None
    else
      var b, a := StackType(st.top), StackType(st.below.top);
      if a == EVALSTACK_INT32 && b == EVALSTACK_INT32 then Some(on32)
      else if a == EVALSTACK_INT64 && b == EVALSTACK_INT64 then Some(on64)
      else None
  }

  function SelectBranchOn(first: nat, l: Line, st: Stack<Ty>): Option<Selected>
    requires first <= l.op
  {
    match OfTwo(st, JIT_BEQ_I32I32, JIT_BEQ_I64I64)
    case None => None
    case Some(base) => SelectBranch(base + (l.op - first), l, st.below.below)
  }

  function SelectArithmetic(op: nat, st: Stack<Ty>): Option<Selected>
    requires 0x58 <= op
  {
    match OfTwo(st, JIT_ADD_I32I32, JIT_ADD_I64I64)
    case None => None
    case Some(base) => Just(base + (op - 0x58), Push(st.below.top, st.below.below), true)
  }

  function SelectComparison(op: nat, st: Stack<Ty>): Option<Selected>
    requires 0xfe01 <= op
  {
    match OfTwo(st, JIT_CEQ_I32I32, JIT_CEQ_I64I64)
    case None => None
    case Some(base) => Just(base + (op - 0xfe01), Push(Int32, st.below.below), true)
  }

  // neg, not: the opcode follows from the type, and the result has the signed type.
  function SelectUnary(op: nat, st: Stack<Ty>): Option<Selected>
    requires 0x65 <= op
  {
    if st.Empty? then None
    else if StackType(st.top) == EVALSTACK_INT32 then Just(JIT_NEG_I32 + (op - 0x65), Push(Int32, st.below), true)
    else Just(JIT_NEG_I64 + (op - 0x65), Push(Int64, st.below), true)
  }

  // shl, shr, shr.un: the type of the shift count does not matter.
  function SelectShift(op: nat, st: Stack<Ty>): Option<Selected>
    requires 0x62 <= op
  {
    if !HasTwo(st) then None
    else if StackType(st.below.top) == EVALSTACK_INT32 then Just(JIT_SHL_I32 - 0x62 + op, Push(Int32, st.below.below), true)
    else Just(JIT_SHL_I64 - 0x62 + op, Push(Int64, st.below.below), true)
  }

  // The group of conversion opcodes, by the type converted from.
  function ConvertFrom(t: Ty): nat {
    if StackType(t) == EVALSTACK_INT64 then (if t.Int64? then JIT_CONV_FROM_I64 else JIT_CONV_FROM_U64)
    else if t.Byte? || t.UInt16? || t.UInt32? then JIT_CONV_FROM_U32
    else JIT_CONV_FROM_I32
  }

  function SelectSigned(bits: nat, to: Ty, st: Stack<Ty>): Option<Selected>
    requires bits <= 32
  {
    if st.Empty? then None
    else Some(Selected([ConvertFrom(st.top) + JIT_CONV_OFFSET_I32, 32 - bits], 0, Push(to, st.below), true))
  }

  // topBit is 1 << (bits - 1). The mask is (1 << bits) - 1, computed so that it works for 32 bits.
  function SelectUnsigned(topBit: nat, to: Ty, st: Stack<Ty>): Option<Selected>
    requires topBit > 0
  {
    if st.Empty? then None
    else Some(Selected([ConvertFrom(st.top) + JIT_CONV_OFFSET_U32, (topBit - 1) * 2 + 1], 0, Push(to, st.below), true))
  }

  function Select(sig: Signature, l: Line, st: Stack<Ty>): Option<Selected> {
    var op := l.op;
    if op == 0x00 then Just(JIT_NOP, st, false)
    else if op == 0x25 then
      if st.Empty? then None
      else Just(if st.top.StackSize() == 4 then JIT_DUP_4 else JIT_DUP_8, Push(st.top, st), true)
    else if op == 0x26 then
      if st.Empty? then None
      else if st.top.StackSize() == 4 then Just(JIT_POP_4, st.below, false)
      else Some(Selected([JIT_POP, st.top.StackSize()], 0, st.below, false))
    else if 0x15 <= op <= 0x1e then SelectConstant(op - 0x16, st)
    else if op == 0x1f || op == 0x20 then SelectConstant(l.arg, st)
    else if op == 0x21 then
      var p := Pattern(W64, l.arg);
      Some(Selected([JIT_LOAD_I64, p % M32, p / M32], 0, Push(Int64, st), true))
    else if 0x02 <= op <= 0x05 then SelectLoadArg(sig, op - 0x02, st)
    else if op == 0x0e then SelectLoadArg(sig, l.arg, st)
    else if op == 0x10 then SelectStoreArg(sig, l.arg, st)
    else if 0x06 <= op <= 0x09 then SelectLoadLocal(sig, op - 0x06, st)
    else if op == 0x11 || op == 0xfe0c then SelectLoadLocal(sig, l.arg, st)
    else if 0x0a <= op <= 0x0d then SelectStoreLocal(sig, op - 0x0a, st)
    else if op == 0x13 || op == 0xfe0e then SelectStoreLocal(sig, l.arg, st)
    else if op == 0x2a then Just(JIT_RETURN, st, false)
    else if op == 0x2b || op == 0x38 then SelectBranch(JIT_BRANCH, l, st)
    else if 0x2c <= op <= 0x2d then SelectBranchIf(0x2c, l, st)
    else if 0x39 <= op <= 0x3a then SelectBranchIf(0x39, l, st)
    else if 0x2e <= op <= 0x37 then SelectBranchOn(0x2e, l, st)
    else if 0x3b <= op <= 0x44 then SelectBranchOn(0x3b, l, st)
    else if op == 0x45 then
      if st.Empty? then None
      else Some(Selected([JIT_SWITCH, |l.targets|] + l.targets, |l.targets|, st.below, false))
    else if 0x58 <= op <= 0x61 then SelectArithmetic(op, st)
    else if 0x62 <= op <= 0x64 then SelectShift(op, st)
    else if 0x65 <= op <= 0x66 then SelectUnary(op, st)
    else if op == 0x67 then SelectSigned(8, SByte, st)
    else if op == 0x68 then SelectSigned(16, Int16, st)
    else if op == 0x69 then SelectSigned(32, Int32, st)
    else if op == 0xd2 then SelectUnsigned(0x80, Byte, st)
    else if op == 0xd1 then SelectUnsigned(0x8000, UInt16, st)
    else if op == 0x6d then SelectUnsigned(0x8000_0000, UInt32, st)
    else if 0xfe01 <= op <= 0xfe05 then SelectComparison(op, st)
    else None
  }

  // ---------------------------------------------------------------- the pass

  function TypeBytes(st: Stack<Ty>): nat {
    if st.Empty? then 0 else st.top.StackSize() + TypeBytes(st.below)
  }

  // The state of the pass: the ops so far, the tracked types, the largest stack seen, the index of the first op of
  // each instruction, the stacks kept for forward branches, and the indices of the ops that hold branch targets.
  datatype Pass = Pass(
    ops: seq<nat>, stack: Stack<Ty>, maxBytes: nat, offsets: map<nat, nat>, saved: map<nat, Stack<Ty>>, branches: seq<nat>)

  const START := Pass([], Stack.Empty, 0, map[], map[], [])

  // MayCopyTypeStack, for each target. A target is kept when it is ahead of the cursor, which stands behind the operand just
  // read: four bytes before the next instruction for each operand of a switch that is still to come.
  function SaveAll(saved: map<nat, Stack<Ty>>, targets: seq<nat>, next: nat, st: Stack<Ty>): map<nat, Stack<Ty>>
    decreases |targets|
  {
    if targets == [] then saved
    else SaveAll(if targets[0] + 4 * (|targets| - 1) > next then saved[targets[0] := st] else saved, targets[1..], next, st)
  }

  // RestoreTypeStack.
  function Restored(saved: map<nat, Stack<Ty>>, ofs: nat): Stack<Ty> {
    if ofs in saved then saved[ofs] else Stack.Empty
  }

  function Range(first: nat, n: nat): (r: seq<nat>)
    ensures |r| == n && forall i :: 0 <= i < n ==> r[i] == first + i
  {
    seq(n, i requires 0 <= i < n => first + i)
  }

  // Adds the words selected for the instruction at ofs.
  function Append(ofs: nat, l: Line, s: Selected, j: Pass): Pass {
    var saved := SaveAll(j.saved, l.targets, l.next, s.after);
    var end := |j.ops| + |s.words|;
    Pass(
      j.ops + s.words,
      if Unconditional(l) then Restored(saved, l.next) else s.after,
      if s.pushed && TypeBytes(s.after) > j.maxBytes then TypeBytes(s.after) else j.maxBytes,
      j.offsets[ofs := |j.ops|],
      saved,
      j.branches + Range(if s.holes <= end then end - s.holes else 0, s.holes))
  }

  function Emit(sig: Signature, ofs: nat, l: Line, j: Pass): Option<Pass> {
    match Select(sig, l, j.stack)
    case None => None
    case Some(s) => Some(Append(ofs, l, s, j))
  }

  // The pass from an offset to the end of the body.
  function EmitFrom(sig: Signature, code: seq<U8>, ofs: nat, j: Pass): Option<Pass>
    decreases |code| - ofs
  {
    match Decode(code, ofs)
    case None => None
    case Some(l) =>
      match Emit(sig, ofs, l, j)
      case None => None
      case Some(j') => if l.next < |code| then EmitFrom(sig, code, l.next, j') else Some(j')
  }

  // Each branch operand, so far an offset in the method body, becomes the index of an op.
  function Fixed(ops: seq<nat>, branches: seq<nat>, offsets: map<nat, nat>): Option<seq<nat>>
    decreases |branches|
  {
    if branches == [] then Some(ops)
    else
      var p := branches[0];
      if p < |ops| && ops[p] in offsets then Fixed(ops[p := offsets[ops[p]]], branches[1..], offsets) else None
  }

  datatype Jitted = Jitted(ops: seq<nat>, maxStack: nat)

  function Translate(sig: Signature, code: seq<U8>): Option<Jitted> {
    match EmitFrom(sig, code, 0, START)
    case None => None
    case Some(j) =>
      match Fixed(j.ops, j.branches, j.offsets)
      case None => None
      case Some(ops) => Some(Jitted(ops, j.maxBytes))
  }

  // The types tracked at each instruction of the pass.
  function TracksFrom(sig: Signature, code: seq<U8>, ofs: nat, j: Pass): map<nat, Stack<Ty>>
    decreases |code| - ofs
  {
    match Decode(code, ofs)
    case None => map[]
    case Some(l) =>
      match Emit(sig, ofs, l, j)
      case None => map[ofs := j.stack]
      case Some(j') => TracksFrom(sig, code, l.next, j')[ofs := j.stack]
  }
}
