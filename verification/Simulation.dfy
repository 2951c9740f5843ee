/**
 One instruction of the CIL machine is one turn of the interpreter on the words that the translator
 selected for it.
 */
module Simulation {
  import opened MachineInts
  import opened IntegerOps
  import opened Options
  import opened Cil
  import opened Interpreter
  import opened Translator
  import opened Layout

  // The frame that stands for a state of the CIL machine.
  ghost function FrameOf(s: CilState, ip: nat): Frame {
    Frame(ip, Flat(s.stack), Slots(s.args) + Slots(s.locals))
  }

  ghost predicate WellFormed(sig: Signature, s: CilState) {
    Declared(sig.args, s.args) && Declared(sig.locals, s.locals) && AllValues(s.stack)
  }

  // A store does not truncate: the value is one of the declared type.
  ghost predicate StoreFits(sig: Signature, i: Instr, s: CilState) {
    match i
    case StoreArg(n) => s.stack.Push? && n < |sig.args| ==> Truncated(sig.args[n], s.stack.top) == s.stack.top
    case StoreLocal(n) => s.stack.Push? && n < |sig.locals| ==> Truncated(sig.locals[n], s.stack.top) == s.stack.top
    case _ => true
  }

  // What decoding promises about an instruction.
  predicate Shaped(l: Line) {
    && OperandOf(l.op).Some?
    && (0x2b <= l.op <= 0x44 ==> |l.targets| == 1)
    && (!(0x2b <= l.op <= 0x45) ==> l.targets == [])
    && (l.op in {0x0e, 0x10, 0x11, 0x13, 0xfe0c, 0xfe0e} ==> l.arg >= 0)
    && (l.op in {0x1f, 0x20} ==> InRange(W32, l.arg))
    && (l.op == 0x21 ==> InRange(W64, l.arg))
  }

  lemma DecodedIsShaped(code: seq<U8>, ofs: nat)
    requires Decode(code, ofs).Some?
    ensures Shaped(Decode(code, ofs).value)
  {
    var l := Decode(code, ofs).value;
    var start := if code[ofs] != 0xfe then ofs + 1 else ofs + 2;
    var o := OperandOf(l.op).value;
    var raw := Read(code, start, Size(o));
    if o == Signed32 {
      PatternSigned(W32, Pattern(W32, raw));
    } else if o == Signed64 {
      PatternSigned(W64, Pattern(W64, raw));
    }
  }

  // ---------------------------------------------------------------- the opcode selected

  // Locals lie behind the arguments.
  function LocalCell(sig: Signature, n: nat): nat
    requires n <= |sig.locals|
  {
    CellOf(sig.args, |sig.args|) + CellOf(sig.locals, n)
  }

  // The operation meant by an instruction on a stack of these types.
  ghost function OpFor(sig: Signature, i: Instr, st: Stack<Ty>, offsets: map<nat, nat>): MicroOp {
    match i
    case Nop => Idle
    case Dup => if st.Empty? then Idle else Duplicate(st.top.StackSize())
    case Pop => if st.Empty? then Idle else Discard(st.top.StackSize())
    case Const32(v) => Load([Pattern(W32, v)])
    case Const64(v) => Load([Pattern(W64, v) % M32, Pattern(W64, v) / M32])
    case LoadArg(n) => if n >= |sig.args| then Idle else MicroOp.LoadLocal(sig.args[n].Width(), CellOf(sig.args, n))
    case StoreArg(n) =>
      if st.Empty? || n >= |sig.args| then Idle else MicroOp.StoreLocal(st.top.Width(), CellOf(sig.args, n))
    case LoadLocal(n) =>
      if n >= |sig.locals| then Idle else MicroOp.LoadLocal(sig.locals[n].Width(), LocalCell(sig, n))
    case StoreLocal(n) =>
      if st.Empty? || n >= |sig.locals| then Idle else MicroOp.StoreLocal(st.top.Width(), LocalCell(sig, n))
    case Return => Leave
    case Branch(t) => Jump(IndexOf(offsets, t))
    case BranchIf(nonzero, t) => if st.Empty? then Idle else JumpIf(nonzero, st.top.Width(), IndexOf(offsets, t))
    case BranchOn(c, t) => if st.Empty? then Idle else JumpOn(c, st.top.Width(), IndexOf(offsets, t))
    case Switch(ts) => JumpTable(Indices(offsets, ts))
    case Arith(b) => if st.Empty? then Idle else Binary(b, st.top.Width())
    case Complement(u) => if st.Empty? then Idle else Unary(u, st.top.Width())
    case ShiftBy(h) => if !HasTwo(st) then Idle else Shifted(h, st.below.top.Width())
    case Convert(c) => if st.Empty? then Idle else ConversionFor(c, st.top.Width())
    case Compare(c) => if st.Empty? then Idle else Compared(c, st.top.Width())
  }

  function IndexOf(offsets: map<nat, nat>, t: nat): nat {
    if t in offsets then offsets[t] else 0
  }

  function Indices(offsets: map<nat, nat>, ts: seq<nat>): (r: seq<nat>)
    ensures |r| == |ts| && forall i :: 0 <= i < |ts| ==> r[i] == IndexOf(offsets, ts[i])
  {
    seq(|ts|, i requires 0 <= i < |ts| => IndexOf(offsets, ts[i]))
  }

  function ConversionFor(c: Conversion, w: Width): MicroOp {
    if IsSigned(c) then ShiftConversion(w, ShiftFor(c)) else MaskConversion(w, MaskFor(c))
  }

  // The words of an instruction once its branch operands are indices of ops.
  ghost function Resolve(words: seq<nat>, targets: seq<nat>, offsets: map<nat, nat>): seq<nat>
    requires |targets| <= |words|
  {
    words[..|words| - |targets|] + Indices(offsets, targets)
  }

  ghost predicate Fetches(words: seq<nat>, op: MicroOp) {
    Fetch(words, 0) == Some(Fetched(op, |words|))
  }

  // The words selected, with their branch operands rewritten, are fetched as this operation.
  ghost predicate SelectsRight(f: Selected, targets: seq<nat>, offsets: map<nat, nat>, op: MicroOp) {
    f.holes == |targets| <= |f.words| && Fetches(Resolve(f.words, targets, offsets), op)
  }

  lemma WithoutTargets(f: Selected, offsets: map<nat, nat>, op: MicroOp)
    requires f.holes == 0 && Fetches(f.words, op)
    ensures SelectsRight(f, [], offsets, op)
  {
  }

  lemma WithTarget(f: Selected, t: nat, offsets: map<nat, nat>, op: MicroOp)
    requires f.holes == 1 && |f.words| == 2 && Fetches([f.words[0], IndexOf(offsets, t)], op)
    ensures SelectsRight(f, [t], offsets, op)
  {
    assert Resolve(f.words, [t], offsets) == [f.words[0], IndexOf(offsets, t)];
  }

  // ---------------------------------------------------------------- tables of opcodes

  lemma PlainFetches(op: nat)
    requires Plain(op).Some?
    ensures Fetches([op], Plain(op).value)
  {
  }

  lemma ParameterFetches(op: nat, p: nat)
    requires Plain(op).None? && WithParameter(op, p).Some?
    ensures Fetches([op, p], WithParameter(op, p).value)
  {
  }

  lemma ArithmeticTable(k: nat)
    requires k < 10
    ensures Plain(JIT_ADD_I32I32 + k) == Some(Binary(ARITHMETIC[k], W32))
    ensures Plain(JIT_ADD_I64I64 + k) == Some(Binary(ARITHMETIC[k], W64))
  {
  }

  lemma BranchTable(k: nat, t: nat)
    requires k < 10
    ensures Plain(JIT_BEQ_I32I32 + k).None? && Plain(JIT_BEQ_I64I64 + k).None?
    ensures WithParameter(JIT_BEQ_I32I32 + k, t) == Some(JumpOn(CONDITIONS[k], W32, t))
    ensures WithParameter(JIT_BEQ_I64I64 + k, t) == Some(JumpOn(CONDITIONS[k], W64, t))
  {
  }

  lemma LocalTable(k: nat)
    requires k < 8
    ensures Plain(JIT_LOADPARAMLOCAL_0 + k) == Some(MicroOp.LoadLocal(W32, k))
    ensures Plain(JIT_STOREPARAMLOCAL_0 + k) == Some(MicroOp.StoreLocal(W32, k))
  {
  }

  lemma CellTable(w: Width, cell: nat)
    ensures
      var t := if w.W32? then EVALSTACK_INT32 else EVALSTACK_INT64;
      && Plain(JIT_LOADPARAMLOCAL_TYPEID + t).None? && Plain(JIT_STOREPARAMLOCAL_TYPEID + t).None?
      && WithParameter(JIT_LOADPARAMLOCAL_TYPEID + t, 4 * cell) == Some(MicroOp.LoadLocal(w, cell))
      && WithParameter(JIT_STOREPARAMLOCAL_TYPEID + t, 4 * cell) == Some(MicroOp.StoreLocal(w, cell))
  {
    assert 4 * cell / 4 == cell && 4 * cell % 4 == 0;
  }

  // ---------------------------------------------------------------- what is fetched for each group

  lemma FetchesLoad(t: Ty, cell: nat, st: Stack<Ty>)
    ensures SelectLoad(t, 4 * cell, st).Some? && SelectLoad(t, 4 * cell, st).value.holes == 0
    ensures Fetches(SelectLoad(t, 4 * cell, st).value.words, MicroOp.LoadLocal(t.Width(), cell))
  {
    if t.StackSize() == 4 && cell < 8 {
      LocalTable(cell);
      PlainFetches(JIT_LOADPARAMLOCAL_0 + cell);
    } else {
      CellTable(t.Width(), cell);
      ParameterFetches(JIT_LOADPARAMLOCAL_TYPEID + StackType(t), 4 * cell);
    }
  }

  lemma FetchesStore(cell: nat, st: Stack<Ty>)
    requires st.Push?
    ensures SelectStore(4 * cell, st).Some? && SelectStore(4 * cell, st).value.holes == 0
    ensures Fetches(SelectStore(4 * cell, st).value.words, MicroOp.StoreLocal(st.top.Width(), cell))
  {
    if st.top.StackSize() == 4 && cell < 8 {
      LocalTable(cell);
      PlainFetches(JIT_STOREPARAMLOCAL_0 + cell);
    } else {
      CellTable(st.top.Width(), cell);
      ParameterFetches(JIT_STOREPARAMLOCAL_TYPEID + StackType(st.top), 4 * cell);
    }
  }

  lemma ArgumentFetched(sig: Signature, n: nat, st: Stack<Ty>, offsets: map<nat, nat>)
    requires n < |sig.args|
    ensures SelectLoadArg(sig, n, st).value.holes == 0
    ensures Fetches(SelectLoadArg(sig, n, st).value.words, OpFor(sig, LoadArg(n), st, offsets))
    ensures st.Push? ==> SelectStoreArg(sig, n, st).value.holes == 0
    ensures st.Push? ==> Fetches(SelectStoreArg(sig, n, st).value.words, OpFor(sig, StoreArg(n), st, offsets))
  {
    OffsetsAreCells(sig.args, n);
    FetchesLoad(sig.args[n], CellOf(sig.args, n), st);
    if st.Push? {
      FetchesStore(CellOf(sig.args, n), st);
    }
  }

  lemma LocalLoadFetched(sig: Signature, n: nat, st: Stack<Ty>, offsets: map<nat, nat>)
    requires n < |sig.locals|
    ensures SelectLoadLocal(sig, n, st).value.holes == 0
    ensures Fetches(SelectLoadLocal(sig, n, st).value.words, OpFor(sig, Instr.LoadLocal(n), st, offsets))
  {
    OffsetsAreCells(sig.args, |sig.args|);
    OffsetsAreCells(sig.locals, n);
    FetchesLoad(sig.locals[n], LocalCell(sig, n), st);
  }

  lemma LocalStoreFetched(sig: Signature, n: nat, st: Stack<Ty>, offsets: map<nat, nat>)
    requires n < |sig.locals| && st.Push?
    ensures SelectStoreLocal(sig, n, st).value.holes == 0
    ensures Fetches(SelectStoreLocal(sig, n, st).value.words, OpFor(sig, Instr.StoreLocal(n), st, offsets))
  {
    OffsetsAreCells(sig.args, |sig.args|);
    OffsetsAreCells(sig.locals, n);
    FetchesStore(LocalCell(sig, n), st);
  }

  lemma ArgumentSelected(sig: Signature, l: Line, st: Stack<Ty>, offsets: map<nat, nat>)
    requires Shaped(l) && Select(sig, l, st).Some? && (l.op <= 0x05 || l.op == 0x0e || l.op == 0x10) && 0x02 <= l.op
    ensures SelectsRight(Select(sig, l, st).value, l.targets, offsets, OpFor(sig, Meaning(l), st, offsets))
  {
    var n := if l.op <= 0x05 then l.op - 0x02 else l.arg;
    ArgumentFetched(sig, n, st, offsets);
    WithoutTargets(Select(sig, l, st).value, offsets, OpFor(sig, if l.op == 0x10 then StoreArg(n) else LoadArg(n), st, offsets));
  }

  lemma LocalSelected(sig: Signature, l: Line, st: Stack<Ty>, offsets: map<nat, nat>)
    requires Shaped(l) && Select(sig, l, st).Some?
    requires 0x06 <= l.op <= 0x0d || l.op == 0x11 || l.op == 0x13 || l.op == 0xfe0c || l.op == 0xfe0e
    ensures SelectsRight(Select(sig, l, st).value, l.targets, offsets, OpFor(sig, Meaning(l), st, offsets))
  {
    var n := if l.op <= 0x09 then l.op - 0x06 else if l.op <= 0x0d then l.op - 0x0a else l.arg;
    if l.op <= 0x09 || l.op == 0x11 || l.op == 0xfe0c {
      LocalLoadFetched(sig, n, st, offsets);
      WithoutTargets(Select(sig, l, st).value, offsets, OpFor(sig, Instr.LoadLocal(n), st, offsets));
    } else {
      LocalStoreFetched(sig, n, st, offsets);
      WithoutTargets(Select(sig, l, st).value, offsets, OpFor(sig, Instr.StoreLocal(n), st, offsets));
    }
  }

  lemma ConstantFetched(v: int, st: Stack<Ty>)
    requires InRange(W32, v)
    ensures Fetches(SelectConstant(v, st).value.words, Load([Pattern(W32, v)]))
  {
    if -1 <= v <= 2 {
      PlainFetches(JIT_LOAD_I4_0 + v);
    } else {
      ParameterFetches(JIT_LOAD_I32, Pattern(W32, v));
    }
  }

  lemma LoadFetched(sig: Signature, l: Line, st: Stack<Ty>, offsets: map<nat, nat>)
    requires Shaped(l) && Select(sig, l, st).Some? && 0x15 <= l.op <= 0x21
    ensures SelectsRight(Select(sig, l, st).value, l.targets, offsets, OpFor(sig, Meaning(l), st, offsets))
  {
    if l.op <= 0x20 {
      ConstantFetched(if l.op <= 0x1e then l.op - 0x16 else l.arg, st);
    } else {
      var p := Pattern(W64, l.arg);
      assert [JIT_LOAD_I64, p % M32, p / M32][1..3] == [p % M32, p / M32];
    }
    WithoutTargets(Select(sig, l, st).value, offsets, OpFor(sig, Meaning(l), st, offsets));
  }

  // nop, the constants, dup, pop and ret.
  lemma SimpleFetched(sig: Signature, l: Line, st: Stack<Ty>, offsets: map<nat, nat>)
    requires Shaped(l) && Select(sig, l, st).Some? && (l.op == 0 || 0x15 <= l.op <= 0x2a)
    ensures SelectsRight(Select(sig, l, st).value, l.targets, offsets, OpFor(sig, Meaning(l), st, offsets))
  {
    if 0x15 <= l.op <= 0x21 {
      LoadFetched(sig, l, st, offsets);
    } else {
      if l.op == 0 {
        PlainFetches(JIT_NOP);
      } else if l.op == 0x25 {
        PlainFetches(if st.top.StackSize() == 4 then JIT_DUP_4 else JIT_DUP_8);
      } else if l.op == 0x26 {
        PlainFetches(JIT_POP_4);
        ParameterFetches(JIT_POP, 8);
      } else {
        PlainFetches(JIT_RETURN);
      }
      WithoutTargets(Select(sig, l, st).value, offsets, OpFor(sig, Meaning(l), st, offsets));
    }
  }

  lemma ArithmeticFetched(op: nat, st: Stack<Ty>)
    requires 0x58 <= op <= 0x61 && SelectArithmetic(op, st).Some?
    ensures SelectArithmetic(op, st).value.holes == 0
    ensures Fetches(SelectArithmetic(op, st).value.words, Binary(ARITHMETIC[op - 0x58], st.top.Width()))
  {
    ArithmeticTable(op - 0x58);
    PlainFetches(SelectArithmetic(op, st).value.words[0]);
  }

  lemma ShiftFetched(op: nat, st: Stack<Ty>)
    requires 0x62 <= op <= 0x64 && SelectShift(op, st).Some?
    ensures SelectShift(op, st).value.holes == 0
    ensures Fetches(SelectShift(op, st).value.words, Shifted(SHIFTS[op - 0x62], st.below.top.Width()))
  {
  }

  lemma ComparisonFetched(op: nat, st: Stack<Ty>)
    requires 0xfe01 <= op <= 0xfe05 && SelectComparison(op, st).Some?
    ensures SelectComparison(op, st).value.holes == 0
    ensures Fetches(SelectComparison(op, st).value.words, Compared(COMPARISONS[op - 0xfe01], st.top.Width()))
  {
  }

  // Arithmetic, shifts, complements and comparisons.
  lemma OperatorFetched(sig: Signature, l: Line, st: Stack<Ty>, offsets: map<nat, nat>)
    requires Shaped(l) && Select(sig, l, st).Some? && (0x58 <= l.op <= 0x66 || 0xfe01 <= l.op <= 0xfe05)
    ensures SelectsRight(Select(sig, l, st).value, l.targets, offsets, OpFor(sig, Meaning(l), st, offsets))
  {
    if l.op <= 0x61 {
      ArithmeticFetched(l.op, st);
    } else if l.op <= 0x64 {
      ShiftFetched(l.op, st);
    } else if l.op <= 0x66 {
      PlainFetches(SelectUnary(l.op, st).value.words[0]);
    } else {
      ComparisonFetched(l.op, st);
    }
    WithoutTargets(Select(sig, l, st).value, offsets, OpFor(sig, Meaning(l), st, offsets));
  }

  lemma SignedFetched(bits: nat, to: Ty, st: Stack<Ty>)
    requires bits <= 32 && st.Push?
    ensures SelectSigned(bits, to, st).value.holes == 0
    ensures Fetches(SelectSigned(bits, to, st).value.words, ShiftConversion(st.top.Width(), 32 - bits))
  {
    ParameterFetches(ConvertFrom(st.top) + JIT_CONV_OFFSET_I32, 32 - bits);
  }

  lemma UnsignedFetched(topBit: nat, to: Ty, st: Stack<Ty>)
    requires topBit > 0 && st.Push?
    ensures SelectUnsigned(topBit, to, st).value.holes == 0
    ensures Fetches(SelectUnsigned(topBit, to, st).value.words, MaskConversion(st.top.Width(), topBit * 2 - 1))
  {
    ParameterFetches(ConvertFrom(st.top) + JIT_CONV_OFFSET_U32, topBit * 2 - 1);
  }

  lemma ConversionFetched(sig: Signature, l: Line, st: Stack<Ty>, offsets: map<nat, nat>)
    requires Shaped(l) && Select(sig, l, st).Some? && (0x67 <= l.op <= 0x6d || 0xd1 <= l.op <= 0xd2)
    ensures SelectsRight(Select(sig, l, st).value, l.targets, offsets, OpFor(sig, Meaning(l), st, offsets))
  {
    if l.op == 0x67 {
      SignedFetched(8, SByte, st);
    } else if l.op == 0x68 {
      SignedFetched(16, Int16, st);
    } else if l.op == 0x69 {
      SignedFetched(32, Int32, st);
    } else if l.op == 0xd2 {
      UnsignedFetched(0x80, Byte, st);
    } else if l.op == 0xd1 {
      UnsignedFetched(0x8000, UInt16, st);
    } else {
      UnsignedFetched(0x8000_0000, UInt32, st);
    }
    WithoutTargets(Select(sig, l, st).value, offsets, OpFor(sig, Meaning(l), st, offsets));
  }

  lemma SwitchFetched(targets: seq<nat>, offsets: map<nat, nat>)
    ensures Fetches(Resolve([JIT_SWITCH, |targets|] + targets, targets, offsets), JumpTable(Indices(offsets, targets)))
  {
    var n, rest := |targets|, Indices(offsets, targets);
    assert Resolve([JIT_SWITCH, n] + targets, targets, offsets) == [JIT_SWITCH, n] + rest;
    SwitchFetches(n, rest);
  }

  lemma SwitchFetches(n: nat, rest: seq<nat>)
    requires |rest| == n
    ensures Fetches([JIT_SWITCH, n] + rest, JumpTable(rest))
  {
    var words := [JIT_SWITCH, n] + rest;
    assert words[2..2 + n] == rest;
  }

  // A branch operand rewritten to the index t.
  ghost predicate FetchesBranch(f: Option<Selected>, t: nat, op: MicroOp) {
    f.Some? && f.value.holes == 1 && |f.value.words| == 2 && Fetches([f.value.words[0], t], op)
  }

  lemma BranchOnFetched(first: nat, l: Line, st: Stack<Ty>, t: nat)
    requires first <= l.op < first + 10 && SelectBranchOn(first, l, st).Some?
    ensures FetchesBranch(SelectBranchOn(first, l, st), t, JumpOn(CONDITIONS[l.op - first], st.top.Width(), t))
  {
    BranchTable(l.op - first, t);
    ParameterFetches(SelectBranchOn(first, l, st).value.words[0], t);
  }

  lemma BranchIfFetched(first: nat, l: Line, st: Stack<Ty>, t: nat)
    requires first <= l.op < first + 2 && SelectBranchIf(first, l, st).Some?
    ensures FetchesBranch(SelectBranchIf(first, l, st), t, JumpIf(l.op != first, st.top.Width(), t))
  {
    ParameterFetches(SelectBranchIf(first, l, st).value.words[0], t);
  }

  lemma BranchFetched(sig: Signature, l: Line, st: Stack<Ty>, offsets: map<nat, nat>)
    requires Shaped(l) && Select(sig, l, st).Some? && 0x2b <= l.op <= 0x44
    ensures SelectsRight(Select(sig, l, st).value, l.targets, offsets, OpFor(sig, Meaning(l), st, offsets))
  {
    BranchWordsFetched(sig, l, st, offsets, IndexOf(offsets, l.targets[0]));
    assert l.targets == [l.targets[0]];
    WithTarget(Select(sig, l, st).value, l.targets[0], offsets, OpFor(sig, Meaning(l), st, offsets));
  }

  lemma BranchWordsFetched(sig: Signature, l: Line, st: Stack<Ty>, offsets: map<nat, nat>, t: nat)
    requires Shaped(l) && Select(sig, l, st).Some? && 0x2b <= l.op <= 0x44 && t == IndexOf(offsets, l.targets[0])
    ensures FetchesBranch(Select(sig, l, st), t, OpFor(sig, Meaning(l), st, offsets))
  {
    if l.op == 0x2b || l.op == 0x38 {
      ParameterFetches(JIT_BRANCH, t);
    } else if l.op <= 0x2d {
      BranchIfFetched(0x2c, l, st, t);
    } else if l.op <= 0x37 {
      BranchOnFetched(0x2e, l, st, t);
    } else if l.op <= 0x3a {
      BranchIfFetched(0x39, l, st, t);
    } else {
      BranchOnFetched(0x3b, l, st, t);
    }
  }

  // Arithmetic on opcode numbers lands on the label of the instruction meant, for every opcode and all types.
  lemma OpcodeArithmetic(sig: Signature, l: Line, st: Stack<Ty>, offsets: map<nat, nat>)
    requires Shaped(l) && Select(sig, l, st).Some?
    ensures SelectsRight(Select(sig, l, st).value, l.targets, offsets, OpFor(sig, Meaning(l), st, offsets))
  {
    if 0x2b <= l.op <= 0x44 {
      BranchFetched(sig, l, st, offsets);
    } else if l.op == 0x45 {
      SwitchFetched(l.targets, offsets);
    } else if 0x02 <= l.op && (l.op <= 0x05 || l.op == 0x0e || l.op == 0x10) {
      ArgumentSelected(sig, l, st, offsets);
    } else if 0x06 <= l.op <= 0x13 || l.op == 0xfe0c || l.op == 0xfe0e {
      LocalSelected(sig, l, st, offsets);
    } else if l.op <= 0x2a {
      SimpleFetched(sig, l, st, offsets);
    } else if l.op <= 0x66 || 0xfe01 <= l.op {
      OperatorFetched(sig, l, st, offsets);
    } else {
      ConversionFetched(sig, l, st, offsets);
    }
  }

  // ---------------------------------------------------------------- what is performed

  predicate IsBranch(i: Instr) {
    i.Branch? || i.BranchIf? || i.BranchOn? || i.Switch?
  }

  // Where control goes on: just past the words of the instruction, or at a branch target.
  function IpOf(next: nat, offsets: map<nat, nat>, end: nat, ofs: nat): nat {
    if ofs == next then end else IndexOf(offsets, ofs)
  }

  // The interpreter has done what the CIL machine did. A turn that ends with a check of the time slice is a branch.
  ghost predicate Agrees(i: Instr, next: nat, s: CilState, o: Outcome, e: Effect, offsets: map<nat, nat>, end: nat) {
    match o
    case Next(s') =>
      (if IsBranch(i) then e.Checked? else e.Continue?)
      && e.frame == FrameOf(s', IpOf(next, offsets, end, s'.ofs))
    case Done(_) => e == Returned(FrameOf(s, end))
    case Stuck => true
  }

  // Branch targets are known; one that is the next instruction is just past the words.
  ghost predicate Consistent(i: Instr, next: nat, offsets: map<nat, nat>, end: nat) {
    && (forall t <- Targets(i) :: t in offsets)
    && (next in offsets ==> offsets[next] == end)
  }

  lemma FlatTwo(st: Stack<Value>)
    requires HasTwo(st)
    ensures
      var w, v := st.top.Width(), st.below.top.Width();
      && HasTwoWords(w, v, Flat(st))
      && TopWords(w, Flat(st)) == Pattern(w, st.top.v)
      && TopWords(v, BelowWords(w, Flat(st))) == Pattern(v, st.below.top.v)
      && BelowWords(v, BelowWords(w, Flat(st))) == Flat(st.below.below)
  {
  }

  lemma TopType(st: Stack<Value>, types: Stack<Ty>)
    requires HasTypes(st, Widths(types)) && AllValues(st)
    ensures st.Push? ==>
              && types.Push? && st.top.Width() == types.top.Width() && IsValue(st.top)
              && HasTypes(st.below, Widths(types.below)) && AllValues(st.below)
  {
  }

  lemma TopTypes(st: Stack<Value>, types: Stack<Ty>)
    requires HasTypes(st, Widths(types)) && AllValues(st)
    ensures st.Push? ==> types.Push? && st.top.Width() == types.top.Width() && IsValue(st.top)
    ensures HasTwo(st) ==> HasTwo(types) && st.below.top.Width() == types.below.top.Width() && IsValue(st.below.top)
  {
    TopType(st, types);
    if st.Push? {
      TopType(st.below, types.below);
    }
  }

  lemma FlatPush(w: Width, v: int, st: Stack<Value>)
    ensures Flat(Push(ValueOf(w, v), st)) == PushWords(w, Pattern(w, v), Flat(st))
  {
  }

  // dup, pop and the constants.
  lemma PerformsStackMove(sig: Signature, i: Instr, next: nat, s: CilState, st: Stack<Ty>, offsets: map<nat, nat>, end: nat)
    requires WellFormed(sig, s) && HasTypes(s.stack, Widths(st))
    requires i.Nop? || i.Dup? || i.Pop? || i.Const32? || i.Const64?
    ensures Agrees(i, next, s, Execute(sig, i, next, s), Perform(OpFor(sig, i, st, offsets), FrameOf(s, end)), offsets, end)
  {
    TopTypes(s.stack, st);
    if s.stack.Push? {
      FlatTop(s.stack);
    }
  }

  lemma PerformsArithmetic(sig: Signature, i: Instr, next: nat, s: CilState, st: Stack<Ty>, offsets: map<nat, nat>, end: nat)
    requires WellFormed(sig, s) && HasTypes(s.stack, Widths(st)) && i.Arith?
    ensures Agrees(i, next, s, Execute(sig, i, next, s), Perform(OpFor(sig, i, st, offsets), FrameOf(s, end)), offsets, end)
  {
    TopTypes(s.stack, st);
    if HasTwo(s.stack) && s.stack.below.top.Width() == s.stack.top.Width() {
      var w, a, b := s.stack.top.Width(), s.stack.below.top.v, s.stack.top.v;
      FlatTwo(s.stack);
      BinaryAgrees(i.b, w, a, b);
      var v := BinaryValue(i.b, w, a, b);
      if v.Some? {
        FlatPush(w, v.value, s.stack.below.below);
      }
    }
  }

  lemma PerformsShift(sig: Signature, i: Instr, next: nat, s: CilState, st: Stack<Ty>, offsets: map<nat, nat>, end: nat)
    requires WellFormed(sig, s) && HasTypes(s.stack, Widths(st)) && i.ShiftBy?
    ensures Agrees(i, next, s, Execute(sig, i, next, s), Perform(OpFor(sig, i, st, offsets), FrameOf(s, end)), offsets, end)
  {
    TopTypes(s.stack, st);
    if HasTwo(s.stack) && s.stack.top.V32? {
      var w, a, n := s.stack.below.top.Width(), s.stack.below.top.v, s.stack.top.v;
      FlatTwo(s.stack);
      ShiftAgrees(i.s, w, a, n);
      var v := ShiftValue(i.s, w, a, n);
      if v.Some? {
        FlatPush(w, v.value, s.stack.below.below);
      }
    }
  }

  lemma PerformsUnary(sig: Signature, i: Instr, next: nat, s: CilState, st: Stack<Ty>, offsets: map<nat, nat>, end: nat)
    requires WellFormed(sig, s) && HasTypes(s.stack, Widths(st)) && i.Complement?
    ensures Agrees(i, next, s, Execute(sig, i, next, s), Perform(OpFor(sig, i, st, offsets), FrameOf(s, end)), offsets, end)
  {
    TopTypes(s.stack, st);
    if s.stack.Push? {
      var w := s.stack.top.Width();
      FlatTop(s.stack);
      UnaryAgrees(i.u, w, s.stack.top.v);
      FlatPush(w, UnaryValue(i.u, w, s.stack.top.v), s.stack.below);
    }
  }

  lemma PerformsComparison(sig: Signature, i: Instr, next: nat, s: CilState, st: Stack<Ty>, offsets: map<nat, nat>, end: nat)
    requires WellFormed(sig, s) && HasTypes(s.stack, Widths(st)) && i.Compare?
    ensures Agrees(i, next, s, Execute(sig, i, next, s), Perform(OpFor(sig, i, st, offsets), FrameOf(s, end)), offsets, end)
  {
    TopTypes(s.stack, st);
    if HasTwo(s.stack) && s.stack.below.top.Width() == s.stack.top.Width() {
      FlatTwo(s.stack);
      CompareAgrees(i.c, s.stack.top.Width(), s.stack.below.top.v, s.stack.top.v);
    }
  }

  lemma PerformsBranchOn(sig: Signature, i: Instr, next: nat, s: CilState, st: Stack<Ty>, offsets: map<nat, nat>, end: nat)
    requires WellFormed(sig, s) && HasTypes(s.stack, Widths(st)) && i.BranchOn?
    requires Consistent(i, next, offsets, end)
    ensures Agrees(i, next, s, Execute(sig, i, next, s), Perform(OpFor(sig, i, st, offsets), FrameOf(s, end)), offsets, end)
  {
    TopTypes(s.stack, st);
    if HasTwo(s.stack) && s.stack.below.top.Width() == s.stack.top.Width() {
      FlatTwo(s.stack);
      CompareAgrees(i.c, s.stack.top.Width(), s.stack.below.top.v, s.stack.top.v);
    }
  }

  lemma PerformsBranchIf(sig: Signature, i: Instr, next: nat, s: CilState, st: Stack<Ty>, offsets: map<nat, nat>, end: nat)
    requires WellFormed(sig, s) && HasTypes(s.stack, Widths(st)) && i.BranchIf?
    requires Consistent(i, next, offsets, end)
    ensures Agrees(i, next, s, Execute(sig, i, next, s), Perform(OpFor(sig, i, st, offsets), FrameOf(s, end)), offsets, end)
  {
    TopTypes(s.stack, st);
    if s.stack.Push? {
      FlatTop(s.stack);
      SignedPattern(s.stack.top.Width(), s.stack.top.v);
    }
  }

  lemma PerformsJump(sig: Signature, i: Instr, next: nat, s: CilState, st: Stack<Ty>, offsets: map<nat, nat>, end: nat)
    requires i.Branch? || i.Return?
    requires Consistent(i, next, offsets, end)
    ensures Agrees(i, next, s, Execute(sig, i, next, s), Perform(OpFor(sig, i, st, offsets), FrameOf(s, end)), offsets, end)
  {
  }

  lemma PerformsSwitch(sig: Signature, i: Instr, next: nat, s: CilState, st: Stack<Ty>, offsets: map<nat, nat>, end: nat)
    requires WellFormed(sig, s) && HasTypes(s.stack, Widths(st)) && i.Switch?
    requires Consistent(i, next, offsets, end)
    ensures Agrees(i, next, s, Execute(sig, i, next, s), Perform(OpFor(sig, i, st, offsets), FrameOf(s, end)), offsets, end)
  {
    TopTypes(s.stack, st);
    if s.stack.Push? {
      FlatTop(s.stack);
    }
  }

  lemma Converted(c: Conversion, s: CilState, next: nat, end: nat)
    requires s.stack.Push?
    ensures Perform(ConversionFor(c, s.stack.top.Width()), FrameOf(s, end)) ==
            Continue(FrameOf(s.(stack := Push(V32(ConvertedValue(c, s.stack.top.v)), s.stack.below), ofs := next), end))
  {
    FlatTop(s.stack);
    ConversionAgrees(c, s.stack.top.Width(), s.stack.top.v);
  }

  lemma PerformsConversion(sig: Signature, i: Instr, next: nat, s: CilState, st: Stack<Ty>, offsets: map<nat, nat>, end: nat)
    requires WellFormed(sig, s) && HasTypes(s.stack, Widths(st)) && i.Convert?
    ensures Agrees(i, next, s, Execute(sig, i, next, s), Perform(OpFor(sig, i, st, offsets), FrameOf(s, end)), offsets, end)
  {
    TopTypes(s.stack, st);
    if s.stack.Push? {
      Converted(i.to, s, next, end);
    }
  }

  // ---------------------------------------------------------------- variables

  lemma ArgumentAt(sig: Signature, s: CilState, n: nat, y: Value)
    requires WellFormed(sig, s) && n < |s.args| && y.Width() == s.args[n].Width()
    ensures Layout.Holds(Slots(s.args) + Slots(s.locals), CellOf(sig.args, n), s.args[n], y,
                         Slots(s.args[n := y]) + Slots(s.locals))
  {
    SlotsAt(sig.args, s.args, n, y);
    Before(Slots(s.args), Slots(s.locals), CellOf(sig.args, n), s.args[n], y, Slots(s.args[n := y]));
  }

  lemma LocalAt(sig: Signature, s: CilState, n: nat, y: Value)
    requires WellFormed(sig, s) && n < |s.locals| && y.Width() == s.locals[n].Width()
    ensures Layout.Holds(Slots(s.args) + Slots(s.locals), LocalCell(sig, n), s.locals[n], y,
                         Slots(s.args) + Slots(s.locals[n := y]))
  {
    SlotsAt(sig.locals, s.locals, n, y);
    Behind(Slots(s.args), Slots(s.locals), CellOf(sig.locals, n), s.locals[n], y, Slots(s.locals[n := y]));
    AllCells(sig.args, s.args);
  }

  // Loading and storing, when the words of the variable are where they belong.
  lemma Loaded(s: CilState, x: Value, y: Value, cell: nat, after: seq<nat>, next: nat, end: nat)
    requires Layout.Holds(Slots(s.args) + Slots(s.locals), cell, x, y, after)
    ensures Perform(MicroOp.LoadLocal(x.Width(), cell), FrameOf(s, end)) == Continue(FrameOf(s.(stack := Push(x, s.stack), ofs := next), end))
  {
  }

  lemma Stored(s: CilState, x: Value, cell: nat, s': CilState, end: nat)
    requires s.stack.Push? && x.Width() == s.stack.top.Width()
    requires Layout.Holds(Slots(s.args) + Slots(s.locals), cell, x, s.stack.top, Slots(s'.args) + Slots(s'.locals))
    requires s'.stack == s.stack.below
    ensures Perform(MicroOp.StoreLocal(x.Width(), cell), FrameOf(s, end)) == Continue(FrameOf(s', end))
  {
  }

  lemma PerformsLoadArg(sig: Signature, i: Instr, next: nat, s: CilState, st: Stack<Ty>, offsets: map<nat, nat>, end: nat)
    requires WellFormed(sig, s) && i.LoadArg?
    ensures Agrees(i, next, s, Execute(sig, i, next, s), Perform(OpFor(sig, i, st, offsets), FrameOf(s, end)), offsets, end)
  {
    if i.n < |s.args| {
      var x := s.args[i.n];
      ArgumentAt(sig, s, i.n, x);
      Loaded(s, x, x, CellOf(sig.args, i.n), Slots(s.args[i.n := x]) + Slots(s.locals), next, end);
    }
  }

  lemma PerformsLoadLocal(sig: Signature, i: Instr, next: nat, s: CilState, st: Stack<Ty>, offsets: map<nat, nat>, end: nat)
    requires WellFormed(sig, s) && i.LoadLocal?
    ensures Agrees(i, next, s, Execute(sig, i, next, s), Perform(OpFor(sig, i, st, offsets), FrameOf(s, end)), offsets, end)
  {
    if i.n < |s.locals| {
      var x := s.locals[i.n];
      LocalAt(sig, s, i.n, x);
      Loaded(s, x, x, LocalCell(sig, i.n), Slots(s.args) + Slots(s.locals[i.n := x]), next, end);
    }
  }

  lemma PerformsStoreArg(sig: Signature, i: Instr, next: nat, s: CilState, st: Stack<Ty>, offsets: map<nat, nat>, end: nat)
    requires WellFormed(sig, s) && HasTypes(s.stack, Widths(st)) && i.StoreArg? && StoreFits(sig, i, s)
    ensures Agrees(i, next, s, Execute(sig, i, next, s), Perform(OpFor(sig, i, st, offsets), FrameOf(s, end)), offsets, end)
  {
    if s.stack.Push? && i.n < |s.args| && s.stack.top.Width() == sig.args[i.n].Width() {
      TopTypes(s.stack, st);
      ArgumentAt(sig, s, i.n, s.stack.top);
      Stored(s, s.args[i.n], CellOf(sig.args, i.n), Execute(sig, i, next, s).state, end);
    }
  }

  lemma PerformsStoreLocal(sig: Signature, i: Instr, next: nat, s: CilState, st: Stack<Ty>, offsets: map<nat, nat>, end: nat)
    requires WellFormed(sig, s) && HasTypes(s.stack, Widths(st)) && i.StoreLocal? && StoreFits(sig, i, s)
    ensures Agrees(i, next, s, Execute(sig, i, next, s), Perform(OpFor(sig, i, st, offsets), FrameOf(s, end)), offsets, end)
  {
    if s.stack.Push? && i.n < |s.locals| && s.stack.top.Width() == sig.locals[i.n].Width() {
      TopTypes(s.stack, st);
      LocalAt(sig, s, i.n, s.stack.top);
      Stored(s, s.locals[i.n], LocalCell(sig, i.n), Execute(sig, i, next, s).state, end);
    }
  }

  // Every instruction, performed on the words that stand for a state of the CIL machine.
  lemma Performs(sig: Signature, i: Instr, next: nat, s: CilState, st: Stack<Ty>, offsets: map<nat, nat>, end: nat)
    requires WellFormed(sig, s) && HasTypes(s.stack, Widths(st))
    requires Consistent(i, next, offsets, end) && StoreFits(sig, i, s)
    ensures Agrees(i, next, s, Execute(sig, i, next, s), Perform(OpFor(sig, i, st, offsets), FrameOf(s, end)), offsets, end)
  {
    match i
    case Nop => PerformsStackMove(sig, i, next, s, st, offsets, end);
    case Dup => PerformsStackMove(sig, i, next, s, st, offsets, end);
    case Pop => PerformsStackMove(sig, i, next, s, st, offsets, end);
    case Const32(_) => PerformsStackMove(sig, i, next, s, st, offsets, end);
    case Const64(_) => PerformsStackMove(sig, i, next, s, st, offsets, end);
    case LoadArg(_) => PerformsLoadArg(sig, i, next, s, st, offsets, end);
    case LoadLocal(_) => PerformsLoadLocal(sig, i, next, s, st, offsets, end);
    case StoreArg(_) => PerformsStoreArg(sig, i, next, s, st, offsets, end);
    case StoreLocal(_) => PerformsStoreLocal(sig, i, next, s, st, offsets, end);
    case Return => PerformsJump(sig, i, next, s, st, offsets, end);
    case Branch(_) => PerformsJump(sig, i, next, s, st, offsets, end);
    case BranchIf(_, _) => PerformsBranchIf(sig, i, next, s, st, offsets, end);
    case BranchOn(_, _) => PerformsBranchOn(sig, i, next, s, st, offsets, end);
    case Switch(_) => PerformsSwitch(sig, i, next, s, st, offsets, end);
    case Arith(_) => PerformsArithmetic(sig, i, next, s, st, offsets, end);
    case Complement(_) => PerformsUnary(sig, i, next, s, st, offsets, end);
    case ShiftBy(_) => PerformsShift(sig, i, next, s, st, offsets, end);
    case Convert(_) => PerformsConversion(sig, i, next, s, st, offsets, end);
    case Compare(_) => PerformsComparison(sig, i, next, s, st, offsets, end);
  }
}
