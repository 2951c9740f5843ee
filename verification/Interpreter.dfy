/**
 The interpreter of the internal opcodes, on the integer and control-flow fragment. The evaluation stack
 is untyped: a stack of 32-bit words, on which a 64-bit number is two words, the low one pushed first.
 */
module Interpreter {
  import opened MachineInts
  import opened IntegerOps
  import opened Options

  const JIT_NOP := 0x0
  const JIT_RETURN := 0x1
  const JIT_LOAD_I32 := 0x2
  const JIT_BRANCH := 0x3
  const JIT_POP := 0x15
  const JIT_SWITCH := 0x1f
  const JIT_LOAD_I64 := 0x29
  const JIT_DUP_4 := 0x2b
  const JIT_DUP_8 := 0x2c
  const JIT_POP_4 := 0x2e
  const JIT_LOADPARAMLOCAL_TYPEID := 0x30
  const JIT_STOREPARAMLOCAL_TYPEID := 0x38
  const JIT_CEQ_I32I32 := 0x70
  const JIT_CEQ_I64I64 := 0x75
  const JIT_ADD_I32I32 := 0x80
  const JIT_NEG_I32 := 0x8a
  const JIT_NEG_I64 := 0x8c
  const JIT_BEQ_I32I32 := 0x90
  const JIT_BEQ_I64I64 := 0x9a
  const JIT_SHL_I32 := 0xa4
  const JIT_SHL_I64 := 0xa7
  const JIT_BRANCH_FALSE := 0xaa
  const JIT_BRANCH64_FALSE := 0xac
  const JIT_ADD_I64I64 := 0xf0
  const JIT_LOADPARAMLOCAL_0 := 0x127
  const JIT_STOREPARAMLOCAL_0 := 0x12f
  const JIT_LOAD_I4_0 := 0x138
  const JIT_CONV_FROM_I32 := 0x140
  const JIT_CONV_FROM_U32 := 0x146
  const JIT_CONV_FROM_I64 := 0x14c
  const JIT_CONV_FROM_U64 := 0x152
  const JIT_CONV_OFFSET_I32 := 0
  const JIT_CONV_OFFSET_U32 := 1

  const EVALSTACK_INT64 := 0
  const EVALSTACK_INT32 := 1

  // What the code at the label of an opcode does, with its parameters fetched.
  datatype MicroOp =
    | Idle
    | Leave
    | Load(words: seq<nat>)
    | Duplicate(bytes: nat)
    | Discard(bytes: nat)
    | LoadLocal(w: Width, cell: nat)   // a cell is a word of the parameters and locals
    | StoreLocal(w: Width, cell: nat)
    | Jump(target: nat)
    | JumpIf(nonzero: bool, w: Width, target: nat)
    | JumpOn(c: Condition, w: Width, target: nat)
    | JumpTable(targets: seq<nat>)
    | Binary(b: Binary, w: Width)
    | Unary(u: Unary, w: Width)
    | Shifted(s: Shift, w: Width)
    | Compared(c: Condition, w: Width)
    | ShiftConversion(from: Width, shift: nat)
    | MaskConversion(from: Width, mask: nat)

  // The label reached for each opcode that stands alone. Opcodes of a group follow each other
  // in the order of JIT_OpCodes.h.
  function Plain(op: nat): Option<MicroOp> {
    match op
    case 0x0 => Some(Idle)
    case 0x1 => Some(Leave)
    case 0x2b => Some(Duplicate(4))
    case 0x2c => Some(Duplicate(8))
    case 0x2e => Some(Discard(4))
    case 0x70 => Some(Compared(Eq, W32))
    case 0x71 => Some(Compared(Gt, W32))
    case 0x72 => Some(Compared(GtUn, W32))
    case 0x73 => Some(Compared(Lt, W32))
    case 0x74 => Some(Compared(LtUn, W32))
    case 0x75 => Some(Compared(Eq, W64))
    case 0x76 => Some(Compared(Gt, W64))
    case 0x77 => Some(Compared(GtUn, W64))
    case 0x78 => Some(Compared(Lt, W64))
    case 0x79 => Some(Compared(LtUn, W64))
    case 0x80 => Some(Binary(Add, W32))
    case 0x81 => Some(Binary(Sub, W32))
    case 0x82 => Some(Binary(Mul, W32))
    case 0x83 => Some(Binary(Div, W32))
    case 0x84 => Some(Binary(DivUn, W32))
    case 0x85 => Some(Binary(Rem, W32))
    case 0x86 => Some(Binary(RemUn, W32))
    case 0x87 => Some(Binary(And, W32))
    case 0x88 => Some(Binary(Or, W32))
    case 0x89 => Some(Binary(Xor, W32))
    case 0x8a => Some(Unary(Neg, W32))
    case 0x8b => Some(Unary(Not, W32))
    case 0x8c => Some(Unary(Neg, W64))
    case 0x8d => Some(Unary(Not, W64))
    case 0xa4 => Some(Shifted(Shl, W32))
    case 0xa5 => Some(Shifted(Shr, W32))
    case 0xa6 => Some(Shifted(ShrUn, W32))
    case 0xa7 => Some(Shifted(Shl, W64))
    case 0xa8 => Some(Shifted(Shr, W64))
    case 0xa9 => Some(Shifted(ShrUn, W64))
    case 0xf0 => Some(Binary(Add, W64))
    case 0xf1 => Some(Binary(Sub, W64))
    case 0xf2 => Some(Binary(Mul, W64))
    case 0xf3 => Some(Binary(Div, W64))
    case 0xf4 => Some(Binary(DivUn, W64))
    case 0xf5 => Some(Binary(Rem, W64))
    case 0xf6 => Some(Binary(RemUn, W64))
    case 0xf7 => Some(Binary(And, W64))
    case 0xf8 => Some(Binary(Or, W64))
    case 0xf9 => Some(Binary(Xor, W64))
    case 0x127 => Some(LoadLocal(W32, 0))
    case 0x128 => Some(LoadLocal(W32, 1))
    case 0x129 => Some(LoadLocal(W32, 2))
    case 0x12a => Some(LoadLocal(W32, 3))
    case 0x12b => Some(LoadLocal(W32, 4))
    case 0x12c => Some(LoadLocal(W32, 5))
    case 0x12d => Some(LoadLocal(W32, 6))
    case 0x12e => Some(LoadLocal(W32, 7))
    case 0x12f => Some(StoreLocal(W32, 0))
    case 0x130 => Some(StoreLocal(W32, 1))
    case 0x131 => Some(StoreLocal(W32, 2))
    case 0x132 => Some(StoreLocal(W32, 3))
    case 0x133 => Some(StoreLocal(W32, 4))
    case 0x134 => Some(StoreLocal(W32, 5))
    case 0x135 => Some(StoreLocal(W32, 6))
    case 0x136 => Some(StoreLocal(W32, 7))
    case 0x137 => Some(Load([M32 - 1]))
    case 0x138 => Some(Load([0]))
    case 0x139 => Some(Load([1]))
    case 0x13a => Some(Load([2]))
    case _ => None
  }

  // The label reached for each opcode with one parameter.
  function WithParameter(op: nat, p: nat): Option<MicroOp> {
    match op
    case 0x2 => Some(Load([p]))
    case 0x3 => Some(Jump(p))
    case 0x14 => Some(Duplicate(p))
    case 0x15 => Some(Discard(p))
    case 0x30 => if p % 4 == 0 then Some(LoadLocal(W64, p / 4)) else None
    case 0x31 => if p % 4 == 0 then Some(LoadLocal(W32, p / 4)) else None
    case 0x38 => if p % 4 == 0 then Some(StoreLocal(W64, p / 4)) else None
    case 0x39 => if p % 4 == 0 then Some(StoreLocal(W32, p / 4)) else None
    case 0x90 => Some(JumpOn(Eq, W32, p))
    case 0x91 => Some(JumpOn(Ge, W32, p))
    case 0x92 => Some(JumpOn(Gt, W32, p))
    case 0x93 => Some(JumpOn(Le, W32, p))
    case 0x94 => Some(JumpOn(Lt, W32, p))
    case 0x95 => Some(JumpOn(NeUn, W32, p))
    case 0x96 => Some(JumpOn(GeUn, W32, p))
    case 0x97 => Some(JumpOn(GtUn, W32, p))
    case 0x98 => Some(JumpOn(LeUn, W32, p))
    case 0x99 => Some(JumpOn(LtUn, W32, p))
    case 0x9a => Some(JumpOn(Eq, W64, p))
    case 0x9b => Some(JumpOn(Ge, W64, p))
    case 0x9c => Some(JumpOn(Gt, W64, p))
    case 0x9d => Some(JumpOn(Le, W64, p))
    case 0x9e => Some(JumpOn(Lt, W64, p))
    case 0x9f => Some(JumpOn(NeUn, W64, p))
    case 0xa0 => Some(JumpOn(GeUn, W64, p))
    case 0xa1 => Some(JumpOn(GtUn, W64, p))
    case 0xa2 => Some(JumpOn(LeUn, W64, p))
    case 0xa3 => Some(JumpOn(LtUn, W64, p))
    case 0xaa => Some(JumpIf(false, W32, p))
    case 0xab => Some(JumpIf(true, W32, p))
    case 0xac => Some(JumpIf(false, W64, p))
    case 0xad => Some(JumpIf(true, W64, p))
    case 0x140 => Some(ShiftConversion(W32, p))
    case 0x141 => Some(MaskConversion(W32, p))
    case 0x146 => Some(ShiftConversion(W32, p))
    case 0x147 => Some(MaskConversion(W32, p))
    case 0x14c => Some(ShiftConversion(W64, p))
    case 0x14d => Some(MaskConversion(W64, p))
    case 0x152 => Some(ShiftConversion(W64, p))
    case 0x153 => Some(MaskConversion(W64, p))
    case _ => None
  }

  datatype Fetched = Fetched(op: MicroOp, next: nat)

  // The operation at pc, with its parameters, and where the next one starts.
  function Fetch(ops: seq<nat>, pc: nat): Option<Fetched> {
    if pc >= |ops| then None
    else if Plain(ops[pc]).Some? then Some(Fetched(Plain(ops[pc]).value, pc + 1))
    else if pc + 1 >= |ops| then None
    else if WithParameter(ops[pc], ops[pc + 1]).Some? then Some(Fetched(WithParameter(ops[pc], ops[pc + 1]).value, pc + 2))
    else if ops[pc] == JIT_LOAD_I64 && pc + 2 < |ops| then Some(Fetched(Load(ops[pc + 1..pc + 3]), pc + 3))
    else if ops[pc] == JIT_SWITCH && pc + 2 + ops[pc + 1] <= |ops| then
      var end := pc + 2 + ops[pc + 1];
      Some(Fetched(JumpTable(ops[pc + 2..end]), end))
    else None
  }

  // ---------------------------------------------------------------- words on the stack

  // PUSH_U32 and PUSH_U64.
  function PushWords(w: Width, p: nat, st: Stack<nat>): Stack<nat> {
    if w.W32? then Push(p, st) else Push(p / M32, Push(p % M32, st))
  }

  predicate HasWords(w: Width, st: Stack<nat>) {
    st.Push? && (w.W64? ==> st.below.Push?)
  }

  // POP_U32 and POP_U64: the number on top, and what is below it.
  function TopWords(w: Width, st: Stack<nat>): nat
    requires HasWords(w, st)
  {
    if w.W32? then st.top else st.below.top + M32 * st.top
  }

  function BelowWords(w: Width, st: Stack<nat>): Stack<nat>
    requires HasWords(w, st)
  {
    if w.W32? then st.below else st.below.below
  }

  predicate HasTwoWords(w: Width, v: Width, st: Stack<nat>) {
    HasWords(w, st) && HasWords(v, BelowWords(w, st))
  }

  function StackBytes(st: Stack<nat>): nat {
    if st.Empty? then 0 else 4 + StackBytes(st.below)
  }

  // ---------------------------------------------------------------- execution

  // The state of one method call: the index of the next op, the evaluation stack, and the parameters and locals.
  datatype Frame = Frame(ip: nat, stack: Stack<nat>, locals: seq<nat>)

  datatype Effect =
    | Continue(frame: Frame)  // GO_NEXT
    | Checked(frame: Frame)   // GO_NEXT_CHECK: the time slice may end here
    | Returned(frame: Frame)
    | Undefined               // the C code has no defined behaviour

  function LocalWords(w: Width, locals: seq<nat>, cell: nat): nat
    requires LocalFits(w, locals, cell)
  {
    if w.W32? then locals[cell] else locals[cell] + M32 * locals[cell + 1]
  }

  predicate LocalFits(w: Width, locals: seq<nat>, cell: nat) {
    cell + (if w.W32? then 1 else 2) <= |locals|
  }

  function WithLocal(w: Width, locals: seq<nat>, cell: nat, p: nat): seq<nat>
    requires LocalFits(w, locals, cell)
  {
    if w.W32? then locals[cell := p] else locals[cell := p % M32][cell + 1 := p / M32]
  }

  // The code at the labels. fr.ip is already past the parameters of the op.
  function Perform(op: MicroOp, fr: Frame): Effect {
    var st := fr.stack;
    match op
    case Idle => Continue(fr)
    case Leave => Returned(fr)
    case Load(words) =>
      if |words| == 1 then Continue(fr.(stack := Push(words[0], st)))
      else if |words| == 2 then Continue(fr.(stack := Push(words[1], Push(words[0], st))))
      else Undefined
    case Duplicate(bytes) =>
      if bytes == 4 && st.Push? then Continue(fr.(stack := Push(st.top, st)))
      else if bytes == 8 && HasWords(W64, st) then Continue(fr.(stack := Push(st.top, Push(st.below.top, st))))
      else Undefined
    case Discard(bytes) =>
      if bytes == 4 && st.Push? then Continue(fr.(stack := st.below))
      else if bytes == 8 && HasWords(W64, st) then Continue(fr.(stack := st.below.below))
      else Undefined
    case LoadLocal(w, cell) =>
      if LocalFits(w, fr.locals, cell) then Continue(fr.(stack := PushWords(w, LocalWords(w, fr.locals, cell), st)))
      else Undefined
    case StoreLocal(w, cell) =>
      if LocalFits(w, fr.locals, cell) && HasWords(w, st) then
        Continue(fr.(stack := BelowWords(w, st), locals := WithLocal(w, fr.locals, cell, TopWords(w, st))))
      else Undefined
    case Jump(t) => Checked(fr.(ip := t))
    case JumpIf(nonzero, w, t) =>
      if HasWords(w, st) then
        Checked(fr.(stack := BelowWords(w, st), ip := if (TopWords(w, st) != 0) == nonzero then t else fr.ip))
      else Undefined
    case JumpOn(c, w, t) =>
      if HasTwoWords(w, w, st) then
        var b, a := TopWords(w, st), TopWords(w, BelowWords(w, st));
        Checked(fr.(stack := BelowWords(w, BelowWords(w, st)), ip := if Compares(c, w, a, b) then t else fr.ip))
      else Undefined
    case JumpTable(ts) =>
      if st.Push? then Checked(fr.(stack := st.below, ip := if st.top < |ts| then ts[st.top] else fr.ip))
      else Undefined
    case Binary(b, w) =>
      if HasTwoWords(w, w, st) then (
        match BinaryPattern(b, w, TopWords(w, BelowWords(w, st)), TopWords(w, st))
        case None => Undefined
        case Some(p) => Continue(fr.(stack := PushWords(w, p, BelowWords(w, BelowWords(w, st)))))
      ) else Undefined
    case Unary(u, w) =>
      if HasWords(w, st) then Continue(fr.(stack := PushWords(w, UnaryPattern(u, w, TopWords(w, st)), BelowWords(w, st))))
      else Undefined
    case Shifted(h, w) =>
      if HasTwoWords(W32, w, st) then (
        match ShiftPattern(h, w, TopWords(w, st.below), st.top)
        case None => Undefined
        case Some(p) => Continue(fr.(stack := PushWords(w, p, BelowWords(w, st.below))))
      ) else Undefined
    case Compared(c, w) =>
      if HasTwoWords(w, w, st) then
        var b, a := TopWords(w, st), TopWords(w, BelowWords(w, st));
        Continue(fr.(stack := Push(if Compares(c, w, a, b) then 1 else 0, BelowWords(w, BelowWords(w, st)))))
      else Undefined
    case ShiftConversion(w, shift) =>
      if HasWords(w, st) then Continue(fr.(stack := Push(ShiftedBack(TopWords(w, st) % M32, shift), BelowWords(w, st))))
      else Undefined
    case MaskConversion(w, mask) =>
      if HasWords(w, st) then
        Continue(fr.(stack := Push(OnBits(AndBits, TopWords(w, st), mask) % M32, BelowWords(w, st))))
      else Undefined
  }

  // One turn of the interpreter loop, with the check of every PUSH and POP: the stack pointer stays
  // between the bottom of the evaluation stack and the parameters, maxStack bytes above it.
  function Turn(ops: seq<nat>, maxStack: nat, fr: Frame): Effect {
    match Fetch(ops, fr.ip)
    case None => Undefined
    case Some(f) =>
      var e := Perform(f.op, fr.(ip := f.next));
      if !e.Undefined? && StackBytes(e.frame.stack) > maxStack then Undefined else e
  }
}
