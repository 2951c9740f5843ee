/**
 The common intermediate language on its integer and control-flow fragment: how instructions are laid out
 in a method body, what they mean, and how a method body is typed.
 ECMA-335, Partition III; the opcode numbers are those of CIL_OpCodes.h.
 */
module Cil {
  import opened MachineInts
  import opened IntegerOps
  import opened Options

  type U8 = b: int | 0 <= b < 0x100

  // ---------------------------------------------------------------- types

  // The types that appear in signatures and on the tracked evaluation stack.
  datatype Ty = Boolean | Char | SByte | Byte | Int16 | UInt16 | Int32 | UInt32 | Int64 | UInt64 {
    // On the evaluation stack there are only two.
    function Width(): Width {
      if Int64? || UInt64? then W64 else W32
    }

    function StackSize(): nat {
      if Width().W32? then 4 else 8
    }
  }

  datatype Signature = Signature(args: seq<Ty>, locals: seq<Ty>, result: Option<Ty>)

  // ---------------------------------------------------------------- instructions in a method body

  // One instruction: its opcode (0xfe00 is added to the second byte of a long one), its operand,
  // the offsets it may branch to, and the offset of the next instruction.
  datatype Line = Line(op: nat, arg: int, targets: seq<nat>, next: nat)

  datatype Operand = NoOperand | Signed8 | Unsigned8 | Unsigned16 | Signed32 | Signed64 | Displacement8 | Displacement32 | Table

  function OperandOf(op: nat): Option<Operand> {
    if op == 0x00 || 0x02 <= op <= 0x0d || 0x15 <= op <= 0x1e || op == 0x25 || op == 0x26 || op == 0x2a then Some(NoOperand)
    else if op == 0x0e || op == 0x10 || op == 0x11 || op == 0x13 then Some(Unsigned8)
    else if op == 0x1f then Some(Signed8)
    else if op == 0x20 then Some(Signed32)
    else if op == 0x21 then Some(Signed64)
    else if 0x2b <= op <= 0x37 then Some(Displacement8)
    else if 0x38 <= op <= 0x44 then Some(Displacement32)
    else if op == 0x45 then Some(Table)
    else if 0x58 <= op <= 0x69 || op == 0x6d || op == 0xd1 || op == 0xd2 then Some(NoOperand)
    else if 0xfe01 <= op <= 0xfe05 then Some(NoOperand)
    else if op == 0xfe0c || op == 0xfe0e then Some(Unsigned16)
    else None
  }

  // Little-endian, without sign.
  function Read(code: seq<U8>, ofs: nat, n: nat): nat
    requires ofs + n <= |code|
    decreases n
  {
    if n == 0 then 0 else code[ofs] + 0x100 * Read(code, ofs + 1, n - 1)
  }

  // A branch is relative to the next instruction, in 32-bit arithmetic.
  function Target(next: nat, displacement: int): nat {
    (next + displacement) % M32
  }

  function TableTargets(code: seq<U8>, ofs: nat, n: nat, base: nat): seq<nat>
    requires ofs + 4 * n <= |code|
    decreases n
  {
    if n == 0 then [] else [Target(base, Read(code, ofs, 4))] + TableTargets(code, ofs + 4, n - 1, base)
  }

  lemma {:induction false} TableLength(code: seq<U8>, ofs: nat, n: nat, base: nat)
    requires ofs + 4 * n <= |code|
    ensures |TableTargets(code, ofs, n, base)| == n
    decreases n
  {
    if n > 0 {
      TableLength(code, ofs + 4, n - 1, base);
    }
  }

  function Size(o: Operand): nat {
    match o
    case NoOperand => 0
    case Signed8 => 1
    case Unsigned8 => 1
    case Unsigned16 => 2
    case Signed32 => 4
    case Signed64 => 8
    case Displacement8 => 1
    case Displacement32 => 4
    case Table => 4
  }

  // The instruction at an offset, when it belongs to the fragment and lies within the body.
  function Decode(code: seq<U8>, ofs: nat): (r: Option<Line>)
    ensures r.Some? ==> ofs < r.value.next <= |code|
  {
    if ofs >= |code| then None
    else if code[ofs] != 0xfe then DecodeOperand(code, code[ofs], ofs + 1)
    else if ofs + 1 < |code| then DecodeOperand(code, 0xfe00 + code[ofs + 1] as nat, ofs + 2)
    else None
  }

  function DecodeOperand(code: seq<U8>, op: nat, ofs: nat): (r: Option<Line>)
    ensures r.Some? ==> ofs <= r.value.next <= |code|
  {
    match OperandOf(op)
    case None => None
    case Some(o) =>
      var next := ofs + Size(o);
      if next > |code| then None
      else
        var raw := Read(code, ofs, Size(o));
        match o
        case NoOperand => Some(Line(op, 0, [], next))
        case Signed8 => Some(Line(op, SignExtended(0x100, raw), [], next))
        case Unsigned8 => Some(Line(op, raw, [], next))
        case Unsigned16 => Some(Line(op, raw, [], next))
        case Signed32 => Some(Line(op, Wrap(W32, raw), [], next))
        case Signed64 => Some(Line(op, Wrap(W64, raw), [], next))
        case Displacement8 => Some(Line(op, 0, [Target(next, SignExtended(0x100, raw))], next))
        case Displacement32 => Some(Line(op, 0, [Target(next, Wrap(W32, raw))], next))
        case Table =>
          var end := next + 4 * raw;
          if end > |code| then None else Some(Line(op, 0, TableTargets(code, next, raw, end), end))
  }

  // ---------------------------------------------------------------- what the instructions mean

  datatype Instr =
    | Nop
    | Dup
    | Pop
    | Const32(v: int)
    | Const64(v: int)
    | LoadArg(n: nat)
    | StoreArg(n: nat)
    | LoadLocal(n: nat)
    | StoreLocal(n: nat)
    | Return
    | Branch(target: nat)
    | BranchIf(nonzero: bool, target: nat)
    | BranchOn(c: Condition, target: nat)
    | Switch(targets: seq<nat>)
    | Arith(b: Binary)
    | Complement(u: Unary)
    | ShiftBy(s: Shift)
    | Convert(to: Conversion)
    | Compare(c: Condition)

  const CONDITIONS := [Eq, Ge, Gt, Le, Lt, NeUn, GeUn, GtUn, LeUn, LtUn]
  const ARITHMETIC := [Add, Sub, Mul, Div, DivUn, Rem, RemUn, And, Or, Xor]
  const SHIFTS := [Shl, Shr, ShrUn]
  const COMPARISONS := [Eq, Gt, GtUn, Lt, LtUn]

  // The numbering of the standard.
  function Meaning(l: Line): Instr {
    var op := l.op;
    if op == 0x25 then Dup
    else if op == 0x26 then Pop
    else if 0x15 <= op <= 0x1e then Const32(op - 0x16)
    else if op == 0x1f || op == 0x20 then Const32(l.arg)
    else if op == 0x21 then Const64(l.arg)
    else if 0x02 <= op <= 0x05 then LoadArg(op - 0x02)
    else if op == 0x0e && l.arg >= 0 then LoadArg(l.arg)
    else if op == 0x10 && l.arg >= 0 then StoreArg(l.arg)
    else if 0x06 <= op <= 0x09 then LoadLocal(op - 0x06)
    else if (op == 0x11 || op == 0xfe0c) && l.arg >= 0 then LoadLocal(l.arg)
    else if 0x0a <= op <= 0x0d then StoreLocal(op - 0x0a)
    else if (op == 0x13 || op == 0xfe0e) && l.arg >= 0 then StoreLocal(l.arg)
    else if op == 0x2a then Return
    else if (op == 0x2b || op == 0x38) && |l.targets| == 1 then Branch(l.targets[0])
    else if (op == 0x2c || op == 0x39) && |l.targets| == 1 then BranchIf(false, l.targets[0])
    else if (op == 0x2d || op == 0x3a) && |l.targets| == 1 then BranchIf(true, l.targets[0])
    else if 0x2e <= op <= 0x37 && |l.targets| == 1 then BranchOn(CONDITIONS[op - 0x2e], l.targets[0])
    else if 0x3b <= op <= 0x44 && |l.targets| == 1 then BranchOn(CONDITIONS[op - 0x3b], l.targets[0])
    else if op == 0x45 then Switch(l.targets)
    else if 0x58 <= op <= 0x61 then Arith(ARITHMETIC[op - 0x58])
    else if 0x62 <= op <= 0x64 then ShiftBy(SHIFTS[op - 0x62])
    else if op == 0x65 then Complement(Neg)
    else if op == 0x66 then Complement(Not)
    else if op == 0x67 then Convert(ToI1)
    else if op == 0x68 then Convert(ToI2)
    else if op == 0x69 then Convert(ToI4)
    else if op == 0x6d then Convert(ToU4)
    else if op == 0xd1 then Convert(ToU2)
    else if op == 0xd2 then Convert(ToU1)
    else if 0xfe01 <= op <= 0xfe05 then Compare(COMPARISONS[op - 0xfe01])
    else Nop
  }

  // Where an instruction may branch to.
  function Targets(i: Instr): seq<nat> {
    match i
    case Branch(t) => [t]
    case BranchIf(_, t) => [t]
    case BranchOn(_, t) => [t]
    case Switch(ts) => ts
    case _ => []
  }

  // ---------------------------------------------------------------- the machine

  datatype Value = V32(v: int) | V64(v: int) {
    function Width(): Width {
      if V32? then W32 else W64
    }
  }

  predicate IsValue(x: Value) {
    InRange(x.Width(), x.v)
  }

  function ValueOf(w: Width, v: int): Value {
    if w.W32? then V32(v) else V64(v)
  }

  datatype CilState = CilState(ofs: nat, stack: Stack<Value>, args: seq<Value>, locals: seq<Value>)

  datatype Outcome = Next(state: CilState) | Done(result: Option<Value>) | Stuck

  // A value stored in an argument or a local of a small type is truncated.
  function Truncated(t: Ty, x: Value): Value {
    if x.V64? then x
    else
      match t
      case SByte => V32(SignExtended(0x100, x.v))
      case Boolean => V32(x.v % 0x100)
      case Byte => V32(x.v % 0x100)
      case Int16 => V32(SignExtended(0x1_0000, x.v))
      case Char => V32(x.v % 0x1_0000)
      case UInt16 => V32(x.v % 0x1_0000)
      case _ => x
  }

  function Goto(s: CilState, stack: Stack<Value>, ofs: nat): Outcome {
    Next(s.(stack := stack, ofs := ofs))
  }

  // One instruction, of which next is the offset of the one that follows.
  function Execute(sig: Signature, i: Instr, next: nat, s: CilState): Outcome {
    var st := s.stack;
    match i
    case Nop => Goto(s, st, next)
    case Dup => if st.Empty? then Stuck else Goto(s, Push(st.top, st), next)
    case Pop => if st.Empty? then Stuck else Goto(s, st.below, next)
    case Const32(v) => Goto(s, Push(V32(v), st), next)
    case Const64(v) => Goto(s, Push(V64(v), st), next)
    case LoadArg(n) => if n >= |s.args| then Stuck else Goto(s, Push(s.args[n], st), next)
    case LoadLocal(n) => if n >= |s.locals| then Stuck else Goto(s, Push(s.locals[n], st), next)
    case StoreArg(n) =>
      if st.Empty? || n >= |s.args| || n >= |sig.args| || st.top.Width() != sig.args[n].Width() then Stuck
      else Next(s.(stack := st.below, ofs := next, args := s.args[n := Truncated(sig.args[n], st.top)]))
    case StoreLocal(n) =>
      if st.Empty? || n >= |s.locals| || n >= |sig.locals| || st.top.Width() != sig.locals[n].Width() then Stuck
      else Next(s.(stack := st.below, ofs := next, locals := s.locals[n := Truncated(sig.locals[n], st.top)]))
    case Return =>
      if sig.result.None? then (if st.Empty? then Done(None) else Stuck)
      else if st.Push? && st.below.Empty? && st.top.Width() == sig.result.value.Width() then Done(Some(st.top))
      else Stuck
    case Branch(t) => Goto(s, st, t)
    case BranchIf(nonzero, t) =>
      if st.Empty? then Stuck else Goto(s, st.below, if (st.top.v != 0) == nonzero then t else next)
    case BranchOn(c, t) =>
      if !HasTwo(st) || st.below.top.Width() != st.top.Width() then Stuck
      else Goto(s, st.below.below, if Satisfied(c, st.top.Width(), st.below.top.v, st.top.v) then t else next)
    case Switch(ts) =>
      if st.Empty? || st.top.V64? then Stuck
      else
        var k := Pattern(W32, st.top.v);
        Goto(s, st.below, if k < |ts| then ts[k] else next)
    case Arith(b) =>
      if !HasTwo(st) || st.below.top.Width() != st.top.Width() then Stuck
      else (
        var w := st.top.Width();
        match BinaryValue(b, w, st.below.top.v, st.top.v)
        case None => Stuck
        case Some(v) => Goto(s, Push(ValueOf(w, v), st.below.below), next)
      )
    case Complement(u) =>
      if st.Empty? then Stuck
      else var w := st.top.Width(); Goto(s, Push(ValueOf(w, UnaryValue(u, w, st.top.v)), st.below), next)
    case ShiftBy(h) =>
      if !HasTwo(st) || st.top.V64? then Stuck
      else (
        var w := st.below.top.Width();
        match ShiftValue(h, w, st.below.top.v, st.top.v)
        case None => Stuck
        case Some(v) => Goto(s, Push(ValueOf(w, v), st.below.below), next)
      )
    case Convert(c) => if st.Empty? then Stuck else Goto(s, Push(V32(ConvertedValue(c, st.top.v)), st.below), next)
    case Compare(c) =>
      if !HasTwo(st) || st.below.top.Width() != st.top.Width() then Stuck
      else
        var b := if Satisfied(c, st.top.Width(), st.below.top.v, st.top.v) then 1 else 0;
        Goto(s, Push(V32(b), st.below.below), next)
  }

  predicate HasTwo<T>(s: Stack<T>) {
    s.Push? && s.below.Push?
  }

  // One step of the method body.
  function Step(sig: Signature, code: seq<U8>, s: CilState): Outcome {
    match Decode(code, s.ofs)
    case None => Stuck
    case Some(l) => Execute(sig, Meaning(l), l.next, s)
  }

  // ---------------------------------------------------------------- typing

  // What an instruction does to the types on the stack; None when it may not be applied to them.
  function Flow(sig: Signature, i: Instr, st: Stack<Width>): Option<Stack<Width>> {
    match i
    case Nop => Some(st)
    case Dup => if st.Empty? then None else Some(Push(st.top, st))
    case Pop => if st.Empty? then None else Some(st.below)
    case Const32(_) => Some(Push(W32, st))
    case Const64(_) => Some(Push(W64, st))
    case LoadArg(n) => if n >= |sig.args| then None else Some(Push(sig.args[n].Width(), st))
    case LoadLocal(n) => if n >= |sig.locals| then None else Some(Push(sig.locals[n].Width(), st))
    case StoreArg(n) =>
      if st.Empty? || n >= |sig.args| || sig.args[n].Width() != st.top then None else Some(st.below)
    case StoreLocal(n) =>
      if st.Empty? || n >= |sig.locals| || sig.locals[n].Width() != st.top then None else Some(st.below)
    case Return =>
      if sig.result.None? then (if st.Empty? then Some(st) else None)
      else if st == Push(sig.result.value.Width(), Stack.Empty) then Some(st)
      else None
    case Branch(_) => Some(st)
    case BranchIf(_, _) => if st.Empty? then None else Some(st.below)
    case BranchOn(_, _) => if !HasTwo(st) || st.top != st.below.top then None else Some(st.below.below)
    case Switch(_) => if st.Empty? || st.top.W64? then None else Some(st.below)
    case Arith(_) => if !HasTwo(st) || st.top != st.below.top then None else Some(st.below)
    case Complement(_) => if st.Empty? then None else Some(st)
    case ShiftBy(_) => if !HasTwo(st) || st.top.W64? then None else Some(st.below)
    case Convert(_) => if st.Empty? then None else Some(Push(W32, st.below))
    case Compare(_) => if !HasTwo(st) || st.top != st.below.top then None else Some(Push(W32, st.below.below))
  }

  // Control never passes from br or ret to the instruction that follows.
  predicate Unconditional(l: Line) {
    l.op == 0x2a || l.op == 0x2b || l.op == 0x38
  }

  // The offsets at which instructions start, read one after the other.
  function Starts(code: seq<U8>, ofs: nat): set<nat>
    decreases |code| - ofs
  {
    match Decode(code, ofs)
    case None => {}
    case Some(l) => {ofs} + Starts(code, l.next)
  }

  // The types of the whole method body: one stack for each instruction, on which every way to reach it agrees.
  ghost predicate Typed(sig: Signature, code: seq<U8>, types: map<nat, Stack<Width>>) {
    && |code| > 0 && |code| < M32
    && types.Keys == Starts(code, 0) && 0 in types && types[0] == Stack.Empty
    && forall o <- types.Keys :: TypedAt(sig, code, types, o)
  }

  ghost predicate TypedAt(sig: Signature, code: seq<U8>, types: map<nat, Stack<Width>>, o: nat)
    requires o in types
  {
    && Decode(code, o).Some?
    && var l := Decode(code, o).value;
    && var after := Flow(sig, Meaning(l), types[o]);
    && after.Some?
    && (!Unconditional(l) ==> l.next in types && types[l.next] == after.value)
    && (l.next in types || l.next == |code|)
    && (forall t <- l.targets :: t in types && types[t] == after.value)
    && (Unconditional(l) && l.next in types && !ForwardTarget(code, types.Keys, o, l.next) ==> types[l.next] == Stack.Empty)
  }

  // Some instruction up to and including the one at o branches forward to t.
  ghost predicate ForwardTarget(code: seq<U8>, starts: set<nat>, o: nat, t: nat) {
    exists q <- starts :: q <= o && q < t && BranchesTo(code, q, t)
  }

  predicate BranchesTo(code: seq<U8>, q: nat, t: nat) {
    Decode(code, q).Some? && t in Decode(code, q).value.targets
  }
}
