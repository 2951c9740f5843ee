/**
 How instructions are written down: the opcode and its operand, as Partition III of ECMA-335 lays them out. What is written
 is what the translator reads, and what it reads has been written like this.
 */
module Assembly {
  import opened MachineInts
  import opened IntegerOps
  import opened Options
  import opened Cil

  // Whether nothing follows the opcode, or the short or the long form of an operand.
  datatype Form = Bare | Short | Long
  datatype Text = Text(form: Form, instr: Instr)

  // ---------------------------------------------------------------- opcodes

  function BareOpcode(i: Instr): Option<seq<U8>> {
    match i
    case Nop => Some([0x00])
    case LoadArg(n) => if n < 4 then Some([0x02 + n]) else None
    case LoadLocal(n) => if n < 4 then Some([0x06 + n]) else None
    case StoreLocal(n) => if n < 4 then Some([0x0a + n]) else None
    case Const32(v) => if -1 <= v <= 8 then Some([0x16 + v]) else None
    case Dup => Some([0x25])
    case Pop => Some([0x26])
    case Return => Some([0x2a])
    case Arith(b) => Some([match b
      case Add => 0x58
      case Sub => 0x59
      case Mul => 0x5a
      case Div => 0x5b
      case DivUn => 0x5c
      case Rem => 0x5d
      case RemUn => 0x5e
      case And => 0x5f
      case Or => 0x60
      case Xor => 0x61])
    case ShiftBy(h) => Some([match h case Shl => 0x62 case Shr => 0x63 case ShrUn => 0x64])
    case Complement(u) => Some([match u case Neg => 0x65 case Not => 0x66])
    case Convert(to) => Some([match to
      case ToI1 => 0x67
      case ToI2 => 0x68
      case ToI4 => 0x69
      case ToU4 => 0x6d
      case ToU2 => 0xd1
      case ToU1 => 0xd2])
    case Compare(c) => (
      match c
      case Eq => Some([0xfe, 0x01])
      case Gt => Some([0xfe, 0x02])
      case GtUn => Some([0xfe, 0x03])
      case Lt => Some([0xfe, 0x04])
      case LtUn => Some([0xfe, 0x05])
      case _ => None
    )
    case _ => None
  }

  // How far the branch on a condition is from the one on equality.
  function Rank(c: Condition): nat {
    match c
    case Eq => 0
    case Ge => 1
    case Gt => 2
    case Le => 3
    case Lt => 4
    case NeUn => 5
    case GeUn => 6
    case GtUn => 7
    case LeUn => 8
    case LtUn => 9
  }

  function ShortOpcode(i: Instr): Option<seq<U8>> {
    match i
    case LoadArg(n) => if n < 0x100 then Some([0x0e]) else None
    case StoreArg(n) => if n < 0x100 then Some([0x10]) else None
    case LoadLocal(n) => if n < 0x100 then Some([0x11]) else None
    case StoreLocal(n) => if n < 0x100 then Some([0x13]) else None
    case Const32(v) => if -0x80 <= v < 0x80 then Some([0x1f]) else None
    case Branch(_) => Some([0x2b])
    case BranchIf(nonzero, _) => Some([if nonzero then 0x2d else 0x2c])
    case BranchOn(c, _) => Some([0x2e + Rank(c)])
    case _ => None
  }

  function LongOpcode(i: Instr): Option<seq<U8>> {
    match i
    case LoadLocal(n) => if n < 0x1_0000 then Some([0xfe, 0x0c]) else None
    case StoreLocal(n) => if n < 0x1_0000 then Some([0xfe, 0x0e]) else None
    case Const32(v) => if -0x8000_0000 <= v < 0x8000_0000 then Some([0x20]) else None
    case Const64(v) => if -0x8000_0000_0000_0000 <= v < 0x8000_0000_0000_0000 then Some([0x21]) else None
    case Branch(_) => Some([0x38])
    case BranchIf(nonzero, _) => Some([if nonzero then 0x3a else 0x39])
    case BranchOn(c, _) => Some([0x3b + Rank(c)])
    case Switch(targets) => if |targets| < M32 then Some([0x45]) else None
    case _ => None
  }

  function Opcode(t: Text): Option<seq<U8>> {
    match t.form
    case Bare => BareOpcode(t.instr)
    case Short => ShortOpcode(t.instr)
    case Long => LongOpcode(t.instr)
  }

  // ---------------------------------------------------------------- operands

  // The lowest byte first.
  function Bytes(n: nat, v: nat): (r: seq<U8>)
    ensures |r| == n
  {
    if n == 0 then [] else [v % 0x100] + Bytes(n - 1, v / 0x100)
  }

  // How far it is from the end of the instruction to the target, in 32-bit arithmetic.
  function Displacement(target: nat, next: nat): int {
    var d := (target - next) % M32;
    if d < M32 / 2 then d else d - M32
  }

  function OperandSize(t: Text): nat {
    match t.form
    case Bare => 0
    case Short => 1
    case Long =>
      match t.instr
      case LoadLocal(_) => 2
      case StoreLocal(_) => 2
      case Const64(_) => 8
      case Switch(targets) => 4 + 4 * |targets|
      case _ => 4
  }

  // One displacement after the other.
  function TableBytes(targets: seq<nat>, next: nat): (r: seq<U8>)
    ensures |r| == 4 * |targets|
  {
    if targets == [] then [] else Bytes(4, Displacement(targets[0], next) % M32) + TableBytes(targets[1..], next)
  }

  // What is written behind the opcode of an instruction that ends at next.
  function OperandBytes(t: Text, next: nat): (r: seq<U8>)
    ensures |r| == OperandSize(t)
  {
    if t.form.Bare? then []
    else
      var n := OperandSize(t);
      match t.instr
      case LoadArg(k) => Bytes(n, k)
      case StoreArg(k) => Bytes(n, k)
      case LoadLocal(k) => Bytes(n, k)
      case StoreLocal(k) => Bytes(n, k)
      case Const32(v) => Bytes(n, v % M32)
      case Const64(v) => Bytes(n, v % M64)
      case Branch(target) => Bytes(n, Displacement(target, next) % M32)
      case BranchIf(_, target) => Bytes(n, Displacement(target, next) % M32)
      case BranchOn(_, target) => Bytes(n, Displacement(target, next) % M32)
      case Switch(targets) => if t.form.Long? then Bytes(4, |targets|) + TableBytes(targets, next) else Bytes(n, 0)
      case _ => Bytes(n, 0)
  }

  function SizeOf(t: Text): nat
    requires Opcode(t).Some?
  {
    |Opcode(t).value| + OperandSize(t)
  }

  // All targets are offsets, and a short branch reaches its own.
  predicate Writable(t: Text, ofs: nat) {
    && Opcode(t).Some?
    && (forall k :: 0 <= k < |Targets(t.instr)| ==> Targets(t.instr)[k] < M32)
    && (t.form.Short? ==>
          forall k :: 0 <= k < |Targets(t.instr)| ==> -0x80 <= Displacement(Targets(t.instr)[k], ofs + SizeOf(t)) < 0x80)
  }

  // The instruction at an offset.
  function Write(t: Text, ofs: nat): (r: seq<U8>)
    requires Writable(t, ofs)
    ensures |r| == SizeOf(t)
  {
    Opcode(t).value + OperandBytes(t, ofs + SizeOf(t))
  }

  // ---------------------------------------------------------------- what is written is read

  function Power256(n: nat): nat {
    if n == 0 then 1 else 0x100 * Power256(n - 1)
  }

  lemma Powers256()
    ensures Power256(1) == 0x100 && Power256(2) == 0x1_0000 && Power256(4) == M32 && Power256(8) == M64
  {
    assert Power256(3) == 0x100_0000;
    assert Power256(5) == 0x100 * M32 && Power256(6) == 0x1_0000 * M32 && Power256(7) == 0x100_0000 * M32;
  }

  lemma {:induction false} BytesAreRead(code: seq<U8>, ofs: nat, n: nat, v: nat)
    requires ofs + n <= |code| && code[ofs..ofs + n] == Bytes(n, v) && v < Power256(n)
    ensures Read(code, ofs, n) == v
    decreases n
  {
    if n > 0 {
      var b := Bytes(n, v);
      assert b[1..] == Bytes(n - 1, v / 0x100);
      assert code[ofs + 1..ofs + 1 + (n - 1)] == code[ofs..ofs + n][1..];
      assert code[ofs] == b[0];
      BytesAreRead(code, ofs + 1, n - 1, v / 0x100);
    }
  }

  // A displacement leads back to its target.
  lemma DisplacementLeadsBack(target: nat, next: nat)
    requires target < M32
    ensures Target(next, Displacement(target, next)) == target
    ensures Wrap(W32, Displacement(target, next) % M32) == Displacement(target, next)
  {
    var d := Displacement(target, next);
    var q := (target - next) / M32;
    assert target - next == q * M32 + (target - next) % M32;
    if d >= 0 {
      RemainderIs(next + d, M32, -q, target);
    } else {
      RemainderIs(next + d, M32, -q - 1, target);
    }
  }

  lemma {:induction false} TableIsRead(code: seq<U8>, ofs: nat, targets: seq<nat>, next: nat)
    requires ofs + 4 * |targets| <= |code| && code[ofs..ofs + 4 * |targets|] == TableBytes(targets, next)
    requires forall k :: 0 <= k < |targets| ==> targets[k] < M32
    ensures TableTargets(code, ofs, |targets|, next) == targets
    decreases |targets|
  {
    if targets != [] {
      var n := |targets|;
      var d := Displacement(targets[0], next);
      var all := code[ofs..ofs + 4 * n];
      assert all[..4] == Bytes(4, d % M32) && all[4..] == TableBytes(targets[1..], next);
      assert code[ofs..ofs + 4] == all[..4];
      assert code[ofs + 4..ofs + 4 + 4 * (n - 1)] == all[4..];
      Powers256();
      BytesAreRead(code, ofs, 4, d % M32);
      DisplacementLeadsBack(targets[0], next);
      TargetOfPattern(next, d);
      TableIsRead(code, ofs + 4, targets[1..], next);
    }
  }

  lemma TargetOfPattern(next: nat, d: int)
    ensures Target(next, d % M32) == Target(next, d)
  {
    var q := d / M32;
    RemainderIs(next + d % M32, M32, (next + d) / M32 - q, (next + d) % M32);
  }

  // The number of an opcode of one or two bytes.
  function Number(opcode: seq<U8>): nat {
    if |opcode| == 1 then opcode[0] else if |opcode| == 2 then 0xfe00 + opcode[1] as nat else 0
  }

  // The number behind the opcode.
  function Argument(t: Text): int {
    if t.form.Bare? then 0
    else
      match t.instr
      case LoadArg(n) => n
      case StoreArg(n) => n
      case LoadLocal(n) => n
      case StoreLocal(n) => n
      case Const32(v) => v
      case Const64(v) => v
      case _ => 0
  }

  // What there is to read of an instruction at an offset.
  function LineOf(t: Text, ofs: nat): Line
    requires Opcode(t).Some?
  {
    Line(Number(Opcode(t).value), Argument(t), Targets(t.instr), ofs + SizeOf(t))
  }

  // What control never passes: a return, and a branch without a condition, whether short or long.
  lemma NotPassed(t: Text, ofs: nat)
    requires Opcode(t).Some?
    ensures Unconditional(LineOf(t, ofs)) <==> t.instr.Return? || t.instr.Branch?
  {
  }

  lemma OpcodeIsRead(t: Text, code: seq<U8>, ofs: nat)
    requires Opcode(t).Some? && ofs + |Opcode(t).value| <= |code| && code[ofs..ofs + |Opcode(t).value|] == Opcode(t).value
    ensures Decode(code, ofs) == DecodeOperand(code, Number(Opcode(t).value), ofs + |Opcode(t).value|)
  {
    var o := Opcode(t).value;
    OpcodeShape(t);
    assert code[ofs] == code[ofs..ofs + |o|][0] == o[0];
    if |o| == 2 {
      assert code[ofs + 1] == code[ofs..ofs + |o|][1] == o[1];
    }
  }

  lemma OpcodeShape(t: Text)
    requires Opcode(t).Some?
    ensures var o := Opcode(t).value; if |o| == 1 then o[0] != 0xfe else |o| == 2 && o[0] == 0xfe
  {
  }

  // A line stands for the instruction that was written.
  lemma BareMeans(t: Text, next: nat)
    requires t.form.Bare? && Opcode(t).Some?
    ensures OperandOf(Number(Opcode(t).value)) == Some(NoOperand) && Targets(t.instr) == []
    ensures Meaning(Line(Number(Opcode(t).value), 0, [], next)) == t.instr
  {
    if t.instr.Arith? || t.instr.ShiftBy? || t.instr.Complement? {
      ArithmeticMeans(t, next);
    } else {
      OthersMean(t, next);
    }
  }

  lemma ArithmeticMeans(t: Text, next: nat)
    requires t.form.Bare? && Opcode(t).Some? && (t.instr.Arith? || t.instr.ShiftBy? || t.instr.Complement?)
    ensures OperandOf(Number(Opcode(t).value)) == Some(NoOperand)
    ensures Meaning(Line(Number(Opcode(t).value), 0, [], next)) == t.instr
  {
  }

  lemma OthersMean(t: Text, next: nat)
    requires t.form.Bare? && Opcode(t).Some? && !t.instr.Arith? && !t.instr.ShiftBy? && !t.instr.Complement?
    ensures OperandOf(Number(Opcode(t).value)) == Some(NoOperand) && Targets(t.instr) == []
    ensures Meaning(Line(Number(Opcode(t).value), 0, [], next)) == t.instr
  {
  }

  lemma ShortMeans(t: Text, next: nat)
    requires t.form.Short? && Opcode(t).Some?
    ensures OperandOf(Number(Opcode(t).value)) ==
            Some(if t.instr.Const32? then Signed8 else if Targets(t.instr) == [] then Unsigned8 else Displacement8)
    ensures Meaning(Line(Number(Opcode(t).value), Argument(t), Targets(t.instr), next)) == t.instr
  {
  }

  lemma LongMeans(t: Text, next: nat)
    requires t.form.Long? && Opcode(t).Some?
    ensures OperandOf(Number(Opcode(t).value)) ==
            Some(match t.instr
                 case Const32(_) => Signed32
                 case Const64(_) => Signed64
                 case LoadLocal(_) => Unsigned16
                 case StoreLocal(_) => Unsigned16
                 case Switch(_) => Operand.Table
                 case _ => Displacement32)
    ensures Meaning(Line(Number(Opcode(t).value), Argument(t), Targets(t.instr), next)) == t.instr
  {
  }

  lemma LineMeans(t: Text, ofs: nat)
    requires Opcode(t).Some?
    ensures Meaning(LineOf(t, ofs)) == t.instr
  {
    match t.form
    case Bare => BareMeans(t, ofs + SizeOf(t));
    case Short => ShortMeans(t, ofs + SizeOf(t));
    case Long => LongMeans(t, ofs + SizeOf(t));
  }

  // ---------------------------------------------------------------- operands are read

  lemma OneByteIsRead(code: seq<U8>, at: nat, v: nat)
    requires at < |code| && code[at..at + 1] == Bytes(1, v)
    ensures Read(code, at, 1) == v % 0x100
  {
    assert Bytes(1, v)[0] == v % 0x100;
    assert code[at] == code[at..at + 1][0];
    assert Read(code, at + 1, 0) == 0;
  }

  lemma SmallNumbers(v: int)
    requires -0x80 <= v < 0x80
    ensures SignExtended(0x100, v % M32 % 0x100) == v
  {
  }

  lemma ShortIsRead(t: Text, code: seq<U8>, at: nat, next: nat)
    requires t.form.Short? && Opcode(t).Some? && next == at + 1 <= |code| && code[at..next] == OperandBytes(t, next)
    requires forall k :: 0 <= k < |Targets(t.instr)| ==>
                           Targets(t.instr)[k] < M32 && -0x80 <= Displacement(Targets(t.instr)[k], next) < 0x80
    ensures DecodeOperand(code, Number(Opcode(t).value), at) ==
            Some(Line(Number(Opcode(t).value), Argument(t), Targets(t.instr), next))
  {
    ShortMeans(t, next);
    if Targets(t.instr) != [] {
      var target := Targets(t.instr)[0];
      var d := Displacement(target, next);
      assert Targets(t.instr) == [target];
      OneByteIsRead(code, at, d % M32);
      SmallNumbers(d);
      DisplacementLeadsBack(target, next);
    } else if t.instr.Const32? {
      OneByteIsRead(code, at, t.instr.v % M32);
      SmallNumbers(t.instr.v);
    } else {
      OneByteIsRead(code, at, t.instr.n);
    }
  }

  lemma LocalIsRead(t: Text, code: seq<U8>, at: nat, next: nat)
    requires t.form.Long? && Opcode(t).Some? && (t.instr.LoadLocal? || t.instr.StoreLocal?)
    requires next == at + 2 <= |code| && code[at..next] == Bytes(2, t.instr.n)
    ensures DecodeOperand(code, Number(Opcode(t).value), at) ==
            Some(Line(Number(Opcode(t).value), t.instr.n, [], next))
  {
    LongMeans(t, next);
    Powers256();
    BytesAreRead(code, at, 2, t.instr.n);
  }

  lemma Const32IsRead(t: Text, code: seq<U8>, at: nat, next: nat)
    requires t.form.Long? && Opcode(t).Some? && t.instr.Const32?
    requires next == at + 4 <= |code| && code[at..next] == Bytes(4, t.instr.v % M32)
    ensures DecodeOperand(code, Number(Opcode(t).value), at) ==
            Some(Line(Number(Opcode(t).value), t.instr.v, [], next))
  {
    LongMeans(t, next);
    Powers256();
    WrapsBack(W32, t.instr.v);
    BytesAreRead(code, at, 4, Pattern(W32, t.instr.v));
  }

  lemma WrapsBack(w: Width, v: int)
    requires InRange(w, v)
    ensures IsPattern(w, Pattern(w, v)) && Wrap(w, Pattern(w, v)) == v
  {
    SignedPattern(w, v);
    WrapPattern(w, Pattern(w, v));
  }

  lemma Signed64IsRead(code: seq<U8>, op: nat, at: nat, p: nat)
    requires OperandOf(op) == Some(Signed64) && at + 8 <= |code| && Read(code, at, 8) == p
    ensures DecodeOperand(code, op, at) == Some(Line(op, Wrap(W64, p), [], at + 8))
  {
  }

  lemma Const64IsRead(t: Text, code: seq<U8>, at: nat, next: nat)
    requires t.form.Long? && Opcode(t).Some? && t.instr.Const64?
    requires next == at + 8 <= |code| && code[at..next] == Bytes(8, t.instr.v % M64)
    ensures DecodeOperand(code, Number(Opcode(t).value), at) ==
            Some(Line(Number(Opcode(t).value), t.instr.v, [], next))
  {
    LongMeans(t, next);
    Powers256();
    WrapsBack(W64, t.instr.v);
    BytesAreRead(code, at, 8, Pattern(W64, t.instr.v));
    Signed64IsRead(code, Number(Opcode(t).value), at, Pattern(W64, t.instr.v));
  }

  lemma BranchIsRead(t: Text, code: seq<U8>, at: nat, next: nat)
    requires t.form.Long? && Opcode(t).Some? && Targets(t.instr) != [] && !t.instr.Switch? && Targets(t.instr)[0] < M32
    requires next == at + 4 <= |code| && code[at..next] == OperandBytes(t, next)
    ensures DecodeOperand(code, Number(Opcode(t).value), at) ==
            Some(Line(Number(Opcode(t).value), 0, Targets(t.instr), next))
  {
    LongMeans(t, next);
    Powers256();
    var target := Targets(t.instr)[0];
    assert Targets(t.instr) == [target];
    BytesAreRead(code, at, 4, Displacement(target, next) % M32);
    DisplacementLeadsBack(target, next);
  }

  lemma InTwo(code: seq<U8>, at: nat, a: seq<U8>, b: seq<U8>)
    requires at + |a| + |b| <= |code| && code[at..at + |a| + |b|] == a + b
    ensures code[at..at + |a|] == a && code[at + |a|..at + |a| + |b|] == b
  {
    var all := code[at..at + |a| + |b|];
    assert code[at..at + |a|] == all[..|a|] && code[at + |a|..at + |a| + |b|] == all[|a|..];
  }

  lemma SwitchIsRead(t: Text, code: seq<U8>, at: nat, end: nat)
    requires t.form.Long? && Opcode(t).Some? && t.instr.Switch?
    requires forall k :: 0 <= k < |t.instr.targets| ==> t.instr.targets[k] < M32
    requires end == at + OperandSize(t) <= |code| && code[at..end] == OperandBytes(t, end)
    ensures DecodeOperand(code, Number(Opcode(t).value), at) == Some(Line(Number(Opcode(t).value), 0, t.instr.targets, end))
  {
    LongMeans(t, end);
    Powers256();
    var n := |t.instr.targets|;
    InTwo(code, at, Bytes(4, n), TableBytes(t.instr.targets, end));
    BytesAreRead(code, at, 4, n);
    TableIsRead(code, at + 4, t.instr.targets, end);
    TableOperand(code, Number(Opcode(t).value), at, n, end);
  }

  lemma TableOperand(code: seq<U8>, op: nat, at: nat, n: nat, end: nat)
    requires OperandOf(op) == Some(Operand.Table) && end == at + 4 + 4 * n <= |code| && Read(code, at, 4) == n
    ensures DecodeOperand(code, op, at) == Some(Line(op, 0, TableTargets(code, at + 4, n, end), end))
  {
  }

  lemma OperandIsRead(t: Text, code: seq<U8>, ofs: nat, at: nat)
    requires Writable(t, ofs) && at == ofs + |Opcode(t).value|
    requires ofs + SizeOf(t) <= |code| && code[at..ofs + SizeOf(t)] == OperandBytes(t, ofs + SizeOf(t))
    ensures DecodeOperand(code, Number(Opcode(t).value), at) == Some(LineOf(t, ofs))
  {
    var next := ofs + SizeOf(t);
    if t.form.Bare? {
      BareMeans(t, next);
    } else if t.form.Short? {
      ShortIsRead(t, code, at, next);
    } else if t.instr.Switch? {
      SwitchIsRead(t, code, at, next);
    } else if Targets(t.instr) != [] {
      BranchIsRead(t, code, at, next);
    } else if t.instr.Const32? {
      Const32IsRead(t, code, at, next);
    } else if t.instr.Const64? {
      Const64IsRead(t, code, at, next);
    } else {
      LocalIsRead(t, code, at, next);
    }
  }

  // An instruction written at an offset is read there as what it is, up to where it ends.
  lemma WrittenIsRead(prefix: seq<U8>, t: Text, rest: seq<U8>)
    requires Writable(t, |prefix|)
    ensures Decode(prefix + Write(t, |prefix|) + rest, |prefix|) == Some(LineOf(t, |prefix|))
    ensures Meaning(LineOf(t, |prefix|)) == t.instr
  {
    var ofs, written := |prefix|, Write(t, |prefix|);
    var code := prefix + written + rest;
    assert code[ofs..ofs + |written|] == written;
    PlacedIsRead(code, t, ofs);
  }

  lemma Apart(code: seq<U8>, ofs: nat, at: nat, next: nat, a: seq<U8>, b: seq<U8>, both: seq<U8>)
    requires at == ofs + |a| && next == at + |b| <= |code| && code[ofs..next] == both == a + b
    ensures code[ofs..at] == a && code[at..next] == b
  {
    InTwo(code, ofs, a, b);
  }

  lemma Together(code: seq<U8>, ofs: nat, at: nat, next: nat, a: seq<U8>, b: seq<U8>)
    requires ofs <= at <= next <= |code| && code[ofs..at] == a && code[at..next] == b
    ensures code[ofs..next] == a + b && next == ofs + |a| + |b|
  {
  }

  lemma PlacedIsRead(code: seq<U8>, t: Text, ofs: nat)
    requires Writable(t, ofs) && ofs + SizeOf(t) <= |code| && code[ofs..ofs + SizeOf(t)] == Write(t, ofs)
    ensures Decode(code, ofs) == Some(LineOf(t, ofs)) && Meaning(LineOf(t, ofs)) == t.instr
  {
    var next := ofs + SizeOf(t);
    var opcode, operand := Opcode(t).value, OperandBytes(t, next);
    Apart(code, ofs, ofs + |opcode|, next, opcode, operand, Write(t, ofs));
    PartsAreRead(code, t, ofs, ofs + |opcode|, next);
    LineMeans(t, ofs);
  }

  lemma PartsAreRead(code: seq<U8>, t: Text, ofs: nat, at: nat, next: nat)
    requires Writable(t, ofs) && at == ofs + |Opcode(t).value| && next == ofs + SizeOf(t) <= |code|
    requires code[ofs..at] == Opcode(t).value && code[at..next] == OperandBytes(t, next)
    ensures Decode(code, ofs) == Some(LineOf(t, ofs))
  {
    OpcodeIsRead(t, code, ofs);
    OperandIsRead(t, code, ofs, at);
  }

  // ---------------------------------------------------------------- what is read has been written

  lemma ByteAndRest(b: U8, rest: nat)
    ensures (b + 0x100 * rest) % 0x100 == b && (b + 0x100 * rest) / 0x100 == rest
  {
  }

  lemma {:induction false} ReadGivesBytes(code: seq<U8>, ofs: nat, n: nat)
    requires ofs + n <= |code|
    ensures Bytes(n, Read(code, ofs, n)) == code[ofs..ofs + n] && Read(code, ofs, n) < Power256(n)
    decreases n
  {
    if n > 0 {
      var m, at, end := n - 1, ofs + 1, ofs + n;
      ReadGivesBytes(code, at, m);
      ByteAndRest(code[ofs], Read(code, at, m));
      Together(code, ofs, at, end, [code[ofs]], Bytes(m, Read(code, at, m)));
    }
  }

  // A displacement is that of its target.
  lemma TargetLeadsBack(next: nat, d: int)
    requires InRange(W32, d)
    ensures Target(next, d) < M32 && Displacement(Target(next, d), next) == d
  {
    var target := Target(next, d);
    var q := (next + d) / M32;
    assert next + d == q * M32 + target;
    if d >= 0 {
      RemainderIs(target - next, M32, -q, d);
    } else {
      RemainderIs(target - next, M32, -q - 1, d + M32);
    }
  }

  lemma {:induction false} TargetsAreOffsets(code: seq<U8>, ofs: nat, n: nat, next: nat)
    requires ofs + 4 * n <= |code|
    ensures forall t <- TableTargets(code, ofs, n, next) :: t < M32
    decreases n
  {
    if n > 0 {
      TargetsAreOffsets(code, ofs + 4, n - 1, next);
    }
  }

  lemma {:induction false} TableGivesBytes(code: seq<U8>, ofs: nat, n: nat, next: nat)
    requires ofs + 4 * n <= |code|
    ensures |TableTargets(code, ofs, n, next)| == n
    ensures TableBytes(TableTargets(code, ofs, n, next), next) == code[ofs..ofs + 4 * n]
    decreases n
  {
    TableLength(code, ofs, n, next);
    if n > 0 {
      var m, at := n - 1, ofs + 4;
      TableGivesBytes(code, at, m, next);
      FirstTarget(code, ofs, next);
      OneMoreTarget(code, ofs, at, Target(next, Read(code, ofs, 4)), TableTargets(code, at, m, next), next);
    }
  }

  lemma FirstTarget(code: seq<U8>, ofs: nat, next: nat)
    requires ofs + 4 <= |code|
    ensures Bytes(4, Displacement(Target(next, Read(code, ofs, 4)), next) % M32) == code[ofs..ofs + 4]
  {
    Powers256();
    ReadGivesBytes(code, ofs, 4);
    TargetOfWord(next, Read(code, ofs, 4));
  }

  lemma OneMoreTarget(code: seq<U8>, ofs: nat, at: nat, target: nat, rest: seq<nat>, next: nat)
    requires at == ofs + 4 && at + 4 * |rest| <= |code|
    requires Bytes(4, Displacement(target, next) % M32) == code[ofs..at] && TableBytes(rest, next) == code[at..at + 4 * |rest|]
    ensures TableBytes([target] + rest, next) == code[ofs..ofs + 4 * |[target] + rest|]
  {
    var all := [target] + rest;
    assert all[1..] == rest && all[0] == target;
    Together(code, ofs, at, at + 4 * |rest|, Bytes(4, Displacement(target, next) % M32), TableBytes(rest, next));
  }

  lemma TargetOfWord(next: nat, p: nat)
    requires p < M32
    ensures Target(next, p) < M32 && Displacement(Target(next, p), next) % M32 == p
    ensures Target(next, Wrap(W32, p)) == Target(next, p)
  {
    var d := Wrap(W32, p);
    WrapPattern(W32, p);
    TargetLeadsBack(next, d);
    TargetOfPattern(next, d);
  }

  function FormOf(o: Operand): Form {
    match o
    case NoOperand => Bare
    case Signed8 => Short
    case Unsigned8 => Short
    case Displacement8 => Short
    case _ => Long
  }

  // The number behind the opcode is one that its operand can hold, and a branch has one target.
  predicate Proper(o: Operand, l: Line) {
    match o
    case NoOperand => l.arg == 0 && l.targets == []
    case Signed8 => -0x80 <= l.arg < 0x80 && l.targets == []
    case Unsigned8 => 0 <= l.arg < 0x100 && l.targets == []
    case Unsigned16 => 0 <= l.arg < 0x1_0000 && l.targets == []
    case Signed32 => InRange(W32, l.arg) && l.targets == []
    case Signed64 => InRange(W64, l.arg) && l.targets == []
    case Displacement8 => l.arg == 0 && |l.targets| == 1
    case Displacement32 => l.arg == 0 && |l.targets| == 1
    case Table => l.arg == 0 && |l.targets| < M32
  }

  // The bytes of an opcode.
  function OpcodeOf(op: nat): seq<U8>
    requires op < 0x100 || 0xfe00 <= op < 0xff00
  {
    if op < 0x100 then [op] else [0xfe, op - 0xfe00]
  }

  // The line is what there is to read of the text.
  ghost predicate IsOf(o: Operand, l: Line, t: Text) {
    && t.form == FormOf(o) && (l.op < 0x100 || 0xfe00 <= l.op < 0xff00) && Opcode(t) == Some(OpcodeOf(l.op))
    && Argument(t) == l.arg && Targets(t.instr) == l.targets
    && OperandSize(t) == Size(o) + if o.Table? then 4 * |l.targets| else 0
  }

  // Every line of the fragment can be written.
  ghost predicate Stands(o: Operand, l: Line) {
    IsOf(o, l, Text(FormOf(o), Meaning(l)))
  }

  lemma BareStands(l: Line)
    requires OperandOf(l.op) == Some(NoOperand) && Proper(NoOperand, l)
    ensures Stands(NoOperand, l)
  {
  }

  lemma ShortStands(o: Operand, l: Line)
    requires OperandOf(l.op) == Some(o) && FormOf(o).Short? && Proper(o, l)
    ensures Stands(o, l)
  {
  }

  lemma LongStands(o: Operand, l: Line)
    requires OperandOf(l.op) == Some(o) && FormOf(o).Long? && Proper(o, l)
    ensures Stands(o, l)
  {
  }

  // What has been read behind an opcode is what is written there.
  ghost predicate Matches(code: seq<U8>, at: nat, o: Operand, l: Line, t: Text) {
    && IsOf(o, l, t) && at <= l.next <= |code|
    && (forall k :: 0 <= k < |l.targets| ==> l.targets[k] < M32)
    && (FormOf(o).Short? ==> forall k :: 0 <= k < |l.targets| ==> -0x80 <= Displacement(l.targets[k], l.next) < 0x80)
    && OperandBytes(t, l.next) == code[at..l.next]
  }

  lemma BareMatches(code: seq<U8>, op: nat, at: nat, l: Line)
    requires OperandOf(op) == Some(NoOperand) && DecodeOperand(code, op, at) == Some(l)
    ensures l.op == op && Matches(code, at, NoOperand, l, Text(Bare, Meaning(l)))
  {
    assert l == Line(op, 0, [], at);
    BareStands(l);
  }

  lemma ByteGivesBack(code: seq<U8>, at: nat)
    requires at < |code|
    ensures Read(code, at, 1) == code[at] && Bytes(1, code[at]) == code[at..at + 1]
    ensures var v := SignExtended(0x100, code[at]); -0x80 <= v < 0x80 && Bytes(1, v % M32) == code[at..at + 1]
  {
    assert Read(code, at + 1, 0) == 0;
    var v := SignExtended(0x100, code[at]);
    assert v % M32 % 0x100 == code[at];
    assert Bytes(1, v % M32) == [code[at] as U8] + Bytes(0, v % M32 / 0x100);
  }

  lemma ShortMatches(code: seq<U8>, op: nat, at: nat, o: Operand, l: Line)
    requires OperandOf(op) == Some(o) && FormOf(o).Short? && DecodeOperand(code, op, at) == Some(l)
    ensures l.op == op && Matches(code, at, o, l, Text(FormOf(o), Meaning(l)))
  {
    ByteGivesBack(code, at);
    var v := SignExtended(0x100, code[at]);
    TargetLeadsBack(at + 1, v);
    if o.Signed8? {
      assert l == Line(op, v, [], at + 1);
    } else if o.Unsigned8? {
      assert l == Line(op, code[at], [], at + 1);
    } else {
      assert l == Line(op, 0, [Target(at + 1, v)], at + 1);
    }
    ShortStands(o, l);
  }

  lemma LongMatches(code: seq<U8>, op: nat, at: nat, o: Operand, l: Line)
    requires OperandOf(op) == Some(o) && FormOf(o).Long? && !o.Table? && DecodeOperand(code, op, at) == Some(l)
    ensures l.op == op && Matches(code, at, o, l, Text(FormOf(o), Meaning(l)))
  {
    var n := Size(o);
    var p := Read(code, at, n);
    Powers256();
    ReadGivesBytes(code, at, n);
    LongLine(code, op, at, o, p);
    if o.Displacement32? {
      TargetOfWord(at + 4, p);
    } else if o.Signed32? {
      WrapPattern(W32, p);
    } else if o.Signed64? {
      WrapPattern(W64, p);
    }
    LongStands(o, l);
  }

  lemma LongLine(code: seq<U8>, op: nat, at: nat, o: Operand, p: nat)
    requires OperandOf(op) == Some(o) && FormOf(o).Long? && !o.Table? && at + Size(o) <= |code| && p == Read(code, at, Size(o))
    ensures DecodeOperand(code, op, at) ==
            Some(match o
                 case Unsigned16 => Line(op, p, [], at + 2)
                 case Signed32 => Line(op, Wrap(W32, p), [], at + 4)
                 case Signed64 => Line(op, Wrap(W64, p), [], at + 8)
                 case _ => Line(op, 0, [Target(at + 4, Wrap(W32, p))], at + 4))
  {
  }

  lemma TableMatches(code: seq<U8>, op: nat, at: nat, l: Line)
    requires OperandOf(op) == Some(Operand.Table) && DecodeOperand(code, op, at) == Some(l)
    ensures l.op == op && Matches(code, at, Operand.Table, l, Text(Long, Meaning(l)))
  {
    var n := Read(code, at, 4);
    Powers256();
    ReadGivesBytes(code, at, 4);
    TableOperand(code, op, at, n, at + 4 + 4 * n);
    TableGivesBytes(code, at + 4, n, l.next);
    TargetsAreOffsets(code, at + 4, n, l.next);
    LongStands(Operand.Table, l);
    SwitchMatches(code, at, at + 4, l, Text(Long, Meaning(l)));
  }

  lemma SwitchMatches(code: seq<U8>, at: nat, from: nat, l: Line, t: Text)
    requires IsOf(Operand.Table, l, t) && t.instr.Switch? && from == at + 4 && l.next == from + 4 * |l.targets| <= |code|
    requires forall target <- l.targets :: target < M32
    requires code[at..from] == Bytes(4, |l.targets|) && code[from..l.next] == TableBytes(l.targets, l.next)
    ensures Matches(code, at, Operand.Table, l, t)
  {
    Together(code, at, from, l.next, Bytes(4, |l.targets|), TableBytes(l.targets, l.next));
    forall k | 0 <= k < |l.targets| ensures l.targets[k] < M32 {
      assert l.targets[k] in l.targets;
    }
  }

  lemma DecodedMatches(code: seq<U8>, op: nat, at: nat, o: Operand, l: Line)
    requires OperandOf(op) == Some(o) && DecodeOperand(code, op, at) == Some(l)
    ensures l.op == op && Matches(code, at, o, l, Text(FormOf(o), Meaning(l)))
  {
    if o.NoOperand? {
      BareMatches(code, op, at, l);
    } else if FormOf(o).Short? {
      ShortMatches(code, op, at, o, l);
    } else if o.Table? {
      TableMatches(code, op, at, l);
    } else {
      LongMatches(code, op, at, o, l);
    }
  }

  lemma OpcodeBehind(code: seq<U8>, ofs: nat) returns (op: nat, at: nat)
    requires Decode(code, ofs).Some?
    ensures (op < 0x100 || 0xfe00 <= op < 0xff00) && at == ofs + |OpcodeOf(op)| <= |code| && code[ofs..at] == OpcodeOf(op)
    ensures OperandOf(op).Some? && DecodeOperand(code, op, at) == Decode(code, ofs)
  {
    if code[ofs] != 0xfe {
      op, at := code[ofs], ofs + 1;
      assert code[ofs..at] == [code[ofs]];
    } else {
      op, at := 0xfe00 + code[ofs + 1] as nat, ofs + 2;
      assert code[ofs..at] == [code[ofs], code[ofs + 1]];
    }
  }

  lemma TextEndsAt(t: Text, ofs: nat, next: nat)
    requires Opcode(t).Some? && next == ofs + |Opcode(t).value| + |OperandBytes(t, next)|
    ensures ofs + SizeOf(t) == next
  {
  }

  lemma OpcodeNumbered(op: nat)
    requires op < 0x100 || 0xfe00 <= op < 0xff00
    ensures Number(OpcodeOf(op)) == op && |OpcodeOf(op)| > 0
  {
  }

  lemma TextIsWritable(code: seq<U8>, ofs: nat, at: nat, o: Operand, l: Line, t: Text)
    requires Matches(code, at, o, l, t) && at == ofs + |OpcodeOf(l.op)| && ofs + SizeOf(t) == l.next
    ensures Writable(t, ofs) && LineOf(t, ofs) == l
  {
    OpcodeNumbered(l.op);
  }

  lemma WriteIs(t: Text, ofs: nat, next: nat, opcode: seq<U8>, operand: seq<U8>)
    requires Writable(t, ofs) && Opcode(t).value == opcode && next == ofs + SizeOf(t) && operand == OperandBytes(t, next)
    ensures Write(t, ofs) == opcode + operand
  {
  }

  lemma PartsAreWritten(code: seq<U8>, ofs: nat, at: nat, o: Operand, l: Line, t: Text)
    requires Matches(code, at, o, l, t) && at == ofs + |OpcodeOf(l.op)| && code[ofs..at] == OpcodeOf(l.op)
    ensures Writable(t, ofs) && LineOf(t, ofs) == l && ofs + SizeOf(t) == l.next && Write(t, ofs) == code[ofs..l.next]
  {
    TextEndsAt(t, ofs, l.next);
    TextIsWritable(code, ofs, at, o, l, t);
    WriteIs(t, ofs, l.next, OpcodeOf(l.op), code[at..l.next]);
    Together(code, ofs, at, l.next, OpcodeOf(l.op), code[at..l.next]);
  }

  // Whatever is read at an offset has been written there.
  lemma ReadIsWritten(code: seq<U8>, ofs: nat) returns (t: Text)
    requires Decode(code, ofs).Some?
    ensures
      var l := Decode(code, ofs).value;
      && Writable(t, ofs) && LineOf(t, ofs) == l && ofs + SizeOf(t) == l.next <= |code|
      && Write(t, ofs) == code[ofs..l.next]
  {
    var l := Decode(code, ofs).value;
    var op, at := OpcodeBehind(code, ofs);
    var o := OperandOf(op).value;
    t := Text(FormOf(o), Meaning(l));
    DecodedMatches(code, op, at, o, l);
    PartsAreWritten(code, ofs, at, o, l, t);
  }
}
