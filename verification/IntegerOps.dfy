/**
 The integer instructions: what the common language infrastructure says they compute on values
 (ECMA-335, Partition III, section 3), what the interpreter computes on bit patterns, and that
 the two agree. Undefined behaviour, or an exception, is None on either side.
 */
module IntegerOps {
  import opened MachineInts
  import opened Powers
  import opened Options

  datatype Binary = Add | Sub | Mul | Div | DivUn | Rem | RemUn | And | Or | Xor
  datatype Unary = Neg | Not
  datatype Shift = Shl | Shr | ShrUn
  datatype Condition = Eq | Ge | Gt | Le | Lt | NeUn | GeUn | GtUn | LeUn | LtUn
  datatype Conversion = ToI1 | ToI2 | ToI4 | ToU1 | ToU2 | ToU4

  // ---------------------------------------------------------------- on values

  // The value whose pattern is that of the operands, taken bit by bit.
  function BitwiseValue(w: Width, f: Bitwise, a: int, b: int): int {
    Wrap(w, OnBits(f, Pattern(w, a), Pattern(w, b)))
  }

  function BinaryValue(op: Binary, w: Width, a: int, b: int): Option<int> {
    match op
    case Add => Some(Wrap(w, a + b))
    case Sub => Some(Wrap(w, a - b))
    case Mul => Some(Wrap(w, a * b))
    case Div => if b == 0 || (b == -1 && !InRange(w, -a)) then None else Some(TruncDiv(a, b))
    case Rem => if b == 0 || (b == -1 && !InRange(w, -a)) then None else Some(TruncRem(a, b))
    case DivUn => if b == 0 then None else Some(UnsignedDiv(w, a, b))
    case RemUn => if b == 0 then None else Some(UnsignedRem(w, a, b))
    case And => Some(BitwiseValue(w, AndBits, a, b))
    case Or => Some(BitwiseValue(w, OrBits, a, b))
    case Xor => Some(BitwiseValue(w, XorBits, a, b))
  }

  function UnsignedDiv(w: Width, a: int, b: int): int {
    if Pattern(w, b) == 0 then 0 else Wrap(w, Pattern(w, a) / Pattern(w, b))
  }

  function UnsignedRem(w: Width, a: int, b: int): int {
    if Pattern(w, b) == 0 then 0 else Wrap(w, Pattern(w, a) % Pattern(w, b))
  }

  function UnaryValue(op: Unary, w: Width, a: int): int {
    match op
    case Neg => Wrap(w, -a)
    case Not => -1 - a
  }

  function ShiftValue(op: Shift, w: Width, a: int, n: int): Option<int> {
    if !(0 <= n < Bits(w)) then None
    else
      match op
      case Shl => Some(Wrap(w, a * Pow2(n)))
      case Shr => Some(a / Pow2(n))
      case ShrUn => Some(Wrap(w, Pattern(w, a) / Pow2(n)))
  }

  predicate Satisfied(c: Condition, w: Width, a: int, b: int) {
    var p, q := Pattern(w, a), Pattern(w, b);
    match c
    case Eq => a == b
    case Ge => a >= b
    case Gt => a > b
    case Le => a <= b
    case Lt => a < b
    case NeUn => a != b
    case GeUn => p >= q
    case GtUn => p > q
    case LeUn => p <= q
    case LtUn => p < q
  }

  // The bit of the pattern of a value.
  predicate ValueHasBit(w: Width, v: int, k: nat) {
    Pattern(w, v) / Pow2(k) % 2 == 1
  }

  // The low bits of a, with their sign or with zeros above them.
  function SignExtended(m: nat, a: int): int
    requires m > 0
  {
    if a % m < m / 2 then a % m else a % m - m
  }

  function ConvertedValue(c: Conversion, a: int): int {
    match c
    case ToI1 => SignExtended(0x100, a)
    case ToI2 => SignExtended(0x1_0000, a)
    case ToI4 => SignExtended(M32, a)
    case ToU1 => a % 0x100
    case ToU2 => a % 0x1_0000
    case ToU4 => SignExtended(M32, a)
  }

  // ---------------------------------------------------------------- on patterns

  // What the code at the label computes, and None where the division traps. Sums, differences, products, negations and
  // left shifts of signed numbers that overflow, which the C language leaves undefined, are taken to wrap around.
  function BinaryPattern(op: Binary, w: Width, a: nat, b: nat): Option<nat> {
    var x, y := Signed(w, a), Signed(w, b);
    match op
    case Add => Some(Pattern(w, x + y))
    case Sub => Some(Pattern(w, x - y))
    case Mul => Some(Pattern(w, x * y))
    case Div => if y == 0 || (y == -1 && !InRange(w, -x)) then None else Some(Pattern(w, TruncDiv(x, y)))
    case Rem => if y == 0 || (y == -1 && !InRange(w, -x)) then None else Some(Pattern(w, TruncRem(x, y)))
    case DivUn => if b == 0 then None else Some(a / b)
    case RemUn => if b == 0 then None else Some(a % b)
    case And => Some(OnBits(AndBits, a, b))
    case Or => Some(OnBits(OrBits, a, b))
    case Xor => Some(OnBits(XorBits, a, b))
  }

  // -x and ~x in the type of the operand.
  function UnaryPattern(op: Unary, w: Width, a: nat): nat {
    match op
    case Neg => Pattern(w, -Signed(w, a))
    case Not => Pattern(w, Modulus(w) - 1 - a)
  }

  // The shift count is an unsigned 32-bit operand.
  function ShiftPattern(op: Shift, w: Width, a: nat, n: nat): Option<nat> {
    if n >= Bits(w) then None
    else
      match op
      case Shl => Some(Pattern(w, a * Pow2(n)))
      case Shr => Some(Pattern(w, Signed(w, a) / Pow2(n)))
      case ShrUn => Some(Quotient(a, Pow2(n)))
  }

  function Quotient(a: nat, divisor: nat): nat
    requires divisor > 0
  {
    a / divisor
  }

  predicate Compares(c: Condition, w: Width, a: nat, b: nat) {
    var x, y := Signed(w, a), Signed(w, b);
    match c
    case Eq => x == y
    case Ge => x >= y
    case Gt => x > y
    case Le => x <= y
    case Lt => x < y
    case NeUn => a != b
    case GeUn => a >= b
    case GtUn => a > b
    case LeUn => a <= b
    case LtUn => a < b
  }

  // ((I32)x << shift) >> shift
  function ShiftedBack(a: nat, shift: nat): nat {
    Pattern(W32, Wrap(W32, Signed(W32, a) * Pow2(shift)) / Pow2(shift))
  }

  // ---------------------------------------------------------------- the two agree

  lemma BinaryAgrees(op: Binary, w: Width, a: int, b: int)
    requires InRange(w, a) && InRange(w, b)
    ensures
      var v := BinaryValue(op, w, a, b);
      var p := BinaryPattern(op, w, Pattern(w, a), Pattern(w, b));
      && (v.None? <==> p.None?)
      && (v.Some? ==> InRange(w, v.value) && Pattern(w, v.value) == p.value)
  {
    SignedPattern(w, a);
    SignedPattern(w, b);
    var p, q := Pattern(w, a), Pattern(w, b);
    match op
    case Add => PatternSigned(w, Pattern(w, a + b));
    case Sub => PatternSigned(w, Pattern(w, a - b));
    case Mul => PatternSigned(w, Pattern(w, a * b));
    case Div => TruncInRange(w, a, b);
    case Rem => TruncInRange(w, a, b);
    case DivUn => UnsignedAgrees(w, a, b);
    case RemUn => UnsignedAgrees(w, a, b);
    case And => BitwiseAgrees(w, AndBits, a, b);
    case Or => BitwiseAgrees(w, OrBits, a, b);
    case Xor => BitwiseAgrees(w, XorBits, a, b);
  }

  lemma WrapPattern(w: Width, p: nat)
    requires IsPattern(w, p)
    ensures Pattern(w, p) == p && InRange(w, Wrap(w, p)) && Pattern(w, Wrap(w, p)) == p
  {
  }

  lemma BitwiseAgrees(w: Width, f: Bitwise, a: int, b: int)
    ensures InRange(w, BitwiseValue(w, f, a, b))
    ensures Pattern(w, BitwiseValue(w, f, a, b)) == OnBits(f, Pattern(w, a), Pattern(w, b))
  {
    OnPatterns(w, f, Pattern(w, a), Pattern(w, b));
    WrapPattern(w, OnBits(f, Pattern(w, a), Pattern(w, b)));
  }

  // In every bit, and is both, or is at least one, exclusive or is exactly one, and not is the other.
  lemma BitwiseInEveryBit(w: Width, a: int, b: int, k: nat)
    requires k < Bits(w) && InRange(w, a) && InRange(w, b)
    ensures ValueHasBit(w, BinaryValue(And, w, a, b).value, k) <==> ValueHasBit(w, a, k) && ValueHasBit(w, b, k)
    ensures ValueHasBit(w, BinaryValue(Or, w, a, b).value, k) <==> ValueHasBit(w, a, k) || ValueHasBit(w, b, k)
    ensures ValueHasBit(w, BinaryValue(Xor, w, a, b).value, k) <==> (ValueHasBit(w, a, k) <==> !ValueHasBit(w, b, k))
    ensures ValueHasBit(w, UnaryValue(Not, w, a), k) <==> !ValueHasBit(w, a, k)
  {
    var p, q := Pattern(w, a), Pattern(w, b);
    BitwiseAgrees(w, AndBits, a, b);
    BitwiseAgrees(w, OrBits, a, b);
    BitwiseAgrees(w, XorBits, a, b);
    BitsAreCombined(AndBits, p, q, k);
    BitsAreCombined(OrBits, p, q, k);
    BitsAreCombined(XorBits, p, q, k);
    NotInEveryBit(w, a, k);
  }

  lemma NotInEveryBit(w: Width, a: int, k: nat)
    requires k < Bits(w) && InRange(w, a)
    ensures ValueHasBit(w, UnaryValue(Not, w, a), k) <==> !ValueHasBit(w, a, k)
  {
    UnaryAgrees(Not, w, a);
    Pow2Of64();
    BitsAreTurned(Pattern(w, a), Bits(w), k);
    WrapPattern(w, Modulus(w) - 1 - Pattern(w, a));
  }

  lemma UnsignedAgrees(w: Width, a: int, b: int)
    requires InRange(w, a) && InRange(w, b)
    ensures b == 0 <==> Pattern(w, b) == 0
    ensures b != 0 ==>
              && InRange(w, UnsignedDiv(w, a, b)) && Pattern(w, UnsignedDiv(w, a, b)) == Pattern(w, a) / Pattern(w, b)
              && InRange(w, UnsignedRem(w, a, b)) && Pattern(w, UnsignedRem(w, a, b)) == Pattern(w, a) % Pattern(w, b)
  {
    var p, q := Pattern(w, a), Pattern(w, b);
    SignedPattern(w, b);
    assert b == 0 <==> q == 0;
    if q != 0 {
      QuotientBound(p, q);
      WrapPattern(w, p / q);
      WrapPattern(w, p % q);
    }
  }

  lemma QuotientBound(p: nat, q: nat)
    requires q > 0
    ensures 0 <= p / q <= p && 0 <= p % q <= p
  {
    assert p == p / q * q + p % q;
    if p / q > 0 {
      AtLeast(q, p / q);
    }
  }

  lemma TruncInRange(w: Width, a: int, b: int)
    requires InRange(w, a) && InRange(w, b)
    ensures b != 0 && !(b == -1 && !InRange(w, -a)) ==> InRange(w, TruncDiv(a, b)) && InRange(w, TruncRem(a, b))
  {
    if b != 0 && !(b == -1 && !InRange(w, -a)) {
      QuotientBound(Abs(a), Abs(b));
      if Abs(b) >= 2 {
        HalfQuotient(Abs(a), Abs(b));
      }
    }
  }

  lemma HalfQuotient(p: nat, q: nat)
    requires q >= 2
    ensures 2 * (p / q) <= p
  {
    assert p == p / q * q + p % q;
    assert p / q * q == p / q * (q - 2) + 2 * (p / q);
    if q > 2 && p / q > 0 {
      AtLeast(q - 2, p / q);
    }
  }

  lemma UnaryAgrees(op: Unary, w: Width, a: int)
    requires InRange(w, a)
    ensures InRange(w, UnaryValue(op, w, a)) && Pattern(w, UnaryValue(op, w, a)) == UnaryPattern(op, w, Pattern(w, a))
  {
    SignedPattern(w, a);
    match op
    case Neg => PatternSigned(w, Pattern(w, -a));
    case Not =>
      if a >= 0 {
        PatternShift(w, -1 - a, 1);
      } else {
        assert w.W32? || w.W64?;
      }
  }

  lemma ShiftAgrees(op: Shift, w: Width, a: int, n: int)
    requires InRange(w, a) && InRange(W32, n)
    ensures
      var v := ShiftValue(op, w, a, n);
      var p := ShiftPattern(op, w, Pattern(w, a), Pattern(W32, n));
      && (v.None? <==> p.None?)
      && (v.Some? ==> InRange(w, v.value) && Pattern(w, v.value) == p.value)
  {
    SignedPattern(w, a);
    SignedPattern(W32, n);
    if 0 <= n < Bits(w) {
      var p, k := Pattern(w, a), Pow2(n);
      match op
      case Shl =>
        ShiftLeftAgrees(w, a, k);
        PatternSigned(w, Pattern(w, a * k));
      case Shr => FloorInRange(w, a, k);
      case ShrUn =>
        QuotientBound(p, k);
        WrapPattern(w, p / k);
    }
  }

  lemma ShiftLeftAgrees(w: Width, a: int, k: nat)
    requires InRange(w, a)
    ensures Pattern(w, Pattern(w, a) * k) == Pattern(w, a * k)
  {
    SignedPattern(w, a);
    var m := Modulus(w);
    if a < 0 {
      assert Pattern(w, a) == a + m;
      assert (a + m) * k == a * k + m * k;
      PatternShift(w, a * k, k);
    }
  }

  lemma FloorInRange(w: Width, a: int, k: nat)
    requires InRange(w, a) && k >= 1
    ensures InRange(w, a / k)
  {
  }

  lemma CompareAgrees(c: Condition, w: Width, a: int, b: int)
    requires InRange(w, a) && InRange(w, b)
    ensures Compares(c, w, Pattern(w, a), Pattern(w, b)) == Satisfied(c, w, a, b)
  {
    SignedPattern(w, a);
    SignedPattern(w, b);
  }

  // Scaling dividend and divisor scales the remainder.
  lemma ScaledRemainder(x: int, m: nat, k: nat)
    requires m > 0 && k > 0
    ensures x * k % (m * k) == x % m * k
  {
    var q, r := x / m, x % m;
    assert x == q * m + r;
    assert x * k == q * (m * k) + r * k;
    AtLeast(m - r, k);
    assert (m - r) * k == m * k - r * k;
    RemainderIs(x * k, m * k, q, r * k);
  }

  // A remainder by m can be taken after one by a multiple of m.
  lemma RemainderTwice(v: int, m: nat, k: nat)
    requires m > 0 && k > 0
    ensures v % (m * k) % m == v % m
  {
    var n := m * k;
    var q, a := v / n, v % n;
    assert v == q * n + a && a == a / m * m + a % m;
    assert q * n == q * k * m;
    assert v == (q * k + a / m) * m + a % m;
    RemainderIs(v, m, q * k + a / m, a % m);
  }

  lemma PowersOf32(n: nat)
    requires n in {8, 16, 32}
    ensures Pow2(n) * Pow2(32 - n) == M32 && Pow2(n) % 2 == 0
  {
    Pow2Of64();
    assert Pow2(24) == 0x100_0000 && Pow2(0) == 1;
  }

  // Shifting up and back down by 32 - n bits extends the sign of the low n bits.
  lemma SignExtensionAgrees(a: nat, v: int, n: nat)
    requires n in {8, 16, 32} && a == Pattern(W32, v)
    ensures ShiftedBack(a, 32 - n) == Pattern(W32, SignExtended(Pow2(n), v))
  {
    var m, k := Pow2(n), Pow2(32 - n);
    PowersOf32(n);
    var x := Signed(W32, a);
    RemainderTwice(v, m, k);
    RemainderTwice(x, m, k);
    PatternSigned(W32, a);
    var r := v % m;
    assert x % m == r;
    ScaledRemainder(x, m, k);
    assert Pattern(W32, x * k) == r * k;
    ShiftedHalf(r, m, k);
    var y := SignExtended(m, v);
    assert Wrap(W32, x * k) == y * k;
    DivideBack(y, k);
  }

  lemma DivideBack(y: int, k: nat)
    requires k > 0
    ensures y * k / k == y
  {
    var q := y * k / k;
    assert y * k == q * k + y * k % k;
    QuotientsAgree(k, y, 0, q, y * k % k);
  }

  lemma ShiftedHalf(r: nat, m: nat, k: nat)
    requires r < m && m * k == M32 && m % 2 == 0
    ensures (r - m) * k == r * k - M32
    ensures r < m / 2 <==> r * k < M32 / 2
  {
  }

  // Modulo a divisor of 2^32 a value and its pattern are the same.
  lemma PatternRemainder(w: Width, v: int, m: nat, k: nat)
    requires m > 0 && k > 0 && m * k == M32
    ensures Pattern(w, v) % m == v % m
  {
    if w.W32? {
      RemainderTwice(v, m, k);
    } else {
      WideDivisor(m, k);
      RemainderTwice(v, m, k * M32);
    }
  }

  lemma WideDivisor(m: nat, k: nat)
    requires m * k == M32
    ensures m * (k * M32) == M64
  {
  }

  lemma SmallRemainder(v: int, m: nat, k: nat)
    requires m > 0 && k > 0
    ensures v % m < m * k
  {
  }

  // A mask of n ones clears the bits above the low n.
  lemma ZeroExtensionAgrees(w: Width, v: int, n: nat)
    requires n in {8, 16, 32}
    ensures OnBits(AndBits, Pattern(w, v), Pow2(n) - 1) == v % Pow2(n) < M32
  {
    var m, k := Pow2(n), Pow2(32 - n);
    PowersOf32(n);
    AndMask(Pattern(w, v), n);
    PatternRemainder(w, v, m, k);
    SmallRemainder(v, m, k);
  }

  // The low word of a pattern.
  lemma LowWord(w: Width, v: int)
    ensures Pattern(w, v) % M32 == Pattern(W32, v)
  {
  }

  function ShiftFor(c: Conversion): nat {
    match c
    case ToI1 => 24
    case ToI2 => 16
    case _ => 0
  }

  function MaskFor(c: Conversion): nat {
    match c
    case ToU1 => 0xff
    case ToU2 => 0xffff
    case _ => M32 - 1
  }

  predicate IsSigned(c: Conversion) {
    c.ToI1? || c.ToI2? || c.ToI4?
  }

  lemma ConversionAgrees(c: Conversion, w: Width, v: int)
    ensures InRange(W32, ConvertedValue(c, v))
    ensures
      var p := Pattern(w, v);
      Pattern(W32, ConvertedValue(c, v)) ==
        if IsSigned(c) then ShiftedBack(p % M32, ShiftFor(c)) else OnBits(AndBits, p, MaskFor(c)) % M32
  {
    if IsSigned(c) {
      SignedConversion(c, w, v);
    } else {
      UnsignedConversion(c, w, v);
    }
  }

  lemma SignedConversion(c: Conversion, w: Width, v: int)
    requires IsSigned(c)
    ensures InRange(W32, ConvertedValue(c, v))
    ensures Pattern(W32, ConvertedValue(c, v)) == ShiftedBack(Pattern(w, v) % M32, ShiftFor(c))
  {
    LowWord(w, v);
    Pow2Of64();
    SignExtensionAgrees(Pattern(w, v) % M32, v, 32 - ShiftFor(c));
  }

  lemma UnsignedConversion(c: Conversion, w: Width, v: int)
    requires !IsSigned(c)
    ensures InRange(W32, ConvertedValue(c, v))
    ensures Pattern(W32, ConvertedValue(c, v)) == OnBits(AndBits, Pattern(w, v), MaskFor(c)) % M32
  {
    Pow2Of64();
    FullWord(v);
    ZeroExtensionAgrees(w, v, if c.ToU1? then 8 else if c.ToU2? then 16 else 32);
  }

  lemma FullWord(v: int)
    ensures Pattern(W32, SignExtended(M32, v)) == v % M32 == v % M32 % M32 && InRange(W32, SignExtended(M32, v))
  {
    PatternSigned(W32, v % M32);
  }
}
