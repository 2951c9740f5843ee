/**
 Machine integers of the two widths the evaluation stack knows. A bit pattern is a natural number
 below the modulus; a value is the signed integer the pattern stands for.
 */
module MachineInts {
  import opened Powers

  const M32 := 0x1_0000_0000
  const M64 := 0x1_0000_0000_0000_0000

  datatype Width = W32 | W64

  function Modulus(w: Width): nat {
    if w.W32? then M32 else M64
  }

  function Bits(w: Width): nat {
    if w.W32? then 32 else 64
  }

  predicate IsPattern(w: Width, p: int) {
    0 <= p < Modulus(w)
  }

  predicate InRange(w: Width, v: int) {
    0 <= v + Modulus(w) / 2 < Modulus(w)
  }

  // The C cast of a pattern to the signed type of its width.
  function Signed(w: Width, p: nat): int {
    if p < Modulus(w) / 2 then p else p - Modulus(w)
  }

  // The C cast of any integer to the unsigned type of a width.
  function Pattern(w: Width, v: int): (p: nat)
    ensures IsPattern(w, p)
  {
    match w
    case W32 => v % M32
    case W64 => v % M64
  }

  // The value of the given width that is congruent to v.
  function Wrap(w: Width, v: int): int {
    Signed(w, Pattern(w, v))
  }

  lemma SignedPattern(w: Width, v: int)
    requires InRange(w, v)
    ensures Signed(w, Pattern(w, v)) == v
  {
  }

  lemma PatternSigned(w: Width, p: nat)
    requires IsPattern(w, p)
    ensures Pattern(w, Signed(w, p)) == p && InRange(w, Signed(w, p))
  {
  }

  // Congruent integers have the same pattern.
  lemma PatternShift(w: Width, v: int, k: int)
    ensures Pattern(w, v + Modulus(w) * k) == Pattern(w, v)
  {
    var m := Modulus(w);
    RemainderIs(v + m * k, m, v / m + k, v % m);
  }

  // ---------------------------------------------------------------- bitwise operations

  datatype Bitwise = AndBits | OrBits | XorBits

  function BitOf(f: Bitwise, a: nat, b: nat): nat
    requires a < 2 && b < 2
  {
    match f
    case AndBits => a * b
    case OrBits => if a + b == 0 then 0 else 1
    case XorBits => (a + b) % 2
  }

  // Bit by bit, from the lowest bit up.
  function OnBits(f: Bitwise, a: nat, b: nat): nat
    decreases a + b
  {
    if a == 0 && b == 0 then 0
    else BitOf(f, a % 2, b % 2) + 2 * OnBits(f, a / 2, b / 2)
  }

  // The bit of a number that counts 2^k.
  predicate HasBit(a: nat, k: nat) {
    a / Pow2(k) % 2 == 1
  }

  // Both bits, at least one, or exactly one.
  predicate Combined(f: Bitwise, x: bool, y: bool) {
    match f
    case AndBits => x && y
    case OrBits => x || y
    case XorBits => x != y
  }

  lemma QuotientTwice(a: nat, half: nat)
    requires half > 0
    ensures a / (2 * half) == a / 2 / half
  {
    HalfRemainder(a, half);
    var q, s := a / 2 / half, a / 2 % half;
    assert a / 2 == q * half + s;
    assert a == q * (2 * half) + (2 * s + a % 2);
    QuotientsAgree(2 * half, q, 2 * s + a % 2, a / (2 * half), a % (2 * half));
  }

  // A bit above the lowest one, of the number or of its half.
  lemma BitOfHalf(a: nat, k: nat)
    requires k > 0
    ensures HasBit(a, k) <==> HasBit(a / 2, k - 1)
  {
    QuotientTwice(a, Pow2(k - 1));
  }

  // Every bit of the result is that of the operands, combined.
  lemma {:induction false} BitsAreCombined(f: Bitwise, a: nat, b: nat, k: nat)
    ensures HasBit(OnBits(f, a, b), k) <==> Combined(f, HasBit(a, k), HasBit(b, k))
    decreases k
  {
    if k > 0 {
      BitOfHalf(a, k);
      BitOfHalf(b, k);
      BitOfHalf(OnBits(f, a, b), k);
      HalfOnBits(f, a, b);
      BitsAreCombined(f, a / 2, b / 2, k - 1);
    } else {
      assert Pow2(0) == 1;
      LowestBit(f, a, b);
    }
  }

  lemma OneBit(f: Bitwise, x: nat, y: nat)
    requires x < 2 && y < 2
    ensures BitOf(f, x, y) < 2 && (BitOf(f, x, y) == 1 <==> Combined(f, x == 1, y == 1))
  {
  }

  lemma Assembled(x: nat, rest: nat)
    requires x < 2
    ensures (x + 2 * rest) / 2 == rest && (x + 2 * rest) % 2 == x
  {
  }

  lemma HalfOnBits(f: Bitwise, a: nat, b: nat)
    ensures OnBits(f, a, b) / 2 == OnBits(f, a / 2, b / 2)
  {
    if a != 0 || b != 0 {
      OneBit(f, a % 2, b % 2);
      Assembled(BitOf(f, a % 2, b % 2), OnBits(f, a / 2, b / 2));
    }
  }

  lemma LowestBit(f: Bitwise, a: nat, b: nat)
    ensures OnBits(f, a, b) % 2 == 1 <==> Combined(f, a % 2 == 1, b % 2 == 1)
  {
    OneBit(f, a % 2, b % 2);
    if a != 0 || b != 0 {
      Assembled(BitOf(f, a % 2, b % 2), OnBits(f, a / 2, b / 2));
    }
  }

  // A power of two has one bit.
  lemma {:induction false} BitsOfPower(n: nat, k: nat)
    ensures HasBit(Pow2(n), k) <==> k == n
    decreases k
  {
    if k == 0 {
      assert Pow2(0) == 1;
      if n > 0 {
        assert Pow2(n) == 2 * Pow2(n - 1);
      }
    } else if n == 0 {
      BitOfHalf(1, k);
      NoBitsOfZero(k - 1);
      assert Pow2(0) == 1;
    } else {
      BitOfHalf(Pow2(n), k);
      BitsOfPower(n - 1, k - 1);
      assert Pow2(n) / 2 == Pow2(n - 1);
    }
  }

  lemma NoBitsOfZero(k: nat)
    ensures !HasBit(0, k)
  {
  }

  // A number has a bit unless it is 0.
  lemma {:induction false} SomeBit(a: nat) returns (k: nat)
    requires a > 0
    ensures HasBit(a, k)
  {
    if a % 2 == 1 {
      k := 0;
      assert Pow2(0) == 1;
    } else {
      var j := SomeBit(a / 2);
      k := j + 1;
      BitOfHalf(a, k);
    }
  }

  // Two numbers with the same bits are the same.
  lemma {:induction false} SameBits(a: nat, b: nat)
    requires forall k: nat :: HasBit(a, k) <==> HasBit(b, k)
    ensures a == b
    decreases a + b
  {
    assert Pow2(0) == 1;
    assert HasBit(a, 0) <==> HasBit(b, 0);
    if a + b > 0 {
      forall k: nat ensures HasBit(a / 2, k) <==> HasBit(b / 2, k) {
        BitOfHalf(a, k + 1);
        BitOfHalf(b, k + 1);
        assert HasBit(a, k + 1) <==> HasBit(b, k + 1);
      }
      SameBits(a / 2, b / 2);
    }
  }

  // The complement within n bits turns every one of them.
  lemma {:induction false} BitsAreTurned(a: nat, n: nat, k: nat)
    requires a < Pow2(n) && k < n
    ensures HasBit(Pow2(n) - 1 - a, k) <==> !HasBit(a, k)
    decreases k
  {
    var half := Pow2(n - 1);
    ComplementOfHalf(a, half);
    if k > 0 {
      BitOfHalf(a, k);
      BitOfHalf(2 * half - 1 - a, k);
      BitsAreTurned(a / 2, n - 1, k - 1);
    } else {
      assert Pow2(0) == 1;
    }
  }

  lemma ComplementOfHalf(a: nat, half: nat)
    requires a < 2 * half
    ensures (2 * half - 1 - a) / 2 == half - 1 - a / 2 && (2 * half - 1 - a) % 2 == 1 - a % 2
  {
  }

  lemma {:induction false} OnBitsBound(f: Bitwise, a: nat, b: nat, n: nat)
    requires a < Pow2(n) && b < Pow2(n)
    ensures OnBits(f, a, b) < Pow2(n)
    decreases n
  {
    if n > 0 {
      OnBitsBound(f, a / 2, b / 2, n - 1);
    }
  }

  lemma Pow2Of64()
    ensures Pow2(32) == M32 && Pow2(64) == M64 && Pow2(8) == 0x100 && Pow2(16) == 0x1_0000
  {
    assert Pow2(8) == 0x100;
    assert Pow2(16) == 0x1_0000;
    assert Pow2(24) == 0x100_0000;
    assert Pow2(32) == M32;
    assert Pow2(40) == 0x100 * M32;
    assert Pow2(48) == 0x1_0000 * M32;
    assert Pow2(56) == 0x100_0000 * M32;
  }

  lemma OnPatterns(w: Width, f: Bitwise, a: nat, b: nat)
    requires IsPattern(w, a) && IsPattern(w, b)
    ensures IsPattern(w, OnBits(f, a, b))
  {
    Pow2Of64();
    OnBitsBound(f, a, b, Bits(w));
  }

  // A mask of n ones takes the remainder.
  lemma {:induction false} AndMask(a: nat, n: nat)
    ensures OnBits(AndBits, a, Pow2(n) - 1) == a % Pow2(n)
    decreases n
  {
    if n == 0 {
      AndZero(a);
    } else {
      AndMask(a / 2, n - 1);
      AndDoubled(a, Pow2(n - 1), Pow2(n));
    }
  }

  lemma AndDoubled(a: nat, half: nat, m: nat)
    requires half > 0 && m == 2 * half && OnBits(AndBits, a / 2, half - 1) == a / 2 % half
    ensures OnBits(AndBits, a, m - 1) == a % m
  {
    AndOddMask(a, half);
    HalfRemainder(a, half);
  }

  lemma AndOddMask(a: nat, half: nat)
    requires half > 0
    ensures OnBits(AndBits, a, 2 * half - 1) == a % 2 + 2 * OnBits(AndBits, a / 2, half - 1)
  {
    assert (2 * half - 1) % 2 == 1 && (2 * half - 1) / 2 == half - 1;
  }

  lemma {:induction false} AndZero(a: nat)
    ensures OnBits(AndBits, a, 0) == 0
  {
    if a > 0 {
      AndZero(a / 2);
    }
  }

  lemma HalfRemainder(a: nat, half: nat)
    requires half > 0
    ensures a % (2 * half) == a % 2 + 2 * (a / 2 % half)
  {
    var h, r := a / 2, a % 2;
    var q, s := h / half, h % half;
    assert h == q * half + s;
    assert a == q * (2 * half) + (2 * s + r);
    RemainderIs(a, 2 * half, q, 2 * s + r);
  }

  lemma RemainderIs(a: int, m: nat, q: int, r: nat)
    requires 0 < m && a == q * m + r && r < m
    ensures a % m == r
  {
    assert a == a / m * m + a % m;
    QuotientsAgree(m, q, r, a / m, a % m);
  }

  lemma QuotientsAgree(m: nat, q: int, r: nat, q': int, r': nat)
    requires r < m && r' < m && q * m + r == q' * m + r'
    ensures q == q' && r == r'
  {
    assert (q - q') * m == r' - r;
    if q > q' {
      AtLeast(q - q', m);
    } else if q < q' {
      AtLeast(q' - q, m);
    }
  }

  lemma AtLeast(k: int, m: nat)
    requires k >= 1
    ensures k * m >= m
  {
  }

  // ---------------------------------------------------------------- division that truncates toward zero

  function Abs(a: int): nat {
    if a < 0 then -a else a
  }

  function TruncDiv(a: int, b: int): int
    requires b != 0
  {
    if (a < 0) == (b < 0) then Abs(a) / Abs(b) else -(Abs(a) / Abs(b))
  }

  function TruncRem(a: int, b: int): int
    requires b != 0
  {
    if a < 0 then -(Abs(a) % Abs(b)) else Abs(a) % Abs(b)
  }

  // Quotient and remainder make up the dividend; the remainder is smaller than the divisor and has the
  // sign of the dividend.
  lemma TruncDivRem(a: int, b: int)
    requires b != 0
    ensures a == TruncDiv(a, b) * b + TruncRem(a, b)
    ensures Abs(TruncRem(a, b)) < Abs(b) && (TruncRem(a, b) != 0 ==> (TruncRem(a, b) < 0 <==> a < 0))
  {
  }
}
