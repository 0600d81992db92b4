/** Integers and packed decimals (kernel/math/convert.c, get_put.c): int_to_real, real_to_int, get_BCD, put_BCD. */
module MathBcd {
  import opened Kernel
  import opened MathWords
  import opened MathConvert
  import opened MathMulDiv
  import opened MathReals

  /** A 64-bit integer with its sign apart. */
  datatype TempInt = TempInt(a: Word, b: Word, sign: bool) {
    function Value(): nat {
      a as int + b as int * B
    }
  }

  const ONE := 16383 + 63

  // ---------------------------------------------------------------- integers to reals

  /** How far a number is shifted until its top bit is set. */
  function Lead(n: nat): (k: nat)
    requires 0 < n < B2
    ensures Scaled(n, k) < B2 <= 2 * Scaled(n, k)
    decreases B2 - n
  {
    PowStep(n, 0);
    if 2 * n >= B2 then 0 else
      var k := Lead(2 * n);
      assert Scaled(2 * n, k) == Scaled(n, k + 1) by { PowStep(n, k); ScaledTwice(n, k); }
      k + 1
  }

  lemma ScaledTwice(n: nat, k: nat)
    ensures Scaled(2 * n, k) == 2 * Scaled(n, k)
  {
    var p := Pow2(k);
    hide Pow2;
    assert 2 * n * p == 2 * (n * p);
  }

  /** The temporary real that int_to_real makes of an integer. */
  function RealOf(n: nat, sign: bool): TempReal
    requires n < B2
  {
    if n == 0 then TempReal(0, 0, 0)
    else var m := Scaled(n, Lead(n)); TempReal(m % B, m / B, ExpOf(Lead(n), sign))
  }

  function ExpOf(k: nat, sign: bool): nat {
    if k <= ONE then ONE - k + SignBit(sign) else 0
  }

  lemma LeadSmall(n: nat)
    requires 0 < n < B2
    ensures Lead(n) < 64
  {
    PowConsts();
    if Lead(n) >= 64 {
      PowMono(64, Lead(n));
      Products(Pow2(Lead(n)), 1, n);
      assert false;
    }
  }

  lemma {:induction false} PowMono(m: nat, n: nat)
    requires m <= n
    ensures Pow2(m) <= Pow2(n)
  {
    if m < n { PowMono(m, n - 1); }
  }

  /** Both words shifted left by one bit. */
  lemma Doubled(a: Word, b: Word)
    requires b < 0x8000_0000
    ensures Sum(a, a, false) as int + Sum(b, b, Carry(a, a, false)) as int * B == 2 * (a as int + b as int * B) < B2
  {
  }

  lemma RealMade(n: nat, a: Word, b: Word, sign: bool)
    requires 0 < n < B2 && a as int + b as int * B == Scaled(n, Lead(n)) && Lead(n) < 64
    ensures TempReal(a, b, ONE - Lead(n) + SignBit(sign)) == RealOf(n, sign)
  {
    hide Scaled, Lead;
  }

  /** int_to_real */
  method IntToReal(t: TempInt) returns (r: TempReal)
    ensures r == RealOf(t.Value(), t.sign)
    ensures Value(r) == if t.sign then -(t.Value() as real) else t.Value() as real
  {
    RealOfValue(t.Value(), t.sign);
    hide Value, Pow2, Two, Magnitude;
    var a, b := t.a, t.b;
    if a == 0 && b == 0 {
      return TempReal(0, 0, 0);
    }
    ghost var n, k := t.Value(), 0;
    LeadSmall(n);
    PowStep(n, 0);
    hide Scaled, Lead, RealOf, Sum, Carry;
    var exponent := ONE;
    while b < 0x8000_0000
      invariant a as int + b as int * B == Scaled(n, k) && k <= Lead(n) && exponent == ONE - k
      decreases Lead(n) - k
    {
      Doubled(a, b);
      LeadNext(n, k);
      var carry := Carry(a, a, false);
      a, b, exponent := Sum(a, a, false), Sum(b, b, carry), exponent - 1;
      k := k + 1;
    }
    LeadDone(n, k);
    RealMade(n, a, b, t.sign);
    r := TempReal(a, b, exponent + SignBit(t.sign));
  }

  /** A real made of an integer is that integer. */
  lemma RealOfValue(n: nat, sign: bool)
    requires n < B2
    ensures RealOf(n, sign).Valid() && Magnitude(RealOf(n, sign)) == n as real
    ensures Value(RealOf(n, sign)) == if sign then -(n as real) else n as real
  {
    hide Two;
    if n > 0 {
      var k, r := Lead(n), RealOf(n, sign);
      LeadSmall(n);
      assert r.Mantissa() == Scaled(n, k) && r.Exp() == ONE - k by { hide Scaled, Lead; }
      MagnitudeUnits(r);
      UnitsShift(n, -(k as int), k);
      assert Two(0) == 1.0 by { TwoPow(0); }
      hide Magnitude, Scaled, Lead;
    }
  }

  /** Below the top bit the shift goes on. */
  lemma LeadNext(n: nat, k: nat)
    requires 0 < n < B2 && k <= Lead(n) && 2 * Scaled(n, k) < B2
    ensures k < Lead(n) && Scaled(n, k + 1) == 2 * Scaled(n, k)
  {
    PowStep(n, k);
  }

  lemma {:induction false} LeadDone(n: nat, k: nat)
    requires 0 < n < B2 && k <= Lead(n) && 2 * Scaled(n, k) >= B2
    ensures k == Lead(n)
  {
    if k < Lead(n) {
      PowMono(k + 1, Lead(n));
      PowStep(n, k);
      MulMono(n, Pow2(k + 1), Pow2(Lead(n)));
      assert false;
    }
  }

  // ---------------------------------------------------------------- packed decimals

  /** The number some bytes spell, two decimal digits each, lowest first. */
  function Decimal(bytes: seq<Byte>): nat {
    if bytes == [] then 0 else bytes[0] % 16 + bytes[0] / 16 * 10 + 100 * Decimal(bytes[1..])
  }

  /** The last 2k decimal digits of a number. */
  function Digits(n: nat, k: nat): (bytes: seq<Byte>)
    ensures |bytes| == k
  {
    if k == 0 then [] else [n % 10 + n / 10 % 10 * 16] + Digits(n / 100, k - 1)
  }

  function Hundred(k: nat): (p: nat)
    ensures p > 0
  {
    if k == 0 then 1 else 100 * Hundred(k - 1)
  }

  lemma {:induction false} DigitsDecimal(n: nat, k: nat)
    ensures Decimal(Digits(n, k)) == Mod(n, Hundred(k))
  {
    if k > 0 {
      DigitsDecimal(n / 100, k - 1);
      assert Digits(n, k)[1..] == Digits(n / 100, k - 1);
      TwoDigits(n);
      var d, p := Digits(n, k), Hundred(k - 1);
      assert Decimal(d) == n % 100 + 100 * Decimal(Digits(n / 100, k - 1)) && Hundred(k) == 100 * p;
      ModSplit(n, 100, p);
      assert n % 100 == Mod(n, 100) && n / 100 == Div(n, 100);
      hide Decimal, Digits, Hundred, Div, Mod;
    }
  }

  lemma TwoDigits(n: nat)
    ensures var c := n % 10 + n / 10 % 10 * 16; c % 16 + c / 16 * 10 == n % 100 && c < 256
  {
    var t, x := n / 10, n % 10;
    var s, y := t / 10, t % 10;
    assert (x + y * 16) % 16 == x && (x + y * 16) / 16 == y;
    assert n % 100 == 10 * y + x by { assert n == 100 * s + 10 * y + x; }
  }

  lemma ModSplit(n: nat, m: nat, p: nat)
    requires m > 0 && p > 0
    ensures m * p > 0 && Mod(n, m * p) == Mod(n, m) + m * Mod(Div(n, m), p)
    ensures Div(n, m * p) == Div(Div(n, m), p)
  {
    DivMod(n, m);
    DivMod(Div(n, m), p);
    var q, r := Div(n, m), Mod(n, m);
    var s, t := Div(q, p), Mod(q, p);
    MulMono(m, 1, p);
    hide Div, Mod;
    SplitProduct(s, p, t, m);
    MulMono(m, t + 1, p);
    Distribute(t, 1, m);
    FloorUnique(n, s, m * p);
  }

  lemma SplitProduct(s: nat, p: nat, t: nat, m: nat)
    ensures (s * p + t) * m == s * (m * p) + m * t && t * m == m * t
  {
    assert (s * p + t) * m == s * p * m + t * m;
    assert s * p * m == s * (m * p);
  }

  function TenTo(k: nat): (p: nat)
    ensures p > 0
  {
    if k == 0 then 1 else 10 * TenTo(k - 1)
  }

  /** Digit `i` of the number is half of byte i / 2, the low half first. */
  lemma {:induction false} DecimalDigit(bytes: seq<Byte>, i: nat)
    requires i < 2 * |bytes| && forall j | 0 <= j < |bytes| :: bytes[j] % 16 <= 9 && bytes[j] / 16 <= 9
    ensures Mod(Div(Decimal(bytes), TenTo(i)), 10) == if i % 2 == 0 then bytes[i / 2] % 16 else bytes[i / 2] / 16
    decreases i
  {
    var n, m := Decimal(bytes), Decimal(bytes[1..]);
    if i < 2 {
      assert TenTo(0) == 1 && TenTo(1) == 10;
      assert n % 10 == bytes[0] % 16 && n / 10 % 10 == bytes[0] / 16 by { LowDigits(bytes[0] % 16, bytes[0] / 16, m); }
    } else {
      DecimalDigit(bytes[1..], i - 2);
      assert TenTo(i) == 10 * TenTo(i - 1) == 100 * TenTo(i - 2);
      assert n / 100 == m by { LowDigits(bytes[0] % 16, bytes[0] / 16, m); }
      ModSplit(n, 100, TenTo(i - 2));
    }
  }

  lemma LowDigits(x: nat, y: nat, m: nat)
    requires x <= 9 && y <= 9
    ensures var n := x + y * 10 + 100 * m; n % 10 == x && n / 10 % 10 == y && n / 100 == m
  {
    assert (x + 10 * (y + 10 * m)) / 10 == y + 10 * m;
  }

  // ---------------------------------------------------------------- reals to integers

  function Shift(r: TempReal): int {
    ONE - r.Exp()
  }

  /** The integer part and the next 32 bits, as real_to_int keeps them: one bit stands for all that is shifted
      96 places or more, even for zero. */
  function Fixed(r: TempReal): nat {
    if Shift(r) < 0 then 0 else if Shift(r) >= 96 then 1 else Div(r.Mantissa() * B, Pow2(Shift(r)))
  }

  /** Whether the 32 bits `u` below the integer `q` make it one more. */
  predicate RoundsUp(q: nat, u: nat, sign: bool, mode: Rounding) {
    match mode
    case Nearest => u > 0x8000_0000 || (u == 0x8000_0000 && q % 2 == 1)
    case Up => !sign && u != 0
    case Down => sign && u != 0
    case Chop => false
  }

  function Rounded(r: TempReal, mode: Rounding): nat {
    var q, u := Fixed(r) / B, Fixed(r) % B;
    if RoundsUp(q, u, r.exponent >= 0x8000, mode) then q + 1 else q
  }

  /** shrdl: the low word of two words shifted right. */
  function Shrd(lo: Word, hi: Word, count: nat): Word
    requires count < 32
  {
    Div(hi as int * B + lo as int, Pow2(count)) % B
  }

  /** Three words shifted right together. */
  lemma ShiftThree(u: Word, a: Word, b: Word, count: nat)
    requires count < 32
    ensures var b' := Div(b as int, Pow2(count));
            b' < B && Shrd(u, a, count) as int + Shrd(a, b, count) as int * B + b' * B2
                      == Div(u as int + a as int * B + b as int * B2, Pow2(count))
  {
    var p, h := Pow2(count), Pow2(32 - count);
    PowAdd(count, 32 - count);
    PowConsts();
    DivMod(b as int, p);
    hide Pow2, Div, Mod;
    ShiftNumbers(u as int, a as int, b as int, p, h);
  }

  lemma ShiftNumbers(u: nat, a: nat, b: nat, p: nat, h: nat)
    requires u < B && a < B && p > 0 && p * h == B
    ensures Div(a * B + u, p) % B + Div(b * B + a, p) % B * B + Div(b, p) * B2 == Div(u + a * B + b * B2, p)
  {
    var mid := b * B + a;
    CarryDown(mid, u, p, h);
    CarryDown(b, a, p, h);
    SameLow(a, b, u, p, h);
    ModUnique(Div(b, p), Div(Mod(b, p) * B + a, p));
    hide Div, Mod;
    assert mid * B + u == u + a * B + b * B2;
  }

  /** Dividing two words by a divisor of B: the low word needs only the remainder of the high one. */
  lemma CarryDown(hi: nat, lo: nat, p: nat, h: nat)
    requires p > 0 && p * h == B && lo < B
    ensures Div(hi * B + lo, p) == Div(hi, p) * B + Div(Mod(hi, p) * B + lo, p)
    ensures Div(Mod(hi, p) * B + lo, p) < B
  {
    DivMod(hi, p);
    var q, r := Div(hi, p), Mod(hi, p);
    var low := r * B + lo;
    DivMod(low, p);
    var t := Div(low, p);
    hide Div, Mod;
    Swapped(q, p);
    Distribute(q * B, t, p);
    FloorUnique(hi * B + lo, q * B + t, p);
    MulMono(B, r + 1, p);
    if t >= B { Products(p, B, t); }
  }

  lemma Swapped(q: nat, p: nat)
    ensures q * p * B == q * B * p
  {
  }

  /** The bits that move from word to word come from the word above only. */
  lemma SameLow(a: nat, b: nat, u: nat, p: nat, h: nat)
    requires p > 0 && p * h == B && u < B && a < B
    ensures Div(a * B + u, p) % B == Div(Mod(b * B + a, p) * B + u, p)
  {
    CarryDown(a, u, p, h);
    DivMod(a, p);
    var q, r := Div(a, p), Mod(a, p);
    hide Div, Mod;
    Multiple(b, p, h);
    Distribute(b * h, q, p);
    FloorUnique(b * B + a, b * h + q, p);
    ModUnique(q, Div(r * B + u, p));
  }

  lemma Multiple(b: nat, p: nat, h: nat)
    requires p * h == B
    ensures b * B == b * h * p
  {
    assert b * (p * h) == b * h * p;
  }

  lemma ModUnique(x: nat, y: nat)
    requires y < B
    ensures (x * B + y) % B == y
  {
  }

  lemma ScaleDiv(n: nat, p: nat)
    requires p > 0
    ensures Div(n * B, p * B) == Div(n, p)
  {
    DivMod(n, p);
    var q, r := Div(n, p), Mod(n, p);
    hide Div, Mod;
    Products(B, r + 1, p);
    assert q * (p * B) == q * p * B;
    FloorUnique(n * B, q, p * B);
  }

  lemma DivDiv(n: nat, p: nat)
    requires p > 0
    ensures Div(n, p * B) == Div(n / B, p)
  {
    var hi, lo := n / B, n % B;
    DivMod(hi, p);
    var q, r := Div(hi, p), Mod(hi, p);
    hide Div, Mod;
    Products(B, r + 1, p);
    assert q * (p * B) == q * p * B;
    FloorUnique(n, q, p * B);
  }

  /** The three ways real_to_int lays out the mantissa before the shift by less than 32. */
  lemma FixedByWords(r: TempReal)
    requires 0 <= Shift(r) < 96
    ensures var m, sh := r.Mantissa(), Shift(r);
            Fixed(r) == if sh < 32 then Div(m * B, Pow2(sh))
                        else if sh < 64 then Div(m, Pow2(sh - 32))
                        else Div(r.b as int, Pow2(sh - 64))
  {
    var m, sh := r.Mantissa(), Shift(r);
    PowConsts();
    if sh >= 64 {
      var p := Pow2(sh - 64);
      PowAdd(sh - 64, 32);
      PowAdd(sh - 32, 32);
      ScaleDiv(m, p * B);
      DivDiv(m, p);
      assert m / B == r.b as int;
      hide Div;
    } else if sh >= 32 {
      PowAdd(sh - 32, 32);
      ScaleDiv(m, Pow2(sh - 32));
      hide Div;
    }
  }

  /** Rounding never leaves 64 bits. */
  lemma RoundedFits(r: TempReal, mode: Rounding)
    ensures Rounded(r, mode) < B2 && Fixed(r) < B3
  {
    var m, sh := r.Mantissa(), Shift(r);
    if 0 <= sh < 96 {
      DivMod(m * B, Pow2(sh));
      var q, p := Fixed(r), Pow2(sh);
      assert sh == 0 ==> p == 1;
      assert sh > 0 ==> p == 2 * Pow2(sh - 1);
      hide Pow2, Div, Mod, Fixed;
      if sh > 0 { MulMono(q, 2, p); }
    }
  }

  /** real_to_int up to the rounding: the integer in `a` and `b`, the bits below it in `u`. */
  method Spread(r: TempReal) returns (u: Word, a: Word, b: Word)
    requires r.Valid() && Shift(r) >= 0
    ensures u as int + a as int * B + b as int * B2 == Fixed(r)
  {
    var sh, s: nat := ONE - r.Exp(), 0;
    u, a, b := 1, 0, 0;
    if sh < 32 {
      u, a, b, s := 0, r.a, r.b, sh;
    } else if sh < 64 {
      u, a, b, s := r.a, r.b, 0, sh - 32;
    } else if sh < 96 {
      u, a, b, s := r.b, 0, 0, sh - 64;
    }
    if sh < 96 { FixedByWords(r); }
    ShiftThree(u, a, b, s);
    ShiftNone(u, a, b);
    assert Fixed(r) == Div(u as int + a as int * B + b as int * B2, Pow2(s));
    hide Fixed, Div;
    u, a, b := Shrd(u, a, s), Shrd(a, b, s), Div(b as int, Pow2(s));
  }

  /** The rounding of real_to_int. */
  method RoundWords(u: Word, a: Word, b: Word, sign: bool, mode: Rounding) returns (a': Word, b': Word)
    requires RoundsUp(a as int + b as int * B, u as int, sign, mode) ==> a as int + b as int * B + 1 < B2
    ensures var q := a as int + b as int * B;
              a' as int + b' as int * B == if RoundsUp(q, u as int, sign, mode) then q + 1 else q
  {
    var up;
    match mode {
      case Nearest => up := Carry(u, 0x7fff_ffff + a % 2, false);
      case Up => up := !sign && u != 0;
      case Down => up := sign && u != 0;
      case Chop => up := false;
    }
    RoundBit(u, a, b, sign, mode);
    hide RoundsUp;
    a', b' := a, b;
    if up {
      var carry := Carry(a, 1, false);
      a', b' := Sum(a, 1, false), Sum(b, 0, carry);
    }
  }

  /** Adding just under one half carries when the rest is more than one half, or one half below an odd number. */
  lemma RoundBit(u: Word, a: Word, b: Word, sign: bool, mode: Rounding)
    ensures RoundsUp(a as int + b as int * B, u as int, sign, mode) <==>
            match mode
            case Nearest => Carry(u, 0x7fff_ffff + a % 2, false)
            case Up => !sign && u != 0
            case Down => sign && u != 0
            case Chop => false
  {
    Parity(a as int, b as int);
  }

  lemma Parity(a: nat, b: nat)
    ensures (a + b * B) % 2 == a % 2
  {
    assert a + b * B == a + 2 * (b * 0x8000_0000);
  }

  /** real_to_int; `overflow` says that it called set_OE. */
  method RealToInt(r: TempReal, mode: Rounding) returns (t: TempInt, overflow: bool)
    requires r.Valid()
    ensures t.Value() == Rounded(r, mode) && t.sign == (r.exponent >= 0x8000)
    ensures overflow <==> r.Exp() > ONE
  {
    var sign := r.exponent >= 0x8000;
    if ONE - r.Exp() < 0 {
      return TempInt(0, 0, sign), true;
    }
    overflow := false;
    RoundedFits(r, mode);
    var u, a, b := Spread(r);
    assert Fixed(r) / B == a as int + b as int * B && Fixed(r) % B == u as int;
    hide Fixed, RoundsUp;
    a, b := RoundWords(u, a, b, sign, mode);
    t := TempInt(a, b, sign);
  }

  lemma ShiftNone(u: Word, a: Word, b: Word)
    ensures Pow2(0) == 1 && Div(b as int, 1) == b as int && Shrd(u, a, 0) == u && Shrd(a, b, 0) == a
  {
    assert Pow2(0) == 1;
    assert (a as int * B + u as int) % B == u as int && (b as int * B + a as int) % B == a as int;
  }

  /** MUL10: doubled, kept, doubled twice more and added. */
  method Mul10(a: Word, b: Word) returns (a': Word, b': Word)
    requires 10 * (a as int + b as int * B) < B2
    ensures a' as int + b' as int * B == 10 * (a as int + b as int * B)
  {
    var k := Carry(a, a, false);
    a', b' := Sum(a, a, false), Sum(b, b, k);
    var c, d := a', b';
    k := Carry(a', a', false);
    a', b' := Sum(a', a', false), Sum(b', b', k);
    k := Carry(a', a', false);
    a', b' := Sum(a', a', false), Sum(b', b', k);
    k := Carry(a', c, false);
    a', b' := Sum(a', c, false), Sum(b', d, k);
  }

  /** ADD64 */
  method Add64(v: Word, a: Word, b: Word) returns (a': Word, b': Word)
    requires v as int + a as int + b as int * B < B2
    ensures a' as int + b' as int * B == v as int + a as int + b as int * B
  {
    var k := Carry(a, v, false);
    a', b' := Sum(a, v, false), Sum(b, 0, k);
  }

  lemma {:induction false} DecimalBound(bytes: seq<Byte>)
    ensures 99 * Decimal(bytes) <= 165 * (Hundred(|bytes|) - 1)
  {
    if bytes != [] { DecimalBound(bytes[1..]); }
  }

  lemma {:induction false} HundredGrows(k: nat)
    requires k <= 9
    ensures Hundred(k) <= 1_000_000_000_000_000_000
    ensures k == 9 ==> Hundred(k) == 1_000_000_000_000_000_000
  {
    assert Hundred(3) == 1_000_000;
    assert Hundred(6) == 1_000_000 * Hundred(3);
    assert Hundred(9) == 1_000_000 * Hundred(6);
  }

  /** get_BCD: nine bytes of digits, the highest first, then the sign; any nibbles at all fit 64 bits. */
  method GetBcd(bytes: seq<Byte>) returns (r: TempReal)
    requires |bytes| == 10
    ensures Decimal(bytes[..9]) < B2 && r == RealOf(Decimal(bytes[..9]), bytes[9] >= 0x80)
  {
    hide Decimal, Hundred, RealOf;
    var a, b: Word := 0, 0;
    var addr := 9;
    var digits := bytes[..9];
    HundredGrows(9);
    DecimalBound(digits);
    DecimalNone(digits[9..]);
    while addr > 0
      invariant 0 <= addr <= 9 && a as int + b as int * B == Decimal(digits[addr..])
    {
      addr := addr - 1;
      DecimalBound(digits[addr..]);
      HundredGrows(9 - addr);
      DecimalStep(digits, addr);
      a, b := TakeDigits(a, b, digits[addr]);
    }
    assert digits[0..] == digits;
    r := IntToReal(TempInt(a, b, bytes[9] >= 0x80));
  }

  /** One turn of the loop of get_BCD. */
  method TakeDigits(a: Word, b: Word, c: Byte) returns (a': Word, b': Word)
    requires c % 16 + c / 16 * 10 + 100 * (a as int + b as int * B) < 2_000_000_000_000_000_000
    ensures a' as int + b' as int * B == c % 16 + c / 16 * 10 + 100 * (a as int + b as int * B)
  {
    a', b' := Mul10(a, b);
    a', b' := Add64(c / 16, a', b');
    a', b' := Mul10(a', b');
    a', b' := Add64(c % 16, a', b');
  }

  lemma DecimalNone(bytes: seq<Byte>)
    requires bytes == []
    ensures Decimal(bytes) == 0
  {
  }

  lemma DecimalStep(digits: seq<Byte>, k: nat)
    requires k < |digits|
    ensures Decimal(digits[k..]) == digits[k] % 16 + digits[k] / 16 * 10 + 100 * Decimal(digits[k + 1..])
  {
    assert digits[k..][1..] == digits[k + 1..];
  }

  /** DIV10: two divisions, the remainder of the first going into the second. */
  method Div10(lo: Word, hi: Word) returns (lo': Word, hi': Word, rem: Word)
    ensures lo' as int + hi' as int * B == (lo as int + hi as int * B) / 10
    ensures rem as int == (lo as int + hi as int * B) % 10
  {
    var q, r := hi as int / 10, hi as int % 10;
    var w := r * B + lo as int;
    hi', lo', rem := q, w / 10, w % 10;
  }

  lemma DigitsStep(n: nat, k: nat)
    ensures (n / 10) / 10 == n / 100 && Digits(n, k + 1) == [n % 10 + n / 10 % 10 * 16] + Digits(n / 100, k)
  {
  }

  /** One turn of the loop of put_BCD: two divisions and a byte. */
  method PutDigits(a: Word, b: Word, ghost k: nat) returns (a': Word, b': Word, c: Byte)
    ensures Digits(a as int + b as int * B, k + 1) == [c] + Digits(a' as int + b' as int * B, k)
  {
    DigitsStep(a as int + b as int * B, k);
    hide Digits;
    var low, high;
    a', b', low := Div10(a, b);
    a', b', high := Div10(a', b');
    c := low + high * 16;
  }

  /** put_BCD: nine bytes of digits and the sign. */
  method PutBcd(r: TempReal, mode: Rounding) returns (bytes: seq<Byte>)
    requires r.Valid()
    ensures bytes == Digits(Rounded(r, mode), 9) + [if r.exponent >= 0x8000 then 0x80 else 0]
  {
    hide Rounded, Digits;
    var i, overflow := RealToInt(r, mode);
    var a, b := i.a, i.b;
    var digits: seq<Byte> := [];
    for k := 0 to 9
      invariant digits + Digits(a as int + b as int * B, 9 - k) == Digits(i.Value(), 9)
    {
      ghost var v := a as int + b as int * B;
      var c;
      a, b, c := PutDigits(a, b, 8 - k);
      ghost var rest := Digits(a as int + b as int * B, 8 - k);
      assert digits + ([c] + rest) == digits + [c] + rest;
      digits := digits + [c];
    }
    bytes := digits + [if i.sign then 0x80 else 0];
  }

  // ---------------------------------------------------------------- what survives

  /** An integer that is a real comes back exactly, but for zero rounded up, which becomes one. */
  lemma RoundedExact(n: nat, sign: bool, mode: Rounding)
    requires n < B2
    ensures Rounded(RealOf(n, sign), mode) == if n == 0 && mode == Up then 1 else n
    ensures RealOf(n, sign).Valid() && (RealOf(n, sign).exponent >= 0x8000 <==> sign && n > 0)
  {
    if n > 0 {
      FixedExact(n, sign);
      hide Fixed, RealOf;
      NoRest(n);
    }
  }

  lemma NoRest(n: nat)
    ensures n * B / B == n && n * B % B == 0
  {
  }

  lemma FixedExact(n: nat, sign: bool)
    requires 0 < n < B2
    ensures Fixed(RealOf(n, sign)) == n * B
    ensures RealOf(n, sign).Valid() && (RealOf(n, sign).exponent >= 0x8000 <==> sign)
  {
    var k := Lead(n);
    LeadSmall(n);
    hide Lead, Scaled;
    var r := RealOf(n, sign);
    assert r.Exp() == ONE - k && r.Mantissa() == Scaled(n, k);
    ExactShift(n, k);
    hide Div, Pow2;
  }

  lemma ExactShift(n: nat, k: nat)
    ensures Div(Scaled(n, k) * B, Pow2(k)) == n * B
  {
    var p := Pow2(k);
    hide Pow2;
    assert n * p * B == n * B * p;
    FloorUnique(n * p * B, n * B, p);
  }

  lemma DigitsBack(n: nat)
    requires n < 1_000_000_000_000_000_000
    ensures Decimal(Digits(n, 9)) == n
  {
    DigitsDecimal(n, 9);
    HundredGrows(9);
    hide Decimal, Digits, Hundred;
    FloorUnique(n, 0, 1_000_000_000_000_000_000);
  }

  lemma OneIsNotZero(sign: bool)
    ensures RealOf(1, sign) != RealOf(0, false)
  {
    assert Scaled(1, Lead(1)) > 0;
  }

  /** Every integer of at most 18 digits survives int_to_real, put_BCD and get_BCD, but for zero when rounding up. */
  lemma BcdRoundTrip(n: nat, sign: bool, mode: Rounding)
    requires n < 1_000_000_000_000_000_000
    ensures var r := RealOf(n, sign); var back := Decimal(Digits(Rounded(r, mode), 9));
            back < B2 && (RealOf(back, r.exponent >= 0x8000) == r <==> !(n == 0 && mode == Up))
  {
    RoundedExact(n, sign, mode);
    hide Decimal, Digits, Rounded;
    DigitsBack(if n == 0 && mode == Up then 1 else n);
    OneIsNotZero(false);
    hide Lead, Scaled;
  }

  // ---------------------------------------------------------------- what real_to_int rounds to

  lemma SmallUnit()
    ensures Two(-32) * B as real == 1.0
  {
    UnitsShift(1, -32, 32);
    PowConsts();
    TwoPow(0);
    hide Two;
  }

  /** The 96 bits that are kept stand for the number but for less than one in the last of them. */
  lemma FixedUnits(r: TempReal)
    requires 0 <= Shift(r) < 96
    ensures Units(Fixed(r), -32) <= Magnitude(r) < Units(Fixed(r) + 1, -32)
  {
    hide Units, Two, Pow2, Div, Mod, Magnitude;
    var m, sh := r.Mantissa(), Shift(r);
    var f, p := Div(m * B, Pow2(sh)), Pow2(sh);
    DivMod(m * B, p);
    Distribute(f, 1, p);
    MagnitudeUnits(r);
    PowConsts();
    UnitsShift(m, -sh - 32, 32);
    UnitsShift(f, -sh - 32, sh);
    UnitsShift(f + 1, -sh - 32, sh);
    UnitsDiffer(m * B, f * p, -sh - 32);
    UnitsDiffer(m * B, (f + 1) * p, -sh - 32);
  }

  /** What is shifted 96 places or more is less than one in the last of 32 places. */
  lemma FixedNothing(r: TempReal)
    requires Shift(r) >= 96
    ensures 0.0 <= Magnitude(r) < Two(-32) && (Magnitude(r) == 0.0 <==> r.Mantissa() == 0)
  {
    hide Units, Two, Pow2, Magnitude;
    var m, z := r.Mantissa(), r.Exp() - 16446;
    MagnitudeUnits(r);
    UnitsZero(m, z);
    PowConsts();
    UnitsShift(1, z, 64);
    UnitsDiffer(m, B2, z);
    UnitsShift(1, z + 64, -32 - z - 64);
    UnitsDiffer(1, Pow2(-32 - z - 64), z + 64);
    UnitsZero(1, -32);
  }

  lemma UnitsZero(m: nat, z: int)
    ensures (Units(m, z) == 0.0 <==> m == 0) && Units(1, z) == Two(z)
  {
    hide Two;
  }

  /** real_to_int rounds as the mode says, but for what it no longer sees: fractions just above one half, or just above
      zero when the number should go away from zero, and zero itself, for which something is taken to be left. */
  lemma RoundedValue(r: TempReal, mode: Rounding)
    requires Shift(r) >= 0
    ensures var q := Magnitude(r).Floor;
            && q <= Rounded(r, mode) <= q + 1
            && (mode == Nearest && Magnitude(r) == q as real + 0.5 ==> Rounded(r, mode) % 2 == 0)
    ensures var v, sign := Magnitude(r), r.exponent >= 0x8000;
            var q := v.Floor; var rest := v - q as real;
            RoundedRight(v, Rounded(r, mode) as real, 1.0, sign, mode) <==>
              match mode
              case Nearest => !(q % 2 == 0 && 0.5 < rest < 0.5 + Two(-32))
              case Down => !(sign && if Shift(r) >= 96 then r.Mantissa() == 0 else 0.0 < rest < Two(-32))
              case Up => !(!sign && if Shift(r) >= 96 then r.Mantissa() == 0 else 0.0 < rest < Two(-32))
              case Chop => true
  {
    SmallUnit();
    if Shift(r) < 96 {
      FixedUnits(r);
      var f := Fixed(r);
      assert f == f / B * B + f % B;
      RoundedNear(Magnitude(r), f / B, f % B, Two(-32), r.exponent >= 0x8000, mode) by {
        hide Two, Fixed, Magnitude;
        UnitsPlain(f);
      }
      hide Two, Fixed, Magnitude;
    } else {
      FixedNothing(r);
      hide Two, Magnitude;
    }
  }

  lemma UnitsPlain(f: nat)
    ensures Units(f, -32) == f as real * Two(-32) && Units(f + 1, -32) == (f + 1) as real * Two(-32)
  {
  }

  lemma RoundedNear(v: real, q: nat, u: nat, t: real, sign: bool, mode: Rounding)
    requires t * B as real == 1.0 && u < B
    requires (q * B + u) as real * t <= v < (q * B + u + 1) as real * t
    ensures v.Floor == q
    ensures mode == Nearest && v == q as real + 0.5 ==> (RoundsUp(q, u, sign, mode) <==> q % 2 == 1)
    ensures var rest := v - q as real; var n := if RoundsUp(q, u, sign, mode) then q + 1 else q;
            RoundedRight(v, n as real, 1.0, sign, mode) <==>
              match mode
              case Nearest => !(q % 2 == 0 && 0.5 < rest < 0.5 + t)
              case Down => !(sign && 0.0 < rest < t)
              case Up => !(!sign && 0.0 < rest < t)
              case Chop => true
  {
    assert t == 1.0 / 4294967296.0;
    assert q as real + u as real / 4294967296.0 <= v < q as real + (u + 1) as real / 4294967296.0;
    assert u + 1 <= 4294967296;
    assert q as real <= v < q as real + 1.0;
  }
}
