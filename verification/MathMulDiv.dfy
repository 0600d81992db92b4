/** Multiplication and division of temporary reals (kernel/math/mul.c, div.c): the four-word arithmetic in
    place, as the add-with-carry sequences of the source do it. */
module MathMulDiv {
  import opened MathReals
  import opened MathWords

  datatype Flag = Fine | Overflow | Underflow | ZeroDivide | Denormal

  /** shift of mul.c and shift_left of div.c: each word is added to itself with the carry. */
  method ShiftLeft(c: array<Word>)
    requires c.Length == 4
    modifies c
    ensures Number(c[..]) == 2 * old(Number(c[..])) - (if 2 * old(Number(c[..])) >= B4 then B4 else 0)
  {
    var c0, c1, c2, c3 := c[0], c[1], c[2], c[3];
    var k0 := Carry(c0, c0, false);
    var k1 := Carry(c1, c1, k0);
    var k2 := Carry(c2, c2, k1);
    c[0], c[1], c[2], c[3] := Sum(c0, c0, false), Sum(c1, c1, k0), Sum(c2, c2, k1), Sum(c3, c3, k2);
    assert Number(c[..]) == 2 * old(Number(c[..])) - (if Carry(c3, c3, k2) then B4 else 0);
  }

  /** shift_right: the words are halved from the top, each low bit going to the word below. */
  method ShiftRight(c: array<Word>)
    requires c.Length == 4
    modifies c
    ensures Number(c[..]) == old(Number(c[..])) / 2
  {
    var c0, c1, c2, c3 := c[0] as int, c[1] as int, c[2] as int, c[3] as int;
    c[3] := c3 / 2;
    c[2] := c2 / 2 + c3 % 2 * 0x8000_0000;
    c[1] := c1 / 2 + c2 % 2 * 0x8000_0000;
    c[0] := c0 / 2 + c1 % 2 * 0x8000_0000;
    assert 2 * Number(c[..]) + c0 % 2 == old(Number(c[..]));
  }

  /** try_sub: `b` minus `a` in place; it tells whether there was no borrow. */
  method TrySub(a: array<Word>, b: array<Word>) returns (ok: bool)
    requires a.Length == 4 && b.Length == 4 && a != b
    modifies b
    ensures ok <==> Number(a[..]) <= old(Number(b[..]))
    ensures ok ==> Number(b[..]) == old(Number(b[..])) - Number(a[..])
  {
    var b0, b1, b2, b3 := b[0], b[1], b[2], b[3];
    var k0 := Borrow(b0, a[0], false);
    var k1 := Borrow(b1, a[1], k0);
    var k2 := Borrow(b2, a[2], k1);
    b[0], b[1], b[2], b[3] := Diff(b0, a[0], false), Diff(b1, a[1], k0), Diff(b2, a[2], k1), Diff(b3, a[3], k2);
    ok := !Borrow(b3, a[3], k2);
    assert Number(b[..]) == old(Number(b[..])) - Number(a[..]) + (if ok then 0 else B4);
  }

  method CopyWords(from: array<Word>, into: array<Word>)
    requires from.Length == into.Length == 4 && from != into
    modifies into
    ensures into[..] == from[..]
  {
    into[0], into[1], into[2], into[3] := from[0], from[1], from[2], from[3];
  }

  lemma WordProduct(x: Word, y: Word)
    ensures 0 <= x as int * y as int <= 0xffff_fffe_0000_0001
  {
    MulMono(x, y, 0xffff_ffff);
    Products(0xffff_ffff, x, 0xffff_ffff);
  }

  /** mull: the product of two words as low and high word. */
  method Mull(x: Word, y: Word) returns (lo: Word, hi: Word)
    ensures lo as int + hi as int * B == x as int * y as int
  {
    WordProduct(x, y);
    var p := x as int * y as int;
    lo, hi := p % B, p / B;
  }

  /** addl to word 1, adcl to word 2, adcl $0 to word 3. */
  method AddMiddle(c: array<Word>, lo: Word, hi: Word)
    requires c.Length == 4 && Number(c[..]) + (lo as int + hi as int * B) * B < B4
    modifies c
    ensures Number(c[..]) == old(Number(c[..])) + (lo as int + hi as int * B) * B
  {
    var c1, c2, c3 := c[1], c[2], c[3];
    var k1 := Carry(c1, lo, false);
    var k2 := Carry(c2, hi, k1);
    c[1], c[2], c[3] := Sum(c1, lo, false), Sum(c2, hi, k1), Sum(c3, 0, k2);
    assert Number(c[..]) == old(Number(c[..])) + (lo as int + hi as int * B) * B - (if Carry(c3, 0, k2) then B4 else 0);
  }

  lemma Cross(a0: int, a1: int, b0: int, b1: int)
    ensures (a0 + a1 * B) * (b0 + b1 * B) == a0 * b0 + a1 * b1 * B2 + a0 * b1 * B + a1 * b0 * B
  {
    assert a1 * B * (b1 * B) == a1 * b1 * (B * B);
    assert a1 * B * b0 == a1 * b0 * B;
    assert a0 * (b1 * B) == a0 * b1 * B;
    calc {
      (a0 + a1 * B) * (b0 + b1 * B);
      a0 * (b0 + b1 * B) + a1 * B * (b0 + b1 * B);
      a0 * b0 + a0 * (b1 * B) + a1 * B * b0 + a1 * B * (b1 * B);
    }
  }

  /** mul64: the exact 128-bit product; no carry is lost. */
  method Mul64(x: TempReal, y: TempReal, c: array<Word>)
    requires c.Length == 4
    modifies c
    ensures Number(c[..]) == x.Mantissa() * y.Mantissa()
  {
    Cross(x.a as int, x.b as int, y.a as int, y.b as int);
    ProductFits(x.Mantissa(), y.Mantissa());
    NonNegative(x, y);
    ghost var p00, p01, p10, p11 := x.a as int * y.a as int, x.a as int * y.b as int, x.b as int * y.a as int,
         x.b as int * y.b as int;
    c[0], c[1] := Mull(x.a, y.a);
    c[2], c[3] := Mull(x.b, y.b);
    assert Number(c[..]) == p00 + p11 * B2;
    var lo, hi := Mull(x.a, y.b);
    AddMiddle(c, lo, hi);
    lo, hi := Mull(x.b, y.a);
    AddMiddle(c, lo, hi);
  }

  lemma NonNegative(x: TempReal, y: TempReal)
    ensures x.a as int * y.a as int >= 0 && x.a as int * y.b as int >= 0 && x.b as int * y.a as int >= 0
            && x.b as int * y.b as int >= 0
  {
  }

  lemma ProductFits(m: nat, n: nat)
    requires m < B2 && n < B2
    ensures m * n < B4
  {
    MulMono(m, n, B2 - 1);
    MulMono(B2 - 1, m, B2 - 1);
  }

  /** `*c |= mask` where the bit is clear. */
  function OrBit(w: Word, mask: nat): int
    requires mask > 0
  {
    if w as int / mask % 2 == 1 then w as int else w as int + mask
  }

  lemma DivExact(x: nat, m: nat)
    requires m > 0
    ensures x * m / m == x
  {
    FloorUnique(x * m, x, m);
  }

  lemma OrClear(w: Word, mask: nat, u: nat)
    requires mask > 0 && w as int == u * (2 * mask)
    ensures OrBit(w, mask) == w as int + mask
  {
    OddTimes(u, mask);
    DivExact(2 * u, mask);
  }

  /** The word the next quotient bits go to is `u` followed by zeros. */
  lemma BitFits(u: nat, i: nat)
    requires i < 32 && u < Pow2(i)
    ensures u * Pow2(32 - i) == u * (2 * Pow2(31 - i)) && (2 * u + 1) * Pow2(31 - i) < B && 2 * u + 1 < Pow2(i + 1)
  {
    PowConsts();
    PowAdd(i + 1, 31 - i);
    var p, q := Pow2(31 - i), Pow2(i + 1);
    assert Pow2(32 - i) == 2 * p && q == 2 * Pow2(i);
    hide Pow2;
    Products(p, 2 * u + 2, q);
    Distribute(2 * u + 1, 1, p);
  }

  /** After `i` trial subtractions: remainder `na`, divisor `nb`, quotient `q`. */
  predicate Divided(n: nat, d: nat, i: nat, na: nat, nb: nat, q: nat) {
    i <= 64 && na + q * (2 * d) == n && na < 2 * (d * Pow2(64 - i)) && nb == d * Pow2(64 - i)
  }

  /** The quotient words so far; `u` is the part of the current one that is known. */
  predicate Bits(i: nat, c2: nat, c3: nat, u: nat) {
    && i <= 64
    && (i <= 32 ==> u < Pow2(i) && c3 == u * Pow2(32 - i) && c2 == 0)
    && (i > 32 ==> u < Pow2(i - 32) && c2 == u * Pow2(64 - i))
  }

  /** The known part when the next bit is found. */
  function Known(i: nat, u: nat): nat {
    if i == 32 then 0 else u
  }

  function Mask(i: nat): nat
    requires i < 64
  {
    Pow2(if i < 32 then 31 - i else 63 - i)
  }

  lemma BitFree(i: nat, c2: nat, c3: nat, u: nat)
    requires Bits(i, c2, c3, u) && i < 64
    ensures var v := Known(i, u); (if i < 32 then c3 else c2) == v * (2 * Mask(i)) && (2 * v + 1) * Mask(i) < B
  {
    PowConsts();
    if i < 32 { BitFits(u, i); } else { BitFits(Known(i, u), i - 32); }
  }

  /** Setting the next bit is adding it. */
  lemma BitsTaken(i: nat, c2: Word, c3: Word, u: nat)
    requires Bits(i, c2, c3, u) && i < 64
    ensures var w := if i < 32 then c3 else c2; Mask(i) > 0 && OrBit(w, Mask(i)) == w as int + Mask(i) < B
    ensures Bits(i + 1, if i < 32 then c2 as int else c2 as int + Mask(i),
                 if i < 32 then c3 as int + Mask(i) else c3 as int, 2 * Known(i, u) + 1)
  {
    BitFree(i, c2, c3, u);
    var v := Known(i, u);
    if i < 32 { BitFits(v, i); } else { BitFits(v, i - 32); }
    OddTimes(v, Mask(i));
    OrClear(if i < 32 then c3 else c2, Mask(i), v);
  }

  lemma OddTimes(v: nat, m: nat)
    ensures (2 * v + 1) * m == v * (2 * m) + m && v * (2 * m) == 2 * v * m
  {
  }

  lemma BitsSkipped(i: nat, c2: nat, c3: nat, u: nat)
    requires Bits(i, c2, c3, u) && i < 64
    ensures Bits(i + 1, c2, c3, 2 * Known(i, u))
  {
    BitFree(i, c2, c3, u);
    var v := Known(i, u);
    if i < 32 { BitFits(v, i); } else { BitFits(v, i - 32); }
    OddTimes(v, Mask(i));
  }

  lemma Halved(d: nat, i: nat, nb: nat)
    requires i < 64 && nb == d * Pow2(64 - i)
    ensures nb == 2 * (d * Pow2(63 - i)) && nb / 2 == d * Pow2(63 - i)
  {
    assert Pow2(64 - i) == 2 * Pow2(63 - i);
    assert d * (2 * Pow2(63 - i)) == 2 * (d * Pow2(63 - i));
  }

  lemma DividedTaken(n: nat, d: nat, i: nat, na: nat, nb: nat, q: nat)
    requires Divided(n, d, i, na, nb, q) && i < 64 && nb <= na
    ensures Divided(n, d, i + 1, na - nb, nb / 2, q + (if i < 32 then Mask(i) * B else Mask(i)))
  {
    Halved(d, i, nb);
    Weight(i, Mask(i), d);
    var w := if i < 32 then Mask(i) * B else Mask(i);
    Distribute(q, w, 2 * d);
  }

  lemma DividedSkipped(n: nat, d: nat, i: nat, na: nat, nb: nat, q: nat)
    requires Divided(n, d, i, na, nb, q) && i < 64 && na < nb
    ensures Divided(n, d, i + 1, na, nb / 2, q)
  {
    Halved(d, i, nb);
  }

  /** What the quotient comes to. */
  lemma Finished(n: nat, d: nat, na: nat, nb: nat, q: nat)
    requires Divided(n, d, 64, na, nb, q) && d > 0
    ensures Floor(n, 2 * d, q)
  {
    assert Pow2(0) == 1;
  }

  ghost predicate Running(a: array<Word>, b: array<Word>, c: array<Word>, i: nat, n: nat, d: nat, u: nat)
    requires a.Length == b.Length == c.Length == 4
    reads a, b, c
  {
    Divided(n, d, i, Number(a[..]), Number(b[..]), Quotient(c)) && Bits(i, c[2], c[3], u)
  }

  /** div64: the exact quotient of `a` and twice the divisor, whose top bit is set; 64 trial subtractions. */
  method Div64(a: array<Word>, b: array<Word>, c: array<Word>, ghost d: nat)
    requires a.Length == b.Length == c.Length == 4 && a != b && a != c && b != c
    requires B2 <= 2 * d && d < B2 && Number(b[..]) == d * B2 && Number(c[..]) == 0
    modifies a, b, c
    ensures c[0] == c[1] == 0 && Floor(old(Number(a[..])), 2 * d, Quotient(c))
  {
    ghost var n, u := Number(a[..]), 0;
    hide Running, Mask, Number, Floor;
    Begin(a, b, c, d);
    var k, mask := 4, 0;
    for i := 0 to 64
      invariant c[0] == c[1] == 0 && Running(a, b, c, i, n, d, u)
      invariant if i == 0 then k == 4 && mask == 0 else k == (if i <= 32 then 3 else 2) && mask == Mask(i - 1)
    {
      k, mask := NextBit(k, mask, i);
      u := TrialStep(a, b, c, k, mask, i, n, d, u);
    }
    Ended(a, b, c, n, d, u);
  }

  lemma Begin(a: array<Word>, b: array<Word>, c: array<Word>, d: nat)
    requires a.Length == b.Length == c.Length == 4
    requires B2 <= 2 * d && d < B2 && Number(b[..]) == d * B2 && Number(c[..]) == 0
    ensures c[0] == c[1] == 0 && Running(a, b, c, 0, Number(a[..]), d, 0)
  {
    hide Divided, Bits, Number;
    NumberZero(c[..]);
    Start(Number(a[..]), d);
  }

  lemma Ended(a: array<Word>, b: array<Word>, c: array<Word>, n: nat, d: nat, u: nat)
    requires a.Length == b.Length == c.Length == 4 && Running(a, b, c, 64, n, d, u) && d > 0
    ensures Floor(n, 2 * d, Quotient(c))
  {
    Finished(n, d, Number(a[..]), Number(b[..]), Quotient(c));
  }

  /** Where the next quotient bit goes. */
  method NextBit(k: nat, mask: nat, ghost i: nat) returns (k': nat, mask': nat)
    requires i < 64 && if i == 0 then k == 4 && mask == 0 else k == (if i <= 32 then 3 else 2) && mask == Mask(i - 1)
    ensures k' == (if i < 32 then 3 else 2) && mask' == Mask(i)
  {
    MaskStep(i, mask);
    hide Mask;
    if mask / 2 == 0 {
      k', mask' := k - 1, 0x8000_0000;
    } else {
      k', mask' := k, mask / 2;
    }
  }

  lemma MaskStep(i: nat, mask: nat)
    requires i < 64 && if i == 0 then mask == 0 else mask == Mask(i - 1)
    ensures (mask / 2 == 0 <==> i == 0 || i == 32) && Mask(0) == Mask(32) == 0x8000_0000
    ensures i != 0 && i != 32 ==> mask / 2 == Mask(i)
  {
    PowConsts();
  }

  /** One trial subtraction of div64, the quotient bit and the shift of the divisor. */
  method TrialStep(a: array<Word>, b: array<Word>, c: array<Word>, k: nat, mask: nat,
                   ghost i: nat, ghost n: nat, ghost d: nat, ghost u: nat)
    returns (ghost u': nat)
    requires a.Length == b.Length == c.Length == 4 && a != b && a != c && b != c && i < 64
    requires k == (if i < 32 then 3 else 2) && mask == Mask(i)
    requires Running(a, b, c, i, n, d, u)
    modifies a, b, c
    ensures c[0] == old(c[0]) && c[1] == old(c[1]) && Running(a, b, c, i + 1, n, d, u')
  {
    ghost var na, nb, q := Number(a[..]), Number(b[..]), Quotient(c);
    BitsTaken(i, c[2], c[3], u);
    BitsSkipped(i, c[2], c[3], u);
    hide Divided, Bits, Number, Mask, OrBit;
    u' := 2 * Known(i, u);
    var tmp := new Word[4];
    CopyWords(a, tmp);
    var ok := TrySub(b, tmp);
    if ok {
      DividedTaken(n, d, i, na, nb, q);
      c[k] := OrBit(c[k], mask);
      CopyWords(tmp, a);
      assert Quotient(c) == q + (if i < 32 then mask * B else mask);
      u' := u' + 1;
    } else {
      DividedSkipped(n, d, i, na, nb, q);
    }
    ShiftRight(b);
  }

  ghost function Quotient(c: array<Word>): nat
    requires c.Length == 4
    reads c
  {
    c[2] as int + c[3] as int * B
  }

  lemma Start(n: nat, d: nat)
    requires B2 <= 2 * d && n < B4
    ensures Divided(n, d, 0, n, d * B2, 0) && Bits(0, 0, 0, 0)
  {
    PowConsts();
    assert Pow2(0) == 1;
    assert d * (2 * B2) == 2 * d * B2;
    MulMono(B2, B2, 2 * d);
  }

  /** What a quotient bit stands for. */
  lemma Weight(i: nat, mask: nat, d: nat)
    requires i < 64 && mask == Pow2(if i < 32 then 31 - i else 63 - i)
    ensures (if i < 32 then mask * B else mask) * (2 * d) == d * Pow2(64 - i)
  {
    PowConsts();
    if i < 32 { PowAdd(31 - i, 32); }
    var p := Pow2(63 - i);
    assert Pow2(64 - i) == 2 * p && (if i < 32 then mask * B else mask) == p;
    hide Pow2;
    TwiceBoth(p, d);
  }

  lemma TwiceBoth(p: nat, d: nat)
    ensures p * (2 * d) == d * (2 * p)
  {
  }

  // ---------------------------------------------------------------- the two operations on temporary reals

  const BIAS := 16383

  function Signed(e: nat, sign: nat): nat {
    e + sign
  }

  /** The exclusive or of the two sign bits. */
  function SignOf(x: TempReal, y: TempReal): nat {
    if x.Negative() != y.Negative() then 0x8000 else 0
  }

  /** `m` shifted up by `s` bits. */
  function Scaled(m: nat, s: nat): nat {
    m * Pow2(s)
  }

  lemma PowStep(m: nat, s: nat)
    ensures Scaled(m, s + 1) == 2 * Scaled(m, s) && Scaled(m, 0) == m
  {
    assert Pow2(0) == 1;
  }

  /** `m` is what `n`, scaled by two to the `k`, keeps in its upper 64 bits; all the room is used unless the
      exponent ran out. */
  ghost predicate Normalised(n: nat, k: nat, m: nat, exp: nat) {
    m * B2 <= Scaled(n, k) < m * B2 + B2 && (exp == 0 || 2 * m >= B2)
  }

  /** The normalising loop of fmul and fdiv. */
  method Normalise(c: array<Word>, e: nat) returns (i: nat, ghost k: nat)
    requires c.Length == 4 && Number(c[..]) > 0
    modifies c
    ensures i + k == e && Number(c[..]) == Scaled(old(Number(c[..])), k)
    ensures i == 0 || c[3] >= 0x8000_0000
  {
    ghost var n, p := Number(c[..]), Number(c[..]);
    i, k := e, 0;
    PowStep(n, 0);
    hide Scaled, Number;
    while i > 0 && c[3] < 0x8000_0000
      invariant i + k == e && Number(c[..]) == p == Scaled(n, k)
    {
      i := i - 1;
      TopClear(c[..]);
      ShiftLeft(c);
      PowStep(n, k);
      k, p := k + 1, 2 * p;
    }
  }

  lemma TopClear(c: seq<Word>)
    requires |c| == 4
    ensures c[3] < 0x8000_0000 <==> 2 * Number(c) < B4
  {
  }

  lemma NumberZero(c: seq<Word>)
    requires |c| == 4
    ensures Number(c) == 0 <==> c[0] == 0 && c[1] == 0 && c[2] == 0 && c[3] == 0
  {
  }

  lemma UpperHalf(c: seq<Word>, n: nat, k: nat, exp: nat)
    requires |c| == 4 && Number(c) == Scaled(n, k) && (exp == 0 || c[3] >= 0x8000_0000)
    ensures Normalised(n, k, c[2] as int + c[3] as int * B, exp)
  {
  }

  /** fmul: the exact product, truncated by less than one unit of its last place; `was` is what the result held. */
  method FMul(x: TempReal, y: TempReal, was: TempReal) returns (r: TempReal, flag: Flag, ghost k: nat)
    requires x.Valid() && y.Valid() && was.Valid()
    ensures r.Valid()
    ensures var e := x.Exp() + y.Exp() - 16383 + 1; var n := x.Mantissa() * y.Mantissa();
            && (flag == Overflow <==> e > 0x7fff) && (flag == Overflow ==> r == was)
            && (flag != Overflow ==> flag == Fine && (r.Negative() <==> x.Negative() != y.Negative()))
            && (e < 0 || (flag == Fine && n == 0) ==> r.Mantissa() == 0 && r.Exp() == 0)
            && (flag == Fine && e >= 0 && n > 0 ==> r.Exp() == e - k && Normalised(n, k, r.Mantissa(), r.Exp()))
            && (flag == Fine && e >= 0 ==> CutFrom(Value(x) * Value(y), r, Unit(r)))
  {
    k := 0;
    var sign := SignOf(x, y);
    var e := x.Exp() + y.Exp() - BIAS + 1;
    if e < 0 {
      r, flag := TempReal(0, 0, sign), Fine;
      SignedParts(0, sign);
      return;
    }
    if e > 0x7fff {
      return was, Overflow, k;
    }
    var c := new Word[4];
    Mul64(x, y, c);
    ghost var n := Number(c[..]);
    var i := 0;
    if c[0] != 0 || c[1] != 0 || c[2] != 0 || c[3] != 0 {
      i, k := Normalise(c, e);
      UpperHalf(c[..], n, k, i);
    }
    r, flag := TempReal(c[2], c[3], Signed(i, sign)), Fine;
    SignedParts(i, sign);
    hide Normalised, Value, Number;
    if n > 0 { ProductCut(x, y, r, k); } else { ProductNone(x, y, r); }
  }

  /** The product of two temporary reals as a number of units. */
  lemma ProductUnits(x: TempReal, y: TempReal)
    ensures Magnitude(x) * Magnitude(y) == Units(x.Mantissa() * y.Mantissa(), x.Exp() + y.Exp() - 32892)
  {
    MagnitudeUnits(x);
    MagnitudeUnits(y);
    hide Magnitude, Units;
    UnitsProduct(x.Mantissa(), y.Mantissa(), x.Exp() - 16446, y.Exp() - 16446);
  }

  /** What normalising keeps of the product is the product, cut off. */
  lemma ProductCut(x: TempReal, y: TempReal, r: TempReal, k: nat)
    requires r.Exp() == x.Exp() + y.Exp() - 16383 + 1 - k && (r.Negative() <==> x.Negative() != y.Negative())
    requires Normalised(x.Mantissa() * y.Mantissa(), k, r.Mantissa(), r.Exp())
    ensures CutFrom(Value(x) * Value(y), r, Unit(r))
  {
    hide Units, Magnitude, Unit, Two;
    var n, m, z := x.Mantissa() * y.Mantissa(), r.Mantissa(), x.Exp() + y.Exp() - 32892 - k;
    ProductUnits(x, y);
    MagnitudeUnits(r);
    UnitUnits(r);
    UpperUnits(n, m, z, k);
    SignedProduct(x, y);
    hide Normalised;
  }

  lemma UnitUnits(r: TempReal)
    ensures Unit(r) == Units(1, r.Exp() - 16446)
  {
  }

  lemma UpperUnits(n: nat, m: nat, z: int, k: nat)
    requires m * B2 <= Scaled(n, k) < m * B2 + B2
    ensures Units(m, z + 64) <= Units(n, z + k) < Units(m, z + 64) + Units(1, z + 64)
  {
    hide Units, Two, Pow2;
    PowConsts();
    UnitsShift(n, z, k);
    UnitsShift(m, z, 64);
    UnitsShift(1, z, 64);
    UnitsDiffer(Scaled(n, k), m * B2, z);
    UnitsDiffer(Scaled(n, k), m * B2 + B2, z);
    UnitsSum(m * B2, B2, z);
  }

  lemma ProductNone(x: TempReal, y: TempReal, r: TempReal)
    requires x.Mantissa() * y.Mantissa() == 0 && r.Mantissa() == 0
    ensures CutFrom(Value(x) * Value(y), r, Unit(r))
  {
    ProductUnits(x, y);
    SignedProduct(x, y);
    hide Two;
  }

  lemma SignedProduct(x: TempReal, y: TempReal)
    ensures Value(x) * Value(y) ==
              if x.Negative() != y.Negative() then -(Magnitude(x) * Magnitude(y)) else Magnitude(x) * Magnitude(y)
  {
    hide Magnitude;
  }

  /** The quotient in units of the last of its 64 bits. */
  ghost predicate IsQuotient(n: nat, d: nat, q: nat) {
    Floor(n * B2, 2 * d, q)
  }

  /** The first loop of fdiv: the divisor is shifted until its top bit is set. */
  method ShiftUp(b: array<Word>, e: int, ghost m: nat) returns (i: int, ghost s: nat, ghost d: nat)
    requires b.Length == 4 && 0 < m < B2 && Number(b[..]) == m * B2
    modifies b
    ensures i == e + s && d == Scaled(m, s) && Number(b[..]) == d * B2 && d < B2 <= 2 * d
  {
    i, s, d := e, 0, m;
    PowStep(m, 0);
    hide Scaled;
    while b[3] < 0x8000_0000
      invariant i == e + s && d == Scaled(m, s) && Number(b[..]) == d * B2 && 0 < d < B2
      decreases B2 - d
    {
      i := i + 1;
      ShiftLeft(b);
      PowStep(m, s);
      s, d := s + 1, 2 * d;
    }
  }

  /** What fdiv leaves behind for the quotient `q` at exponent `i`; `k` is how far it was shifted up. */
  ghost predicate Delivered(r: TempReal, flag: Flag, was: TempReal, q: nat, i: nat, k: nat, sign: nat) {
    && (flag == Overflow <==> q > 0 && i - k > 0x7fff) && (flag == Overflow ==> r == was)
    && (flag != Overflow ==>
          && (r.Negative() <==> sign != 0) && r.Mantissa() == Scaled(q, k)
          && r.Exp() == (if q > 0 then i - k else 0)
          && flag == (if q > 0 && 2 * r.Mantissa() < B2 then Denormal else Fine) && (flag == Denormal ==> r.Exp() == 0))
  }

  /** The end of fdiv: normalising, the checks and the result. */
  method Deliver(c: array<Word>, e: nat, sign: nat, was: TempReal, ghost q: nat)
    returns (r: TempReal, flag: Flag, ghost k: nat)
    requires c.Length == 4 && Number(c[..]) == q * B2 && (sign == 0 || sign == 0x8000) && was.Valid()
    modifies c
    ensures r.Valid() && Delivered(r, flag, was, q, e, k, sign)
  {
    hide Number, Scaled, Delivered;
    flag, k := Fine, 0;
    PowStep(q, 0);
    NumberZero(c[..]);
    var i := 0;
    if c[0] != 0 || c[1] != 0 || c[2] != 0 || c[3] != 0 {
      i, k := Normalise(c, e);
      ExactUpper(c[..], q, k);
      if c[3] < 0x8000_0000 { flag := Denormal; }
    }
    if i > 0x7fff {
      r, flag := was, Overflow;
    } else {
      r := TempReal(c[2], c[3], Signed(i, sign));
    }
    Delivers(r, flag, was, q, e, k, sign, i, c[2], c[3]);
  }

  lemma Delivers(r: TempReal, flag: Flag, was: TempReal, q: nat, e: nat, k: nat, sign: nat, i: nat, c2: Word, c3: Word)
    requires (sign == 0 || sign == 0x8000) && was.Valid() && c2 as int + c3 as int * B == Scaled(q, k)
    requires if q == 0 then i == 0 else i + k == e && (i == 0 || c3 >= 0x8000_0000)
    requires if i > 0x7fff then r == was && flag == Overflow
             else
               && r == TempReal(c2, c3, Signed(i, sign))
               && flag == (if q > 0 && c3 < 0x8000_0000 then Denormal else Fine)
    ensures r.Valid() && Delivered(r, flag, was, q, e, k, sign)
  {
    hide Scaled;
    if i <= 0x7fff {
      SignedParts(i, sign);
      assert r.Exp() == i && (r.Negative() <==> sign != 0);
    }
  }

  lemma SignedParts(i: nat, sign: nat)
    requires i <= 0x7fff && (sign == 0 || sign == 0x8000)
    ensures Signed(i, sign) < 0x10000 && Signed(i, sign) % 0x8000 == i && (Signed(i, sign) >= 0x8000 <==> sign != 0)
  {
  }

  /** The part of fdiv after its checks. */
  method DivideMantissas(x: TempReal, y: TempReal, e: nat, sign: nat, was: TempReal)
    returns (r: TempReal, flag: Flag, ghost q: nat, ghost s: nat, ghost k: nat)
    requires y.Mantissa() > 0 && (sign == 0 || sign == 0x8000) && was.Valid()
    ensures r.Valid() && IsQuotient(x.Mantissa(), Scaled(y.Mantissa(), s), q)
    ensures Scaled(y.Mantissa(), s) < B2 <= 2 * Scaled(y.Mantissa(), s)
    ensures Delivered(r, flag, was, q, e + s, k, sign)
  {
    var a, b, c := new Word[4], new Word[4], new Word[4];
    a[0], a[1], a[2], a[3] := 0, 0, x.a, x.b;
    b[0], b[1], b[2], b[3] := 0, 0, y.a, y.b;
    c[0], c[1], c[2], c[3] := 0, 0, 0, 0;
    assert Number(a[..]) == x.Mantissa() * B2 && Number(b[..]) == y.Mantissa() * B2 && Number(c[..]) == 0;
    var i;
    ghost var d;
    i, s, d := ShiftUp(b, e, y.Mantissa());
    Div64(a, b, c, d);
    q := Quotient(c);
    assert IsQuotient(x.Mantissa(), d, q);
    assert Number(c[..]) == q * B2;
    hide Number, Scaled, IsQuotient, Delivered;
    r, flag, k := Deliver(c, i, sign, was, q);
  }

  /** fdiv: before its final normalisation the quotient `q` is truncated by less than one unit; the divisor is
      shifted up by `s` bits, the quotient by `k`. */
  method FDiv(x: TempReal, y: TempReal, was: TempReal)
    returns (r: TempReal, flag: Flag, ghost q: nat, ghost s: nat, ghost k: nat)
    requires x.Valid() && y.Valid() && was.Valid()
    ensures r.Valid()
    ensures flag == ZeroDivide <==> y.Mantissa() == 0
    ensures flag == ZeroDivide ==> r == was
    ensures var e := x.Exp() - y.Exp() + 16383;
            && (flag == Underflow <==> y.Mantissa() > 0 && e < 0)
            && (flag == Underflow ==> r.Mantissa() == 0 && r.Exp() == 0)
            && (flag != ZeroDivide && flag != Overflow ==> (r.Negative() <==> x.Negative() != y.Negative()))
            && (y.Mantissa() > 0 && e >= 0 ==>
                  && IsQuotient(x.Mantissa(), Scaled(y.Mantissa(), s), q)
                  && Scaled(y.Mantissa(), s) < B2 <= 2 * Scaled(y.Mantissa(), s)
                  && Delivered(r, flag, was, q, e + s, k, if x.Negative() != y.Negative() then 0x8000 else 0))
            && (flag == Fine || flag == Denormal ==>
                  Value(y) != 0.0 && CutFrom(Value(x) / Value(y), r, Two(x.Exp() - y.Exp() + s - 63)))
  {
    q, s, k := 0, 0, 0;
    var sign := SignOf(x, y);
    if y.a == 0 && y.b == 0 {
      return was, ZeroDivide, q, s, k;
    }
    var e := x.Exp() - y.Exp() + BIAS;
    if e < 0 {
      r, flag := TempReal(0, 0, sign), Underflow;
      SignedParts(0, sign);
      return;
    }
    hide Scaled, IsQuotient, Delivered, Value, CutFrom;
    r, flag, q, s, k := DivideMantissas(x, y, e, sign, was);
    DeliveredFlag(r, flag, was, q, e + s, k, sign);
    if flag != Overflow { QuotientCut(x, y, r, flag, was, q, s, k, sign); }
  }

  lemma DeliveredFlag(r: TempReal, flag: Flag, was: TempReal, q: nat, i: nat, k: nat, sign: nat)
    requires Delivered(r, flag, was, q, i, k, sign)
    ensures flag != ZeroDivide && flag != Underflow && (flag != Overflow ==> (r.Negative() <==> sign != 0))
  {
  }

  /** The quotient `q` of fdiv is the exact quotient, cut off after 64 bits; normalising only scales it. */
  lemma QuotientCut(x: TempReal, y: TempReal, r: TempReal, flag: Flag, was: TempReal, q: nat, s: nat, k: nat, sign: nat)
    requires y.Mantissa() > 0 && IsQuotient(x.Mantissa(), Scaled(y.Mantissa(), s), q) && flag != Overflow
    requires x.Exp() - y.Exp() + 16383 >= 0 && (sign != 0 <==> x.Negative() != y.Negative())
    requires Delivered(r, flag, was, q, x.Exp() - y.Exp() + 16383 + s, k, sign)
    ensures Value(y) != 0.0 && CutFrom(Value(x) / Value(y), r, Two(x.Exp() - y.Exp() + s - 63))
  {
    var z := x.Exp() - y.Exp() + s - 63;
    hide Magnitude, Units, IsQuotient, Scaled, Delivered, Two;
    DeliveredFlag(r, flag, was, q, x.Exp() - y.Exp() + 16383 + s, k, sign);
    DeliveredUnits(r, flag, was, q, x.Exp() - y.Exp() + 16383 + s, k, sign);
    QuotientBounds(x, y, q, s, z);
    SignedQuotient(x, y, Units(q, z), Two(z));
  }

  /** Shifting the quotient up does not change the number. */
  lemma DeliveredUnits(r: TempReal, flag: Flag, was: TempReal, q: nat, i: nat, k: nat, sign: nat)
    requires Delivered(r, flag, was, q, i, k, sign) && flag != Overflow
    ensures Magnitude(r) == Units(q, i - 16446)
  {
    hide Magnitude, Two, Pow2;
    MagnitudeUnits(r);
    UnitsShift(q, i - k - 16446, k);
    UnitsNone(i - 16446, r.Exp() - 16446);
    hide Units;
  }

  lemma UnitsNone(y: int, z: int)
    ensures Units(0, y) == Units(0, z) == 0.0
  {
    hide Two;
  }

  lemma QuotientBounds(x: TempReal, y: TempReal, q: nat, s: nat, z: int)
    requires y.Mantissa() > 0 && IsQuotient(x.Mantissa(), Scaled(y.Mantissa(), s), q)
    requires z == x.Exp() - y.Exp() + s - 63
    ensures Magnitude(y) > 0.0
    ensures Units(q, z) * Magnitude(y) <= Magnitude(x) < (Units(q, z) + Two(z)) * Magnitude(y)
  {
    hide Units, Two, Magnitude, Pow2;
    var n, d, w := x.Mantissa(), y.Mantissa(), x.Exp() - 16510;
    MagnitudeUnits(x);
    MagnitudeUnits(y);
    PowConsts();
    UnitsShift(n, w, 64);
    QuotientTimes(q, d, s, z, y.Exp() - 16446);
    QuotientTimes(q + 1, d, s, z, y.Exp() - 16446);
    UnitsSum(q, 1, z);
    UnitsOne(z);
    QuotientProducts(q, d, Pow2(s));
    UnitsDiffer(n * B2, q * (2 * (d * Pow2(s))), w);
    UnitsDiffer(n * B2, (q + 1) * (2 * (d * Pow2(s))), w);
    UnitsOne(y.Exp() - 16446);
    UnitsDiffer(0, d, y.Exp() - 16446);
    UnitsSum(0, 0, y.Exp() - 16446);
  }

  lemma UnitsOne(z: int)
    ensures Units(1, z) == Two(z)
  {
  }

  /** `q` of the units of the quotient times the divisor. */
  lemma QuotientTimes(q: nat, d: nat, s: nat, z: int, y: int)
    ensures Units(q, z) * Units(d, y) == Units(q * (2 * (d * Pow2(s))), z + y - s - 1)
  {
    UnitsProduct(q, d, z, y);
    UnitsShift(q * d, z + y - s - 1, s + 1);
    assert Pow2(s + 1) == 2 * Pow2(s);
    QuotientProducts(q, d, Pow2(s));
    hide Units, Pow2;
  }

  lemma QuotientProducts(q: nat, d: nat, p: nat)
    ensures q * (2 * (d * p)) == q * d * (2 * p) && q * (2 * (d * p)) + 2 * (d * p) == (q + 1) * (2 * (d * p))
  {
  }

  lemma Quotients(a: real, b: real, w: real, u: real)
    requires b > 0.0 && w * b <= a < (w + u) * b
    ensures w <= a / b < w + u
  {
    var v := a / b;
    assert v * b == a;
    Less(v, w, b);
    Less(w + u, v, b);
  }

  lemma Less(x: real, y: real, b: real)
    requires b > 0.0
    ensures x * b < y * b <==> x < y
  {
  }

  lemma SignedQuotient(x: TempReal, y: TempReal, w: real, u: real)
    requires Magnitude(y) > 0.0 && w * Magnitude(y) <= Magnitude(x) < (w + u) * Magnitude(y)
    ensures Value(y) != 0.0
    ensures if x.Negative() != y.Negative() then -w - u < Value(x) / Value(y) <= -w
            else w <= Value(x) / Value(y) < w + u
  {
    var a, b := Magnitude(x), Magnitude(y);
    hide Magnitude;
    var v := a / b;
    Quotients(a, b, w, u);
    assert Value(x) / Value(y) == if x.Negative() != y.Negative() then -v else v;
  }

  /** The quotient's lower words stay zero. */
  lemma ExactUpper(c: seq<Word>, q: nat, k: nat)
    requires |c| == 4 && Number(c) == Scaled(q * B2, k)
    ensures c[2] as int + c[3] as int * B == Scaled(q, k)
  {
    var p := Pow2(k);
    hide Pow2;
    assert q * B2 * p == q * p * B2;
  }
}
