/** Temporary reals and the numbers they stand for (kernel/math), in the format of section 3.3 of IEEE 754-1985. */
module MathReals {
  import opened MathWords

  /** A temporary real: 64 bits of mantissa in two words, the sign in bit 15 of the exponent. */
  datatype TempReal = TempReal(a: Word, b: Word, exponent: nat) {
    predicate Valid() {
      exponent < 0x10000
    }
    predicate Negative() {
      exponent >= 0x8000
    }
    function Exp(): nat {
      exponent % 0x8000
    }
    function Mantissa(): nat {
      a as int + b as int * B
    }
  }

  /** Two to the power `z`. */
  ghost function Two(z: int): (t: real)
    ensures t > 0.0
    decreases if z >= 0 then z else -z
  {
    if z == 0 then 1.0 else if z > 0 then 2.0 * Two(z - 1) else Two(z + 1) / 2.0
  }

  lemma TwoNext(z: int)
    ensures Two(z + 1) == 2.0 * Two(z)
  {
  }

  /** A product, kept apart from the arithmetic around it. */
  function Times(x: real, y: real): real {
    x * y
  }

  lemma {:induction false} TwoAdd(x: int, y: int)
    ensures Two(x + y) == Times(Two(x), Two(y))
    decreases if x >= 0 then x else -x
  {
    hide Times;
    TimesOne(Two(y));
    if x > 0 {
      TwoAdd(x - 1, y);
      TwoNext(x - 1 + y);
      TimesTwice(Two(x - 1), Two(y));
    } else if x < 0 {
      TwoAdd(x + 1, y);
      TwoNext(x + y);
      TimesTwice(Two(x), Two(y));
    }
  }

  lemma TimesOne(y: real)
    ensures Times(1.0, y) == y
  {
  }

  lemma TimesTwice(p: real, q: real)
    ensures Times(2.0 * p, q) == 2.0 * Times(p, q)
  {
  }

  lemma {:induction false} TwoPow(n: nat)
    ensures Two(n) == Pow2(n) as real
  {
    if n > 0 { TwoPow(n - 1); }
  }

  /** What it stands for without its sign: the mantissa has 63 bits after the point, the exponent is biased by 16383. */
  ghost function Magnitude(r: TempReal): (v: real)
    ensures v >= 0.0
  {
    r.Mantissa() as real * Two(r.Exp() - 16383 - 63)
  }

  ghost function Value(r: TempReal): real {
    if r.Negative() then -Magnitude(r) else Magnitude(r)
  }

  /** One in the last place of the mantissa. */
  ghost function Unit(r: TempReal): real {
    Two(r.Exp() - 16383 - 63)
  }

  // ---------------------------------------------------------------- whole numbers of units

  /** `m` in units of two to the `z`. */
  ghost function Units(m: int, z: int): real {
    m as real * Two(z)
  }

  lemma UnitsShift(m: nat, z: int, n: nat)
    ensures Units(m * Pow2(n), z) == Units(m, z + n)
  {
    TwoAdd(n, z);
    TwoPow(n);
    var p, q := Pow2(n), Two(z);
    hide Two, Pow2;
    Rearrange(m, p, q);
  }

  lemma Rearrange(m: nat, p: nat, q: real)
    ensures (m * p) as real * q == m as real * Times(p as real, q)
  {
  }

  lemma UnitsDiffer(m: int, n: int, z: int)
    ensures Units(m, z) == Units(n, z) <==> m == n
    ensures Units(m, z) < Units(n, z) <==> m < n
  {
    hide Two;
  }

  lemma UnitsSum(m: int, n: int, z: int)
    ensures Units(m + n, z) == Units(m, z) + Units(n, z) && Units(-n, z) == -Units(n, z)
  {
    hide Two;
  }

  lemma MagnitudeUnits(t: TempReal)
    ensures Magnitude(t) == Units(t.Mantissa(), t.Exp() - 16446)
  {
  }

  lemma UnitsProduct(m: nat, n: nat, y: int, z: int)
    ensures Units(m, y) * Units(n, z) == Units(m * n, y + z)
  {
    TwoAdd(y, z);
    var p, q := Two(y), Two(z);
    hide Two;
    FourFactors(m, n, p, q);
  }

  lemma FourFactors(m: nat, n: nat, p: real, q: real)
    ensures m as real * p * (n as real * q) == (m * n) as real * Times(p, q)
  {
    assert (m * n) as real == m as real * n as real;
    var x, y := m as real, n as real;
    assert x * p * (y * q) == x * y * (p * q);
  }

  /** `r` has the sign of the exact number `v` and falls short of it by less than `u`. */
  ghost predicate CutFrom(v: real, r: TempReal, u: real) {
    if r.Negative() then Value(r) - u < v <= Value(r) else Value(r) <= v < Value(r) + u
  }
}
