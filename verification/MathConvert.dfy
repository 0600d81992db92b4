/** Conversions between short, long and temporary reals (kernel/math/convert.c), formats of sections 3.2 and 3.3
    of IEEE 754-1985.  Masks, shifts and ors of disjoint bits are written as remainders, quotients and sums. */
module MathConvert {
  import opened MathWords
  import opened MathReals

  datatype Rounding = Nearest | Down | Up | Chop

  /** Two words of a long real, `b` with sign and exponent. */
  datatype LongReal = LongReal(a: Word, b: Word)

  function SignBit(sign: bool): nat {
    if sign then 0x8000 else 0
  }

  function TopBit(sign: bool): Word {
    if sign then 0x8000_0000 else 0
  }

  function ShortToTemp(a: Word): TempReal {
    if a % 0x8000_0000 == 0 then
      TempReal(0, 0, SignBit(a != 0))
    else
      TempReal(0, a % 0x80_0000 * 0x100 + 0x8000_0000,
               a / 0x80_0000 % 0x100 - 127 + 16383 + SignBit(a >= 0x8000_0000))
  }

  /** temp_to_short before rounding. */
  function ShortTruncated(t: TempReal): Word {
    (t.Exp() - 16383 + 127) % 0x100 * 0x80_0000 + TopBit(t.Negative()) + t.b / 0x100 % 0x80_0000
  }

  /** The tests of temp_to_short; none looks at the lower word of the mantissa. */
  predicate ShortAddsOne(t: TempReal, mode: Rounding) {
    match mode
    case Nearest => t.b % 0x100 > 0x80
    case Down => t.Negative() && t.b % 0x100 != 0
    case Up => !t.Negative() && t.b % 0x100 != 0
    case Chop => false
  }

  function TempToShort(t: TempReal, mode: Rounding): Word {
    if t.Exp() == 0 then TopBit(t.exponent != 0)
    else if ShortAddsOne(t, mode) then (ShortTruncated(t) + 1) % B
    else ShortTruncated(t)
  }

  function LongToTemp(x: LongReal): TempReal {
    if x.a == 0 && x.b % 0x8000_0000 == 0 then
      TempReal(0, 0, SignBit(x.b != 0))
    else
      TempReal(x.a * 0x800 % B, 0x8000_0000 + x.b % 0x10_0000 * 0x800 + x.a / 0x20_0000,
               x.b / 0x10_0000 % 0x800 - 1023 + 16383 + SignBit(x.b >= 0x8000_0000))
  }

  /** temp_to_long before rounding. */
  function Truncated(t: TempReal): LongReal {
    LongReal(t.b % 0x800 * 0x20_0000 + t.a / 0x800,
             (t.Exp() - 16383 + 1023) % 0x800 * 0x10_0000 + TopBit(t.Negative()) + t.b / 0x800 % 0x10_0000)
  }

  /** The tests of temp_to_long; those of the directed modes look at the wrong word of the mantissa. */
  predicate AddsOne(t: TempReal, mode: Rounding) {
    match mode
    case Nearest => t.a % 0x800 > 0x400
    case Down => t.Negative() && t.b % 0x100 != 0
    case Up => !t.Negative() && t.b % 0x100 != 0
    case Chop => false
  }

  /** addl $1 and adcl $0 on the two words. */
  function PlusOne(x: LongReal): LongReal {
    LongReal(Sum(x.a, 1, false), Sum(x.b, 0, Carry(x.a, 1, false)))
  }

  function TempToLong(t: TempReal, mode: Rounding): LongReal {
    if t.Exp() == 0 then LongReal(0, TopBit(t.exponent != 0))
    else if AddsOne(t, mode) then PlusOne(Truncated(t))
    else Truncated(t)
  }

  // ---------------------------------------------------------------- there and back

  lemma ShortFields(a: Word)
    requires a % 0x8000_0000 != 0
    ensures var t := ShortToTemp(a);
            && t.Valid() && t.Exp() == a / 0x80_0000 % 0x100 - 127 + 16383 && (t.Negative() <==> a >= 0x8000_0000)
            && t.a == 0 && t.b % 0x100 == 0 && t.b / 0x100 == 0x80_0000 + a % 0x80_0000
  {
  }

  lemma ShortPieces(a: Word)
    ensures a == a / 0x80_0000 % 0x100 * 0x80_0000 + TopBit(a >= 0x8000_0000) + a % 0x80_0000
  {
  }

  /** Every 32-bit real comes back from a temporary real unchanged, in every rounding mode. */
  lemma ShortRoundTrip(a: Word, mode: Rounding)
    ensures TempToShort(ShortToTemp(a), mode) == a
  {
    if a % 0x8000_0000 != 0 {
      ShortRestored(a);
      hide ShortToTemp, ShortTruncated;
    }
  }

  lemma ShortRestored(a: Word)
    requires a % 0x8000_0000 != 0
    ensures var t := ShortToTemp(a); t.Exp() != 0 && t.b % 0x100 == 0 && ShortTruncated(t) == a
  {
    ShortFields(a);
    ShortPieces(a);
    hide ShortToTemp;
  }

  /** The directed modes add one to numbers of their sign when these bits are set. */
  predicate Misrounded(x: LongReal, mode: Rounding) {
    && x.a / 0x20_0000 % 0x100 != 0
    && ((mode == Down && x.b >= 0x8000_0000) || (mode == Up && x.b < 0x8000_0000))
  }

  lemma LongFields(x: LongReal)
    requires !(x.a == 0 && x.b % 0x8000_0000 == 0)
    ensures var t := LongToTemp(x);
            && t.Valid() && t.Exp() == x.b / 0x10_0000 % 0x800 - 1023 + 16383
            && (t.Negative() <==> x.b >= 0x8000_0000)
            && t.b / 0x800 == 0x10_0000 + x.b % 0x10_0000 && t.b % 0x800 == x.a / 0x20_0000
            && t.b % 0x100 == x.a / 0x20_0000 % 0x100 && t.a == x.a % 0x20_0000 * 0x800
  {
    LongUpper(x.b % 0x10_0000, x.a / 0x20_0000);
    LongLower(x.a);
  }

  lemma LongUpper(high: nat, low: nat)
    requires high < 0x10_0000 && low < 0x800
    ensures var b := 0x8000_0000 + high * 0x800 + low;
            b < B && b / 0x800 == 0x10_0000 + high && b % 0x800 == low && b % 0x100 == low % 0x100
  {
  }

  lemma LongLower(a: Word)
    ensures a * 0x800 % B == a % 0x20_0000 * 0x800
  {
  }

  lemma LongPieces(x: LongReal)
    ensures x.b == x.b / 0x10_0000 % 0x800 * 0x10_0000 + TopBit(x.b >= 0x8000_0000) + x.b % 0x10_0000
    ensures x.a == x.a / 0x20_0000 * 0x20_0000 + x.a % 0x20_0000
  {
  }

  lemma LongTruncated(x: LongReal)
    requires !(x.a == 0 && x.b % 0x8000_0000 == 0)
    ensures LongToTemp(x).Exp() != 0 && Truncated(LongToTemp(x)) == x
  {
    LongFields(x);
    LongPieces(x);
    hide LongToTemp;
  }

  lemma LongAddsOne(x: LongReal, mode: Rounding)
    requires !(x.a == 0 && x.b % 0x8000_0000 == 0)
    ensures AddsOne(LongToTemp(x), mode) <==> Misrounded(x, mode)
  {
    LongFields(x);
    hide LongToTemp;
  }

  /** A 64-bit real comes back unchanged exactly when its rounding mode does not misround it; it always does in
      modes nearest and toward zero. */
  lemma LongRoundTrip(x: LongReal, mode: Rounding)
    ensures TempToLong(LongToTemp(x), mode) == x <==> !Misrounded(x, mode)
    ensures mode == Nearest || mode == Chop ==> TempToLong(LongToTemp(x), mode) == x
  {
    if x.a == 0 && x.b % 0x8000_0000 == 0 {
      LongZero(x, mode);
    } else {
      LongTruncated(x);
      LongAddsOne(x, mode);
      OneMore(x);
      hide Truncated, LongToTemp, AddsOne, PlusOne;
    }
  }

  lemma LongZero(x: LongReal, mode: Rounding)
    requires x.a == 0 && x.b % 0x8000_0000 == 0
    ensures TempToLong(LongToTemp(x), mode) == x && !Misrounded(x, mode)
  {
    hide Truncated, AddsOne, PlusOne;
  }

  lemma OneMore(x: LongReal)
    ensures PlusOne(x) != x
  {
  }

  /** Rounding down changes a number just below minus one. */
  lemma MisroundedExample()
    ensures TempToLong(LongToTemp(LongReal(0xffff_ffff, 0xbff0_0000)), Down) != LongReal(0xffff_ffff, 0xbff0_0000)
  {
    hide TempToLong, LongToTemp;
    LongRoundTrip(LongReal(0xffff_ffff, 0xbff0_0000), Down);
  }

  // ---------------------------------------------------------------- the numbers they stand for

  function ShortExp(a: Word): nat {
    a / 0x80_0000 % 0x100
  }

  function ShortFraction(a: Word): nat {
    a % 0x80_0000
  }

  /** A 32-bit real without its sign: 23 bits after the point, the exponent biased by 127, denormal at exponent 0.
      Infinity counts as the number it is rounded from. */
  ghost function ShortMagnitude(a: Word): real {
    if ShortExp(a) == 0 then Units(ShortFraction(a), -126 - 23)
    else Units(0x80_0000 + ShortFraction(a), ShortExp(a) - 127 - 23)
  }

  function LongExp(x: LongReal): nat {
    x.b / 0x10_0000 % 0x800
  }

  function LongFraction(x: LongReal): nat {
    x.b % 0x10_0000 * B + x.a
  }

  /** A 64-bit real: 52 bits after the point, the exponent biased by 1023. */
  ghost function LongMagnitude(x: LongReal): real {
    if LongExp(x) == 0 then Units(LongFraction(x), -1022 - 52)
    else Units(0x10_0000 * B + LongFraction(x), LongExp(x) - 1023 - 52)
  }

  lemma FortyBits(m: nat, z: int)
    ensures Units(m * 0x100 * B, z) == Units(m, z + 40)
  {
    assert Pow2(40) == 0x100 * B by { PowConsts(); PowAdd(8, 32); assert Pow2(8) == 256; }
    UnitsShift(m, z, 40);
  }

  lemma ElevenBits(m: nat, z: int)
    ensures Units(m * 0x800, z) == Units(m, z + 11)
  {
    assert Pow2(11) == 0x800 by { PowAdd(8, 3); assert Pow2(8) == 256 && Pow2(3) == 8; }
    UnitsShift(m, z, 11);
  }

  lemma OneBit(m: nat, z: int)
    ensures Units(2 * m, z) == Units(m, z + 1)
  {
    assert Pow2(1) == 2;
    UnitsShift(m, z, 1);
  }

  lemma ShortParts(a: Word)
    requires a % 0x8000_0000 != 0
    ensures var t := ShortToTemp(a);
            && t.Mantissa() == (0x80_0000 + ShortFraction(a)) * 0x100 * B && t.Exp() == ShortExp(a) - 127 + 16383
    ensures ShortFraction(a) < 0x80_0000 && !(ShortExp(a) == 0 && ShortFraction(a) == 0)
  {
    ShortFields(a);
    hide ShortToTemp;
  }

  /** short_to_temp keeps the sign, and the number of every 32-bit real that is not denormal. */
  lemma ShortToTempValue(a: Word)
    ensures ShortToTemp(a).Valid() && (ShortToTemp(a).Negative() <==> a >= 0x8000_0000)
    ensures Magnitude(ShortToTemp(a)) == ShortMagnitude(a) <==> !(ShortExp(a) == 0 && ShortFraction(a) != 0)
  {
    hide ShortToTemp, Units, ShortExp, ShortFraction, Magnitude;
    if a % 0x8000_0000 == 0 {
      ShortZero(a);
    } else {
      ShortFields(a);
      ShortParts(a);
      var e: int, f := ShortExp(a), ShortFraction(a);
      MagnitudeUnits(ShortToTemp(a));
      FortyBits(0x80_0000 + f, e - 190);
      OneBit(f, -150);
      UnitsDiffer(0x80_0000 + f, 2 * f, -150);
    }
  }

  lemma ShortZero(a: Word)
    requires a % 0x8000_0000 == 0
    ensures ShortToTemp(a).Valid() && (ShortToTemp(a).Negative() <==> a >= 0x8000_0000)
    ensures Magnitude(ShortToTemp(a)) == ShortMagnitude(a) && ShortExp(a) == ShortFraction(a) == 0
  {
    hide Two;
  }

  lemma LongParts(x: LongReal)
    requires !(x.a == 0 && x.b % 0x8000_0000 == 0)
    ensures var t := LongToTemp(x);
            && t.Mantissa() == (0x10_0000 * B + LongFraction(x)) * 0x800 && t.Exp() == LongExp(x) - 1023 + 16383
    ensures LongFraction(x) < 0x10_0000 * B && !(LongExp(x) == 0 && LongFraction(x) == 0)
  {
    LongFields(x);
    LongPieces(x);
    hide LongToTemp;
  }

  /** long_to_temp keeps the sign, and the number of every 64-bit real that is not denormal. */
  lemma LongToTempValue(x: LongReal)
    ensures LongToTemp(x).Valid() && (LongToTemp(x).Negative() <==> x.b >= 0x8000_0000)
    ensures Magnitude(LongToTemp(x)) == LongMagnitude(x) <==> !(LongExp(x) == 0 && LongFraction(x) != 0)
  {
    hide LongToTemp, Units, LongExp, LongFraction, Magnitude;
    if x.a == 0 && x.b % 0x8000_0000 == 0 {
      LongNothing(x);
    } else {
      LongFields(x);
      LongParts(x);
      var e: int, f := LongExp(x), LongFraction(x);
      MagnitudeUnits(LongToTemp(x));
      ElevenBits(0x10_0000 * B + f, e - 1086);
      OneBit(f, -1075);
      UnitsDiffer(0x10_0000 * B + f, 2 * f, -1075);
    }
  }

  lemma LongNothing(x: LongReal)
    requires x.a == 0 && x.b % 0x8000_0000 == 0
    ensures LongToTemp(x).Valid() && (LongToTemp(x).Negative() <==> x.b >= 0x8000_0000)
    ensures Magnitude(LongToTemp(x)) == LongMagnitude(x) && LongExp(x) == LongFraction(x) == 0
  {
    hide Two;
  }

  // ---------------------------------------------------------------- rounding

  /** `w` is `v` rounded as the mode says, to a multiple of the unit `u`; the number is negative if `sign`. */
  ghost predicate RoundedRight(v: real, w: real, u: real, sign: bool, mode: Rounding) {
    match mode
    case Nearest => w - u / 2.0 <= v <= w + u / 2.0
    case Down => if sign then w - u < v <= w else w <= v < w + u
    case Up => if sign then w <= v < w + u else w - u < v <= w
    case Chop => w <= v < w + u
  }

  /** The same of whole numbers. */
  predicate RoundedWhole(m: int, n: int, half: int, sign: bool, mode: Rounding) {
    match mode
    case Nearest => n - half <= m <= n + half
    case Down => if sign then n - 2 * half < m <= n else n <= m < n + 2 * half
    case Up => if sign then n <= m < n + 2 * half else n - 2 * half < m <= n
    case Chop => n <= m < n + 2 * half
  }

  lemma RoundedUnits(m: int, n: int, half: int, z: int, sign: bool, mode: Rounding)
    ensures RoundedRight(Units(m, z), Units(n, z), Units(2 * half, z), sign, mode)
            <==> RoundedWhole(m, n, half, sign, mode)
  {
    UnitsSum(half, half, z);
    UnitsSum(n, half, z);
    UnitsSum(n, -half, z);
    UnitsSum(half, half, z);
    UnitsSum(n, 2 * half, z);
    UnitsSum(n, -2 * half, z);
    UnitsSum(0, 2 * half, z);
    forall k: int ensures (Units(k, z) <= Units(m, z) <==> k <= m) && (Units(m, z) < Units(k, z) <==> m < k)
                          && (Units(m, z) <= Units(k, z) <==> m <= k) && (Units(k, z) < Units(m, z) <==> k < m)
    {
      UnitsDiffer(k, m, z);
      UnitsDiffer(m, k, z);
    }
    hide Units;
  }

  /** The exponent of a temporary real in the bias of a 32-bit real. */
  function ShortBiased(t: TempReal): int {
    t.Exp() - 16383 + 127
  }

  /** temp_to_short drops the last 40 of the 64 bits of the mantissa. */
  lemma ShortTruncates(t: TempReal)
    requires t.b >= 0x8000_0000 && 1 <= ShortBiased(t) <= 254
    ensures var s := ShortTruncated(t);
            && ShortExp(s) == ShortBiased(t) && 0x80_0000 + ShortFraction(s) == t.b / 0x100
            && (s >= 0x8000_0000 <==> t.Negative())
  {
  }

  /** The carry of an addition goes into the exponent and is right there. */
  lemma ShortNext(s: Word)
    requires 1 <= ShortExp(s) <= 254
    ensures var s' := (s + 1) % B;
            && ShortMagnitude(s') == Units(0x80_0000 + ShortFraction(s) + 1, ShortExp(s) - 150)
            && (s' >= 0x8000_0000 <==> s >= 0x8000_0000)
  {
    hide Units;
    if ShortFraction(s) == 0x7f_ffff { OneBit(0x80_0000, ShortExp(s) - 150); }
  }

  /** Which 32-bit real temp_to_short gives for a normalised temporary real in its range: the sign is kept; the result
      is rounded as the mode says, but for what the tests do not see.  Nearest goes wrong just above one half, Down and
      Up for fractions whose first eight bits are zero when the number should go away from zero. */
  lemma ShortRounding(t: TempReal, mode: Rounding)
    requires t.b >= 0x8000_0000 && 1 <= ShortBiased(t) <= 254
    ensures var r, low := TempToShort(t, mode), t.b % 0x100;
            && (r >= 0x8000_0000 <==> t.Negative())
            && (RoundedRight(Magnitude(t), ShortMagnitude(r), Two(ShortBiased(t) - 150), t.Negative(), mode) <==>
                  match mode
                  case Nearest => !(low == 0x80 && t.a != 0)
                  case Down => !(t.Negative() && low == 0 && t.a != 0)
                  case Up => !(!t.Negative() && low == 0 && t.a != 0)
                  case Chop => true)
            && ShortMagnitude(r) - Two(ShortBiased(t) - 150) < Magnitude(t)
            && Magnitude(t) < ShortMagnitude(r) + Two(ShortBiased(t) - 150)
            && (low == 0x80 && t.a == 0 && mode == Nearest ==> ShortMagnitude(r) < Magnitude(t))
  {
    var s, e := ShortTruncated(t), ShortBiased(t);
    ShortTruncates(t);
    ShortNext(s);
    var q, add := t.b / 0x100, ShortAddsOne(t, mode);
    var n := q + (if add then 1 else 0);
    assert ShortMagnitude(TempToShort(t, mode)) == Units(n, e - 150);
    ShortScale(t, q, n, mode, add);
  }

  lemma ShortScale(t: TempReal, q: nat, n: nat, mode: Rounding, add: bool)
    requires t.b >= 0x8000_0000 && q == t.b / 0x100 && add == ShortAddsOne(t, mode) && n == q + (if add then 1 else 0)
    ensures var e, low := ShortBiased(t), t.b % 0x100;
            && (RoundedRight(Magnitude(t), Units(n, e - 150), Two(e - 150), t.Negative(), mode) <==>
                  match mode
                  case Nearest => !(low == 0x80 && t.a != 0)
                  case Down => !(t.Negative() && low == 0 && t.a != 0)
                  case Up => !(!t.Negative() && low == 0 && t.a != 0)
                  case Chop => true)
            && Units(n, e - 150) - Two(e - 150) < Magnitude(t) < Units(n, e - 150) + Two(e - 150)
            && (low == 0x80 && t.a == 0 && mode == Nearest ==> Units(n, e - 150) < Magnitude(t))
  {
    var m, z, half := t.Mantissa(), t.Exp() - 16446, 0x80 * B;
    MagnitudeUnits(t);
    FortyBits(n, z);
    FortyBits(1, z);
    assert Two(z + 40) == Units(1, z + 40);
    RoundedUnits(m, n * 0x100 * B, half, z, t.Negative(), mode);
    UnitsSum(n * 0x100 * B, 2 * half, z);
    UnitsSum(n * 0x100 * B, -2 * half, z);
    UnitsSum(0, 2 * half, z);
    UnitsDiffer(m, n * 0x100 * B + 2 * half, z);
    UnitsDiffer(n * 0x100 * B - 2 * half, m, z);
    UnitsDiffer(n * 0x100 * B, m, z);
    assert m == q * 0x100 * B + t.b % 0x100 * B + t.a;
    hide Units, Magnitude, RoundedRight;
  }

  function LongBiased(t: TempReal): int {
    t.Exp() - 16383 + 1023
  }

  /** temp_to_long drops the last 11 bits. */
  lemma LongTruncates(t: TempReal)
    requires t.b >= 0x8000_0000 && 1 <= LongBiased(t) <= 2046
    ensures var s := Truncated(t);
            && LongExp(s) == LongBiased(t) && (0x10_0000 * B + LongFraction(s)) * 0x800 + t.a % 0x800 == t.Mantissa()
            && (s.b >= 0x8000_0000 <==> t.Negative())
  {
    assert t.b / 0x800 == 0x10_0000 + t.b / 0x800 % 0x10_0000;
  }

  lemma LongNext(s: LongReal)
    requires 1 <= LongExp(s) <= 2046
    ensures LongMagnitude(PlusOne(s)) == Units(0x10_0000 * B + LongFraction(s) + 1, LongExp(s) - 1075)
    ensures PlusOne(s).b >= 0x8000_0000 <==> s.b >= 0x8000_0000
  {
    hide Units;
    if s.a == 0xffff_ffff && s.b % 0x10_0000 == 0xf_ffff {
      OneBit(0x10_0000 * B, LongExp(s) - 1075);
      assert LongExp(PlusOne(s)) == LongExp(s) + 1 && LongFraction(PlusOne(s)) == 0;
    } else {
      assert LongExp(PlusOne(s)) == LongExp(s) && LongFraction(PlusOne(s)) == LongFraction(s) + 1;
    }
  }

  /** Which 64-bit real temp_to_long gives: nearest is always right, with ties toward zero; the directed modes are
      right exactly when the byte they test is zero just if the bits that are dropped are. */
  lemma LongRounding(t: TempReal, mode: Rounding)
    requires t.b >= 0x8000_0000 && 1 <= LongBiased(t) <= 2046
    ensures var r, low := TempToLong(t, mode), t.a % 0x800;
            && (r.b >= 0x8000_0000 <==> t.Negative())
            && (RoundedRight(Magnitude(t), LongMagnitude(r), Two(LongBiased(t) - 1075), t.Negative(), mode) <==>
                  match mode
                  case Nearest => true
                  case Down => t.Negative() ==> (t.b % 0x100 == 0 <==> low == 0)
                  case Up => !t.Negative() ==> (t.b % 0x100 == 0 <==> low == 0)
                  case Chop => true)
            && LongMagnitude(r) - Two(LongBiased(t) - 1075) <= Magnitude(t)
            && Magnitude(t) < LongMagnitude(r) + Two(LongBiased(t) - 1075)
            && (low == 0x400 && mode == Nearest ==> LongMagnitude(r) < Magnitude(t))
  {
    var s, e := Truncated(t), LongBiased(t);
    LongTruncates(t);
    LongNext(s);
    var q, add := 0x10_0000 * B + LongFraction(s), AddsOne(t, mode);
    var n := q + (if add then 1 else 0);
    hide Truncated, PlusOne, LongFraction, LongExp;
    assert LongMagnitude(TempToLong(t, mode)) == Units(n, e - 1075);
    LongScale(t, q, n, mode, add);
  }

  lemma LongScale(t: TempReal, q: nat, n: nat, mode: Rounding, add: bool)
    requires q * 0x800 + t.a % 0x800 == t.Mantissa() && add == AddsOne(t, mode) && n == q + (if add then 1 else 0)
    ensures var e, low := LongBiased(t), t.a % 0x800;
            && (RoundedRight(Magnitude(t), Units(n, e - 1075), Two(e - 1075), t.Negative(), mode) <==>
                  match mode
                  case Nearest => true
                  case Down => t.Negative() ==> (t.b % 0x100 == 0 <==> low == 0)
                  case Up => !t.Negative() ==> (t.b % 0x100 == 0 <==> low == 0)
                  case Chop => true)
            && Units(n, e - 1075) - Two(e - 1075) <= Magnitude(t) < Units(n, e - 1075) + Two(e - 1075)
            && (low == 0x400 && mode == Nearest ==> Units(n, e - 1075) < Magnitude(t))
  {
    var m, z := t.Mantissa(), t.Exp() - 16446;
    MagnitudeUnits(t);
    ElevenBits(n, z);
    ElevenBits(1, z);
    assert Two(z + 11) == Units(1, z + 11);
    hide Units, Magnitude, RoundedRight;
    RoundedUnits(m, n * 0x800, 0x400, z, t.Negative(), mode);
    UnitsDiffer(n * 0x800, m, z);
    UnitsSum(n * 0x800, 0x800, z);
    UnitsSum(n * 0x800, -0x800, z);
    UnitsSum(0, 0x800, z);
    UnitsDiffer(m, n * 0x800 + 0x800, z);
    UnitsDiffer(m, n * 0x800 - 0x800, z);
  }

  /** Without its top bit the mantissa is taken for one that has it. */
  lemma Unnormalised(t: TempReal, mode: Rounding)
    requires t.b < 0x8000_0000
    ensures 1 <= ShortBiased(t) <= 254 ==>
              ShortMagnitude(TempToShort(t, mode)) > Magnitude(t) + Units(0x7f_ffff, ShortBiased(t) - 150)
    ensures 1 <= LongBiased(t) <= 2046 ==>
              LongMagnitude(TempToLong(t, mode)) > Magnitude(t) + Units(0x10_0000 * B - 1, LongBiased(t) - 1075)
  {
    hide TempToShort, TempToLong;
    if 1 <= ShortBiased(t) <= 254 { ShortUnnormal(t, mode); }
    if 1 <= LongBiased(t) <= 2046 { LongUnnormal(t, mode); }
  }

  lemma ShortUnnormal(t: TempReal, mode: Rounding)
    requires t.b < 0x8000_0000 && 1 <= ShortBiased(t) <= 254
    ensures ShortMagnitude(TempToShort(t, mode)) > Magnitude(t) + Units(0x7f_ffff, ShortBiased(t) - 150)
  {
    var s, e, z := ShortTruncated(t), ShortBiased(t), t.Exp() - 16446;
    ShortUpper(t);
    ShortNext(s);
    var n := 0x80_0000 + ShortFraction(s) + (if ShortAddsOne(t, mode) then 1 else 0);
    assert ShortMagnitude(TempToShort(t, mode)) == Units(n, e - 150);
    MagnitudeUnits(t);
    FortyBits(n, z);
    FortyBits(0x7f_ffff, z);
    UnitsSum(t.Mantissa(), 0x7f_ffff * 0x100 * B, z);
    UnitsDiffer(t.Mantissa() + 0x7f_ffff * 0x100 * B, n * 0x100 * B, z);
  }

  lemma ShortUpper(t: TempReal)
    requires t.b < 0x8000_0000 && 1 <= ShortBiased(t) <= 254
    ensures var s := ShortTruncated(t); ShortExp(s) == ShortBiased(t) && ShortFraction(s) == t.b / 0x100
    ensures t.Mantissa() < (t.b / 0x100 + 1) * 0x100 * B
  {
  }

  lemma LongUnnormal(t: TempReal, mode: Rounding)
    requires t.b < 0x8000_0000 && 1 <= LongBiased(t) <= 2046
    ensures LongMagnitude(TempToLong(t, mode)) > Magnitude(t) + Units(0x10_0000 * B - 1, LongBiased(t) - 1075)
  {
    var s, e, z := Truncated(t), LongBiased(t), t.Exp() - 16446;
    LongUpperBits(t);
    LongNext(s);
    var n := 0x10_0000 * B + LongFraction(s) + (if AddsOne(t, mode) then 1 else 0);
    hide Truncated, PlusOne, LongFraction, LongExp, Units;
    assert LongMagnitude(TempToLong(t, mode)) == Units(n, e - 1075);
    MagnitudeUnits(t);
    ElevenBits(n, z);
    ElevenBits(0x10_0000 * B - 1, z);
    UnitsSum(t.Mantissa(), (0x10_0000 * B - 1) * 0x800, z);
    UnitsDiffer(t.Mantissa() + (0x10_0000 * B - 1) * 0x800, n * 0x800, z);
  }

  lemma LongUpperBits(t: TempReal)
    requires t.b < 0x8000_0000 && 1 <= LongBiased(t) <= 2046
    ensures var s := Truncated(t); LongExp(s) == LongBiased(t) && t.Mantissa() < (LongFraction(s) + 1) * 0x800
  {
    assert t.b / 0x800 % 0x10_0000 == t.b / 0x800;
  }
}
