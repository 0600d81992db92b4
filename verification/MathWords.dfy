/** 32-bit words, four-word numbers and powers of two for the math emulator (kernel/math). */
module MathWords {
  const B := 0x1_0000_0000
  const B2 := 0x1_0000_0000_0000_0000
  const B3 := 0x1_0000_0000_0000_0000_0000_0000
  const B4 := 0x1_0000_0000_0000_0000_0000_0000_0000_0000

  type Word = x: int | 0 <= x < 0x1_0000_0000

  /** The number four words spell, lowest first. */
  function Number(c: seq<Word>): (n: nat)
    requires |c| == 4
    ensures n < B4
  {
    c[0] as int + c[1] as int * B + c[2] as int * B2 + c[3] as int * B3
  }

  /** addl and adcl: sum and carry. */
  function Sum(x: Word, y: Word, carry: bool): Word {
    var s := x as int + y as int + (if carry then 1 else 0);
    if s >= B then s - B else s
  }

  function Carry(x: Word, y: Word, carry: bool): bool {
    x as int + y as int + (if carry then 1 else 0) >= B
  }

  /** subl and sbbl: difference and borrow. */
  function Diff(x: Word, y: Word, borrow: bool): Word {
    var d := x as int - y as int - (if borrow then 1 else 0);
    if d < 0 then d + B else d
  }

  function Borrow(x: Word, y: Word, borrow: bool): bool {
    x as int - y as int - (if borrow then 1 else 0) < 0
  }

  function Pow2(n: nat): (p: nat)
    ensures p > 0
  {
    if n == 0 then 1 else 2 * Pow2(n - 1)
  }

  lemma {:induction false} PowAdd(m: nat, n: nat)
    ensures Pow2(m + n) == Pow2(m) * Pow2(n)
  {
    if m > 0 {
      PowAdd(m - 1, n);
      TwiceProduct(Pow2(m - 1), Pow2(n));
    }
  }

  lemma TwiceProduct(x: nat, y: nat)
    ensures 2 * x * y == 2 * (x * y)
  {
  }

  lemma PowConsts()
    ensures Pow2(31) == 0x8000_0000 && Pow2(32) == B && Pow2(63) == 0x8000_0000_0000_0000 && Pow2(64) == B2
  {
    assert Pow2(8) == 256;
    PowAdd(8, 8);
    PowAdd(16, 15);
    assert Pow2(15) == 32768 by { PowAdd(8, 7); }
    PowAdd(16, 16);
    PowAdd(32, 31);
    PowAdd(32, 32);
  }

  /** Quotient and remainder, kept apart from the arithmetic around them. */
  function Div(n: nat, m: nat): nat
    requires m > 0
  {
    DivNat(n, m);
    n / m
  }

  function Mod(n: nat, m: nat): nat
    requires m > 0
  {
    n % m
  }

  lemma DivNat(n: nat, m: nat)
    requires m > 0
    ensures 0 <= n / m <= n
  {
    var q := n / m;
    assert q * m <= n < q * m + m;
    if q < 0 { Products(m, q, -1); }
    Products(n + 1, 1, m);
    if q > n { Products(m, n + 1, q); }
  }

  lemma DivMod(n: nat, m: nat)
    requires m > 0
    ensures n == Div(n, m) * m + Mod(n, m) && Mod(n, m) < m && Div(n, m) <= n
  {
    DivNat(n, m);
  }

  lemma MulMono(a: nat, x: nat, y: nat)
    requires x <= y
    ensures a * x <= a * y
  {
  }

  lemma Products(m: nat, x: int, y: int)
    requires x <= y
    ensures x * m <= y * m
  {
  }

  lemma Distribute(x: nat, y: nat, m: nat)
    ensures (x + y) * m == x * m + y * m
  {
  }

  predicate Floor(n: nat, m: nat, q: nat) {
    q * m <= n < q * m + m
  }

  /** The floor of the quotient. */
  lemma FloorUnique(n: nat, q: nat, m: nat)
    requires m > 0 && Floor(n, m, q)
    ensures q == n / m == Div(n, m) && Mod(n, m) == n - q * m
  {
    var p := n / m;
    assert p * m <= n < p * m + m;
    Distribute(p, 1, m);
    Distribute(q, 1, m);
    if p < q { MulMono(m, p + 1, q); }
    assert q < p ==> (q + 1) * m <= p * m by { if q < p { Products(m, q + 1, p); } }
  }
}
