/** Powers of two and the bit tricks the kernel uses on unsigned 32-bit numbers. */
module Bits {
  /** One more than the largest 32-bit number. */
  const U32: nat := 0x1_0000_0000

  function Pow2(n: nat): (r: nat)
    ensures r > 0
  {
    if n == 0 then 1 else 2 * Pow2(n - 1)
  }

  /** Number of significant bits: what `32 - clz(n)` computes for n > 0. */
  function BitLen(n: nat): nat {
    if n == 0 then 0 else 1 + BitLen(n / 2)
  }

  /** Bitwise AND of two unsigned numbers. */
  function And(a: nat, b: nat): nat {
    if a == 0 || b == 0 then 0 else 2 * And(a / 2, b / 2) + (if a % 2 == 1 && b % 2 == 1 then 1 else 0)
  }

  /** The order `allocate_pages` asks for: bit length, minus one when `n & (n - 1)` is zero. */
  function ReqOrder(n: nat): nat
    requires n > 0
  {
    if And(n, n - 1) == 0 then BitLen(n) - 1 else BitLen(n)
  }

  lemma {:induction false} BitLenBounds(n: nat)
    requires n > 0
    ensures Pow2(BitLen(n) - 1) <= n < Pow2(BitLen(n))
  {
    if n > 1 { BitLenBounds(n / 2); }
  }

  lemma {:induction false} AndSelf(n: nat)
    ensures And(n, n) == n
  {
    if n > 0 { AndSelf(n / 2); }
  }

  /** The trick `n & (n - 1) == 0` recognises powers of two. */
  lemma {:induction false} AndPredIsPowerTest(n: nat)
    requires n > 0
    ensures And(n, n - 1) == 0 <==> n == Pow2(BitLen(n) - 1)
  {
    if n == 1 {
    } else if n % 2 == 0 {
      AndPredIsPowerTest(n / 2);
      assert (n - 1) / 2 == n / 2 - 1;
    } else {
      AndSelf(n / 2);
      assert (n - 1) / 2 == n / 2;
      assert n - 1 > 0;
      assert Pow2(BitLen(n) - 1) == 2 * Pow2(BitLen(n) - 2);
    }
  }

  /** The requested order is the smallest power of two that holds n pages. */
  lemma ReqOrderIsTight(n: nat)
    requires n > 0
    ensures n <= Pow2(ReqOrder(n)) < 2 * n
  {
    BitLenBounds(n);
    AndPredIsPowerTest(n);
  }

  lemma {:induction false} BitLenPow2(k: nat)
    ensures BitLen(Pow2(k)) == k + 1
  {
    if k > 0 { BitLenPow2(k - 1); }
  }

  lemma {:induction false} Pow2Mono(a: nat, b: nat)
    requires a <= b
    ensures Pow2(a) <= Pow2(b)
  {
    if a < b { Pow2Mono(a, b - 1); }
  }

  lemma {:induction false} Pow2Add(a: nat, b: nat)
    ensures Pow2(a + b) == Pow2(a) * Pow2(b)
  {
    if a > 0 {
      Pow2Add(a - 1, b);
      assert Pow2(a + b) == 2 * (Pow2(a - 1) * Pow2(b)) == Pow2(a) * Pow2(b);
    }
  }

  /** Bit p of b. */
  predicate Bit(b: nat, p: nat) {
    if p == 0 then b % 2 == 1 else Bit(b / 2, p - 1)
  }

  lemma TwiceProduct(q: nat, h: nat)
    ensures q * (2 * h) == 2 * (q * h)
  {
  }

  lemma HalfDivision(b: nat, h: nat)
    requires h > 0
    ensures (b / 2) / h == b / (2 * h)
  {
    var q, r := (b / 2) / h, (b / 2) % h;
    TwiceProduct(q, h);
    DivModUnique(b, q, 2 * r + b % 2, 2 * h);
  }

  lemma {:induction false} BitIsDivision(b: nat, p: nat)
    ensures Bit(b, p) <==> (b / Pow2(p)) % 2 == 1
  {
    if p > 0 {
      BitIsDivision(b / 2, p - 1);
      HalfDivision(b, Pow2(p - 1));
    }
  }

  /** Bit p of a number given by its parts above and below. */
  lemma BitOfParts(x: nat, q: nat, r: nat, p: nat)
    requires r < Pow2(p) && x == q * Pow2(p) + r
    ensures Bit(x, p) <==> q % 2 == 1
  {
    BitIsDivision(x, p);
    DivModUnique(x, q, r, Pow2(p));
  }

  /** b | (1 << p) */
  function SetBit(b: nat, p: nat): nat {
    if p == 0 then b - b % 2 + 1 else 2 * SetBit(b / 2, p - 1) + b % 2
  }

  /** b & ~(1 << p) */
  function ClearBit(b: nat, p: nat): nat {
    if p == 0 then b - b % 2 else 2 * ClearBit(b / 2, p - 1) + b % 2
  }

  lemma {:induction false} BitOfSet(b: nat, p: nat, q: nat)
    ensures Bit(SetBit(b, p), q) <==> q == p || Bit(b, q)
  {
    if p > 0 && q > 0 { BitOfSet(b / 2, p - 1, q - 1); }
  }

  lemma {:induction false} BitOfClear(b: nat, p: nat, q: nat)
    ensures Bit(ClearBit(b, p), q) <==> q != p && Bit(b, q)
  {
    if p > 0 && q > 0 { BitOfClear(b / 2, p - 1, q - 1); }
  }

  /** 31 - clz(b) is the highest bit that is set. */
  lemma {:induction false} HighestBit(b: nat)
    requires b > 0
    ensures Bit(b, BitLen(b) - 1) && forall q | q >= BitLen(b) :: !Bit(b, q)
  {
    if b > 1 {
      HighestBit(b / 2);
      forall q | q >= BitLen(b) ensures !Bit(b, q) { assert !Bit(b / 2, q - 1); }
    } else {
      forall q: nat | q >= 1 ensures !Bit(b, q) { NoBits(q - 1); }
    }
  }

  lemma {:induction false} NoBits(q: nat)
    ensures !Bit(0, q)
  {
    if q > 0 { NoBits(q - 1); }
  }

  lemma {:induction false} SomeBit(b: nat, q: nat)
    requires Bit(b, q)
    ensures b > 0
  {
    if b == 0 { NoBits(q); }
  }

  lemma DivModUnique(x: int, q: int, r: int, d: int)
    requires 0 <= r < d && x == q * d + r
    ensures x / d == q && x % d == r
  {
    var e := q - x / d;
    assert e * d == x % d - r;
    NonzeroMultiple(e, d);
  }

  lemma NonzeroMultiple(e: int, d: int)
    requires d > 0
    ensures e == 0 || e * d >= d || e * d <= -d
  {
  }

  lemma MultipleMod(q: int, d: int)
    requires d > 0
    ensures (q * d) % d == 0
  {
    DivModUnique(q * d, q, 0, d);
  }

  lemma Pow2Divides(a: nat, b: nat)
    requires a <= b
    ensures Pow2(b) % Pow2(a) == 0
  {
    Pow2Add(b - a, a);
    MultipleMod(Pow2(b - a), Pow2(a));
  }

  lemma SumMod(x: int, y: int, d: int)
    requires d > 0 && x % d == 0 && y % d == 0
    ensures (x + y) % d == 0
  {
    var q, s := x / d, y / d;
    assert x + y == (q + s) * d;
    MultipleMod(q + s, d);
  }

  lemma ScaledMultiple(x: nat, c: nat, d: nat)
    requires d > 0 && x % d == 0
    ensures (x * c) % d == 0
  {
    var q := x / d;
    assert x == q * d;
    assert x * c == (q * c) * d by { Reassociate(q, d, c); }
    MultipleMod(q * c, d);
  }

  lemma Reassociate(a: nat, b: nat, c: nat)
    ensures (a * b) * c == (a * c) * b
  {
  }

  lemma Pow2_20()
    ensures Pow2(20) == 0x10_0000
  {
    assert Pow2(10) == 1024;
    assert Pow2(15) == 32 * Pow2(10);
    assert Pow2(20) == 32 * Pow2(15);
  }
}
