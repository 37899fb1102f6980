/**
  The unsigned 64-bit operations used on bitmap words, as arithmetic on naturals, and what
  each of them does to the single bits of a word.
*/
module Words {

  function Pow2(n: nat): (p: nat)
    ensures p > 0
  {
    if n == 0 then 1 else 2 * Pow2(n - 1)
  }

  type u64 = x: nat | x < Pow2(64) witness 0

  const ZERO: u64 := 0
  const ONE: u64 := 1

  /** `w << n`: each single shift doubles and drops the carry out of bit 63. */
  function Shl(w: u64, n: nat): u64 {
    if n == 0 then w else (2 * Shl(w, n - 1)) % Pow2(64)
  }

  /** `w >> n`: each single shift halves and drops bit 0. */
  function Shr(w: u64, n: nat): u64 {
    if n == 0 then w else Shr(w, n - 1) / 2
  }

  /** `a | b` on naturals. */
  function OrNat(a: nat, b: nat): nat
    decreases a + b
  {
    if a == 0 then b
    else if b == 0 then a
    else (if a % 2 == 1 || b % 2 == 1 then 1 else 0) + 2 * OrNat(a / 2, b / 2)
  }

  /** `a & b` on naturals. */
  function AndNat(a: nat, b: nat): nat {
    if a == 0 || b == 0 then 0
    else (if a % 2 == 1 && b % 2 == 1 then 1 else 0) + 2 * AndNat(a / 2, b / 2)
  }

  function Or(a: u64, b: u64): u64 {
    OrBelow(a, b, 64);
    OrNat(a, b)
  }

  function And(a: u64, b: u64): nat {
    AndNat(a, b)
  }

  /** Bit `j`, counting from the least significant one. */
  predicate Bit(w: nat, j: nat) {
    if j == 0 then w % 2 == 1 else Bit(w / 2, j - 1)
  }

  lemma {:induction false} OrBelow(a: nat, b: nat, n: nat)
    requires a < Pow2(n) && b < Pow2(n)
    ensures OrNat(a, b) < Pow2(n)
  {
    if a != 0 && b != 0 {
      OrBelow(a / 2, b / 2, n - 1);
    }
  }

  lemma {:induction false} ModBit(x: nat, n: nat, j: nat)
    requires j < n
    ensures Bit(x % Pow2(n), j) == Bit(x, j)
  {
    var p := Pow2(n - 1);
    HalfMod(x, p, Pow2(n));
    if j > 0 {
      ModBit(x / 2, n - 1, j - 1);
    }
  }

  /** Halving commutes with dropping high bits, and neither touches parity. */
  lemma HalfMod(x: nat, p: nat, m: nat)
    requires p > 0 && m == p + p
    ensures (x % m) / 2 == (x / 2) % p
    ensures (x % m) % 2 == x % 2
  {
    var q, r := x / m, x % m;
    Recompose(x, m);
    DoubleMultiple(p, m, q);
    HalfModOf(x, p, q, r, p * q);
  }

  lemma Recompose(x: nat, m: nat)
    requires m > 0
    ensures x == m * (x / m) + x % m
  {}

  lemma DoubleMultiple(p: nat, m: nat, q: nat)
    requires m == p + p
    ensures m * q == 2 * (p * q)
  {}

  lemma HalfModOf(x: nat, p: nat, q: nat, r: nat, pq: nat)
    requires p > 0 && pq == p * q && r < 2 * p
    requires x == 2 * pq + r
    ensures r / 2 == (x / 2) % p
    ensures r % 2 == x % 2
  {
    DivModUnique(x / 2, p, q, r / 2);
  }

  lemma DivModUnique(x: nat, p: nat, q: nat, r: nat)
    requires p > 0 && x == p * q + r && r < p
    ensures x / p == q && x % p == r
  {
    MultipleBound(p, x / p - q);
    assert p * (x / p - q) == p * (x / p) - p * q;
  }

  lemma MultipleBound(p: nat, d: int)
    requires p > 0
    ensures d >= 1 ==> p * d >= p
    ensures d <= -1 ==> p * d + p <= 0
  {}

  lemma SmallMod(x: nat, m: nat)
    requires m > 0 && x < m
    ensures x % m == x
  {}

  lemma DoubledBit(v: nat, j: nat)
    requires j < 64
    ensures Bit((2 * v) % Pow2(64), j) == (j > 0 && Bit(v, j - 1))
  {
    hide Pow2;
    ModBit(2 * v, 64, j);
  }

  /** A left shift by `b` moves bit `j` to bit `j + b` and clears the low bits. */
  lemma {:induction false} ShiftLeftBit(w: u64, b: nat, j: nat)
    requires j < 64
    ensures Bit(Shl(w, b), j) == (b <= j && Bit(w, j - b))
  {
    hide Bit, Pow2;
    if b > 0 {
      DoubledBit(Shl(w, b - 1), j);
      if j > 0 {
        ShiftLeftBit(w, b - 1, j - 1);
      }
    }
  }

  lemma {:induction false} HalvedBits(w: u64, b: nat, j: nat)
    ensures Bit(Shr(w, b), j) == Bit(w, j + b)
  {
    if b > 0 {
      HalvedBits(w, b - 1, j + 1);
    }
  }

  lemma {:induction false} NoHighBit(w: nat, n: nat, j: nat)
    requires w < Pow2(n) && n <= j
    ensures !Bit(w, j)
  {
    if n > 0 {
      NoHighBit(w / 2, n - 1, j - 1);
    } else if j > 0 {
      NoHighBit(0, 0, j - 1);
    }
  }

  /** A right shift by `b` moves bit `j + b` to bit `j` and clears the high bits. */
  lemma ShiftRightBit(w: u64, b: nat, j: nat)
    ensures Bit(Shr(w, b), j) == (j + b < 64 && Bit(w, j + b))
  {
    HalvedBits(w, b, j);
    if 64 <= j + b {
      NoHighBit(w, 64, j + b);
    }
  }

  /** `|` sets a bit exactly when one of its operands has it. */
  lemma {:induction false} OrBit(a: nat, b: nat, j: nat)
    ensures Bit(OrNat(a, b), j) == (Bit(a, j) || Bit(b, j))
  {
    ZeroBit(j);
    if a != 0 && b != 0 && j > 0 {
      OrBit(a / 2, b / 2, j - 1);
    }
  }

  lemma {:induction false} ZeroBit(j: nat)
    ensures !Bit(0, j)
  {
    if j > 0 {
      ZeroBit(j - 1);
    }
  }

  /** The word `1 << b` has exactly bit `b` set. */
  lemma OneBit(b: nat, j: nat)
    requires j < 64
    ensures Bit(Shl(ONE, b), j) == (j == b)
  {
    ShiftLeftBit(1, b, j);
    if b < j {
      ZeroBit(j - b - 1);
    }
  }

  lemma {:induction false} Pow2Grows(n: nat, m: nat)
    requires n <= m
    ensures Pow2(n) <= Pow2(m)
    decreases m - n
  {
    if n < m {
      Pow2Grows(n + 1, m);
    }
  }

  lemma {:induction false} MaskValue(b: nat)
    requires b < 64
    ensures Shl(ONE, b) == Pow2(b)
  {
    if b > 0 {
      MaskValue(b - 1);
      Pow2Grows(b + 1, 64);
      SmallMod(Pow2(b), Pow2(64));
    }
  }

  lemma {:induction false} AndPow2(w: nat, b: nat)
    ensures AndNat(w, Pow2(b)) == if Bit(w, b) then Pow2(b) else 0
  {
    if w == 0 {
      ZeroBit(b);
    } else if b > 0 {
      AndPow2(w / 2, b - 1);
    } else {
      assert AndNat(w / 2, 0) == 0;
    }
  }

  /** Masking with `1 << b` reads bit `b`. */
  lemma MaskBit(w: u64, b: nat)
    requires b < 64
    ensures And(w, Shl(ONE, b)) == 0 <==> !Bit(w, b)
  {
    MaskValue(b);
    AndPow2(w, b);
  }
}
