/**
  Facts about products, quotients and remainders of variables, proved once.
*/
module Division {

  lemma MulOrder(n: nat, a: int, b: int)
    requires n > 0
    ensures n * a <= n * b <==> a <= b
  {
    assert n * b - n * a == n * (b - a);
  }

  /** The quotient is the largest `q` with `n * q <= x`. */
  lemma DivIff(n: nat, x: int, q: int)
    requires n > 0
    ensures n * q <= x <==> q <= x / n
  {
    var e := x / n;
    assert x == n * e + x % n;
    assert n * (e + 1) == n * e + n;
    MulOrder(n, q, e);
    MulOrder(n, e + 1, q);
  }

  /** Quotient and remainder are the only ones there are. */
  lemma DivModIs(x: int, n: nat, q: int, r: nat)
    requires r < n && x == n * q + r
    ensures x / n == q && x % n == r
  {
    assert n * (q + 1) == n * q + n;
    DivIff(n, x, q);
    DivIff(n, x, q + 1);
    assert x == n * (x / n) + x % n;
  }

  lemma ModAdd(x: nat, q: nat, n: nat)
    requires n > 0
    ensures (x + n * q) % n == x % n
  {
    var e := x / n;
    assert x == n * e + x % n;
    assert n * (e + q) == n * e + n * q;
    DivModIs(x + n * q, n, e + q, x % n);
  }

  lemma Product(a: nat, b: nat, c: nat, d: nat)
    requires a <= c && b <= d
    ensures a * b <= c * d
  {
    assert a * b <= a * d <= c * d;
  }

  lemma Associates(a: nat, b: nat, c: nat)
    ensures a * (b * c) == (a * b) * c
  {}

  lemma Regroup(k: nat, n: nat, q: nat)
    ensures k * (n * q) == n * (k * q)
  {
    Associates(k, n, q);
    Associates(n, k, q);
  }

  /** A remainder modulo a multiple of `n` is the same modulo `n`. */
  lemma ModOfMod(x: nat, w: nat, n: nat)
    requires n > 0 && w > 0 && w % n == 0
    ensures (x % w) % n == x % n
  {
    var m := w / n;
    assert w == n * m;
    assert x == w * (x / w) + x % w;
    Associates(n, m, x / w);
    ModAdd(x % w, m * (x / w), n);
  }

  // ----- multiples of a stride that wrap around at `w` -----

  /** Entry `k` of an arithmetic progression, wrapped at `w` at both operations, modulo `n`. */
  function Wrapped(h1: nat, h2: nat, k: nat, w: nat, n: nat): nat
    requires w > 0 && n > 0
  {
    ((h1 + (k * h2) % w) % w) % n
  }

  /** Wrapping at every operation is wrapping once. */
  lemma WrapOnce(h1: nat, h2: nat, k: nat, w: nat, n: nat)
    requires n > 0 && w > 0
    ensures Wrapped(h1, h2, k, w, n) == ((h1 + k * h2) % w) % n
  {
    var a := k * h2;
    assert a == w * (a / w) + a % w;
    ModAdd(h1 + a % w, a / w, w);
  }

  /** If `n` divides `w` the wrap-around does not show. */
  lemma WrapHidden(h1: nat, h2: nat, k: nat, w: nat, n: nat)
    requires n > 0 && w > 0 && w % n == 0
    ensures Wrapped(h1, h2, k, w, n) == (h1 + k * h2) % n
  {
    var a := k * h2;
    var b, c := h1 + a % w, a / w;
    ModOfMod(b, w, n);
    var m := w / n;
    assert w == n * m && a == w * c + a % w;
    Associates(n, m, c);
    ModAdd(b, m * c, n);
  }

  /** Then entries repeat after `n` steps. */
  lemma Repeats(h1: nat, h2: nat, j: nat, w: nat, n: nat)
    requires n > 0 && w > 0 && w % n == 0
    ensures Wrapped(h1, h2, j, w, n) == Wrapped(h1, h2, j % n, w, n)
  {
    var k, q := j % n, j / n;
    WrapHidden(h1, h2, j, w, n);
    WrapHidden(h1, h2, k, w, n);
    assert j == n * q + k;
    assert j * h2 == (n * q) * h2 + k * h2;
    Associates(n, q, h2);
    ModAdd(h1 + k * h2, q * h2, n);
  }

  /** A stride `n * q` stays at zero until the first entry that wraps. */
  lemma ZeroBeforeWrap(n: nat, q: nat, k: nat, w: nat)
    requires n > 0 && w > 0 && k * (n * q) < w
    ensures Wrapped(0, n * q, k, w, n) == 0
  {
    var x := k * (n * q);
    DivModIs(x, w, 0, x);
    Regroup(k, n, q);
    DivModIs(x, n, k * q, 0);
  }

  /** If `n` does not divide `w`, that entry is elsewhere. */
  lemma ElsewhereAfterWrap(n: nat, q: nat, k: nat, w: nat)
    requires n > 0 && w > 0 && w % n != 0 && w <= k * (n * q) < 2 * w
    ensures Wrapped(0, n * q, k, w, n) != 0
  {
    var x := k * (n * q) - w;
    DivModIs(k * (n * q), w, 1, x);
    DivModIs(x, w, 0, x);
    if x % n == 0 {
      Regroup(k, n, q);
      assert x == n * (x / n);
      assert n * (k * q - x / n) == n * (k * q) - n * (x / n);
      DivModIs(w, n, k * q - x / n, 0);
    }
  }

  /** There is a stride whose multiples pass `w` at step `c` and not before. */
  lemma StrideFits(c: nat, n: nat, w: nat) returns (q: nat)
    requires 1 < n <= c < 256 && w >= 0x200_0000
    ensures n * q < w && (c - 1) * (n * q) < w <= c * (n * q) < 2 * w
  {
    var p := c * n;
    Product(c, n, 255, 255);
    Product(p, 255, 65025, 255);
    Product(1, 1, c, n);
    DivIff(p, w - 1, 255);
    var e := (w - 1) / p;
    q := e + 1;
    var h := n * q;
    assert w - 1 == p * e + (w - 1) % p;
    assert p * q == p * e + p;
    Associates(c, n, q);
    Product(n, c, n, q);
    assert (c - 1) * h == c * h - h;
    Product(1, h, c - 1, h);
  }
}
