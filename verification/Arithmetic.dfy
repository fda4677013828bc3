/** Facts about remainders and powers of two that several models share. */
module Arithmetic {
  lemma {:induction false} Sign(x: int, y: int)
    requires y > 0
    ensures x <= 0 ==> x * y <= 0
    ensures x >= 1 ==> x * y >= y
  {
  }

  /** Different multiples are a whole step apart. */
  lemma {:induction false} Multiples(j: int, q: int, k: int)
    requires k > 0
    ensures j < q ==> j * k + k <= q * k
    ensures j > q ==> q * k + k <= j * k
  {
    assert (q - j) * k == q * k - j * k && (j - q) * k == j * k - q * k;
    Sign(q - j, k);
    Sign(j - q, k);
  }

  lemma {:induction false} ModUnique(x: int, n: int, q: int, r: int)
    requires n > 0 && 0 <= r < n && x == q * n + r
    ensures x % n == r && x / n == q
  {
    var q', r' := x / n, x % n;
    assert (q - q') * n == r' - r && (q' - q) * n == r - r';
    Sign(q - q', n);
    Sign(q' - q, n);
  }

  /** Adding a multiple of n does not change the remainder. */
  lemma {:induction false} ModShift(x: int, k: int, n: int)
    requires n > 0
    ensures (x + k * n) % n == x % n
  {
    var q := x / n;
    assert x + k * n == (q + k) * n + x % n;
    ModUnique(x + k * n, n, q + k, x % n);
  }

  /** Reducing a summand first changes nothing. */
  lemma {:induction false} ModAdd(x: int, y: int, n: int)
    requires n > 0
    ensures (x % n + y) % n == (x + y) % n
  {
    var q := x / n;
    assert x + y == x % n + y + q * n;
    ModShift(x % n + y, q, n);
  }

  /** Reducing modulo a multiple of n first changes nothing. */
  lemma {:induction false} ModMod(x: int, n: int, k: int)
    requires n > 0 && k > 0 && n * k > 0
    ensures x % (n * k) % n == x % n
  {
    var q, r := x / (n * k), x % (n * k);
    assert x == r + (q * k) * n;
    ModShift(r, q * k, n);
  }

  lemma {:induction false} ModEqual(x: int, y: int, n: int)
    requires n > 0 && x % n == y % n
    ensures (x - y) % n == 0
  {
    var a, b := x / n, y / n;
    assert x - y == (a - b) * n + 0;
    ModUnique(x - y, n, a - b, 0);
  }

  function Pow2(m: nat): (p: nat)
    ensures p > 0
  {
    if m == 0 then 1 else 2 * Pow2(m - 1)
  }

  /** x >> k */
  function Shr(x: nat, k: nat): (r: nat)
    ensures r * Pow2(k) <= x < r * Pow2(k) + Pow2(k)
  {
    var d := Pow2(k);
    DivNat(x, d);
    x / d
  }

  lemma {:induction false} DivNat(x: nat, d: nat)
    requires d > 0
    ensures 0 <= x / d && x / d * d <= x < x / d * d + d
  {
    var q := x / d;
    assert x == d * q + x % d && d * q == q * d;
    Sign(-q, d);
    assert (-q) * d == -(q * d);
  }

  lemma {:induction false} Pow2Add(a: nat, b: nat)
    ensures Pow2(a) * Pow2(b) == Pow2(a + b)
    decreases a
  {
    if a > 0 {
      Pow2Add(a - 1, b);
      assert 2 * Pow2(a - 1) * Pow2(b) == 2 * (Pow2(a - 1) * Pow2(b));
    }
  }

  lemma {:induction false} Pow2At32()
    ensures Pow2(32) == 0x1_0000_0000
  {
    assert Pow2(8) == 256;
    Pow2Add(8, 8);
    Pow2Add(16, 16);
  }

  /** An odd factor can be cancelled modulo a power of two. */
  lemma {:induction false} OddCancel(c: int, d: int, m: nat)
    requires c % 2 == 1 && c * d % Pow2(m) == 0
    ensures d % Pow2(m) == 0
    decreases m
  {
    if m > 0 {
      var n := Pow2(m - 1);
      var q := HalfProduct(c, d, n);
      ModUnique(c * (d / 2), n, q, 0);
      OddCancel(c, d / 2, m - 1);
      DoubleMultiple(d, n);
    }
  }

  lemma {:induction false} HalfProduct(c: int, d: int, n: int) returns (q: int)
    requires n > 0 && c % 2 == 1 && c * d % (2 * n) == 0
    ensures d % 2 == 0 && c * (d / 2) == q * n + 0
  {
    var p := c * d;
    q := p / (2 * n);
    assert p == (2 * n) * q;
    assert (2 * n) * q == 2 * (q * n);
    EvenFactor(c, d);
    var e := d / 2;
    assert c * (2 * e) == 2 * (c * e);
  }

  lemma {:induction false} DoubleMultiple(d: int, n: int)
    requires n > 0 && d % 2 == 0 && d / 2 % n == 0
    ensures d % (2 * n) == 0
  {
    var f := d / 2 / n;
    assert d / 2 == n * f;
    assert 2 * (n * f) == f * (2 * n);
    ModUnique(d, 2 * n, f, 0);
  }

  lemma {:induction false} EvenFactor(c: int, d: int)
    requires c % 2 == 1 && c * d % 2 == 0
    ensures d % 2 == 0
  {
    var a := c / 2;
    assert c == 2 * a + 1;
    assert c * d == 2 * (a * d) + d;
  }
}
