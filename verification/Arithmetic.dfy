/** Division facts, each over plain variables so that later proofs stay linear. */
module Arithmetic {
  lemma MulAtLeast(d: int, k: int)
    requires d > 0 && k >= 1
    ensures d * k >= d
  {
  }

  function Mod(x: int, d: nat): (r: nat)
    requires d > 0
    ensures r < d
  {
    x % d
  }

  lemma DivMod(x: int, d: nat)
    requires d > 0
    ensures x == d * (x / d) + x % d && 0 <= x % d < d
  {
  }

  lemma Distribute(d: int, a: int, b: int)
    ensures d * (a + b) == d * a + d * b
    ensures d * (a - b) == d * a - d * b
  {
  }

  lemma Associate(a: int, b: int, c: int)
    ensures a * b * c == a * (b * c)
  {
  }

  lemma SameDivision(d: nat, q: int, r: int, q': int, r': int)
    requires d > 0 && 0 <= r < d && 0 <= r' < d
    requires d * q + r == d * q' + r'
    ensures q == q' && r == r'
  {
    Distribute(d, q, q');
    Distribute(d, q', q);
    if q > q' {
      MulAtLeast(d, q - q');
    } else if q < q' {
      MulAtLeast(d, q' - q);
    }
  }

  /** A quotient and remainder that fit are the quotient and remainder. */
  lemma ModIs(x: int, d: nat, q: int, r: int)
    requires d > 0 && 0 <= r < d && x == d * q + r
    ensures x % d == r && x / d == q
  {
    DivMod(x, d);
    SameDivision(d, q, r, x / d, x % d);
  }

  lemma ModSmall(x: nat, d: nat)
    requires x < d
    ensures x % d == x
  {
    ModIs(x, d, 0, x);
  }

  lemma ModDouble(x: int, m: nat)
    requires m > 0
    ensures x % (2 * m) == 2 * ((x / 2) % m) + x % 2
  {
    DivMod(x / 2, m);
    var q, r := (x / 2) / m, (x / 2) % m;
    Associate(2, m, q);
    ModIs(x, 2 * m, q, 2 * r + x % 2);
  }

  /** Reducing modulo a multiple of `a` first does not change the remainder modulo `a`. */
  lemma ModOfMod(x: int, a: nat, m: nat)
    requires a > 0 && m > 0 && a * m > 0
    ensures (x % (a * m)) % a == x % a
  {
    DivMod(x, a * m);
    var q, y := x / (a * m), x % (a * m);
    DivMod(y, a);
    Associate(a, m, q);
    Distribute(a, m * q, y / a);
    ModIs(x, a, m * q + y / a, y % a);
  }

  /** The least amount that brings `value` to a multiple of `a`. */
  lemma LeastFill(value: int, a: nat, q: nat)
    requires a > 0
    ensures (value + Mod(-value, a)) % a == 0
    ensures (value + q) % a == 0 ==> Mod(-value, a) <= q
  {
    var p, c := (-value) % a, (-value) / a;
    DivMod(-value, a);
    Distribute(a, 0, c);
    ModIs(value + p, a, -c, 0);
    if (value + q) % a == 0 && q < p {
      var z := (value + q) / a;
      DivMod(value + q, a);
      Distribute(a, 0, z);
      ModIs(-value, a, -z, q);
    }
  }

  /** Multiples of `a` that come within `a` of the multiple `a * m` have reached it. */
  lemma NoMultipleBetween(sum: int, a: nat, m: nat)
    requires a > 0 && sum % a == 0 && a * m < sum + a
    ensures sum >= a * m
  {
    DivMod(sum, a);
    var c := sum / a;
    if c < m {
      Distribute(a, m, c);
      MulAtLeast(a, m - c);
    } else if c > m {
      Distribute(a, c, m);
      MulAtLeast(a, c - m);
    }
  }

  /** Rounding up on words of size `n`, a multiple of `a`, wraps only with the rounded sum. */
  lemma RoundedUp(value: int, p: nat, a: nat, m: nat, n: nat)
    requires a > 0 && n == a * m && a < n && 0 <= value < n && p < a
    requires (value + p) % a == 0
    ensures (value + (a - 1)) % n - (a - 1 - p) == (value + p) % n
    ensures (value + p) % n == value + p <==> value + p < n
  {
    if value + (a - 1) < n {
      ModSmall(value + (a - 1), n);
      ModSmall(value + p, n);
    } else {
      ModIs(value + (a - 1), n, 1, value + (a - 1) - n);
      NoMultipleBetween(value + p, a, m);
      ModIs(value + p, n, 1, value + p - n);
    }
  }

  /** How often `n` fits into `used`. */
  function Times(used: nat, n: nat): nat
    requires n > 0
  {
    if used < n then 0 else 1 + Times(used - n, n)
  }

  lemma OneMoreTime(x: nat, n: nat)
    requires n > 0
    ensures (x + n) / n == x / n + 1
  {
    DivMod(x, n);
    Distribute(n, x / n, 1);
    ModIs(x + n, n, x / n + 1, x % n);
  }

  lemma {:induction false} TimesIsQuotient(used: nat, n: nat)
    requires n > 0
    ensures Times(used, n) == used / n
  {
    if used >= n {
      TimesIsQuotient(used - n, n);
      OneMoreTime(used - n, n);
    }
  }
}
