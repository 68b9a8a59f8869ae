/** The arithmetic behind double hashing: a prime step visits every slot of a table exactly when it does not
    divide the table size. */
module Probing {

  predicate IsPrime(p: nat) { p >= 2 && forall d :: 1 < d < p ==> p % d != 0 }

  /** The slot of the i-th probe. */
  function Probe(start: nat, step: nat, n: nat, i: nat): nat
    requires n > 0
  {
    (start + i * step) % n
  }

  lemma Scale(n: int, d: int)
    requires n > 0
    ensures d >= 1 ==> n * d >= n
    ensures d <= -1 ==> n * d <= -n
    ensures d == 0 ==> n * d == 0
  {
  }

  /** z and q name the same slot: q in range, and z is q plus a multiple of n. */
  lemma ModUnique(z: int, q: int, n: int, k: int)
    requires 0 <= q < n && z == q + n * k
    ensures z % n == q
  {
    assert z == n * (z / n) + z % n;
    assert n * (k - z / n) == z % n - q;
    Scale(n, k - z / n);
  }

  /** Probing one step further. */
  lemma ProbeNext(start: nat, step: nat, n: nat, i: nat)
    requires n > 0
    ensures Probe(start, step, n, i + 1) == (Probe(start, step, n, i) + step) % n
  {
    var z := start + i * step;
    assert start + (i + 1) * step == z + step;
    var r := (z % n + step) % n;
    assert z == n * (z / n) + z % n;
    assert z % n + step == n * ((z % n + step) / n) + r;
    assert z + step == r + n * (z / n + (z % n + step) / n);
    ModUnique(z + step, r, n, z / n + (z % n + step) / n);
  }

  lemma ProbeFirst(start: nat, step: nat, n: nat)
    requires start < n
    ensures Probe(start, step, n, 0) == start
  {
    assert 0 * step == 0;
    ModUnique(start, start, n, 0);
  }

  /** Greatest common divisor with its Bezout coefficients. */
  lemma {:induction false} Bezout(a: nat, b: nat) returns (x: int, y: int, g: nat, u: nat, v: nat)
    requires b > 0
    ensures a * x + b * y == g && g > 0 && a == g * u && b == g * v
    decreases a
  {
    if a == 0 {
      x, y, g, u, v := 0, 1, b, 0, 1;
    } else {
      var q := b / a;
      var x', y', g', u', v' := Bezout(b % a, a);
      assert b == q * a + b % a;
      x, y, g := y' - q * x', x', g';
      u, v := v', q * v' + u';
      calc {
        a * x + b * y;
        a * y' - a * (q * x') + (q * a + b % a) * x';
        { assert (q * a + b % a) * x' == q * a * x' + (b % a) * x'; assert a * (q * x') == q * a * x'; }
        a * y' + (b % a) * x';
        g;
      }
      calc {
        g * v;
        g * (q * v' + u');
        { assert g * (q * v' + u') == q * (g * v') + g * u'; }
        q * a + b % a;
        b;
      }
    }
  }

  /** A prime that does not divide n is invertible modulo n. */
  lemma Inverse(p: nat, n: nat) returns (x: int, y: int)
    requires IsPrime(p) && n > 0 && n % p != 0
    ensures p * x + n * y == 1
  {
    var g, u, v;
    x, y, g, u, v := Bezout(p, n);
    if g != 1 {
      if g < p {
        ModUnique(p, 0, g, u);
      } else {
        assert g * u == g * (u - 1) + g;
        Scale(g, u - 1);
        ModUnique(n, 0, p, v);
      }
      assert false;
    }
  }

  /** Which probe hits slot q. */
  lemma ProbeHits(start: nat, p: nat, n: nat, q: nat) returns (i: nat)
    requires IsPrime(p) && n > 0 && n % p != 0 && q < n
    ensures i < n && Probe(start, p, n, i) == q
  {
    var x, y := Inverse(p, n);
    var d := q - start;
    i := (x * d) % n;
    var t := (x * d) / n;
    assert x * d == n * t + i;
    calc {
      start + i * p;
      start + (x * d - n * t) * p;
      { assert (x * d - n * t) * p == p * x * d - n * t * p; }
      start + p * x * d - n * t * p;
      { assert p * x == 1 - n * y; assert (1 - n * y) * d == d - n * y * d; }
      start + d - n * y * d - n * t * p;
      { assert n * y * d + n * t * p == n * (y * d + t * p); }
      q - n * (y * d + t * p);
      { assert n * (-(y * d + t * p)) == -(n * (y * d + t * p)); }
      q + n * (-(y * d + t * p));
    }
    ModUnique(start + i * p, q, n, -(y * d + t * p));
  }

  /** An invertible factor can be cancelled modulo n. */
  lemma Cancel(d: int, p: int, n: int, k: int, x: int, y: int)
    requires d * p == n * k && p * x + n * y == 1
    ensures d == n * (k * x + y * d)
  {
    calc {
      d;
      d * (p * x + n * y);
      { assert d * (p * x) == (d * p) * x; assert d * (n * y) == n * (y * d); }
      (d * p) * x + n * (y * d);
      { assert (n * k) * x == n * (k * x); }
      n * (k * x) + n * (y * d);
      n * (k * x + y * d);
    }
  }

  /** No slot is probed twice within one round. */
  lemma ProbesDistinct(start: nat, p: nat, n: nat, i: nat, j: nat)
    requires IsPrime(p) && n > 0 && n % p != 0 && i < j < n
    ensures Probe(start, p, n, i) != Probe(start, p, n, j)
  {
    if Probe(start, p, n, i) == Probe(start, p, n, j) {
      var x, y := Inverse(p, n);
      var a, b := (start + i * p) / n, (start + j * p) / n;
      assert start + i * p == n * a + Probe(start, p, n, i);
      assert start + j * p == n * b + Probe(start, p, n, j);
      var k, d := b - a, j - i;
      assert d * p == j * p - i * p;
      assert n * k == n * b - n * a;
      Cancel(d, p, n, k, x, y);
      Scale(n, k * x + y * d);
    }
  }

  ghost predicate Hit(start: nat, p: nat, n: nat, q: nat)
    requires n > 0
  {
    exists i: nat :: i < n && Probe(start, p, n, i) == q
  }

  /** Every slot is probed, wherever the probing starts. */
  ghost predicate Covers(p: nat, n: nat)
    requires n > 0
  {
    forall start: nat, q: nat :: start < n && q < n ==> Hit(start, p, n, q)
  }

  /** If p divides n, only slots congruent to the start are probed. */
  lemma ProbesStayCongruent(start: nat, p: nat, n: nat, i: nat)
    requires p > 0 && n > 0 && n % p == 0
    ensures Probe(start, p, n, i) % p == start % p
  {
    var z := start + i * p;
    var m := n / p;
    assert n == p * m;
    assert z == n * (z / n) + z % n;
    assert n * (z / n) == p * (m * (z / n));
    assert start == p * (start / p) + start % p;
    calc {
      z % n;
      start + i * p - p * (m * (z / n));
      start % p + p * (start / p) + i * p - p * (m * (z / n));
      { assert p * (start / p) + i * p - p * (m * (z / n)) == p * (start / p + i - m * (z / n)); }
      start % p + p * (start / p + i - m * (z / n));
    }
    ModUnique(z % n, start % p, p, start / p + i - m * (z / n));
  }

  lemma CoversIff(p: nat, n: nat)
    requires IsPrime(p) && n > 0
    ensures Covers(p, n) <==> n % p != 0
  {
    if n % p != 0 {
      forall start: nat, q: nat | start < n && q < n ensures Hit(start, p, n, q) {
        var i := ProbeHits(start, p, n, q);
      }
    } else {
      var m := n / p;
      assert n == p * m;
      Scale(p, m);
      if Covers(p, n) {
        assert Hit(0, p, n, 1);
        var i: nat :| i < n && Probe(0, p, n, i) == 1;
        ProbesStayCongruent(0, p, n, i);
        ModUnique(1, 1, p, 0);
        ModUnique(0, 0, p, 0);
        assert false;
      }
    }
  }
}
