/** Residues: the few facts about `%` that the encodings and the signature scheme need. */
module Modular {

  lemma SmallMultiple(d: int, n: int)
    requires n > 0
    ensures d >= 1 ==> d * n >= n
    ensures d <= -1 ==> d * n <= -n
  {
    if d >= 1 { assert (d - 1) * n >= 0; }
    if d <= -1 { assert (-d - 1) * n >= 0; }
  }

  /** Quotient and remainder are determined by the division equation. */
  lemma RemainderUnique(x: int, k: int, r: int, n: int)
    requires n > 0 && x == k * n + r && 0 <= r < n
    ensures x % n == r
  {
    var d := x / n - k;
    assert d * n == r - x % n by {
      assert x == x / n * n + x % n;
      assert (x / n - k) * n == x / n * n - k * n;
    }
    SmallMultiple(d, n);
  }

  lemma QuotientUnique(x: int, k: int, r: int, n: int)
    requires n > 0 && x == k * n + r && 0 <= r < n
    ensures x / n == k
  {
    RemainderUnique(x, k, r, n);
    assert x == x / n * n + x % n;
    assert (x / n - k) * n == x / n * n - k * n;
    SmallMultiple(x / n - k, n);
  }

  lemma NestedQuotient(y: int, q: int, r: int, s: int, a: int, b: int)
    requires y == q * b + r && 0 <= r < b && 0 <= s < a
    ensures y * a + s == q * (a * b) + (r * a + s) && 0 <= r * a + s < a * b
  {
    Distribute(q * b, r, a);
    Regroup(q, b, a);
    Distribute(r, b - r, a);
    SmallMultiple(b - r, a);
    if r > 0 { SmallMultiple(r, a); }
  }

  lemma Distribute(u: int, v: int, a: int)
    ensures (u + v) * a == u * a + v * a
  {
  }

  lemma Regroup(q: int, b: int, a: int)
    ensures q * b * a == q * (a * b)
  {
  }

  lemma DivideTwice(x: nat, a: nat, b: nat)
    requires a > 0 && b > 0
    ensures a * b > 0 && x / a / b == x / (a * b)
  {
    SmallMultiple(a, b);
    var y, s := x / a, x % a;
    var q, r := y / b, y % b;
    var n, rest := a * b, r * a + s;
    assert x == y * a + s && y == q * b + r;
    NestedQuotient(y, q, r, s, a, b);
    assert x == q * n + rest && 0 <= rest < n;
    QuotientUnique(x, q, rest, n);
  }

  /** Adding a multiple of the modulus changes nothing. */
  lemma ModShift(a: int, k: int, n: int)
    requires n > 0
    ensures (a + k * n) % n == a % n
  {
    assert a == a / n * n + a % n;
    assert (a / n + k) * n == a / n * n + k * n;
    RemainderUnique(a + k * n, a / n + k, a % n, n);
  }

  lemma AddMod(a: int, b: int, n: int)
    requires n > 0
    ensures (a % n + b) % n == (a + b) % n
  {
    assert a + b == (a % n + b) + a / n * n;
    ModShift(a % n + b, a / n, n);
  }

  lemma MulMod(a: int, b: int, n: int)
    requires n > 0
    ensures (a % n) * b % n == a * b % n
  {
    assert a == a % n + a / n * n;
    assert a * b == (a % n) * b + (a / n * b) * n by {
      assert (a / n * n) * b == (a / n * b) * n;
      assert a * b == (a % n + a / n * n) * b == (a % n) * b + (a / n * n) * b;
    }
    ModShift((a % n) * b, a / n * b, n);
  }

  lemma ModMod(a: int, n: int)
    requires n > 0
    ensures a % n % n == a % n
  {
    RemainderUnique(a % n, 0, a % n, n);
  }

  /** Reducing twice on the way is the same as reducing once. */
  lemma NestedAdd(k: int, m: int, a: int, n: int)
    requires n > 0
    ensures ((k + m % n) % n + a) % n == (m + (k + a)) % n
  {
    AddMod(m, k, n);
    AddMod(k + m, a, n);
  }

  /** Congruent values stay congruent when multiplied and shifted. */
  lemma CongLinear(a: int, b: int, m: int, c: int, n: int)
    requires n > 0 && a % n == b % n
    ensures (a * m + c) % n == (b * m + c) % n
  {
    MulMod(a, m, n);
    MulMod(b, m, n);
    AddMod(a * m, c, n);
    AddMod(b * m, c, n);
  }

  /** Subtraction modulo n undoes addition. */
  lemma SubInverts(a: int, b: int, c: int, n: int)
    requires n > 0 && 0 <= a < n && 0 <= b < n && 0 <= c < n
    ensures a == (b + c) % n <==> c == (a - b) % n
  {
    if a == (b + c) % n {
      AddMod(b + c, -b, n);
      assert (c + b - b) % n == c by { RemainderUnique(c, 0, c, n); }
    }
    if c == (a - b) % n {
      AddMod(a - b, b, n);
      assert (a - b + b) % n == a by { RemainderUnique(a, 0, a, n); }
    }
  }
}
