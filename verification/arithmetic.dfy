/** Facts about division and remainder of naturals. */
module Arithmetic {
  lemma MulLower(k: int, n: nat)
    requires k >= 1
    ensures k * n >= n
  {
    assert k * n == (k - 1) * n + n;
    assert (k - 1) * n >= 0;
  }

  lemma MulUpper(k: int, n: nat)
    requires k <= 0
    ensures k * n <= 0
  {
  }

  lemma DivModUnique(a: nat, n: nat, q: nat, r: nat)
    requires n > 0 && a == q * n + r && r < n
    ensures a / n == q && a % n == r
  {
    var q', r' := a / n, a % n;
    assert a == q' * n + r';
    assert (q - q') * n == r' - r;
    if q > q' { MulLower(q - q', n); }
    if q' > q { MulLower(q' - q, n); }
  }

  lemma NextMod(a: nat, n: nat)
    requires n > 0
    ensures (a + 1) % n == if a % n + 1 == n then 0 else a % n + 1
    ensures (a % n + 1) % n == (a + 1) % n
  {
    var q, r := a / n, a % n;
    if r + 1 == n {
      assert a + 1 == (q + 1) * n + 0;
      DivModUnique(a + 1, n, q + 1, 0);
      DivModUnique(n, n, 1, 0);
    } else {
      DivModUnique(a + 1, n, q, r + 1);
      DivModUnique(r + 1, n, 0, r + 1);
    }
  }

  lemma NextDiv(a: nat, n: nat)
    requires n > 0
    ensures (a + 1) / n == a / n + if a % n + 1 == n then 1 else 0
  {
    var q, r := a / n, a % n;
    if r + 1 == n {
      DivModUnique(a + 1, n, q + 1, 0);
    } else {
      DivModUnique(a + 1, n, q, r + 1);
    }
  }

  /** Numbers less than n apart have different remainders. */
  lemma CloseModDiffer(a: nat, b: nat, n: nat)
    requires a < b < a + n
    ensures a % n != b % n
  {
    if a % n == b % n {
      var k := b / n - a / n;
      assert b - a == k * n;
      if k >= 1 { MulLower(k, n); }
      if k <= 0 { MulUpper(k, n); }
      assert false;
    }
  }

  lemma MulMono(a: int, b: int, n: nat)
    requires 0 <= a <= b
    ensures 0 <= a * n <= b * n
  {
    assert b * n - a * n == (b - a) * n;
  }

  lemma MulAssoc(a: int, b: int, c: int)
    ensures a * b * c == a * (b * c)
  {
  }

  lemma SplitDigit(a: nat, m: nat, n: nat) returns (q: nat, r: nat)
    requires n > 0 && a < m * n
    ensures q < m && r < n && a == q * n + r
  {
    q, r := a / n, a % n;
    DivBound(a, m, n);
  }

  lemma SameDigits(a: nat, b: nat, n: nat)
    requires n > 0 && a / n == b / n && a % n == b % n
    ensures a == b
  {
    assert a == a / n * n + a % n;
    assert b == b / n * n + b % n;
  }

  /** Halving a quotient. */
  lemma HalfOfQuotient(a: nat, n: nat)
    requires n > 0
    ensures a / n / 2 == a / (2 * n)
  {
    var q, r := a / n, a % n;
    assert a == q * n + r;
    assert q == 2 * (q / 2) + q % 2;
    assert a == (q / 2) * (2 * n) + (q % 2 * n + r);
    assert q % 2 == 0 || q % 2 == 1;
    DivModUnique(a, 2 * n, q / 2, if q % 2 == 0 then r else n + r);
  }

  lemma DivOfProduct(p: nat, a: nat, b: nat)
    requires b > 0 && p == b * a
    ensures p / b == a
  {
    DivModUnique(p, b, a, 0);
  }

  /** A third factor can go with either of two. */
  lemma MulEither(k: nat, r: nat, n: nat)
    ensures k * r * n == (k * n) * r
    ensures k * r * n == k * (r * n)
  {
    MulAssoc(k, r, n);
    MulAssoc(k, n, r);
  }

  lemma MulSwap(a: nat, b: nat, c: nat)
    ensures a * (b * c) == b * (a * c)
  {
    MulAssoc(a, b, c);
    MulAssoc(b, a, c);
  }

  /** A quotient stays below n when the dividend stays below n * t. */
  lemma DivBound(a: nat, n: nat, t: nat)
    requires t > 0 && a < n * t
    ensures a / t < n
  {
    if a / t >= n { MulMono(n, a / t, t); }
  }

  /** Reducing modulo a multiple of n * s first does not change the digit (a / s) % n. */
  lemma DigitOfRemainder(a: nat, s: nat, n: nat, k: nat)
    requires s > 0 && n > 0 && k > 0
    ensures k * (n * s) > 0
    ensures a % (k * (n * s)) / s % n == a / s % n
  {
    MulLower(n, s);
    MulLower(k, n * s);
    var t := k * (n * s);
    var q, r := a / t, a % t;
    assert a == q * t + r;
    MulAssoc(k, n, s);
    MulAssoc(q, k * n, s);
    MulAssoc(q, k, n);
    ShiftDiv(r, s, q * (k * n));
    ShiftMod(r / s, n, q * k);
  }

  lemma ShiftDiv(r: nat, s: nat, c: nat)
    requires s > 0
    ensures c * s + r >= 0 && (c * s + r) / s == c + r / s
  {
    var d, m := r / s, r % s;
    assert r == d * s + m;
    assert c * s + r == (c + d) * s + m;
    MulPositiveOrZero(c, s);
    DivModUnique(c * s + r, s, c + d, m);
  }

  lemma ShiftMod(r: nat, n: nat, c: nat)
    requires n > 0
    ensures c * n + r >= 0 && (c * n + r) % n == r % n
  {
    var d, m := r / n, r % n;
    assert r == d * n + m;
    assert c * n + r == (c + d) * n + m;
    MulPositiveOrZero(c, n);
    DivModUnique(c * n + r, n, c + d, m);
  }

  lemma MulPositiveOrZero(a: nat, b: nat)
    ensures a * b >= 0
  {
  }

  lemma DivMono(a: nat, b: nat, n: nat)
    requires n > 0 && a <= b
    ensures a / n <= b / n
  {
    if a / n > b / n {
      MulMono(b / n + 1, a / n, n);
    }
  }

  /** Rows come before later rows, wherever in the row. */
  lemma RowsInOrder(p: nat, q: nat, u: nat, r: nat, s: nat)
    requires p < q && r < u
    ensures p * u + r < q * u + s
  {
    MulMono(p + 1, q, u);
    assert (p + 1) * u == p * u + u;
  }

  lemma SameQuotient(a: nat, b: nat, n: nat)
    requires n > 0 && a < b && a / n == b / n
    ensures a % n < b % n
  {
    assert a == a / n * n + a % n && b == b / n * n + b % n;
  }
}
