/** Quotients and remainders. */
module Arithmetic {

  lemma MultipleGrows(d: int, n: int)
    requires n > 0
    ensures (d >= 1 ==> d * n >= n) && (d <= -1 ==> d * n <= -n)
  {
    if d >= 1 {
      assert d * n == (d - 1) * n + n && (d - 1) * n >= 0;
    } else if d <= -1 {
      assert d * n == (d + 1) * n - n && (d + 1) * n <= 0;
    }
  }

  /** A multiple of n that lies strictly between -n and n is 0. */
  lemma SmallMultiple(d: int, n: int)
    requires n > 0 && -n < d * n < n
    ensures d == 0
  {
    MultipleGrows(d, n);
  }

  lemma QuotientUnique(a: int, n: nat, q: int, r: nat)
    requires r < n && a == q * n + r
    ensures a % n == r
  {
    var q', r' := a / n, a % n;
    assert a == q' * n + r';
    assert (q - q') * n == q * n - q' * n;
    SmallMultiple(q - q', n);
  }

  /** Numbers less than n apart have the same remainder only if they are equal. */
  lemma SameRemainder(a: nat, b: nat, n: nat)
    requires a <= b < a + n
    ensures a % n == b % n <==> a == b
  {
    var i, j := a / n, b / n;
    assert a == i * n + a % n && b == j * n + b % n;
    assert (j - i) * n == j * n - i * n;
    if a % n == b % n {
      SmallMultiple(j - i, n);
    }
  }

  lemma QuotientIs(a: int, n: nat, q: int, r: nat)
    requires r < n && a == q * n + r
    ensures a / n == q
  {
    var q', r' := a / n, a % n;
    assert a == q' * n + r';
    assert (q - q') * n == q * n - q' * n;
    SmallMultiple(q - q', n);
  }

  lemma QuotientOfQuotient(v: nat, a: nat, b: nat)
    requires a > 0 && b > 0 && a * b > 0
    ensures v / a / b == v / (a * b)
  {
    var w := v / a;
    var q, r, s := w / b, w % b, v % a;
    assert v == w * a + s && w == q * b + r;
    assert (q * b + r) * a == q * (a * b) + r * a;
    MultipleGrows(b - r, a);
    assert (b - r) * a == a * b - r * a;
    QuotientIs(v, a * b, q, r * a + s);
  }

  lemma SumRemainder(a: nat, b: nat, n: nat)
    requires n > 0
    ensures (a % n + b) % n == (a + b) % n
  {
    var i, j, r := a / n, (a % n + b) / n, (a % n + b) % n;
    assert a == i * n + a % n && a % n + b == j * n + r;
    assert (i + j) * n == i * n + j * n;
    QuotientUnique(a + b, n, i + j, r);
  }

  lemma DifferenceRemainder(a: nat, b: nat, n: nat)
    requires a <= b < a + n
    ensures (b % n - a % n) % n == b - a
  {
    var i, j := a / n, b / n;
    assert a == i * n + a % n && b == j * n + b % n;
    assert (i - j) * n == i * n - j * n;
    QuotientUnique(b % n - a % n, n, i - j, b - a);
  }
}
