/** Facts about integer division by a variable, which need to be spelled out. */
module Division {
  lemma {:induction false} ModStep(w: nat, n: nat)
    requires w > 0
    ensures (n + 1) % w == if n % w == w - 1 then 0 else n % w + 1
    ensures 0 <= n % w < w
    decreases n
  {
    if n >= w {
      ModStep(w, n - w);
      ModShift(w, n - w);
      ModShift(w, n - w + 1);
    } else if n < w - 1 {
      ModSmall(w, n);
      ModSmall(w, n + 1);
    } else {
      ModSmall(w, n);
    }
  }

  lemma DivUnique(w: int, q: int, r: int)
    requires 0 <= r < w
    ensures (w * q + r) % w == r
  {
    var n := w * q + r;
    var q', r' := n / w, n % w;
    assert w * (q - q') == r' - r;
    if q - q' >= 1 { Product(w, q - q'); }
    if q - q' <= -1 { Product(w, q' - q); }
  }

  lemma Product(w: int, k: int)
    requires w > 0 && k >= 1
    ensures w * k >= w
  {
  }

  lemma ModShift(w: nat, n: nat)
    requires w > 0
    ensures (n + w) % w == n % w
  {
    assert n + w == w * (n / w + 1) + n % w;
    DivUnique(w, n / w + 1, n % w);
  }

  lemma ModSmall(w: nat, n: nat)
    requires n < w
    ensures n % w == n
  {
  }

  lemma QuotientBetween(a: nat, n: nat, lo: int, hi: int)
    requires n > 0 && lo * n <= a <= hi * n
    ensures lo <= a / n <= hi
  {
    var q := a / n;
    assert a == n * q + a % n;
    if q < lo { Product(n, lo - q); }
    if hi < q { Product(n, q - hi); }
  }

  lemma QuotientBounds(a: nat, n: nat)
    requires n > 0
    ensures a / n >= 0 && n * (a / n) <= a < n * (a / n) + n
  {
  }

  /** Numbers with the same quotient are less than a divisor apart. */
  lemma SameQuotientClose(a: nat, b: nat, n: nat)
    requires n > 0
    ensures a / n == b / n ==> a - b < n
  {
    assert a == n * (a / n) + a % n && b == n * (b / n) + b % n;
  }

  lemma QuotientPositive(a: nat, n: nat)
    requires 0 < n <= a
    ensures a / n >= 1
  {
    assert a == n * (a / n) + a % n;
    if a / n <= 0 { QuotientNotNegative(a, n); }
  }

  lemma QuotientNotNegative(a: nat, n: nat)
    requires n > 0
    ensures a / n >= 0
  {
  }
}
