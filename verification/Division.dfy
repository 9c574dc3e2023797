/** Quotients and remainders by a positive divisor. */
module Division {

  lemma MulAtLeast(a: int, n: int)
    requires a >= 1 && n >= 1
    ensures a * n >= n
  {
  }

  lemma MulSum(a: int, b: int, n: int)
    ensures (a + b) * n == a * n + b * n
  {
  }

  lemma MulDifference(a: int, b: int, n: int)
    ensures (a - b) * n == a * n - b * n
  {
  }

  lemma DivMod(a: int, n: int, q: int, r: int)
    requires n >= 1 && a == q * n + r && 0 <= r < n
    ensures a / n == q && a % n == r
  {
    var q' := a / n;
    assert a == q' * n + a % n;
    MulDifference(q, q', n);
    MulDifference(q', q, n);
    if q > q' {
      MulAtLeast(q - q', n);
    } else if q < q' {
      MulAtLeast(q' - q, n);
    }
  }

  lemma ModSuccessor(a: int, n: int)
    requires n >= 1
    ensures (a % n + 1) % n == (a + 1) % n
    ensures (a + 1) / n == a / n + if (a + 1) % n == 0 then 1 else 0
  {
    var q, r := a / n, a % n;
    if r + 1 == n {
      assert (q + 1) * n == q * n + n;
      DivMod(a + 1, n, q + 1, 0);
      DivMod(r + 1, n, 1, 0);
    } else {
      DivMod(a + 1, n, q, r + 1);
      DivMod(r + 1, n, 0, r + 1);
    }
  }

  lemma SumOfQuotients(a: int, b: int, n: int)
    requires n >= 1
    ensures (a + b) / n == a / n + b / n + if a % n + b % n < n then 0 else 1
  {
    var q := a / n + b / n;
    assert a == (a / n) * n + a % n && b == (b / n) * n + b % n;
    MulSum(a / n, b / n, n);
    if a % n + b % n < n {
      DivMod(a + b, n, q, a % n + b % n);
    } else {
      MulSum(q, 1, n);
      DivMod(a + b, n, q + 1, a % n + b % n - n);
    }
  }

  lemma Ceiling(w: nat, n: int)
    requires n >= 1
    ensures (w + n - 1) / n == w / n + if w % n == 0 then 0 else 1
  {
    DivMod(n - 1, n, 0, n - 1);
    SumOfQuotients(w, n - 1, n);
  }
}
