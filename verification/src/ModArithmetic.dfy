/** Remainders by a symbolic divisor. */
module ModArithmetic {

  lemma ModOfDifference(a: int, b: int, n: int)
    requires n > 0
    ensures a % n == b % n <==> (a - b) % n == 0
  {
    var d := a / n - b / n;
    assert a - b == n * d + (a % n - b % n);
    MultipleIsZeroMod(d, n);
    if a % n == b % n {
      assert a - b == n * d;
    } else if (a - b) % n == 0 {
      var e := (a - b) / n;
      assert a - b == n * e;
      assert n * (e - d) == a % n - b % n;
      NoSmallMultiple(e - d, n);
    }
  }

  lemma MultipleIsZeroMod(d: int, n: int)
    requires n > 0
    ensures (n * d) % n == 0
  {
    assert n * d == n * d + 0;
    EuclidUnique(n * d, n, d, 0);
  }

  lemma EuclidUnique(a: int, n: int, q: int, r: int)
    requires n > 0 && a == n * q + r && 0 <= r < n
    ensures a / n == q && a % n == r
  {
    var q' := a / n;
    assert a == n * q' + a % n;
    assert n * (q' - q) == r - a % n;
    NoSmallMultiple(q' - q, n);
  }

  lemma NoSmallMultiple(k: int, n: int)
    requires n > 0 && -n < n * k < n
    ensures k == 0
  {
  }

  /** Numbers less than n apart have different remainders. */
  lemma NearbyDiffer(a: int, b: int, n: int)
    requires n > 0 && a < b < a + n
    ensures a % n != b % n
  {
    ModOfDifference(b, a, n);
    if (b - a) % n == 0 {
      var k := (b - a) / n;
      assert b - a == n * k;
      NoSmallMultiple(k, n);
    }
  }

  lemma ModOfSuccessor(a: int, n: int)
    requires n > 0
    ensures (a % n + 1) % n == (a + 1) % n
  {
    ModOfDifference(a % n + 1, a + 1, n);
    assert a == n * (a / n) + a % n;
    MultipleIsZeroMod(-(a / n), n);
    assert a % n + 1 - (a + 1) == n * -(a / n);
  }
}
