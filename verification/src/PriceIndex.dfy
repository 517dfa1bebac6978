/** The slot of a price in the price-to-level array. */
module PriceIndex {
  import opened ModArithmetic

  const TWO_TO_THE_64: int := 0x1_0000_0000_0000_0000

  /** A signed 64-bit value converted to an unsigned one. */
  function ToUnsigned(price: int): nat { price % TWO_TO_THE_64 }

  /** The remainder is taken on the unsigned value, because the number of levels is unsigned. */
  function PriceToIndex(price: int, n: nat): (i: nat)
    requires n > 0
    ensures i < n
  {
    ToUnsigned(price) % n
  }

  /** Two prices share a slot exactly when they differ by a multiple of the number of levels,
      negative prices included, provided that number divides 2^64 (it is 256, or 16 in tests). */
  lemma SharedSlot(p: int, q: int, n: nat)
    requires n > 0 && TWO_TO_THE_64 % n == 0
    ensures PriceToIndex(p, n) == p % n
    ensures PriceToIndex(p, n) == PriceToIndex(q, n) <==> (p - q) % n == 0
  {
    UnsignedIndex(p, n);
    UnsignedIndex(q, n);
    ModOfDifference(p, q, n);
  }

  lemma UnsignedIndex(p: int, n: nat)
    requires n > 0 && TWO_TO_THE_64 % n == 0
    ensures PriceToIndex(p, n) == p % n
  {
    var m := TWO_TO_THE_64 / n;
    var k := p / TWO_TO_THE_64;
    assert TWO_TO_THE_64 == n * m;
    assert p == TWO_TO_THE_64 * k + ToUnsigned(p);
    assert p - ToUnsigned(p) == n * (m * k) by {
      assert (n * m) * k == n * (m * k);
    }
    MultipleIsZeroMod(m * k, n);
    ModOfDifference(p, ToUnsigned(p), n);
  }

  /** Prices inside one window as wide as the array never collide. */
  lemma WindowHasNoCollision(p: int, q: int, n: nat)
    requires n > 0 && TWO_TO_THE_64 % n == 0
    requires p - q < n && q - p < n
    ensures PriceToIndex(p, n) == PriceToIndex(q, n) <==> p == q
  {
    SharedSlot(p, q, n);
    if (p - q) % n == 0 {
      var k := (p - q) / n;
      assert p - q == n * k;
      NoSmallMultiple(k, n);
    }
  }
}
