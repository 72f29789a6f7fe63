/** 64-bit signed integers that wrap around. */
module Int64 {
  const HALF: int := 0x8000_0000_0000_0000

  type I64 = v: int | -HALF <= v < HALF

  /** The value modulo 2^64, as a signed number. */
  function Wrap(v: int): I64 {
    (v + HALF) % (2 * HALF) - HALF
  }

  lemma WrapAdds(a: int, v: int)
    ensures Wrap(Wrap(a) + v) == Wrap(a + v)
  {
    var q := (a + HALF) / (2 * HALF);
    assert a + HALF == q * (2 * HALF) + (a + HALF) % (2 * HALF);
    assert Wrap(a) == a - q * (2 * HALF);
    var x := Wrap(a) + v + HALF;
    assert a + v + HALF == x + q * (2 * HALF);
    assert (x + q * (2 * HALF)) % (2 * HALF) == x % (2 * HALF);
  }

  lemma WrapBoth(a: int, b: int, sum: int)
    requires sum == a + b
    ensures Wrap(Wrap(a) + Wrap(b)) == Wrap(sum)
  {
    WrapAdds(a, Wrap(b));
    WrapAdds(b, a);
  }

  lemma WrapFits(v: int)
    ensures Wrap(v) == v <==> -HALF <= v < HALF
  {
  }

  function AddWrapping(a: I64, b: I64): I64 {
    Wrap(a + b)
  }

  /** Wrapping sums may be regrouped. */
  lemma Regroup(b: I64, c: I64, x: I64, y: I64)
    ensures AddWrapping(AddWrapping(b, c), AddWrapping(x, y)) == AddWrapping(AddWrapping(b, x), AddWrapping(c, y))
  {
    var sum := b + c + x + y;
    WrapBoth(b + c, x + y, sum);
    WrapBoth(b + x, c + y, sum);
  }
}
