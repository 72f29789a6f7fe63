/** Columns of 64-bit signed integers: two's complement layout, sum, minimum and maximum. */
module IntColumns {
  import opened Storage
  import opened Codecs
  import opened Aggregation
  import opened Columns
  import opened Int64

  function Unsigned(v: int, half: int): int {
    if v < 0 then v + 2 * half else v
  }

  function Signed(u: int, half: int): int {
    if u < half then u else u - 2 * half
  }

  lemma SignedRoundTrip(v: int, w: nat, half: int)
    requires Pow256(w) == 2 * half && -half <= v < half
    ensures 0 <= Unsigned(v, half) < Pow256(w)
    ensures Signed(FromWord(ToWord(Unsigned(v, half), w)), half) == v
  {
    WordRoundTrip(Unsigned(v, half), w);
  }

  lemma UnsignedRoundTrip(bs: seq<Byte>, half: int)
    requires Pow256(|bs|) == 2 * half
    ensures -half <= Signed(FromWord(bs), half) < half
    ensures ToWord(Unsigned(Signed(FromWord(bs), half), half), |bs|) == bs
  {
    var u := FromWord(bs);
    assert Unsigned(Signed(u, half), half) == u;
    BytesRoundTrip(bs);
  }

  lemma EightBytes()
    ensures Pow256(8) == 2 * HALF
  {
  }

  function EncodeI64(v: I64): seq<Byte> {
    ToWord(Unsigned(v, HALF), 8)
  }

  function DecodeI64(bs: seq<Byte>): I64 {
    EightBytes();
    if |bs| == 8 then Signed(FromWord(bs), HALF) else 0
  }

  const INT64 := Layout(EncodeI64, DecodeI64)

  /** Two's complement: the stored word is the value modulo 2^64. */
  lemma TwosComplement(v: I64)
    ensures FromWord(EncodeI64(v)) == v % (2 * HALF)
  {
    EightBytes();
    WordRoundTrip(Unsigned(v, HALF), 8);
  }

  /** The little-endian two's complement layout loses nothing in either direction. */
  lemma Int64IsExact()
    ensures Exact(INT64)
  {
    EightBytes();
    forall v: I64 ensures |EncodeI64(v)| == 8 && DecodeI64(EncodeI64(v)) == v {
      SignedRoundTrip(v, 8, HALF);
    }
    forall bs: seq<Byte> | |bs| == 8 ensures EncodeI64(DecodeI64(bs)) == bs {
      UnsignedRoundTrip(bs, HALF);
    }
  }

  /** Decoding inverts encoding up to the last whole value of a buffer cut at any byte. */
  lemma IntColumnRoundTrip(vals: seq<I64>, cut: nat, count: nat)
    requires cut <= |EncodeAll(INT64, vals)|
    ensures
      var n := if count <= cut / 8 then count else cut / 8;
      n <= |vals| && ToVec(INT64, Column(EncodeAll(INT64, vals)[..cut], count)) == vals[..n]
  {
    Int64IsExact();
    ColumnRoundTrip(INT64, vals, cut, count);
  }

  /** Encoding inverts decoding on the bytes that were read. */
  lemma IntColumnBytes(c: Column)
    ensures EncodeAll(INT64, ToVec(INT64, c)) == c.data[..8 * Visible(c)]
  {
    Int64IsExact();
    ColumnBytes(INT64, c);
  }

  // ---- Sum ----

  function Total(vals: seq<I64>): int {
    if vals == [] then 0 else Total(vals[..|vals| - 1]) + vals[|vals| - 1]
  }

  lemma {:induction false} FoldWraps(vals: seq<I64>)
    ensures Fold(0, AddWrapping, vals) == Wrap(Total(vals))
    decreases |vals|
  {
    if vals != [] {
      var init := vals[..|vals| - 1];
      FoldWraps(init);
      WrapAdds(Total(init), vals[|vals| - 1]);
    }
  }

  function Sum(c: Column): I64 {
    FoldColumn(INT64, c, c.count, 0, AddWrapping)
  }

  /** The column sum is the true total exactly when that total fits in 64 bits, whatever the
      running sum does on the way. */
  lemma SumIsTotalIff(c: Column)
    ensures Sum(c) == Wrap(Total(ToVec(INT64, c)))
    ensures Sum(c) == Total(ToVec(INT64, c)) <==> -HALF <= Total(ToVec(INT64, c)) < HALF
  {
    FoldColumnIsFold(INT64, c, c.count, 0, AddWrapping);
    FoldWraps(ToVec(INT64, c));
    WrapFits(Total(ToVec(INT64, c)));
  }

  // ---- Minimum and maximum ----

  function Lesser(best: Option<I64>, v: I64): Option<I64> {
    if best.Some? && best.value <= v then best else Some(v)
  }

  function Larger(best: Option<I64>, v: I64): Option<I64> {
    if best.Some? && best.value > v then best else Some(v)
  }

  predicate IsMin(r: Option<I64>, vals: seq<I64>) {
    if r.None? then vals == []
    else r.value in vals && forall v :: v in vals ==> r.value <= v
  }

  predicate IsMax(r: Option<I64>, vals: seq<I64>) {
    if r.None? then vals == []
    else r.value in vals && forall v :: v in vals ==> r.value >= v
  }

  lemma {:induction false} FoldsFindEnds(vals: seq<I64>)
    ensures IsMin(Fold(None, Lesser, vals), vals)
    ensures IsMax(Fold(None, Larger, vals), vals)
    decreases |vals|
  {
    if vals != [] {
      var init, v := vals[..|vals| - 1], vals[|vals| - 1];
      assert vals == init + [v];
      FoldsFindEnds(init);
    }
  }

  function Min(c: Column): Option<I64> {
    FoldColumn(INT64, c, c.count, None, Lesser)
  }

  function Max(c: Column): Option<I64> {
    FoldColumn(INT64, c, c.count, None, Larger)
  }

  /** min and max are those of the decoded list, or nothing when it is empty. */
  lemma MinMaxAgree(c: Column)
    ensures IsMin(Min(c), ToVec(INT64, c))
    ensures IsMax(Max(c), ToVec(INT64, c))
  {
    FoldColumnIsFold(INT64, c, c.count, None, Lesser);
    FoldColumnIsFold(INT64, c, c.count, None, Larger);
    FoldsFindEnds(ToVec(INT64, c));
  }
}
