/** Little-endian words and the fixed-width keys of two words. */
module Codecs {
  import opened Storage

  type Byte = b: int | 0 <= b < 256

  // ---- Words ----

  function Pow256(w: nat): (p: nat)
    ensures p >= 1
  {
    if w == 0 then 1 else 256 * Pow256(w - 1)
  }

  /** Byte i of v, counted from the least significant one. */
  function ByteAt(v: nat, i: nat): Byte
    decreases i
  {
    if i == 0 then v % 256 else ByteAt(v / 256, i - 1)
  }

  /** The low w bytes of v, least significant first. */
  function ToWord(v: nat, w: nat): (bs: seq<Byte>)
    ensures |bs| == w
  {
    seq(w, i requires 0 <= i < w => ByteAt(v, i))
  }

  lemma WordStep(v: nat, w: nat)
    requires w > 0
    ensures ToWord(v, w) == [ByteAt(v, 0)] + ToWord(v / 256, w - 1)
    ensures ToWord(v, w)[1..] == ToWord(v / 256, w - 1)
  {
  }

  lemma {:induction false} NestedDivision(v: nat, p: nat)
    requires p >= 1
    ensures v / 256 / p == v / (256 * p)
  {
    var q, r := v / 256, v % 256;
    var a, b := q / p, q % p;
    assert q == a * p + b;
    assert v == a * (256 * p) + (256 * b + r);
    assert 256 * b + r < 256 * p by { assert b + 1 <= p; }
    QuotientIs(v, 256 * p, a, 256 * b + r);
  }

  lemma QuotientIs(v: nat, d: nat, a: nat, rest: nat)
    requires rest < d && v == a * d + rest
    ensures v / d == a
  {
    var q := v / d;
    assert v == q * d + v % d;
    OneTimeMore(q, a, d);
    OneTimeMore(a, q, d);
  }

  lemma {:induction false} OneTimeMore(a: nat, b: nat, d: nat)
    ensures a < b ==> a * d + d <= b * d
    decreases b
  {
    if a < b {
      OneTimeMore(a, b - 1, d);
      assert b * d == (b - 1) * d + d;
    }
  }

  /** Byte i of a word has weight 256 to the power i: the least significant byte comes first. */
  lemma {:induction false} LittleEndian(v: nat, w: nat, i: nat)
    requires i < w
    ensures ToWord(v, w)[i] == v / Pow256(i) % 256
    decreases i
  {
    if i > 0 {
      LittleEndian(v / 256, w, i - 1);
      NestedDivision(v, Pow256(i - 1));
    }
  }

  function FromWord(bs: seq<Byte>): (v: nat)
    ensures v < Pow256(|bs|)
  {
    if bs == [] then 0 else bs[0] + 256 * FromWord(bs[1..])
  }

  lemma {:induction false} WordRoundTrip(v: nat, w: nat)
    requires v < Pow256(w)
    ensures FromWord(ToWord(v, w)) == v
    decreases w
  {
    if w > 0 {
      WordStep(v, w);
      WordRoundTrip(v / 256, w - 1);
    }
  }

  lemma LowByte(b: Byte, n: nat)
    ensures (b + 256 * n) % 256 == b && (b + 256 * n) / 256 == n
  {
  }

  lemma {:induction false} BytesRoundTrip(bs: seq<Byte>)
    ensures ToWord(FromWord(bs), |bs|) == bs
    decreases |bs|
  {
    if bs != [] {
      BytesRoundTrip(bs[1..]);
      LowByte(bs[0], FromWord(bs[1..]));
      WordStep(FromWord(bs), |bs|);
      assert bs == [bs[0]] + bs[1..];
    }
  }

  // ---- Fixed-width keys: two words one after the other ----

  function PairToBytes(a: nat, b: nat, m: nat, n: nat): seq<Byte> {
    ToWord(a, m) + ToWord(b, n)
  }

  /** Reads the two words from the front; too few bytes is an error, further ones are not looked at. */
  function PairFromBytes(bs: seq<Byte>, m: nat, n: nat): Option<(nat, nat)> {
    if |bs| < m then None
    else if |bs[m..]| < n then None
    else Some((FromWord(bs[..m]), FromWord(bs[m..][..n])))
  }

  lemma PairRoundTrip(a: nat, b: nat, m: nat, n: nat, rest: seq<Byte>)
    requires a < Pow256(m) && b < Pow256(n)
    ensures PairFromBytes(PairToBytes(a, b, m, n) + rest, m, n) == Some((a, b))
  {
    WordRoundTrip(a, m);
    WordRoundTrip(b, n);
    var bs := PairToBytes(a, b, m, n) + rest;
    assert bs[..m] == ToWord(a, m) && bs[m..][..n] == ToWord(b, n);
  }

  lemma PairReads(bs: seq<Byte>, m: nat, n: nat)
    ensures PairFromBytes(bs, m, n).Some? <==> |bs| >= m + n
    ensures |bs| >= m + n ==>
      var (a, b) := PairFromBytes(bs, m, n).value;
      a < Pow256(m) && b < Pow256(n) && PairToBytes(a, b, m, n) == bs[..m + n]
  {
    if |bs| >= m + n {
      var x, y := bs[..m], bs[m..][..n];
      assert x + y == bs[..m + n];
      BytesRoundTrip(x);
      BytesRoundTrip(y);
    }
  }

  type U64 = n: nat | n < Pow256(8)
  type U128 = n: nat | n < Pow256(16)

  datatype TemporalKey = TemporalKey(timestamp: U64, edgeId: U128)

  datatype CausalKey = CausalKey(parentId: U128, childId: U128)

  function TemporalToBytes(k: TemporalKey): seq<Byte> {
    PairToBytes(k.timestamp, k.edgeId, 8, 16)
  }

  function TemporalFromBytes(bs: seq<Byte>): Option<TemporalKey> {
    PairReads(bs, 8, 16);
    match PairFromBytes(bs, 8, 16)
    case Some((a, b)) => Some(TemporalKey(a, b))
    case None => None
  }

  function CausalToBytes(k: CausalKey): seq<Byte> {
    PairToBytes(k.parentId, k.childId, 16, 16)
  }

  function CausalFromBytes(bs: seq<Byte>): Option<CausalKey> {
    PairReads(bs, 16, 16);
    match PairFromBytes(bs, 16, 16)
    case Some((a, b)) => Some(CausalKey(a, b))
    case None => None
  }

  /** Decoding inverts encoding, whatever follows the key. */
  lemma TemporalRoundTrip(k: TemporalKey, rest: seq<Byte>)
    ensures TemporalFromBytes(TemporalToBytes(k) + rest) == Some(k)
  {
    PairRoundTrip(k.timestamp, k.edgeId, 8, 16, rest);
  }

  /** Decoding fails exactly on fewer than 24 bytes, and encoding gives the bytes read back. */
  lemma TemporalReads(bs: seq<Byte>)
    ensures TemporalFromBytes(bs).Some? <==> |bs| >= 24
    ensures |bs| >= 24 ==> TemporalToBytes(TemporalFromBytes(bs).value) == bs[..24]
  {
    PairReads(bs, 8, 16);
  }

  lemma CausalRoundTrip(k: CausalKey, rest: seq<Byte>)
    ensures CausalFromBytes(CausalToBytes(k) + rest) == Some(k)
  {
    PairRoundTrip(k.parentId, k.childId, 16, 16, rest);
  }

  lemma CausalReads(bs: seq<Byte>)
    ensures CausalFromBytes(bs).Some? <==> |bs| >= 32
    ensures |bs| >= 32 ==> CausalToBytes(CausalFromBytes(bs).value) == bs[..32]
  {
    PairReads(bs, 16, 16);
  }

  /** The timestamp is in bytes 0 to 7 and the edge in bytes 8 to 23. */
  lemma TemporalLayout(k: TemporalKey)
    ensures |TemporalToBytes(k)| == 24
    ensures FromWord(TemporalToBytes(k)[..8]) == k.timestamp && FromWord(TemporalToBytes(k)[8..]) == k.edgeId
  {
    WordRoundTrip(k.timestamp, 8);
    WordRoundTrip(k.edgeId, 16);
    var bs := TemporalToBytes(k);
    assert bs[..8] == ToWord(k.timestamp, 8) && bs[8..] == ToWord(k.edgeId, 16);
  }

  /** The parent is in bytes 0 to 15 and the child in bytes 16 to 31. */
  lemma CausalLayout(k: CausalKey)
    ensures |CausalToBytes(k)| == 32
    ensures FromWord(CausalToBytes(k)[..16]) == k.parentId && FromWord(CausalToBytes(k)[16..]) == k.childId
  {
    WordRoundTrip(k.parentId, 16);
    WordRoundTrip(k.childId, 16);
    var bs := CausalToBytes(k);
    assert bs[..16] == ToWord(k.parentId, 16) && bs[16..] == ToWord(k.childId, 16);
  }

  /** Both key encodings are injective. */
  lemma KeysAreInjective(k: TemporalKey, l: TemporalKey, c: CausalKey, d: CausalKey)
    ensures TemporalToBytes(k) == TemporalToBytes(l) <==> k == l
    ensures CausalToBytes(c) == CausalToBytes(d) <==> c == d
  {
    TemporalRoundTrip(k, []);
    TemporalRoundTrip(l, []);
    CausalRoundTrip(c, []);
    CausalRoundTrip(d, []);
  }

  datatype Ordering = Less | Equal | Greater

  function CompareNat(a: nat, b: nat): Ordering {
    if a < b then Less else if a == b then Equal else Greater
  }

  /** By timestamp, then by edge. */
  function Compare(k: TemporalKey, l: TemporalKey): Ordering {
    var first := CompareNat(k.timestamp, l.timestamp);
    if first == Equal then CompareNat(k.edgeId, l.edgeId) else first
  }

  /** Compare is a total order with time before identity, and equal only on equal keys. */
  lemma CompareIsTotalOrder(k: TemporalKey, l: TemporalKey, o: TemporalKey)
    ensures Compare(k, l) == Equal <==> k == l
    ensures Compare(k, l) == Less <==> Compare(l, k) == Greater
    ensures Compare(k, l) != Greater && Compare(l, o) != Greater ==> Compare(k, o) != Greater
    ensures k.timestamp < l.timestamp ==> Compare(k, l) == Less
    ensures k.timestamp == l.timestamp && k.edgeId < l.edgeId ==> Compare(k, l) == Less
  {
  }
}
