/** The typed view of a byte buffer as a column of eight-byte values. */
module Columns {
  import opened Storage
  import opened Codecs
  import opened Aggregation

  /** How one value is laid out in eight bytes. */
  datatype Layout<!V> = Layout(encode: V -> seq<Byte>, decode: seq<Byte> -> V)

  ghost predicate Exact<V(!new)>(l: Layout<V>) {
    && (forall v: V :: |l.encode(v)| == 8 && l.decode(l.encode(v)) == v)
    && (forall bs: seq<Byte> :: |bs| == 8 ==> l.encode(l.decode(bs)) == bs)
  }

  /** The buffer and the number of values it claims to hold. */
  datatype Column = Column(data: seq<Byte>, count: nat)

  function Get<V>(l: Layout<V>, c: Column, index: nat): Option<V> {
    if index >= c.count then None
    else if index * 8 + 8 > |c.data| then None
    else Some(l.decode(c.data[index * 8..index * 8 + 8]))
  }

  function IfSome<V>(o: Option<V>): seq<V> {
    match o case Some(v) => [v] case None => []
  }

  /** The values found among the first n indices, in order. */
  function Found<V>(l: Layout<V>, c: Column, n: nat): seq<V> {
    if n == 0 then [] else Found(l, c, n - 1) + IfSome(Get(l, c, n - 1))
  }

  function ToVec<V>(l: Layout<V>, c: Column): seq<V> {
    Found(l, c, c.count)
  }

  /** How many whole values the column can show. */
  function Visible(c: Column): nat {
    if c.count <= |c.data| / 8 then c.count else |c.data| / 8
  }

  lemma VisibleIff(c: Column, i: nat)
    ensures i < Visible(c) <==> i < c.count && i * 8 + 8 <= |c.data|
  {
  }

  lemma {:induction false} FoundIs<V>(l: Layout<V>, c: Column, n: nat)
    requires n <= c.count
    ensures |Found(l, c, n)| == if n <= Visible(c) then n else Visible(c)
    ensures forall i: nat :: i < |Found(l, c, n)| ==> Get(l, c, i) == Some(Found(l, c, n)[i])
    decreases n
  {
    if n > 0 {
      FoundIs(l, c, n - 1);
      VisibleIff(c, n - 1);
    }
  }

  /** ToVec is the values of the first min(count, len / 8) indices, and Get fails beyond them. */
  lemma ToVecIsPrefix<V>(l: Layout<V>, c: Column)
    ensures |ToVec(l, c)| == Visible(c)
    ensures forall i: nat :: Get(l, c, i) == if i < Visible(c) then Some(ToVec(l, c)[i]) else None
  {
    FoundIs(l, c, c.count);
    forall i: nat ensures Get(l, c, i).Some? <==> i < Visible(c) {
      VisibleIff(c, i);
    }
  }

  function EncodeAll<V>(l: Layout<V>, vals: seq<V>): seq<Byte> {
    if vals == [] then [] else EncodeAll(l, vals[..|vals| - 1]) + l.encode(vals[|vals| - 1])
  }

  lemma {:induction false} EncodedSize<V(!new)>(l: Layout<V>, vals: seq<V>)
    requires Exact(l)
    ensures |EncodeAll(l, vals)| == 8 * |vals|
    decreases |vals|
  {
    if vals != [] { EncodedSize(l, vals[..|vals| - 1]); }
  }

  lemma {:induction false} EncodedAt<V(!new)>(l: Layout<V>, vals: seq<V>, i: nat)
    requires Exact(l) && i < |vals|
    ensures |EncodeAll(l, vals)| == 8 * |vals|
    ensures EncodeAll(l, vals)[8 * i..8 * i + 8] == l.encode(vals[i])
    decreases |vals|
  {
    var n := |vals| - 1;
    EncodedSize(l, vals);
    EncodedSize(l, vals[..n]);
    if i < n { EncodedAt(l, vals[..n], i); }
  }

  /** Decoding an encoded column, cut at any byte, gives the values that are whole. */
  lemma ColumnRoundTrip<V(!new)>(l: Layout<V>, vals: seq<V>, cut: nat, count: nat)
    requires Exact(l) && cut <= |EncodeAll(l, vals)|
    ensures
      var n := if count <= cut / 8 then count else cut / 8;
      n <= |vals| && ToVec(l, Column(EncodeAll(l, vals)[..cut], count)) == vals[..n]
  {
    var c := Column(EncodeAll(l, vals)[..cut], count);
    EncodedSize(l, vals);
    ToVecIsPrefix(l, c);
    forall i: nat | i < Visible(c) ensures Get(l, c, i) == Some(vals[i]) {
      EncodedAt(l, vals, i);
      VisibleIff(c, i);
      assert c.data[i * 8..i * 8 + 8] == EncodeAll(l, vals)[8 * i..8 * i + 8];
    }
  }

  lemma {:induction false} EncodeRead<V(!new)>(l: Layout<V>, data: seq<Byte>, vals: seq<V>)
    requires Exact(l) && |data| == 8 * |vals|
    requires forall i :: 0 <= i < |vals| ==> vals[i] == l.decode(data[8 * i..8 * i + 8])
    ensures EncodeAll(l, vals) == data
    decreases |vals|
  {
    if vals != [] {
      var n := |vals| - 1;
      var front, word := data[..8 * n], data[8 * n..8 * n + 8];
      assert data == front + word;
      forall i | 0 <= i < n ensures vals[..n][i] == l.decode(front[8 * i..8 * i + 8]) {
        assert front[8 * i..8 * i + 8] == data[8 * i..8 * i + 8];
      }
      EncodeRead(l, front, vals[..n]);
    }
  }

  /** Encoding what a column shows gives back the bytes it was read from. */
  lemma ColumnBytes<V(!new)>(l: Layout<V>, c: Column)
    requires Exact(l)
    ensures EncodeAll(l, ToVec(l, c)) == c.data[..8 * Visible(c)]
  {
    var vals, data := ToVec(l, c), c.data[..8 * Visible(c)];
    ToVecIsPrefix(l, c);
    forall i: nat | i < |vals| ensures vals[i] == l.decode(data[8 * i..8 * i + 8]) {
      VisibleIff(c, i);
      assert Get(l, c, i) == Some(vals[i]);
      assert data[8 * i..8 * i + 8] == c.data[i * 8..i * 8 + 8];
    }
    EncodeRead(l, data, vals);
  }

  /** Folding over the indices of the column, without building the list. */
  function FoldColumn<V, A>(l: Layout<V>, c: Column, n: nat, init: A, step: (A, V) -> A): A {
    if n == 0 then init
    else
      var before := FoldColumn(l, c, n - 1, init, step);
      match Get(l, c, n - 1) case Some(v) => step(before, v) case None => before
  }

  lemma FoldOneMore<V, A>(init: A, step: (A, V) -> A, vals: seq<V>, o: Option<V>)
    ensures Fold(init, step, vals + IfSome(o))
         == match o case Some(v) => step(Fold(init, step, vals), v) case None => Fold(init, step, vals)
  {
    if o.Some? { FoldSnoc(init, step, vals, o.value); } else { assert vals + IfSome(o) == vals; }
  }

  /** Such a fold is the fold of the decoded list. */
  lemma {:induction false} FoldColumnIsFold<V, A>(l: Layout<V>, c: Column, n: nat, init: A, step: (A, V) -> A)
    ensures FoldColumn(l, c, n, init, step) == Fold(init, step, Found(l, c, n))
    decreases n
  {
    if n > 0 {
      FoldColumnIsFold(l, c, n - 1, init, step);
      FoldOneMore(init, step, Found(l, c, n - 1), Get(l, c, n - 1));
    }
  }
}
