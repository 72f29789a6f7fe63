/** Hash indexes and hash joins over columns, and the nested-loop join they stand for. */
module HashJoin {

  /** The rows holding a key. */
  function RowsOf<K(==)>(col: seq<K>, k: K): (rows: seq<nat>)
    ensures forall p :: 0 <= p < |rows| ==> rows[p] < |col|
  {
    if col == [] then []
    else RowsOf(col[..|col| - 1], k) + if col[|col| - 1] == k then [|col| - 1] else []
  }

  predicate Ascends(rows: seq<nat>) {
    forall p, q :: 0 <= p < q < |rows| ==> rows[p] < rows[q]
  }

  /** RowsOf lists exactly the rows holding the key, in ascending order. */
  lemma {:induction false} RowsOfExact<K>(col: seq<K>, k: K)
    ensures Ascends(RowsOf(col, k))
    ensures forall i: nat :: i in RowsOf(col, k) <==> i < |col| && col[i] == k
    decreases |col|
  {
    if col != [] {
      var n := |col| - 1;
      RowsOfExact(col[..n], k);
      var init := RowsOf(col[..n], k);
      forall i: nat ensures i in RowsOf(col, k) <==> i < |col| && col[i] == k {
        assert i in init <==> i < n && col[..n][i] == k;
      }
    }
  }

  lemma NoRows<K>(col: seq<K>, k: K)
    requires k !in col
    ensures RowsOf(col, k) == []
  {
    RowsOfExact(col, k);
    if RowsOf(col, k) != [] { assert RowsOf(col, k)[0] in RowsOf(col, k); }
  }

  /** The index of a column has exactly its keys, each with exactly its rows. */
  ghost predicate IsIndex<K(!new)>(idx: map<K, seq<nat>>, col: seq<K>) {
    && (forall k :: k in idx <==> k in col)
    && (forall k :: k in idx ==> idx[k] == RowsOf(col, k))
  }

  /** The rows filed under a key, none when the index has no entry. */
  function Lookup<K(==)>(idx: map<K, seq<nat>>, k: K): seq<nat> {
    if k in idx then idx[k] else []
  }

  lemma LookupIsRows<K(!new)>(idx: map<K, seq<nat>>, col: seq<K>, k: K)
    requires IsIndex(idx, col)
    ensures Lookup(idx, k) == RowsOf(col, k)
  {
    if k !in idx { NoRows(col, k); }
  }

  lemma IndexSnoc<K(!new)>(idx: map<K, seq<nat>>, col: seq<K>, v: K)
    requires IsIndex(idx, col)
    ensures IsIndex(idx[v := Lookup(idx, v) + [|col|]], col + [v])
  {
    var grown := col + [v];
    var next := idx[v := Lookup(idx, v) + [|col|]];
    LookupIsRows(idx, col, v);
    assert grown[..|col|] == col;
    forall k ensures k in next <==> k in grown {
      assert k in grown <==> k in col || k == v;
    }
    forall k | k in next ensures next[k] == RowsOf(grown, k) {
    }
  }

  method BuildIndex<K(==, !new)>(col: seq<K>) returns (idx: map<K, seq<nat>>)
    ensures IsIndex(idx, col)
  {
    idx := map[];
    var i := 0;
    while i < |col|
      invariant 0 <= i <= |col| && IsIndex(idx, col[..i])
    {
      IndexSnoc(idx, col[..i], col[i]);
      assert col[..i + 1] == col[..i] + [col[i]];
      idx := idx[col[i] := Lookup(idx, col[i]) + [i]];
      i := i + 1;
    }
    assert col[..i] == col;
  }

  /** Row pairs a nested loop would match. */
  function Pairs<K(==)>(x: seq<K>, y: seq<K>): set<(nat, nat)> {
    set i, j | 0 <= i < |x| && 0 <= j < |y| && x[i] == y[j] :: (i, j)
  }

  function InnerCount<K(==)>(x: seq<K>, y: seq<K>): nat {
    if x == [] then 0 else InnerCount(x[..|x| - 1], y) + |RowsOf(y, x[|x| - 1])|
  }

  function Unmatched<K(==)>(x: seq<K>, y: seq<K>): set<nat> {
    set i | 0 <= i < |x| && x[i] !in y
  }

  lemma {:induction false} DistinctRowsCount(rows: seq<nat>, s: set<(nat, nat)>, i: nat)
    requires Ascends(rows)
    requires forall p :: p in s <==> p.0 == i && p.1 in rows
    ensures |s| == |rows|
    decreases |rows|
  {
    if rows == [] {
      assert s == {};
    } else {
      var init, last := rows[..|rows| - 1], rows[|rows| - 1];
      forall p ensures p in s - {(i, last)} <==> p.0 == i && p.1 in init {
        assert p.1 in rows <==> p.1 in init || p.1 == last;
      }
      DistinctRowsCount(init, s - {(i, last)}, i);
      assert (i, last) in s;
    }
  }

  /** The matches of the last left row are the rows the index files under its key. */
  lemma LastRowPairs<K>(x: seq<K>, y: seq<K>, n: nat, s: set<(nat, nat)>)
    requires n < |x|
    requires forall p :: p in s <==> p.0 == n && p.1 < |y| && x[n] == y[p.1]
    ensures |s| == |RowsOf(y, x[n])|
  {
    RowsOfExact(y, x[n]);
    DistinctRowsCount(RowsOf(y, x[n]), s, n);
  }

  /** The sum of the matches per row is the number of matching row pairs. */
  lemma {:induction false} InnerCountIsPairs<K>(x: seq<K>, y: seq<K>)
    ensures InnerCount(x, y) == |Pairs(x, y)|
    decreases |x|
  {
    if x == [] {
      assert Pairs(x, y) == {};
    } else {
      var n: nat := |x| - 1;
      InnerCountIsPairs(x[..n], y);
      var last := set p | p in Pairs(x, y) && p.0 == n;
      LastRowPairs(x, y, n, last);
      assert Pairs(x, y) == Pairs(x[..n], y) + last;
    }
  }

  /** The inner joins count the matching row pairs. */
  method InnerJoin<K(==, !new)>(x: seq<K>, idx: map<K, seq<nat>>, ghost y: seq<K>) returns (count: nat)
    requires IsIndex(idx, y)
    ensures count == |Pairs(x, y)|
  {
    count := 0;
    var i := 0;
    while i < |x|
      invariant 0 <= i <= |x| && count == InnerCount(x[..i], y)
    {
      assert x[..i + 1][..i] == x[..i];
      LookupIsRows(idx, y, x[i]);
      if x[i] in idx {
        count := count + |idx[x[i]]|;
      }
      i := i + 1;
    }
    assert x[..i] == x;
    InnerCountIsPairs(x, y);
  }

  lemma OneMoreRow<K>(x: seq<K>, y: seq<K>, i: nat)
    requires i < |x|
    ensures InnerCount(x[..i + 1], y) == InnerCount(x[..i], y) + |RowsOf(y, x[i])|
    ensures |Unmatched(x[..i + 1], y)| == |Unmatched(x[..i], y)| + if x[i] in y then 0 else 1
  {
    assert x[..i + 1][..i] == x[..i];
    assert Unmatched(x[..i + 1], y) == Unmatched(x[..i], y) + if x[i] in y then {} else {i};
  }

  /** The left join counts the matching pairs and one row for each unmatched left row. */
  method LeftJoin<K(==, !new)>(x: seq<K>, idx: map<K, seq<nat>>, ghost y: seq<K>) returns (count: nat)
    requires IsIndex(idx, y)
    ensures count == |Pairs(x, y)| + |Unmatched(x, y)|
  {
    count := 0;
    var i := 0;
    while i < |x|
      invariant 0 <= i <= |x| && count == InnerCount(x[..i], y) + |Unmatched(x[..i], y)|
    {
      OneMoreRow(x, y, i);
      LookupIsRows(idx, y, x[i]);
      if x[i] in idx {
        count := count + |idx[x[i]]|;
      } else {
        count := count + 1;
      }
      i := i + 1;
    }
    assert x[..i] == x;
    InnerCountIsPairs(x, y);
  }
}
