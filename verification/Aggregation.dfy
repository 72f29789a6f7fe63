/** Group-by queries as one pass over the rows, against filtering each group and folding it. */
module Aggregation {
  import opened Int64

  /** The values of one group, in row order. */
  function ValuesOf<K(==), V>(keys: seq<K>, vals: seq<V>, k: K): (group: seq<V>)
    requires |keys| == |vals|
    ensures |group| > 0 <==> k in keys
  {
    if keys == [] then []
    else
      var n := |keys| - 1;
      ValuesOf(keys[..n], vals[..n], k) + if keys[n] == k then [vals[n]] else []
  }

  function Fold<V, A>(init: A, step: (A, V) -> A, vals: seq<V>): A {
    if vals == [] then init else step(Fold(init, step, vals[..|vals| - 1]), vals[|vals| - 1])
  }

  /** One entry per key of the table, holding the fold of the key's own values. */
  ghost predicate IsGroupFold<K(!new), V, A>(m: map<K, A>, keys: seq<K>, vals: seq<V>, init: A, step: (A, V) -> A)
    requires |keys| == |vals|
  {
    && (forall k :: k in m <==> k in keys)
    && (forall k :: k in m ==> m[k] == Fold(init, step, ValuesOf(keys, vals, k)))
  }

  lemma GroupFoldSnoc<K(!new), V, A>(m: map<K, A>, keys: seq<K>, vals: seq<V>, init: A, step: (A, V) -> A, k: K, v: V)
    requires |keys| == |vals| && IsGroupFold(m, keys, vals, init, step)
    ensures IsGroupFold(m[k := step(if k in m then m[k] else init, v)], keys + [k], vals + [v], init, step)
  {
    var next := m[k := step(if k in m then m[k] else init, v)];
    forall q ensures q in next <==> q in keys + [k] {
      assert q in keys + [k] <==> q in keys || q == k;
    }
    forall q | q in next ensures next[q] == Fold(init, step, ValuesOf(keys + [k], vals + [v], q)) {
      ValuesOfSnoc(keys, vals, k, v, q);
      FoldSnoc(init, step, ValuesOf(keys, vals, q), v);
    }
  }

  lemma ValuesOfSnoc<K, V>(keys: seq<K>, vals: seq<V>, k: K, v: V, q: K)
    requires |keys| == |vals|
    ensures q == k ==> ValuesOf(keys + [k], vals + [v], q) == ValuesOf(keys, vals, q) + [v]
    ensures q != k ==> ValuesOf(keys + [k], vals + [v], q) == ValuesOf(keys, vals, q)
  {
    assert (keys + [k])[..|keys|] == keys && (vals + [v])[..|keys|] == vals;
  }

  lemma FoldSnoc<V, A>(init: A, step: (A, V) -> A, vals: seq<V>, v: V)
    ensures Fold(init, step, vals + [v]) == step(Fold(init, step, vals), v)
  {
    assert (vals + [v])[..|vals|] == vals;
  }

  /** The loop shared by the group-by queries: an entry starts at init and takes each row of its key. */
  method GroupFold<K(==, !new), V, A>(keys: seq<K>, vals: seq<V>, init: A, step: (A, V) -> A) returns (m: map<K, A>)
    requires |keys| == |vals|
    ensures IsGroupFold(m, keys, vals, init, step)
  {
    m := map[];
    var i := 0;
    while i < |keys|
      invariant 0 <= i <= |keys| && IsGroupFold(m, keys[..i], vals[..i], init, step)
    {
      var k, v := keys[i], vals[i];
      assert keys[..i + 1] == keys[..i] + [k] && vals[..i + 1] == vals[..i] + [v];
      GroupFoldSnoc(m, keys[..i], vals[..i], init, step, k, v);
      m := m[k := step(if k in m then m[k] else init, v)];
      i := i + 1;
    }
    assert keys[..i] == keys && vals[..i] == vals;
  }

  // ---- Sums over groups ----

  /** A sum with a zero, in which rows count for something. */
  datatype Summing<!R, !A> = Summing(zero: A, plus: (A, A) -> A, one: R -> A)

  /** Zero changes nothing, and sums may be regrouped. */
  ghost predicate Lawful<R, A(!new)>(s: Summing<R, A>) {
    && (forall a :: s.plus(a, s.zero) == a && s.plus(s.zero, a) == a)
    && (forall a, b, x, y :: s.plus(s.plus(a, b), s.plus(x, y)) == s.plus(s.plus(a, x), s.plus(b, y)))
  }

  function SumOf<R, A>(s: Summing<R, A>, rows: seq<R>): A {
    if rows == [] then s.zero else s.plus(SumOf(s, rows[..|rows| - 1]), s.one(rows[|rows| - 1]))
  }

  ghost function Pick<K>(ks: set<K>): (k: K)
    requires ks != {}
    ensures k in ks
  {
    var k :| k in ks; k
  }

  /** The sums of the groups in ks, added up. */
  ghost function SumOfGroups<K, R, A>(s: Summing<R, A>, ks: set<K>, keys: seq<K>, rows: seq<R>): A
    requires |keys| == |rows|
  {
    if ks == {} then s.zero
    else var k := Pick(ks); s.plus(SumOf(s, ValuesOf(keys, rows, k)), SumOfGroups(s, ks - {k}, keys, rows))
  }

  /** The rows whose key is in ks. */
  ghost function RowsIn<K, R>(ks: set<K>, keys: seq<K>, rows: seq<R>): seq<R>
    requires |keys| == |rows|
  {
    if keys == [] then []
    else
      var n := |keys| - 1;
      RowsIn(ks, keys[..n], rows[..n]) + if keys[n] in ks then [rows[n]] else []
  }

  lemma SumIfTaken<R, A(!new)>(s: Summing<R, A>, rows: seq<R>, taken: bool, r: R)
    requires Lawful(s)
    ensures SumOf(s, rows + if taken then [r] else []) == s.plus(SumOf(s, rows), if taken then s.one(r) else s.zero)
  {
    assert (rows + [r])[..|rows|] == rows && rows + [] == rows;
  }

  lemma {:induction false} SplitOneGroup<K, R, A(!new)>(s: Summing<R, A>, ks: set<K>, k: K, keys: seq<K>, rows: seq<R>)
    requires Lawful(s) && |keys| == |rows| && k in ks
    ensures SumOf(s, RowsIn(ks, keys, rows))
         == s.plus(SumOf(s, ValuesOf(keys, rows, k)), SumOf(s, RowsIn(ks - {k}, keys, rows)))
    decreases |keys|
  {
    if keys != [] {
      var n := |keys| - 1;
      var q, r := keys[n], rows[n];
      var all, group := RowsIn(ks, keys[..n], rows[..n]), ValuesOf(keys[..n], rows[..n], k);
      var rest := RowsIn(ks - {k}, keys[..n], rows[..n]);
      SplitOneGroup(s, ks, k, keys[..n], rows[..n]);
      SumIfTaken(s, all, q in ks, r);
      SumIfTaken(s, group, q == k, r);
      SumIfTaken(s, rest, q in ks - {k}, r);
      var x, y := if q == k then s.one(r) else s.zero, if q in ks - {k} then s.one(r) else s.zero;
      assert s.plus(x, y) == if q in ks then s.one(r) else s.zero;
      assert s.plus(s.plus(SumOf(s, group), SumOf(s, rest)), s.plus(x, y))
          == s.plus(s.plus(SumOf(s, group), x), s.plus(SumOf(s, rest), y));
    }
  }

  /** The sums of groups add up to the sum of their rows. */
  lemma {:induction false} GroupsAddUp<K, R, A(!new)>(s: Summing<R, A>, ks: set<K>, keys: seq<K>, rows: seq<R>)
    requires Lawful(s) && |keys| == |rows|
    ensures SumOfGroups(s, ks, keys, rows) == SumOf(s, RowsIn(ks, keys, rows))
    decreases ks
  {
    if ks == {} {
      NoRowsInNoKeys(keys, rows);
    } else {
      var k := Pick(ks);
      GroupsAddUp(s, ks - {k}, keys, rows);
      SplitOneGroup(s, ks, k, keys, rows);
    }
  }

  lemma {:induction false} NoRowsInNoKeys<K, R>(keys: seq<K>, rows: seq<R>)
    requires |keys| == |rows|
    ensures RowsIn({}, keys, rows) == []
    decreases |keys|
  {
    if keys != [] { NoRowsInNoKeys(keys[..|keys| - 1], rows[..|keys| - 1]); }
  }

  lemma {:induction false} AllRowsInAllKeys<K, R>(ks: set<K>, keys: seq<K>, rows: seq<R>)
    requires |keys| == |rows| && forall i :: 0 <= i < |keys| ==> keys[i] in ks
    ensures RowsIn(ks, keys, rows) == rows
    decreases |keys|
  {
    if keys != [] { AllRowsInAllKeys(ks, keys[..|keys| - 1], rows[..|keys| - 1]); }
  }

  // ---- The column sums and counts ----

  datatype Row = Row(v1: I64, v2: I64, v3: real)

  /** The three column sums and the row count of a group; integer sums wrap around. */
  datatype Totals = Totals(sum1: I64, sum2: I64, sum3: real, count: nat)

  const ZERO := Totals(0, 0, 0.0, 0)

  function Plus(a: Totals, b: Totals): Totals {
    Totals(AddWrapping(a.sum1, b.sum1), AddWrapping(a.sum2, b.sum2), a.sum3 + b.sum3, a.count + b.count)
  }

  function One(r: Row): Totals {
    Totals(r.v1, r.v2, r.v3, 1)
  }

  const TOTALS := Summing(ZERO, Plus, One)

  function AddRow(t: Totals, r: Row): Totals {
    Plus(t, One(r))
  }

  function TotalOf(rows: seq<Row>): Totals {
    SumOf(TOTALS, rows)
  }

  lemma PlusZero(a: Totals)
    ensures Plus(a, ZERO) == a && Plus(ZERO, a) == a
  {
    WrapFits(a.sum1);
    WrapFits(a.sum2);
  }

  lemma PlusRegroups(a: Totals, b: Totals, x: Totals, y: Totals)
    ensures Plus(Plus(a, b), Plus(x, y)) == Plus(Plus(a, x), Plus(b, y))
  {
    Regroup(a.sum1, b.sum1, x.sum1, y.sum1);
    Regroup(a.sum2, b.sum2, x.sum2, y.sum2);
  }

  lemma TotalsAreLawful()
    ensures Lawful(TOTALS)
  {
    forall a ensures Plus(a, ZERO) == a && Plus(ZERO, a) == a { PlusZero(a); }
    forall a, b, x, y ensures Plus(Plus(a, b), Plus(x, y)) == Plus(Plus(a, x), Plus(b, y)) { PlusRegroups(a, b, x, y); }
  }

  lemma {:induction false} FoldIsTotal(rows: seq<Row>)
    ensures Fold(ZERO, AddRow, rows) == TotalOf(rows)
    decreases |rows|
  {
    if rows != [] { FoldIsTotal(rows[..|rows| - 1]); }
  }

  /** The true sums of the three columns. */
  function TrueSums(rows: seq<Row>): (int, int, real) {
    if rows == [] then (0, 0, 0.0)
    else
      var t, r := TrueSums(rows[..|rows| - 1]), rows[|rows| - 1];
      (t.0 + r.v1, t.1 + r.v2, t.2 + r.v3)
  }

  /** The totals are those of the rows: integer sums modulo 2^64, the real sum, and the number of rows. */
  predicate AreTotals(t: Totals, rows: seq<Row>) {
    && t.sum1 == Wrap(TrueSums(rows).0) && t.sum2 == Wrap(TrueSums(rows).1)
    && t.sum3 == TrueSums(rows).2 && t.count == |rows|
  }

  lemma {:induction false} SumsWrap(rows: seq<Row>)
    ensures AreTotals(TotalOf(rows), rows)
    decreases |rows|
  {
    if rows != [] {
      var init, r := rows[..|rows| - 1], rows[|rows| - 1];
      SumsWrap(init);
      WrapAdds(TrueSums(init).0, r.v1);
      WrapAdds(TrueSums(init).1, r.v2);
    }
  }

  /** An integer sum is the true one exactly when that fits in 64 bits. */
  lemma SumsAreTrueIff(rows: seq<Row>)
    ensures TotalOf(rows).sum1 == TrueSums(rows).0 <==> -HALF <= TrueSums(rows).0 < HALF
    ensures TotalOf(rows).sum2 == TrueSums(rows).1 <==> -HALF <= TrueSums(rows).1 < HALF
  {
    SumsWrap(rows);
    WrapFits(TrueSums(rows).0);
    WrapFits(TrueSums(rows).1);
  }

  /** Sums and counts per group: each group's four totals are those of its own rows, and together they
      make up the totals of the whole table. */
  method TotalsBy<K(==, !new)>(keys: seq<K>, rows: seq<Row>) returns (m: map<K, Totals>)
    requires |keys| == |rows|
    ensures m.Keys == set k | k in keys
    ensures forall k :: k in m ==> AreTotals(m[k], ValuesOf(keys, rows, k))
    ensures forall k :: k in m ==> m[k] == TotalOf(ValuesOf(keys, rows, k))
    ensures SumOfGroups(TOTALS, m.Keys, keys, rows) == TotalOf(rows)
  {
    m := GroupFold(keys, rows, ZERO, AddRow);
    forall k | k in m
      ensures m[k] == TotalOf(ValuesOf(keys, rows, k)) && AreTotals(m[k], ValuesOf(keys, rows, k))
    {
      FoldIsTotal(ValuesOf(keys, rows, k));
      SumsWrap(ValuesOf(keys, rows, k));
    }
    GroupTotalsAddUp(m.Keys, keys, rows);
  }

  lemma GroupTotalsAddUp<K>(ks: set<K>, keys: seq<K>, rows: seq<Row>)
    requires |keys| == |rows| && forall i :: 0 <= i < |keys| ==> keys[i] in ks
    ensures SumOfGroups(TOTALS, ks, keys, rows) == TotalOf(rows)
  {
    TotalsAreLawful();
    GroupsAddUp(TOTALS, ks, keys, rows);
    AllRowsInAllKeys(ks, keys, rows);
  }

  // ---- Largest and smallest ----

  const I64_MIN: int := -HALF
  const I64_MAX: int := HALF - 1

  function Widen(range: (int, int), v: (int, int)): (int, int) {
    (if v.0 > range.0 then v.0 else range.0, if v.1 < range.1 then v.1 else range.1)
  }

  /** r.0 is the largest first component of vals, r.1 the smallest second one. */
  predicate IsRange(r: (int, int), vals: seq<(int, int)>) {
    && (forall v :: v in vals ==> v.0 <= r.0 && r.1 <= v.1)
    && (exists v :: v in vals && v.0 == r.0)
    && (exists v :: v in vals && v.1 == r.1)
  }

  lemma {:induction false} FoldIsRange(vals: seq<(int, int)>)
    requires vals != []
    requires forall v :: v in vals ==> I64_MIN <= v.0 && v.1 <= I64_MAX
    ensures IsRange(Fold((I64_MIN, I64_MAX), Widen, vals), vals)
    decreases |vals|
  {
    var init, v := vals[..|vals| - 1], vals[|vals| - 1];
    assert vals == init + [v];
    assert v in vals;
    if init != [] {
      FoldIsRange(init);
      var r := Fold((I64_MIN, I64_MAX), Widen, init);
      var a :| a in init && a.0 == r.0;
      var b :| b in init && b.1 == r.1;
      assert a in vals && b in vals;
    }
  }

  /** Per group, the largest first column and the smallest second column of its rows. */
  method RangeBy<K(==, !new)>(keys: seq<K>, vals: seq<(int, int)>) returns (m: map<K, (int, int)>)
    requires |keys| == |vals|
    requires forall i :: 0 <= i < |vals| ==> I64_MIN <= vals[i].0 && vals[i].1 <= I64_MAX
    ensures m.Keys == set k | k in keys
    ensures forall k :: k in m ==> IsRange(m[k], ValuesOf(keys, vals, k))
  {
    m := GroupFold(keys, vals, (I64_MIN, I64_MAX), Widen);
    forall k | k in m ensures IsRange(m[k], ValuesOf(keys, vals, k)) {
      ValuesAreRows(keys, vals, k);
      FoldIsRange(ValuesOf(keys, vals, k));
    }
  }

  lemma {:induction false} ValuesAreRows<K, V>(keys: seq<K>, vals: seq<V>, k: K)
    requires |keys| == |vals|
    ensures forall v :: v in ValuesOf(keys, vals, k) ==> v in vals
    decreases |keys|
  {
    if keys != [] { ValuesAreRows(keys[..|keys| - 1], vals[..|keys| - 1], k); }
  }
}
