/** The two largest values per group, kept in a buffer of at most three. */
module TopTwo {
  import opened Aggregation

  /** v placed before the first value it is at least as large as. */
  function Insert(v: real, s: seq<real>): (r: seq<real>)
    ensures |r| == |s| + 1
  {
    if s == [] || v >= s[0] then [v] + s else [s[0]] + Insert(v, s[1..])
  }

  /** The values in descending order. */
  function SortDesc(s: seq<real>): (r: seq<real>)
    ensures |r| == |s|
  {
    if s == [] then [] else Insert(s[|s| - 1], SortDesc(s[..|s| - 1]))
  }

  predicate Descends(s: seq<real>) {
    forall i, j :: 0 <= i < j < |s| ==> s[i] >= s[j]
  }

  lemma {:induction false} InsertAdds(v: real, s: seq<real>)
    ensures multiset(Insert(v, s)) == multiset(s) + multiset{v}
    decreases |s|
  {
    if s != [] && v < s[0] {
      InsertAdds(v, s[1..]);
      assert s == [s[0]] + s[1..];
    }
  }

  lemma {:induction false} InsertDescends(v: real, s: seq<real>)
    requires Descends(s)
    ensures Descends(Insert(v, s))
    decreases |s|
  {
    if s != [] && v < s[0] {
      var rest := Insert(v, s[1..]);
      InsertDescends(v, s[1..]);
      assert rest[0] == v || rest[0] == s[1];
      assert forall j :: 0 <= j < |rest| ==> rest[0] >= rest[j];
    }
  }

  /** SortDesc gives a descending arrangement of exactly its values. */
  lemma {:induction false} SortDescSorts(s: seq<real>)
    ensures Descends(SortDesc(s)) && multiset(SortDesc(s)) == multiset(s)
    decreases |s|
  {
    if s != [] {
      SortDescSorts(s[..|s| - 1]);
      InsertDescends(s[|s| - 1], SortDesc(s[..|s| - 1]));
      InsertAdds(s[|s| - 1], SortDesc(s[..|s| - 1]));
      assert s == s[..|s| - 1] + [s[|s| - 1]];
    }
  }

  function Two(s: seq<real>): seq<real> {
    if |s| <= 2 then s else s[..2]
  }

  /** The two largest values, or all of fewer than two. */
  function Top(s: seq<real>): seq<real> {
    Two(SortDesc(s))
  }

  lemma InsertKeepsTwo(v: real, s: seq<real>)
    ensures Two(Insert(v, s)) == Two(Insert(v, Two(s)))
  {
    if |s| > 2 {
      var t := s[2..];
      assert s == [s[0], s[1]] + t && s[1..] == [s[1]] + t && s[1..][1..] == t;
      assert Two(s)[1..] == [s[1]] && Two(s)[1..][1..] == [];
    }
  }

  lemma SortTwo(s: seq<real>)
    requires |s| <= 2 && Descends(s)
    ensures SortDesc(s) == s
  {
    if |s| == 2 {
      assert s[..1] == [s[0]] && s[..1][..0] == [];
      assert SortDesc(s[..1]) == [s[0]];
      assert s[0] >= s[1] && Insert(s[1], [s[0]]) == [s[0], s[1]];
    } else if |s| == 1 {
      assert s[..0] == [];
    }
  }

  /** Sorting what was kept and keeping two again changes nothing. */
  lemma TopOfTop(s: seq<real>)
    ensures Top(Top(s)) == Top(s)
  {
    SortDescSorts(s);
    SortTwo(Top(s));
  }

  /** The two largest after one more value depend only on the two largest before it. */
  lemma TopAfter(s: seq<real>, v: real)
    ensures Top(s + [v]) == Top(Top(s) + [v])
  {
    assert (s + [v])[..|s|] == s && (Top(s) + [v])[..|Top(s)|] == Top(s);
    SortDescSorts(s);
    SortTwo(Top(s));
    InsertKeepsTwo(v, SortDesc(s));
  }

  /** One row: push the value, and past three values keep the two largest. */
  function Push(buf: seq<real>, v: real): seq<real> {
    var grown := buf + [v];
    if |grown| > 3 then SortDesc(grown)[..2] else grown
  }

  /** The buffer of a group holds at most three of its values, with the two largest among them. */
  predicate Holds(buf: seq<real>, group: seq<real>) {
    && |buf| <= 3
    && (|buf| < 2 ==> buf == group)
    && |group| >= |buf|
    && multiset(buf) <= multiset(group)
    && Top(buf) == Top(group)
  }

  lemma PushKeepsTop(buf: seq<real>, v: real)
    ensures Top(Push(buf, v)) == Top(buf + [v])
    ensures multiset(Push(buf, v)) <= multiset(buf + [v])
  {
    var grown := buf + [v];
    SortDescSorts(grown);
    if |grown| > 3 {
      TopOfTop(grown);
      var sorted := SortDesc(grown);
      assert sorted == sorted[..2] + sorted[2..];
    }
  }

  lemma PushHolds(buf: seq<real>, group: seq<real>, v: real)
    requires Holds(buf, group)
    ensures Holds(Push(buf, v), group + [v])
  {
    SortDescSorts(buf + [v]);
    PushKeepsTop(buf, v);
    TopAfter(buf, v);
    TopAfter(group, v);
  }

  /** A held buffer contains the two largest values of its group as a multiset, and yields as many
      rows as the group has, up to two. */
  lemma HeldTop(buf: seq<real>, group: seq<real>)
    requires Holds(buf, group)
    ensures multiset(Top(group)) <= multiset(buf)
    ensures |Two(buf)| == |Two(group)| == |Top(group)|
  {
    SortDescSorts(buf);
    SortDescSorts(group);
    var sorted := SortDesc(buf);
    assert sorted == Two(sorted) + sorted[|Two(sorted)|..];
  }

  /** The sum over the groups in ks of min(group size, 2). */
  ghost function RowCount<K>(ks: set<K>, keys: seq<K>, vals: seq<real>): nat
    requires |keys| == |vals|
  {
    if ks == {} then 0
    else var k := Pick(ks); |Two(ValuesOf(keys, vals, k))| + RowCount(ks - {k}, keys, vals)
  }

  /** The sum does not depend on the order in which the groups are visited. */
  lemma {:induction false} RowCountRemove<K>(ks: set<K>, k: K, keys: seq<K>, vals: seq<real>)
    requires |keys| == |vals| && k in ks
    ensures RowCount(ks, keys, vals) == |Two(ValuesOf(keys, vals, k))| + RowCount(ks - {k}, keys, vals)
    decreases ks
  {
    var p := Pick(ks);
    if p != k {
      RowCountRemove(ks - {p}, k, keys, vals);
      RowCountRemove(ks - {k}, p, keys, vals);
      assert ks - {p} - {k} == ks - {k} - {p};
    }
  }

  /** Over every pass, a buffer that takes the values of its group one by one holds them. */
  lemma {:induction false} FoldHolds(group: seq<real>)
    ensures Holds(Fold([], Push, group), group)
    decreases |group|
  {
    if group != [] {
      var init, v := group[..|group| - 1], group[|group| - 1];
      assert group == init + [v];
      FoldHolds(init);
      PushHolds(Fold([], Push, init), init, v);
    }
  }

  /** The whole query: the buffers, and the number of result rows. */
  method LargestTwo<K(==, !new)>(keys: seq<K>, vals: seq<real>) returns (m: map<K, seq<real>>, rows: nat)
    requires |keys| == |vals|
    ensures m.Keys == set k | k in keys
    ensures forall k :: k in m ==> |m[k]| <= 3 && multiset(Top(ValuesOf(keys, vals, k))) <= multiset(m[k])
    ensures rows == RowCount(m.Keys, keys, vals)
  {
    m := GroupFold(keys, vals, [], Push);
    forall k | k in m
      ensures Holds(m[k], ValuesOf(keys, vals, k)) && multiset(Top(ValuesOf(keys, vals, k))) <= multiset(m[k])
    {
      FoldHolds(ValuesOf(keys, vals, k));
      HeldTop(m[k], ValuesOf(keys, vals, k));
    }
    rows := 0;
    var ks := m.Keys;
    while ks != {}
      invariant ks <= m.Keys && rows + RowCount(ks, keys, vals) == RowCount(m.Keys, keys, vals)
      decreases ks
    {
      var k :| k in ks;
      HeldTop(m[k], ValuesOf(keys, vals, k));
      RowCountRemove(ks, k, keys, vals);
      rows := rows + |Two(m[k])|;
      ks := ks - {k};
    }
  }
}
