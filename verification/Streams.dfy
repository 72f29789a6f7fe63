/** Numbered records under one key prefix. The number is written as sixteen hexadecimal digits,
    so a prefix scan lists the records in number order. */
module Streams {
  import opened Keys
  import opened Storage

  function Slot(p: Key, n: nat): Key {
    p + SeqText(n)
  }

  lemma SlotOrder(p: Key, m: nat, n: nat)
    requires m < n <= U64_MAX
    ensures Less(Slot(p, m), Slot(p, n))
  {
    SeqTextKeepsOrder(m, n);
    LessAfterPrefix(p, SeqText(m), SeqText(n));
  }

  lemma SlotIsInjective(p: Key, m: nat, n: nat)
    requires m <= U64_MAX && n <= U64_MAX && Slot(p, m) == Slot(p, n)
    ensures m == n
  {
    if m < n { SlotOrder(p, m, n); }
    if n < m { SlotOrder(p, n, m); }
    LessTrichotomy(Slot(p, m), Slot(p, n));
  }

  ghost predicate Numbered<V>(xs: seq<(nat, V)>) {
    && (forall i :: 0 <= i < |xs| ==> xs[i].0 <= U64_MAX)
    && (forall i, j :: 0 <= i < j < |xs| ==> xs[i].0 < xs[j].0)
  }

  predicate SlotOf<V>(p: Key, xs: seq<(nat, V)>, k: Key, i: nat) {
    i < |xs| && k == Slot(p, xs[i].0)
  }

  /** The keys under the prefix are the slots of the list, and hold its records. */
  ghost predicate IsStream<V>(st: Store<V>, p: Key, xs: seq<(nat, V)>) {
    && Numbered(xs)
    && (forall i :: 0 <= i < |xs| ==> Slot(p, xs[i].0) in st && st[Slot(p, xs[i].0)] == xs[i].1)
    && (forall k :: k in st && p <= k ==> exists i: nat :: SlotOf(p, xs, k, i))
  }

  function Slots<V>(p: Key, xs: seq<(nat, V)>): (ks: seq<Key>)
    ensures |ks| == |xs| && forall i :: 0 <= i < |ks| ==> ks[i] == Slot(p, xs[i].0)
  {
    seq(|xs|, i requires 0 <= i < |xs| => Slot(p, xs[i].0))
  }

  /** A scan lists the whole stream, in number order. */
  lemma ScanListsStream<V>(st: Store<V>, p: Key, xs: seq<(nat, V)>)
    requires IsStream(st, p, xs)
    ensures |ScanResult(st, p)| == |xs|
    ensures forall i :: 0 <= i < |xs| ==> ScanResult(st, p)[i] == (Slot(p, xs[i].0), xs[i].1)
  {
    var ks := Slots(p, xs);
    forall i, j | 0 <= i < j < |ks| ensures Less(ks[i], ks[j]) {
      SlotOrder(p, xs[i].0, xs[j].0);
    }
    forall k ensures k in ks <==> k in ScanKeys(st, p) {
      if k in ScanKeys(st, p) {
        var i: nat :| SlotOf(p, xs, k, i);
        assert k == ks[i];
      }
    }
    AscendingIsUnique(ks, ScanKeys(st, p));
  }

  /** A new record with a number above all others goes to the end. */
  lemma StreamAppend<V>(st: Store<V>, p: Key, xs: seq<(nat, V)>, n: nat, v: V)
    requires IsStream(st, p, xs) && n <= U64_MAX && forall i :: 0 <= i < |xs| ==> xs[i].0 < n
    ensures IsStream(st[Slot(p, n) := v], p, xs + [(n, v)])
  {
    var st', ys := st[Slot(p, n) := v], xs + [(n, v)];
    forall i | 0 <= i < |ys| ensures Slot(p, ys[i].0) in st' && st'[Slot(p, ys[i].0)] == ys[i].1 {
      if i < |xs| && Slot(p, xs[i].0) == Slot(p, n) { SlotIsInjective(p, xs[i].0, n); }
    }
    forall k | k in st' && p <= k ensures exists i: nat :: SlotOf(p, ys, k, i) {
      if k == Slot(p, n) {
        assert SlotOf(p, ys, k, |xs|);
      } else {
        var i: nat :| SlotOf(p, xs, k, i);
        assert SlotOf(p, ys, k, i);
      }
    }
  }

  /** Stores that agree under the prefix hold the same stream. */
  lemma StreamElsewhere<V>(st: Store<V>, st': Store<V>, p: Key, xs: seq<(nat, V)>)
    requires IsStream(st, p, xs) && forall k :: p <= k ==> SameAt(st, st', k)
    ensures IsStream(st', p, xs)
  {
    forall i | 0 <= i < |xs| ensures Slot(p, xs[i].0) in st' && st'[Slot(p, xs[i].0)] == xs[i].1 {
      assert SameAt(st, st', Slot(p, xs[i].0));
    }
    forall k | k in st' && p <= k ensures exists i: nat :: SlotOf(p, xs, k, i) {
      assert SameAt(st, st', k);
    }
  }

  /** Without the keys of its first records a stream is the rest of it. */
  lemma StreamSuffix<V>(st: Store<V>, ks: set<Key>, p: Key, xs: seq<(nat, V)>, d: nat)
    requires IsStream(st, p, xs) && d <= |xs|
    requires forall i :: 0 <= i < |xs| ==> (Slot(p, xs[i].0) in ks <==> i < d)
    ensures IsStream(st - ks, p, xs[d..])
  {
    forall k | k in st - ks && p <= k ensures exists i: nat :: SlotOf(p, xs[d..], k, i) {
      var i: nat :| SlotOf(p, xs, k, i);
      assert SlotOf(p, xs[d..], k, i - d);
    }
  }

  /** A number is stored exactly when it is on the list. */
  lemma StreamLookup<V>(st: Store<V>, p: Key, xs: seq<(nat, V)>, n: nat)
    requires IsStream(st, p, xs) && n <= U64_MAX
    ensures Slot(p, n) in st <==> exists i :: 0 <= i < |xs| && xs[i].0 == n
    ensures forall i :: 0 <= i < |xs| && xs[i].0 == n ==> Slot(p, n) in st && st[Slot(p, n)] == xs[i].1
  {
    if Slot(p, n) in st {
      var i: nat :| SlotOf(p, xs, Slot(p, n), i);
      SlotIsInjective(p, n, xs[i].0);
    }
  }

  predicate HasNumber<V>(st: Store<V>, p: Key, n: nat) {
    n <= U64_MAX && Slot(p, n) in st
  }

  /** The last key of a scan is the slot of n exactly when no larger number is stored. */
  lemma LastSlotIff<V>(st: Store<V>, p: Key, n: nat)
    requires HasNumber(st, p, n)
    requires forall k :: k in st && p <= k ==> exists m: nat :: HasNumber(st, p, m) && k == Slot(p, m)
    ensures var keys := ScanKeys(st, p);
      keys != [] && (keys[|keys| - 1] == Slot(p, n) <==> forall m: nat :: HasNumber(st, p, m) ==> m <= n)
  {
    assert Slot(p, n) in ScanKeys(st, p);
    var top := TopNumber(st, p);
    SlotOrderIff(p, n, top);
  }

  lemma SlotOrderIff(p: Key, m: nat, n: nat)
    requires m <= U64_MAX && n <= U64_MAX
    ensures m <= n <==> Slot(p, m) == Slot(p, n) || Less(Slot(p, m), Slot(p, n))
    ensures Slot(p, m) == Slot(p, n) <==> m == n
  {
    if m < n { SlotOrder(p, m, n); }
    if n < m { SlotOrder(p, n, m); }
    LessTrichotomy(Slot(p, m), Slot(p, n));
  }

  lemma TopNumber<V>(st: Store<V>, p: Key) returns (top: nat)
    requires ScanKeys(st, p) != []
    requires forall k :: k in st && p <= k ==> exists m: nat :: HasNumber(st, p, m) && k == Slot(p, m)
    ensures HasNumber(st, p, top) && ScanKeys(st, p)[|ScanKeys(st, p)| - 1] == Slot(p, top)
    ensures forall m: nat :: HasNumber(st, p, m) ==> m <= top
  {
    var keys := ScanKeys(st, p);
    var last := keys[|keys| - 1];
    assert last in keys;
    top :| HasNumber(st, p, top) && last == Slot(p, top);
    forall m: nat | HasNumber(st, p, m) ensures m <= top {
      assert Slot(p, m) in keys;
      SlotOrderIff(p, m, top);
    }
  }
}
