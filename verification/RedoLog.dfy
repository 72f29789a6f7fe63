/** Replaying a redo log that lives in the store it protects. A log record is a value under a
    key prefix; an open record has data writes still to be made and is closed by rewriting it
    in place. */
module RedoLog {
  import opened Keys
  import opened Storage

  datatype Log<!V> = Log(
    prefix: Key,
    fits: (Key, V) -> bool,
    open: V -> bool,
    writes: V -> seq<Step<V>>,
    close: V -> V)

  /** The records of the log in a store. */
  function Table<V>(prefix: Key, st: Store<V>): Store<V> {
    st - (set k | k in st && !(prefix <= k))
  }

  /** Everything else in the store. */
  function Data<V>(prefix: Key, st: Store<V>): Store<V> {
    st - (set k | k in st && prefix <= k)
  }

  predicate DataOnly<V>(prefix: Key, steps: seq<Step<V>>) {
    forall i :: 0 <= i < |steps| ==> !(prefix <= steps[i].key)
  }

  lemma TouchOneKey<V>(prefix: Key, st: Store<V>, s: Step<V>)
    ensures prefix <= s.key ==>
      Table(prefix, Apply(st, s)) == Apply(Table(prefix, st), s) && Data(prefix, Apply(st, s)) == Data(prefix, st)
    ensures !(prefix <= s.key) ==>
      Table(prefix, Apply(st, s)) == Table(prefix, st) && Data(prefix, Apply(st, s)) == Apply(Data(prefix, st), s)
  {
  }

  /** Data writes leave the log alone and act on the data alone. */
  lemma {:induction false} RunData<V>(prefix: Key, st: Store<V>, steps: seq<Step<V>>)
    requires DataOnly(prefix, steps)
    ensures Table(prefix, Run(st, steps)) == Table(prefix, st)
    ensures Data(prefix, Run(st, steps)) == Run(Data(prefix, st), steps)
    decreases |steps|
  {
    if steps != [] {
      TouchOneKey(prefix, st, steps[0]);
      RunData(prefix, Apply(st, steps[0]), steps[1..]);
    }
  }

  /** A record fits its key; an open record writes data keys only, and closing it closes it. */
  predicate RecordOk<V>(log: Log<V>, k: Key, v: V) {
    && log.prefix <= k && log.fits(k, v)
    && (log.open(v) ==>
          DataOnly(log.prefix, log.writes(v)) && !log.open(log.close(v)) && log.fits(k, log.close(v)))
  }

  predicate TableOk<V>(log: Log<V>, t: Store<V>) {
    forall k :: k in t ==> RecordOk(log, k, t[k])
  }

  predicate AllClosed<V>(log: Log<V>, t: Store<V>) {
    forall k :: k in t ==> !log.open(t[k])
  }

  function ReplayOf<V>(log: Log<V>, k: Key, v: V): seq<Step<V>> {
    if log.open(v) then log.writes(v) + [Put(k, log.close(v))] else []
  }

  /** The replay of the listed records, in list order, as the table tells it. */
  function Replay<V>(log: Log<V>, t: Store<V>, keys: seq<Key>): seq<Step<V>>
    requires forall k :: k in keys ==> k in t
  {
    if keys == [] then []
    else
      var n := |keys| - 1;
      Replay(log, t, keys[..n]) + ReplayOf(log, keys[n], t[keys[n]])
  }

  predicate Distinct(keys: seq<Key>) {
    forall i, j :: 0 <= i < j < |keys| ==> keys[i] != keys[j]
  }

  predicate Listed<V>(t: Store<V>, keys: seq<Key>) {
    Distinct(keys) && forall k :: k in keys ==> k in t
  }

  /** The table t' is t with some of the listed open records closed. */
  predicate Advanced<V(==)>(log: Log<V>, t: Store<V>, t': Store<V>, keys: seq<Key>) {
    && t'.Keys == t.Keys
    && TableOk(log, t')
    && forall k :: k in t ==> t'[k] == t[k] || (k in keys && log.open(t[k]) && t'[k] == log.close(t[k]))
  }

  predicate ClosedAt<V>(log: Log<V>, t: Store<V>, keys: seq<Key>) {
    forall k :: k in keys ==> k in t && !log.open(t[k])
  }

  lemma {:induction false} ReplayOfClosed<V>(log: Log<V>, t: Store<V>, keys: seq<Key>)
    requires ClosedAt(log, t, keys)
    ensures Replay(log, t, keys) == []
  {
    if keys != [] {
      ReplayOfClosed(log, t, keys[..|keys| - 1]);
    }
  }

  /** One record, replayed in full or cut after j steps. */
  lemma ReplayOne<V>(log: Log<V>, st: Store<V>, k: Key, j: nat)
    requires TableOk(log, Table(log.prefix, st)) && k in Table(log.prefix, st)
    requires j <= |ReplayOf(log, k, st[k])|
    ensures var t := Table(log.prefix, st);
      var r := ReplayOf(log, k, st[k]);
      var st' := Run(st, r[..j]);
      && Table(log.prefix, st') == (if j == |r| && log.open(st[k]) then t[k := log.close(st[k])] else t)
      && (log.open(st[k]) && j < |r| ==> Data(log.prefix, st') == Run(Data(log.prefix, st), log.writes(st[k])[..j]))
      && (log.open(st[k]) && j == |r| ==> Data(log.prefix, st') == Run(Data(log.prefix, st), log.writes(st[k])))
  {
    var r := ReplayOf(log, k, st[k]);
    if log.open(st[k]) {
      var w := log.writes(st[k]);
      assert Table(log.prefix, st)[k] == st[k];
      if j < |r| {
        assert r[..j] == w[..j];
        RunData(log.prefix, st, w[..j]);
      } else {
        assert r[..j] == w + [Put(k, log.close(st[k]))];
        RunData(log.prefix, st, w);
        RunSnoc(st, w, Put(k, log.close(st[k])));
        TouchOneKey(log.prefix, Run(st, w), Put(k, log.close(st[k])));
      }
    } else {
      assert r[..j] == [];
    }
  }

  /** Cut a replay after j steps: replaying what the table then says reaches the same store. */
  ghost predicate Resumes<V>(log: Log<V>, st: Store<V>, keys: seq<Key>, j: nat)
    requires Listed(Table(log.prefix, st), keys)
    requires j <= |Replay(log, Table(log.prefix, st), keys)|
  {
    var t := Table(log.prefix, st);
    var st' := Run(st, Replay(log, t, keys)[..j]);
    var t' := Table(log.prefix, st');
    && Advanced(log, t, t', keys)
    && Run(st', Replay(log, t', keys)) == Run(st, Replay(log, t, keys))
    && (j == |Replay(log, t, keys)| ==> ClosedAt(log, t', keys))
  }

  lemma {:induction false} ResumeReplay<V>(log: Log<V>, st: Store<V>, keys: seq<Key>, j: nat)
    requires TableOk(log, Table(log.prefix, st)) && Listed(Table(log.prefix, st), keys)
    requires j <= |Replay(log, Table(log.prefix, st), keys)|
    ensures Resumes(log, st, keys, j)
    decreases |keys|
  {
    var t := Table(log.prefix, st);
    if keys == [] {
      assert Replay(log, t, keys)[..j] == [];
    } else {
      var init := keys[..|keys| - 1];
      var f := Replay(log, t, init);
      if j < |f| {
        ResumeReplay(log, st, init, j);
        ResumeBeforeLast(log, st, keys, j);
      } else {
        ResumeReplay(log, st, init, |f|);
        ResumeAfterInit(log, st, keys, j);
      }
    }
  }

  lemma CutAfter<T>(f: seq<T>, r: seq<T>, j: nat)
    requires |f| <= j <= |f| + |r|
    ensures f[..|f|] == f && (f + r)[..j] == f + r[..j - |f|]
  {
  }

  /** The cut fell in the last record of the list. */
  lemma ResumeAfterInit<V>(log: Log<V>, st: Store<V>, keys: seq<Key>, j: nat)
    requires keys != [] && TableOk(log, Table(log.prefix, st)) && Listed(Table(log.prefix, st), keys)
    requires var f := |Replay(log, Table(log.prefix, st), keys[..|keys| - 1])|;
      f <= j <= |Replay(log, Table(log.prefix, st), keys)| && Resumes(log, st, keys[..|keys| - 1], f)
    ensures Resumes(log, st, keys, j)
  {
    var t, n := Table(log.prefix, st), |keys| - 1;
    var init, last := keys[..n], keys[n];
    var f, r := Replay(log, t, init), ReplayOf(log, last, t[last]);
    CutAfter(f, r, j);
    var mid := Run(st, f);
    assert last !in init;
    assert mid[last] == Table(log.prefix, mid)[last] == t[last];
    RunConcat(st, f, r[..j - |f|]);
    RunConcat(st, f, r);
    ResumeInLast(log, mid, keys, j - |f|);
  }

  /** The cut fell before the last record of the list. */
  lemma ResumeBeforeLast<V>(log: Log<V>, st: Store<V>, keys: seq<Key>, j: nat)
    requires keys != [] && Listed(Table(log.prefix, st), keys)
    requires j < |Replay(log, Table(log.prefix, st), keys[..|keys| - 1])|
    requires Resumes(log, st, keys[..|keys| - 1], j)
    ensures j < |Replay(log, Table(log.prefix, st), keys)| && Resumes(log, st, keys, j)
  {
    var t, n := Table(log.prefix, st), |keys| - 1;
    var init, last := keys[..n], keys[n];
    var f, r := Replay(log, t, init), ReplayOf(log, last, t[last]);
    assert last !in init;
    assert (f + r)[..j] == f[..j];
    var st' := Run(st, f[..j]);
    var t' := Table(log.prefix, st');
    assert t'[last] == t[last];
    RunConcat(st, f, r);
    RunConcat(st', Replay(log, t', init), r);
  }

  /** The records before the last are closed and the last one is cut after j steps. */
  lemma ResumeInLast<V>(log: Log<V>, st: Store<V>, keys: seq<Key>, j: nat)
    requires keys != [] && TableOk(log, Table(log.prefix, st)) && Listed(Table(log.prefix, st), keys)
    requires ClosedAt(log, Table(log.prefix, st), keys[..|keys| - 1])
    requires var last := keys[|keys| - 1]; j <= |ReplayOf(log, last, st[last])|
    ensures var last := keys[|keys| - 1];
      var r := ReplayOf(log, last, st[last]);
      var st' := Run(st, r[..j]);
      var t, t' := Table(log.prefix, st), Table(log.prefix, st');
      && Advanced(log, t, t', keys)
      && Run(st', Replay(log, t', keys)) == Run(st, r)
      && (j == |r| ==> ClosedAt(log, t', keys))
  {
    var n := |keys| - 1;
    var init, last := keys[..n], keys[n];
    var r := ReplayOf(log, last, st[last]);
    var st' := Run(st, r[..j]);
    var t, t' := Table(log.prefix, st), Table(log.prefix, st');
    ReplayOne(log, st, last, j);
    assert last !in init;
    if j == |r| {
      assert r[..j] == r;
      assert ClosedAt(log, t', keys);
      ReplayOfClosed(log, t', keys);
    } else {
      ReplayOfClosed(log, t, init);
      assert Replay(log, t', keys) == r;
      ReplayOverPrefix(st, r, j);
    }
  }

  // ---- the whole log, in scan order ----

  function LogKeys<V>(prefix: Key, st: Store<V>): (ks: seq<Key>)
    ensures StrictlyAscending(ks) && Listed(Table(prefix, st), ks)
    ensures forall k :: k in ks <==> k in Table(prefix, st)
  {
    AscendingIsDistinct(ScanKeys(st, prefix));
    ScanKeys(st, prefix)
  }

  function RecoverSteps<V>(log: Log<V>, st: Store<V>): seq<Step<V>> {
    Replay(log, Table(log.prefix, st), LogKeys(log.prefix, st))
  }

  function Recovered<V>(log: Log<V>, st: Store<V>): Store<V> {
    Run(st, RecoverSteps(log, st))
  }

  /** A recovery cut after any j steps, then run again to the end, reaches the store that one
      uninterrupted recovery reaches; at its end no record is open. */
  lemma RecoverySurvivesCrash<V>(log: Log<V>, st: Store<V>, j: nat)
    requires TableOk(log, Table(log.prefix, st)) && j <= |RecoverSteps(log, st)|
    ensures var st' := Run(st, RecoverSteps(log, st)[..j]);
      var t, t' := Table(log.prefix, st), Table(log.prefix, st');
      && Advanced(log, t, t', LogKeys(log.prefix, st))
      && Recovered(log, st') == Recovered(log, st)
      && (j == |RecoverSteps(log, st)| ==> AllClosed(log, t'))
  {
    var keys := LogKeys(log.prefix, st);
    ResumeReplay(log, st, keys, j);
    var st' := Run(st, RecoverSteps(log, st)[..j]);
    AscendingIsUnique(keys, LogKeys(log.prefix, st'));
  }

  lemma ClosedNeedsNoRecovery<V>(log: Log<V>, st: Store<V>)
    requires AllClosed(log, Table(log.prefix, st))
    ensures RecoverSteps(log, st) == [] && Recovered(log, st) == st
  {
    ReplayOfClosed(log, Table(log.prefix, st), LogKeys(log.prefix, st));
  }

  // ---- recovery depends on the open records only ----

  function Open<V>(log: Log<V>, t: Store<V>, keys: seq<Key>): (os: seq<Key>)
    requires forall k :: k in keys ==> k in t
    ensures forall k :: k in os <==> k in keys && log.open(t[k])
  {
    if keys == [] then []
    else
      var n := |keys| - 1;
      Open(log, t, keys[..n]) + if log.open(t[keys[n]]) then [keys[n]] else []
  }

  lemma {:induction false} OpenAscends<V>(log: Log<V>, t: Store<V>, keys: seq<Key>)
    requires (forall k :: k in keys ==> k in t) && StrictlyAscending(keys)
    ensures StrictlyAscending(Open(log, t, keys))
  {
    if keys != [] {
      var n := |keys| - 1;
      OpenAscends(log, t, keys[..n]);
      var os := Open(log, t, keys[..n]);
      forall i | 0 <= i < |os| ensures Less(os[i], keys[n]) {
        assert os[i] in keys[..n];
      }
    }
  }

  /** If the open keys so far replay alike, so do they with one more key. */
  lemma ReplayOneMore<V>(log: Log<V>, t: Store<V>, keys: seq<Key>, os: seq<Key>, k: Key)
    requires (forall q :: q in keys ==> q in t) && (forall q :: q in os ==> q in t) && k in t
    requires Replay(log, t, os) == Replay(log, t, keys)
    ensures Replay(log, t, os + if log.open(t[k]) then [k] else []) == Replay(log, t, keys + [k])
  {
    assert (keys + [k])[..|keys|] == keys && (os + [k])[..|os|] == os && os + [] == os;
  }

  lemma {:induction false} ReplayOfOpen<V>(log: Log<V>, t: Store<V>, keys: seq<Key>)
    requires forall k :: k in keys ==> k in t
    ensures Replay(log, t, Open(log, t, keys)) == Replay(log, t, keys)
  {
    if keys != [] {
      var n := |keys| - 1;
      assert keys == keys[..n] + [keys[n]];
      ReplayOfOpen(log, t, keys[..n]);
      ReplayOneMore(log, t, keys[..n], Open(log, t, keys[..n]), keys[n]);
    }
  }

  lemma {:induction false} ReplayAgrees<V>(log: Log<V>, t: Store<V>, t': Store<V>, keys: seq<Key>)
    requires forall k :: k in keys ==> k in t && k in t' && t[k] == t'[k]
    ensures Replay(log, t, keys) == Replay(log, t', keys)
  {
    if keys != [] { ReplayAgrees(log, t, t', keys[..|keys| - 1]); }
  }

  predicate SameOpen<V(==)>(log: Log<V>, t: Store<V>, t': Store<V>) {
    && (forall k :: k in t && log.open(t[k]) ==> k in t' && t'[k] == t[k])
    && (forall k :: k in t' && log.open(t'[k]) ==> k in t && t'[k] == t[k])
  }

  lemma SameOpenRecoversAlike<V>(log: Log<V>, st: Store<V>, st': Store<V>)
    requires SameOpen(log, Table(log.prefix, st), Table(log.prefix, st'))
    ensures RecoverSteps(log, st) == RecoverSteps(log, st')
  {
    var t, t' := Table(log.prefix, st), Table(log.prefix, st');
    var ks, ks' := LogKeys(log.prefix, st), LogKeys(log.prefix, st');
    OpenAscends(log, t, ks);
    OpenAscends(log, t', ks');
    ReplayOfOpen(log, t, ks);
    ReplayOfOpen(log, t', ks');
    AscendingIsUnique(Open(log, t, ks), Open(log, t', ks'));
    ReplayAgrees(log, t, t', Open(log, t, ks));
  }

  predicate OnlyOpen<V>(log: Log<V>, t: Store<V>, k: Key) {
    k in t && log.open(t[k]) && forall k' :: k' in t && log.open(t[k']) ==> k' == k
  }

  lemma OnlyOneIsOpen<V>(log: Log<V>, t: Store<V>, keys: seq<Key>, k: Key)
    requires StrictlyAscending(keys) && (forall q :: q in keys <==> q in t) && OnlyOpen(log, t, k)
    ensures Open(log, t, keys) == [k]
  {
    OpenAscends(log, t, keys);
    AscendingIsUnique(Open(log, t, keys), [k]);
  }

  lemma ReplayAlone<V>(log: Log<V>, t: Store<V>, k: Key)
    requires k in t && log.open(t[k])
    ensures Replay(log, t, [k]) == ReplayOf(log, k, t[k])
  {
    assert [k][..0] == [];
  }

  lemma OneOpenRecord<V>(log: Log<V>, st: Store<V>, k: Key)
    requires OnlyOpen(log, Table(log.prefix, st), k)
    ensures RecoverSteps(log, st) == ReplayOf(log, k, st[k])
  {
    var t, ks := Table(log.prefix, st), LogKeys(log.prefix, st);
    ReplayOfOpen(log, t, ks);
    OnlyOneIsOpen(log, t, ks, k);
    ReplayAlone(log, t, k);
  }

  lemma OneOpenRecovered<V>(log: Log<V>, st: Store<V>, k: Key)
    requires TableOk(log, Table(log.prefix, st)) && OnlyOpen(log, Table(log.prefix, st), k)
    ensures k in st && Data(log.prefix, Recovered(log, st)) == Run(Data(log.prefix, st), log.writes(st[k]))
  {
    OneOpenRecord(log, st, k);
    var r := ReplayOf(log, k, st[k]);
    ReplayOne(log, st, k, |r|);
    assert r[..|r|] == r;
  }
}
