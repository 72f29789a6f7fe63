/** Attempts made on a redo log without recovering first: what a later recovery then leaves, with any
    number of open records. */
module LogLimits {
  import opened Keys
  import opened Storage
  import opened Overlaps
  import opened RedoLog
  import opened LogRuns

  // ---- what a recovery makes ----

  /** The open records, in the order in which a recovery replays them. */
  function OpenKeys<V>(log: Log<V>, t: Store<V>): (ks: seq<Key>)
    ensures StrictlyAscending(ks) && forall k :: k in ks <==> k in t && log.open(t[k])
  {
    Ascending(set k | k in t && log.open(t[k]))
  }

  function WritesOfAll<V>(log: Log<V>, t: Store<V>, keys: seq<Key>): seq<Step<V>>
    requires forall k :: k in keys ==> k in t
  {
    if keys == [] then []
    else
      var n := |keys| - 1;
      WritesOfAll(log, t, keys[..n]) + log.writes(t[keys[n]])
  }

  /** The writes of the open records, record by record in ascending order of their keys. */
  function Replayed<V>(log: Log<V>, t: Store<V>): seq<Step<V>> {
    WritesOfAll(log, t, OpenKeys(log, t))
  }

  lemma {:induction false} DataPartConcat<V>(prefix: Key, a: seq<Step<V>>, b: seq<Step<V>>)
    ensures DataPart(prefix, a + b) == DataPart(prefix, a) + DataPart(prefix, b)
    decreases |a|
  {
    if a == [] {
      assert a + b == b;
    } else {
      var first := if prefix <= a[0].key then [] else [a[0]];
      assert (a + b)[1..] == a[1..] + b;
      DataPartConcat(prefix, a[1..], b);
      assert DataPart(prefix, a) == first + DataPart(prefix, a[1..]);
    }
  }

  lemma {:induction false} DataOnlyIsData<V>(prefix: Key, steps: seq<Step<V>>)
    requires DataOnly(prefix, steps)
    ensures DataPart(prefix, steps) == steps
    decreases |steps|
  {
    if steps != [] {
      DataOnlyIsData(prefix, steps[1..]);
      assert steps == [steps[0]] + steps[1..];
    }
  }

  lemma ReplayOfData<V>(log: Log<V>, k: Key, v: V)
    requires RecordOk(log, k, v) && log.open(v)
    ensures DataPart(log.prefix, ReplayOf(log, k, v)) == log.writes(v)
  {
    var w, last := log.writes(v), [Put(k, log.close(v))];
    DataPartConcat(log.prefix, w, last);
    DataOnlyIsData(log.prefix, w);
    assert DataPart(log.prefix, last) == [] + DataPart(log.prefix, last[1..]);
  }

  lemma {:induction false} ReplayData<V>(log: Log<V>, t: Store<V>, keys: seq<Key>)
    requires TableOk(log, t) && forall k :: k in keys ==> k in t && log.open(t[k])
    ensures DataPart(log.prefix, Replay(log, t, keys)) == WritesOfAll(log, t, keys)
    decreases |keys|
  {
    if keys != [] {
      var n := |keys| - 1;
      ReplayData(log, t, keys[..n]);
      DataPartConcat(log.prefix, Replay(log, t, keys[..n]), ReplayOf(log, keys[n], t[keys[n]]));
      ReplayOfData(log, keys[n], t[keys[n]]);
    }
  }

  /** A recovery makes the writes of the open records in ascending order of their keys. */
  lemma RecoveredData<V>(log: Log<V>, st: Store<V>)
    requires TableOk(log, Table(log.prefix, st))
    ensures Data(log.prefix, Recovered(log, st)) == Run(Data(log.prefix, st), Replayed(log, Table(log.prefix, st)))
  {
    var t, keys := Table(log.prefix, st), LogKeys(log.prefix, st);
    RunSplits(log.prefix, st, RecoverSteps(log, st));
    OpenAscends(log, t, keys);
    ReplayOfOpen(log, t, keys);
    AscendingIsUnique(Open(log, t, keys), OpenKeys(log, t));
    ReplayData(log, t, OpenKeys(log, t));
  }

  // ---- attempts, each cut anywhere ----

  predicate AllAttempts<V(==)>(log: Log<V>, es: seq<Event<V>>) {
    forall i :: 0 <= i < |es| ==> es[i].Attempt? && AttemptOk(log, es[i])
  }

  /** The store after attempts, each performed up to its own `done`. */
  function AfterEach<V(==)>(log: Log<V>, st: Store<V>, es: seq<Event<V>>): Store<V>
    requires AllAttempts(log, es)
    decreases |es|
  {
    if es == [] then st else AfterEach(log, Run(st, Steps(log, st, es[0])[..es[0].done]), es[1..])
  }

  /** The data writes that an attempt makes before it stops. */
  function MadeBy<V(==)>(log: Log<V>, e: Event<V>): seq<Step<V>>
    requires e.Attempt? && AttemptOk(log, e)
  {
    if e.done == 0 then [] else log.writes(e.record)[..if e.done <= e.reached + 1 then e.done - 1 else e.reached]
  }

  /** The data writes that an attempt owes: all of them once its record is stored, unless it ran to
      its end with a write refused. */
  function DueTo<V(==)>(log: Log<V>, e: Event<V>): seq<Step<V>>
    requires e.Attempt? && AttemptOk(log, e)
  {
    if e.done == 0 then []
    else if e.done == e.reached + 2 then log.writes(e.record)[..e.reached]
    else log.writes(e.record)
  }

  function MadeByAll<V(==)>(log: Log<V>, es: seq<Event<V>>): seq<Step<V>>
    requires AllAttempts(log, es)
  {
    if es == [] then [] else MadeBy(log, es[0]) + MadeByAll(log, es[1..])
  }

  function DueToAll<V(==)>(log: Log<V>, es: seq<Event<V>>): seq<Step<V>>
    requires AllAttempts(log, es)
  {
    if es == [] then [] else DueTo(log, es[0]) + DueToAll(log, es[1..])
  }

  /** What an attempt leaves under its key. */
  function Logged<V(==)>(t: Store<V>, e: Event<V>): Store<V>
    requires e.Attempt?
  {
    if e.done == 0 then t else t[e.key := if e.done == e.reached + 2 then e.final else e.record]
  }

  function LoggedAll<V(==)>(log: Log<V>, t: Store<V>, es: seq<Event<V>>): Store<V>
    requires AllAttempts(log, es)
    decreases |es|
  {
    if es == [] then t else LoggedAll(log, Logged(t, es[0]), es[1..])
  }

  lemma OneAttempt<V>(log: Log<V>, st: Store<V>, e: Event<V>)
    requires e.Attempt? && AttemptOk(log, e)
    ensures var st' := Run(st, Steps(log, st, e)[..e.done]);
      && Table(log.prefix, st') == Logged(Table(log.prefix, st), e)
      && Data(log.prefix, st') == Run(Data(log.prefix, st), MadeBy(log, e))
  {
    if e.done == 0 {
      assert Steps(log, st, e)[..0] == [];
    } else if e.done < e.reached + 2 {
      AttemptCutState(log, st, e);
    } else {
      assert Steps(log, st, e)[..e.done] == Steps(log, st, e);
      AttemptComplete(log, st, e);
    }
  }

  /** The log and the data after any attempts. */
  lemma {:induction false} AnyAttempts<V>(log: Log<V>, st: Store<V>, es: seq<Event<V>>)
    requires AllAttempts(log, es) && TableOk(log, Table(log.prefix, st))
    ensures var st' := AfterEach(log, st, es);
      && Table(log.prefix, st') == LoggedAll(log, Table(log.prefix, st), es)
      && TableOk(log, Table(log.prefix, st'))
      && Data(log.prefix, st') == Run(Data(log.prefix, st), MadeByAll(log, es))
    decreases |es|
  {
    if es != [] {
      var st1 := Run(st, Steps(log, st, es[0])[..es[0].done]);
      OneAttempt(log, st, es[0]);
      AnyAttempts(log, st1, es[1..]);
      RunConcat(Data(log.prefix, st), MadeBy(log, es[0]), MadeByAll(log, es[1..]));
    }
  }

  /** What a recovery leaves after any attempts, whatever was open before and is open now. */
  lemma AnyAttemptsRecovered<V>(log: Log<V>, st: Store<V>, es: seq<Event<V>>)
    requires AllAttempts(log, es) && TableOk(log, Table(log.prefix, st))
    ensures Data(log.prefix, Recovered(log, AfterEach(log, st, es)))
         == Run(Data(log.prefix, st), MadeByAll(log, es) + Replayed(log, LoggedAll(log, Table(log.prefix, st), es)))
  {
    var made, t' := MadeByAll(log, es), LoggedAll(log, Table(log.prefix, st), es);
    AnyAttempts(log, st, es);
    RecoveredData(log, AfterEach(log, st, es));
    RunConcat(Data(log.prefix, st), made, Replayed(log, t'));
  }

  /** Exactly when this is what the attempts owe, after what was owed before. */
  lemma AnyAttemptsIff<V>(log: Log<V>, st: Store<V>, es: seq<Event<V>>)
    requires AllAttempts(log, es) && TableOk(log, Table(log.prefix, st))
    ensures var d, t := Data(log.prefix, st), Table(log.prefix, st);
      Data(log.prefix, Recovered(log, AfterEach(log, st, es)))
        == Run(Data(log.prefix, Recovered(log, st)), DueToAll(log, es))
      <==> forall k :: AlikeAt(d, MadeByAll(log, es) + Replayed(log, LoggedAll(log, t, es)),
                               Replayed(log, t) + DueToAll(log, es), k)
  {
    var d, t := Data(log.prefix, st), Table(log.prefix, st);
    AnyAttemptsRecovered(log, st, es);
    RecoveredData(log, st);
    RunConcat(d, Replayed(log, t), DueToAll(log, es));
    SameOutcomeIff(d, MadeByAll(log, es) + Replayed(log, LoggedAll(log, t, es)), Replayed(log, t) + DueToAll(log, es));
  }

  // ---- which records are open at the end ----

  /** Some attempt stores a record under the key. */
  predicate Overwrites<V>(es: seq<Event<V>>, k: Key) {
    exists i :: 0 <= i < |es| && es[i].Attempt? && es[i].key == k && es[i].done > 0
  }

  lemma OverwritesSplit<V>(es: seq<Event<V>>, k: Key)
    requires es != []
    ensures Overwrites(es, k) <==> (es[0].Attempt? && es[0].key == k && es[0].done > 0) || Overwrites(es[1..], k)
  {
    if Overwrites(es[1..], k) {
      var i :| 0 <= i < |es[1..]| && es[1..][i].Attempt? && es[1..][i].key == k && es[1..][i].done > 0;
      assert es[i + 1] == es[1..][i];
    }
    if Overwrites(es, k) {
      var i :| 0 <= i < |es| && es[i].Attempt? && es[i].key == k && es[i].done > 0;
      assert i > 0 ==> es[1..][i - 1] == es[i];
    }
  }

  /** A key that no attempt takes keeps its record. */
  lemma {:induction false} KeptRecord<V>(log: Log<V>, t: Store<V>, es: seq<Event<V>>, k: Key)
    requires AllAttempts(log, es) && !Overwrites(es, k)
    ensures SameAt(LoggedAll(log, t, es), t, k)
    decreases |es|
  {
    if es != [] {
      OverwritesSplit(es, k);
      KeptRecord(log, Logged(t, es[0]), es[1..], k);
    }
  }

  /** No record but that of k is open. */
  ghost predicate OpenAtMost<V>(log: Log<V>, t: Store<V>, k: Key) {
    forall q :: q in t && log.open(t[q]) ==> q == k
  }

  /** Attempts that all run to their ends close what they take and leave the rest. */
  lemma {:induction false} CompleteAttempts<V>(log: Log<V>, t: Store<V>, es: seq<Event<V>>, k: Key)
    requires AllAttempts(log, es) && forall i :: 0 <= i < |es| ==> es[i].done == es[i].reached + 2
    requires OpenAtMost(log, t, k)
    ensures OpenAtMost(log, LoggedAll(log, t, es), k)
    ensures Overwrites(es, k) ==> AllClosed(log, LoggedAll(log, t, es))
    decreases |es|
  {
    if es != [] {
      var t1 := Logged(t, es[0]);
      OverwritesSplit(es, k);
      assert t1 == t[es[0].key := es[0].final];
      assert OpenAtMost(log, t1, k);
      CompleteAttempts(log, t1, es[1..], k);
      if !Overwrites(es[1..], k) { KeptRecord(log, t1, es[1..], k); }
    }
  }

  lemma NoneReplayed<V>(log: Log<V>, t: Store<V>)
    requires AllClosed(log, t)
    ensures Replayed(log, t) == []
  {
    AscendingIsUnique(OpenKeys(log, t), []);
  }

  lemma OneReplayed<V>(log: Log<V>, t: Store<V>, k: Key)
    requires OnlyOpen(log, t, k)
    ensures Replayed(log, t) == log.writes(t[k])
  {
    AscendingIsUnique(OpenKeys(log, t), [k]);
    assert WritesOfAll(log, t, [k]) == WritesOfAll(log, t, []) + log.writes(t[k]);
  }

  /** Two open records are replayed in the order of their keys. */
  lemma TwoReplayed<V>(log: Log<V>, t: Store<V>, a: Key, b: Key)
    requires Less(a, b) && a in t && b in t && log.open(t[a]) && log.open(t[b])
    requires forall k :: k in t && log.open(t[k]) ==> k == a || k == b
    ensures Replayed(log, t) == log.writes(t[a]) + log.writes(t[b])
  {
    AscendingIsUnique(OpenKeys(log, t), [a, b]);
    assert [a, b][..1] == [a];
    assert WritesOfAll(log, t, [a]) == WritesOfAll(log, t, []) + log.writes(t[a]);
  }

  /** The first attempt stops with its record open; the others are complete. */
  predicate OnlyFirstStops<V(==)>(log: Log<V>, es: seq<Event<V>>) {
    && AllAttempts(log, es) && es != [] && 0 < es[0].done < es[0].reached + 2
    && forall i :: 0 < i < |es| ==> es[i].done == es[i].reached + 2
  }

  /** One attempt stopped with its record open, and complete ones after it: the stopped one is replayed
      in full over the later ones, or not at all when one of them took its key. */
  lemma OneStopped<V>(log: Log<V>, t: Store<V>, es: seq<Event<V>>)
    requires OnlyFirstStops(log, es) && AllClosed(log, t)
    ensures Replayed(log, LoggedAll(log, t, es))
         == if Overwrites(es[1..], es[0].key) then [] else log.writes(es[0].record)
  {
    var t1, k := Logged(t, es[0]), es[0].key;
    assert OpenAtMost(log, t1, k);
    CompleteAttempts(log, t1, es[1..], k);
    var t' := LoggedAll(log, t1, es[1..]);
    if Overwrites(es[1..], k) {
      NoneReplayed(log, t');
    } else {
      KeptRecord(log, t1, es[1..], k);
      OneReplayed(log, t', k);
    }
  }
}
