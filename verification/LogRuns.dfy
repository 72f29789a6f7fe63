/** The events of a redo log: attempts, recoveries and trims, each of which a crash may cut after
    any step, and restarts. Each event keeps the discipline of the log and has the effect on the
    data that it is meant to have. */
module LogRuns {
  import opened Keys
  import opened Storage
  import opened RedoLog

  /** `done` is the number of steps performed; fewer than all of them means a crash.
      An attempt stores an open record, makes `reached` of its data writes and rewrites the
      record to its final form: the closed form exactly when all writes were made. */
  datatype Event<!V> =
    | Attempt(key: Key, record: V, final: V, reached: nat, done: nat)
    | Recovery(done: nat)
    | Trim(keys: seq<Key>)
    | Restart

  datatype World<V> = World(store: Store<V>, recovered: bool)

  /** All steps of an event that is not cut. */
  function Steps<V>(log: Log<V>, st: Store<V>, e: Event<V>): seq<Step<V>>
    requires e.Attempt? ==> e.reached <= |log.writes(e.record)|
  {
    match e
    case Attempt(k, v, final, reached, _) => [Put(k, v)] + log.writes(v)[..reached] + [Put(k, final)]
    case Recovery(_) => RecoverSteps(log, st)
    case Trim(keys) => Deletes(keys)
    case Restart => []
  }

  predicate AttemptOk<V(==)>(log: Log<V>, e: Event<V>)
    requires e.Attempt?
  {
    && log.open(e.record) && RecordOk(log, e.key, e.record)
    && !log.open(e.final) && RecordOk(log, e.key, e.final)
    && e.reached <= |log.writes(e.record)| && e.done <= e.reached + 2
    && (e.final == log.close(e.record) <==> e.reached == |log.writes(e.record)|)
  }

  /** Attempts come after a recovery has completed; trims remove closed records only. */
  predicate Allowed<V(==)>(log: Log<V>, w: World<V>, e: Event<V>) {
    match e
    case Attempt(_, _, _, _, _) => w.recovered && AttemptOk(log, e)
    case Recovery(done) => done <= |RecoverSteps(log, w.store)|
    case Trim(keys) =>
      forall k :: k in keys ==> log.prefix <= k && (k in w.store ==> !log.open(w.store[k]))
    case Restart => true
  }

  function Next<V(==)>(log: Log<V>, w: World<V>, e: Event<V>): World<V>
    requires Allowed(log, w, e)
  {
    match e
    case Attempt(_, _, _, reached, done) =>
      World(Run(w.store, Steps(log, w.store, e)[..done]), done == reached + 2)
    case Recovery(done) =>
      World(Run(w.store, RecoverSteps(log, w.store)[..done]), done == |RecoverSteps(log, w.store)|)
    case Trim(keys) => w.(store := Run(w.store, Deletes(keys)))
    case Restart => w.(recovered := false)
  }

  /** What an event is meant to do to the data: an attempt whose record reached the store
      counts in full, unless it ran to its end with a refused write. */
  function Effect<V>(log: Log<V>, d: Store<V>, e: Event<V>): Store<V>
    requires e.Attempt? ==> e.reached <= |log.writes(e.record)|
  {
    match e
    case Attempt(_, v, _, reached, done) =>
      if done == 0 then d
      else if done == reached + 2 then Run(d, log.writes(v)[..reached])
      else Run(d, log.writes(v))
    case _ => d
  }

  /** The record that the latest attempt left in the store, if any. */
  function Newer<V>(prior: Option<(Key, V)>, e: Event<V>): Option<(Key, V)> {
    if e.Attempt? && e.done > 0 then Some((e.key, e.record)) else prior
  }

  /** Attempts are made on a closed log, and at most the latest record is ever open. */
  ghost predicate TableFits<V>(log: Log<V>, t: Store<V>, recovered: bool, newest: Option<(Key, V)>) {
    && TableOk(log, t)
    && (recovered ==> AllClosed(log, t))
    && forall k :: k in t && log.open(t[k]) ==> newest == Some((k, t[k]))
  }

  ghost predicate WorldOk<V>(log: Log<V>, w: World<V>, newest: Option<(Key, V)>) {
    TableFits(log, Table(log.prefix, w.store), w.recovered, newest)
  }

  lemma FitsAfterReplay<V>(log: Log<V>, t: Store<V>, t': Store<V>, keys: seq<Key>, r: bool, newest: Option<(Key, V)>)
    requires TableFits(log, t, r, newest) && Advanced(log, t, t', keys)
    ensures TableFits(log, t', false, newest)
    ensures AllClosed(log, t') ==> TableFits(log, t', true, newest)
  {
  }

  lemma FitsWithRecord<V>(log: Log<V>, t: Store<V>, k: Key, v: V, newest: Option<(Key, V)>,
                          after: Option<(Key, V)>)
    requires TableFits(log, t, true, newest) && RecordOk(log, k, v)
    requires log.open(v) ==> after == Some((k, v))
    ensures TableFits(log, t[k := v], !log.open(v), after)
  {
  }

  /** The store after an attempt is cut: its record, and the first writes. */
  lemma AttemptCutState<V>(log: Log<V>, st: Store<V>, e: Event<V>)
    requires e.Attempt? && AttemptOk(log, e) && 0 < e.done < e.reached + 2
    ensures var st' := Run(st, Steps(log, st, e)[..e.done]);
      && st' == Run(st[e.key := e.record], log.writes(e.record)[..e.done - 1])
      && e.key in st' && st'[e.key] == e.record
      && Table(log.prefix, st') == Table(log.prefix, st)[e.key := e.record]
      && Data(log.prefix, st') == Run(Data(log.prefix, st), log.writes(e.record)[..e.done - 1])
  {
    var first, w := Put(e.key, e.record), log.writes(e.record)[..e.done - 1];
    assert Steps(log, st, e)[..e.done] == [first] + w;
    TouchOneKey(log.prefix, st, first);
    RunConcat(st, [first], w);
    RunOne(st, first);
    RunData(log.prefix, Apply(st, first), w);
    assert e.key in Table(log.prefix, Run(Apply(st, first), w));
  }

  /** Recovering from a store where one attempt's first n writes were made makes them all. */
  lemma ResumedWrites<V>(log: Log<V>, st: Store<V>, k: Key, v: V, n: nat)
    requires RecordOk(log, k, v) && log.open(v) && n <= |log.writes(v)|
    ensures Run(Run(st, log.writes(v)[..n]), ReplayOf(log, k, v)) == Run(st, ReplayOf(log, k, v))
  {
    var r := ReplayOf(log, k, v);
    assert r[..n] == log.writes(v)[..n];
    ReplayOverPrefix(st, r, n);
  }

  lemma AttemptCutEarly<V>(log: Log<V>, st: Store<V>, e: Event<V>)
    requires e.Attempt? && AttemptOk(log, e) && 0 < e.done < e.reached + 2
    requires TableOk(log, Table(log.prefix, st)) && AllClosed(log, Table(log.prefix, st))
    ensures var st' := Run(st, Steps(log, st, e)[..e.done]);
      var w := log.writes(e.record);
      && Table(log.prefix, st') == Table(log.prefix, st)[e.key := e.record]
      && Data(log.prefix, st') == Run(Data(log.prefix, st), w[..e.done - 1])
      && OnlyOpen(log, Table(log.prefix, st'), e.key)
      && Recovered(log, st') == Run(st[e.key := e.record], w + [Put(e.key, log.close(e.record))])
      && Data(log.prefix, Recovered(log, st')) == Run(Data(log.prefix, st), w)
  {
    var st1 := st[e.key := e.record];
    AttemptCutState(log, st, e);
    OneOpenRecord(log, Run(st, Steps(log, st, e)[..e.done]), e.key);
    ResumedWrites(log, st1, e.key, e.record, e.done - 1);
    TouchOneKey(log.prefix, st, Put(e.key, e.record));
    var r := ReplayOf(log, e.key, e.record);
    assert r[..|r|] == r;
    ReplayOne(log, st1, e.key, |r|);
  }

  lemma AttemptComplete<V>(log: Log<V>, st: Store<V>, e: Event<V>)
    requires e.Attempt? && AttemptOk(log, e)
    ensures Table(log.prefix, Run(st, Steps(log, st, e))) == Table(log.prefix, st)[e.key := e.final]
    ensures Data(log.prefix, Run(st, Steps(log, st, e)))
         == Run(Data(log.prefix, st), log.writes(e.record)[..e.reached])
  {
    var w, first, last := log.writes(e.record)[..e.reached], Put(e.key, e.record), Put(e.key, e.final);
    var st1 := Apply(st, first);
    TouchOneKey(log.prefix, st, first);
    RunConcat(st, [first], w);
    assert Run(st, [first]) == st1 by { assert Run(st1, []) == st1; }
    RunData(log.prefix, st1, w);
    RunSnoc(st, [first] + w, last);
    TouchOneKey(log.prefix, Run(st1, w), last);
  }

  // ---- a replay with refused writes ----

  /** A replay of the one open record, stopped after some writes: a recovery still makes them all. */
  lemma ReplayStopped<V>(log: Log<V>, st: Store<V>, k: Key, n: nat, newest: Option<(Key, V)>)
    requires WorldOk(log, World(st, false), newest) && OnlyOpen(log, Table(log.prefix, st), k)
    requires n <= |log.writes(st[k])|
    ensures var st' := Run(st, log.writes(st[k])[..n]);
      && WorldOk(log, World(st', false), newest)
      && Data(log.prefix, Recovered(log, st')) == Data(log.prefix, Recovered(log, st))
  {
    var w := log.writes(st[k]);
    assert Table(log.prefix, st)[k] == st[k];
    RunData(log.prefix, st, w[..n]);
    var st' := Run(st, w[..n]);
    assert Table(log.prefix, st')[k] == st'[k];
    OneOpenRecovered(log, st, k);
    OneOpenRecovered(log, st', k);
    ReplayOverPrefix(Data(log.prefix, st), w, n);
  }

  /** A replay that closes the record in some final form after n of its writes: these are all that is
      made of it. */
  lemma ReplaySettled<V>(log: Log<V>, st: Store<V>, k: Key, final: V, n: nat, newest: Option<(Key, V)>)
    requires WorldOk(log, World(st, false), newest) && OnlyOpen(log, Table(log.prefix, st), k)
    requires !log.open(final) && RecordOk(log, k, final) && n <= |log.writes(st[k])|
    ensures var st' := Run(st, log.writes(st[k])[..n] + [Put(k, final)]);
      && WorldOk(log, World(st', true), newest)
      && Data(log.prefix, Recovered(log, st')) == Run(Data(log.prefix, st), log.writes(st[k])[..n])
  {
    var w, last := log.writes(st[k])[..n], Put(k, final);
    assert Table(log.prefix, st)[k] == st[k];
    RunData(log.prefix, st, w);
    RunSnoc(st, w, last);
    TouchOneKey(log.prefix, Run(st, w), last);
    var st' := Run(st, w + [last]);
    assert Table(log.prefix, st') == Table(log.prefix, st)[k := final];
    ClosedNeedsNoRecovery(log, st');
  }

  /** A replay of the one open record with n of its writes accepted, performed up to some step: until
      the record is closed a further recovery makes it in full. */
  lemma ReplayOutcome<V>(log: Log<V>, st: Store<V>, k: Key, final: V, n: nat, steps: seq<Step<V>>, done: nat,
                         newest: Option<(Key, V)>)
    requires WorldOk(log, World(st, false), newest) && OnlyOpen(log, Table(log.prefix, st), k)
    requires !log.open(final) && RecordOk(log, k, final)
    requires steps == Cut(log.writes(st[k]), n) + [Put(k, final)] && done <= |steps|
    ensures var w, st', whole := log.writes(st[k]), Run(st, steps[..done]), done == |steps|;
      && WorldOk(log, World(st', whole), newest)
      && Data(log.prefix, Recovered(log, st'))
         == if whole && n < |w| then Run(Data(log.prefix, st), w[..n]) else Data(log.prefix, Recovered(log, st))
  {
    var w := log.writes(st[k]);
    if done < |steps| {
      assert steps[..done] == w[..done];
      ReplayStopped(log, st, k, done, newest);
    } else {
      assert steps[..done] == steps;
      var m := if n <= |w| then n else |w|;
      assert Cut(w, n) == w[..m] && w[..|w|] == w;
      ReplaySettled(log, st, k, final, m, newest);
      OneOpenRecovered(log, st, k);
    }
  }

  /** Some closed records are gone; the rest of the table is as it was. */
  predicate Trimmed<V(==)>(log: Log<V>, t: Store<V>, t': Store<V>) {
    && (forall k :: k in t' ==> k in t && t'[k] == t[k])
    && (forall k :: k in t && log.open(t[k]) ==> k in t')
  }

  lemma DeleteClosed<V>(log: Log<V>, st: Store<V>, k: Key)
    requires log.prefix <= k && (k in st ==> !log.open(st[k]))
    ensures Trimmed(log, Table(log.prefix, st), Table(log.prefix, Apply(st, Delete(k))))
    ensures Data(log.prefix, Recovered(log, Apply(st, Delete(k)))) == Data(log.prefix, Recovered(log, st))
  {
    var st1 := Apply(st, Delete(k));
    TouchOneKey(log.prefix, st, Delete(k));
    assert forall k' :: k' in Table(log.prefix, st1) <==> k' in Table(log.prefix, st) && k' != k;
    SameOpenRecoversAlike(log, st, st1);
    RecoverKeepsDataApart(log, st, st1);
  }

  lemma {:induction false} TrimClosed<V>(log: Log<V>, st: Store<V>, keys: seq<Key>)
    requires forall k :: k in keys ==> log.prefix <= k && (k in st ==> !log.open(st[k]))
    ensures Trimmed(log, Table(log.prefix, st), Table(log.prefix, Run(st, Deletes(keys))))
    ensures Data(log.prefix, Recovered(log, Run(st, Deletes(keys)))) == Data(log.prefix, Recovered(log, st))
    decreases |keys|
  {
    if keys != [] {
      assert keys[0] in keys;
      DeleteClosed(log, st, keys[0]);
      var st1 := Apply(st, Delete(keys[0]));
      assert Deletes<V>(keys)[1..] == Deletes(keys[1..]);
      forall k | k in keys[1..] ensures k in keys && (k in st1 ==> st1[k] == st[k]) { }
      TrimClosed(log, st1, keys[1..]);
    }
  }

  lemma {:induction false} TrimKeepsData<V>(prefix: Key, st: Store<V>, keys: seq<Key>)
    requires forall k :: k in keys ==> prefix <= k
    ensures Data(prefix, Run(st, Deletes(keys))) == Data(prefix, st)
    decreases |keys|
  {
    if keys != [] {
      assert keys[0] in keys && forall k :: k in keys[1..] ==> k in keys;
      TouchOneKey(prefix, st, Delete(keys[0]));
      assert Deletes<V>(keys)[1..] == Deletes(keys[1..]);
      TrimKeepsData(prefix, Apply(st, Delete(keys[0])), keys[1..]);
    }
  }

  /** Two stores with the same data and the same replay recover to the same data. */
  lemma RecoverKeepsDataApart<V>(log: Log<V>, st: Store<V>, st1: Store<V>)
    requires Data(log.prefix, st) == Data(log.prefix, st1) && RecoverSteps(log, st) == RecoverSteps(log, st1)
    ensures Data(log.prefix, Recovered(log, st)) == Data(log.prefix, Recovered(log, st1))
  {
    RunSplits(log.prefix, st, RecoverSteps(log, st));
    RunSplits(log.prefix, st1, RecoverSteps(log, st));
  }

  function DataPart<V>(prefix: Key, steps: seq<Step<V>>): seq<Step<V>> {
    if steps == [] then []
    else (if prefix <= steps[0].key then [] else [steps[0]]) + DataPart(prefix, steps[1..])
  }

  lemma {:induction false} RunSplits<V>(prefix: Key, st: Store<V>, steps: seq<Step<V>>)
    ensures Data(prefix, Run(st, steps)) == Run(Data(prefix, st), DataPart(prefix, steps))
    decreases |steps|
  {
    if steps != [] {
      TouchOneKey(prefix, st, steps[0]);
      RunSplits(prefix, Apply(st, steps[0]), steps[1..]);
      var rest := DataPart(prefix, steps[1..]);
      if prefix <= steps[0].key {
        assert DataPart(prefix, steps) == rest;
      } else {
        assert DataPart(prefix, steps)[1..] == rest;
      }
    }
  }

  /** Every event keeps the discipline, and what a recovery would leave changes exactly as
      the event is meant to change the data. */
  ghost predicate StepOk<V>(log: Log<V>, w: World<V>, e: Event<V>, newest: Option<(Key, V)>)
    requires Allowed(log, w, e)
  {
    && WorldOk(log, Next(log, w, e), Newer(newest, e))
    && Data(log.prefix, Recovered(log, Next(log, w, e).store))
       == Effect(log, Data(log.prefix, Recovered(log, w.store)), e)
  }

  lemma AttemptStep<V>(log: Log<V>, w: World<V>, e: Event<V>, newest: Option<(Key, V)>)
    requires WorldOk(log, w, newest) && Allowed(log, w, e) && e.Attempt?
    ensures StepOk(log, w, e, newest)
  {
    ClosedNeedsNoRecovery(log, w.store);
    var steps, t := Steps(log, w.store, e), Table(log.prefix, w.store);
    if e.done == 0 {
      assert steps[..e.done] == [];
    } else if e.done < e.reached + 2 {
      AttemptCutEarly(log, w.store, e);
      FitsWithRecord(log, t, e.key, e.record, newest, Newer(newest, e));
    } else {
      assert steps[..e.done] == steps;
      AttemptComplete(log, w.store, e);
      FitsWithRecord(log, t, e.key, e.final, newest, Newer(newest, e));
      ClosedNeedsNoRecovery(log, Run(w.store, steps));
    }
  }

  lemma RecoveryFits<V>(log: Log<V>, w: World<V>, done: nat, newest: Option<(Key, V)>)
    requires WorldOk(log, w, newest) && done <= |RecoverSteps(log, w.store)|
    ensures WorldOk(log, Next(log, w, Recovery(done)), newest)
  {
    var st, keys := w.store, LogKeys(log.prefix, w.store);
    RecoverySurvivesCrash(log, st, done);
    var t, t' := Table(log.prefix, st), Table(log.prefix, Run(st, RecoverSteps(log, st)[..done]));
    FitsAfterReplay(log, t, t', keys, w.recovered, newest);
  }

  lemma RecoveryStep<V>(log: Log<V>, w: World<V>, e: Event<V>, newest: Option<(Key, V)>)
    requires WorldOk(log, w, newest) && Allowed(log, w, e) && e.Recovery?
    ensures StepOk(log, w, e, newest)
  {
    RecoverySurvivesCrash(log, w.store, e.done);
    RecoveryFits(log, w, e.done, newest);
  }

  lemma TrimStep<V>(log: Log<V>, w: World<V>, e: Event<V>, newest: Option<(Key, V)>)
    requires WorldOk(log, w, newest) && Allowed(log, w, e) && e.Trim?
    ensures StepOk(log, w, e, newest)
  {
    TrimClosed(log, w.store, e.keys);
  }

  lemma OneEvent<V>(log: Log<V>, w: World<V>, e: Event<V>, newest: Option<(Key, V)>)
    requires WorldOk(log, w, newest) && Allowed(log, w, e)
    ensures StepOk(log, w, e, newest)
  {
    match e {
      case Attempt(_, _, _, _, _) => AttemptStep(log, w, e, newest);
      case Recovery(_) => RecoveryStep(log, w, e, newest);
      case Trim(_) => TrimStep(log, w, e, newest);
      case Restart =>
    }
  }

  // ---- write-ahead discipline, step by step ----

  /** Step i of the list is a write of some record that is open in the store at that moment. */
  ghost predicate Announced<V>(log: Log<V>, now: Store<V>, s: Step<V>, k: Key) {
    k in now && log.prefix <= k && log.open(now[k]) && s in log.writes(now[k])
  }

  /** Step i closes a record, and the writes of that record are the steps just before it. */
  ghost predicate ClosesAfterWrites<V>(log: Log<V>, now: Store<V>, steps: seq<Step<V>>, i: nat)
    requires i < |steps|
  {
    var k := steps[i].key;
    && k in now && log.open(now[k]) && steps[i] == Put(k, log.close(now[k]))
    && |log.writes(now[k])| <= i && steps[i - |log.writes(now[k])|..i] == log.writes(now[k])
  }

  ghost predicate Disciplined<V>(log: Log<V>, st: Store<V>, steps: seq<Step<V>>, i: nat)
    requires i < |steps|
  {
    var now := Run(st, steps[..i]);
    if log.prefix <= steps[i].key then ClosesAfterWrites(log, now, steps, i)
    else exists k :: Announced(log, now, steps[i], k)
  }

  /** Within one record whose replay starts at offset |f|. */
  lemma DisciplinedInRecord<V>(log: Log<V>, st: Store<V>, f: seq<Step<V>>, k: Key, v: V, i: nat)
    requires RecordOk(log, k, v)
    requires |f| <= i < |f| + |ReplayOf(log, k, v)|
    requires k in Run(st, f) && Run(st, f)[k] == v
    ensures Disciplined(log, st, f + ReplayOf(log, k, v), i)
  {
    var r, mid, n := ReplayOf(log, k, v), Run(st, f), i - |f|;
    var w := log.writes(v);
    assert (f + r)[..i] == f + w[..n];
    RunConcat(st, f, w[..n]);
    var now := Run(mid, w[..n]);
    assert !Touches(w[..n], k);
    RunLeavesOthers(mid, w[..n], k);
    if n < |w| {
      assert Announced(log, now, (f + r)[i], k);
    } else {
      assert (f + r)[i - |w|..i] == w;
    }
  }

  lemma {:induction false} ReplayIsDisciplined<V>(log: Log<V>, st: Store<V>, keys: seq<Key>, i: nat)
    requires TableOk(log, Table(log.prefix, st)) && Listed(Table(log.prefix, st), keys)
    requires i < |Replay(log, Table(log.prefix, st), keys)|
    ensures Disciplined(log, st, Replay(log, Table(log.prefix, st), keys), i)
    decreases |keys|
  {
    var t, n := Table(log.prefix, st), |keys| - 1;
    var init, last := keys[..n], keys[n];
    var f, r := Replay(log, t, init), ReplayOf(log, last, t[last]);
    if i < |f| {
      ReplayIsDisciplined(log, st, init, i);
      DisciplinedExtends(log, st, f, r, i);
    } else {
      ResumeReplay(log, st, init, |f|);
      assert f[..|f|] == f && last !in init;
      assert last in Table(log.prefix, Run(st, f));
      DisciplinedInRecord(log, st, f, last, t[last], i);
    }
  }

  lemma DisciplinedExtends<V>(log: Log<V>, st: Store<V>, f: seq<Step<V>>, r: seq<Step<V>>, i: nat)
    requires i < |f| && Disciplined(log, st, f, i)
    ensures Disciplined(log, st, f + r, i)
  {
    assert (f + r)[..i] == f[..i];
    if log.prefix <= f[i].key {
      var v := Run(st, f[..i])[f[i].key];
      assert (f + r)[i - |log.writes(v)|..i] == f[i - |log.writes(v)|..i];
    } else {
      var k :| Announced(log, Run(st, f[..i]), f[i], k);
      assert Announced(log, Run(st, (f + r)[..i]), (f + r)[i], k);
    }
  }

  /** In every run each data write belongs to a record stored open before it, a record is
      closed only right after all its writes, an attempt never overwrites an open record, and
      a trim removes no open record. */
  lemma WriteAheadDiscipline<V>(log: Log<V>, w: World<V>, e: Event<V>, newest: Option<(Key, V)>, i: nat)
    requires WorldOk(log, w, newest) && Allowed(log, w, e) && i < |Steps(log, w.store, e)|
    ensures var steps := Steps(log, w.store, e);
      match e
      case Attempt(k, v, final, reached, _) =>
        if i == 0 then steps[i] == Put(k, v) && (k in w.store ==> !log.open(w.store[k]))
        else if i <= reached then Announced(log, Run(w.store, steps[..i]), steps[i], k)
        else steps[i] == Put(k, final) && k in Run(w.store, steps[..i]) && Run(w.store, steps[..i])[k] == v
             && (final == log.close(v) ==> ClosesAfterWrites(log, Run(w.store, steps[..i]), steps, i))
      case Recovery(_) => Disciplined(log, w.store, steps, i)
      case Trim(_) => steps[i].Delete? && (steps[i].key in w.store ==> !log.open(w.store[steps[i].key]))
      case Restart => true
  {
    match e {
      case Attempt(k, v, final, reached, _) =>
        if i == 0 {
          assert k in w.store ==> k in Table(log.prefix, w.store);
        } else {
          AttemptDiscipline(log, w.store, e, i);
        }
      case Recovery(_) =>
        ReplayIsDisciplined(log, w.store, LogKeys(log.prefix, w.store), i);
      case Trim(keys) =>
        assert keys[i] in keys;
      case Restart =>
    }
  }

  lemma AttemptDiscipline<V>(log: Log<V>, st: Store<V>, e: Event<V>, i: nat)
    requires e.Attempt? && AttemptOk(log, e) && 0 < i < |Steps(log, st, e)|
    ensures var steps := Steps(log, st, e);
      && e.key in Run(st, steps[..i]) && Run(st, steps[..i])[e.key] == e.record
      && (i <= e.reached ==> Announced(log, Run(st, steps[..i]), steps[i], e.key))
      && (e.final == log.close(e.record) && i == e.reached + 1 ==>
          ClosesAfterWrites(log, Run(st, steps[..i]), steps, i))
  {
    var steps, w, n := Steps(log, st, e), log.writes(e.record), i - 1;
    var st1 := st[e.key := e.record];
    assert steps[..i] == [Put(e.key, e.record)] + w[..n];
    RunConcat(st, [Put(e.key, e.record)], w[..n]);
    assert Run(st, [Put(e.key, e.record)]) == st1 by { assert Run(st1, []) == st1; }
    assert !Touches(w[..n], e.key);
    RunLeavesOthers(st1, w[..n], e.key);
    if i == e.reached + 1 && n == |w| {
      assert steps[i - |w|..i] == w;
    }
  }
}
