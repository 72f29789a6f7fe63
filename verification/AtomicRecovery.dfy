/** The intent records of the atomic writer as a redo log: the writer's step lists are those of
    the log, so what holds of every run of the log holds of the writer. */
module AtomicRecovery {
  import opened Keys
  import opened Storage
  import opened Sweeps
  import opened AtomicMemory
  import opened RedoLog

  function Closed(v: Value): Value {
    if v.IntentRecord? then Mark(v.intent, Committed) else v
  }

  function IntentLog(): Log<Value> {
    Log(INTENT_PREFIX, Keyed, Unfinished, WritesOf, Closed)
  }

  /** Blob keys are the caller's own; they must not name the intent log. */
  predicate KeepsOut(op: MemoryOp) {
    (op.PutBlob? || op.DeleteBlob?) ==> !(INTENT_PREFIX <= op.key)
  }

  predicate AllKeepOut(ops: seq<MemoryOp>) {
    forall i :: 0 <= i < |ops| ==> KeepsOut(ops[i])
  }

  lemma VersionedKeyKeepsOut(key: Key, version: nat, prefix: Key)
    requires !(prefix <= key) && '@' !in prefix
    ensures !(prefix <= VersionedKey(key, version))
  {
    var v := VersionedKey(key, version);
    assert v[|key|] == '@' && v[..|key|] == key;
    if |prefix| <= |key| {
      assert v[..|prefix|] == key[..|prefix|];
    } else {
      assert prefix[|key|] in prefix;
    }
  }

  lemma OpStepsKeepOut(op: MemoryOp, memoryId: string, version: nat)
    requires KeepsOut(op)
    ensures DataOnly(INTENT_PREFIX, OpSteps(op, memoryId, version))
  {
    assert INTENT_PREFIX[1] == 'i';
    match op {
      case PutBlob(key, value) => VersionedKeyKeepsOut(key, version, INTENT_PREFIX);
      case PutEmbedding(c, id, _, _) =>
        assert VectorKey(c, id, "meta")[1] == 'v' && VectorKey(c, id, "data")[1] == 'v';
      case CreateNode(ns, id, _, _) =>
        assert NodeKey(ns, id)[1] == 'g';
      case CreateEdge(ns, f, t, to, _) =>
        assert EdgeKey(ns, f, t, to)[1] == 'g' && IndexKey(ns, f, t, to)[1] == 'g';
      case DeleteBlob(key) =>
      case DeleteEdge(ns, f, t, to) =>
        assert EdgeKey(ns, f, t, to)[1] == 'g' && IndexKey(ns, f, t, to)[1] == 'g';
    }
  }

  lemma {:induction false} OpsStepsKeepOut(ops: seq<MemoryOp>, memoryId: string, version: nat)
    requires AllKeepOut(ops)
    ensures DataOnly(INTENT_PREFIX, OpsSteps(ops, memoryId, version))
  {
    if ops != [] {
      OpsStepsKeepOut(ops[..|ops| - 1], memoryId, version);
      OpStepsKeepOut(ops[|ops| - 1], memoryId, version);
    }
  }

  /** Every readable record sits under the key of its own id and keeps its blobs out of the log. */
  predicate Keyed(k: Key, v: Value) {
    v.IntentRecord? ==> k == IntentKey(v.intent.intentId) && AllKeepOut(v.intent.ops)
  }

  predicate WellKeyed(t: Store<Value>) {
    forall k :: k in t ==> INTENT_PREFIX <= k && Keyed(k, t[k])
  }

  lemma KeyedIsOk(k: Key, v: Value)
    requires INTENT_PREFIX <= k && Keyed(k, v)
    ensures RecordOk(IntentLog(), k, v)
  {
    if Unfinished(v) {
      OpsStepsKeepOut(v.intent.ops, v.intent.memoryId, v.intent.version);
    }
  }

  lemma WellKeyedIsOk(t: Store<Value>)
    ensures WellKeyed(t) <==> TableOk(IntentLog(), t)
  {
    if WellKeyed(t) {
      forall k | k in t ensures RecordOk(IntentLog(), k, t[k]) { KeyedIsOk(k, t[k]); }
    }
    if TableOk(IntentLog(), t) {
      forall k | k in t ensures INTENT_PREFIX <= k && Keyed(k, t[k]) {
        assert RecordOk(IntentLog(), k, t[k]);
      }
    }
  }

  /** Settling the record stored under k makes its writes and then rewrites that record. */
  lemma SettleInPlace(st: Store<Value>, k: Key, intent: MemoryIntent, reached: nat)
    requires k in st && st[k] == IntentRecord(intent) && Keyed(k, st[k])
    ensures SettleSteps(st, intent, reached)
         == Cut(DataSteps(intent), reached) + [Put(k, Mark(intent, StatusAfter(intent, reached)))]
    ensures DataOnly(INTENT_PREFIX, Cut(DataSteps(intent), reached))
    ensures INTENT_PREFIX <= k
  {
    OpsStepsKeepOut(intent.ops, intent.memoryId, intent.version);
    var d := Cut(DataSteps(intent), reached);
    assert !Touches(d, k);
    RunLeavesOthers(st, d, k);
  }

  /** While its own writes keep out of the log, the record of an intent can be marked. */
  lemma OwnRecordIsReadable(st: Store<Value>, intent: MemoryIntent, n: nat)
    requires AllKeepOut(intent.ops) && n <= |DataSteps(intent)|
    ensures var k := IntentKey(intent.intentId);
      !Unreadable(Run(st[k := IntentRecord(intent)], DataSteps(intent)[..n]), intent.intentId)
  {
    var k := IntentKey(intent.intentId);
    SettleInPlace(st[k := IntentRecord(intent)], k, intent, n);
    RunLeavesOthers(st[k := IntentRecord(intent)], DataSteps(intent)[..n], k);
  }

  lemma SettledTable(st: Store<Value>, k: Key, intent: MemoryIntent, reached: nat)
    requires k in st && st[k] == IntentRecord(intent) && Keyed(k, st[k])
    ensures Table(INTENT_PREFIX, Run(st, SettleSteps(st, intent, reached)))
         == Table(INTENT_PREFIX, st)[k := Mark(intent, StatusAfter(intent, reached))]
  {
    SettleInPlace(st, k, intent, reached);
    var d, last := Cut(DataSteps(intent), reached), Put(k, Mark(intent, StatusAfter(intent, reached)));
    RunData(INTENT_PREFIX, st, d);
    RunSnoc(st, d, last);
    TouchOneKey(INTENT_PREFIX, Run(st, d), last);
  }

  // ---- recover with every outcome ----

  /** After a replay of the listed records, with whatever writes refused, the listed records
      are finished, the others are as they were, and the log is still well keyed. */
  ghost predicate Swept(t: Store<Value>, t': Store<Value>, keys: seq<Key>) {
    && t'.Keys == t.Keys && WellKeyed(t')
    && (forall k :: k in keys ==> k in t' && !Unfinished(t'[k]))
    && (forall k :: k in t && (k !in keys || !Unfinished(t[k])) ==> t'[k] == t[k])
  }

  lemma {:induction false} ReplaySweeps(st: Store<Value>, keys: seq<Key>, reached: seq<nat>)
    requires WellKeyed(Table(INTENT_PREFIX, st)) && Listed(Table(INTENT_PREFIX, st), keys)
    requires |reached| == |keys|
    ensures Swept(Table(INTENT_PREFIX, st),
                  Table(INTENT_PREFIX, Run(st, ReplayFrom(st, Entries(st, keys), reached))), keys)
    decreases |keys|
  {
    if keys != [] {
      var n := |keys| - 1;
      var init, last := keys[..n], keys[n];
      EntriesInit(st, keys);
      var before := ReplayFrom(st, Entries(st, init), reached[..n]);
      var here := ReplaySteps(Run(st, before), st[last], reached[n]);
      ReplaySweeps(st, init, reached[..n]);
      RunConcat(st, before, here);
      SweepLast(Table(INTENT_PREFIX, st), Run(st, before), keys, reached[n]);
    }
  }

  lemma SweepLast(t: Store<Value>, mid: Store<Value>, keys: seq<Key>, reached: nat)
    requires keys != [] && Listed(t, keys) && WellKeyed(t)
    requires Swept(t, Table(INTENT_PREFIX, mid), keys[..|keys| - 1])
    ensures var last := keys[|keys| - 1];
      Swept(t, Table(INTENT_PREFIX, Run(mid, ReplaySteps(mid, t[last], reached))), keys)
  {
    var init, last := keys[..|keys| - 1], keys[|keys| - 1];
    var v := t[last];
    assert last !in init;
    assert last in Table(INTENT_PREFIX, mid) && mid[last] == v;
    if Unfinished(v) {
      SettledTable(mid, last, v.intent, reached);
    }
  }

  /** A recovery that runs to its end leaves no readable record unfinished, whatever storage
      refused on the way, and rewrites finished records not at all. */
  lemma RecoverFinishesAll(st: Store<Value>, reached: seq<nat>)
    requires WellKeyed(Table(INTENT_PREFIX, st)) && |reached| == |Scanned(st)|
    ensures Swept(Table(INTENT_PREFIX, st),
                  Table(INTENT_PREFIX, Run(st, ReplayFrom(st, Scanned(st), reached))),
                  LogKeys(INTENT_PREFIX, st))
  {
    ReplaySweeps(st, LogKeys(INTENT_PREFIX, st), reached);
  }

  /** The five counters of a report cover every record scanned, once. */
  lemma {:induction false} ReportCountsAll(scanned: seq<(Key, Value)>, reached: seq<nat>)
    requires |reached| == |scanned|
    ensures var r := Report(scanned, reached);
      r.replayed + r.failed + r.alreadyCommitted + r.alreadyAborted + r.corrupted == |scanned|
  {
    if scanned != [] {
      ReportCountsAll(scanned[..|scanned| - 1], reached[..|scanned| - 1]);
    }
  }

  /** The number of scanned records of one kind. */
  function Number(scanned: seq<(Key, Value)>, reached: seq<nat>, kind: (Value, nat) -> bool): nat
    requires |reached| == |scanned|
  {
    |Places(scanned, reached, kind)|
  }

  function Places(scanned: seq<(Key, Value)>, reached: seq<nat>, kind: (Value, nat) -> bool): set<int>
    requires |reached| == |scanned|
  {
    set i | 0 <= i < |scanned| && kind(scanned[i].1, reached[i])
  }

  lemma NumberSnoc(scanned: seq<(Key, Value)>, reached: seq<nat>, kind: (Value, nat) -> bool)
    requires |reached| == |scanned| > 0
    ensures var n := |scanned| - 1;
      Number(scanned, reached, kind)
      == Number(scanned[..n], reached[..n], kind) + if kind(scanned[n].1, reached[n]) then 1 else 0
  {
    var n := |scanned| - 1;
    assert Places(scanned, reached, kind)
        == Places(scanned[..n], reached[..n], kind) + if kind(scanned[n].1, reached[n]) then {n} else {};
  }

  predicate IsReplayed(v: Value, reached: nat) {
    Unfinished(v) && reached >= |WritesOf(v)|
  }

  predicate IsFailed(v: Value, reached: nat) {
    Unfinished(v) && reached < |WritesOf(v)|
  }

  predicate IsCommitted(v: Value, reached: nat) {
    v.IntentRecord? && v.intent.status == Committed
  }

  predicate IsAborted(v: Value, reached: nat) {
    v.IntentRecord? && v.intent.status == Aborted
  }

  predicate IsCorrupted(v: Value, reached: nat) {
    !v.IntentRecord?
  }

  /** Each counter of a report is the number of scanned records of its kind: unfinished with every write
      accepted, unfinished with a write refused, committed, aborted, and unreadable. */
  lemma {:induction false} ReportIsExact(scanned: seq<(Key, Value)>, reached: seq<nat>)
    requires |reached| == |scanned|
    ensures Report(scanned, reached) == RecoveryReport(
      Number(scanned, reached, IsReplayed), Number(scanned, reached, IsFailed),
      Number(scanned, reached, IsCommitted), Number(scanned, reached, IsAborted),
      Number(scanned, reached, IsCorrupted))
    decreases |scanned|
  {
    if scanned != [] {
      ReportIsExact(scanned[..|scanned| - 1], reached[..|scanned| - 1]);
      NumberSnoc(scanned, reached, IsReplayed);
      NumberSnoc(scanned, reached, IsFailed);
      NumberSnoc(scanned, reached, IsCommitted);
      NumberSnoc(scanned, reached, IsAborted);
      NumberSnoc(scanned, reached, IsCorrupted);
    }
  }

  // ---- recover when one record is unfinished ----

  /** The same number for every entry. */
  function Evenly(n: nat, len: nat): (ns: seq<nat>)
    ensures |ns| == len && forall i :: 0 <= i < len ==> ns[i] == n
  {
    seq(len, i => n)
  }

  /** The writes of the unfinished records. */
  function OpenWrites(scanned: seq<(Key, Value)>): seq<Step<Value>> {
    if scanned == [] then []
    else
      var n := |scanned| - 1;
      OpenWrites(scanned[..n]) + if Unfinished(scanned[n].1) then WritesOf(scanned[n].1) else []
  }

  lemma {:induction false} OpenWritesOf(scanned: seq<(Key, Value)>, j: nat)
    requires forall i :: 0 <= i < |scanned| && i != j ==> !Unfinished(scanned[i].1)
    ensures OpenWrites(scanned) == if j < |scanned| && Unfinished(scanned[j].1) then WritesOf(scanned[j].1) else []
    decreases |scanned|
  {
    if scanned != [] { OpenWritesOf(scanned[..|scanned| - 1], j); }
  }

  /** With no record unfinished, a pass does nothing. */
  lemma NoneUnfinished(st: Store<Value>, scanned: seq<(Key, Value)>, n: nat)
    requires forall i :: 0 <= i < |scanned| ==> !Unfinished(scanned[i].1)
    ensures ReplayFrom(st, scanned, Evenly(n, |scanned|)) == [] && OpenWrites(scanned) == []
  {
    forall i | 0 <= i < |scanned| ensures Idle(ReplaySteps, scanned[i].1, n) { }
    SweepIdle(ReplaySteps, st, scanned, Evenly(n, |scanned|));
    OpenWritesOf(scanned, |scanned|);
  }

  /** With one record unfinished, a pass settles that record and does nothing else. */
  lemma OneUnfinished(st: Store<Value>, scanned: seq<(Key, Value)>, j: nat, n: nat)
    requires j < |scanned| && Unfinished(scanned[j].1)
    requires forall i :: 0 <= i < |scanned| && i != j ==> !Unfinished(scanned[i].1)
    ensures ReplayFrom(st, scanned, Evenly(n, |scanned|)) == SettleSteps(st, scanned[j].1.intent, n)
    ensures OpenWrites(scanned) == WritesOf(scanned[j].1)
  {
    forall i | 0 <= i < |scanned| && i != j ensures Idle(ReplaySteps, scanned[i].1, n) { }
    SweepOne(ReplaySteps, st, scanned, Evenly(n, |scanned|), j);
    OpenWritesOf(scanned, j);
  }

  // ---- recover when storage refuses nothing ----

  lemma {:induction false} ReplayIsLogReplay(st: Store<Value>, keys: seq<Key>)
    requires WellKeyed(Table(INTENT_PREFIX, st)) && Listed(Table(INTENT_PREFIX, st), keys)
    ensures ReplayFrom(st, Entries(st, keys), FullReach(Entries(st, keys)))
         == Replay(IntentLog(), Table(INTENT_PREFIX, st), keys)
    decreases |keys|
  {
    if keys != [] {
      var n := |keys| - 1;
      var init, last := keys[..n], keys[n];
      var es := Entries(st, keys);
      assert es[..n] == Entries(st, init);
      assert FullReach(es)[..n] == FullReach(Entries(st, init));
      ReplayIsLogReplay(st, init);
      ReplaySweeps(st, init, FullReach(Entries(st, init)));
      var mid := Run(st, ReplayFrom(st, Entries(st, init), FullReach(Entries(st, init))));
      assert last !in init;
      assert last in Table(INTENT_PREFIX, mid) && mid[last] == st[last];
      OneRecordReplay(mid, last);
    }
  }

  lemma OneRecordReplay(mid: Store<Value>, k: Key)
    requires k in mid && INTENT_PREFIX <= k && Keyed(k, mid[k])
    ensures ReplaySteps(mid, mid[k], |WritesOf(mid[k])|) == ReplayOf(IntentLog(), k, mid[k])
  {
    if Unfinished(mid[k]) {
      SettleInPlace(mid, k, mid[k].intent, |WritesOf(mid[k])|);
    }
  }

  /** A recovery in which storage refuses nothing is the replay of the log. */
  lemma RecoverIsLogRecovery(st: Store<Value>)
    requires WellKeyed(Table(INTENT_PREFIX, st))
    ensures ReplayFrom(st, Scanned(st), FullReach(Scanned(st))) == RecoverSteps(IntentLog(), st)
  {
    ReplayIsLogReplay(st, LogKeys(INTENT_PREFIX, st));
  }
}
