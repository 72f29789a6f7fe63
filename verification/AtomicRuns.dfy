/** Whole runs of the atomic writer over one store: writes, recoveries and cleanups, each cut
    after any store step by a crash, and restarts in between. */
module AtomicRuns {
  import opened Keys
  import opened Storage
  import opened AtomicMemory
  import opened AtomicRecovery
  import opened RedoLog
  import opened LogRuns

  /** The store and the writer in front of it. `recovered` says that a recovery has completed
      since the writer was created. */
  datatype Client = Client(store: Store<Value>, nextId: nat, recovered: bool)

  /** `done` counts the store steps performed, and `reached` the data writes that storage accepted of
      the write, or of the record that a recovery replays before it settles it. When `goesOn` holds the
      call has returned and its writer is used again; otherwise a crash ended the writer after these
      steps. */
  datatype Call =
    | Write(memoryId: string, ops: seq<MemoryOp>, now: nat, reached: nat, done: nat, goesOn: bool)
    | Recover(reached: nat, done: nat, goesOn: bool)
    | Cleanup(now: nat, maxAgeSecs: nat, done: nat, goesOn: bool)
    | Reopen

  function FullRecovery(st: Store<Value>): seq<Step<Value>> {
    ReplayFrom(st, Scanned(st), FullReach(Scanned(st)))
  }

  /** A recovery in which storage accepts `reached` writes of each unfinished record. */
  function PassSteps(st: Store<Value>, reached: nat): seq<Step<Value>> {
    ReplayFrom(st, Scanned(st), Evenly(reached, |Scanned(st)|))
  }

  /** A write under the given id. */
  function AttemptSteps(st: Store<Value>, id: nat, call: Call): seq<Step<Value>>
    requires call.Write?
  {
    WriteSteps(st, NewIntent(id, call.memoryId, call.ops, call.now), call.reached)
  }

  function CallSteps(c: Client, call: Call): seq<Step<Value>> {
    match call
    case Write(_, _, _, _, _, _) => AttemptSteps(c.store, c.nextId, call)
    case Recover(reached, _, _) => PassSteps(c.store, reached)
    case Cleanup(now, age, _, _) => CleanupSteps(Scanned(c.store), CutoffOf(now, age))
    case Reopen => []
  }

  function Writes(call: Call): seq<Step<Value>>
    requires call.Write?
  {
    OpsSteps(call.ops, call.memoryId, call.now)
  }

  function Done(call: Call): nat {
    if call.Reopen? then 0 else call.done
  }

  /** A writer is recovered before it writes, and its blobs keep out of the log. It goes on after a
      complete write and after one whose intent record was refused. A recovery or a cleanup may
      return at any refusal. */
  predicate MayCall(c: Client, call: Call) {
    && Done(call) <= |CallSteps(c, call)|
    && (call.Write? ==> c.recovered && AllKeepOut(call.ops) && call.reached <= |Writes(call)|)
    && (call.Write? && call.goesOn ==> call.done == 0 || call.done == |CallSteps(c, call)|)
  }

  /** A crash or a reopening starts a new writer, which counts its intents from 1 again. */
  function Called(c: Client, call: Call): Client
    requires MayCall(c, call)
  {
    var st := Run(c.store, CallSteps(c, call)[..Done(call)]);
    if call.Reopen? || !call.goesOn then Client(st, 1, false)
    else match call
      case Write(_, _, _, _, _, _) => Client(st, c.nextId + 1, true)
      case Recover(_, done, _) => Client(st, c.nextId, c.recovered || done == |CallSteps(c, call)|)
      case _ => Client(st, c.nextId, c.recovered)
  }

  predicate PossibleCalls(c: Client, calls: seq<Call>)
    decreases |calls|
  {
    calls == [] || (MayCall(c, calls[0]) && PossibleCalls(Called(c, calls[0]), calls[1..]))
  }

  function Final(c: Client, calls: seq<Call>): Client
    requires PossibleCalls(c, calls)
    decreases |calls|
  {
    if calls == [] then c else Final(Called(c, calls[0]), calls[1..])
  }

  /** What a call is meant to do to the data. A write whose record never reached the store does
      nothing; one that ran to its end makes the writes storage accepted; one that was cut
      anywhere in between counts in full, until a recovery that runs to its end has one of its
      writes refused: then the accepted ones are all that is made of it. */
  function CallEffect(d: Store<Value>, c: Client, call: Call): Store<Value>
    requires call.Write? ==> call.reached <= |Writes(call)|
  {
    match call
    case Write(_, _, _, reached, done, _) =>
      if done == 0 then d
      else if done == reached + 2 then Run(d, Writes(call)[..reached])
      else Run(d, Writes(call))
    case Recover(reached, done, _) =>
      if done == |CallSteps(c, call)| && reached < |OpenWrites(Scanned(c.store))|
      then Run(DataOf(c.store), OpenWrites(Scanned(c.store))[..reached])
      else d
    case _ => d
  }

  function Intended(d: Store<Value>, c: Client, calls: seq<Call>): Store<Value>
    requires PossibleCalls(c, calls)
    decreases |calls|
  {
    if calls == [] then d
    else Intended(CallEffect(d, c, calls[0]), Called(c, calls[0]), calls[1..])
  }

  function DataOf(st: Store<Value>): Store<Value> {
    Data(INTENT_PREFIX, st)
  }

  /** The store after a complete recovery in which storage refuses nothing. */
  function AfterRecovery(st: Store<Value>): Store<Value> {
    Run(st, FullRecovery(st))
  }

  ghost predicate ClientOk(c: Client, newest: Option<(Key, Value)>) {
    WorldOk(IntentLog(), World(c.store, c.recovered), newest)
  }

  /** The record of the latest write that reached the store. */
  function NewerRecord(prior: Option<(Key, Value)>, c: Client, call: Call): Option<(Key, Value)> {
    if call.Write? && call.done > 0
    then Some((IntentKey(c.nextId), IntentRecord(NewIntent(c.nextId, call.memoryId, call.ops, call.now))))
    else prior
  }

  function NewestRecord(prior: Option<(Key, Value)>, c: Client, calls: seq<Call>): Option<(Key, Value)>
    requires PossibleCalls(c, calls)
    decreases |calls|
  {
    if calls == [] then prior
    else NewestRecord(NewerRecord(prior, c, calls[0]), Called(c, calls[0]), calls[1..])
  }

  // ---- each call is an event of the log ----

  function AttemptOf(id: nat, call: Call): Event<Value>
    requires call.Write?
  {
    var intent := NewIntent(id, call.memoryId, call.ops, call.now);
    Attempt(IntentKey(id), IntentRecord(intent), Mark(intent, StatusAfter(intent, call.reached)),
            call.reached, call.done)
  }

  lemma WriteIsAttempt(st: Store<Value>, id: nat, call: Call)
    requires call.Write? && AllKeepOut(call.ops) && call.reached <= |Writes(call)|
    ensures call.done <= call.reached + 2 ==> AttemptOk(IntentLog(), AttemptOf(id, call))
    ensures AttemptSteps(st, id, call) == Steps(IntentLog(), st, AttemptOf(id, call))
    ensures |AttemptSteps(st, id, call)| == call.reached + 2
  {
    var k, intent := IntentKey(id), NewIntent(id, call.memoryId, call.ops, call.now);
    var e := AttemptOf(id, call);
    KeyedIsOk(k, e.record);
    KeyedIsOk(k, e.final);
    SettleInPlace(st[k := e.record], k, intent, call.reached);
    assert Cut(DataSteps(intent), call.reached) == DataSteps(intent)[..call.reached];
    assert AttemptSteps(st, id, call)
        == [Put(k, e.record)] + (DataSteps(intent)[..call.reached] + [Put(k, e.final)]);
  }

  function ExpiredKeys(scanned: seq<(Key, Value)>, cutoff: nat): seq<Key> {
    if scanned == [] then []
    else
      var n := |scanned| - 1;
      ExpiredKeys(scanned[..n], cutoff) + if Expired(scanned[n].1, cutoff) then [scanned[n].0] else []
  }

  /** A cleanup, cut anywhere, deletes finished records and nothing else. */
  lemma {:induction false} CleanupIsTrim(scanned: seq<(Key, Value)>, cutoff: nat, done: nat)
    requires done <= |CleanupSteps(scanned, cutoff)|
    ensures |ExpiredKeys(scanned, cutoff)| == |CleanupSteps(scanned, cutoff)|
    ensures CleanupSteps(scanned, cutoff)[..done] == Deletes(ExpiredKeys(scanned, cutoff)[..done])
    ensures forall k :: k in ExpiredKeys(scanned, cutoff) ==>
      exists i :: 0 <= i < |scanned| && scanned[i].0 == k && Expired(scanned[i].1, cutoff)
  {
    if scanned != [] {
      var n := |scanned| - 1;
      var steps, keys := CleanupSteps(scanned[..n], cutoff), ExpiredKeys(scanned[..n], cutoff);
      CleanupIsTrim(scanned[..n], cutoff, |steps|);
      assert steps[..|steps|] == steps && keys[..|steps|] == keys;
      assert CleanupSteps(scanned, cutoff)[..done] == Deletes(ExpiredKeys(scanned, cutoff)[..done]);
      forall k | k in ExpiredKeys(scanned, cutoff)
        ensures exists i :: 0 <= i < |scanned| && scanned[i].0 == k && Expired(scanned[i].1, cutoff)
      {
        if k in keys {
          var i :| 0 <= i < n && scanned[..n][i].0 == k && Expired(scanned[..n][i].1, cutoff);
          assert scanned[i].0 == k;
        } else {
          assert scanned[n].0 == k;
        }
      }
    }
  }

  lemma ExpiredAreFinished(st: Store<Value>, cutoff: nat)
    ensures forall k :: k in ExpiredKeys(Scanned(st), cutoff) ==>
      INTENT_PREFIX <= k && (k in st ==> !Unfinished(st[k]))
  {
    CleanupIsTrim(Scanned(st), cutoff, 0);
    forall k | k in ExpiredKeys(Scanned(st), cutoff) ensures INTENT_PREFIX <= k && (k in st ==> !Unfinished(st[k])) {
      var i :| 0 <= i < |Scanned(st)| && Scanned(st)[i].0 == k && Expired(Scanned(st)[i].1, cutoff);
      assert ScanKeys(st, INTENT_PREFIX)[i] in ScanKeys(st, INTENT_PREFIX);
    }
  }

  /** The client is in order, and a recovery would leave the given data. */
  ghost predicate Lands(c: Client, newest: Option<(Key, Value)>, d: Store<Value>) {
    ClientOk(c, newest) && DataOf(AfterRecovery(c.store)) == d
  }

  ghost predicate CallOk(c: Client, call: Call, newest: Option<(Key, Value)>)
    requires MayCall(c, call)
  {
    Lands(Called(c, call), NewerRecord(newest, c, call), CallEffect(DataOf(AfterRecovery(c.store)), c, call))
  }

  lemma RecoveryOfOk(c: Client, newest: Option<(Key, Value)>)
    requires ClientOk(c, newest)
    ensures FullRecovery(c.store) == RecoverSteps(IntentLog(), c.store)
    ensures AfterRecovery(c.store) == Recovered(IntentLog(), c.store)
  {
    WellKeyedIsOk(Table(INTENT_PREFIX, c.store));
    RecoverIsLogRecovery(c.store);
  }

  /** A world of the log that the client is in. */
  lemma LandsInWorld(c: Client, w: World<Value>, newest: Option<(Key, Value)>, d: Store<Value>)
    requires w.store == c.store && (c.recovered ==> w.recovered) && WorldOk(IntentLog(), w, newest)
    requires Data(INTENT_PREFIX, Recovered(IntentLog(), w.store)) == d
    ensures Lands(c, newest, d)
  {
    RecoveryOfOk(c, newest);
  }

  lemma WriteCall(c: Client, call: Call, newest: Option<(Key, Value)>)
    requires ClientOk(c, newest) && MayCall(c, call) && call.Write?
    ensures CallOk(c, call, newest)
  {
    if call.done == 0 {
      assert Called(c, call).store == c.store;
    } else {
      var w, e := World(c.store, c.recovered), AttemptOf(c.nextId, call);
      WriteIsAttempt(c.store, c.nextId, call);
      OneEvent(IntentLog(), w, e, newest);
      RecoveryOfOk(c, newest);
      LandsInWorld(Called(c, call), Next(IntentLog(), w, e), NewerRecord(newest, c, call),
                   CallEffect(DataOf(AfterRecovery(c.store)), c, call));
    }
  }

  /** The pass of a recovery over a log with one unfinished record. */
  lemma OneRecordPass(st: Store<Value>, k: Key, reached: nat)
    requires OnlyOpen(IntentLog(), Table(INTENT_PREFIX, st), k) && TableOk(IntentLog(), Table(INTENT_PREFIX, st))
    ensures var w := WritesOf(st[k]);
      && OpenWrites(Scanned(st)) == w
      && PassSteps(st, reached) == Cut(w, reached) + [Put(k, Settled(st[k], reached))]
  {
    var keys := ScanKeys(st, INTENT_PREFIX);
    assert Table(INTENT_PREFIX, st)[k] == st[k] && k in keys;
    var j :| 0 <= j < |keys| && keys[j] == k;
    AscendingIsDistinct(keys);
    forall i | 0 <= i < |keys| && i != j ensures !Unfinished(Scanned(st)[i].1) {
      assert keys[i] in keys && keys[i] != k && keys[i] in Table(INTENT_PREFIX, st);
    }
    OneUnfinished(st, Scanned(st), j, reached);
    SettleInPlace(st, k, st[k].intent, reached);
  }

  /** An unfinished record after its replay. */
  function Settled(v: Value, reached: nat): Value
    requires v.IntentRecord?
  {
    Mark(v.intent, StatusAfter(v.intent, reached))
  }

  /** With no unfinished record a recovery performs no step. */
  lemma NothingToRecover(st: Store<Value>, reached: nat)
    requires AllClosed(IntentLog(), Table(INTENT_PREFIX, st))
    ensures PassSteps(st, reached) == [] && OpenWrites(Scanned(st)) == []
  {
    var keys := ScanKeys(st, INTENT_PREFIX);
    forall i | 0 <= i < |keys| ensures !Unfinished(Scanned(st)[i].1) {
      assert keys[i] in keys && keys[i] in Table(INTENT_PREFIX, st);
    }
    NoneUnfinished(st, Scanned(st), reached);
  }

  lemma RecoverCall(c: Client, call: Call, newest: Option<(Key, Value)>)
    requires ClientOk(c, newest) && MayCall(c, call) && call.Recover?
    ensures CallOk(c, call, newest)
  {
    var log, t := IntentLog(), Table(INTENT_PREFIX, c.store);
    if AllClosed(log, t) {
      NothingToRecover(c.store, call.reached);
      assert Called(c, call).store == c.store;
      assert ClientOk(c.(recovered := true), newest);
    } else {
      var k :| k in t && log.open(t[k]);
      OpenRecovered(c, call, newest, k);
    }
  }

  lemma SettledIsOk(st: Store<Value>, k: Key, reached: nat)
    requires TableOk(IntentLog(), Table(INTENT_PREFIX, st)) && OnlyOpen(IntentLog(), Table(INTENT_PREFIX, st), k)
    ensures var v := Settled(st[k], reached); RecordOk(IntentLog(), k, v) && !Unfinished(v)
  {
    assert Table(INTENT_PREFIX, st)[k] == st[k] && RecordOk(IntentLog(), k, st[k]);
    KeyedIsOk(k, Settled(st[k], reached));
  }

  lemma OpenRecovered(c: Client, call: Call, newest: Option<(Key, Value)>, k: Key)
    requires ClientOk(c, newest) && MayCall(c, call) && call.Recover?
    requires OnlyOpen(IntentLog(), Table(INTENT_PREFIX, c.store), k)
    ensures CallOk(c, call, newest)
  {
    var steps := PassSteps(c.store, call.reached);
    OneRecordPass(c.store, k, call.reached);
    SettledIsOk(c.store, k, call.reached);
    ReplayOutcome(IntentLog(), c.store, k, Settled(c.store[k], call.reached), call.reached, steps, call.done, newest);
    RecoveryOfOk(c, newest);
    LandsInWorld(Called(c, call), World(Run(c.store, steps[..call.done]), call.done == |steps|), newest,
                 if call.done == |steps| && call.reached < |WritesOf(c.store[k])|
                 then Run(DataOf(c.store), WritesOf(c.store[k])[..call.reached]) else DataOf(AfterRecovery(c.store)));
  }

  /** The keys that a cleanup, cut or not, deletes: records of the log, none of them unfinished. */
  lemma CleanupKeys(st: Store<Value>, cutoff: nat, done: nat) returns (keys: seq<Key>)
    requires done <= |CleanupSteps(Scanned(st), cutoff)|
    ensures CleanupSteps(Scanned(st), cutoff)[..done] == Deletes(keys)
    ensures forall k :: k in keys ==> INTENT_PREFIX <= k && (k in st ==> !Unfinished(st[k]))
  {
    CleanupIsTrim(Scanned(st), cutoff, done);
    ExpiredAreFinished(st, cutoff);
    keys := ExpiredKeys(Scanned(st), cutoff)[..done];
    forall k | k in keys ensures k in ExpiredKeys(Scanned(st), cutoff) { }
  }

  lemma CleanupOfClient(c: Client, call: Call) returns (keys: seq<Key>)
    requires MayCall(c, call) && call.Cleanup?
    ensures Called(c, call).store == Run(c.store, Deletes(keys))
    ensures forall k :: k in keys ==> INTENT_PREFIX <= k && (k in c.store ==> !Unfinished(c.store[k]))
  {
    keys := CleanupKeys(c.store, CutoffOf(call.now, call.maxAgeSecs), call.done);
  }

  lemma CleanupCall(c: Client, call: Call, newest: Option<(Key, Value)>)
    requires ClientOk(c, newest) && MayCall(c, call) && call.Cleanup?
    ensures CallOk(c, call, newest)
  {
    var keys := CleanupOfClient(c, call);
    var w, e := World(c.store, c.recovered), Trim(keys);
    OneEvent(IntentLog(), w, e, newest);
    RecoveryOfOk(c, newest);
    LandsInWorld(Called(c, call), Next(IntentLog(), w, e), newest, DataOf(AfterRecovery(c.store)));
  }

  lemma OneCall(c: Client, call: Call, newest: Option<(Key, Value)>)
    requires ClientOk(c, newest) && MayCall(c, call)
    ensures CallOk(c, call, newest)
  {
    match call {
      case Write(_, _, _, _, _, _) => WriteCall(c, call, newest);
      case Recover(_, _, _) => RecoverCall(c, call, newest);
      case Cleanup(_, _, _, _) => CleanupCall(c, call, newest);
      case Reopen =>
    }
  }

  /** Crash atomicity. However the calls of a run are refused or cut by crashes, a completed recovery
      leaves exactly the intended data, and a recovered writer sees it already. At most one
      record is unfinished, and it is the newest one. */
  lemma {:induction false} CrashAtomicity(c: Client, calls: seq<Call>, newest: Option<(Key, Value)>)
    requires ClientOk(c, newest) && PossibleCalls(c, calls)
    ensures DataOf(AfterRecovery(Final(c, calls).store)) == Intended(DataOf(AfterRecovery(c.store)), c, calls)
    ensures Final(c, calls).recovered ==> AfterRecovery(Final(c, calls).store) == Final(c, calls).store
    ensures ClientOk(Final(c, calls), NewestRecord(newest, c, calls))
    decreases |calls|
  {
    if calls == [] {
      if c.recovered {
        RecoveryOfOk(c, newest);
        ClosedNeedsNoRecovery(IntentLog(), c.store);
      }
    } else {
      OneCall(c, calls[0], newest);
      CrashAtomicity(Called(c, calls[0]), calls[1..], NewerRecord(newest, c, calls[0]));
    }
  }

  const FRESH := Client(map[], 1, false)

  lemma FreshIsOk()
    ensures ClientOk(FRESH, None) && AfterRecovery(map[]) == map[] && DataOf(map[]) == map[]
  {
    var none: Store<Value> := map[];
    assert Table(INTENT_PREFIX, none) == map[] && Scanned(none) == [];
  }

  /** Crash atomicity from an empty store: after any run whatever, a complete recovery leaves the
      data of the intended writes alone. */
  lemma EveryRunIsAtomic(calls: seq<Call>)
    requires PossibleCalls(FRESH, calls)
    ensures DataOf(AfterRecovery(Final(FRESH, calls).store)) == Intended(map[], FRESH, calls)
  {
    FreshIsOk();
    CrashAtomicity(FRESH, calls, None);
  }

  /** Recoveries that were cut one after another, at the given points. */
  function AfterCutRecoveries(st: Store<Value>, cuts: seq<nat>): Store<Value>
    decreases |cuts|
  {
    if cuts == [] then st else AfterCutRecoveries(Run(st, Cut(FullRecovery(st), cuts[0])), cuts[1..])
  }

  lemma RecoveryIsLog(st: Store<Value>)
    requires WellKeyed(Table(INTENT_PREFIX, st))
    ensures TableOk(IntentLog(), Table(INTENT_PREFIX, st))
    ensures FullRecovery(st) == RecoverSteps(IntentLog(), st)
  {
    WellKeyedIsOk(Table(INTENT_PREFIX, st));
    RecoverIsLogRecovery(st);
  }

  lemma OneCutRecovery(st: Store<Value>, j: nat)
    requires WellKeyed(Table(INTENT_PREFIX, st)) && j <= |FullRecovery(st)|
    ensures var st' := Run(st, FullRecovery(st)[..j]);
      WellKeyed(Table(INTENT_PREFIX, st')) && AfterRecovery(st') == AfterRecovery(st)
  {
    RecoveryIsLog(st);
    RecoverySurvivesCrash(IntentLog(), st, j);
    var st' := Run(st, FullRecovery(st)[..j]);
    WellKeyedIsOk(Table(INTENT_PREFIX, st'));
    RecoveryIsLog(st');
  }

  lemma CutRecoveryResumes(st: Store<Value>, cut: nat)
    requires WellKeyed(Table(INTENT_PREFIX, st))
    ensures var st' := Run(st, Cut(FullRecovery(st), cut));
      WellKeyed(Table(INTENT_PREFIX, st')) && AfterRecovery(st') == AfterRecovery(st)
  {
    var steps := FullRecovery(st);
    var j := if cut <= |steps| then cut else |steps|;
    assert Cut(steps, cut) == steps[..j];
    OneCutRecovery(st, j);
  }

  /** A complete recovery leaves nothing to recover. */
  lemma NothingIsLeft(st: Store<Value>)
    requires WellKeyed(Table(INTENT_PREFIX, st))
    ensures FullRecovery(AfterRecovery(st)) == []
  {
    var log, steps := IntentLog(), FullRecovery(st);
    RecoveryIsLog(st);
    assert steps[..|steps|] == steps;
    OneCutRecovery(st, |steps|);
    RecoverySurvivesCrash(log, st, |steps|);
    RecoveryIsLog(AfterRecovery(st));
    ClosedNeedsNoRecovery(log, AfterRecovery(st));
  }

  /** Recovery survives its own crashes, with any number of unfinished intents over any keys:
      after cut recoveries a complete one reaches the very store that one complete recovery
      reaches, and a further one performs no step. */
  lemma {:induction false} RecoverySurvivesCrashes(st: Store<Value>, cuts: seq<nat>)
    requires WellKeyed(Table(INTENT_PREFIX, st))
    ensures AfterRecovery(AfterCutRecoveries(st, cuts)) == AfterRecovery(st)
    ensures FullRecovery(AfterRecovery(st)) == []
    decreases |cuts|
  {
    NothingIsLeft(st);
    if cuts != [] {
      CutRecoveryResumes(st, cuts[0]);
      RecoverySurvivesCrashes(Run(st, Cut(FullRecovery(st), cuts[0])), cuts[1..]);
    }
  }

  /** Step i of a write: first the pending record is stored, over no unfinished record; then
      each data write belongs to the pending record that is in the store at that moment; the
      record is marked committed only when all its writes are the steps just before. */
  lemma WriteAheadInWrite(c: Client, call: Call, newest: Option<(Key, Value)>, i: nat)
    requires ClientOk(c, newest) && MayCall(c, call) && call.Write? && i < |CallSteps(c, call)|
    ensures var steps, k := CallSteps(c, call), IntentKey(c.nextId);
      var now := Run(c.store, steps[..i]);
      && (i == 0 ==> steps[i].key == k && steps[i].Put? && Unfinished(steps[i].value)
                     && (k in c.store ==> !Unfinished(c.store[k])))
      && (0 < i <= call.reached ==> Announced(IntentLog(), now, steps[i], k))
      && (i == call.reached + 1 && call.reached == |Writes(call)| ==> ClosesAfterWrites(IntentLog(), now, steps, i))
      && (i == call.reached + 1 && call.reached < |Writes(call)| ==>
            k in now && Unfinished(now[k]) && steps[i] == Put(k, Mark(now[k].intent, Aborted)))
  {
    WriteIsAttempt(c.store, c.nextId, call);
    WriteAheadDiscipline(IntentLog(), World(c.store, c.recovered), AttemptOf(c.nextId, call), newest, i);
  }

  /** Step i of a recovery: each data write belongs to a record unfinished in the store at that
      moment, and a record is marked only when all its writes are the steps just before. */
  lemma WriteAheadInRecovery(st: Store<Value>, i: nat)
    requires WellKeyed(Table(INTENT_PREFIX, st)) && i < |FullRecovery(st)|
    ensures Disciplined(IntentLog(), st, FullRecovery(st), i)
  {
    RecoveryIsLog(st);
    ReplayIsDisciplined(IntentLog(), st, LogKeys(INTENT_PREFIX, st), i);
  }

  /** A cleanup, cut anywhere, over a log with any number of unfinished records: it takes finished
      records only, and a recovery still leaves the same data. */
  lemma CleanupIsInvisible(st: Store<Value>, cutoff: nat, done: nat)
    requires WellKeyed(Table(INTENT_PREFIX, st)) && done <= |CleanupSteps(Scanned(st), cutoff)|
    ensures var st' := Run(st, CleanupSteps(Scanned(st), cutoff)[..done]);
      && Trimmed(IntentLog(), Table(INTENT_PREFIX, st), Table(INTENT_PREFIX, st'))
      && WellKeyed(Table(INTENT_PREFIX, st'))
      && DataOf(st') == DataOf(st)
      && DataOf(AfterRecovery(st')) == DataOf(AfterRecovery(st))
  {
    var keys := CleanupKeys(st, cutoff, done);
    var st' := Run(st, Deletes(keys));
    TrimClosed(IntentLog(), st, keys);
    TrimKeepsData(INTENT_PREFIX, st, keys);
    RecoveryIsLog(st);
    RecoveryIsLog(st');
  }
}
