/** Where the promises of the atomic writer end: one concrete run for each assumption of the
    theorems about whole runs, and what holds exactly without it. */
module AtomicLimits {
  import opened Keys
  import opened Storage
  import opened AtomicMemory
  import opened AtomicRecovery
  import opened RedoLog
  import opened LogRuns
  import LogLimits
  import opened Overlaps
  import opened AtomicRuns
  import opened GraphIndex

  // ---- writes without recovery in between ----

  /** A write under some id: that of a writer that goes on, or that of a new one that counts from 1. */
  datatype Issued = Issued(id: nat, call: Call)

  predicate Possible(call: Call) {
    call.Write? && AllKeepOut(call.ops) && call.reached <= |Writes(call)| && call.done <= call.reached + 2
  }

  predicate AllPossible(ws: seq<Issued>) {
    forall i :: 0 <= i < |ws| ==> Possible(ws[i].call)
  }

  /** The write stored its record and stopped before marking it: by a crash, or by a refused update. */
  predicate Stopped(call: Call) {
    call.Write? && 0 < call.done < call.reached + 2
  }

  predicate Complete(call: Call) {
    call.Write? && call.done == call.reached + 2
  }

  /** The store after these writes, each performed up to its own `done`. */
  function AfterWrites(st: Store<Value>, ws: seq<Issued>): Store<Value>
    requires AllPossible(ws)
    decreases |ws|
  {
    if ws == [] then st
    else AfterWrites(Run(st, Cut(AttemptSteps(st, ws[0].id, ws[0].call), ws[0].call.done)), ws[1..])
  }

  /** The data writes that a write makes before it stops. */
  function Made(call: Call): seq<Step<Value>>
    requires Possible(call)
  {
    if call.done == 0 then [] else Writes(call)[..if Complete(call) then call.reached else call.done - 1]
  }

  /** The data writes that it owes: all of them once its record is stored, or those accepted when it
      ran to its end. */
  function Due(call: Call): seq<Step<Value>>
    requires Possible(call)
  {
    if call.done == 0 then [] else if Complete(call) then Writes(call)[..call.reached] else Writes(call)
  }

  function MadeByAll(ws: seq<Issued>): seq<Step<Value>>
    requires AllPossible(ws)
  {
    if ws == [] then [] else Made(ws[0].call) + MadeByAll(ws[1..])
  }

  function DueToAll(ws: seq<Issued>): seq<Step<Value>>
    requires AllPossible(ws)
  {
    if ws == [] then [] else Due(ws[0].call) + DueToAll(ws[1..])
  }

  /** The intent log after these writes, from the log t: the latest record under each id. */
  function LogAfter(t: Store<Value>, ws: seq<Issued>): Store<Value>
    requires AllPossible(ws)
    decreases |ws|
  {
    if ws == [] then t else LogAfter(LogWith(t, ws[0]), ws[1..])
  }

  function LogWith(t: Store<Value>, w: Issued): Store<Value>
    requires Possible(w.call)
  {
    var intent := NewIntent(w.id, w.call.memoryId, w.call.ops, w.call.now);
    if w.call.done == 0 then t
    else if Complete(w.call) then t[IntentKey(w.id) := Mark(intent, StatusAfter(intent, w.call.reached))]
    else t[IntentKey(w.id) := IntentRecord(intent)]
  }

  /** The writes of the unfinished records of a log, in ascending byte order of their keys. */
  function ReplayOfLog(t: Store<Value>): seq<Step<Value>> {
    LogLimits.Replayed(IntentLog(), t)
  }

  // ---- these writes are attempts of the redo log ----

  function AttemptsOf(ws: seq<Issued>): (es: seq<Event<Value>>)
    requires AllPossible(ws)
    ensures |es| == |ws| && forall i :: 0 <= i < |es| ==> es[i] == AttemptOf(ws[i].id, ws[i].call)
  {
    seq(|ws|, i requires 0 <= i < |ws| => AttemptOf(ws[i].id, ws[i].call))
  }

  lemma AttemptsAreOk(ws: seq<Issued>)
    requires AllPossible(ws)
    ensures LogLimits.AllAttempts(IntentLog(), AttemptsOf(ws))
  {
    forall i | 0 <= i < |ws| ensures AttemptOk(IntentLog(), AttemptsOf(ws)[i]) {
      WriteIsAttempt(map[], ws[i].id, ws[i].call);
    }
  }

  lemma {:induction false} WritesAreAttempts(st: Store<Value>, ws: seq<Issued>)
    requires AllPossible(ws)
    ensures LogLimits.AllAttempts(IntentLog(), AttemptsOf(ws))
    ensures LogLimits.AfterEach(IntentLog(), st, AttemptsOf(ws)) == AfterWrites(st, ws)
    decreases |ws|
  {
    AttemptsAreOk(ws);
    if ws != [] {
      WriteIsAttempt(st, ws[0].id, ws[0].call);
      assert AttemptsOf(ws)[1..] == AttemptsOf(ws[1..]);
      WritesAreAttempts(Run(st, Cut(AttemptSteps(st, ws[0].id, ws[0].call), ws[0].call.done)), ws[1..]);
    }
  }

  lemma OneListIsAttempt(w: Issued)
    requires Possible(w.call)
    ensures var e := AttemptOf(w.id, w.call);
      AttemptOk(IntentLog(), e)
      && LogLimits.MadeBy(IntentLog(), e) == Made(w.call) && LogLimits.DueTo(IntentLog(), e) == Due(w.call)
  {
    WriteIsAttempt(map[], w.id, w.call);
  }

  lemma {:induction false} ListsAreAttempts(ws: seq<Issued>)
    requires AllPossible(ws)
    ensures LogLimits.AllAttempts(IntentLog(), AttemptsOf(ws))
    ensures LogLimits.MadeByAll(IntentLog(), AttemptsOf(ws)) == MadeByAll(ws)
    ensures LogLimits.DueToAll(IntentLog(), AttemptsOf(ws)) == DueToAll(ws)
    decreases |ws|
  {
    AttemptsAreOk(ws);
    if ws != [] {
      OneListIsAttempt(ws[0]);
      assert AttemptsOf(ws)[1..] == AttemptsOf(ws[1..]);
      ListsAreAttempts(ws[1..]);
    }
  }

  lemma {:induction false} LogIsLogged(t: Store<Value>, ws: seq<Issued>)
    requires AllPossible(ws)
    ensures LogLimits.AllAttempts(IntentLog(), AttemptsOf(ws))
    ensures LogLimits.LoggedAll(IntentLog(), t, AttemptsOf(ws)) == LogAfter(t, ws)
    decreases |ws|
  {
    AttemptsAreOk(ws);
    if ws != [] {
      assert AttemptsOf(ws)[1..] == AttemptsOf(ws[1..]);
      LogIsLogged(LogWith(t, ws[0]), ws[1..]);
    }
  }

  /** Over any well-keyed store, with any number of unfinished records, recovery changes the
      data exactly when for some key the last replayed write is not what the key already holds. */
  lemma RecoveryKeepsDataIff(st: Store<Value>)
    requires WellKeyed(Table(INTENT_PREFIX, st))
    ensures var replay := ReplayOfLog(Table(INTENT_PREFIX, st));
      && DataOf(AfterRecovery(st)) == Run(DataOf(st), replay)
      && (DataOf(AfterRecovery(st)) == DataOf(st)
          <==> forall k :: Touches(replay, k) ==> Holds(DataOf(st), LastOn(replay, k)))
  {
    WellKeyedIsOk(Table(INTENT_PREFIX, st));
    RecoverIsLogRecovery(st);
    LogLimits.RecoveredData(IntentLog(), st);
    RunChangesNothingIff(DataOf(st), ReplayOfLog(Table(INTENT_PREFIX, st)));
  }

  // ---- any writes, any number of them unfinished ----

  /** These writes and their recovery, in the terms of the redo log. */
  lemma InLogTerms(st: Store<Value>, ws: seq<Issued>)
    requires WellKeyed(Table(INTENT_PREFIX, st)) && AllPossible(ws)
    ensures TableOk(IntentLog(), Table(INTENT_PREFIX, st))
    ensures LogLimits.AllAttempts(IntentLog(), AttemptsOf(ws))
    ensures AfterWrites(st, ws) == LogLimits.AfterEach(IntentLog(), st, AttemptsOf(ws))
    ensures AfterRecovery(AfterWrites(st, ws)) == Recovered(IntentLog(), AfterWrites(st, ws))
  {
    WellKeyedIsOk(Table(INTENT_PREFIX, st));
    WritesAreAttempts(st, ws);
    LogLimits.AnyAttempts(IntentLog(), st, AttemptsOf(ws));
    WellKeyedIsOk(Table(INTENT_PREFIX, AfterWrites(st, ws)));
    RecoverIsLogRecovery(AfterWrites(st, ws));
  }

  /** Writes with any ids, each refused or cut anywhere, over any well-keyed store: the data and the log
      they leave, and what a recovery then leaves. It makes the unfinished writes again, in byte order
      of the decimal ids. */
  lemma AnyWrites(st: Store<Value>, ws: seq<Issued>)
    requires WellKeyed(Table(INTENT_PREFIX, st)) && AllPossible(ws)
    ensures var st', t' := AfterWrites(st, ws), LogAfter(Table(INTENT_PREFIX, st), ws);
      && Table(INTENT_PREFIX, st') == t' && WellKeyed(t')
      && DataOf(st') == Run(DataOf(st), MadeByAll(ws))
      && DataOf(AfterRecovery(st')) == Run(DataOf(st), MadeByAll(ws) + ReplayOfLog(t'))
  {
    InLogTerms(st, ws);
    ListsAreAttempts(ws);
    LogIsLogged(Table(INTENT_PREFIX, st), ws);
    LogLimits.AnyAttempts(IntentLog(), st, AttemptsOf(ws));
    LogLimits.AnyAttemptsRecovered(IntentLog(), st, AttemptsOf(ws));
    WellKeyedIsOk(Table(INTENT_PREFIX, AfterWrites(st, ws)));
  }

  /** Exactly when such a run still leaves the data of all its writes, in order and in full: the writes
      made and then replayed must leave every key as the writes owed do. */
  lemma StillAtomicIff(st: Store<Value>, ws: seq<Issued>)
    requires WellKeyed(Table(INTENT_PREFIX, st)) && AllPossible(ws)
    ensures var t := Table(INTENT_PREFIX, st);
      DataOf(AfterRecovery(AfterWrites(st, ws))) == Run(DataOf(AfterRecovery(st)), DueToAll(ws))
      <==> forall k :: AlikeAt(DataOf(st), MadeByAll(ws) + ReplayOfLog(LogAfter(t, ws)),
                               ReplayOfLog(t) + DueToAll(ws), k)
  {
    var t := Table(INTENT_PREFIX, st);
    AnyWrites(st, ws);
    RecoveryKeepsDataIff(st);
    RunConcat(DataOf(st), ReplayOfLog(t), DueToAll(ws));
    SameOutcomeIff(DataOf(st), MadeByAll(ws) + ReplayOfLog(LogAfter(t, ws)), ReplayOfLog(t) + DueToAll(ws));
  }

  /** Exactly when the recovery after such a run changes nothing: every key it writes must already be
      as its last write leaves it. */
  lemma ReplayIsHarmlessIff(st: Store<Value>, ws: seq<Issued>)
    requires WellKeyed(Table(INTENT_PREFIX, st)) && AllPossible(ws)
    ensures var st', replay := AfterWrites(st, ws), ReplayOfLog(LogAfter(Table(INTENT_PREFIX, st), ws));
      DataOf(AfterRecovery(st')) == DataOf(st')
      <==> forall k :: Touches(replay, k) ==> Holds(Run(DataOf(st), MadeByAll(ws)), LastOn(replay, k))
  {
    var replay := ReplayOfLog(LogAfter(Table(INTENT_PREFIX, st), ws));
    AnyWrites(st, ws);
    RunConcat(DataOf(st), MadeByAll(ws), replay);
    RunChangesNothingIff(Run(DataOf(st), MadeByAll(ws)), replay);
  }

  /** A later write takes the record of this id. */
  predicate TakesId(ws: seq<Issued>, id: nat) {
    exists i :: 0 <= i < |ws| && ws[i].id == id && ws[i].call.Write? && ws[i].call.done > 0
  }

  lemma TakesIdIsOverwrite(ws: seq<Issued>, id: nat)
    requires AllPossible(ws)
    ensures LogLimits.Overwrites(AttemptsOf(ws), IntentKey(id)) <==> TakesId(ws, id)
  {
    var es, k := AttemptsOf(ws), IntentKey(id);
    if LogLimits.Overwrites(es, k) {
      var i :| 0 <= i < |es| && es[i].Attempt? && es[i].key == k && es[i].done > 0;
      CancelPrefix(INTENT_PREFIX, Decimal(ws[i].id), Decimal(id));
      DecimalIsInjective(ws[i].id, id);
    }
    if TakesId(ws, id) {
      var i :| 0 <= i < |ws| && ws[i].id == id && ws[i].call.Write? && ws[i].call.done > 0;
      assert es[i].key == k && es[i].done > 0;
    }
  }

  /** The record of a stopped write is there for the next recovery unless a later write takes its id;
      then its missing writes are never made. */
  lemma {:induction false} StoppedRecordIsKept(t: Store<Value>, ws: seq<Issued>, j: nat)
    requires AllPossible(ws) && j < |ws| && Stopped(ws[j].call) && !TakesId(ws[j + 1..], ws[j].id)
    ensures var k, t' := IntentKey(ws[j].id), LogAfter(t, ws);
      k in t' && Unfinished(t'[k]) && WritesOf(t'[k]) == Writes(ws[j].call)
    decreases j
  {
    if j == 0 {
      LogIsLogged(LogWith(t, ws[0]), ws[1..]);
      TakesIdIsOverwrite(ws[1..], ws[0].id);
      LogLimits.KeptRecord(IntentLog(), LogWith(t, ws[0]), AttemptsOf(ws[1..]), IntentKey(ws[0].id));
    } else {
      assert ws[1..][j..] == ws[j + 1..];
      StoppedRecordIsKept(LogWith(t, ws[0]), ws[1..], j - 1);
    }
  }

  // ---- one unfinished write ----

  predicate OnlyFirstStops(ws: seq<Issued>) {
    && AllPossible(ws) && ws != [] && Stopped(ws[0].call)
    && forall i :: 0 < i < |ws| ==> Complete(ws[i].call)
  }

  lemma {:induction false} CompleteMakesDue(ws: seq<Issued>)
    requires AllPossible(ws) && forall i :: 0 <= i < |ws| ==> Complete(ws[i].call)
    ensures MadeByAll(ws) == DueToAll(ws)
    decreases |ws|
  {
    if ws != [] { CompleteMakesDue(ws[1..]); }
  }

  lemma StopsInLogTerms(ws: seq<Issued>)
    requires OnlyFirstStops(ws)
    ensures var es := AttemptsOf(ws);
      LogLimits.OnlyFirstStops(IntentLog(), es) && IntentLog().writes(es[0].record) == Writes(ws[0].call)
  {
    AttemptsAreOk(ws);
  }

  /** The stopped write is replayed in full, or not at all when a later one takes its id. */
  lemma StoppedReplay(t: Store<Value>, ws: seq<Issued>)
    requires OnlyFirstStops(ws) && AllClosed(IntentLog(), t)
    ensures ReplayOfLog(LogAfter(t, ws)) == if TakesId(ws[1..], ws[0].id) then [] else Writes(ws[0].call)
  {
    StopsInLogTerms(ws);
    LogIsLogged(t, ws);
    assert AttemptsOf(ws)[1..] == AttemptsOf(ws[1..]);
    TakesIdIsOverwrite(ws[1..], ws[0].id);
    LogLimits.OneStopped(IntentLog(), t, AttemptsOf(ws));
  }

  /** How many data writes a stopped write made. */
  function MadeEarly(call: Call): nat
    requires Stopped(call)
  {
    call.done - 1
  }

  lemma StoppedMade(ws: seq<Issued>)
    requires OnlyFirstStops(ws)
    ensures MadeByAll(ws) == Writes(ws[0].call)[..MadeEarly(ws[0].call)] + DueToAll(ws[1..])
  {
    CompleteMakesDue(ws[1..]);
  }

  lemma StoppedWriteOutcome(st: Store<Value>, ws: seq<Issued>)
    requires WellKeyed(Table(INTENT_PREFIX, st)) && AllClosed(IntentLog(), Table(INTENT_PREFIX, st))
    requires OnlyFirstStops(ws)
    ensures StoppedOutcome(DataOf(st), DataOf(AfterWrites(st, ws)),
                           DataOf(AfterRecovery(AfterWrites(st, ws))), Writes(ws[0].call),
                           MadeEarly(ws[0].call), DueToAll(ws[1..]), TakesId(ws[1..], ws[0].id))
  {
    var w, n, lost := Writes(ws[0].call), DueToAll(ws[1..]), TakesId(ws[1..], ws[0].id);
    AnyWrites(st, ws);
    StoppedReplay(Table(INTENT_PREFIX, st), ws);
    StoppedMade(ws);
    RunThree(DataOf(st), w[..MadeEarly(ws[0].call)], n, if lost then [] else w);
  }

  /** One write stopped, and only complete ones after it: it is replayed in full over the later ones;
      but when one of them takes its id, what was missing of it is never made. */
  lemma OneStoppedWrite(st: Store<Value>, ws: seq<Issued>)
    requires WellKeyed(Table(INTENT_PREFIX, st)) && AllClosed(IntentLog(), Table(INTENT_PREFIX, st))
    requires OnlyFirstStops(ws)
    ensures var w, j, n := Writes(ws[0].call), MadeEarly(ws[0].call), DueToAll(ws[1..]);
      && DataOf(AfterWrites(st, ws)) == Run(Run(DataOf(st), w[..j]), n)
      && DataOf(AfterRecovery(AfterWrites(st, ws)))
         == if TakesId(ws[1..], ws[0].id) then Run(Run(DataOf(st), w[..j]), n)
            else Run(Run(Run(DataOf(st), w[..j]), n), w)
  {
    StoppedWriteOutcome(st, ws);
  }

  /** The condition is then about keys alone. If the id is taken, every key of the stopped write that
      the later ones leave alone must already be final; otherwise the later writes must end every key
      they share with it as it does. */
  lemma OneStoppedWriteIff(st: Store<Value>, ws: seq<Issued>)
    requires WellKeyed(Table(INTENT_PREFIX, st)) && AllClosed(IntentLog(), Table(INTENT_PREFIX, st))
    requires OnlyFirstStops(ws)
    ensures var w, n := Writes(ws[0].call), DueToAll(ws[1..]);
      (DataOf(AfterRecovery(AfterWrites(st, ws))) == Run(Run(DataOf(st), w), n))
      == FineAnyway(DataOf(st), w, MadeEarly(ws[0].call), n, TakesId(ws[1..], ws[0].id))
  {
    StoppedWriteOutcome(st, ws);
    LostOrLateIff(DataOf(st), DataOf(AfterWrites(st, ws)), DataOf(AfterRecovery(AfterWrites(st, ws))),
                  Writes(ws[0].call), MadeEarly(ws[0].call), DueToAll(ws[1..]), TakesId(ws[1..], ws[0].id));
  }

  // ---- runs that fail ----

  lemma SingleOp(op: MemoryOp, m: string, v: nat)
    ensures OpsSteps([op], m, v) == OpSteps(op, m, v)
  {
    assert [op][..0] == [] && OpsSteps([], m, v) == [];
  }

  lemma BlobLands(d: Store<Value>, key: Key, value: string, m: string, v: nat)
    ensures var d' := Run(d, OpsSteps([PutBlob(key, value)], m, v)); key in d' && d'[key] == Raw(value)
  {
    var op := PutBlob(key, value);
    SingleOp(op, m, v);
    assert OpSteps(op, m, v)[1].key == key;
    LastStepDecides(d, OpSteps(op, m, v), key);
  }

  lemma DueToOne(w: Issued)
    requires Possible(w.call)
    ensures DueToAll([w]) == Due(w.call) && MadeByAll([w]) == Made(w.call)
  {
    assert [w][1..] == [] && DueToAll([]) == [] && MadeByAll([]) == [];
  }

  lemma StoppedThenComplete(st: Store<Value>, id: nat, first: Call, second: Call)
    requires WellKeyed(Table(INTENT_PREFIX, st)) && AllClosed(IntentLog(), Table(INTENT_PREFIX, st))
    requires Possible(first) && Stopped(first)
    requires Possible(second) && Complete(second) && second.reached == |Writes(second)|
    ensures var st' := AfterWrites(st, [Issued(id, first), Issued(id + 1, second)]);
      && DataOf(st') == Run(Run(DataOf(st), Writes(first)[..first.done - 1]), Writes(second))
      && DataOf(AfterRecovery(st')) == Run(DataOf(st'), Writes(first))
  {
    var ws := [Issued(id, first), Issued(id + 1, second)];
    assert ws[1..] == [Issued(id + 1, second)];
    assert Writes(second)[..second.reached] == Writes(second);
    DueToOne(ws[1]);
    OneStoppedWrite(st, ws);
  }

  /** The status update of a write is refused and its writer goes on: the second value of a blob
      commits, and recovery puts the first one back. */
  lemma UnmarkedBlobComesBack(st: Store<Value>, id: nat, first: Call, second: Call, key: Key, was: string, now: string)
    requires WellKeyed(Table(INTENT_PREFIX, st)) && AllClosed(IntentLog(), Table(INTENT_PREFIX, st))
    requires Possible(first) && Stopped(first) && first.done == first.reached + 1
    requires Possible(second) && Complete(second) && second.reached == |Writes(second)|
    requires first.ops == [PutBlob(key, was)] && second.ops == [PutBlob(key, now)]
    ensures var st' := AfterWrites(st, [Issued(id, first), Issued(id + 1, second)]);
      && key in DataOf(st') && DataOf(st')[key] == Raw(now)
      && key in DataOf(AfterRecovery(st')) && DataOf(AfterRecovery(st'))[key] == Raw(was)
  {
    var d := Run(DataOf(st), Writes(first)[..first.reached]);
    StoppedThenComplete(st, id, first, second);
    BlobLands(d, key, now, second.memoryId, second.now);
    BlobLands(Run(d, Writes(second)), key, was, first.memoryId, first.now);
  }

  /** Two successive writes stop with their records unfinished: recovery replays them in the order of
      the decimal texts of their ids, so of two values of a blob the older one wins exactly when the
      second id is a power of ten. */
  lemma OlderBlobWinsIff(st: Store<Value>, id: nat, first: Call, second: Call, key: Key, was: string, now: string)
    requires WellKeyed(Table(INTENT_PREFIX, st)) && AllClosed(IntentLog(), Table(INTENT_PREFIX, st))
    requires Possible(first) && Stopped(first) && Possible(second) && Stopped(second)
    requires first.ops == [PutBlob(key, was)] && second.ops == [PutBlob(key, now)]
    ensures var d' := DataOf(AfterRecovery(AfterWrites(st, [Issued(id, first), Issued(id + 1, second)])));
      key in d' && d'[key] == Raw(if PowerOfTen(id + 1) then was else now)
  {
    var ws := [Issued(id, first), Issued(id + 1, second)];
    var made, w, w' := MadeByAll(ws), Writes(first), Writes(second);
    AnyWrites(st, ws);
    TwoUnfinished(Table(INTENT_PREFIX, st), id, first, second);
    var d := Run(DataOf(st), made);
    if PowerOfTen(id + 1) {
      RunConcat(DataOf(st), made, w' + w);
      RunConcat(d, w', w);
      BlobLands(Run(d, w'), key, was, first.memoryId, first.now);
    } else {
      RunConcat(DataOf(st), made, w + w');
      RunConcat(d, w, w');
      BlobLands(Run(d, w), key, now, second.memoryId, second.now);
    }
  }

  lemma TwoUnfinished(t: Store<Value>, id: nat, first: Call, second: Call)
    requires AllClosed(IntentLog(), t)
    requires Possible(first) && Stopped(first) && Possible(second) && Stopped(second)
    ensures ReplayOfLog(LogAfter(t, [Issued(id, first), Issued(id + 1, second)]))
         == if PowerOfTen(id + 1) then Writes(second) + Writes(first) else Writes(first) + Writes(second)
  {
    var ws, a, b := [Issued(id, first), Issued(id + 1, second)], IntentKey(id), IntentKey(id + 1);
    assert ws[1..] == [ws[1]] && ws[1..][1..] == [];
    var t' := LogWith(LogWith(t, ws[0]), ws[1]);
    assert LogAfter(t, ws) == LogAfter(LogWith(t, ws[0]), ws[1..]) == LogAfter(t', ws[1..][1..]) == t';
    SuccessorsInOrderIff(id);
    LessAfterPrefix(INTENT_PREFIX, Decimal(id), Decimal(id + 1));
    LessAfterPrefix(INTENT_PREFIX, Decimal(id + 1), Decimal(id));
    LessTrichotomy(a, b);
    if PowerOfTen(id + 1) {
      LogLimits.TwoReplayed(IntentLog(), t', b, a);
    } else {
      LogLimits.TwoReplayed(IntentLog(), t', a, b);
    }
  }

  /** From an empty store: writes 9 and 10 stop with their records unfinished, and recovery leaves the
      blob of write 9, which is not what the two writes owe. */
  lemma TenIsReplayedBeforeNine(first: Call, second: Call, key: Key, was: string, now: string)
    requires Possible(first) && Stopped(first) && Possible(second) && Stopped(second) && was != now
    requires first.ops == [PutBlob(key, was)] && second.ops == [PutBlob(key, now)]
    ensures var ws := [Issued(9, first), Issued(10, second)];
      DataOf(AfterRecovery(AfterWrites(map[], ws))) != Run(map[], DueToAll(ws))
  {
    var ws: seq<Issued> := [Issued(9, first), Issued(10, second)];
    assert PowerOfTen(10);
    OlderBlobWinsIff(map[], 9, first, second, key, was, now);
    assert ws[1..] == [ws[1]];
    DueToOne(ws[1]);
    RunConcat(map[], Writes(first), Writes(second));
    BlobLands(Run(map[], Writes(first)), key, now, second.memoryId, second.now);
  }

  /** Half of an edge creation leaves the edge without its index entry. */
  lemma HalfAnEdge(d: Store<Value>, op: MemoryOp, m: string, v: nat)
    requires op.CreateEdge? && GraphSafe(op) && IndexKey(op.ns, op.fromId, op.edgeType, op.toId) !in d
    ensures !EdgeAgrees(Run(d, OpSteps(op, m, v)[..1]), op.ns, op.fromId, op.edgeType, op.toId)
  {
    EdgeIsNotIndex(op.ns, op.fromId, op.edgeType, op.toId, op.ns, op.fromId, op.edgeType, op.toId);
    var half := OpSteps(op, m, v)[..1];
    assert half == [] + [OpSteps(op, m, v)[0]];
    RunSnoc(d, [], OpSteps(op, m, v)[0]);
  }

  /** A crash cuts a write after its first data write, and the next writer, which counts from 1 again,
      writes nothing under the same id before it recovers: the one data write is all that is ever made. */
  lemma RestIsLost(st: Store<Value>, ws: seq<Issued>)
    requires WellKeyed(Table(INTENT_PREFIX, st)) && AllClosed(IntentLog(), Table(INTENT_PREFIX, st))
    requires |ws| == 2 && AllPossible(ws) && ws[0].id == ws[1].id
    requires ws[0].call.done == 2 && ws[0].call.reached > 0
    requires Complete(ws[1].call) && DueToAll(ws[1..]) == []
    ensures DataOf(AfterRecovery(AfterWrites(st, ws))) == Run(DataOf(st), Writes(ws[0].call)[..1])
  {
    assert TakesId(ws[1..], ws[0].id) by { assert ws[1..][0] == ws[1]; }
    OneStoppedWrite(st, ws);
  }

  /** Such a run tears an edge from its index entry for good. */
  lemma SkippedRecoveryTearsEdge(st: Store<Value>, cut: Call, next: Call)
    requires WellKeyed(Table(INTENT_PREFIX, st)) && AllClosed(IntentLog(), Table(INTENT_PREFIX, st))
    requires Possible(cut) && cut.done == 2 && cut.reached > 0
    requires |cut.ops| == 1 && cut.ops[0].CreateEdge? && GraphSafe(cut.ops[0])
    requires var op := cut.ops[0]; IndexKey(op.ns, op.fromId, op.edgeType, op.toId) !in st
    requires Possible(next) && Complete(next) && next.ops == []
    ensures !GraphAgrees(DataOf(AfterRecovery(AfterWrites(st, [Issued(1, cut), Issued(1, next)]))))
  {
    var ws, op := [Issued(1, cut), Issued(1, next)], cut.ops[0];
    assert ws[1..] == [ws[1]];
    DueToOne(ws[1]);
    RestIsLost(st, ws);
    assert cut.ops == [op];
    SingleOp(op, cut.memoryId, cut.now);
    HalfAnEdge(DataOf(st), op, cut.memoryId, cut.now);
  }
}
