/** The workflow checkpoint store: run metadata with two counters, numbered checkpoints per node
    and a numbered event log, all under one key prefix. Every writing method is tied to the exact
    store steps it performs, so a crash is a cut of that list. */
module Checkpoints {
  import opened Keys
  import opened Storage
  import opened Streams

  type RunId = string
  type NodeId = string
  type Json = string

  datatype RunStatus = Running | Completed | Failed | Cancelled | Paused

  datatype RunMetadata = RunMetadata(
    runId: RunId, workflow: string, status: RunStatus, createdAt: nat, updatedAt: nat,
    params: map<string, Json>, latestCheckpointSeq: nat, latestEventSeq: nat)

  datatype Checkpoint = Checkpoint(
    runId: RunId, nodeId: NodeId, seqNo: nat, state: string, timestamp: nat, metadata: map<string, string>)

  datatype CheckpointMeta = CheckpointMeta(
    runId: RunId, nodeId: NodeId, seqNo: nat, timestamp: nat, stateSize: nat, metadata: map<string, string>)

  datatype WorkflowEvent = WorkflowEvent(
    runId: RunId, seqNo: nat, eventType: string, timestamp: nat, nodeId: Option<NodeId>, payload: Json)

  /** What a key can hold: the JSON text of one of the record types, or something else. */
  datatype Record =
    | RunRecord(meta: RunMetadata)
    | CheckpointRecord(checkpoint: Checkpoint)
    | EventRecord(event: WorkflowEvent)
    | OtherBytes(bytes: string)

  // ---- keys ----

  const CHECKPOINT_PREFIX: Key := "_checkpoints/"

  function RunKey(run: RunId): Key {
    CHECKPOINT_PREFIX + (run + "/" + "meta")
  }

  function NodesPrefix(run: RunId): Key {
    CHECKPOINT_PREFIX + (run + "/" + ("nodes" + "/" + ""))
  }

  function CheckpointPrefix(run: RunId, node: NodeId): Key {
    CHECKPOINT_PREFIX + (run + "/" + ("nodes" + "/" + (node + "/" + "")))
  }

  function CheckpointKey(run: RunId, node: NodeId, n: nat): Key {
    Slot(CheckpointPrefix(run, node), n)
  }

  function EventsPrefix(run: RunId): Key {
    CHECKPOINT_PREFIX + (run + "/" + ("events" + "/" + ""))
  }

  function EventKey(run: RunId, n: nat): Key {
    Slot(EventsPrefix(run), n)
  }

  // ---- what each operation computes and writes ----

  function NewRun(run: RunId, workflow: string, params: map<string, Json>, now: nat): RunMetadata {
    RunMetadata(run, workflow, Running, now, now, params, 0, 0)
  }

  function FoundRun(st: Store<Record>, run: RunId): Result<Option<RunMetadata>> {
    if RunKey(run) !in st then Ok(None)
    else if st[RunKey(run)].RunRecord? then Ok(Some(st[RunKey(run)].meta))
    else Err(Serialization)
  }

  predicate HasRun(st: Store<Record>, run: RunId) {
    RunKey(run) in st && st[RunKey(run)].RunRecord?
  }

  /** Why a number cannot be issued. The next number must fit in 64 bits. */
  function CannotIssue(st: Store<Record>, run: RunId, latest: RunMetadata -> nat): Option<ClientError> {
    if RunKey(run) !in st then Some(NotFound)
    else if !st[RunKey(run)].RunRecord? then Some(Serialization)
    else if latest(st[RunKey(run)].meta) >= U64_MAX then Some(Overflow)
    else None
  }

  function CheckpointSeqOf(m: RunMetadata): nat {
    m.latestCheckpointSeq
  }

  function EventSeqOf(m: RunMetadata): nat {
    m.latestEventSeq
  }

  function StatusSteps(st: Store<Record>, run: RunId, status: RunStatus, now: nat): seq<Step<Record>> {
    if HasRun(st, run)
    then [Put(RunKey(run), RunRecord(st[RunKey(run)].meta.(status := status, updatedAt := now)))]
    else []
  }

  function SavedAs(st: Store<Record>, run: RunId, node: NodeId, state: string, metadata: map<string, string>,
                   ts: nat): Checkpoint
    requires HasRun(st, run)
  {
    Checkpoint(run, node, st[RunKey(run)].meta.latestCheckpointSeq + 1, state, ts, metadata)
  }

  /** The counter is written first, then the record. */
  function SaveSteps(st: Store<Record>, run: RunId, node: NodeId, state: string, metadata: map<string, string>,
                     now: nat, ts: nat): seq<Step<Record>>
  {
    if CannotIssue(st, run, CheckpointSeqOf).Some? then []
    else
      var cp := SavedAs(st, run, node, state, metadata, ts);
      [Put(RunKey(run), RunRecord(st[RunKey(run)].meta.(latestCheckpointSeq := cp.seqNo, updatedAt := now))),
       Put(CheckpointKey(run, node, cp.seqNo), CheckpointRecord(cp))]
  }

  function AppendedAs(st: Store<Record>, event: WorkflowEvent, ts: nat): WorkflowEvent
    requires HasRun(st, event.runId)
  {
    event.(seqNo := st[RunKey(event.runId)].meta.latestEventSeq + 1, timestamp := ts)
  }

  function AppendSteps(st: Store<Record>, event: WorkflowEvent, now: nat, ts: nat): seq<Step<Record>> {
    if CannotIssue(st, event.runId, EventSeqOf).Some? then []
    else
      var ev := AppendedAs(st, event, ts);
      [Put(RunKey(event.runId), RunRecord(st[RunKey(event.runId)].meta.(latestEventSeq := ev.seqNo, updatedAt := now))),
       Put(EventKey(event.runId, ev.seqNo), EventRecord(ev))]
  }

  /** Deleting the keys a scan of the prefix lists. */
  function ClearSteps(st: Store<Record>, prefix: Key): seq<Step<Record>> {
    Deletes(ScanKeys(st, prefix))
  }

  /** Checkpoints first, then events. */
  function ContentSteps(st: Store<Record>, run: RunId): seq<Step<Record>> {
    var cps := ClearSteps(st, NodesPrefix(run));
    cps + ClearSteps(Run(st, cps), EventsPrefix(run))
  }

  /** The contents first, and the metadata last. */
  function DeleteSteps(st: Store<Record>, run: RunId): seq<Step<Record>> {
    if HasRun(st, run) then ContentSteps(st, run) + [Delete(RunKey(run))] else []
  }

  function MetaOf(cp: Checkpoint): CheckpointMeta {
    CheckpointMeta(cp.runId, cp.nodeId, cp.seqNo, cp.timestamp, |cp.state|, cp.metadata)
  }

  /** The last entry of a scan. */
  function LastCheckpoint(entries: seq<(Key, Record)>): Result<Option<Checkpoint>> {
    if entries == [] then Ok(None)
    else
      var v := entries[|entries| - 1].1;
      if v.CheckpointRecord? then Ok(Some(v.checkpoint)) else Err(Serialization)
  }

  predicate AllCheckpoints(entries: seq<(Key, Record)>) {
    forall i :: 0 <= i < |entries| ==> entries[i].1.CheckpointRecord?
  }

  function Metas(entries: seq<(Key, Record)>): (ms: seq<CheckpointMeta>)
    requires AllCheckpoints(entries)
    ensures |ms| == |entries| && forall i :: 0 <= i < |ms| ==> ms[i] == MetaOf(entries[i].1.checkpoint)
  {
    seq(|entries|, i requires 0 <= i < |entries| && entries[i].1.CheckpointRecord? => MetaOf(entries[i].1.checkpoint))
  }

  function Listing(entries: seq<(Key, Record)>): Result<seq<CheckpointMeta>> {
    if AllCheckpoints(entries) then Ok(Metas(entries)) else Err(Serialization)
  }

  function Cons(e: WorkflowEvent, r: Result<seq<WorkflowEvent>>): Result<seq<WorkflowEvent>> {
    match r
    case Ok(es) => Ok([e] + es)
    case Err(x) => Err(x)
  }

  /** Events above `since`, in scan order, until `room` are found. Entries after that are not read. */
  function Select(entries: seq<(Key, Record)>, since: nat, room: nat): Result<seq<WorkflowEvent>> {
    if entries == [] then Ok([])
    else
      var v := entries[0].1;
      if !v.EventRecord? then Err(Serialization)
      else if v.event.seqNo <= since then Select(entries[1..], since, room)
      else if room <= 1 then Ok([v.event])
      else Cons(v.event, Select(entries[1..], since, room - 1))
  }

  function Prepend(es: seq<WorkflowEvent>, r: Result<seq<WorkflowEvent>>): Result<seq<WorkflowEvent>> {
    match r
    case Ok(xs) => Ok(es + xs)
    case Err(x) => Err(x)
  }

  class CheckpointStore {
    const conn: Connection<Record>

    constructor (conn: Connection<Record>)
      ensures this.conn == conn
    {
      this.conn := conn;
    }

    method GetRun(run: RunId) returns (r: Result<Option<RunMetadata>>)
      modifies conn`faults
      ensures conn.faults >= old(conn.faults)
      ensures r == if conn.faults == old(conn.faults) then FoundRun(conn.store, run) else Err(StorageError)
    {
      var found := conn.Get(RunKey(run));
      match found {
        case Err(e) => r := Err(StorageError);
        case Ok(None) => r := Ok(None);
        case Ok(Some(v)) => r := if v.RunRecord? then Ok(Some(v.meta)) else Err(Serialization);
      }
    }

    method CreateRun(run: RunId, workflow: string, params: map<string, Json>, now: nat)
      returns (r: Result<RunMetadata>)
      modifies conn
      ensures r.Ok? ==> r.value == RunMetadata(run, workflow, Running, now, now, params, 0, 0)
      ensures conn.Performed(old(conn.trace), old(conn.store),
        if r.Ok? then [Put(RunKey(run), RunRecord(NewRun(run, workflow, params, now)))] else [])
      ensures conn.faults >= old(conn.faults) && (r.Ok? <==> conn.faults == old(conn.faults))
    {
      var meta := NewRun(run, workflow, params, now);
      var ok := conn.Do(Put(RunKey(run), RunRecord(meta)));
      RunOne(old(conn.store), Put(RunKey(run), RunRecord(meta)));
      r := if ok then Ok(meta) else Err(StorageError);
    }

    /** A missing run is left alone, without an error. */
    method UpdateRunStatus(run: RunId, status: RunStatus, now: nat) returns (r: Result<()>)
      modifies conn
      ensures conn.faults >= old(conn.faults)
      ensures r == if conn.faults > old(conn.faults) then Err(StorageError)
                   else if FoundRun(old(conn.store), run).Ok? then Ok(()) else Err(Serialization)
      ensures conn.Performed(old(conn.trace), old(conn.store),
        if r.Ok? then StatusSteps(old(conn.store), run, status, now) else [])
    {
      var found := GetRun(run);
      match found {
        case Err(e) => r := Err(e);
        case Ok(None) => r := Ok(());
        case Ok(Some(meta)) =>
          var step := Put(RunKey(run), RunRecord(meta.(status := status, updatedAt := now)));
          var ok := conn.Do(step);
          RunOne(old(conn.store), step);
          r := if ok then Ok(()) else Err(StorageError);
      }
    }

    /** Saves a checkpoint under the next number of the run. The metadata is read once for the number
        and again for its rewriting. With done == 1 the number is used up and no record stored. */
    method SaveCheckpoint(run: RunId, node: NodeId, state: string, metadata: map<string, string>, now: nat, ts: nat)
      returns (r: Result<CheckpointMeta>, ghost done: nat)
      modifies conn
      ensures var steps := SaveSteps(old(conn.store), run, node, state, metadata, now, ts);
        && done <= |steps|
        && conn.Performed(old(conn.trace), old(conn.store), steps[..done])
        && (r.Ok? ==> done == |steps| == 2 && HasRun(old(conn.store), run)
                      && r.value == CheckpointMeta(run, node, old(conn.store)[RunKey(run)].meta.latestCheckpointSeq + 1,
                                                   ts, |state|, metadata))
        && (r.Err? ==> done < 2)
      ensures conn.faults >= old(conn.faults) && (r.Ok? ==> conn.faults == old(conn.faults))
      ensures r.Err? && conn.faults > old(conn.faults) ==> r.error == StorageError
      ensures r.Err? && conn.faults == old(conn.faults) ==>
        CannotIssue(old(conn.store), run, CheckpointSeqOf) == Some(r.error)
      ensures conn.faults == old(conn.faults) ==>
        var st := old(conn.store);
        && (r.Ok? <==> HasRun(st, run) && st[RunKey(run)].meta.latestCheckpointSeq < U64_MAX)
        && (r == Err(NotFound) <==> RunKey(run) !in st)
        && (r == Err(Serialization) <==> RunKey(run) in st && !st[RunKey(run)].RunRecord?)
    {
      done := 0;
      var found := GetRun(run);
      if found.Err? { return Err(found.error), 0; }
      if found.value.None? { return Err(NotFound), 0; }
      var meta := found.value.value;
      if meta.latestCheckpointSeq >= U64_MAX { return Err(Overflow), 0; }
      var n := meta.latestCheckpointSeq + 1;
      found := GetRun(run);
      if found.Err? { return Err(found.error), 0; }
      var cp := Checkpoint(run, node, n, state, ts, metadata);
      var ok;
      ok, done := conn.DoAll(
        [Put(RunKey(run), RunRecord(found.value.value.(latestCheckpointSeq := n, updatedAt := now))),
         Put(CheckpointKey(run, node, n), CheckpointRecord(cp))]);
      r := if ok then Ok(MetaOf(cp)) else Err(StorageError);
    }

    method AppendEvent(event: WorkflowEvent, now: nat, ts: nat) returns (r: Result<nat>, ghost done: nat)
      modifies conn
      ensures var steps := AppendSteps(old(conn.store), event, now, ts);
        && done <= |steps|
        && conn.Performed(old(conn.trace), old(conn.store), steps[..done])
        && (r.Ok? ==> done == |steps| == 2 && HasRun(old(conn.store), event.runId)
                      && r.value == old(conn.store)[RunKey(event.runId)].meta.latestEventSeq + 1)
        && (r.Err? ==> done < 2)
      ensures conn.faults >= old(conn.faults) && (r.Ok? ==> conn.faults == old(conn.faults))
      ensures r.Err? && conn.faults > old(conn.faults) ==> r.error == StorageError
      ensures r.Err? && conn.faults == old(conn.faults) ==>
        CannotIssue(old(conn.store), event.runId, EventSeqOf) == Some(r.error)
      ensures conn.faults == old(conn.faults) ==>
        var st, run := old(conn.store), event.runId;
        && (r.Ok? <==> HasRun(st, run) && st[RunKey(run)].meta.latestEventSeq < U64_MAX)
        && (r == Err(NotFound) <==> RunKey(run) !in st)
        && (r == Err(Serialization) <==> RunKey(run) in st && !st[RunKey(run)].RunRecord?)
    {
      done := 0;
      var run := event.runId;
      var found := GetRun(run);
      if found.Err? { return Err(found.error), 0; }
      if found.value.None? { return Err(NotFound), 0; }
      var meta := found.value.value;
      if meta.latestEventSeq >= U64_MAX { return Err(Overflow), 0; }
      var n := meta.latestEventSeq + 1;
      found := GetRun(run);
      if found.Err? { return Err(found.error), 0; }
      var ok;
      ok, done := conn.DoAll(
        [Put(RunKey(run), RunRecord(found.value.value.(latestEventSeq := n, updatedAt := now))),
         Put(EventKey(run, n), EventRecord(event.(seqNo := n, timestamp := ts)))]);
      r := if ok then Ok(n) else Err(StorageError);
    }

    method LoadCheckpoint(run: RunId, node: NodeId) returns (r: Result<Option<Checkpoint>>)
      modifies conn`faults
      ensures conn.faults >= old(conn.faults)
      ensures r == if conn.faults > old(conn.faults) then Err(StorageError)
                   else LastCheckpoint(ScanResult(conn.store, CheckpointPrefix(run, node)))
    {
      var found := conn.Scan(CheckpointPrefix(run, node));
      match found {
        case Err(e) => r := Err(StorageError);
        case Ok(entries) => r := LastCheckpoint(entries);
      }
    }

    method LoadCheckpointAt(run: RunId, node: NodeId, n: nat) returns (r: Result<Option<Checkpoint>>)
      modifies conn`faults
      ensures conn.faults >= old(conn.faults)
      ensures r == if conn.faults > old(conn.faults) then Err(StorageError)
                   else if CheckpointKey(run, node, n) !in conn.store then Ok(None)
                   else if conn.store[CheckpointKey(run, node, n)].CheckpointRecord?
                   then Ok(Some(conn.store[CheckpointKey(run, node, n)].checkpoint))
                   else Err(Serialization)
    {
      var found := conn.Get(CheckpointKey(run, node, n));
      match found {
        case Err(e) => r := Err(StorageError);
        case Ok(None) => r := Ok(None);
        case Ok(Some(v)) => r := if v.CheckpointRecord? then Ok(Some(v.checkpoint)) else Err(Serialization);
      }
    }

    /** The loop shared by both listings. */
    method CollectMetas(entries: seq<(Key, Record)>) returns (r: Result<seq<CheckpointMeta>>)
      ensures r == Listing(entries)
    {
      var metas: seq<CheckpointMeta> := [];
      var i := 0;
      while i < |entries|
        invariant 0 <= i <= |entries| && AllCheckpoints(entries[..i])
        invariant metas == Metas(entries[..i])
      {
        var v := entries[i].1;
        if !v.CheckpointRecord? { return Err(Serialization); }
        metas := metas + [MetaOf(v.checkpoint)];
        i := i + 1;
      }
      assert entries[..i] == entries;
      r := Ok(metas);
    }

    method ListCheckpoints(run: RunId) returns (r: Result<seq<CheckpointMeta>>)
      modifies conn`faults
      ensures conn.faults >= old(conn.faults)
      ensures r == if conn.faults > old(conn.faults) then Err(StorageError)
                   else Listing(ScanResult(conn.store, NodesPrefix(run)))
    {
      var found := conn.Scan(NodesPrefix(run));
      if found.Err? { return Err(StorageError); }
      r := CollectMetas(found.value);
    }

    method ListNodeCheckpoints(run: RunId, node: NodeId) returns (r: Result<seq<CheckpointMeta>>)
      modifies conn`faults
      ensures conn.faults >= old(conn.faults)
      ensures r == if conn.faults > old(conn.faults) then Err(StorageError)
                   else Listing(ScanResult(conn.store, CheckpointPrefix(run, node)))
    {
      var found := conn.Scan(CheckpointPrefix(run, node));
      if found.Err? { return Err(StorageError); }
      r := CollectMetas(found.value);
    }

    /** The loop of get_events. The limit is tested after an event is pushed, so a limit of 0
        behaves as 1. */
    method CollectEvents(entries: seq<(Key, Record)>, since: nat, limit: nat) returns (r: Result<seq<WorkflowEvent>>)
      ensures r == Select(entries, since, if limit == 0 then 1 else limit)
    {
      ghost var room := if limit == 0 then 1 else limit;
      var events: seq<WorkflowEvent> := [];
      var i := 0;
      assert entries[0..] == entries;
      PrependNil(Select(entries, since, room));
      while i < |entries|
        invariant 0 <= i <= |entries| && |events| < room
        invariant Select(entries, since, room) == Prepend(events, Select(entries[i..], since, room - |events|))
      {
        var v := entries[i].1;
        assert entries[i..][1..] == entries[i + 1..];
        if !v.EventRecord? { return Err(Serialization); }
        if v.event.seqNo > since {
          PrependCons(events, v.event, Select(entries[i + 1..], since, room - |events| - 1));
          events := events + [v.event];
          if |events| >= limit { return Ok(events); }
        }
        i := i + 1;
      }
      assert events + [] == events;
      r := Ok(events);
    }

    method GetEvents(run: RunId, sinceSeq: Option<nat>, limit: nat) returns (r: Result<seq<WorkflowEvent>>)
      modifies conn`faults
      ensures conn.faults >= old(conn.faults)
      ensures r == if conn.faults > old(conn.faults) then Err(StorageError)
                   else Select(ScanResult(conn.store, EventsPrefix(run)),
                               if sinceSeq.Some? then sinceSeq.value else 0, if limit == 0 then 1 else limit)
    {
      var found := conn.Scan(EventsPrefix(run));
      if found.Err? { return Err(StorageError); }
      r := CollectEvents(found.value, if sinceSeq.Some? then sinceSeq.value else 0, limit);
    }

    method DeleteKeys(entries: seq<(Key, Record)>, ghost keys: seq<Key>) returns (ok: bool, ghost n: nat)
      requires |entries| == |keys| && forall i :: 0 <= i < |keys| ==> entries[i].0 == keys[i]
      modifies conn
      ensures n <= |keys| && (ok <==> n == |keys|)
      ensures conn.Performed(old(conn.trace), old(conn.store), Deletes(keys)[..n])
      ensures conn.faults >= old(conn.faults) && (ok <==> conn.faults == old(conn.faults))
    {
      var i := 0;
      while i < |entries|
        invariant 0 <= i <= |entries| && conn.faults == old(conn.faults)
        invariant conn.Performed(old(conn.trace), old(conn.store), Deletes(keys)[..i])
      {
        ok := conn.Do(Delete(entries[i].0));
        if !ok { return false, i; }
        assert Deletes<Record>(keys)[..i + 1] == Deletes<Record>(keys)[..i] + [Delete(keys[i])];
        RunSnoc(old(conn.store), Deletes(keys)[..i], Delete(keys[i]));
        i := i + 1;
      }
      ok, n := true, i;
    }

    /** Scans a prefix and deletes what the scan lists; n is how many keys were deleted. */
    method DeleteUnder(prefix: Key) returns (ok: bool, ghost n: nat)
      modifies conn
      ensures n <= |ClearSteps(old(conn.store), prefix)|
      ensures ok ==> n == |ClearSteps(old(conn.store), prefix)|
      ensures conn.faults >= old(conn.faults) && (ok <==> conn.faults == old(conn.faults))
      ensures conn.Performed(old(conn.trace), old(conn.store), ClearSteps(old(conn.store), prefix)[..n])
    {
      var found := conn.Scan(prefix);
      if found.Err? { return false, 0; }
      ok, n := DeleteKeys(found.value, ScanKeys(conn.store, prefix));
    }

    /** Deletes a run's checkpoints, then its events. */
    method DeleteContents(run: RunId) returns (ok: bool, ghost done: nat)
      modifies conn
      ensures done <= |ContentSteps(old(conn.store), run)|
      ensures conn.Performed(old(conn.trace), old(conn.store), ContentSteps(old(conn.store), run)[..done])
      ensures ok ==> done == |ContentSteps(old(conn.store), run)|
      ensures conn.faults >= old(conn.faults) && (ok <==> conn.faults == old(conn.faults))
    {
      ghost var t0, st0 := conn.trace, conn.store;
      ghost var cps := ClearSteps(st0, NodesPrefix(run));
      ok, done := DeleteUnder(NodesPrefix(run));
      if !ok {
        CutJoin(cps, ClearSteps(Run(st0, cps), EventsPrefix(run)), done, 0);
        return;
      }
      ghost var t1, st1 := conn.trace, conn.store;
      assert cps[..done] == cps;
      ghost var evs := ClearSteps(st1, EventsPrefix(run));
      ghost var n;
      ok, n := DeleteUnder(EventsPrefix(run));
      PerformedThen(conn, t0, st0, cps, t1, st1, evs[..n]);
      CutJoin(cps, evs, 0, n);
      done := |cps| + n;
    }

    /** Deletes a run's contents, then its metadata. */
    method DeleteAll(run: RunId) returns (ok: bool, ghost done: nat)
      requires HasRun(conn.store, run)
      modifies conn
      ensures done <= |DeleteSteps(old(conn.store), run)|
      ensures conn.Performed(old(conn.trace), old(conn.store), DeleteSteps(old(conn.store), run)[..done])
      ensures ok ==> done == |DeleteSteps(old(conn.store), run)|
      ensures conn.faults >= old(conn.faults) && (ok <==> conn.faults == old(conn.faults))
    {
      ghost var st0 := conn.store;
      ghost var content := ContentSteps(st0, run);
      ok, done := DeleteContents(run);
      CutJoin(content, [Delete(RunKey(run))], done, 0);
      if !ok { return; }
      assert content[..done] == content;
      ok := conn.Do(Delete(RunKey(run)));
      if !ok { return; }
      RunSnoc(st0, content, Delete(RunKey(run)));
      done := done + 1;
      assert DeleteSteps(st0, run)[..done] == DeleteSteps(st0, run);
    }

    /** Deletes a run: its checkpoints, its events, and its metadata last. */
    method DeleteRun(run: RunId) returns (r: Result<bool>, ghost done: nat)
      modifies conn
      ensures done <= |DeleteSteps(old(conn.store), run)|
      ensures conn.Performed(old(conn.trace), old(conn.store), DeleteSteps(old(conn.store), run)[..done])
      ensures r.Ok? ==> done == |DeleteSteps(old(conn.store), run)|
      ensures conn.faults >= old(conn.faults)
      ensures r == if conn.faults > old(conn.faults) then Err(StorageError)
                   else if FoundRun(old(conn.store), run).Ok? then Ok(HasRun(old(conn.store), run))
                   else Err(Serialization)
    {
      var found := GetRun(run);
      if found.Err? { return Err(found.error), 0; }
      if found.value.None? { return Ok(false), 0; }
      var ok;
      ok, done := DeleteAll(run);
      r := if ok then Ok(true) else Err(StorageError);
    }
  }

  lemma CutJoin<T>(a: seq<T>, b: seq<T>, n: nat, m: nat)
    requires n <= |a| && m <= |b|
    ensures (a + b)[..n] == a[..n] && (a + b)[..|a| + m] == a + b[..m]
  {
  }

  lemma PrependNil(r: Result<seq<WorkflowEvent>>)
    ensures Prepend([], r) == r
  {
    if r.Ok? { assert [] + r.value == r.value; }
  }

  lemma PrependCons(es: seq<WorkflowEvent>, e: WorkflowEvent, r: Result<seq<WorkflowEvent>>)
    ensures Prepend(es, Cons(e, r)) == Prepend(es + [e], r)
  {
    if r.Ok? { assert es + ([e] + r.value) == es + [e] + r.value; }
  }
}
