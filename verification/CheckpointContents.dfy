/** What the reads of the checkpoint store return, in terms of what the callers gave: the contents of
    checkpoints and events, and the metadata of runs. */
module CheckpointContents {
  import opened Keys
  import opened Storage
  import opened Streams
  import opened Checkpoints
  import opened CheckpointKeys
  import opened CheckpointRuns
  import opened CheckpointHistory
  import opened EventPages

  // ---- checkpoints and events ----

  /** A record without its number. */
  function Unnumbered(v: Record): Record {
    match v
    case CheckpointRecord(cp) => CheckpointRecord(cp.(seqNo := 0))
    case EventRecord(e) => EventRecord(e.(seqNo := 0))
    case _ => v
  }

  function Contents(h: History): (vs: seq<Record>)
    ensures |vs| == |h| && forall i :: 0 <= i < |h| ==> vs[i] == Unnumbered(h[i].1)
  {
    seq(|h|, i requires 0 <= i < |h| => Unnumbered(h[i].1))
  }

  /** What a completed save of the node, or append to the log, was asked to store. */
  function GivenBy(call: Call, f: Feed): seq<Record> {
    if Feeds(call, f) && call.done == 2 then [Given(call, 0)] else []
  }

  function GivenTo(calls: seq<Call>, f: Feed): seq<Record> {
    if calls == [] then [] else GivenBy(calls[0], f) + GivenTo(calls[1..], f)
  }

  predicate IsDeletion(call: Call, run: RunId) {
    call.DeleteRun? && call.run == run
  }

  /** No deletion of the run is among the calls. */
  predicate NeverDeleted(calls: seq<Call>, run: RunId) {
    calls == [] || (!IsDeletion(calls[0], run) && NeverDeleted(calls[1..], run))
  }

  /** a is b without its first d elements. */
  predicate IsRest<T(==)>(a: seq<T>, b: seq<T>, d: nat) {
    d <= |b| && a == b[d..]
  }

  lemma ExtendedContents(h: History, st: Store<Record>, call: Call, f: Feed) returns (d: nat)
    requires MayCall(st, call)
    ensures IsRest(Contents(Extended(h, st, call, f)), Contents(h) + GivenBy(call, f), d)
    ensures !IsDeletion(call, f.run) ==> d == 0
  {
    d := if IsDeletion(call, f.run) then |h| - |Extended(h, st, call, f)| else 0;
    if Feeds(call, f) && call.done == 2 {
      UnnumberedGiven(call, NextNumber(st, call));
      ContentsSnoc(h, NextNumber(st, call), Given(call, NextNumber(st, call)));
    } else if IsDeletion(call, f.run) {
      ContentsRest(h, d);
    }
    assert Contents(h) + [] == Contents(h);
  }

  lemma UnnumberedGiven(call: Call, n: nat)
    requires call.Save? || call.Append?
    ensures Unnumbered(Given(call, n)) == Given(call, 0)
  {
  }

  lemma ContentsSnoc(h: History, n: nat, v: Record)
    ensures Contents(h + [(n, v)]) == Contents(h) + [Unnumbered(v)]
  {
  }

  lemma ContentsRest(h: History, d: nat)
    requires d <= |h|
    ensures Contents(h[d..]) == Contents(h)[d..]
  {
  }

  lemma RestOfRest<T>(base: seq<T>, given: seq<T>, mid: seq<T>, rest: seq<T>, last: seq<T>, d: nat, e: nat)
    requires IsRest(mid, base + given, d) && IsRest(last, mid + rest, e)
    ensures IsRest(last, base + (given + rest), d + e)
  {
    assert base + (given + rest) == base + given + rest;
    assert (mid + rest)[e..] == (base + given + rest)[d + e..];
  }

  /** Over every run of calls: the history is what the completed saves, or appends, were asked to store,
      each record with its caller's contents, without the first d that deletions took away. */
  lemma {:induction false} HistoryIsGiven(h: History, st: Store<Record>, calls: seq<Call>, f: Feed) returns (d: nat)
    requires PossibleCalls(st, calls)
    ensures IsRest(Contents(HistoryAfter(h, st, calls, f)), Contents(h) + GivenTo(calls, f), d)
    ensures NeverDeleted(calls, f.run) ==> d == 0
    decreases |calls|
  {
    if calls == [] {
      d := 0;
      assert (Contents(h) + [])[0..] == Contents(h);
    } else {
      var next, rest := Extended(h, st, calls[0], f), After(st, calls[0]);
      var d1 := ExtendedContents(h, st, calls[0], f);
      var d2 := HistoryIsGiven(next, rest, calls[1..], f);
      RestOfRest(Contents(h), GivenBy(calls[0], f), Contents(next), GivenTo(calls[1..], f),
                 Contents(HistoryAfter(next, rest, calls[1..], f)), d1, d2);
      d := d1 + d2;
    }
  }

  lemma FromEmptyIsGiven(calls: seq<Call>, f: Feed) returns (d: nat)
    requires FeedOk(f) && PossibleCalls(map[], calls)
    ensures GoodStore(Final(map[], calls))
    ensures IsStream(Final(map[], calls), FeedPrefix(f), HistoryAfter([], map[], calls, f))
    ensures IsRest(Contents(HistoryAfter([], map[], calls, f)), GivenTo(calls, f), d)
    ensures NeverDeleted(calls, f.run) ==> d == 0
  {
    d := HistoryIsGiven([], map[], calls, f);
    assert Contents([]) + GivenTo(calls, f) == GivenTo(calls, f);
    FromEmpty(calls, f);
  }

  /** The checkpoint is the given one, under some number. */
  predicate IsGiven(cp: Checkpoint, v: Record) {
    Unnumbered(CheckpointRecord(cp)) == v
  }

  /** The listed entry has the identifiers, time and metadata of the given checkpoint, and the size of
      its state. */
  predicate IsListed(m: CheckpointMeta, v: Record) {
    && v.CheckpointRecord? && m.runId == v.checkpoint.runId && m.nodeId == v.checkpoint.nodeId
    && m.timestamp == v.checkpoint.timestamp && m.metadata == v.checkpoint.metadata
    && m.stateSize == |v.checkpoint.state|
  }

  /** What loading and listing return of a history with the given contents. */
  predicate ReadsGiven(loaded: Result<Option<Checkpoint>>, listed: Result<seq<CheckpointMeta>>, vs: seq<Record>) {
    LoadsGiven(loaded, vs) && ListsGiven(listed, vs)
  }

  predicate LoadsGiven(loaded: Result<Option<Checkpoint>>, vs: seq<Record>) {
    && loaded.Ok? && (loaded.value.None? <==> vs == [])
    && (vs != [] ==> IsGiven(loaded.value.value, vs[|vs| - 1]))
  }

  predicate ListsGiven(listed: Result<seq<CheckpointMeta>>, vs: seq<Record>) {
    && listed.Ok? && |listed.value| == |vs|
    && forall i :: 0 <= i < |vs| ==> IsListed(listed.value[i], vs[i])
  }

  lemma ListsContents(listed: Result<seq<CheckpointMeta>>, h: History)
    requires Lists(listed, h)
    ensures ListsGiven(listed, Contents(h))
  {
    forall i | 0 <= i < |h| ensures IsListed(listed.value[i], Contents(h)[i]) {
      assert Describes(listed.value[i], h[i].1.checkpoint);
    }
  }

  lemma ReadsContents(st: Store<Record>, run: RunId, node: NodeId, h: History)
    requires GoodStore(st) && FeedOk(NodeFeed(run, node)) && IsStream(st, CheckpointPrefix(run, node), h)
    ensures var entries := ScanResult(st, CheckpointPrefix(run, node));
      ReadsGiven(LastCheckpoint(entries), Listing(entries), Contents(h))
  {
    LoadSeesLatest(st, run, node, h);
    ListSeesHistory(st, run, node, h);
    ListsContents(Listing(ScanResult(st, CheckpointPrefix(run, node))), h);
  }

  /** From an empty store, after any run of calls, each cut anywhere: loading a node returns exactly the
      state, metadata and time that its last completed save was given, and listing it describes all of
      them in order, but for the first d that deletions of the run took away. */
  lemma EveryRunReturnsGiven(calls: seq<Call>, run: RunId, node: NodeId) returns (d: nat)
    requires SlashFree(run) && SlashFree(node) && PossibleCalls(map[], calls)
    ensures var given := GivenTo(calls, NodeFeed(run, node));
      var entries := ScanResult(Final(map[], calls), CheckpointPrefix(run, node));
      d <= |given| && ReadsGiven(LastCheckpoint(entries), Listing(entries), given[d..])
    ensures NeverDeleted(calls, run) ==> d == 0
  {
    var f := NodeFeed(run, node);
    d := FromEmptyIsGiven(calls, f);
    ReadsContents(Final(map[], calls), run, node, HistoryAfter([], map[], calls, f));
  }

  /** If the key holds anything, it is one of the given checkpoints under the number n. */
  ghost predicate HoldsGiven(st: Store<Record>, k: Key, n: nat, vs: seq<Record>) {
    k in st ==>
      && st[k].CheckpointRecord? && st[k].checkpoint.seqNo == n
      && exists j :: 0 <= j < |vs| && IsGiven(st[k].checkpoint, vs[j])
  }

  lemma LoadAtContents(st: Store<Record>, run: RunId, node: NodeId, h: History, n: nat)
    requires GoodStore(st) && FeedOk(NodeFeed(run, node)) && IsStream(st, CheckpointPrefix(run, node), h)
    requires n <= U64_MAX
    ensures HoldsGiven(st, CheckpointKey(run, node, n), n, Contents(h))
  {
    LoadAtSeesNumber(st, run, node, h, n);
    if CheckpointKey(run, node, n) in st {
      var j :| 0 <= j < |h| && h[j].0 == n;
      assert IsGiven(st[CheckpointKey(run, node, n)].checkpoint, Contents(h)[j]);
    }
  }

  lemma RestIsGiven(st: Store<Record>, k: Key, n: nat, vs: seq<Record>, all: seq<Record>, d: nat)
    requires HoldsGiven(st, k, n, vs) && IsRest(vs, all, d)
    ensures HoldsGiven(st, k, n, all)
  {
    if k in st {
      var j :| 0 <= j < |vs| && IsGiven(st[k].checkpoint, vs[j]);
      assert vs[j] == all[d + j];
    }
  }

  /** Loading by number returns, if anything, a checkpoint that a completed save was given. */
  lemma LoadAtReturnsGiven(calls: seq<Call>, run: RunId, node: NodeId, n: nat)
    requires SlashFree(run) && SlashFree(node) && PossibleCalls(map[], calls) && n <= U64_MAX
    ensures HoldsGiven(Final(map[], calls), CheckpointKey(run, node, n), n, GivenTo(calls, NodeFeed(run, node)))
  {
    var f, st := NodeFeed(run, node), Final(map[], calls);
    var h := HistoryAfter([], map[], calls, f);
    var d := FromEmptyIsGiven(calls, f);
    LoadAtContents(st, run, node, h, n);
    RestIsGiven(st, CheckpointKey(run, node, n), n, Contents(h), GivenTo(calls, f), d);
  }

  /** The events are the given ones, under some numbers. */
  predicate AreGiven(es: seq<WorkflowEvent>, vs: seq<Record>) {
    |es| == |vs| && forall i :: 0 <= i < |es| ==> Unnumbered(EventRecord(es[i])) == vs[i]
  }

  /** Reading the events of a run from the start returns exactly the types, nodes, payloads and times
      that the completed appends were given, in order, but for those that deletions took away. */
  lemma EveryRunReturnsEvents(calls: seq<Call>, run: RunId, room: nat) returns (d: nat)
    requires SlashFree(run) && PossibleCalls(map[], calls) && room >= 1
    requires room >= |ScanResult(Final(map[], calls), EventsPrefix(run))|
    ensures var given := GivenTo(calls, EventFeed(run));
      var read := Select(ScanResult(Final(map[], calls), EventsPrefix(run)), 0, room);
      d <= |given| && read.Ok? && AreGiven(read.value, given[d..])
    ensures NeverDeleted(calls, run) ==> d == 0
  {
    var f := EventFeed(run);
    d := FromEmptyIsGiven(calls, f);
    EventsContents(Final(map[], calls), run, HistoryAfter([], map[], calls, f), room);
  }

  lemma EventsContents(st: Store<Record>, run: RunId, h: History, room: nat)
    requires GoodStore(st) && SlashFree(run) && IsStream(st, EventsPrefix(run), h)
    requires room >= 1 && room >= |ScanResult(st, EventsPrefix(run))|
    ensures var read := Select(ScanResult(st, EventsPrefix(run)), 0, room);
      read.Ok? && AreGiven(read.value, Contents(h))
  {
    ScanListsStream(st, EventsPrefix(run), h);
    EventsSeeHistory(st, run, h, 0, room);
    EventsAreCounted(st, run, h);
    AllAreTaken(EventsOf(h), room);
    EventsAreContents(h);
  }

  lemma AllAreTaken(es: seq<WorkflowEvent>, room: nat)
    requires EventPages.Ascends(es) && (es != [] ==> es[0].seqNo >= 1) && room >= |es|
    ensures Take(Newer(es, 0), room) == es
  {
    AllAreNewer(es);
  }

  lemma EventsAreContents(h: History)
    requires forall i :: 0 <= i < |h| ==> h[i].1.EventRecord?
    ensures AreGiven(EventsOf(h), Contents(h))
  {
  }

  // ---- the metadata of runs ----

  /** What a call does to the metadata of a run. */
  function MetaAfterCall(m: Option<RunMetadata>, st: Store<Record>, call: Call, run: RunId): Option<RunMetadata>
    requires MayCall(st, call)
  {
    if RunOf(call) != run || call.done == 0 then m
    else match call
      case Create(_, workflow, params, now, _) =>
        Some(RunMetadata(run, workflow, Running, now, now, params, 0, 0))
      case SetStatus(_, status, now, _) =>
        if m.None? then m else Some(m.value.(status := status, updatedAt := now))
      case Save(_, _, _, _, now, _, _) =>
        if m.None? then m
        else Some(m.value.(latestCheckpointSeq := m.value.latestCheckpointSeq + 1, updatedAt := now))
      case Append(_, now, _, _) =>
        if m.None? then m
        else Some(m.value.(latestEventSeq := m.value.latestEventSeq + 1, updatedAt := now))
      case DeleteRun(_, done) =>
        if done == |CallSteps(st, call)| then None else m
  }

  function MetaAfter(m: Option<RunMetadata>, st: Store<Record>, calls: seq<Call>, run: RunId): Option<RunMetadata>
    requires PossibleCalls(st, calls)
    decreases |calls|
  {
    if calls == [] then m
    else MetaAfter(MetaAfterCall(m, st, calls[0], run), After(st, calls[0]), calls[1..], run)
  }

  lemma OneCallSeen(st: Store<Record>, call: Call, run: RunId, m: Option<RunMetadata>)
    requires GoodStore(st) && SlashFree(run) && MayCall(st, call) && FoundRun(st, run) == Ok(m)
    ensures FoundRun(After(st, call), run) == Ok(MetaAfterCall(m, st, call, run))
  {
    match call {
      case DeleteRun(_, _) => DeletionSeen(st, call, run, m);
      case Save(_, _, _, _, _, _, _) => NumberedCallSeen(st, call, run, m);
      case Append(_, _, _, _) => NumberedCallSeen(st, call, run, m);
      case Create(_, _, _, _, _) => MetaCallSeen(st, call, run, m);
      case SetStatus(_, _, _, _) => MetaCallSeen(st, call, run, m);
    }
  }

  lemma RunKeysDiffer(run: RunId, other: RunId)
    requires SlashFree(run) && SlashFree(other) && run != other
    ensures RunKey(run) != RunKey(other)
  {
    if RunKey(run) == RunKey(other) {
      CancelPrefix(CHECKPOINT_PREFIX, run + "/" + "meta", other + "/" + "meta");
      SplitAtSlash(run, "meta", other, "meta");
    }
  }

  lemma MetaCallSeen(st: Store<Record>, call: Call, run: RunId, m: Option<RunMetadata>)
    requires GoodStore(st) && SlashFree(run) && MayCall(st, call) && FoundRun(st, run) == Ok(m)
    requires call.Create? || call.SetStatus?
    ensures FoundRun(After(st, call), run) == Ok(MetaAfterCall(m, st, call, run))
  {
    var steps := CallSteps(st, call);
    if call.run != run { RunKeysDiffer(call.run, run); }
    if steps != [] {
      RunOne(st, steps[0]);
      assert steps[..1] == [steps[0]];
    }
  }

  lemma NumberedCallSeen(st: Store<Record>, call: Call, run: RunId, m: Option<RunMetadata>)
    requires GoodStore(st) && SlashFree(run) && MayCall(st, call) && FoundRun(st, run) == Ok(m)
    requires call.Save? || call.Append?
    ensures FoundRun(After(st, call), run) == Ok(MetaAfterCall(m, st, call, run))
  {
    if CallSteps(st, call) != [] {
      NumberedCall(st, call);
      var b, k, v := Bumped(st, call), RecordKey(st, call), NewRecord(st, call);
      CutAtMostTwo(st, Put(RunKey(RunOf(call)), RunRecord(b)), Put(k, v), call.done);
      RunKeyIsApart(k, v, run);
      if RunOf(call) != run { RunKeysDiffer(RunOf(call), run); }
    }
  }

  lemma DeletionSeen(st: Store<Record>, call: Call, run: RunId, m: Option<RunMetadata>)
    requires GoodStore(st) && SlashFree(run) && MayCall(st, call) && FoundRun(st, run) == Ok(m) && call.DeleteRun?
    ensures FoundRun(After(st, call), run) == Ok(MetaAfterCall(m, st, call, run))
  {
    var other, j := call.run, call.done;
    if HasRun(st, other) {
      DeletedKeys(st, other, j);
      RunDeletes(st, DeleteSteps(st, other)[..j]);
      if other != run && RunKey(run) in st {
        assert CHECKPOINT_PREFIX <= RunKey(run);
        UnderRunKey(RunKey(run), st[RunKey(run)], run);
        OwnsIsOwner(RunKey(run), st[RunKey(run)], other);
      }
    }
  }

  /** Over every run of calls, each cut anywhere, getting a run returns exactly the metadata that the
      calls made: as created, with the last status, time and counters. */
  lemma {:induction false} GetRunReturns(st: Store<Record>, calls: seq<Call>, run: RunId, m: Option<RunMetadata>)
    requires GoodStore(st) && SlashFree(run) && PossibleCalls(st, calls) && FoundRun(st, run) == Ok(m)
    ensures FoundRun(Final(st, calls), run) == Ok(MetaAfter(m, st, calls, run))
    decreases |calls|
  {
    if calls != [] {
      CallKeepsGood(st, calls[0]);
      OneCallSeen(st, calls[0], run, m);
      GetRunReturns(After(st, calls[0]), calls[1..], run, MetaAfterCall(m, st, calls[0], run));
    }
  }

  /** The status after the last completed update. */
  function LastStatus(calls: seq<Call>, run: RunId, was: RunStatus): RunStatus {
    if calls == [] then was
    else LastStatus(calls[1..], run,
                    if calls[0].SetStatus? && calls[0].run == run && calls[0].done == 1 then calls[0].status else was)
  }

  /** How many numbers the saves, or the appends, of the run use up. */
  function Saves(calls: seq<Call>, run: RunId): nat {
    if calls == [] then 0
    else (if calls[0].Save? && calls[0].run == run && calls[0].done >= 1 then 1 else 0) + Saves(calls[1..], run)
  }

  function Appends(calls: seq<Call>, run: RunId): nat {
    if calls == [] then 0
    else (if calls[0].Append? && calls[0].event.runId == run && calls[0].done >= 1 then 1 else 0)
         + Appends(calls[1..], run)
  }

  /** A run keeps its workflow, parameters and time of creation through any calls that do not delete or
      create it; its status is that of the last completed update, and its counters count the saves and
      appends. */
  lemma {:induction false} RunKeepsWhatItWasGiven(st: Store<Record>, calls: seq<Call>, run: RunId, m: RunMetadata)
    requires GoodStore(st) && SlashFree(run) && PossibleCalls(st, calls) && FoundRun(st, run) == Ok(Some(m))
    requires NeverDeleted(calls, run)
    ensures FoundRun(Final(st, calls), run).Ok? && FoundRun(Final(st, calls), run).value.Some?
    ensures var m' := FoundRun(Final(st, calls), run).value.value;
      && m'.runId == m.runId && m'.workflow == m.workflow && m'.params == m.params && m'.createdAt == m.createdAt
      && m'.status == LastStatus(calls, run, m.status)
      && m'.latestCheckpointSeq == m.latestCheckpointSeq + Saves(calls, run)
      && m'.latestEventSeq == m.latestEventSeq + Appends(calls, run)
    decreases |calls|
  {
    if calls != [] {
      var call := calls[0];
      CallKeepsGood(st, call);
      OneCallSeen(st, call, run, Some(m));
      RunKeepsWhatItWasGiven(After(st, call), calls[1..], run, MetaAfterCall(Some(m), st, call, run).value);
    }
  }
}
