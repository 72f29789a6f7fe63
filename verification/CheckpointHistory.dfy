/** The checkpoint store refines per-node histories and a per-run event log: over every run of
    calls, what the reads return is what the calls stored, in order. */
module CheckpointHistory {
  import opened Keys
  import opened Storage
  import opened Streams
  import opened Checkpoints
  import opened CheckpointKeys
  import opened CheckpointRuns
  import opened CheckpointDeletion
  import opened EventPages

  /** The checkpoints of one node, or the events of one run. */
  datatype Feed = NodeFeed(run: RunId, node: NodeId) | EventFeed(run: RunId)

  type History = seq<(nat, Record)>

  function FeedPrefix(f: Feed): Key {
    match f
    case NodeFeed(run, node) => CheckpointPrefix(run, node)
    case EventFeed(run) => EventsPrefix(run)
  }

  predicate FeedOk(f: Feed) {
    SlashFree(f.run) && (f.NodeFeed? ==> SlashFree(f.node))
  }

  predicate Feeds(call: Call, f: Feed) {
    || (call.Save? && f == NodeFeed(call.run, call.node))
    || (call.Append? && f == EventFeed(call.event.runId))
  }

  /** What a save or an append is asked to store, under the number n. */
  function Given(call: Call, n: nat): Record
    requires call.Save? || call.Append?
  {
    match call
    case Save(run, node, state, metadata, _, ts, _) =>
      CheckpointRecord(Checkpoint(run, node, n, state, ts, metadata))
    case Append(e, _, ts, _) =>
      EventRecord(WorkflowEvent(e.runId, n, e.eventType, ts, e.nodeId, e.payload))
  }

  /** The next number of the run. */
  function NextNumber(st: Store<Record>, call: Call): nat
    requires call.Save? || call.Append?
  {
    1 + if call.Save? then Counters(st, call.run).0 else Counters(st, call.event.runId).1
  }

  lemma StoresGiven(st: Store<Record>, call: Call)
    requires MayCall(st, call) && (call.Save? || call.Append?) && CallSteps(st, call) != []
    ensures NewRecord(st, call) == Given(call, NextNumber(st, call))
  {
  }

  /** What a call does to a history. A save or an append that gets to its end adds what it was asked to
      store, under the next number of the run; a deletion of the run takes away the oldest records, as
      many as its steps so far have removed. */
  function Extended(h: History, st: Store<Record>, call: Call, f: Feed): History
    requires MayCall(st, call)
  {
    if Feeds(call, f) && call.done == 2 then
      h + [(NextNumber(st, call), Given(call, NextNumber(st, call)))]
    else if call.DeleteRun? && call.run == f.run then
      Without(h, Removed(st, call.run, call.done, FeedPrefix(f)))
    else h
  }

  /** The history without its first n records. */
  function Without(h: History, n: nat): History {
    if n <= |h| then h[n..] else []
  }

  predicate PossibleCalls(st: Store<Record>, calls: seq<Call>)
    decreases |calls|
  {
    calls == [] || (MayCall(st, calls[0]) && PossibleCalls(After(st, calls[0]), calls[1..]))
  }

  function Final(st: Store<Record>, calls: seq<Call>): Store<Record>
    requires PossibleCalls(st, calls)
    decreases |calls|
  {
    if calls == [] then st else Final(After(st, calls[0]), calls[1..])
  }

  /** The history that the calls build. */
  function HistoryAfter(h: History, st: Store<Record>, calls: seq<Call>, f: Feed): History
    requires PossibleCalls(st, calls)
    decreases |calls|
  {
    if calls == [] then h
    else HistoryAfter(Extended(h, st, calls[0], f), After(st, calls[0]), calls[1..], f)
  }

  lemma UnderFeed(k: Key, v: Record, f: Feed)
    requires Filed(k, v) && FeedOk(f) && FeedPrefix(f) <= k
    ensures match f
      case NodeFeed(run, node) => v.CheckpointRecord? && v.checkpoint.runId == run && v.checkpoint.nodeId == node
      case EventFeed(run) => v.EventRecord? && v.event.runId == run
  {
    match f {
      case NodeFeed(run, node) => UnderNode(k, v, run, node);
      case EventFeed(run) => UnderEvents(k, v, run);
    }
  }

  /** Writing a filed record outside the feed leaves the feed alone. */
  lemma PutElsewhere(st: Store<Record>, k: Key, v: Record, f: Feed, h: History)
    requires IsStream(st, FeedPrefix(f), h) && !(FeedPrefix(f) <= k)
    ensures IsStream(st[k := v], FeedPrefix(f), h)
  {
    StreamElsewhere(st, st[k := v], FeedPrefix(f), h);
  }

  lemma MetaIsElsewhere(m: RunMetadata, f: Feed)
    requires SlashFree(m.runId) && FeedOk(f)
    ensures !(FeedPrefix(f) <= RunKey(m.runId))
  {
    if FeedPrefix(f) <= RunKey(m.runId) {
      UnderFeed(RunKey(m.runId), RunRecord(m), f);
    }
  }

  /** The records of a feed carry their own numbers, at or below the counter. */
  lemma FeedIsCounted(st: Store<Record>, f: Feed, h: History, i: nat)
    requires GoodStore(st) && FeedOk(f) && IsStream(st, FeedPrefix(f), h) && i < |h|
    ensures match f
      case NodeFeed(run, node) =>
        && h[i].1.CheckpointRecord? && h[i].1.checkpoint.runId == run && h[i].1.checkpoint.nodeId == node
        && h[i].0 == h[i].1.checkpoint.seqNo && 1 <= h[i].0 <= Counters(st, run).0
      case EventFeed(run) =>
        && h[i].1.EventRecord? && h[i].1.event.runId == run
        && h[i].0 == h[i].1.event.seqNo && 1 <= h[i].0 <= Counters(st, run).1
  {
    var k := Slot(FeedPrefix(f), h[i].0);
    var v := h[i].1;
    assert k in st && st[k] == v;
    AllUnderPrefix(f.run, if f.NodeFeed? then f.node else "", 0);
    assert CHECKPOINT_PREFIX <= k;
    UnderFeed(k, v, f);
    SlotIsInjective(FeedPrefix(f), h[i].0, if f.NodeFeed? then v.checkpoint.seqNo else v.event.seqNo);
  }

  lemma NumberedCallExtends(st: Store<Record>, call: Call, f: Feed, h: History)
    requires GoodStore(st) && MayCall(st, call) && (call.Save? || call.Append?)
    requires FeedOk(f) && IsStream(st, FeedPrefix(f), h)
    ensures IsStream(After(st, call), FeedPrefix(f), Extended(h, st, call, f))
  {
    if CallSteps(st, call) != [] {
      NumberedCall(st, call);
      StoresGiven(st, call);
      var run := if call.Save? then call.run else call.event.runId;
      var m, k, v := Bumped(st, call), RecordKey(st, call), NewRecord(st, call);
      CutAtMostTwo(st, Put(RunKey(run), RunRecord(m)), Put(k, v), call.done);
      MetaIsElsewhere(m, f);
      var st1 := st[RunKey(run) := RunRecord(m)];
      PutElsewhere(st, RunKey(run), RunRecord(m), f, h);
      if Feeds(call, f) {
        var n := if call.Save? then v.checkpoint.seqNo else v.event.seqNo;
        forall i | 0 <= i < |h| ensures h[i].0 < n { FeedIsCounted(st, f, h, i); }
        StreamAppend(st1, FeedPrefix(f), h, n, v);
      } else {
        if FeedPrefix(f) <= k { UnderFeed(k, v, f); }
        PutElsewhere(st1, k, v, f, h);
      }
    }
  }

  lemma MetaCallExtends(st: Store<Record>, call: Call, f: Feed, h: History)
    requires GoodStore(st) && MayCall(st, call) && (call.Create? || call.SetStatus?)
    requires FeedOk(f) && IsStream(st, FeedPrefix(f), h)
    ensures IsStream(After(st, call), FeedPrefix(f), Extended(h, st, call, f))
  {
    var steps := CallSteps(st, call);
    if steps != [] {
      assert CHECKPOINT_PREFIX <= RunKey(call.run);
      if call.SetStatus? { UnderRunKey(RunKey(call.run), st[RunKey(call.run)], call.run); }
      RunOne(st, steps[0]);
      assert steps[..1] == [steps[0]];
      MetaIsElsewhere(steps[0].value.meta, f);
      PutElsewhere(st, RunKey(call.run), steps[0].value, f, h);
    }
  }

  lemma FeedIsInRun(f: Feed)
    ensures InRun(f.run, FeedPrefix(f))
  {
    if f.NodeFeed? { NodeUnderNodes(f.run, f.node); }
  }

  /** A deletion of another run leaves the feed alone. */
  lemma OtherDeletion(st: Store<Record>, call: Call, f: Feed, h: History)
    requires GoodStore(st) && MayCall(st, call) && call.DeleteRun? && call.run != f.run && HasRun(st, call.run)
    requires FeedOk(f) && IsStream(st, FeedPrefix(f), h)
    ensures IsStream(After(st, call), FeedPrefix(f), h)
  {
    var p, cut := FeedPrefix(f), DeleteSteps(st, call.run)[..call.done];
    DeletedKeys(st, call.run, call.done);
    RunDeletes(st, cut);
    AllUnderPrefix(f.run, if f.NodeFeed? then f.node else "", 0);
    forall k | p <= k ensures SameAt(st, st - KeysOf(cut), k) {
      if k in KeysOf(cut) {
        UnderFeed(k, st[k], f);
        OwnsIsOwner(k, st[k], call.run);
      }
    }
    StreamElsewhere(st, st - KeysOf(cut), p, h);
  }

  lemma DeleteExtends(st: Store<Record>, call: Call, f: Feed, h: History)
    requires GoodStore(st) && MayCall(st, call) && call.DeleteRun?
    requires FeedOk(f) && IsStream(st, FeedPrefix(f), h)
    ensures IsStream(After(st, call), FeedPrefix(f), Extended(h, st, call, f))
  {
    if HasRun(st, call.run) {
      if call.run == f.run {
        FeedIsInRun(f);
        CutDeletionKeepsNewest(st, call.run, call.done, FeedPrefix(f), h);
      } else {
        OtherDeletion(st, call, f, h);
      }
    }
  }

  /** Checkpoint refinement over every run of calls, each cut anywhere: the store always holds
      exactly the history that the calls built, for every node and every event log. */
  lemma {:induction false} StoreHoldsHistory(st: Store<Record>, calls: seq<Call>, f: Feed, h: History)
    requires GoodStore(st) && FeedOk(f) && PossibleCalls(st, calls) && IsStream(st, FeedPrefix(f), h)
    ensures IsStream(Final(st, calls), FeedPrefix(f), HistoryAfter(h, st, calls, f))
    ensures GoodStore(Final(st, calls))
    decreases |calls|
  {
    if calls != [] {
      var call := calls[0];
      CallKeepsGood(st, call);
      if call.Save? || call.Append? {
        NumberedCallExtends(st, call, f, h);
      } else if call.DeleteRun? {
        DeleteExtends(st, call, f, h);
      } else {
        MetaCallExtends(st, call, f, h);
      }
      StoreHoldsHistory(After(st, call), calls[1..], f, Extended(h, st, call, f));
    }
  }

  /** An absent run has no history. */
  lemma AbsentRunIsEmpty(st: Store<Record>, f: Feed)
    requires GoodStore(st) && FeedOk(f) && !HasRun(st, f.run)
    ensures IsStream(st, FeedPrefix(f), [])
  {
    forall k | k in st && FeedPrefix(f) <= k ensures false {
      AllUnderPrefix(f.run, if f.NodeFeed? then f.node else "", 0);
      UnderFeed(k, st[k], f);
    }
  }

  // ---- what the reads return ----

  lemma NodeEntries(st: Store<Record>, run: RunId, node: NodeId, h: History)
    requires GoodStore(st) && FeedOk(NodeFeed(run, node)) && IsStream(st, CheckpointPrefix(run, node), h)
    ensures |ScanResult(st, CheckpointPrefix(run, node))| == |h|
    ensures forall i :: 0 <= i < |h| ==>
      ScanResult(st, CheckpointPrefix(run, node))[i].1 == h[i].1 && h[i].1.CheckpointRecord?
  {
    ScanListsStream(st, CheckpointPrefix(run, node), h);
    forall i | 0 <= i < |h| ensures h[i].1.CheckpointRecord? { FeedIsCounted(st, NodeFeed(run, node), h, i); }
  }

  /** Loading a node returns the checkpoint stored last. */
  lemma LoadSeesLatest(st: Store<Record>, run: RunId, node: NodeId, h: History)
    requires GoodStore(st) && FeedOk(NodeFeed(run, node)) && IsStream(st, CheckpointPrefix(run, node), h)
    ensures h != [] ==> h[|h| - 1].1.CheckpointRecord?
    ensures LastCheckpoint(ScanResult(st, CheckpointPrefix(run, node)))
         == Ok(if h == [] then None else Some(h[|h| - 1].1.checkpoint))
  {
    NodeEntries(st, run, node, h);
  }

  /** Listing a node gives its whole history, in the order of storing. */
  lemma ListSeesHistory(st: Store<Record>, run: RunId, node: NodeId, h: History)
    requires GoodStore(st) && FeedOk(NodeFeed(run, node)) && IsStream(st, CheckpointPrefix(run, node), h)
    ensures Lists(Listing(ScanResult(st, CheckpointPrefix(run, node))), h)
  {
    NodeEntries(st, run, node, h);
    var entries := ScanResult(st, CheckpointPrefix(run, node));
    assert AllCheckpoints(entries);
  }

  predicate Lists(listed: Result<seq<CheckpointMeta>>, h: History) {
    && listed.Ok? && |listed.value| == |h|
    && forall i :: 0 <= i < |h| ==> h[i].1.CheckpointRecord? && Describes(listed.value[i], h[i].1.checkpoint)
  }

  /** The listed entry is that checkpoint, with the size of its state for the state. */
  predicate Describes(m: CheckpointMeta, cp: Checkpoint) {
    && m.runId == cp.runId && m.nodeId == cp.nodeId && m.seqNo == cp.seqNo
    && m.timestamp == cp.timestamp && m.metadata == cp.metadata && m.stateSize == |cp.state|
  }

  lemma FromEmpty(calls: seq<Call>, f: Feed)
    requires FeedOk(f) && PossibleCalls(map[], calls)
    ensures GoodStore(Final(map[], calls))
    ensures IsStream(Final(map[], calls), FeedPrefix(f), HistoryAfter([], map[], calls, f))
  {
    AbsentRunIsEmpty(map[], f);
    StoreHoldsHistory(map[], calls, f, []);
  }

  /** Loading from these entries returns the last record of the history, and listing them all of it. */
  predicate ReadAs(entries: seq<(Key, Record)>, h: History) {
    && (h != [] ==> h[|h| - 1].1.CheckpointRecord?)
    && LastCheckpoint(entries) == Ok(if h == [] then None else Some(h[|h| - 1].1.checkpoint))
    && Lists(Listing(entries), h)
  }

  lemma ReadsSeeHistory(st: Store<Record>, run: RunId, node: NodeId, h: History)
    requires GoodStore(st) && FeedOk(NodeFeed(run, node)) && IsStream(st, CheckpointPrefix(run, node), h)
    ensures ReadAs(ScanResult(st, CheckpointPrefix(run, node)), h)
  {
    LoadSeesLatest(st, run, node, h);
    ListSeesHistory(st, run, node, h);
  }

  /** From an empty store, after any run of calls, each cut anywhere: loading a node returns the last
      record of its history, and listing it returns the whole history, in order. */
  lemma EveryRunLoadsLatest(calls: seq<Call>, run: RunId, node: NodeId)
    requires SlashFree(run) && SlashFree(node) && PossibleCalls(map[], calls)
    ensures ReadAs(ScanResult(Final(map[], calls), CheckpointPrefix(run, node)),
                   HistoryAfter([], map[], calls, NodeFeed(run, node)))
  {
    FromEmpty(calls, NodeFeed(run, node));
    ReadsSeeHistory(Final(map[], calls), run, node, HistoryAfter([], map[], calls, NodeFeed(run, node)));
  }

  /** Loading by number finds exactly the checkpoint of the history with that number. */
  lemma LoadAtSeesNumber(st: Store<Record>, run: RunId, node: NodeId, h: History, n: nat)
    requires GoodStore(st) && FeedOk(NodeFeed(run, node)) && IsStream(st, CheckpointPrefix(run, node), h)
    requires n <= U64_MAX
    ensures CheckpointKey(run, node, n) in st <==> exists i :: 0 <= i < |h| && h[i].0 == n
    ensures forall i :: 0 <= i < |h| && h[i].0 == n ==>
      CheckpointKey(run, node, n) in st && st[CheckpointKey(run, node, n)] == h[i].1 && h[i].1.CheckpointRecord?
      && h[i].1.checkpoint.seqNo == n
  {
    forall i | 0 <= i < |h| ensures h[i].1.CheckpointRecord? && h[i].0 == h[i].1.checkpoint.seqNo {
      FeedIsCounted(st, NodeFeed(run, node), h, i);
    }
    StreamLookup(st, CheckpointPrefix(run, node), h, n);
  }

  /** Listing a run names every stored checkpoint of the run, and nothing else. */
  lemma ListCoversRun(st: Store<Record>, run: RunId)
    requires GoodStore(st) && SlashFree(run)
    ensures AllCheckpoints(ScanResult(st, NodesPrefix(run)))
    ensures forall k :: k in ScanKeys(st, NodesPrefix(run)) <==>
      k in st && CHECKPOINT_PREFIX <= k && st[k].CheckpointRecord? && st[k].checkpoint.runId == run
  {
    AllUnderPrefix(run, "", 0);
    forall k | k in ScanKeys(st, NodesPrefix(run)) ensures st[k].CheckpointRecord? && st[k].checkpoint.runId == run {
      UnderNodes(k, st[k], run);
    }
    forall k | k in st && CHECKPOINT_PREFIX <= k && st[k].CheckpointRecord? && st[k].checkpoint.runId == run
      ensures NodesPrefix(run) <= k
    {
      AllUnderPrefix(run, st[k].checkpoint.nodeId, st[k].checkpoint.seqNo);
    }
    var keys := ScanKeys(st, NodesPrefix(run));
    forall i | 0 <= i < |keys| ensures ScanResult(st, NodesPrefix(run))[i].1.CheckpointRecord? {
      assert keys[i] in keys;
    }
  }

  // ---- the event log ----

  function EventsOf(h: History): (es: seq<WorkflowEvent>)
    requires forall i :: 0 <= i < |h| ==> h[i].1.EventRecord?
    ensures |es| == |h| && forall i :: 0 <= i < |h| ==> es[i] == h[i].1.event
  {
    if h == [] then [] else [h[0].1.event] + EventsOf(h[1..])
  }

  lemma EventsAreCounted(st: Store<Record>, run: RunId, h: History)
    requires GoodStore(st) && SlashFree(run) && IsStream(st, EventsPrefix(run), h)
    ensures forall i :: 0 <= i < |h| ==> h[i].1.EventRecord? && h[i].0 == h[i].1.event.seqNo >= 1
    ensures EventPages.Ascends(EventsOf(h))
  {
    forall i | 0 <= i < |h| ensures h[i].1.EventRecord? && h[i].0 == h[i].1.event.seqNo >= 1 {
      FeedIsCounted(st, EventFeed(run), h, i);
    }
  }

  /** Reading events returns exactly the first `room` ones above `since`, in order. */
  lemma EventsSeeHistory(st: Store<Record>, run: RunId, h: History, since: nat, room: nat)
    requires GoodStore(st) && SlashFree(run) && IsStream(st, EventsPrefix(run), h) && room >= 1
    ensures forall i :: 0 <= i < |h| ==> h[i].1.EventRecord? && h[i].0 == h[i].1.event.seqNo >= 1
    ensures Select(ScanResult(st, EventsPrefix(run)), since, room) == Ok(Take(Newer(EventsOf(h), since), room))
  {
    EventsAreCounted(st, run, h);
    ScanListsStream(st, EventsPrefix(run), h);
    SelectTakesNewer(ScanResult(st, EventsPrefix(run)), EventsOf(h), since, room);
  }

  lemma AllAreNewer(es: seq<WorkflowEvent>)
    requires EventPages.Ascends(es) && (es != [] ==> es[0].seqNo >= 1)
    ensures Newer(es, 0) == es
  {
    var k := NewerIsSuffix(es, 0);
  }

  /** Reading page after page from the store, each from the last number of the page before, comes to
      an end, fails nowhere, and returns the log above `since` once, in order. */
  lemma PagingReadsLog(st: Store<Record>, run: RunId, h: History, since: nat, room: nat)
    requires GoodStore(st) && SlashFree(run) && IsStream(st, EventsPrefix(run), h) && room >= 1
    ensures forall i :: 0 <= i < |h| ==> h[i].1.EventRecord? && h[i].1.event.seqNo >= 1
    ensures var pages := ReadPages(ScanResult(st, EventsPrefix(run)), since, room);
      pages.Ok? && Joined(pages.value) == Newer(EventsOf(h), since)
    ensures Newer(EventsOf(h), 0) == EventsOf(h)
  {
    EventsAreCounted(st, run, h);
    ScanListsStream(st, EventsPrefix(run), h);
    PagingReadsAll(ScanResult(st, EventsPrefix(run)), EventsOf(h), since, room);
    AllAreNewer(EventsOf(h));
  }

  // ---- numbers are never reused ----

  function RunOf(call: Call): RunId {
    if call.Append? then call.event.runId else call.run
  }

  /** The number that a call uses up, once its counter write has happened. */
  function Issued(st: Store<Record>, call: Call): Option<nat>
    requires MayCall(st, call)
  {
    if call.Save? && call.done >= 1 then Some(Counters(st, call.run).0 + 1)
    else if call.Append? && call.done >= 1 then Some(Counters(st, call.event.runId).1 + 1)
    else None
  }

  predicate KeepsRun(st: Store<Record>, call: Call, run: RunId)
    requires MayCall(st, call)
  {
    call.DeleteRun? && call.run == run ==> call.done < |CallSteps(st, call)|
  }

  /** Each call moves at most its own counter, by one; status changes, cut deletions and the calls
      on other runs move none. */
  lemma CountersMove(st: Store<Record>, call: Call, run: RunId)
    requires GoodStore(st) && SlashFree(run) && HasRun(st, run) && MayCall(st, call) && KeepsRun(st, call, run)
    ensures HasRun(After(st, call), run)
    ensures Counters(After(st, call), run)
         == (Counters(st, run).0 + (if call.Save? && call.run == run && call.done >= 1 then 1 else 0),
             Counters(st, run).1 + (if call.Append? && call.event.runId == run && call.done >= 1 then 1 else 0))
  {
    match call {
      case DeleteRun(other, j) =>
        if HasRun(st, other) {
          DeletedKeys(st, other, j);
          RunDeletes(st, DeleteSteps(st, other)[..j]);
          assert CHECKPOINT_PREFIX <= RunKey(run);
          UnderRunKey(RunKey(run), st[RunKey(run)], run);
          OwnsIsOwner(RunKey(run), st[RunKey(run)], other);
        }
      case Save(_, _, _, _, _, _, _) => NumberedCounters(st, call, run);
      case Append(_, _, _, _) => NumberedCounters(st, call, run);
      case Create(_, _, _, _, _) => MetaCounters(st, call, run);
      case SetStatus(_, _, _, _) => MetaCounters(st, call, run);
    }
  }

  lemma NumberedCounters(st: Store<Record>, call: Call, run: RunId)
    requires GoodStore(st) && SlashFree(run) && HasRun(st, run) && MayCall(st, call) && (call.Save? || call.Append?)
    ensures HasRun(After(st, call), run)
    ensures Counters(After(st, call), run)
         == (Counters(st, run).0 + (if call.Save? && call.run == run && call.done >= 1 then 1 else 0),
             Counters(st, run).1 + (if call.Append? && call.event.runId == run && call.done >= 1 then 1 else 0))
  {
    if CallSteps(st, call) != [] {
      NumberedCall(st, call);
      var m, k, v := Bumped(st, call), RecordKey(st, call), NewRecord(st, call);
      CutAtMostTwo(st, Put(RunKey(RunOf(call)), RunRecord(m)), Put(k, v), call.done);
      RunKeyIsApart(k, v, run);
      if RunKey(RunOf(call)) == RunKey(run) { UnderRunKey(RunKey(run), RunRecord(m), run); }
    }
  }

  lemma MetaCounters(st: Store<Record>, call: Call, run: RunId)
    requires GoodStore(st) && SlashFree(run) && HasRun(st, run)
    requires MayCall(st, call) && (call.Create? || call.SetStatus?)
    ensures HasRun(After(st, call), run) && Counters(After(st, call), run) == Counters(st, run)
  {
    var steps := CallSteps(st, call);
    if steps != [] {
      RunOne(st, steps[0]);
      assert steps[..1] == [steps[0]];
    }
  }

  /** Calls that keep the run's metadata throughout. */
  predicate KeepingCalls(st: Store<Record>, calls: seq<Call>, run: RunId)
    decreases |calls|
  {
    calls == [] || (MayCall(st, calls[0]) && KeepsRun(st, calls[0], run)
                    && KeepingCalls(After(st, calls[0]), calls[1..], run))
  }

  function Kept(st: Store<Record>, calls: seq<Call>, run: RunId): Store<Record>
    requires KeepingCalls(st, calls, run)
    decreases |calls|
  {
    if calls == [] then st else Kept(After(st, calls[0]), calls[1..], run)
  }

  lemma {:induction false} CountersNeverFall(st: Store<Record>, calls: seq<Call>, run: RunId)
    requires GoodStore(st) && SlashFree(run) && HasRun(st, run) && KeepingCalls(st, calls, run)
    ensures Counters(st, run).0 <= Counters(Kept(st, calls, run), run).0
    ensures Counters(st, run).1 <= Counters(Kept(st, calls, run), run).1
    decreases |calls|
  {
    if calls != [] {
      CallKeepsGood(st, calls[0]);
      CountersMove(st, calls[0], run);
      CountersNeverFall(After(st, calls[0]), calls[1..], run);
    }
  }

  /** Two saves of a run, or two appends, with any calls in between that do not delete the run: the
      later one uses a larger number, even when the first was cut before its record was stored. */
  lemma NumbersNeverReused(st: Store<Record>, first: Call, between: seq<Call>, second: Call, run: RunId)
    requires GoodStore(st) && SlashFree(run) && HasRun(st, run) && MayCall(st, first)
    requires KeepingCalls(After(st, first), between, run)
    requires MayCall(Kept(After(st, first), between, run), second)
    requires RunOf(first) == run == RunOf(second)
    requires (first.Save? && second.Save?) || (first.Append? && second.Append?)
    requires first.done >= 1 && second.done >= 1
    ensures Issued(st, first).value < Issued(Kept(After(st, first), between, run), second).value
  {
    CallKeepsGood(st, first);
    CountersMove(st, first, run);
    CountersNeverFall(After(st, first), between, run);
  }
}
