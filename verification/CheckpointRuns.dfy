/** Whole runs of the checkpoint store: calls that a crash may cut between any two store steps. */
module CheckpointRuns {
  import opened Keys
  import opened Storage
  import opened Checkpoints
  import opened CheckpointKeys

  /** `done` is the number of store steps performed. */
  datatype Call =
    | Create(run: RunId, workflow: string, params: map<string, Json>, now: nat, done: nat)
    | SetStatus(run: RunId, status: RunStatus, now: nat, done: nat)
    | Save(run: RunId, node: NodeId, state: string, metadata: map<string, string>, now: nat, ts: nat, done: nat)
    | Append(event: WorkflowEvent, now: nat, ts: nat, done: nat)
    | DeleteRun(run: RunId, done: nat)

  function CallSteps(st: Store<Record>, call: Call): seq<Step<Record>> {
    match call
    case Create(run, workflow, params, now, _) =>
      [Put(RunKey(run), RunRecord(NewRun(run, workflow, params, now)))]
    case SetStatus(run, status, now, _) => StatusSteps(st, run, status, now)
    case Save(run, node, state, metadata, now, ts, _) => SaveSteps(st, run, node, state, metadata, now, ts)
    case Append(event, now, ts, _) => AppendSteps(st, event, now, ts)
    case DeleteRun(run, _) => DeleteSteps(st, run)
  }

  /** A run is created only when it is absent, and identifiers have no slash. */
  predicate MayCall(st: Store<Record>, call: Call) {
    && call.done <= |CallSteps(st, call)|
    && (call.Create? ==> SlashFree(call.run) && RunKey(call.run) !in st)
    && (call.Save? ==> SlashFree(call.run) && SlashFree(call.node))
    && (call.Append? ==> SlashFree(call.event.runId))
    && (call.DeleteRun? || call.SetStatus? ==> SlashFree(call.run))
  }

  function After(st: Store<Record>, call: Call): Store<Record>
    requires MayCall(st, call)
  {
    Run(st, CallSteps(st, call)[..call.done])
  }

  // ---- every record is at or below the counter of its run ----

  predicate Counted(st: Store<Record>, v: Record) {
    match v
    case RunRecord(m) => m.latestCheckpointSeq <= U64_MAX && m.latestEventSeq <= U64_MAX
    case CheckpointRecord(c) =>
      HasRun(st, c.runId) && 1 <= c.seqNo <= st[RunKey(c.runId)].meta.latestCheckpointSeq
    case EventRecord(e) =>
      HasRun(st, e.runId) && 1 <= e.seqNo <= st[RunKey(e.runId)].meta.latestEventSeq
    case OtherBytes(_) => true
  }

  predicate GoodStore(st: Store<Record>) {
    forall k :: k in st && CHECKPOINT_PREFIX <= k ==> Filed(k, st[k]) && Counted(st, st[k])
  }

  /** The two counters of a run, (0, 0) when there is no such run. */
  function Counters(st: Store<Record>, run: RunId): (nat, nat) {
    if HasRun(st, run) then (st[RunKey(run)].meta.latestCheckpointSeq, st[RunKey(run)].meta.latestEventSeq) else (0, 0)
  }

  /** The metadata of a run is new, or its counters have not gone down. */
  lemma PutMeta(st: Store<Record>, run: RunId, m: RunMetadata)
    requires GoodStore(st) && m.runId == run && SlashFree(run) && Counted(st, RunRecord(m))
    requires RunKey(run) in st ==>
      (HasRun(st, run) && Counters(st, run).0 <= m.latestCheckpointSeq && Counters(st, run).1 <= m.latestEventSeq)
    ensures GoodStore(st[RunKey(run) := RunRecord(m)])
  {
  }

  lemma RunKeyIsApart(k: Key, v: Record, run: RunId)
    requires Filed(k, v) && !v.RunRecord? && SlashFree(run)
    ensures k != RunKey(run)
  {
    if k == RunKey(run) { UnderRunKey(k, v, run); }
  }

  lemma PutRecord(st: Store<Record>, k: Key, v: Record)
    requires GoodStore(st) && Filed(k, v) && !v.RunRecord? && Counted(st, v)
    ensures GoodStore(st[k := v])
  {
    var st' := st[k := v];
    forall k' | k' in st' && CHECKPOINT_PREFIX <= k' ensures Filed(k', st'[k']) && Counted(st', st'[k']) {
      FiledOwner(k', st'[k']);
      RunKeyIsApart(k, v, OwnerOf(st'[k']));
    }
  }

  lemma FiledOwner(k: Key, v: Record)
    requires Filed(k, v)
    ensures !v.OtherBytes? && SlashFree(OwnerOf(v))
  {
  }

  lemma RemoveRecords(st: Store<Record>, ks: set<Key>)
    requires GoodStore(st) && forall k :: k in ks && k in st ==> !st[k].RunRecord?
    ensures GoodStore(st - ks)
  {
  }

  lemma CutAtMostTwo(st: Store<Record>, s: Step<Record>, s': Step<Record>, n: nat)
    requires n <= 2
    ensures Run(st, [s, s'][..n]) == if n == 0 then st else if n == 1 then Apply(st, s) else Apply(Apply(st, s), s')
  {
    RunOne(st, s);
    RunTwo(st, s, s');
    assert [s, s'][..1] == [s] && [s, s'][..2] == [s, s'];
  }

  /** The metadata that a save or an append writes first. */
  function Bumped(st: Store<Record>, call: Call): RunMetadata
    requires call.Save? || call.Append?
    requires CallSteps(st, call) != []
  {
    CallSteps(st, call)[0].value.meta
  }

  /** A save or an append is two puts: the bumped metadata, then a record numbered by it. */
  lemma NumberedCall(st: Store<Record>, call: Call)
    requires GoodStore(st) && MayCall(st, call) && (call.Save? || call.Append?) && CallSteps(st, call) != []
    ensures var run := if call.Save? then call.run else call.event.runId;
      var m := st[RunKey(run)].meta;
      && HasRun(st, run) && m.runId == run
      && CallSteps(st, call)
         == [Put(RunKey(run), RunRecord(Bumped(st, call))), Put(RecordKey(st, call), NewRecord(st, call))]
      && Bumped(st, call).runId == run && Counted(st, RunRecord(Bumped(st, call)))
      && (call.Save? ==>
            Bumped(st, call) == m.(latestCheckpointSeq := m.latestCheckpointSeq + 1, updatedAt := call.now))
      && (call.Append? ==> Bumped(st, call) == m.(latestEventSeq := m.latestEventSeq + 1, updatedAt := call.now))
      && Filed(RecordKey(st, call), NewRecord(st, call))
  {
    var run := if call.Save? then call.run else call.event.runId;
    assert CHECKPOINT_PREFIX <= RunKey(run);
    UnderRunKey(RunKey(run), st[RunKey(run)], run);
  }

  function RecordKey(st: Store<Record>, call: Call): Key
    requires (call.Save? || call.Append?) && CallSteps(st, call) != []
  {
    CallSteps(st, call)[1].key
  }

  function NewRecord(st: Store<Record>, call: Call): Record
    requires (call.Save? || call.Append?) && CallSteps(st, call) != []
  {
    CallSteps(st, call)[1].value
  }

  lemma NumberedCallKeepsGood(st: Store<Record>, call: Call)
    requires GoodStore(st) && MayCall(st, call) && (call.Save? || call.Append?)
    ensures GoodStore(After(st, call))
  {
    if CallSteps(st, call) != [] {
      NumberedCall(st, call);
      var run := if call.Save? then call.run else call.event.runId;
      var m, k, v := Bumped(st, call), RecordKey(st, call), NewRecord(st, call);
      CutAtMostTwo(st, Put(RunKey(run), RunRecord(m)), Put(k, v), call.done);
      PutMeta(st, run, m);
      var st1 := st[RunKey(run) := RunRecord(m)];
      PutRecord(st1, k, v);
    }
  }

  lemma MetaCallKeepsGood(st: Store<Record>, call: Call)
    requires GoodStore(st) && MayCall(st, call) && (call.Create? || call.SetStatus?)
    ensures GoodStore(After(st, call))
  {
    var steps := CallSteps(st, call);
    if steps != [] {
      var m := steps[0].value.meta;
      assert CHECKPOINT_PREFIX <= RunKey(call.run);
      if call.SetStatus? { UnderRunKey(RunKey(call.run), st[RunKey(call.run)], call.run); }
      RunOne(st, steps[0]);
      assert steps[..1] == [steps[0]];
      PutMeta(st, call.run, m);
    }
  }

  // ---- deletion ----

  /** The keys of a run, for any run id. */
  predicate Owns(run: RunId, k: Key) {
    NodesPrefix(run) <= k || EventsPrefix(run) <= k || k == RunKey(run)
  }

  function OwnKeys(st: Store<Record>, run: RunId): set<Key> {
    set k | k in st && Owns(run, k)
  }

  lemma ClearedKeys(st: Store<Record>, prefix: Key)
    ensures AllDeletes(ClearSteps(st, prefix))
    ensures forall k :: k in KeysOf(ClearSteps(st, prefix)) <==> k in st && prefix <= k
  {
    var steps := ClearSteps(st, prefix);
    forall k ensures k in KeysOf(steps) <==> k in ScanKeys(st, prefix) {
      if k in ScanKeys(st, prefix) {
        var i :| 0 <= i < |ScanKeys(st, prefix)| && ScanKeys(st, prefix)[i] == k;
        assert steps[i].key == k;
      }
    }
  }

  /** The key of every step of a deletion belongs to the run, and the metadata key comes last. */
  lemma DeletedKeys(st: Store<Record>, run: RunId, j: nat)
    requires HasRun(st, run) && j <= |DeleteSteps(st, run)|
    ensures AllDeletes(DeleteSteps(st, run)[..j])
    ensures KeysOf(DeleteSteps(st, run)[..j]) <= OwnKeys(st, run)
    ensures j < |DeleteSteps(st, run)| ==> RunKey(run) !in KeysOf(DeleteSteps(st, run)[..j])
    ensures j == |DeleteSteps(st, run)| ==> KeysOf(DeleteSteps(st, run)[..j]) == OwnKeys(st, run)
  {
    var cps := ClearSteps(st, NodesPrefix(run));
    ClearedKeys(st, NodesPrefix(run));
    RunDeletes(st, cps);
    var st1 := Run(st, cps);
    var evs := ClearSteps(st1, EventsPrefix(run));
    ClearedKeys(st1, EventsPrefix(run));
    var steps := DeleteSteps(st, run);
    KindsApart(run, RunKey(run));
    forall i | 0 <= i < |steps| ensures steps[i].Delete? && steps[i].key in OwnKeys(st, run)
      && (steps[i].key == RunKey(run) <==> i == |steps| - 1)
    {
      if i < |cps| {
        assert steps[i] == cps[i] && cps[i].key in KeysOf(cps);
      } else if i < |cps| + |evs| {
        assert steps[i] == evs[i - |cps|] && evs[i - |cps|].key in KeysOf(evs);
      }
    }
    if j == |steps| {
      assert steps[..j] == steps;
      DeletionReaches(st, run);
    }
  }

  lemma DeletionReaches(st: Store<Record>, run: RunId)
    requires HasRun(st, run)
    ensures KeysOf(DeleteSteps(st, run)) == OwnKeys(st, run)
  {
    var cps, last := ClearSteps(st, NodesPrefix(run)), [Delete(RunKey(run))];
    ClearedKeys(st, NodesPrefix(run));
    RunDeletes(st, cps);
    var st1 := Run(st, cps);
    var evs := ClearSteps(st1, EventsPrefix(run));
    ClearedKeys(st1, EventsPrefix(run));
    KeysOfConcat(cps, evs);
    KeysOfConcat(cps + evs, last);
    assert last[0].key == RunKey(run);
    forall k ensures k in KeysOf(DeleteSteps(st, run)) <==> k in OwnKeys(st, run) { KindsApart(run, k); }
  }

  /** A complete deletion removes exactly the keys of the run, in any store. */
  lemma DeletionIsExact(st: Store<Record>, run: RunId)
    requires HasRun(st, run)
    ensures Run(st, DeleteSteps(st, run)) == st - OwnKeys(st, run)
  {
    var steps := DeleteSteps(st, run);
    assert steps[..|steps|] == steps;
    DeletedKeys(st, run, |steps|);
    RunDeletes(st, steps);
  }

  /** A deletion cut at any step and run again reaches the store of an uncut one, because the
      metadata that lets it start is deleted last. */
  lemma DeletionRestarts(st: Store<Record>, run: RunId, j: nat)
    requires HasRun(st, run) && j < |DeleteSteps(st, run)|
    ensures var st' := Run(st, DeleteSteps(st, run)[..j]);
      HasRun(st', run) && Run(st', DeleteSteps(st', run)) == Run(st, DeleteSteps(st, run))
  {
    var steps := DeleteSteps(st, run);
    DeletedKeys(st, run, j);
    RunDeletes(st, steps[..j]);
    var st' := Run(st, steps[..j]);
    DeletionIsExact(st, run);
    DeletionIsExact(st', run);
    assert st' - OwnKeys(st', run) == st - OwnKeys(st, run);
  }

  /** Among filed records the keys of a run are the keys of its own records. */
  lemma OwnsIsOwner(k: Key, v: Record, run: RunId)
    requires Filed(k, v) && SlashFree(run)
    ensures Owns(run, k) <==> OwnerOf(v) == run
  {
    if NodesPrefix(run) <= k { UnderNodes(k, v, run); }
    if EventsPrefix(run) <= k { UnderEvents(k, v, run); }
    if k == RunKey(run) { UnderRunKey(k, v, run); }
    if v.CheckpointRecord? { AllUnderPrefix(v.checkpoint.runId, v.checkpoint.nodeId, v.checkpoint.seqNo); }
    if v.EventRecord? { AllUnderPrefix(v.event.runId, "", v.event.seqNo); }
  }

  lemma DeleteKeepsGood(st: Store<Record>, call: Call)
    requires GoodStore(st) && MayCall(st, call) && call.DeleteRun?
    ensures GoodStore(After(st, call))
  {
    var run, j := call.run, call.done;
    if HasRun(st, run) {
      DeletedKeys(st, run, j);
      RunDeletes(st, DeleteSteps(st, run)[..j]);
      var ks := KeysOf(DeleteSteps(st, run)[..j]);
      if j < |DeleteSteps(st, run)| {
        forall k | k in ks && k in st ensures !st[k].RunRecord? {
          OwnRecord(st, run, k);
        }
        RemoveRecords(st, ks);
      } else {
        RemoveRun(st, run);
      }
    }
  }

  lemma OwnRecord(st: Store<Record>, run: RunId, k: Key)
    requires GoodStore(st) && SlashFree(run) && k in OwnKeys(st, run) && k != RunKey(run)
    ensures !st[k].RunRecord?
  {
    AllUnderPrefix(run, "", 0);
    OwnsIsOwner(k, st[k], run);
  }

  lemma RemoveRun(st: Store<Record>, run: RunId)
    requires GoodStore(st) && SlashFree(run)
    ensures GoodStore(st - OwnKeys(st, run))
  {
    var st' := st - OwnKeys(st, run);
    forall k | k in st' && CHECKPOINT_PREFIX <= k ensures Counted(st', st'[k]) {
      var v := st[k];
      OwnsIsOwner(k, v, run);
      FiledOwner(k, v);
      if !v.RunRecord? {
        var r := RunKey(OwnerOf(v));
        assert CHECKPOINT_PREFIX <= r;
        OwnsIsOwner(r, st[r], run);
        UnderRunKey(r, st[r], OwnerOf(v));
      }
    }
  }

  /** Every call, cut anywhere, keeps every record at or below its counter and under its key. */
  lemma CallKeepsGood(st: Store<Record>, call: Call)
    requires GoodStore(st) && MayCall(st, call)
    ensures GoodStore(After(st, call))
  {
    match call {
      case Create(_, _, _, _, _) => MetaCallKeepsGood(st, call);
      case SetStatus(_, _, _, _) => MetaCallKeepsGood(st, call);
      case Save(_, _, _, _, _, _, _) => NumberedCallKeepsGood(st, call);
      case Append(_, _, _, _) => NumberedCallKeepsGood(st, call);
      case DeleteRun(_, _) => DeleteKeepsGood(st, call);
    }
  }
}
