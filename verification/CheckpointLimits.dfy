/** Where the promises of the checkpoint store end, and exactly when they hold. */
module CheckpointLimits {
  import opened Keys
  import opened Storage
  import opened Streams
  import opened Checkpoints
  import opened CheckpointKeys
  import opened CheckpointRuns

  lemma NodeKeysAreSlots(st: Store<Record>, run: RunId, node: NodeId, k: Key)
    requires StoreOk(st) && SlashFree(run) && SlashFree(node)
    requires k in st && CheckpointPrefix(run, node) <= k
    ensures st[k].CheckpointRecord? && HasNumber(st, CheckpointPrefix(run, node), st[k].checkpoint.seqNo)
    ensures k == Slot(CheckpointPrefix(run, node), st[k].checkpoint.seqNo)
  {
    AllUnderPrefix(run, node, 0);
    UnderNode(k, st[k], run, node);
  }

  /** In a store of filed records, whatever its counters say, a stored checkpoint is what loading
      its node returns exactly when the node has no larger number. */
  lemma LoadedIffLargest(st: Store<Record>, cp: Checkpoint)
    requires StoreOk(st) && SlashFree(cp.runId) && SlashFree(cp.nodeId) && cp.seqNo <= U64_MAX
    requires CheckpointKey(cp.runId, cp.nodeId, cp.seqNo) in st
    requires st[CheckpointKey(cp.runId, cp.nodeId, cp.seqNo)] == CheckpointRecord(cp)
    ensures LastCheckpoint(ScanResult(st, CheckpointPrefix(cp.runId, cp.nodeId))) == Ok(Some(cp))
      <==> forall m: nat :: HasNumber(st, CheckpointPrefix(cp.runId, cp.nodeId), m) ==> m <= cp.seqNo
  {
    var p := CheckpointPrefix(cp.runId, cp.nodeId);
    forall k | k in st && p <= k ensures exists m: nat :: HasNumber(st, p, m) && k == Slot(p, m) {
      NodeKeysAreSlots(st, cp.runId, cp.nodeId, k);
    }
    LastSlotIff(st, p, cp.seqNo);
    var keys := ScanKeys(st, p);
    var last := keys[|keys| - 1];
    assert last in keys;
    NodeKeysAreSlots(st, cp.runId, cp.nodeId, last);
    assert ScanResult(st, p)[|keys| - 1] == (last, st[last]);
  }

  /** A save is seen by the next load exactly when the run's counter has not fallen behind the
      numbers stored for the node. */
  lemma SavedIsLoadedIff(st: Store<Record>, call: Call)
    requires StoreOk(st) && MayCall(st, call) && call.Save? && call.done == 2
    ensures var cp := Checkpoint(call.run, call.node, Counters(st, call.run).0 + 1, call.state, call.ts, call.metadata);
      LastCheckpoint(ScanResult(After(st, call), CheckpointPrefix(call.run, call.node))) == Ok(Some(cp))
      <==> forall m: nat ::
             HasNumber(st, CheckpointPrefix(call.run, call.node), m) ==> m <= Counters(st, call.run).0 + 1
  {
    var cp := SavedAs(st, call.run, call.node, call.state, call.metadata, call.ts);
    var steps, p := CallSteps(st, call), CheckpointPrefix(call.run, call.node);
    CutAtMostTwo(st, steps[0], steps[1], 2);
    assert steps == [steps[0], steps[1]] && steps[..2] == steps;
    var st' := After(st, call);
    AllUnderPrefix(call.run, call.node, cp.seqNo);
    UnderRunKey(RunKey(call.run), st[RunKey(call.run)], call.run);
    RunKeyIsApart(CheckpointKey(call.run, call.node, cp.seqNo), CheckpointRecord(cp), call.run);
    LoadedIffLargest(st', cp);
    forall m: nat ensures HasNumber(st', p, m) <==> HasNumber(st, p, m) || m == cp.seqNo {
      if m <= U64_MAX && Slot(p, m) == Slot(p, cp.seqNo) { SlotIsInjective(p, m, cp.seqNo); }
      if m <= U64_MAX { RunKeyIsNoSlot(call.run, call.node, m); }
    }
  }

  lemma RunKeyIsNoSlot(run: RunId, node: NodeId, m: nat)
    ensures CheckpointKey(run, node, m) != RunKey(run)
  {
    KindsApart(run, RunKey(run));
    AllUnderPrefix(run, node, m);
  }

  /** Creating a run again resets its counters: a node that had reached number 2 then loads a
      stale checkpoint after a save. */
  lemma RecreatedRunLoadsStale(st: Store<Record>, call: Call, workflow: string, params: map<string, Json>, now: nat,
                               m: nat)
    requires StoreOk(st) && call.Save? && call.done == 2 && SlashFree(call.run) && SlashFree(call.node)
    requires m >= 2 && HasNumber(st, CheckpointPrefix(call.run, call.node), m)
    ensures var st1 := st[RunKey(call.run) := RunRecord(NewRun(call.run, workflow, params, now))];
      && MayCall(st1, call)
      && LastCheckpoint(ScanResult(After(st1, call), CheckpointPrefix(call.run, call.node)))
         != Ok(Some(Checkpoint(call.run, call.node, 1, call.state, call.ts, call.metadata)))
  {
    var st1 := st[RunKey(call.run) := RunRecord(NewRun(call.run, workflow, params, now))];
    SavedIsLoadedIff(st1, call);
    assert HasNumber(st1, CheckpointPrefix(call.run, call.node), m);
  }

  /** A node id with a slash puts its checkpoints among those of another node; NodeIsolation says exactly
      when this happens. */
  lemma SlashMixesNodes(run: RunId, a: string, b: string, n: nat, cp: Checkpoint)
    requires cp.nodeId == a + "/" + b
    ensures var st := map[CheckpointKey(run, a + "/" + b, n) := CheckpointRecord(cp)];
      LastCheckpoint(ScanResult(st, CheckpointPrefix(run, a))) == Ok(Some(cp)) && cp.nodeId != a
  {
    var k, p := CheckpointKey(run, a + "/" + b, n), CheckpointPrefix(run, a);
    assert k == p + (b + "/" + "" + SeqText(n));
    var st := map[k := CheckpointRecord(cp)];
    AscendingIsUnique(ScanKeys(st, p), [k]);
  }
}
