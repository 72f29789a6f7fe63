/** The reverse index of graph edges agrees with the edges, over every run of the writer. */
module GraphIndex {
  import opened Keys
  import opened Storage
  import opened AtomicMemory
  import opened AtomicRecovery
  import opened AtomicRuns

  /** Identifiers are path components, and blobs keep out of the graph. */
  predicate GraphSafe(op: MemoryOp) {
    match op
    case PutBlob(key, _) => !(GRAPH_PREFIX <= key)
    case DeleteBlob(key) => !(GRAPH_PREFIX <= key)
    case PutEmbedding(_, _, _, _) => true
    case CreateNode(ns, _, _, _) => SlashFree(ns)
    case CreateEdge(ns, f, t, to, _) => Components(ns, f, t, to)
    case DeleteEdge(ns, f, t, to) => Components(ns, f, t, to)
  }

  predicate Components(ns: string, f: string, t: string, to: string) {
    SlashFree(ns) && SlashFree(f) && SlashFree(t) && SlashFree(to)
  }

  /** The edge is stored exactly when its index entry is, and the entry names the source node. */
  predicate EdgeAgrees(d: Store<Value>, ns: string, f: string, t: string, to: string) {
    && (EdgeKey(ns, f, t, to) in d <==> IndexKey(ns, f, t, to) in d)
    && (IndexKey(ns, f, t, to) in d ==> d[IndexKey(ns, f, t, to)] == Raw(f))
  }

  ghost predicate GraphAgrees(d: Store<Value>) {
    forall ns, f, t, to :: Components(ns, f, t, to) ==> EdgeAgrees(d, ns, f, t, to)
  }

  // ---- the key formats ----

  lemma EdgeKeyIsInjective(ns: string, f: string, t: string, to: string,
                           ns': string, f': string, t': string, to': string)
    requires Components(ns, f, t, to) && Components(ns', f', t', to')
    requires EdgeKey(ns, f, t, to) == EdgeKey(ns', f', t', to')
    ensures (ns, f, t, to) == (ns', f', t', to')
  {
    var r3, r3' := t + "/" + to, t' + "/" + to';
    var r2, r2' := f + "/" + r3, f' + "/" + r3';
    var r1, r1' := "edges" + "/" + r2, "edges" + "/" + r2';
    CancelPrefix(GRAPH_PREFIX, ns + "/" + r1, ns' + "/" + r1');
    SplitAtSlash(ns, r1, ns', r1');
    SplitAtSlash("edges", r2, "edges", r2');
    SplitAtSlash(f, r3, f', r3');
    SplitAtSlash(t, to, t', to');
  }

  lemma IndexKeyIsInjective(ns: string, f: string, t: string, to: string,
                            ns': string, f': string, t': string, to': string)
    requires Components(ns, f, t, to) && Components(ns', f', t', to')
    requires IndexKey(ns, f, t, to) == IndexKey(ns', f', t', to')
    ensures (ns, f, t, to) == (ns', f', t', to')
  {
    var r3, r3' := to + "/" + f, to' + "/" + f';
    var r2, r2' := t + "/" + r3, t' + "/" + r3';
    var r1, r1' := "index" + "/" + r2, "index" + "/" + r2';
    CancelPrefix(GRAPH_PREFIX, ns + "/" + r1, ns' + "/" + r1');
    SplitAtSlash(ns, r1, ns', r1');
    SplitAtSlash("index", r2, "index", r2');
    SplitAtSlash(t, r3, t', r3');
    SplitAtSlash(to, f, to', f');
  }

  /** Keys of different kinds differ, whatever follows the kind. */
  lemma KindsDiffer(ns: string, kind: string, rest: string, ns': string, kind': string, rest': string)
    requires SlashFree(ns) && SlashFree(ns') && SlashFree(kind) && SlashFree(kind') && kind != kind'
    ensures GRAPH_PREFIX + (ns + "/" + (kind + "/" + rest)) != GRAPH_PREFIX + (ns' + "/" + (kind' + "/" + rest'))
  {
    var r, r' := kind + "/" + rest, kind' + "/" + rest';
    if GRAPH_PREFIX + (ns + "/" + r) == GRAPH_PREFIX + (ns' + "/" + r') {
      CancelPrefix(GRAPH_PREFIX, ns + "/" + r, ns' + "/" + r');
      SplitAtSlash(ns, r, ns', r');
      SplitAtSlash(kind, rest, kind', rest');
      assert false;
    }
  }

  lemma EdgeIsNotIndex(ns: string, f: string, t: string, to: string,
                       ns': string, f': string, t': string, to': string)
    requires SlashFree(ns) && SlashFree(ns')
    ensures EdgeKey(ns, f, t, to) != IndexKey(ns', f', t', to')
  {
    KindsDiffer(ns, "edges", f + "/" + (t + "/" + to), ns', "index", t' + "/" + (to' + "/" + f'));
  }

  /** No step writes a key of this edge or of its index entry. */
  predicate Spares(steps: seq<Step<Value>>, ns: string, f: string, t: string, to: string) {
    !Touches(steps, EdgeKey(ns, f, t, to)) && !Touches(steps, IndexKey(ns, f, t, to))
  }

  lemma SparedEdgeAgrees(d: Store<Value>, steps: seq<Step<Value>>, ns: string, f: string, t: string, to: string)
    requires Spares(steps, ns, f, t, to) && EdgeAgrees(d, ns, f, t, to)
    ensures EdgeAgrees(Run(d, steps), ns, f, t, to)
  {
    RunLeavesOthers(d, steps, EdgeKey(ns, f, t, to));
    RunLeavesOthers(d, steps, IndexKey(ns, f, t, to));
  }

  /** An operation that does not name the edge spares its keys. */
  lemma OtherOpsSpare(op: MemoryOp, m: string, v: nat, ns: string, f: string, t: string, to: string)
    requires GraphSafe(op) && Components(ns, f, t, to)
    requires (op.CreateEdge? || op.DeleteEdge?) ==> (op.ns, op.fromId, op.edgeType, op.toId) != (ns, f, t, to)
    ensures Spares(OpSteps(op, m, v), ns, f, t, to)
  {
    var e, x := EdgeKey(ns, f, t, to), IndexKey(ns, f, t, to);
    assert GRAPH_PREFIX <= e && GRAPH_PREFIX <= x;
    match op {
      case PutBlob(key, _) => VersionedKeyKeepsOut(key, v, GRAPH_PREFIX);
      case DeleteBlob(key) =>
      case PutEmbedding(c, id, _, _) =>
        assert VectorKey(c, id, "meta")[1] == 'v' && VectorKey(c, id, "data")[1] == 'v' && GRAPH_PREFIX[1] == 'g';
      case CreateNode(ns', id, _, _) =>
        KindsDiffer(ns', "nodes", id, ns, "edges", f + "/" + (t + "/" + to));
        KindsDiffer(ns', "nodes", id, ns, "index", t + "/" + (to + "/" + f));
      case CreateEdge(ns', f', t', to', _) => OtherEdgesSpare(ns', f', t', to', ns, f, t, to);
      case DeleteEdge(ns', f', t', to') => OtherEdgesSpare(ns', f', t', to', ns, f, t, to);
    }
  }

  lemma OtherEdgesSpare(ns': string, f': string, t': string, to': string,
                        ns: string, f: string, t: string, to: string)
    requires Components(ns, f, t, to) && Components(ns', f', t', to') && (ns', f', t', to') != (ns, f, t, to)
    ensures {EdgeKey(ns', f', t', to'), IndexKey(ns', f', t', to')} !! {EdgeKey(ns, f, t, to), IndexKey(ns, f, t, to)}
  {
    EdgeIsNotIndex(ns, f, t, to, ns', f', t', to');
    EdgeIsNotIndex(ns', f', t', to', ns, f, t, to);
    if EdgeKey(ns', f', t', to') == EdgeKey(ns, f, t, to) {
      EdgeKeyIsInjective(ns', f', t', to', ns, f, t, to);
    }
    if IndexKey(ns', f', t', to') == IndexKey(ns, f, t, to) {
      IndexKeyIsInjective(ns', f', t', to', ns, f, t, to);
    }
  }

  /** Creating or deleting an edge changes both of its keys. */
  lemma OwnEdgeAgrees(d: Store<Value>, op: MemoryOp, m: string, v: nat)
    requires op.CreateEdge? || op.DeleteEdge?
    requires GraphSafe(op)
    ensures EdgeAgrees(Run(d, OpSteps(op, m, v)), op.ns, op.fromId, op.edgeType, op.toId)
  {
    EdgeIsNotIndex(op.ns, op.fromId, op.edgeType, op.toId, op.ns, op.fromId, op.edgeType, op.toId);
    var steps := OpSteps(op, m, v);
    assert steps == [steps[0], steps[1]];
    RunTwo(d, steps[0], steps[1]);
  }

  lemma OpKeepsAgreement(d: Store<Value>, op: MemoryOp, m: string, v: nat)
    requires GraphSafe(op) && GraphAgrees(d)
    ensures GraphAgrees(Run(d, OpSteps(op, m, v)))
  {
    var steps := OpSteps(op, m, v);
    forall ns, f, t, to | Components(ns, f, t, to) ensures EdgeAgrees(Run(d, steps), ns, f, t, to) {
      assert EdgeAgrees(d, ns, f, t, to);
      if (op.CreateEdge? || op.DeleteEdge?) && (op.ns, op.fromId, op.edgeType, op.toId) == (ns, f, t, to) {
        OwnEdgeAgrees(d, op, m, v);
      } else {
        OtherOpsSpare(op, m, v, ns, f, t, to);
        SparedEdgeAgrees(d, steps, ns, f, t, to);
      }
    }
  }

  predicate AllGraphSafe(ops: seq<MemoryOp>) {
    forall i :: 0 <= i < |ops| ==> GraphSafe(ops[i])
  }

  lemma {:induction false} OpsKeepAgreement(d: Store<Value>, ops: seq<MemoryOp>, m: string, v: nat)
    requires AllGraphSafe(ops) && GraphAgrees(d)
    ensures GraphAgrees(Run(d, OpsSteps(ops, m, v)))
  {
    if ops != [] {
      var init, last := ops[..|ops| - 1], ops[|ops| - 1];
      OpsKeepAgreement(d, init, m, v);
      RunConcat(d, OpsSteps(init, m, v), OpSteps(last, m, v));
      OpKeepsAgreement(Run(d, OpsSteps(init, m, v)), last, m, v);
    }
  }

  /** No write and no recovery ran to its end with an operation refused by storage. */
  predicate NoRefusedOps(c: Client, calls: seq<Call>)
    requires PossibleCalls(c, calls)
    decreases |calls|
  {
    calls == [] || (Unrefused(c, calls[0]) && NoRefusedOps(Called(c, calls[0]), calls[1..]))
  }

  predicate Unrefused(c: Client, call: Call) {
    && (call.Write? ==>
          AllGraphSafe(call.ops) && (call.done == call.reached + 2 ==> call.reached == |Writes(call)|))
    && (call.Recover? && call.done == |CallSteps(c, call)| ==> call.reached >= |OpenWrites(Scanned(c.store))|)
  }

  lemma {:induction false} IntendedAgrees(d: Store<Value>, c: Client, calls: seq<Call>)
    requires PossibleCalls(c, calls) && NoRefusedOps(c, calls) && GraphAgrees(d)
    ensures GraphAgrees(Intended(d, c, calls))
    decreases |calls|
  {
    if calls != [] {
      var call := calls[0];
      if call.Write? && call.done > 0 {
        assert Writes(call)[..|Writes(call)|] == Writes(call);
        OpsKeepAgreement(d, call.ops, call.memoryId, call.now);
      }
      IntendedAgrees(CallEffect(d, c, call), Called(c, call), calls[1..]);
    }
  }

  /** Graph index agreement over every run: whenever a recovery has completed, an edge is stored
      exactly when its index entry is, however the writes were cut. */
  lemma GraphIndexAgreement(c: Client, calls: seq<Call>, newest: Option<(Key, Value)>)
    requires ClientOk(c, newest) && PossibleCalls(c, calls) && NoRefusedOps(c, calls)
    requires GraphAgrees(DataOf(AfterRecovery(c.store)))
    ensures GraphAgrees(DataOf(AfterRecovery(Final(c, calls).store)))
    ensures Final(c, calls).recovered ==> GraphAgrees(DataOf(Final(c, calls).store))
  {
    CrashAtomicity(c, calls, newest);
    IntendedAgrees(DataOf(AfterRecovery(c.store)), c, calls);
  }

  /** The same from an empty store, for every run. */
  lemma EveryRunKeepsIndex(calls: seq<Call>)
    requires PossibleCalls(FRESH, calls) && NoRefusedOps(FRESH, calls)
    ensures GraphAgrees(DataOf(AfterRecovery(Final(FRESH, calls).store)))
    ensures Final(FRESH, calls).recovered ==> GraphAgrees(DataOf(Final(FRESH, calls).store))
  {
    FreshIsOk();
    GraphIndexAgreement(FRESH, calls, None);
  }
}
