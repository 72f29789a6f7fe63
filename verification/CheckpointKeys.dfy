/** How the keys of the checkpoint store keep runs, nodes and events apart. */
module CheckpointKeys {
  import opened Keys
  import opened Storage
  import opened Checkpoints

  /** A record sits under the key of its own identity, whose parts have no slash. */
  predicate Filed(k: Key, v: Record) {
    match v
    case RunRecord(m) => SlashFree(m.runId) && k == RunKey(m.runId)
    case CheckpointRecord(c) =>
      SlashFree(c.runId) && SlashFree(c.nodeId) && c.seqNo <= U64_MAX && k == CheckpointKey(c.runId, c.nodeId, c.seqNo)
    case EventRecord(e) => SlashFree(e.runId) && e.seqNo <= U64_MAX && k == EventKey(e.runId, e.seqNo)
    case OtherBytes(_) => false
  }

  function OwnerOf(v: Record): RunId
    requires !v.OtherBytes?
  {
    match v
    case RunRecord(m) => m.runId
    case CheckpointRecord(c) => c.runId
    case EventRecord(e) => e.runId
  }

  /** The part of a key after the run: "meta", "nodes/..." or "events/...". */
  function Tail(v: Record): string
    requires !v.OtherBytes?
  {
    match v
    case RunRecord(_) => "meta"
    case CheckpointRecord(c) => "nodes" + "/" + (c.nodeId + "/" + SeqText(c.seqNo))
    case EventRecord(e) => "events" + "/" + SeqText(e.seqNo)
  }

  lemma TailKind(v: Record)
    requires !v.OtherBytes?
    ensures |Tail(v)| > 0
    ensures Tail(v)[0] == if v.RunRecord? then 'm' else if v.CheckpointRecord? then 'n' else 'e'
  {
  }

  lemma FiledKey(k: Key, v: Record)
    requires Filed(k, v)
    ensures SlashFree(OwnerOf(v)) && k == CHECKPOINT_PREFIX + (OwnerOf(v) + "/" + Tail(v))
  {
    match v {
      case RunRecord(_) =>
      case CheckpointRecord(c) =>
        assert CheckpointPrefix(c.runId, c.nodeId) + SeqText(c.seqNo)
            == CHECKPOINT_PREFIX + (c.runId + "/" + ("nodes" + "/" + (c.nodeId + "/" + SeqText(c.seqNo))));
      case EventRecord(e) =>
        assert EventsPrefix(e.runId) + SeqText(e.seqNo)
            == CHECKPOINT_PREFIX + (e.runId + "/" + ("events" + "/" + SeqText(e.seqNo)));
    }
  }

  /** A filed key under "run/x" belongs to that run, and its tail starts with x. */
  lemma UnderRun(k: Key, v: Record, run: RunId, x: string)
    requires Filed(k, v) && SlashFree(run)
    requires CHECKPOINT_PREFIX + (run + "/" + x) <= k
    ensures OwnerOf(v) == run && x <= Tail(v)
  {
    FiledKey(k, v);
    var a, b := run + "/" + x, OwnerOf(v) + "/" + Tail(v);
    assert (CHECKPOINT_PREFIX + a)[|CHECKPOINT_PREFIX|..] == a;
    assert k[|CHECKPOINT_PREFIX|..] == b;
    assert a <= b;
    PrefixAtSlash(run, x, OwnerOf(v), Tail(v));
  }

  lemma UnderNodes(k: Key, v: Record, run: RunId)
    requires Filed(k, v) && SlashFree(run) && NodesPrefix(run) <= k
    ensures v.CheckpointRecord? && v.checkpoint.runId == run
  {
    UnderRun(k, v, run, "nodes" + "/" + "");
    TailKind(v);
    assert ("nodes" + "/" + "")[0] == 'n';
  }

  lemma UnderEvents(k: Key, v: Record, run: RunId)
    requires Filed(k, v) && SlashFree(run) && EventsPrefix(run) <= k
    ensures v.EventRecord? && v.event.runId == run
  {
    UnderRun(k, v, run, "events" + "/" + "");
    TailKind(v);
    assert ("events" + "/" + "")[0] == 'e';
  }

  lemma NodeUnderNodes(run: RunId, node: NodeId)
    ensures NodesPrefix(run) <= CheckpointPrefix(run, node)
  {
    assert CheckpointPrefix(run, node) == NodesPrefix(run) + (node + "/" + "");
  }

  lemma UnderNode(k: Key, v: Record, run: RunId, node: NodeId)
    requires Filed(k, v) && SlashFree(run) && SlashFree(node) && CheckpointPrefix(run, node) <= k
    ensures v.CheckpointRecord? && v.checkpoint.runId == run && v.checkpoint.nodeId == node
  {
    NodeUnderNodes(run, node);
    UnderNodes(k, v, run);
    UnderRun(k, v, run, "nodes" + "/" + (node + "/" + ""));
    var c := v.checkpoint;
    PrefixAtSlash("nodes", node + "/" + "", "nodes", c.nodeId + "/" + SeqText(c.seqNo));
    PrefixAtSlash(node, "", c.nodeId, SeqText(c.seqNo));
  }

  lemma UnderRunKey(k: Key, v: Record, run: RunId)
    requires Filed(k, v) && SlashFree(run) && RunKey(run) == k
    ensures v.RunRecord? && v.meta.runId == run
  {
    UnderRun(k, v, run, "meta");
    TailKind(v);
    assert "meta"[0] == 'm';
  }

  /** For any run id at all, the three kinds of keys of one run are apart. */
  lemma KindsApart(run: RunId, k: Key)
    ensures !(NodesPrefix(run) <= k && EventsPrefix(run) <= k)
    ensures !(NodesPrefix(run) <= RunKey(run)) && !(EventsPrefix(run) <= RunKey(run))
  {
    var n := |CHECKPOINT_PREFIX + (run + "/")|;
    assert NodesPrefix(run)[n] == 'n' && EventsPrefix(run)[n] == 'e' && RunKey(run)[n] == 'm';
  }

  /** The keys as they are printed. */
  lemma KeyTexts(run: RunId, node: NodeId, n: nat)
    ensures RunKey(run) == "_checkpoints/" + run + "/meta"
    ensures CheckpointKey(run, node, n) == "_checkpoints/" + run + "/nodes/" + node + "/" + SeqText(n)
    ensures EventKey(run, n) == "_checkpoints/" + run + "/events/" + SeqText(n)
  {
    assert "/meta" == "/" + "meta" && "/nodes/" == "/" + "nodes" + "/" && "/events/" == "/" + "events" + "/";
    TextOfThree(CHECKPOINT_PREFIX, run, "events", SeqText(n));
    TextOfThree(CHECKPOINT_PREFIX, run, "nodes", node + "/" + SeqText(n));
    assert CheckpointKey(run, node, n) == CHECKPOINT_PREFIX + (run + "/" + ("nodes" + "/" + (node + "/" + SeqText(n))));
  }

  lemma TextOfThree(p: string, a: string, b: string, c: string)
    ensures p + (a + "/" + (b + "/" + c)) == p + a + ("/" + b + "/") + c
    ensures p + (a + "/" + (b + "/" + "")) + c == p + a + ("/" + b + "/") + c
  {
  }

  lemma AllUnderPrefix(run: RunId, node: NodeId, n: nat)
    ensures CHECKPOINT_PREFIX <= RunKey(run)
    ensures CHECKPOINT_PREFIX <= NodesPrefix(run) <= CheckpointPrefix(run, node) <= CheckpointKey(run, node, n)
    ensures CHECKPOINT_PREFIX <= EventsPrefix(run) <= EventKey(run, n)
  {
    NodeUnderNodes(run, node);
  }

  predicate StoreOk(st: Store<Record>) {
    forall k :: k in st && CHECKPOINT_PREFIX <= k ==> Filed(k, st[k])
  }
}
