/** Which records a read of one node sees, for identifiers of any kind, slashes included. */
module NodeIsolation {
  import opened Keys
  import opened Storage
  import opened Checkpoints
  import opened CheckpointKeys

  /** The directory of a record below the common prefix. */
  function Path(v: Record): string
    requires !v.OtherBytes?
  {
    match v
    case RunRecord(m) => m.runId
    case CheckpointRecord(c) => NodePath(c.runId, c.nodeId)
    case EventRecord(e) => e.runId + "/" + "events"
  }

  function NodePath(run: RunId, node: NodeId): string {
    run + "/" + ("nodes" + "/" + node)
  }

  /** The last component of the key of a record. */
  function Leaf(v: Record): string
    requires !v.OtherBytes?
  {
    match v
    case RunRecord(_) => "meta"
    case CheckpointRecord(c) => SeqText(c.seqNo)
    case EventRecord(e) => SeqText(e.seqNo)
  }

  /** The key under which the store puts a record. */
  function KeyOf(v: Record): Key
    requires !v.OtherBytes?
  {
    match v
    case RunRecord(m) => RunKey(m.runId)
    case CheckpointRecord(c) => CheckpointKey(c.runId, c.nodeId, c.seqNo)
    case EventRecord(e) => EventKey(e.runId, e.seqNo)
  }

  lemma JoinOfThree(p: string, run: string, kind: string, leaf: string)
    ensures p + (run + "/" + (kind + "/" + "")) + leaf == p + (run + "/" + kind + "/" + leaf)
  {
  }

  lemma JoinOfFour(p: string, run: string, kind: string, node: string, leaf: string)
    ensures p + (run + "/" + (kind + "/" + (node + "/" + ""))) + leaf
         == p + (run + "/" + (kind + "/" + node) + "/" + leaf)
  {
    assert kind + "/" + (node + "/" + "") == kind + "/" + node + "/";
    JoinOfThree(p, run, kind + "/" + node, leaf);
  }

  lemma KeyIsPath(v: Record)
    requires !v.OtherBytes?
    ensures KeyOf(v) == CHECKPOINT_PREFIX + (Path(v) + "/" + Leaf(v))
  {
    match v {
      case RunRecord(_) =>
      case CheckpointRecord(c) => JoinOfFour(CHECKPOINT_PREFIX, c.runId, "nodes", c.nodeId, Leaf(v));
      case EventRecord(e) => JoinOfThree(CHECKPOINT_PREFIX, e.runId, "events", Leaf(v));
    }
  }

  lemma {:induction false} HexIsSlashFree(n: nat)
    ensures SlashFree(HexText(n))
  {
    if n >= 16 { HexIsSlashFree(n / 16); }
  }

  lemma LeafIsSlashFree(v: Record)
    requires !v.OtherBytes?
    ensures SlashFree(Leaf(v))
  {
    match v {
      case RunRecord(_) =>
      case CheckpointRecord(c) => HexIsSlashFree(c.seqNo);
      case EventRecord(e) => HexIsSlashFree(e.seqNo);
    }
  }

  /** A directory lists the paths that are the directory itself or below it. */
  lemma DirectoryIff(x: string, y: string, leaf: string)
    requires SlashFree(leaf)
    ensures x + "/" <= y + "/" + leaf <==> x == y || x + "/" <= y
  {
    var s := y + "/" + leaf;
    assert forall i :: |y| < i < |s| ==> s[i] == leaf[i - |y| - 1] && s[i] != '/';
    if x + "/" <= s {
      assert s[|x|] == '/' && s[..|x|] == x && s[..|y|] == y;
    }
  }

  /** A scan of a node hits a record exactly when the record's path is the node's or below it. */
  lemma ScanHitsIff(v: Record, run: RunId, node: NodeId)
    requires !v.OtherBytes?
    ensures CheckpointPrefix(run, node) <= KeyOf(v)
      <==> (Path(v) == NodePath(run, node) || NodePath(run, node) + "/" <= Path(v))
  {
    var x, s := NodePath(run, node), Path(v) + "/" + Leaf(v);
    KeyIsPath(v);
    LeafIsSlashFree(v);
    DirectoryIff(x, Path(v), Leaf(v));
    assert CheckpointPrefix(run, node) == CHECKPOINT_PREFIX + (x + "/");
    assert (CHECKPOINT_PREFIX + s)[|CHECKPOINT_PREFIX|..] == s;
    assert (CHECKPOINT_PREFIX + (x + "/"))[|CHECKPOINT_PREFIX|..] == x + "/";
  }

  /** The checkpoint of another node of the same run is hit exactly when its node id continues this
      one with a slash. */
  lemma SameRunHitsIff(run: RunId, a: NodeId, b: NodeId)
    ensures (NodePath(run, b) == NodePath(run, a) || NodePath(run, a) + "/" <= NodePath(run, b))
      <==> (b == a || a + "/" <= b)
  {
    var p := run + "/" + ("nodes" + "/" + "");
    assert NodePath(run, a) == p + a && NodePath(run, b) == p + b && (p + a) + "/" == p + (a + "/");
    assert (p + a)[|p|..] == a && (p + b)[|p|..] == b && (p + (a + "/"))[|p|..] == a + "/";
  }

  predicate Own(v: Record, run: RunId, node: NodeId) {
    v.CheckpointRecord? && v.checkpoint.runId == run && v.checkpoint.nodeId == node
  }

  /** Every record is stored under its own key; identifiers may be anything. */
  predicate Stored(st: Store<Record>) {
    forall k :: k in st && CHECKPOINT_PREFIX <= k ==> !st[k].OtherBytes? && k == KeyOf(st[k])
  }

  /** A record of something else that a scan of the node hits. */
  predicate Intrudes(v: Record, run: RunId, node: NodeId) {
    && !v.OtherBytes? && !Own(v, run, node)
    && (Path(v) == NodePath(run, node) || NodePath(run, node) + "/" <= Path(v))
  }

  predicate SeesOnlyOwn(entries: seq<(Key, Record)>, run: RunId, node: NodeId) {
    forall i :: 0 <= i < |entries| ==> Own(entries[i].1, run, node)
  }

  /** For any identifiers: a read of the node sees only its own checkpoints exactly when no stored
      record intrudes. It sees all of its own in any case. */
  lemma OnlyOwnIff(st: Store<Record>, run: RunId, node: NodeId)
    requires Stored(st)
    ensures SeesOnlyOwn(ScanResult(st, CheckpointPrefix(run, node)), run, node)
      <==> forall k :: k in st && CHECKPOINT_PREFIX <= k ==> !Intrudes(st[k], run, node)
    ensures forall k :: k in st && CHECKPOINT_PREFIX <= k && Own(st[k], run, node) ==>
      k in ScanKeys(st, CheckpointPrefix(run, node))
  {
    var p := CheckpointPrefix(run, node);
    var keys, entries := ScanKeys(st, p), ScanResult(st, p);
    AllUnderPrefix(run, node, 0);
    forall k | k in st && CHECKPOINT_PREFIX <= k
      ensures k in keys <==> Own(st[k], run, node) || Intrudes(st[k], run, node)
    {
      ScanHitsIff(st[k], run, node);
    }
    forall i | 0 <= i < |keys| ensures entries[i] == (keys[i], st[keys[i]]) && keys[i] in keys { }
    if SeesOnlyOwn(entries, run, node) {
      forall k | k in keys ensures Own(st[k], run, node) {
        var i :| 0 <= i < |keys| && keys[i] == k;
        assert entries[i] == (k, st[k]);
      }
    }
  }

  /** Among runs whose ids have no slash, only a node of the same run whose id continues this one
      with a slash can intrude. */
  lemma IntrudesIff(v: Record, run: RunId, node: NodeId)
    requires SlashFree(run) && !v.OtherBytes? && SlashFree(OwnerOf(v))
    ensures Intrudes(v, run, node)
      <==> v.CheckpointRecord? && v.checkpoint.runId == run && node + "/" <= v.checkpoint.nodeId
  {
    var x := "nodes" + "/" + node;
    match v {
      case RunRecord(m) =>
        assert '/' in NodePath(run, node) by { assert NodePath(run, node)[|run|] == '/'; }
        assert '/' !in m.runId;
        assert (NodePath(run, node) + "/")[|run|] == '/';
      case EventRecord(e) =>
        assert x[0] == 'n';
        if NodePath(run, node) == Path(v) { SplitAtSlash(run, x, e.runId, "events"); }
        if NodePath(run, node) + "/" <= Path(v) {
          assert NodePath(run, node) + "/" == run + "/" + (x + "/");
          PrefixAtSlash(run, x + "/", e.runId, "events");
        }
      case CheckpointRecord(c) =>
        var y := "nodes" + "/" + c.nodeId;
        if NodePath(run, node) == Path(v) { SplitAtSlash(run, x, c.runId, y); }
        if NodePath(run, node) + "/" <= Path(v) {
          assert NodePath(run, node) + "/" == run + "/" + (x + "/");
          PrefixAtSlash(run, x + "/", c.runId, y);
        }
        SameRunHitsIff(run, node, c.nodeId);
    }
  }

  /** A node of a run is isolated exactly when no stored node id of the run continues it with a slash. */
  lemma NodeIsolationIff(st: Store<Record>, run: RunId, node: NodeId)
    requires Stored(st) && SlashFree(run)
    requires forall k :: k in st && CHECKPOINT_PREFIX <= k ==> SlashFree(OwnerOf(st[k]))
    ensures SeesOnlyOwn(ScanResult(st, CheckpointPrefix(run, node)), run, node)
      <==> forall k :: k in st && CHECKPOINT_PREFIX <= k && st[k].CheckpointRecord? && st[k].checkpoint.runId == run
             ==> !(node + "/" <= st[k].checkpoint.nodeId)
  {
    OnlyOwnIff(st, run, node);
    forall k | k in st && CHECKPOINT_PREFIX <= k
      ensures Intrudes(st[k], run, node)
        <==> st[k].CheckpointRecord? && st[k].checkpoint.runId == run && node + "/" <= st[k].checkpoint.nodeId
    {
      IntrudesIff(st[k], run, node);
    }
  }

  /** What loading and listing return is then the node's own, and otherwise the listing shows another
      node's checkpoint or fails. */
  lemma ReadsAreOwnIff(st: Store<Record>, run: RunId, node: NodeId)
    ensures var entries := ScanResult(st, CheckpointPrefix(run, node));
      SeesOnlyOwn(entries, run, node)
      <==> Listing(entries).Ok? && forall m :: m in Listing(entries).value ==> m.runId == run && m.nodeId == node
    ensures var entries := ScanResult(st, CheckpointPrefix(run, node));
      SeesOnlyOwn(entries, run, node) ==>
        LastCheckpoint(entries).Ok?
        && (LastCheckpoint(entries).value.Some? ==>
              Own(CheckpointRecord(LastCheckpoint(entries).value.value), run, node))
  {
    var entries := ScanResult(st, CheckpointPrefix(run, node));
    if Listing(entries).Ok? {
      forall i | 0 <= i < |entries| ensures Metas(entries)[i] in Listing(entries).value { }
    }
  }

  predicate IsOwnKey(st: Store<Record>, k: Key, run: RunId, node: NodeId) {
    k in st && CHECKPOINT_PREFIX <= k && Own(st[k], run, node)
  }

  /** Loading returns nothing or a checkpoint of the node. */
  predicate LoadsOwn(r: Result<Option<Checkpoint>>, run: RunId, node: NodeId) {
    r.Ok? && (r.value.Some? ==> Own(CheckpointRecord(r.value.value), run, node))
  }

  lemma ScanIsOwnOrIntruding(st: Store<Record>, run: RunId, node: NodeId, k: Key)
    requires Stored(st)
    ensures k in ScanKeys(st, CheckpointPrefix(run, node))
      <==> k in st && CHECKPOINT_PREFIX <= k && (Own(st[k], run, node) || Intrudes(st[k], run, node))
  {
    AllUnderPrefix(run, node, 0);
    if k in st && CHECKPOINT_PREFIX <= k { ScanHitsIff(st[k], run, node); }
  }

  /** For any identifiers: loading a node is its own exactly when every intruding record comes before
      some checkpoint of the node in key order. */
  lemma LoadIsOwnIff(st: Store<Record>, run: RunId, node: NodeId)
    requires Stored(st)
    ensures LoadsOwn(LastCheckpoint(ScanResult(st, CheckpointPrefix(run, node))), run, node)
      <==> forall k :: k in st && CHECKPOINT_PREFIX <= k && Intrudes(st[k], run, node) ==>
             exists k' :: IsOwnKey(st, k', run, node) && Less(k, k')
  {
    var keys := ScanKeys(st, CheckpointPrefix(run, node));
    forall k ensures k in keys
      <==> k in st && CHECKPOINT_PREFIX <= k && (Own(st[k], run, node) || Intrudes(st[k], run, node))
    {
      ScanIsOwnOrIntruding(st, run, node, k);
    }
    if keys != [] {
      var last := keys[|keys| - 1];
      assert last in keys && ScanResult(st, CheckpointPrefix(run, node))[|keys| - 1] == (last, st[last]);
      forall k | k in keys ensures k == last || (Less(k, last) && !Less(last, k)) { LastIsLargest(keys, k); }
      if Own(st[last], run, node) {
        assert IsOwnKey(st, last, run, node);
      }
    }
  }

  lemma LastIsLargest(keys: seq<Key>, k: Key)
    requires StrictlyAscending(keys) && k in keys
    ensures var last := keys[|keys| - 1]; k == last || (Less(k, last) && !Less(last, k))
  {
    var i :| 0 <= i < |keys| && keys[i] == k;
    LessTrichotomy(k, keys[|keys| - 1]);
  }

  /** A node id that is another one with a slash at its end intrudes on its listing, but comes before
      all its checkpoints, because a slash sorts before every digit. */
  lemma TrailingSlashComesFirst(run: RunId, node: NodeId, m: nat, n: nat)
    ensures CheckpointPrefix(run, node) <= CheckpointKey(run, node + "/", m)
    ensures Less(CheckpointKey(run, node + "/", m), CheckpointKey(run, node, n))
  {
    var p := CheckpointPrefix(run, node);
    assert CheckpointKey(run, node + "/", m) == p + ("/" + SeqText(m));
    HexStartsWithDigit(n);
    LessAfterPrefix(p, "/" + SeqText(m), SeqText(n));
  }

  lemma {:induction false} HexStartsWithDigit(n: nat)
    ensures |SeqText(n)| > 0 && '/' < SeqText(n)[0]
  {
    HexTextStarts(n);
  }

  lemma {:induction false} HexTextStarts(n: nat)
    ensures |HexText(n)| > 0 && '/' < HexText(n)[0]
  {
    if n >= 16 { HexTextStarts(n / 16); }
  }
}
