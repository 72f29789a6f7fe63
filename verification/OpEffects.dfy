/** What the operations of an atomic write leave under each key, said key by key and without the step
    lists of the writer. */
module OpEffects {
  import opened Keys
  import opened Storage
  import opened AtomicMemory
  import opened AtomicRecovery
  import opened AtomicRuns
  import Codecs
  import EdgeClashes

  /** What an operation says of a key: nothing, that it is gone, or what it holds. */
  datatype Saying = Nothing | Gone | Holding(value: Value)

  function Lookup(d: Store<Value>, k: Key): Option<Value> {
    if k in d then Some(d[k]) else None
  }

  function Then(before: Option<Value>, s: Saying): Option<Value> {
    match s
    case Nothing => before
    case Gone => None
    case Holding(v) => Some(v)
  }

  // ---- the keys, as they are printed ----

  function VersionText(key: Key, version: nat): Key {
    key + "@v" + LeBytes(version, 8)
  }

  function VectorText(collection: string, id: string, last: string): Key {
    "_vectors/" + collection + "/" + id + last
  }

  function NodeText(ns: string, id: string): Key {
    "_graph/" + ns + "/nodes/" + id
  }

  function EdgeText(ns: string, fromId: string, edgeType: string, toId: string): Key {
    "_graph/" + ns + "/edges/" + fromId + "/" + edgeType + "/" + toId
  }

  function IndexText(ns: string, fromId: string, edgeType: string, toId: string): Key {
    "_graph/" + ns + "/index/" + edgeType + "/" + toId + "/" + fromId
  }

  lemma KeyIsPrinted(id: nat)
    ensures IntentKey(id) == "_intents/" + Decimal(id)
    ensures DecimalValue(IntentKey(id)[9..]) == id
  {
    assert IntentKey(id)[9..] == Decimal(id);
    DecimalDenotes(id);
  }

  lemma VectorKeyText(c: string, id: string)
    ensures VectorKey(c, id, "meta") == VectorText(c, id, "/meta")
    ensures VectorKey(c, id, "data") == VectorText(c, id, "/data")
  {
    assert "/" + "meta" == "/meta" && "/" + "data" == "/data";
  }

  lemma NodeKeyText(ns: string, id: string)
    ensures NodeKey(ns, id) == NodeText(ns, id)
  {
    assert "/nodes/" == "/" + "nodes" + "/";
  }

  lemma JoinFour(a: string, b: string, c: string, d: string, e: string)
    ensures a + (b + "/" + (c + "/" + (d + "/" + e))) == a + b + ("/" + c + "/") + d + "/" + e
  {
  }

  lemma EdgeKeyText(ns: string, f: string, t: string, to: string)
    ensures EdgeKey(ns, f, t, to) == EdgeText(ns, f, t, to)
    ensures IndexKey(ns, f, t, to) == IndexText(ns, f, t, to)
  {
    assert "/edges/" == "/" + "edges" + "/" && "/index/" == "/" + "index" + "/";
    JoinFour(GRAPH_PREFIX, ns, "edges", f, t + "/" + to);
    JoinFour(GRAPH_PREFIX, ns, "index", t, to + "/" + f);
    assert EdgeText(ns, f, t, to) == GRAPH_PREFIX + ns + "/edges/" + f + "/" + (t + "/" + to);
    assert IndexText(ns, f, t, to) == GRAPH_PREFIX + ns + "/index/" + t + "/" + (to + "/" + f);
  }

  // ---- one operation ----

  function SayingOf(op: MemoryOp, memoryId: string, version: nat, k: Key): Saying {
    match op
    case PutBlob(key, value) =>
      if k == key || k == VersionText(key, version) then Holding(Raw(value)) else Nothing
    case PutEmbedding(c, id, e, metadata) =>
      if k == VectorText(c, id, "/meta") then Holding(EmbeddingMeta(memoryId, version, |e|, metadata))
      else if k == VectorText(c, id, "/data") then Holding(Raw(EmbeddingBytes(e)))
      else Nothing
    case CreateNode(ns, id, t, p) =>
      if k == NodeText(ns, id) then Holding(NodeRecord(id, t, p, memoryId, version)) else Nothing
    case CreateEdge(ns, f, t, to, p) =>
      if k == EdgeText(ns, f, t, to) then Holding(EdgeRecord(f, t, to, p, memoryId, version))
      else if k == IndexText(ns, f, t, to) then Holding(Raw(f))
      else Nothing
    case DeleteBlob(key) =>
      if k == key then Gone else Nothing
    case DeleteEdge(ns, f, t, to) =>
      if k == EdgeText(ns, f, t, to) || k == IndexText(ns, f, t, to) then Gone else Nothing
  }

  lemma LookupOne(d: Store<Value>, s: Step<Value>, k: Key)
    ensures Lookup(Run(d, [s]), k) == if k != s.key then Lookup(d, k) else if s.Put? then Some(s.value) else None
  {
    RunOne(d, s);
  }

  lemma LookupTwo(d: Store<Value>, s: Step<Value>, s': Step<Value>, k: Key)
    ensures Lookup(Run(d, [s, s']), k)
      == if k == s'.key then (if s'.Put? then Some(s'.value) else None)
         else if k == s.key then (if s.Put? then Some(s.value) else None)
         else Lookup(d, k)
  {
    RunTwo(d, s, s');
  }

  lemma MetaIsNotData(c: string, id: string)
    ensures VectorText(c, id, "/meta") != VectorText(c, id, "/data")
  {
    var n := |"_vectors/" + c + "/" + id|;
    assert VectorText(c, id, "/meta")[n + 1] == 'm' && VectorText(c, id, "/data")[n + 1] == 'd';
  }

  /** After an operation every key is as the operation says, and as before where it says nothing. */
  lemma OpEffect(d: Store<Value>, op: MemoryOp, m: string, v: nat, k: Key)
    ensures Lookup(Run(d, OpSteps(op, m, v)), k) == Then(Lookup(d, k), SayingOf(op, m, v, k))
  {
    var steps := OpSteps(op, m, v);
    match op {
      case PutBlob(key, value) => LookupTwo(d, steps[0], steps[1], k);
      case PutEmbedding(c, id, e, metadata) =>
        VectorKeyText(c, id);
        MetaIsNotData(c, id);
        LookupTwo(d, steps[0], steps[1], k);
      case CreateNode(ns, id, t, p) =>
        NodeKeyText(ns, id);
        LookupOne(d, steps[0], k);
      case CreateEdge(ns, f, t, to, p) =>
        EdgeKeyText(ns, f, t, to);
        EdgeClashes.OwnKeysDiffer(EdgeClashes.Edge(ns, f, t, to));
        LookupTwo(d, steps[0], steps[1], k);
      case DeleteBlob(key) => LookupOne(d, steps[0], k);
      case DeleteEdge(ns, f, t, to) =>
        EdgeKeyText(ns, f, t, to);
        LookupTwo(d, steps[0], steps[1], k);
    }
  }

  /** The key that an operation on two keys writes first. */
  function FirstKey(op: MemoryOp, version: nat): Option<Key> {
    match op
    case PutBlob(key, _) => Some(VersionText(key, version))
    case PutEmbedding(c, id, _, _) => Some(VectorText(c, id, "/meta"))
    case CreateEdge(ns, f, t, to, _) => Some(EdgeText(ns, f, t, to))
    case DeleteEdge(ns, f, t, to) => Some(EdgeText(ns, f, t, to))
    case _ => None
  }

  /** An operation cut after the first of its two writes: that key alone is as the operation says. */
  lemma HalfOpEffect(d: Store<Value>, op: MemoryOp, m: string, v: nat, k: Key)
    ensures |OpSteps(op, m, v)| == if FirstKey(op, v).Some? then 2 else 1
    ensures FirstKey(op, v).Some? ==>
      Lookup(Run(d, OpSteps(op, m, v)[..1]), k)
      == if FirstKey(op, v) == Some(k) then Then(Lookup(d, k), SayingOf(op, m, v, k)) else Lookup(d, k)
  {
    var first := OpSteps(op, m, v)[0];
    assert OpSteps(op, m, v)[..1] == [first];
    LookupOne(d, first, k);
    match op {
      case PutEmbedding(c, id, _, _) => VectorKeyText(c, id);
      case CreateEdge(ns, f, t, to, _) => EdgeKeyText(ns, f, t, to);
      case DeleteEdge(ns, f, t, to) => EdgeKeyText(ns, f, t, to);
      case _ =>
    }
  }

  // ---- the bytes ----

  /** The bytes of a stored text. */
  function BytesOf(s: string): (bs: seq<Codecs.Byte>)
    ensures |bs| == |s|
  {
    seq(|s|, i requires 0 <= i < |s| => s[i] as int % 256)
  }

  lemma BytesOfWord(n: nat, w: nat)
    ensures BytesOf(LeBytes(n, w)) == Codecs.ToWord(n, w)
  {
    forall i | 0 <= i < w ensures BytesOf(LeBytes(n, w))[i] == Codecs.ToWord(n, w)[i] {
      assert LeBytes(n, w)[i] == Codecs.ByteAt(n, i) as char;
    }
  }

  /** The last eight bytes of a versioned key hold the version, the least significant one first. */
  lemma VersionIsReadable(key: Key, version: nat)
    requires version < Codecs.Pow256(8)
    ensures VersionedKey(key, version) == VersionText(key, version)
    ensures |VersionText(key, version)| == |key| + 10
    ensures Codecs.FromWord(BytesOf(VersionText(key, version)[|key| + 2..])) == version
  {
    assert VersionText(key, version)[|key| + 2..] == LeBytes(version, 8);
    BytesOfWord(version, 8);
    Codecs.WordRoundTrip(version, 8);
  }

  lemma FourBytes(n: Bits32)
    ensures Codecs.FromWord(BytesOf(LeBytes(n, 4))) == n
  {
    assert Codecs.Pow256(4) == 0x1_0000_0000;
    BytesOfWord(n, 4);
    Codecs.WordRoundTrip(n, 4);
  }

  /** An embedding is read back from its bytes, four at a time. */
  lemma {:induction false} EmbeddingIsReadable(e: seq<Bits32>, i: nat)
    requires i < |e|
    ensures |EmbeddingBytes(e)| == 4 * |e|
    ensures Codecs.FromWord(BytesOf(EmbeddingBytes(e)[4 * i..4 * i + 4])) == e[i]
    decreases |e|
  {
    var bs := EmbeddingBytes(e);
    assert bs[4..] == EmbeddingBytes(e[1..]);
    if |e| > 1 { EmbeddingIsReadable(e[1..], if i > 0 then i - 1 else 0); }
    if i == 0 {
      assert bs[0..4] == LeBytes(e[0], 4);
      FourBytes(e[0]);
    } else {
      assert bs[4 * i..4 * i + 4] == bs[4..][4 * (i - 1)..4 * (i - 1) + 4];
    }
  }

  // ---- lists of operations ----

  /** What the last operation that says anything of the key says of it. */
  function LastSaying(ops: seq<MemoryOp>, m: string, v: nat, k: Key): Saying {
    if ops == [] then Nothing
    else
      var n := |ops| - 1;
      var s := SayingOf(ops[n], m, v, k);
      if s.Nothing? then LastSaying(ops[..n], m, v, k) else s
  }

  /** After a list of operations every key is as the last operation that names it says. */
  lemma {:induction false} OpsEffect(d: Store<Value>, ops: seq<MemoryOp>, m: string, v: nat, k: Key)
    ensures Lookup(Run(d, OpsSteps(ops, m, v)), k) == Then(Lookup(d, k), LastSaying(ops, m, v, k))
    decreases |ops|
  {
    if ops != [] {
      var n := |ops| - 1;
      var before := OpsSteps(ops[..n], m, v);
      OpsEffect(d, ops[..n], m, v, k);
      RunConcat(d, before, OpSteps(ops[n], m, v));
      OpEffect(Run(d, before), ops[n], m, v, k);
    }
  }

  lemma {:induction false} LastSayingIs(ops: seq<MemoryOp>, m: string, v: nat, k: Key, i: nat)
    requires i < |ops| && !SayingOf(ops[i], m, v, k).Nothing?
    requires forall j :: i < j < |ops| ==> SayingOf(ops[j], m, v, k).Nothing?
    ensures LastSaying(ops, m, v, k) == SayingOf(ops[i], m, v, k)
    decreases |ops|
  {
    if i < |ops| - 1 { LastSayingIs(ops[..|ops| - 1], m, v, k, i); }
  }

  // ---- writes ----

  /** A complete write, over any store: every key but that of its record is as the operations say. */
  lemma WriteLeaves(st: Store<Value>, id: nat, m: string, ops: seq<MemoryOp>, now: nat, k: Key)
    requires k != IntentKey(id)
    ensures var intent := NewIntent(id, m, ops, now);
      Lookup(Run(st, WriteSteps(st, intent, |DataSteps(intent)|)), k)
      == Then(Lookup(st, k), LastSaying(ops, m, now, k))
  {
    var intent := NewIntent(id, m, ops, now);
    var first, w := Put(IntentKey(id), IntentRecord(intent)), DataSteps(intent);
    var st1 := Apply(st, first);
    var mark := StatusSteps(Run(st1, w), id, Committed);
    assert Cut(w, |w|) == w;
    assert WriteSteps(st, intent, |w|) == [first] + (w + mark);
    RunConcat(st, [first], w + mark);
    RunOne(st, first);
    RunConcat(st1, w, mark);
    OpsEffect(st1, ops, m, now, k);
    assert !Touches(mark, k);
    RunLeavesOthers(Run(st1, w), mark, k);
  }

  /** And the record itself is committed, with the caller's operations and time. */
  lemma WriteLeavesRecord(st: Store<Value>, id: nat, m: string, ops: seq<MemoryOp>, now: nat)
    requires AllKeepOut(ops)
    ensures var intent := NewIntent(id, m, ops, now);
      Lookup(Run(st, WriteSteps(st, intent, |DataSteps(intent)|)), IntentKey(id))
      == Some(IntentRecord(MemoryIntent(id, m, ops, Committed, now, now)))
  {
    var intent, k := NewIntent(id, m, ops, now), IntentKey(id);
    var first, w, last := Put(k, IntentRecord(intent)), DataSteps(intent), Put(k, Mark(intent, Committed));
    SettleInPlace(Apply(st, first), k, intent, |w|);
    assert Cut(w, |w|) == w;
    assert WriteSteps(st, intent, |w|) == [first] + w + [last];
    RunSnoc(st, [first] + w, last);
  }

  // ---- runs ----

  /** The write counts in full: its record was stored, and it did not run to its end with a write refused. */
  predicate Counts(call: Call) {
    call.Write? && call.done > 0 && (call.done == call.reached + 2 ==> call.reached == |Writes(call)|)
  }

  /** After a write that counts, complete or cut anywhere, a recovery leaves every key as its operations
      say: a key whose last naming operation deletes it is gone. */
  lemma WriteTakesEffect(c: Client, call: Call, newest: Option<(Key, Value)>, k: Key)
    requires ClientOk(c, newest) && MayCall(c, call) && Counts(call)
    ensures Lookup(DataOf(AfterRecovery(Called(c, call).store)), k)
         == Then(Lookup(DataOf(AfterRecovery(c.store)), k), LastSaying(call.ops, call.memoryId, call.now, k))
  {
    OneCall(c, call, newest);
    assert call.reached == |Writes(call)| ==> Writes(call)[..call.reached] == Writes(call);
    OpsEffect(DataOf(AfterRecovery(c.store)), call.ops, call.memoryId, call.now, k);
  }

  /** A blob whose last naming operation deletes it is gone after the write, and after a recovery if the
      write was cut; a blob whose last naming operation puts it holds that value. */
  lemma BlobsAsLastSaid(c: Client, call: Call, newest: Option<(Key, Value)>, i: nat)
    requires ClientOk(c, newest) && MayCall(c, call) && Counts(call)
    requires i < |call.ops| && (call.ops[i].DeleteBlob? || call.ops[i].PutBlob?)
    requires forall j :: i < j < |call.ops| ==>
      SayingOf(call.ops[j], call.memoryId, call.now, call.ops[i].key).Nothing?
    ensures var op := call.ops[i];
      Lookup(DataOf(AfterRecovery(Called(c, call).store)), op.key)
      == if op.DeleteBlob? then None else Some(Raw(op.value))
  {
    LastSayingIs(call.ops, call.memoryId, call.now, call.ops[i].key, i);
    WriteTakesEffect(c, call, newest, call.ops[i].key);
  }

  /** Every write that stored its record counts, and no recovery runs to its end with a write refused. */
  predicate NoneRefused(c: Client, calls: seq<Call>)
    requires PossibleCalls(c, calls)
    decreases |calls|
  {
    calls == []
    || (&& (calls[0].Write? && calls[0].done > 0 ==> Counts(calls[0]))
        && (calls[0].Recover? && calls[0].done == |CallSteps(c, calls[0])| ==>
              calls[0].reached >= |OpenWrites(Scanned(c.store))|)
        && NoneRefused(Called(c, calls[0]), calls[1..]))
  }

  /** What the last write of the run that says anything of the key says of it. */
  function RunSaying(calls: seq<Call>, k: Key): Saying {
    if calls == [] then Nothing
    else
      var rest, call := RunSaying(calls[1..], k), calls[0];
      if !rest.Nothing? then rest
      else if call.Write? && call.done > 0 then LastSaying(call.ops, call.memoryId, call.now, k)
      else Nothing
  }

  lemma {:induction false} IntendedEffect(d: Store<Value>, c: Client, calls: seq<Call>, k: Key)
    requires PossibleCalls(c, calls) && NoneRefused(c, calls)
    ensures Lookup(Intended(d, c, calls), k) == Then(Lookup(d, k), RunSaying(calls, k))
    decreases |calls|
  {
    if calls != [] {
      var call := calls[0];
      IntendedEffect(CallEffect(d, c, call), Called(c, call), calls[1..], k);
      if call.Write? && call.done > 0 {
        assert call.reached == |Writes(call)| ==> Writes(call)[..call.reached] == Writes(call);
        OpsEffect(d, call.ops, call.memoryId, call.now, k);
      }
    }
  }

  /** Over every run of writes, recoveries, cleanups and reopenings, each cut anywhere: after a recovery
      every key is as the last operation that names it says, among the writes whose record was stored. */
  lemma EveryRunLeaves(c: Client, calls: seq<Call>, newest: Option<(Key, Value)>, k: Key)
    requires ClientOk(c, newest) && PossibleCalls(c, calls) && NoneRefused(c, calls)
    ensures Lookup(DataOf(AfterRecovery(Final(c, calls).store)), k)
         == Then(Lookup(DataOf(AfterRecovery(c.store)), k), RunSaying(calls, k))
  {
    CrashAtomicity(c, calls, newest);
    IntendedEffect(DataOf(AfterRecovery(c.store)), c, calls, k);
  }
}
