/** The intent-log writer: an intent record is stored, its operations are applied one put or
    delete at a time, then the record is marked. Every method is tied to the exact list of
    store steps it performs, so a crash is a cut of that list. */
module AtomicMemory {
  import opened Keys
  import opened Storage
  import opened Sweeps
  import Codecs

  /** JSON text of a property value; JSON is taken as a lossless encoding of records. */
  type Json = string

  /** The bit pattern of an f32. */
  type Bits32 = n: nat | n < 0x1_0000_0000

  datatype MemoryOp =
    | PutBlob(key: Key, value: string)
    | PutEmbedding(collection: string, id: string, embedding: seq<Bits32>, metadata: map<string, string>)
    | CreateNode(ns: string, nodeId: string, nodeType: string, properties: map<string, Json>)
    | CreateEdge(ns: string, fromId: string, edgeType: string, toId: string, properties: map<string, Json>)
    | DeleteBlob(key: Key)
    | DeleteEdge(ns: string, fromId: string, edgeType: string, toId: string)

  datatype IntentStatus = Pending | Applied | Committed | Aborted

  datatype MemoryIntent = MemoryIntent(
    intentId: nat, memoryId: string, ops: seq<MemoryOp>,
    status: IntentStatus, createdAt: nat, version: nat)

  /** What a key can hold: raw bytes, or the JSON text of one of the record types. */
  datatype Value =
    | Raw(bytes: string)
    | IntentRecord(intent: MemoryIntent)
    | EmbeddingMeta(memoryId: string, version: nat, dimensions: nat, metadata: map<string, string>)
    | NodeRecord(id: string, nodeType: string, properties: map<string, Json>, memoryId: string, version: nat)
    | EdgeRecord(fromId: string, edgeType: string, toId: string, properties: map<string, Json>,
                 memoryId: string, version: nat)

  datatype AtomicWriteResult = AtomicWriteResult(
    intentId: nat, memoryId: string, opsApplied: nat, status: IntentStatus)

  datatype RecoveryReport = RecoveryReport(
    replayed: nat, failed: nat, alreadyCommitted: nat, alreadyAborted: nat, corrupted: nat)

  function NewIntent(id: nat, memoryId: string, ops: seq<MemoryOp>, now: nat): MemoryIntent {
    MemoryIntent(id, memoryId, ops, Pending, now, now)
  }

  // ---- keys ----

  const INTENT_PREFIX: Key := "_intents/"
  const GRAPH_PREFIX: Key := "_graph/"

  function IntentKey(id: nat): Key {
    INTENT_PREFIX + Decimal(id)
  }

  /** The low w bytes of n, least significant first. */
  function LeBytes(n: nat, w: nat): string {
    seq(w, i requires 0 <= i < w => Codecs.ByteAt(n, i) as char)
  }

  function VersionedKey(key: Key, version: nat): Key {
    key + "@v" + LeBytes(version, 8)
  }

  function VectorKey(collection: string, id: string, part: string): Key {
    "_vectors/" + collection + "/" + id + "/" + part
  }

  function NodeKey(ns: string, nodeId: string): Key {
    GRAPH_PREFIX + (ns + "/" + ("nodes" + "/" + nodeId))
  }

  function EdgeKey(ns: string, fromId: string, edgeType: string, toId: string): Key {
    GRAPH_PREFIX + (ns + "/" + ("edges" + "/" + (fromId + "/" + (edgeType + "/" + toId))))
  }

  /** The reverse index entry of an edge. */
  function IndexKey(ns: string, fromId: string, edgeType: string, toId: string): Key {
    GRAPH_PREFIX + (ns + "/" + ("index" + "/" + (edgeType + "/" + (toId + "/" + fromId))))
  }

  function EmbeddingBytes(embedding: seq<Bits32>): string {
    if embedding == [] then "" else LeBytes(embedding[0], 4) + EmbeddingBytes(embedding[1..])
  }

  // ---- the steps of each phase ----

  function OpSteps(op: MemoryOp, memoryId: string, version: nat): seq<Step<Value>> {
    match op
    case PutBlob(key, value) =>
      [Put(VersionedKey(key, version), Raw(value)), Put(key, Raw(value))]
    case PutEmbedding(c, id, e, metadata) =>
      [Put(VectorKey(c, id, "meta"), EmbeddingMeta(memoryId, version, |e|, metadata)),
       Put(VectorKey(c, id, "data"), Raw(EmbeddingBytes(e)))]
    case CreateNode(ns, id, t, p) =>
      [Put(NodeKey(ns, id), NodeRecord(id, t, p, memoryId, version))]
    case CreateEdge(ns, f, t, to, p) =>
      [Put(EdgeKey(ns, f, t, to), EdgeRecord(f, t, to, p, memoryId, version)),
       Put(IndexKey(ns, f, t, to), Raw(f))]
    case DeleteBlob(key) =>
      [Delete(key)]
    case DeleteEdge(ns, f, t, to) =>
      [Delete(EdgeKey(ns, f, t, to)), Delete(IndexKey(ns, f, t, to))]
  }

  function OpsSteps(ops: seq<MemoryOp>, memoryId: string, version: nat): seq<Step<Value>> {
    if ops == [] then []
    else OpsSteps(ops[..|ops| - 1], memoryId, version) + OpSteps(ops[|ops| - 1], memoryId, version)
  }

  /** All data writes of an intent, in order. */
  function DataSteps(intent: MemoryIntent): seq<Step<Value>> {
    OpsSteps(intent.ops, intent.memoryId, intent.version)
  }

  /** The data writes of the first i operations of an intent. */
  function FirstOps(intent: MemoryIntent, i: nat): seq<Step<Value>>
    requires i <= |intent.ops|
  {
    OpsSteps(intent.ops[..i], intent.memoryId, intent.version)
  }

  function Mark(intent: MemoryIntent, status: IntentStatus): Value {
    IntentRecord(intent.(status := status))
  }

  /** A status update reads the record under the id and rewrites it. With no readable record
      it writes nothing. */
  function StatusSteps(st: Store<Value>, id: nat, status: IntentStatus): seq<Step<Value>> {
    var k := IntentKey(id);
    if k in st && st[k].IntentRecord? then [Put(k, Mark(st[k].intent, status))] else []
  }

  /** The key of the record holds something else; a status update reports that as an error. */
  predicate Unreadable(st: Store<Value>, id: nat) {
    IntentKey(id) in st && !st[IntentKey(id)].IntentRecord?
  }

  /** What a failed status update reports: a refusal, or an unreadable record. */
  predicate MarkError(e: ClientError, refused: bool, st: Store<Value>, id: nat) {
    (e == StorageError && refused) || (e == Serialization && Unreadable(st, id))
  }

  function StatusAfter(intent: MemoryIntent, reached: nat): IntentStatus {
    if reached >= |DataSteps(intent)| then Committed else Aborted
  }

  predicate Unfinished(v: Value) {
    v.IntentRecord? && (v.intent.status.Pending? || v.intent.status.Applied?)
  }

  /** Applying an intent's operations and marking its record. */
  function SettleSteps(st: Store<Value>, intent: MemoryIntent, reached: nat): seq<Step<Value>> {
    var head := Cut(DataSteps(intent), reached);
    head + StatusSteps(Run(st, head), intent.intentId, StatusAfter(intent, reached))
  }

  /** The steps of write_atomic when storage accepts the first `reached` data writes. */
  function WriteSteps(st: Store<Value>, intent: MemoryIntent, reached: nat): seq<Step<Value>> {
    var first := Put(IntentKey(intent.intentId), IntentRecord(intent));
    [first] + SettleSteps(Apply(st, first), intent, reached)
  }

  /** Recovery's treatment of one scanned record in the current store. */
  function ReplaySteps(st: Store<Value>, v: Value, reached: nat): seq<Step<Value>> {
    if Unfinished(v) then SettleSteps(st, v.intent, reached) else []
  }

  /** The data writes of a record. */
  function WritesOf(v: Value): seq<Step<Value>> {
    if v.IntentRecord? then DataSteps(v.intent) else []
  }

  /** Every data write of every scanned record is accepted. */
  function FullReach(scanned: seq<(Key, Value)>): (r: seq<nat>)
    ensures |r| == |scanned|
    ensures forall i :: 0 <= i < |r| ==> r[i] == |WritesOf(scanned[i].1)|
  {
    seq(|scanned|, i requires 0 <= i < |scanned| => |WritesOf(scanned[i].1)|)
  }

  /** The error of a recovery: storage refused a request, or some unfinished record names an id
      whose key holds no readable record. */
  predicate RecoverError(e: ClientError, refused: bool, st: Store<Value>, scanned: seq<(Key, Value)>) {
    || (e == StorageError && refused)
    || (e == Serialization
        && exists i :: 0 <= i < |scanned| && Unfinished(scanned[i].1) && Unreadable(st, scanned[i].1.intent.intentId))
  }

  /** The steps of a replay of the scanned records, in scan order. */
  function ReplayFrom(st: Store<Value>, scanned: seq<(Key, Value)>, reached: seq<nat>): seq<Step<Value>>
    requires |reached| == |scanned|
  {
    Sweep(ReplaySteps, st, scanned, reached)
  }

  function Tally(r: RecoveryReport, v: Value, reached: nat): RecoveryReport {
    if !v.IntentRecord? then r.(corrupted := r.corrupted + 1)
    else match v.intent.status
      case Committed => r.(alreadyCommitted := r.alreadyCommitted + 1)
      case Aborted => r.(alreadyAborted := r.alreadyAborted + 1)
      case _ =>
        if StatusAfter(v.intent, reached).Committed?
        then r.(replayed := r.replayed + 1) else r.(failed := r.failed + 1)
  }

  function Report(scanned: seq<(Key, Value)>, reached: seq<nat>): RecoveryReport
    requires |reached| == |scanned|
  {
    if scanned == [] then RecoveryReport(0, 0, 0, 0, 0)
    else
      var n := |scanned| - 1;
      Tally(Report(scanned[..n], reached[..n]), scanned[n].1, reached[n])
  }

  /** The entries under the intent prefix, in scan order. */
  function Scanned(st: Store<Value>): seq<(Key, Value)> {
    ScanResult(st, INTENT_PREFIX)
  }

  predicate Expired(v: Value, cutoff: nat) {
    v.IntentRecord? && v.intent.createdAt < cutoff && (v.intent.status.Committed? || v.intent.status.Aborted?)
  }

  /** Cleanup deletes, in scan order, the finished records older than the cutoff. */
  function CleanupSteps(scanned: seq<(Key, Value)>, cutoff: nat): seq<Step<Value>> {
    if scanned == [] then []
    else
      var n := |scanned| - 1;
      CleanupSteps(scanned[..n], cutoff) + ExpirySteps(scanned[n], cutoff)
  }

  function ExpirySteps(entry: (Key, Value), cutoff: nat): seq<Step<Value>> {
    if Expired(entry.1, cutoff) then [Delete(entry.0)] else []
  }

  /** The age limit in seconds, subtracted from the clock in milliseconds, saturating at 0. */
  function CutoffOf(now: nat, maxAgeSecs: nat): nat {
    if now >= maxAgeSecs * 1000 then now - maxAgeSecs * 1000 else 0
  }

  lemma OpsStepsGrow(ops: seq<MemoryOp>, i: nat, memoryId: string, version: nat)
    requires i < |ops|
    ensures OpsSteps(ops[..i + 1], memoryId, version)
         == OpsSteps(ops[..i], memoryId, version) + OpSteps(ops[i], memoryId, version)
  {
    assert ops[..i + 1][..i] == ops[..i];
  }

  /** Steps of a prefix of the operations are a prefix of the steps. */
  lemma {:induction false} OpsStepsPrefix(ops: seq<MemoryOp>, i: nat, memoryId: string, version: nat)
    requires i <= |ops|
    ensures OpsSteps(ops[..i], memoryId, version) <= OpsSteps(ops, memoryId, version)
    decreases |ops| - i
  {
    if i == |ops| {
      assert ops[..i] == ops;
    } else {
      OpsStepsGrow(ops, i, memoryId, version);
      OpsStepsPrefix(ops, i + 1, memoryId, version);
    }
  }

  lemma CutInside<T>(a: seq<T>, b: seq<T>, whole: seq<T>, k: nat)
    requires a + b <= whole && k <= |b|
    ensures |a| + |b| <= |whole| && whole[..|a| + k] == a + b[..k] && b[..|b|] == b
  {
    assert whole[..|a| + k] == (a + b)[..|a| + k];
  }

  /** Where the data steps stand after `i` operations and k writes of the next one. */
  lemma OpsStepsCut(intent: MemoryIntent, i: nat, k: nat)
    requires i < |intent.ops| && k <= |OpSteps(intent.ops[i], intent.memoryId, intent.version)|
    ensures var done, more := FirstOps(intent, i), OpSteps(intent.ops[i], intent.memoryId, intent.version);
      && |done| + |more| <= |DataSteps(intent)|
      && DataSteps(intent)[..|done| + k] == done + more[..k]
      && (k == |more| ==> FirstOps(intent, i + 1) == done + more[..k])
  {
    var done, more := FirstOps(intent, i), OpSteps(intent.ops[i], intent.memoryId, intent.version);
    OpsStepsGrow(intent.ops, i, intent.memoryId, intent.version);
    OpsStepsPrefix(intent.ops, i + 1, intent.memoryId, intent.version);
    CutInside(done, more, DataSteps(intent), k);
  }

  lemma OpPerformed(c: Connection<Value>, t: seq<Step<Value>>, st: Store<Value>,
                    t1: seq<Step<Value>>, st1: Store<Value>, intent: MemoryIntent, i: nat, k: nat)
    requires i < |intent.ops| && k <= |OpSteps(intent.ops[i], intent.memoryId, intent.version)|
    requires t1 == t + FirstOps(intent, i) && st1 == Run(st, FirstOps(intent, i))
    requires c.Performed(t1, st1, OpSteps(intent.ops[i], intent.memoryId, intent.version)[..k])
    ensures var n, more := |FirstOps(intent, i)| + k, |OpSteps(intent.ops[i], intent.memoryId, intent.version)|;
      && (k == more ==> c.Performed(t, st, FirstOps(intent, i + 1)))
      && (k < more ==> n < |DataSteps(intent)| && c.Performed(t, st, DataSteps(intent)[..n]))
  {
    OpsStepsCut(intent, i, k);
    PerformedThen(c, t, st, FirstOps(intent, i), t1, st1, OpSteps(intent.ops[i], intent.memoryId, intent.version)[..k]);
  }

  lemma ReportSnoc(es: seq<(Key, Value)>, e: (Key, Value), reached: seq<nat>, n: nat)
    requires |reached| == |es|
    ensures Report(es + [e], reached + [n]) == Tally(Report(es, reached), e.1, n)
  {
    assert (es + [e])[..|es|] == es && (reached + [n])[..|es|] == reached;
  }

  function FilledUp(reached: seq<nat>, scanned: seq<(Key, Value)>): (r: seq<nat>)
    requires |reached| <= |scanned|
    ensures |r| == |scanned| && r[..|reached|] == reached
  {
    reached + seq(|scanned| - |reached|, j => 0)
  }

  /** What recovery does of record i, whole or cut, continues the replay of those before it. */
  lemma NextRecord(st: Store<Value>, scanned: seq<(Key, Value)>, reached: seq<nat>, i: nat, n: nat,
                   part: seq<Step<Value>>)
    requires i < |scanned| && |reached| == i
    requires part <= ReplaySteps(Run(st, ReplayFrom(st, scanned[..i], reached)), scanned[i].1, n)
    ensures var before, steps := ReplayFrom(st, scanned[..i], reached), ReplayFrom(st, scanned[..i + 1], reached + [n]);
      && before + part <= steps
      && (part == ReplaySteps(Run(st, before), scanned[i].1, n) ==> before + part == steps)
    ensures Report(scanned[..i + 1], reached + [n]) == Tally(Report(scanned[..i], reached), scanned[i].1, n)
    ensures FullReach(scanned[..i + 1]) == FullReach(scanned[..i]) + [|WritesOf(scanned[i].1)|]
  {
    assert scanned[..i + 1] == scanned[..i] + [scanned[i]];
    SweepPart(ReplaySteps, st, scanned[..i], scanned[i], reached, n, part);
    ReportSnoc(scanned[..i], scanned[i], reached, n);
    FullReachSnoc(scanned[..i], scanned[i]);
  }

  lemma StoppedReplay(st: Store<Value>, scanned: seq<(Key, Value)>, reached: seq<nat>, i: nat, sofar: seq<Step<Value>>)
    requires |reached| == |scanned| && i <= |scanned| && sofar <= ReplayFrom(st, scanned[..i], reached[..i])
    ensures |sofar| <= |ReplayFrom(st, scanned, reached)| && ReplayFrom(st, scanned, reached)[..|sofar|] == sofar
  {
    SweepPrefix(ReplaySteps, st, scanned, reached, i);
  }

  lemma FullReachSnoc(es: seq<(Key, Value)>, e: (Key, Value))
    ensures FullReach(es + [e]) == FullReach(es) + [|WritesOf(e.1)|]
  {
  }

  lemma {:induction false} CleanupStepsPrefix(scanned: seq<(Key, Value)>, i: nat, cutoff: nat)
    requires i <= |scanned|
    ensures i < |scanned| ==>
      CleanupSteps(scanned[..i + 1], cutoff) == CleanupSteps(scanned[..i], cutoff) + ExpirySteps(scanned[i], cutoff)
    ensures i < |scanned| && !Expired(scanned[i].1, cutoff) ==>
      CleanupSteps(scanned[..i + 1], cutoff) == CleanupSteps(scanned[..i], cutoff)
    ensures CleanupSteps(scanned[..i], cutoff) <= CleanupSteps(scanned, cutoff)
    decreases |scanned| - i
  {
    if i == |scanned| {
      assert scanned[..i] == scanned;
    } else {
      assert scanned[..i + 1][..i] == scanned[..i];
      CleanupStepsPrefix(scanned, i + 1, cutoff);
    }
  }

  /** The next entry, when it has expired, is the next one deleted. */
  lemma NextExpiry(scanned: seq<(Key, Value)>, i: nat, cutoff: nat)
    requires i < |scanned|
    ensures var all, n := CleanupSteps(scanned, cutoff), |CleanupSteps(scanned[..i], cutoff)|;
      if Expired(scanned[i].1, cutoff) then
        && n < |all| && all[n] == Delete(scanned[i].0) && all[..n + 1] == all[..n] + [all[n]]
        && |CleanupSteps(scanned[..i + 1], cutoff)| == n + 1
      else |CleanupSteps(scanned[..i + 1], cutoff)| == n
  {
    CleanupStepsPrefix(scanned, i, cutoff);
    CleanupStepsPrefix(scanned, i + 1, cutoff);
  }

  /** A finished record older than the age limit. */
  predicate Stale(v: Value, now: nat, maxAgeSecs: nat) {
    && v.IntentRecord? && (v.intent.status == Committed || v.intent.status == Aborted)
    && v.intent.createdAt + 1000 * maxAgeSecs < now
  }

  function StaleKeys(st: Store<Value>, now: nat, maxAgeSecs: nat): set<Key> {
    set k | k in st && INTENT_PREFIX <= k && Stale(st[k], now, maxAgeSecs)
  }

  lemma StaleIffExpired(v: Value, now: nat, maxAgeSecs: nat)
    ensures Stale(v, now, maxAgeSecs) <==> Expired(v, CutoffOf(now, maxAgeSecs))
  {
  }

  function ExpiredIn(st: Store<Value>, keys: seq<Key>, cutoff: nat): set<Key> {
    set k | k in keys && k in st && Expired(st[k], cutoff)
  }

  lemma ExpiredInSnoc(st: Store<Value>, keys: seq<Key>, k: Key, cutoff: nat)
    requires k in st
    ensures ExpiredIn(st, keys + [k], cutoff)
         == ExpiredIn(st, keys, cutoff) + if Expired(st[k], cutoff) then {k} else {}
  {
    assert forall q :: q in keys + [k] <==> q in keys || q == k;
  }

  lemma {:induction false} CleanupDeletes(st: Store<Value>, keys: seq<Key>, cutoff: nat)
    requires StrictlyAscending(keys) && forall k :: k in keys ==> k in st
    ensures DeletesJust(CleanupSteps(Entries(st, keys), cutoff), ExpiredIn(st, keys, cutoff))
    decreases |keys|
  {
    if keys != [] {
      var init, last := keys[..|keys| - 1], keys[|keys| - 1];
      EntriesInit(st, keys);
      CleanupDeletes(st, init, cutoff);
      AscendingIsDistinct(keys);
      assert keys == init + [last];
      ExpiredInSnoc(st, init, last, cutoff);
      DeleteOneMore(CleanupSteps(Entries(st, init), cutoff), ExpiredIn(st, init, cutoff), last,
                    Expired(st[last], cutoff));
    }
  }

  /** A cleanup deletes exactly the stale records; cut anywhere it deletes some of them. */
  lemma CleanupIsExact(st: Store<Value>, now: nat, maxAgeSecs: nat, done: nat)
    requires done <= |CleanupSteps(Scanned(st), CutoffOf(now, maxAgeSecs))|
    ensures var steps, stale := CleanupSteps(Scanned(st), CutoffOf(now, maxAgeSecs)), StaleKeys(st, now, maxAgeSecs);
      && (done == |steps| ==> Run(st, steps[..done]) == st - stale && done == |stale|)
      && (forall k :: k !in stale ==> SameAt(Run(st, steps[..done]), st, k))
  {
    var steps, stale := CleanupSteps(Scanned(st), CutoffOf(now, maxAgeSecs)), StaleKeys(st, now, maxAgeSecs);
    var keys, cutoff := ScanKeys(st, INTENT_PREFIX), CutoffOf(now, maxAgeSecs);
    CleanupDeletes(st, keys, cutoff);
    forall k | k in st ensures Stale(st[k], now, maxAgeSecs) <==> Expired(st[k], cutoff) {
      StaleIffExpired(st[k], now, maxAgeSecs);
    }
    assert stale == ExpiredIn(st, keys, cutoff);
    DeletesPart(st, steps, stale, done);
  }

  class AtomicMemoryWriter {
    const conn: Connection<Value>
    var nextIntentId: nat

    /** Every writer numbers its intents from 1. */
    constructor (conn: Connection<Value>)
      ensures this.conn == conn && nextIntentId == 1
    {
      this.conn, nextIntentId := conn, 1;
    }

    /** Applies operation i of an intent after the ones before it; n counts the data writes that
        storage has accepted since t and st. */
    method ApplyOp(intent: MemoryIntent, i: nat, ghost t: seq<Step<Value>>, ghost st: Store<Value>)
      returns (ok: bool, ghost n: nat)
      requires i < |intent.ops| && conn.Performed(t, st, FirstOps(intent, i))
      modifies conn
      ensures conn.faults >= old(conn.faults) && (ok <==> conn.faults == old(conn.faults))
      ensures ok ==> conn.Performed(t, st, FirstOps(intent, i + 1))
      ensures !ok ==> n < |DataSteps(intent)| && conn.Performed(t, st, DataSteps(intent)[..n])
    {
      ghost var t1, st1, k := conn.trace, conn.store, 0;
      ok, k := conn.DoAll(OpSteps(intent.ops[i], intent.memoryId, intent.version));
      OpPerformed(conn, t, st, t1, st1, intent, i, k);
      n := |FirstOps(intent, i)| + k;
    }

    /** Applies the operations in order up to the first refused write. */
    method ApplyOps(intent: MemoryIntent) returns (r: Result<nat>, ghost n: nat)
      modifies conn
      ensures n <= |DataSteps(intent)|
      ensures conn.Performed(old(conn.trace), old(conn.store), DataSteps(intent)[..n])
      ensures r == if n == |DataSteps(intent)| then Ok(|intent.ops|) else Err(StorageError)
      ensures conn.faults >= old(conn.faults) && (r.Ok? <==> conn.faults == old(conn.faults))
    {
      var applied := 0;
      while applied < |intent.ops|
        invariant 0 <= applied <= |intent.ops| && conn.faults == old(conn.faults)
        invariant conn.Performed(old(conn.trace), old(conn.store), FirstOps(intent, applied))
      {
        var ok;
        ok, n := ApplyOp(intent, applied, old(conn.trace), old(conn.store));
        if !ok {
          return Err(StorageError), n;
        }
        applied := applied + 1;
      }
      assert intent.ops[..applied] == intent.ops;
      r, n := Ok(applied), |DataSteps(intent)|;
      assert DataSteps(intent)[..n] == FirstOps(intent, applied);
    }

    method UpdateIntentStatus(id: nat, status: IntentStatus) returns (r: Result<()>)
      modifies conn
      ensures conn.Performed(old(conn.trace), old(conn.store),
                             if r.Ok? then StatusSteps(old(conn.store), id, status) else [])
      ensures conn.faults >= old(conn.faults)
      ensures r == if conn.faults > old(conn.faults) then Err(StorageError)
                   else if Unreadable(old(conn.store), id) then Err(Serialization) else Ok(())
    {
      var key := IntentKey(id);
      var found := conn.Get(key);
      match found {
        case Err(e) => r := Err(StorageError);
        case Ok(None) => r := Ok(());
        case Ok(Some(v)) =>
          if v.IntentRecord? {
            var ok := conn.Do(Put(key, Mark(v.intent, status)));
            r := if ok then Ok(()) else Err(StorageError);
          } else {
            r := Err(Serialization);
          }
      }
    }

    /** Applies an intent and marks it: committed if every write was accepted, aborted
        otherwise. When the marking fails only the n data writes have happened. */
    method Settle(intent: MemoryIntent) returns (mark: Result<()>, applied: Result<nat>, ghost n: nat)
      modifies conn
      ensures n <= |DataSteps(intent)|
      ensures applied == if n == |DataSteps(intent)| then Ok(|intent.ops|) else Err(StorageError)
      ensures conn.Performed(old(conn.trace), old(conn.store),
        if mark.Ok? then SettleSteps(old(conn.store), intent, n) else DataSteps(intent)[..n])
      ensures conn.faults >= old(conn.faults) && (n < |DataSteps(intent)| ==> conn.faults > old(conn.faults))
      ensures mark.Ok? && n == |DataSteps(intent)| ==> conn.faults == old(conn.faults)
      ensures mark.Err? ==> MarkError(mark.error, conn.faults > old(conn.faults), conn.store, intent.intentId)
      ensures mark.Err? && n == |DataSteps(intent)| && conn.faults > old(conn.faults) ==> mark.error == StorageError
    {
      ghost var t0, st0 := conn.trace, conn.store;
      applied, n := ApplyOps(intent);
      ghost var head := DataSteps(intent)[..n];
      ghost var t1, st1 := conn.trace, conn.store;
      if applied.Ok? {
        mark := UpdateIntentStatus(intent.intentId, Committed);
      } else {
        mark := UpdateIntentStatus(intent.intentId, Aborted);
      }
      if mark.Ok? {
        PerformedThen(conn, t0, st0, head, t1, st1, StatusSteps(st1, intent.intentId, StatusAfter(intent, n)));
      } else {
        PerformedThen(conn, t0, st0, head, t1, st1, []);
      }
    }

    /** One atomic write. `reached` data writes were accepted, and `done` of the steps of the
        call were performed; an error return is a cut of those steps, as a crash is. */
    method WriteAtomic(memoryId: string, ops: seq<MemoryOp>, now: nat)
      returns (r: Result<AtomicWriteResult>, ghost reached: nat, ghost done: nat)
      modifies this, conn
      ensures nextIntentId == old(nextIntentId) + 1
      ensures var intent := NewIntent(old(nextIntentId), memoryId, ops, now);
        var steps := WriteSteps(old(conn.store), intent, reached);
        && reached <= |DataSteps(intent)|
        && done <= |steps|
        && conn.Performed(old(conn.trace), old(conn.store), steps[..done])
        && (r.Ok? ==> done == |steps| && reached == |DataSteps(intent)|
                      && r.value == AtomicWriteResult(intent.intentId, memoryId, |ops|, Committed))
        && (r.Err? ==> r.error == if conn.faults > old(conn.faults) then StorageError else Serialization)
        && (r.Err? && conn.faults == old(conn.faults) ==> Unreadable(conn.store, intent.intentId))
        && (r.Err? ==> done == 0 || reached < |DataSteps(intent)| || done == 1 + reached)
      ensures conn.faults >= old(conn.faults) && (r.Ok? ==> conn.faults == old(conn.faults))
    {
      ghost var t0, st0 := conn.trace, conn.store;
      var id := nextIntentId;
      nextIntentId := nextIntentId + 1;
      var intent := NewIntent(id, memoryId, ops, now);
      var first := Put(IntentKey(id), IntentRecord(intent));
      reached, done := 0, 0;
      var ok := conn.Do(first);
      if !ok { return Err(StorageError), reached, done; }
      ghost var t1, st1 := conn.trace, conn.store;
      RunSnoc(st0, [], first);
      assert [] + [first] == [first];
      var mark, applied;
      mark, applied, reached := Settle(intent);
      ghost var rest := if mark.Ok? then SettleSteps(st1, intent, reached) else DataSteps(intent)[..reached];
      PerformedThen(conn, t0, st0, [first], t1, st1, rest);
      done := |[first] + rest|;
      assert WriteSteps(st0, intent, reached)[..done] == [first] + rest;
      r := match applied
        case Err(e) => Err(e)
        case Ok(count) =>
          (match mark
           case Ok(_) => Ok(AtomicWriteResult(id, memoryId, count, Committed))
           case Err(e) => Err(e));
    }

    /** Recovery's work on one scanned record. It stops short only when a status cannot be written. */
    method ReplayRecord(v: Value, report: RecoveryReport)
      returns (r: Result<RecoveryReport>, ghost n: nat, ghost part: seq<Step<Value>>)
      modifies conn
      ensures r.Ok? ==> r.value == Tally(report, v, n)
      ensures conn.Performed(old(conn.trace), old(conn.store), part)
      ensures part <= ReplaySteps(old(conn.store), v, n) && (r.Ok? ==> part == ReplaySteps(old(conn.store), v, n))
      ensures conn.faults >= old(conn.faults) && (r.Ok? && conn.faults == old(conn.faults) ==> n == |WritesOf(v)|)
      ensures r.Err? ==> Unfinished(v)
      ensures r.Err? ==> MarkError(r.error, conn.faults > old(conn.faults), conn.store, v.intent.intentId)
    {
      n, part := |WritesOf(v)|, [];
      if !v.IntentRecord? {
        r := Ok(report.(corrupted := report.corrupted + 1));
      } else if v.intent.status.Committed? {
        r := Ok(report.(alreadyCommitted := report.alreadyCommitted + 1));
      } else if v.intent.status.Aborted? {
        r := Ok(report.(alreadyAborted := report.alreadyAborted + 1));
      } else {
        var mark, applied;
        mark, applied, n := Settle(v.intent);
        part := if mark.Ok? then SettleSteps(old(conn.store), v.intent, n) else DataSteps(v.intent)[..n];
        if mark.Err? {
          r := Err(mark.error);
        } else if applied.Ok? {
          r := Ok(report.(replayed := report.replayed + 1));
        } else {
          r := Ok(report.(failed := report.failed + 1));
        }
      }
    }

    /** The loop of recover over the scanned records. */
    method ReplayAll(scanned: seq<(Key, Value)>)
      returns (r: Result<RecoveryReport>, ghost reached: seq<nat>, ghost done: nat)
      modifies conn
      ensures |reached| == |scanned|
      ensures done <= |ReplayFrom(old(conn.store), scanned, reached)|
      ensures conn.Performed(old(conn.trace), old(conn.store),
                             ReplayFrom(old(conn.store), scanned, reached)[..done])
      ensures r.Ok? ==> done == |ReplayFrom(old(conn.store), scanned, reached)|
      ensures r.Ok? ==> r.value == Report(scanned, reached)
      ensures conn.faults >= old(conn.faults)
      ensures r.Ok? && conn.faults == old(conn.faults) ==> reached == FullReach(scanned)
      ensures r.Err? ==> RecoverError(r.error, conn.faults > old(conn.faults), conn.store, scanned)
    {
      ghost var t0, st0 := conn.trace, conn.store;
      ghost var sofar: seq<Step<Value>> := [];
      reached, done := [], 0;
      var report := RecoveryReport(0, 0, 0, 0, 0);
      var i := 0;
      while i < |scanned|
        invariant 0 <= i <= |scanned| && |reached| == i
        invariant sofar == ReplayFrom(st0, scanned[..i], reached) && conn.Performed(t0, st0, sofar)
        invariant report == Report(scanned[..i], reached) && conn.faults >= old(conn.faults)
        invariant conn.faults == old(conn.faults) ==> reached == FullReach(scanned[..i])
      {
        ghost var t1, st1, n, part := conn.trace, conn.store, 0, [];
        r, n, part := ReplayRecord(scanned[i].1, report);
        PerformedThen(conn, t0, st0, sofar, t1, st1, part);
        NextRecord(st0, scanned, reached, i, n, part);
        sofar, reached := sofar + part, reached + [n];
        if r.Err? {
          reached, done := FilledUp(reached, scanned), |sofar|;
          StoppedReplay(st0, scanned, reached, i + 1, sofar);
          return;
        }
        report := r.value;
        i := i + 1;
      }
      assert scanned[..i] == scanned;
      r, done := Ok(report), |sofar|;
      assert sofar[..done] == sofar;
    }

    /** Replays unfinished intents. An error return leaves a cut of the steps. */
    method Recover() returns (r: Result<RecoveryReport>, ghost reached: seq<nat>, ghost done: nat)
      modifies conn
      ensures |reached| == |Scanned(old(conn.store))|
      ensures done <= |ReplayFrom(old(conn.store), Scanned(old(conn.store)), reached)|
      ensures conn.Performed(old(conn.trace), old(conn.store),
                             ReplayFrom(old(conn.store), Scanned(old(conn.store)), reached)[..done])
      ensures r.Ok? ==> done == |ReplayFrom(old(conn.store), Scanned(old(conn.store)), reached)|
      ensures r.Ok? ==> r.value == Report(Scanned(old(conn.store)), reached)
      ensures conn.faults >= old(conn.faults)
      ensures r.Ok? && conn.faults == old(conn.faults) ==> reached == FullReach(Scanned(old(conn.store)))
      ensures r.Err? ==> RecoverError(r.error, conn.faults > old(conn.faults), conn.store, Scanned(old(conn.store)))
    {
      var found := conn.Scan(INTENT_PREFIX);
      if found.Err? {
        return Err(found.error), seq(|Scanned(conn.store)|, i => 0), 0;
      }
      r, reached, done := ReplayAll(found.value);
    }

    /** The loop of cleanup over the scanned records. */
    method DeleteExpired(scanned: seq<(Key, Value)>, cutoff: nat) returns (ok: bool, cleaned: nat)
      modifies conn
      ensures cleaned <= |CleanupSteps(scanned, cutoff)|
      ensures conn.Performed(old(conn.trace), old(conn.store), CleanupSteps(scanned, cutoff)[..cleaned])
      ensures ok ==> cleaned == |CleanupSteps(scanned, cutoff)|
      ensures conn.faults >= old(conn.faults) && (ok <==> conn.faults == old(conn.faults))
    {
      ghost var t0, st0, all := conn.trace, conn.store, CleanupSteps(scanned, cutoff);
      cleaned := 0;
      var i := 0;
      while i < |scanned|
        invariant 0 <= i <= |scanned|
        invariant cleaned == |CleanupSteps(scanned[..i], cutoff)| <= |all| && conn.faults == old(conn.faults)
        invariant conn.Performed(t0, st0, all[..cleaned])
      {
        NextExpiry(scanned, i, cutoff);
        if Expired(scanned[i].1, cutoff) {
          RunSnoc(st0, all[..cleaned], all[cleaned]);
          ok := conn.Do(Delete(scanned[i].0));
          if !ok { return; }
          cleaned := cleaned + 1;
        }
        i := i + 1;
      }
      assert scanned[..i] == scanned;
      ok := true;
    }

    /** Deletes the finished records older than the age limit, and nothing else; the count is their number. */
    method Cleanup(now: nat, maxAgeSecs: nat) returns (r: Result<nat>, ghost done: nat)
      modifies conn
      ensures var steps := CleanupSteps(Scanned(old(conn.store)), CutoffOf(now, maxAgeSecs));
        && done <= |steps|
        && conn.Performed(old(conn.trace), old(conn.store), steps[..done])
        && (r.Ok? ==> r.value == done == |steps|)
      ensures var stale := StaleKeys(old(conn.store), now, maxAgeSecs);
        && (r.Ok? ==> conn.store == old(conn.store) - stale && r.value == |stale|)
        && (forall k :: k !in stale ==> SameAt(conn.store, old(conn.store), k))
      ensures conn.faults >= old(conn.faults) && (r.Ok? <==> conn.faults == old(conn.faults))
    {
      var found := conn.Scan(INTENT_PREFIX);
      if found.Err? { return Err(found.error), 0; }
      var ok, cleaned := DeleteExpired(found.value, CutoffOf(now, maxAgeSecs));
      r, done := if ok then Ok(cleaned) else Err(StorageError), cleaned;
      CleanupIsExact(old(conn.store), now, maxAgeSecs, done);
    }
  }
}
