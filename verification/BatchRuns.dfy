/** Streaming over whole runs: chunking is invisible in the tables, and the counters are exact. */
module BatchRuns {
  import opened Batch

  /** A call on the writer before `execute`. `synced` is the outcome of the fsync, if there is one. */
  datatype Event =
    | Add(op: BatchOp, synced: bool)
    | SetSize(size: nat)
    | SetAuto(enabled: bool)

  function Next<S>(e: Engine<S>, w: Writer<S>, ev: Event): Writer<S> {
    match ev
    case Add(op, synced) => Added(e, w, op, synced)
    case SetSize(size) => w.(maxBatchSize := if size < 1 then 1 else size)
    case SetAuto(enabled) => w.(autoCommit := enabled)
  }

  function After<S>(e: Engine<S>, w: Writer<S>, evs: seq<Event>): Writer<S>
    decreases |evs|
  {
    if evs == [] then w else After(e, Next(e, w, evs[0]), evs[1..])
  }

  /** The operations submitted, in order. */
  function Submitted(evs: seq<Event>): seq<BatchOp> {
    if evs == [] then [] else OwnOps(evs[0]) + Submitted(evs[1..])
  }

  lemma {:induction false} ApplyAllConcat<S>(e: Engine<S>, s: S, a: seq<BatchOp>, b: seq<BatchOp>)
    ensures ApplyAll(e, s, a + b) == ApplyAll(e, ApplyAll(e, s, a), b)
    ensures Failures(e, s, a + b) == Failures(e, s, a) + Failures(e, ApplyAll(e, s, a), b)
    decreases |b|
  {
    if b == [] {
      assert a + b == a;
    } else {
      assert (a + b)[..|a + b| - 1] == a + b[..|b| - 1];
      ApplyAllConcat(e, s, a, b[..|b| - 1]);
    }
  }

  /** What the tables will be once everything buffered is applied. */
  function Settled<S>(e: Engine<S>, w: Writer<S>): S {
    ApplyAll(e, w.tables, w.ops)
  }

  lemma {:induction false} StreamingStep<S>(e: Engine<S>, w: Writer<S>, evs: seq<Event>)
    ensures Settled(e, After(e, w, evs)) == ApplyAll(e, Settled(e, w), Submitted(evs))
    decreases |evs|
  {
    if evs != [] {
      var w1, rest := Next(e, w, evs[0]), Submitted(evs[1..]);
      StreamingStep(e, w1, evs[1..]);
      if evs[0].Add? {
        ApplyAllConcat(e, w.tables, w.ops, [evs[0].op]);
        ApplyAllConcat(e, Settled(e, w), [evs[0].op], rest);
      } else {
        assert Submitted(evs) == rest;
      }
    }
  }

  /** Streaming is invisible: whatever the batch size and mode, changed at any moment, and
      whatever fsyncs fail, executing leaves the tables as applying the submitted operations one
      by one in submission order. */
  lemma StreamingIsInvisible<S>(e: Engine<S>, w: Writer<S>, evs: seq<Event>, synced: bool)
    ensures Flushed(e, After(e, w, evs), synced).tables == ApplyAll(e, w.tables, w.ops + Submitted(evs))
    ensures Flushed(e, After(e, w, evs), synced).ops == []
  {
    StreamingStep(e, w, evs);
    ApplyAllConcat(e, w.tables, w.ops, Submitted(evs));
  }

  /** The streaming mode is never switched on. */
  predicate StaysManual(evs: seq<Event>) {
    evs == [] || ((evs[0].SetAuto? ==> !evs[0].enabled) && StaysManual(evs[1..]))
  }

  /** w' is w with more operations in the buffer, and nothing applied or counted. */
  predicate OnlyBuffered<S(==)>(w: Writer<S>, w': Writer<S>, more: seq<BatchOp>) {
    && w'.tables == w.tables && w'.ops == w.ops + more && !w'.autoCommit
    && w'.chunks == w.chunks && w'.executed == w.executed && w'.failed == w.failed
  }

  lemma ManualStep<S>(e: Engine<S>, w: Writer<S>, ev: Event)
    requires !w.autoCommit && (ev.SetAuto? ==> !ev.enabled)
    ensures OnlyBuffered(w, Next(e, w, ev), OwnOps(ev))
  {
  }

  lemma BufferedTwice<S>(w: Writer<S>, w1: Writer<S>, w2: Writer<S>, a: seq<BatchOp>, b: seq<BatchOp>)
    requires OnlyBuffered(w, w1, a) && OnlyBuffered(w1, w2, b)
    ensures OnlyBuffered(w, w2, a + b)
  {
    assert w.ops + a + b == w.ops + (a + b);
  }

  /** With streaming off nothing is applied before `execute`, whatever the batch size: every operation
      waits in the buffer, in order. */
  lemma {:induction false} NothingBeforeExecute<S>(e: Engine<S>, w: Writer<S>, evs: seq<Event>)
    requires !w.autoCommit && StaysManual(evs)
    ensures OnlyBuffered(w, After(e, w, evs), Submitted(evs))
    decreases |evs|
  {
    if evs != [] {
      var w1 := Next(e, w, evs[0]);
      ManualStep(e, w, evs[0]);
      NothingBeforeExecute(e, w1, evs[1..]);
      BufferedTwice(w, w1, After(e, w1, evs[1..]), OwnOps(evs[0]), Submitted(evs[1..]));
    }
  }

  /** In streaming mode the buffer is below the batch size after every add. */
  lemma BufferIsBounded<S>(e: Engine<S>, w: Writer<S>, op: BatchOp, synced: bool)
    requires w.autoCommit && w.maxBatchSize >= 1
    ensures |Added(e, w, op, synced).ops| < w.maxBatchSize
  {
  }

  // ---- the chunks of a run ----

  /** One flushed chunk: the tables it met, its operations, and whether its fsync succeeded. */
  datatype Chunk<S> = Chunk(before: S, ops: seq<BatchOp>, synced: bool)

  function ChunkAt<S>(w: Writer<S>, ev: Event): seq<Chunk<S>> {
    if ev.Add? && Full(w.(ops := w.ops + [ev.op])) then [Chunk(w.tables, w.ops + [ev.op], ev.synced)] else []
  }

  function Chunks<S>(e: Engine<S>, w: Writer<S>, evs: seq<Event>): seq<Chunk<S>>
    decreases |evs|
  {
    if evs == [] then [] else ChunkAt(w, evs[0]) + Chunks(e, Next(e, w, evs[0]), evs[1..])
  }

  function OpsIn<S>(cs: seq<Chunk<S>>): seq<BatchOp> {
    if cs == [] then [] else cs[0].ops + OpsIn(cs[1..])
  }

  /** Chunks, executed and failed operations, over the chunks whose fsync succeeded. */
  function Totals<S>(e: Engine<S>, cs: seq<Chunk<S>>): (nat, nat, nat) {
    if cs == [] then (0, 0, 0)
    else
      var t, c := Totals(e, cs[1..]), cs[0];
      if !c.synced then t
      else
        var f := Failures(e, c.before, c.ops);
        (t.0 + 1, t.1 + |c.ops| - f, t.2 + f)
  }

  function OwnOps(ev: Event): seq<BatchOp> {
    if ev.Add? then [ev.op] else []
  }

  lemma ChunkPartition<S>(e: Engine<S>, w: Writer<S>, ev: Event)
    ensures OpsIn(ChunkAt(w, ev)) + Next(e, w, ev).ops == w.ops + OwnOps(ev)
  {
    var c := ChunkAt(w, ev);
    if c != [] { assert c[1..] == [] && OpsIn(c) == c[0].ops + []; }
  }

  lemma OpsInJoin<S>(c: seq<Chunk<S>>, rest: seq<Chunk<S>>)
    requires |c| <= 1
    ensures OpsIn(c + rest) == OpsIn(c) + OpsIn(rest)
  {
    if c == [] {
      assert c + rest == rest;
    } else {
      assert (c + rest)[1..] == rest && c[1..] == [];
    }
  }

  lemma Regroup(a: seq<BatchOp>, b: seq<BatchOp>, left: seq<BatchOp>, w: seq<BatchOp>, w1: seq<BatchOp>,
                own: seq<BatchOp>, later: seq<BatchOp>)
    requires a + w1 == w + own && b + left == w1 + later
    ensures (a + b) + left == w + (own + later)
  {
    assert (a + b) + left == a + (b + left);
    assert a + (w1 + later) == (a + w1) + later;
    assert (w + own) + later == w + (own + later);
  }

  /** Every submitted operation goes into exactly one chunk, in order, or is still buffered. */
  lemma {:induction false} ChunksPartition<S>(e: Engine<S>, w: Writer<S>, evs: seq<Event>)
    ensures OpsIn(Chunks(e, w, evs)) + After(e, w, evs).ops == w.ops + Submitted(evs)
    decreases |evs|
  {
    if evs != [] {
      var w1, c, rest := Next(e, w, evs[0]), ChunkAt(w, evs[0]), Chunks(e, Next(e, w, evs[0]), evs[1..]);
      ChunksPartition(e, w1, evs[1..]);
      ChunkPartition(e, w, evs[0]);
      OpsInJoin(c, rest);
      Regroup(OpsIn(c), OpsIn(rest), After(e, w, evs).ops, w.ops, w1.ops, OwnOps(evs[0]), Submitted(evs[1..]));
    }
  }

  /** The counters cover exactly the chunks whose fsync succeeded. */
  lemma {:induction false} CountersCoverSyncedChunks<S>(e: Engine<S>, w: Writer<S>, evs: seq<Event>)
    ensures var w', t := After(e, w, evs), Totals(e, Chunks(e, w, evs));
      w'.chunks == w.chunks + t.0 && w'.executed == w.executed + t.1 && w'.failed == w.failed + t.2
    decreases |evs|
  {
    if evs != [] {
      var w1, c, rest := Next(e, w, evs[0]), ChunkAt(w, evs[0]), Chunks(e, Next(e, w, evs[0]), evs[1..]);
      CountersCoverSyncedChunks(e, w1, evs[1..]);
      if c == [] {
        assert c + rest == rest;
      } else {
        assert (c + rest)[1..] == rest;
      }
    }
  }

  // ---- exact counts in streaming mode ----

  /** Only adds, and every fsync succeeds. */
  predicate CleanAdds(evs: seq<Event>) {
    forall i :: 0 <= i < |evs| ==> evs[i].Add? && evs[i].synced
  }

  lemma OneCleanAdd<S>(e: Engine<S>, w: Writer<S>, ev: Event)
    requires ev.Add? && ev.synced && w.autoCommit && |w.ops| < w.maxBatchSize
    ensures var w1 := Next(e, w, ev);
      && w1.autoCommit && w1.maxBatchSize == w.maxBatchSize && |w1.ops| < w.maxBatchSize
      && w1.executed + w1.failed + |w1.ops| == w.executed + w.failed + |w.ops| + 1
      && ((w1.chunks == w.chunks && |w1.ops| == |w.ops| + 1)
          || (w1.chunks == w.chunks + 1 && |w1.ops| == 0 && |w.ops| + 1 == w.maxBatchSize))
  {
  }

  lemma OneFactorMore(a: int, k: int)
    ensures (a + 1) * k == a * k + k
  {
  }

  lemma {:induction false} FullChunks<S>(e: Engine<S>, w: Writer<S>, evs: seq<Event>)
    requires CleanAdds(evs) && w.autoCommit && |w.ops| < w.maxBatchSize
    ensures var w' := After(e, w, evs);
      && w'.autoCommit && w'.maxBatchSize == w.maxBatchSize && |w'.ops| < w.maxBatchSize && w'.chunks >= w.chunks
      && |w.ops| + |evs| == (w'.chunks - w.chunks) * w.maxBatchSize + |w'.ops|
      && w'.executed + w'.failed + |w'.ops| == w.executed + w.failed + |w.ops| + |evs|
    decreases |evs|
  {
    if evs != [] {
      var w1 := Next(e, w, evs[0]);
      OneCleanAdd(e, w, evs[0]);
      FullChunks(e, w1, evs[1..]);
      OneFactorMore(After(e, w1, evs[1..]).chunks - w1.chunks, w.maxBatchSize);
    }
  }

  /** c is n / k rounded up. */
  predicate IsCeil(c: nat, n: nat, k: nat) {
    n <= c * k < n + k
  }

  lemma CeilOfParts(c: nat, m: nat, n: nat, k: nat)
    requires m < k && n == c * k + m
    ensures IsCeil(if m == 0 then c else c + 1, n, k)
  {
    OneFactorMore(c, k);
  }

  /** With the mode and size set first and every fsync good, n operations are all counted, and
      chunks and fsyncs number n / K rounded up. */
  lemma StreamingCounts<S>(e: Engine<S>, w: Writer<S>, evs: seq<Event>)
    requires CleanAdds(evs) && w.autoCommit && w.maxBatchSize >= 1
    requires w.ops == [] && w.chunks == w.executed == w.failed == 0
    ensures var r := ResultOf(Flushed(e, After(e, w, evs), true));
      && r.opsExecuted + r.opsFailed == |evs|
      && r.chunksCommitted == r.fsyncCount && IsCeil(r.chunksCommitted, |evs|, w.maxBatchSize)
  {
    FullChunks(e, w, evs);
    var w' := After(e, w, evs);
    CeilOfParts(w'.chunks, |w'.ops|, |evs|, w.maxBatchSize);
  }

  /** The counters account for everything submitted exactly when every fsync of the run succeeded. */
  lemma CountsAllIffSynced<S>(e: Engine<S>, w: Writer<S>, evs: seq<Event>)
    ensures var w' := After(e, w, evs);
      w'.executed + w'.failed + |w'.ops| == w.executed + w.failed + |w.ops| + |Submitted(evs)|
      <==> forall c :: c in Chunks(e, w, evs) ==> c.synced
  {
    ChunksPartition(e, w, evs);
    CountersCoverSyncedChunks(e, w, evs);
    ChunksAreNonempty(e, w, evs);
    SyncedTotals(e, Chunks(e, w, evs));
    assert |OpsIn(Chunks(e, w, evs)) + After(e, w, evs).ops| == |w.ops + Submitted(evs)|;
  }

  lemma {:induction false} ChunksAreNonempty<S>(e: Engine<S>, w: Writer<S>, evs: seq<Event>)
    ensures forall i :: 0 <= i < |Chunks(e, w, evs)| ==> Chunks(e, w, evs)[i].ops != []
    decreases |evs|
  {
    if evs != [] { ChunksAreNonempty(e, Next(e, w, evs[0]), evs[1..]); }
  }

  lemma {:induction false} SyncedTotals<S>(e: Engine<S>, cs: seq<Chunk<S>>)
    requires forall i :: 0 <= i < |cs| ==> cs[i].ops != []
    ensures Totals(e, cs).1 + Totals(e, cs).2 <= |OpsIn(cs)|
    ensures Totals(e, cs).1 + Totals(e, cs).2 == |OpsIn(cs)| <==> forall c :: c in cs ==> c.synced
  {
    if cs != [] {
      SyncedTotals(e, cs[1..]);
      assert forall c :: c in cs <==> c == cs[0] || c in cs[1..];
    }
  }
}
