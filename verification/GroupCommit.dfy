/** The client-side group-commit buffer, as the critical sections that its lock serialises: a
    submitter's enqueue, its return from the wait, and a flush. */
module GroupCommit {

  datatype PendingCommit = PendingCommit(id: nat, batchId: nat, committed: bool)

  datatype Inner = Inner(pending: seq<PendingCommit>, batchId: nat)

  /** The first half of submit_and_wait: enqueue under the current batch id and open the next
      batch when the target size is reached. The id it will return is read after that. */
  function Enqueued(b: Inner, opId: nat, target: nat): Inner {
    var pending := b.pending + [PendingCommit(opId, b.batchId, false)];
    Inner(pending, if |pending| >= target then b.batchId + 1 else b.batchId)
  }

  /** The second half, after the wait: a timeout opens the next batch. */
  function Woken(b: Inner, timedOut: bool): Inner {
    if timedOut then b.(batchId := b.batchId + 1) else b
  }

  function Flushed(b: Inner): Inner {
    Inner([], b.batchId + 1)
  }

  function Marked(ps: seq<PendingCommit>): (ms: seq<PendingCommit>)
    ensures |ms| == |ps| && forall i :: 0 <= i < |ps| ==> ms[i] == ps[i].(committed := true)
  {
    seq(|ps|, i requires 0 <= i < |ps| => ps[i].(committed := true))
  }

  class GroupCommitBuffer {
    const targetBatchSize: nat
    var pending: seq<PendingCommit>
    var batchId: nat

    function State(): Inner
      reads this
    {
      Inner(pending, batchId)
    }

    constructor (target: nat)
      ensures targetBatchSize == target && State() == Inner([], 0)
    {
      targetBatchSize, pending, batchId := target, [], 0;
    }

    method Enqueue(opId: nat) returns (r: nat)
      modifies this
      ensures State() == Enqueued(old(State()), opId, targetBatchSize)
      ensures pending == old(pending) + [PendingCommit(opId, old(batchId), false)]
      ensures r == batchId == old(batchId) + if |old(pending)| + 1 >= targetBatchSize then 1 else 0
    {
      pending := pending + [PendingCommit(opId, batchId, false)];
      if |pending| >= targetBatchSize {
        batchId := batchId + 1;
      }
      r := batchId;
    }

    method AfterWait(timedOut: bool)
      modifies this
      ensures State() == Woken(old(State()), timedOut)
      ensures pending == old(pending) && batchId == old(batchId) + if timedOut then 1 else 0
    {
      if timedOut { batchId := batchId + 1; }
    }

    /** Marks every queued commit, then clears the queue; returns what was cleared. */
    method Flush() returns (cleared: seq<PendingCommit>)
      modifies this
      ensures State() == Flushed(old(State())) && pending == [] && batchId == old(batchId) + 1
      ensures cleared == Marked(old(pending))
    {
      var i := 0;
      while i < |pending|
        invariant 0 <= i <= |pending| == |old(pending)| && batchId == old(batchId)
        invariant forall j :: 0 <= j < i ==> pending[j] == old(pending)[j].(committed := true)
        invariant forall j :: i <= j < |pending| ==> pending[j] == old(pending)[j]
      {
        pending := pending[i := pending[i].(committed := true)];
        i := i + 1;
      }
      cleared := pending;
      pending := [];
      batchId := batchId + 1;
    }
  }

  // ---- every schedule ----

  /** One critical section of some thread, or the timer of a waiting thread running out. */
  datatype Move =
    | Enter(thread: nat, opId: nat)
    | Expire(thread: nat)
    | Leave(thread: nat, timedOut: bool)
    | FlushAll

  /** The buffer; the threads that wait on the condition variable, those that it has notified and
      those whose timer has run out, which have yet to take the lock again; and what each flush so
      far has cleared. */
  datatype World = World(inner: Inner, waiting: set<nat>, notified: set<nat>, expired: set<nat>,
                         flushes: seq<seq<PendingCommit>>)

  /** A wait ends by a notification or by its timer, whichever comes first, and for nothing else. */
  predicate Enabled(w: World, m: Move) {
    match m
    case Enter(t, _) => t !in w.waiting + w.notified + w.expired
    case Expire(t) => t in w.waiting
    case Leave(t, timedOut) => t in if timedOut then w.expired else w.notified
    case FlushAll => true
  }

  function Next(w: World, m: Move, target: nat): World {
    match m
    case Enter(t, op) => w.(inner := Enqueued(w.inner, op, target), waiting := w.waiting + {t})
    case Expire(t) => w.(waiting := w.waiting - {t}, expired := w.expired + {t})
    case Leave(t, timedOut) =>
      w.(inner := Woken(w.inner, timedOut), notified := w.notified - {t}, expired := w.expired - {t})
    case FlushAll =>
      World(Flushed(w.inner), {}, w.notified + w.waiting, w.expired, w.flushes + [Marked(w.inner.pending)])
  }

  predicate Schedule(w: World, ms: seq<Move>, target: nat)
    decreases |ms|
  {
    ms == [] || (Enabled(w, ms[0]) && Schedule(Next(w, ms[0], target), ms[1..], target))
  }

  function After(w: World, ms: seq<Move>, target: nat): World
    decreases |ms|
  {
    if ms == [] then w else After(Next(w, ms[0], target), ms[1..], target)
  }

  /** Queued batch ids never fall along the queue nor pass the current one. */
  predicate QueueOk(b: Inner) {
    && (forall i, j :: 0 <= i <= j < |b.pending| ==> b.pending[i].batchId <= b.pending[j].batchId)
    && (forall i :: 0 <= i < |b.pending| ==> b.pending[i].batchId <= b.batchId && !b.pending[i].committed)
  }

  predicate AllBelow(ps: seq<PendingCommit>, n: nat) {
    forall i :: 0 <= i < |ps| ==> ps[i].batchId < n && ps[i].committed
  }

  /** Everything cleared is committed and below everything cleared later, queued, or still to
      be queued. */
  predicate FlushesOk(w: World) {
    && (forall f :: 0 <= f < |w.flushes| ==> AllBelow(w.flushes[f], w.inner.batchId))
    && (forall f, i :: 0 <= f < |w.flushes| && 0 <= i < |w.inner.pending| ==>
          AllBelow(w.flushes[f], w.inner.pending[i].batchId))
    && (forall f, g, i :: 0 <= f < g < |w.flushes| && 0 <= i < |w.flushes[g]| ==>
          AllBelow(w.flushes[f], w.flushes[g][i].batchId))
  }

  lemma MoveKeepsOrder(w: World, m: Move, target: nat)
    requires QueueOk(w.inner) && FlushesOk(w)
    ensures QueueOk(Next(w, m, target).inner) && FlushesOk(Next(w, m, target))
    ensures w.inner.batchId <= Next(w, m, target).inner.batchId
  {
    var w' := Next(w, m, target);
    if m.FlushAll? {
      forall f, g, i | 0 <= f < g < |w'.flushes| && 0 <= i < |w'.flushes[g]|
        ensures AllBelow(w'.flushes[f], w'.flushes[g][i].batchId)
      {
        if g == |w.flushes| { assert w'.flushes[g][i].batchId == w.inner.pending[i].batchId; }
      }
    }
  }

  /** Over every schedule of submitters, timeouts and flushes: the batch id never falls, queued ids
      are in order and at most the current one, and the ids cleared by a later flush are strictly
      larger than those cleared by an earlier one. */
  lemma {:induction false} ScheduleKeepsOrder(w: World, ms: seq<Move>, target: nat)
    requires QueueOk(w.inner) && FlushesOk(w) && Schedule(w, ms, target)
    ensures QueueOk(After(w, ms, target).inner) && FlushesOk(After(w, ms, target))
    ensures w.inner.batchId <= After(w, ms, target).inner.batchId
    decreases |ms|
  {
    if ms != [] {
      MoveKeepsOrder(w, ms[0], target);
      ScheduleKeepsOrder(Next(w, ms[0], target), ms[1..], target);
    }
  }

  /** How many batches the moves open when `queued` operations are queued at first: one for each
      flush, each timeout and each submission that finds the target size reached. */
  function Opened(ms: seq<Move>, queued: nat, target: nat): nat {
    if ms == [] then 0
    else match ms[0]
      case Enter(_, _) => (if queued + 1 >= target then 1 else 0) + Opened(ms[1..], queued + 1, target)
      case Expire(_) => Opened(ms[1..], queued, target)
      case Leave(_, timedOut) => (if timedOut then 1 else 0) + Opened(ms[1..], queued, target)
      case FlushAll => 1 + Opened(ms[1..], 0, target)
  }

  /** The batch id moves by exactly that number. */
  lemma {:induction false} BatchIdCounts(w: World, ms: seq<Move>, target: nat)
    ensures After(w, ms, target).inner.batchId == w.inner.batchId + Opened(ms, |w.inner.pending|, target)
    decreases |ms|
  {
    if ms != [] { BatchIdCounts(Next(w, ms[0], target), ms[1..], target); }
  }

  // ---- conservation ----

  function Ids(ps: seq<PendingCommit>): seq<nat> {
    if ps == [] then [] else Ids(ps[..|ps| - 1]) + [ps[|ps| - 1].id]
  }

  function Cleared(fs: seq<seq<PendingCommit>>): seq<nat> {
    if fs == [] then [] else Cleared(fs[..|fs| - 1]) + Ids(fs[|fs| - 1])
  }

  function Entered(ms: seq<Move>): seq<nat> {
    if ms == [] then [] else (if ms[0].Enter? then [ms[0].opId] else []) + Entered(ms[1..])
  }

  lemma {:induction false} MarkingKeepsIds(ps: seq<PendingCommit>)
    ensures Ids(Marked(ps)) == Ids(ps)
  {
    if ps != [] {
      assert Marked(ps)[..|ps| - 1] == Marked(ps[..|ps| - 1]);
      MarkingKeepsIds(ps[..|ps| - 1]);
    }
  }

  function Seen(w: World): seq<nat> {
    Cleared(w.flushes) + Ids(w.inner.pending)
  }

  lemma MoveConserves(w: World, m: Move, target: nat)
    ensures Seen(Next(w, m, target)) == Seen(w) + if m.Enter? then [m.opId] else []
  {
    var w' := Next(w, m, target);
    match m {
      case Enter(_, op) =>
        assert w'.inner.pending[..|w.inner.pending|] == w.inner.pending;
      case Expire(_) =>
      case Leave(_, _) =>
      case FlushAll =>
        MarkingKeepsIds(w.inner.pending);
        assert w'.flushes[..|w.flushes|] == w.flushes;
    }
  }

  /** The operations cleared by the flushes, in order, followed by those still queued, are exactly
      the operations submitted, in order: none is lost and none is cleared twice. */
  lemma {:induction false} EachOperationOnce(w: World, ms: seq<Move>, target: nat)
    ensures Seen(After(w, ms, target)) == Seen(w) + Entered(ms)
    decreases |ms|
  {
    if ms != [] {
      MoveConserves(w, ms[0], target);
      EachOperationOnce(Next(w, ms[0], target), ms[1..], target);
    }
  }

  // ---- what a return from the wait tells ----

  /** Whether some flush happens among the moves. */
  predicate Flushes(ms: seq<Move>) {
    ms != [] && (ms[0].FlushAll? || Flushes(ms[1..]))
  }

  /** Whether the timer of the thread runs out before any flush happens. */
  predicate ExpiresFirst(ms: seq<Move>, thread: nat) {
    ms != [] && (ms[0] == Expire(thread) || (!ms[0].FlushAll? && ExpiresFirst(ms[1..], thread)))
  }

  /** The thread neither submits nor returns during the moves. */
  predicate StaysInside(ms: seq<Move>, thread: nat) {
    forall i :: 0 <= i < |ms| && (ms[i].Enter? || ms[i].Leave?) ==> ms[i].thread != thread
  }

  lemma {:induction false} QueueOnlyGrows(w: World, ms: seq<Move>, target: nat)
    ensures !Flushes(ms) ==> Cleared(After(w, ms, target).flushes) == Cleared(w.flushes)
    ensures Flushes(ms) ==> |Cleared(After(w, ms, target).flushes)| >= |Seen(w)|
    ensures |Cleared(After(w, ms, target).flushes)| >= |Cleared(w.flushes)|
    decreases |ms|
  {
    if ms != [] {
      var w' := Next(w, ms[0], target);
      QueueOnlyGrows(w', ms[1..], target);
      MoveConserves(w, ms[0], target);
      if ms[0].FlushAll? {
        assert w'.flushes[..|w.flushes|] == w.flushes;
      }
    }
  }

  /** A thread already woken stays so until it takes the lock. */
  lemma {:induction false} StaysWoken(w: World, ms: seq<Move>, thread: nat, target: nat)
    requires Schedule(w, ms, target) && StaysInside(ms, thread) && thread !in w.waiting
    ensures var w' := After(w, ms, target);
      && thread !in w'.waiting
      && (thread in w'.notified <==> thread in w.notified) && (thread in w'.expired <==> thread in w.expired)
    decreases |ms|
  {
    if ms != [] {
      StaysWoken(Next(w, ms[0], target), ms[1..], thread, target);
    }
  }

  /** What became of a waiting thread after any moves of the others. */
  lemma {:induction false} WokenHow(w: World, ms: seq<Move>, thread: nat, target: nat)
    requires Schedule(w, ms, target) && StaysInside(ms, thread)
    requires thread in w.waiting && thread !in w.notified + w.expired
    ensures var w' := After(w, ms, target);
      && (thread in w'.expired <==> ExpiresFirst(ms, thread))
      && (thread in w'.notified <==> Flushes(ms) && !ExpiresFirst(ms, thread))
    decreases |ms|
  {
    if ms != [] {
      var w1 := Next(w, ms[0], target);
      if ms[0] == Expire(thread) || ms[0].FlushAll? {
        StaysWoken(w1, ms[1..], thread, target);
      } else {
        WokenHow(w1, ms[1..], thread, target);
      }
    }
  }

  /** A submitter that comes back from the wait finds its operation cleared exactly when a flush ran
      since it enqueued. It reports a timeout exactly when its timer ran out before any such flush:
      without a timeout the operation is cleared, and with one it may well be still queued although
      the call returns success. */
  lemma ClearedOnReturnIff(w: World, thread: nat, opId: nat, between: seq<Move>, timedOut: bool, target: nat)
    requires Enabled(w, Enter(thread, opId))
    requires Schedule(Next(w, Enter(thread, opId), target), between, target) && StaysInside(between, thread)
    requires Enabled(After(Next(w, Enter(thread, opId), target), between, target), Leave(thread, timedOut))
    ensures var w1 := Next(w, Enter(thread, opId), target);
      var w2 := Next(After(w1, between, target), Leave(thread, timedOut), target);
      var position := |Seen(w)|;
      && position < |Seen(w2)| && Seen(w2)[position] == opId
      && (position < |Cleared(w2.flushes)| <==> Flushes(between))
      && (timedOut <==> ExpiresFirst(between, thread))
      && (!timedOut ==> position < |Cleared(w2.flushes)|)
  {
    var w1 := Next(w, Enter(thread, opId), target);
    MoveConserves(w, Enter(thread, opId), target);
    EachOperationOnce(w1, between, target);
    QueueOnlyGrows(w1, between, target);
    WokenHow(w1, between, thread, target);
  }
}
