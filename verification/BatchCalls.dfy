/** Which calls the batch writer makes on the tables, for any table engine: an engine that also keeps
    a list of its calls shows them. */
module BatchCalls {
  import opened Storage
  import opened Batch
  import opened BatchRuns

  /** One call on the tables. */
  datatype TableCall =
    | InsertedRow(table: string, row: Row)
    | UpdatedRows(table: string, row: Row, field: string, value: SochValue)
    | DeletedRows(table: string, field: string, value: SochValue)

  type Recorded<S> = (S, seq<TableCall>)

  /** The engine, with a record of its calls. */
  function Recording<S>(e: Engine<S>): Engine<Recorded<S>> {
    Engine(
      (r: Recorded<S>, table, row) => (e.insertRow(r.0, table, row), r.1 + [InsertedRow(table, row)]),
      (r: Recorded<S>, table) => e.fields(r.0, table),
      (r: Recorded<S>, table, row, field, value) =>
        (e.updateRows(r.0, table, row, field, value), r.1 + [UpdatedRows(table, row, field, value)]),
      (r: Recorded<S>, table, field, value) =>
        (e.deleteRows(r.0, table, field, value), r.1 + [DeletedRows(table, field, value)]))
  }

  function Perform<S>(e: Engine<S>, s: S, call: TableCall): S {
    match call
    case InsertedRow(table, row) => e.insertRow(s, table, row)
    case UpdatedRows(table, row, field, value) => e.updateRows(s, table, row, field, value)
    case DeletedRows(table, field, value) => e.deleteRows(s, table, field, value)
  }

  function PerformAll<S>(e: Engine<S>, s: S, calls: seq<TableCall>): S {
    if calls == [] then s else Perform(e, PerformAll(e, s, calls[..|calls| - 1]), calls[|calls| - 1])
  }

  // ---- rows ----

  /** A name and its value in some places of a list. */
  type Listing = nat -> Option<(string, SochValue)>

  predicate IsLast(n: nat, at: Listing, i: nat) {
    i < n && at(i).Some? && forall j: nat :: i < j < n && at(j).Some? ==> at(j).value.0 != at(i).value.0
  }

  /** The row has exactly the names listed in the first n places, each with the last value listed. */
  ghost predicate HoldsLast(row: Row, n: nat, at: Listing) {
    && (forall i: nat :: i < n && at(i).Some? ==> at(i).value.0 in row)
    && (forall name :: name in row ==> exists i: nat :: IsLast(n, at, i) && at(i).value == (name, row[name]))
  }

  /** Collecting the places one by one. */
  function Collected(n: nat, at: Listing): Row {
    if n == 0 then map[]
    else
      var row := Collected(n - 1, at);
      match at(n - 1) case Some((name, value)) => row[name := value] case None => row
  }

  lemma {:induction false} CollectedHoldsLast(n: nat, at: Listing)
    ensures HoldsLast(Collected(n, at), n, at)
  {
    if n > 0 {
      CollectedHoldsLast(n - 1, at);
      forall name | name in Collected(n, at)
        ensures exists i: nat :: IsLast(n, at, i) && at(i).value == (name, Collected(n, at)[name])
      {
        OneMorePlace(Collected(n - 1, at), n, at, name);
      }
    }
  }

  lemma OneMorePlace(before: Row, n: nat, at: Listing, name: string)
    requires n > 0 && HoldsLast(before, n - 1, at)
    requires name in before || (at(n - 1).Some? && at(n - 1).value.0 == name)
    ensures var value := if at(n - 1).Some? && at(n - 1).value.0 == name then at(n - 1).value.1 else before[name];
      exists i: nat :: IsLast(n, at, i) && at(i).value == (name, value)
  {
    if at(n - 1).Some? && at(n - 1).value.0 == name {
      assert IsLast(n, at, n - 1);
    } else {
      var i: nat :| IsLast(n - 1, at, i) && at(i).value == (name, before[name]);
      assert IsLast(n, at, i);
    }
  }

  function PairAt(pairs: seq<(string, SochValue)>): Listing {
    (i: nat) => if i < |pairs| then Some(pairs[i]) else None
  }

  /** Field i with value i, where that is present. */
  function FieldAt(fields: seq<string>, slice: seq<Option<SochValue>>): Listing {
    (i: nat) => if i < |fields| && i < |slice| && slice[i].Some? then Some((fields[i], slice[i].value)) else None
  }

  lemma {:induction false} RowOfCollects(pairs: seq<(string, SochValue)>, n: nat, at: Listing)
    requires n <= |pairs| && forall i: nat :: i < n ==> at(i) == Some(pairs[i])
    ensures RowOf(pairs[..n]) == Collected(n, at)
    decreases n
  {
    if n > 0 {
      RowOfCollects(pairs, n - 1, at);
      assert pairs[..n][..n - 1] == pairs[..n - 1];
    }
  }

  lemma RowOfHoldsLast(pairs: seq<(string, SochValue)>)
    ensures HoldsLast(RowOf(pairs), |pairs|, PairAt(pairs))
  {
    RowOfCollects(pairs, |pairs|, PairAt(pairs));
    CollectedHoldsLast(|pairs|, PairAt(pairs));
    assert pairs[..|pairs|] == pairs;
  }

  function Shorter(fields: seq<string>, slice: seq<Option<SochValue>>): nat {
    if |fields| <= |slice| then |fields| else |slice|
  }

  lemma {:induction false} ColumnsSnoc(fields: seq<string>, slice: seq<Option<SochValue>>, n: nat)
    requires n < |fields| && n < |slice|
    ensures Columns(fields[..n + 1], slice[..n + 1])
         == Columns(fields[..n], slice[..n]) + if slice[n].Some? then [(fields[n], slice[n].value)] else []
    decreases n
  {
    if n == 0 {
      assert fields[..1][1..] == [] && slice[..1][1..] == [];
    } else {
      ColumnsSnoc(fields[1..], slice[1..], n - 1);
      TailOfPart(fields, n + 1);
      TailOfPart(slice, n + 1);
      TailOfPart(fields, n);
      TailOfPart(slice, n);
      ColumnsHead(fields, slice, n + 1);
      ColumnsHead(fields, slice, n);
    }
  }

  lemma TailOfPart<T>(s: seq<T>, n: nat)
    requires 1 <= n <= |s|
    ensures s[..n][1..] == s[1..][..n - 1] && s[..n][0] == s[0]
  {
  }

  lemma ColumnsHead(fields: seq<string>, slice: seq<Option<SochValue>>, n: nat)
    requires 1 <= n <= |fields| && n <= |slice|
    ensures Columns(fields[..n], slice[..n])
         == (if slice[0].Some? then [(fields[0], slice[0].value)] else [])
            + Columns(fields[1..][..n - 1], slice[1..][..n - 1])
  {
    TailOfPart(fields, n);
    TailOfPart(slice, n);
  }

  lemma {:induction false} ColumnsStop(fields: seq<string>, slice: seq<Option<SochValue>>)
    ensures var n := Shorter(fields, slice); Columns(fields, slice) == Columns(fields[..n], slice[..n])
    decreases |fields|
  {
    if fields != [] && slice != [] {
      var n := Shorter(fields, slice);
      ColumnsStop(fields[1..], slice[1..]);
      assert fields[..n][1..] == fields[1..][..n - 1] && slice[..n][1..] == slice[1..][..n - 1];
    }
  }

  lemma RowOfOneMore(pairs: seq<(string, SochValue)>, o: Option<(string, SochValue)>)
    ensures RowOf(pairs + match o case Some(p) => [p] case None => [])
         == match o case Some((name, value)) => RowOf(pairs)[name := value] case None => RowOf(pairs)
  {
    if o.Some? { assert (pairs + [o.value])[..|pairs|] == pairs; } else { assert pairs + [] == pairs; }
  }

  lemma {:induction false} ColumnsCollect(fields: seq<string>, slice: seq<Option<SochValue>>, n: nat)
    requires n <= |fields| && n <= |slice|
    ensures RowOf(Columns(fields[..n], slice[..n])) == Collected(n, FieldAt(fields, slice))
    decreases n
  {
    if n > 0 {
      ColumnsCollect(fields, slice, n - 1);
      ColumnsPlace(fields, slice, n - 1);
      RowOfOneMore(Columns(fields[..n - 1], slice[..n - 1]), FieldAt(fields, slice)(n - 1));
    }
  }

  lemma ColumnsPlace(fields: seq<string>, slice: seq<Option<SochValue>>, n: nat)
    requires n < |fields| && n < |slice|
    ensures Columns(fields[..n + 1], slice[..n + 1])
         == Columns(fields[..n], slice[..n]) + match FieldAt(fields, slice)(n) case Some(p) => [p] case None => []
  {
    ColumnsSnoc(fields, slice, n);
  }

  lemma SliceHoldsLast(fields: seq<string>, slice: seq<Option<SochValue>>)
    ensures HoldsLast(RowOf(Columns(fields, slice)), Shorter(fields, slice), FieldAt(fields, slice))
  {
    ColumnsStop(fields, slice);
    ColumnsCollect(fields, slice, Shorter(fields, slice));
    CollectedHoldsLast(Shorter(fields, slice), FieldAt(fields, slice));
  }

  // ---- operations ----

  /** Only a slice for a table without a schema fails. */
  predicate Fails<S>(e: Engine<S>, s: S, op: BatchOp) {
    op.InsertSlice? && e.fields(s, op.table).None?
  }

  /** The call is the one that the operation asks for. */
  ghost predicate Answers<S>(e: Engine<S>, s: S, op: BatchOp, call: TableCall) {
    match op
    case Insert(table, values) =>
      call.InsertedRow? && call.table == table && HoldsLast(call.row, |values|, PairAt(values))
    case InsertSlice(table, _, slice) =>
      && call.InsertedRow? && call.table == table && e.fields(s, table).Some?
      && var fields := e.fields(s, table).value;
         HoldsLast(call.row, Shorter(fields, slice), FieldAt(fields, slice))
    case Update(table, field, value, updates) =>
      && call.UpdatedRows? && call.table == table && call.field == field && call.value == value
      && HoldsLast(call.row, |updates|, PairAt(updates))
    case DeleteRows(table, field, value) => call == DeletedRows(table, field, value)
  }

  /** The calls are those of the operations that do not fail, one each, in order. */
  ghost predicate AnswersAll<S>(e: Engine<S>, s: S, ops: seq<BatchOp>, calls: seq<TableCall>)
    decreases |ops|
  {
    if ops == [] then calls == []
    else
      var n := |ops| - 1;
      var before := ApplyAll(e, s, ops[..n]);
      if Fails(e, before, ops[n]) then AnswersAll(e, s, ops[..n], calls)
      else
        && calls != [] && Answers(e, before, ops[n], calls[|calls| - 1])
        && AnswersAll(e, s, ops[..n], calls[..|calls| - 1])
  }

  /** What one operation does to a recording engine. */
  lemma OneOperation<S>(e: Engine<S>, r: Recorded<S>, op: BatchOp)
    ensures var (r', failed) := ApplyOp(Recording(e), r, op);
      && r'.0 == ApplyOp(e, r.0, op).0 && failed == Fails(e, r.0, op) == ApplyOp(e, r.0, op).1
      && (failed ==> r' == r)
      && (!failed ==> |r'.1| == |r.1| + 1 && r'.1[..|r.1|] == r.1
                      && Answers(e, r.0, op, r'.1[|r.1|]) && r'.0 == Perform(e, r.0, r'.1[|r.1|]))
  {
    match op {
      case Insert(_, values) => RowOfHoldsLast(values);
      case InsertSlice(table, _, slice) =>
        if e.fields(r.0, table).Some? { SliceHoldsLast(e.fields(r.0, table).value, slice); }
      case Update(_, _, _, updates) => RowOfHoldsLast(updates);
      case DeleteRows(_, _, _) =>
    }
  }

  /** For any engine: applying operations makes exactly one call for each that does not fail, in order,
      each with the kind, table, key and row of its operation; the tables are the result of these calls. */
  lemma {:induction false} CallsMade<S>(e: Engine<S>, s: S, ops: seq<BatchOp>)
    ensures var (s', calls) := ApplyAll(Recording(e), (s, []), ops);
      && s' == ApplyAll(e, s, ops) == PerformAll(e, s, calls)
      && AnswersAll(e, s, ops, calls)
    decreases |ops|
  {
    if ops != [] {
      var n := |ops| - 1;
      CallsMade(e, s, ops[..n]);
      OneOperation(e, ApplyAll(Recording(e), (s, []), ops[..n]), ops[n]);
    }
  }

  /** The places of the operations that fail. */
  function Failing<S>(e: Engine<S>, s: S, ops: seq<BatchOp>): set<int> {
    set i | 0 <= i < |ops| && FailsAt(e, s, ops, i)
  }

  predicate FailsAt<S>(e: Engine<S>, s: S, ops: seq<BatchOp>, i: int)
    requires 0 <= i < |ops|
  {
    Fails(e, ApplyAll(e, s, ops[..i]), ops[i])
  }

  lemma FailsBefore<S>(e: Engine<S>, s: S, ops: seq<BatchOp>, n: nat, i: nat)
    requires i < n <= |ops|
    ensures FailsAt(e, s, ops[..n], i) <==> FailsAt(e, s, ops, i)
  {
    assert ops[..n][..i] == ops[..i];
  }

  lemma FailingSnoc<S>(e: Engine<S>, s: S, ops: seq<BatchOp>)
    requires ops != []
    ensures var n := |ops| - 1;
      |Failing(e, s, ops)| == |Failing(e, s, ops[..n])| + if Fails(e, ApplyAll(e, s, ops[..n]), ops[n]) then 1 else 0
  {
    var n := |ops| - 1;
    var here, before := Failing(e, s, ops), Failing(e, s, ops[..n]);
    forall i ensures i in here <==> i in before || (FailsAt(e, s, ops, n) && i == n) {
      if 0 <= i < n { FailsBefore(e, s, ops, n, i); }
    }
    GrowsByOne(here, before, n, FailsAt(e, s, ops, n));
  }

  lemma GrowsByOne(here: set<int>, before: set<int>, n: int, more: bool)
    requires n !in before && (forall i :: i in here <==> (i in before || (more && i == n)))
    ensures |here| == |before| + if more then 1 else 0
  {
    var grown := before + if more then {n} else {};
    forall i ensures i in here <==> i in grown { }
    assert here == grown;
  }

  /** The failures counted are the slices for tables without a schema, and every other operation makes
      one call. */
  lemma {:induction false} FailuresAreExact<S>(e: Engine<S>, s: S, ops: seq<BatchOp>)
    ensures Failures(e, s, ops) == |Failing(e, s, ops)|
    ensures |ApplyAll(Recording(e), (s, []), ops).1| == |ops| - Failures(e, s, ops)
    decreases |ops|
  {
    if ops != [] {
      var n := |ops| - 1;
      FailuresAreExact(e, s, ops[..n]);
      CallsMade(e, s, ops[..n]);
      OneOperation(e, ApplyAll(Recording(e), (s, []), ops[..n]), ops[n]);
      FailingSnoc(e, s, ops);
    }
  }

  /** Over every run of the writer, whatever its mode and sizes and whatever fsyncs fail: the calls made
      by the end of `execute` are those of the submitted operations. */
  lemma ExecutedCalls<S>(e: Engine<S>, s: S, w: Writer<Recorded<S>>, evs: seq<Event>, synced: bool)
    requires w.tables == (s, []) && w.ops == []
    ensures var (s', calls) := Flushed(Recording(e), After(Recording(e), w, evs), synced).tables;
      s' == PerformAll(e, s, calls) && AnswersAll(e, s, Submitted(evs), calls)
  {
    StreamingIsInvisible(Recording(e), w, evs, synced);
    assert [] + Submitted(evs) == Submitted(evs);
    CallsMade(e, s, Submitted(evs));
  }
}
