/** The batch writer: operations are buffered and applied chunk by chunk, in streaming mode
    whenever the buffer is full, with one fsync per chunk. The tables behind the connection are
    an abstract state with row operations. */
module Batch {
  import opened Storage

  /** An opaque column value. */
  type SochValue = string

  datatype BatchOp =
    | Insert(table: string, values: seq<(string, SochValue)>)
    | InsertSlice(table: string, rowId: nat, slice: seq<Option<SochValue>>)
    | Update(table: string, keyField: string, keyValue: SochValue, updates: seq<(string, SochValue)>)
    | DeleteRows(table: string, keyField: string, keyValue: SochValue)

  type Row = map<string, SochValue>

  /** The row operations of the table layer, on a state S. */
  datatype Engine<!S> = Engine(
    insertRow: (S, string, Row) -> S,
    fields: (S, string) -> Option<seq<string>>,
    updateRows: (S, string, Row, string, SochValue) -> S,
    deleteRows: (S, string, string, SochValue) -> S)

  datatype BatchResult = BatchResult(opsExecuted: nat, opsFailed: nat, fsyncCount: nat, chunksCommitted: nat)

  /** Collecting pairs into a hash map: a later pair replaces an earlier one. */
  function RowOf(values: seq<(string, SochValue)>): Row {
    if values == [] then map[]
    else RowOf(values[..|values| - 1])[values[|values| - 1].0 := values[|values| - 1].1]
  }

  /** Pairing schema fields with the values that are present; the longer list is cut. */
  function Columns(fields: seq<string>, slice: seq<Option<SochValue>>): seq<(string, SochValue)> {
    if fields == [] || slice == [] then []
    else (if slice[0].Some? then [(fields[0], slice[0].value)] else []) + Columns(fields[1..], slice[1..])
  }

  /** One operation: the new state, and whether it counts as failed. Only a slice insert into a
      table without a schema fails. */
  function ApplyOp<S>(e: Engine<S>, s: S, op: BatchOp): (S, bool) {
    match op
    case Insert(table, values) => (e.insertRow(s, table, RowOf(values)), false)
    case InsertSlice(table, _, slice) =>
      (match e.fields(s, table)
       case Some(fields) => (e.insertRow(s, table, RowOf(Columns(fields, slice))), false)
       case None => (s, true))
    case Update(table, field, value, updates) => (e.updateRows(s, table, RowOf(updates), field, value), false)
    case DeleteRows(table, field, value) => (e.deleteRows(s, table, field, value), false)
  }

  /** Applying operations one by one, in order. */
  function ApplyAll<S>(e: Engine<S>, s: S, ops: seq<BatchOp>): S {
    if ops == [] then s
    else ApplyOp(e, ApplyAll(e, s, ops[..|ops| - 1]), ops[|ops| - 1]).0
  }

  /** How many of them fail. */
  function Failures<S>(e: Engine<S>, s: S, ops: seq<BatchOp>): (n: nat)
    ensures n <= |ops|
  {
    if ops == [] then 0
    else
      var init := ops[..|ops| - 1];
      Failures(e, s, init) + if ApplyOp(e, ApplyAll(e, s, init), ops[|ops| - 1]).1 then 1 else 0
  }

  // ---- the writer as a value ----

  datatype Writer<S> = Writer(
    tables: S, ops: seq<BatchOp>, maxBatchSize: nat, autoCommit: bool,
    chunks: nat, executed: nat, failed: nat)

  /** A flush applies and drops the buffer; the counters move only when the fsync succeeds. */
  function Flushed<S>(e: Engine<S>, w: Writer<S>, synced: bool): Writer<S> {
    if w.ops == [] then w
    else
      var w' := w.(tables := ApplyAll(e, w.tables, w.ops), ops := []);
      if !synced then w'
      else
        var f := Failures(e, w.tables, w.ops);
        w'.(chunks := w.chunks + 1, executed := w.executed + |w.ops| - f, failed := w.failed + f)
  }

  predicate Full<S>(w: Writer<S>) {
    w.autoCommit && |w.ops| >= w.maxBatchSize
  }

  function Added<S>(e: Engine<S>, w: Writer<S>, op: BatchOp, synced: bool): Writer<S> {
    var w' := w.(ops := w.ops + [op]);
    if Full(w') then Flushed(e, w', synced) else w'
  }

  function ResultOf<S>(w: Writer<S>): BatchResult {
    BatchResult(w.executed, w.failed, w.chunks, w.chunks)
  }

  // ---- the writer in place ----

  class TableConnection<S> {
    const engine: Engine<S>
    var tables: S
    /** How many fsyncs have failed so far. */
    ghost var faults: nat

    constructor (engine: Engine<S>, tables: S)
      ensures this.engine == engine && this.tables == tables && faults == 0
    {
      this.engine, this.tables, faults := engine, tables, 0;
    }

    method Fsync() returns (ok: bool)
      modifies this`faults
      ensures faults == old(faults) + if ok then 0 else 1
    {
      ok := *;
      if !ok { faults := faults + 1; }
    }
  }

  class BatchWriter<S> {
    const conn: TableConnection<S>
    var ops: seq<BatchOp>
    var maxBatchSize: nat
    var autoCommit: bool
    var chunksCommitted: nat
    var totalOpsExecuted: nat
    var totalOpsFailed: nat

    function State(): Writer<S>
      reads this, conn
    {
      Writer(conn.tables, ops, maxBatchSize, autoCommit, chunksCommitted, totalOpsExecuted, totalOpsFailed)
    }

    constructor (conn: TableConnection<S>)
      ensures this.conn == conn && State() == Writer(conn.tables, [], 1000, false, 0, 0, 0)
    {
      this.conn := conn;
      ops, maxBatchSize, autoCommit := [], 1000, false;
      chunksCommitted, totalOpsExecuted, totalOpsFailed := 0, 0, 0;
    }

    method SetMaxBatchSize(size: nat)
      modifies this
      ensures State() == old(State()).(maxBatchSize := if size < 1 then 1 else size)
    {
      maxBatchSize := if size < 1 then 1 else size;
    }

    method SetAutoCommit(enabled: bool)
      modifies this
      ensures State() == old(State()).(autoCommit := enabled)
    {
      autoCommit := enabled;
    }

    /** Applies the operations in order and counts those the tables refuse. */
    method ApplyBatch(batch: seq<BatchOp>) returns (opsFailed: nat)
      modifies conn`tables
      ensures conn.tables == ApplyAll(conn.engine, old(conn.tables), batch)
      ensures opsFailed == Failures(conn.engine, old(conn.tables), batch) <= |batch|
    {
      opsFailed := 0;
      var i := 0;
      while i < |batch|
        invariant 0 <= i <= |batch|
        invariant conn.tables == ApplyAll(conn.engine, old(conn.tables), batch[..i])
        invariant opsFailed == Failures(conn.engine, old(conn.tables), batch[..i]) <= i
      {
        assert batch[..i + 1][..i] == batch[..i];
        var (tables', refused) := ApplyOp(conn.engine, conn.tables, batch[i]);
        conn.tables := tables';
        if refused { opsFailed := opsFailed + 1; }
        i := i + 1;
      }
      assert batch[..i] == batch;
    }

    method FlushCurrentBatch() returns (ok: bool)
      modifies this, conn
      ensures conn.faults >= old(conn.faults) && (ok <==> conn.faults == old(conn.faults))
      ensures State() == Flushed(conn.engine, old(State()), ok)
    {
      if ops == [] { return true; }
      var batch := ops;
      ops := [];
      var opsFailed := ApplyBatch(batch);
      ok := conn.Fsync();
      if !ok { return; }
      chunksCommitted := chunksCommitted + 1;
      totalOpsExecuted := totalOpsExecuted + (|batch| - opsFailed);
      totalOpsFailed := totalOpsFailed + opsFailed;
    }

    /** Shared by the four adders: push, then flush if full; a failed flush is not reported. */
    method Push(op: BatchOp)
      modifies this, conn
      ensures conn.faults >= old(conn.faults)
      ensures State() == Added(conn.engine, old(State()), op, conn.faults == old(conn.faults))
    {
      ops := ops + [op];
      if autoCommit && |ops| >= maxBatchSize {
        var ok := FlushCurrentBatch();
      }
    }

    method Execute() returns (r: Result<BatchResult>)
      modifies this, conn
      ensures conn.faults >= old(conn.faults)
      ensures State() == Flushed(conn.engine, old(State()), conn.faults == old(conn.faults))
      ensures r == if conn.faults == old(conn.faults) then Ok(ResultOf(State())) else Err(StorageError)
      ensures r.Ok? ==> r.value.opsExecuted == totalOpsExecuted && r.value.opsFailed == totalOpsFailed
      ensures r.Ok? ==> r.value.chunksCommitted == r.value.fsyncCount == chunksCommitted
    {
      var ok := true;
      if ops != [] {
        ok := FlushCurrentBatch();
      }
      r := if ok then Ok(BatchResult(totalOpsExecuted, totalOpsFailed, chunksCommitted, chunksCommitted))
           else Err(StorageError);
    }
  }
}
