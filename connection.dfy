/**
 * The connection of connection.go: `BeginTx`'s single transaction slot, the routing of
 * `exec` and `query` either through the running transaction's goroutine or straight to the
 * client, the one-row lookahead of `query`, `Result`, and the statement methods of
 * statement.go that lead here.
 *
 * The Spanner client is an oracle: what `Update` returns, the error of an implicit
 * `ReadWriteTransaction`, and the row iterators `Query` hands back are parameters.
 */
module Connection {
  import opened Wrappers
  import opened Text
  import opened Errors
  import opened StatementCompiler
  import opened ResultSets
  import opened Transactions

  /** `Result`: the affected-row count, or an error. */
  datatype ExecResult = ExecResult(count: int, err: Option<Error>)

  /** `RowsAffected`: the error with count 0 when there is one, the count otherwise. */
  function RowsAffected(r: ExecResult): (res: (int, Option<Error>))
    ensures res.1 == r.err
    ensures res.0 == if r.err.Some? then 0 else r.count
  {
    if r.err.Some? then (0, r.err) else (r.count, None)
  }

  /** `LastInsertId` is not supported. */
  function LastInsertId(r: ExecResult): (res: (int, Option<Error>))
    ensures res == (0, Some(ErrUnsupported))
  {
    (0, Some(ErrUnsupported))
  }

  /** `update`: the count of a successful `Update`, or its error and no result. */
  function Update(rc: Result<int, Error>): (r: (Option<ExecResult>, Option<Error>))
    ensures r.0.Some? <==> rc.Success?
    ensures rc.Success? ==> r == (Some(ExecResult(rc.value, None)), None)
    ensures rc.Failure? ==> r.1 == Some(rc.error)
  {
    match rc
    case Success(n) => (Some(ExecResult(n, None)), None)
    case Failure(e) => (None, Some(e))
  }

  /** What a call that may hand its operation to the transaction goroutine ends with. */
  datatype Reply<T> =
    | Returned(value: Option<T>, err: Option<Error>)
    | Blocked   // the operation was never taken up: the caller waits forever

  /** A connection; only its transaction slot is state here. */
  class Conn {
    var txn: Transaction?

    constructor ()
      ensures txn == null
    {
      txn := null;
    }

    /** `txnRunning`: false without a transaction, else whether it runs. */
    predicate TxnRunning()
      reads this, txn
    {
      if txn == null then false else txn.Running()
    }

    /** `BeginTx`: refused while the held transaction runs; otherwise a new one fills the slot. */
    method BeginTx(readOnly: bool, invocations: nat, client: seq<Option<Error>> -> Option<Error>)
      returns (t: Transaction?, err: Option<Error>)
      modifies this
      ensures old(TxnRunning()) ==> t == null && err == Some(ErrTxnStarted) && txn == old(txn)
      ensures !old(TxnRunning()) ==>
        && err == None && t == txn && fresh(t)
        && t.Valid() && t.Running() && !t.Failed() && t.readonly == readOnly && t.events == []
        && t.invocations == invocations && t.client == client && !t.rollbackClosed
    {
      if txn != null && txn.Running() {
        return null, Some(ErrTxnStarted);
      }
      txn := new Transaction(readOnly, invocations, client);
      return txn, None;
    }

    /**
     * `exec`. Inside a running transaction: `ErrTxnFailed` if it has failed; otherwise the
     * operation goes to the goroutine. There a read-only transaction gives the caller
     * `ErrTxnReadOnly` while the operation itself succeeds, and a read-write one runs
     * `Update` (result `rc`), whose error goes both to the caller and into the loop. The
     * caller blocks when the loop has already returned or never runs. Outside a transaction,
     * `Update` runs in an implicit `ReadWriteTransaction`, whose error `terr` wins over the
     * callback's, and the transaction slot is left alone.
     */
    method Exec(rc: Result<int, Error>, terr: Option<Error>) returns (r: Reply<ExecResult>)
      modifies txn
      ensures txn == old(txn)
      ensures !old(RunningOf(txn)) ==>
        r == (if terr.Some? then Returned(None, terr) else Returned(Update(rc).0, Update(rc).1))
      ensures old(RunningOf(txn)) && old(txn.Failed()) ==>
        r == Returned(None, Some(ErrTxnFailed)) && txn.events == old(txn.events)
      ensures old(RunningOf(txn)) && !old(txn.Failed()) ==>
        var opResult := if txn.readonly then None else Update(rc).1;
        && txn.events == old(txn.events) + [Op(opResult)]
        && (r.Blocked? <==> !txn.Serving() || old(TxLoop(txn.events)).Some?)
        && (r.Returned? ==> r == if txn.readonly then Returned(None, Some(ErrTxnReadOnly))
                                 else Returned(Update(rc).0, Update(rc).1))
      ensures !old(RunningOf(txn)) && txn != null ==> txn.events == old(txn.events)
      ensures txn != null ==> txn.opOpen == old(txn.opOpen) && txn.err == old(txn.err)
      ensures txn != null ==> txn.resultOpen == old(txn.resultOpen) && txn.rollbackClosed == old(txn.rollbackClosed)
      ensures txn != null && old(txn.Valid()) ==> txn.Valid()
    {
      if RunningOf(txn) {
        if txn.Failed() {
          return Returned(None, Some(ErrTxnFailed));
        }
        var result: Option<ExecResult>, err: Option<Error>, opResult: Option<Error>;
        if txn.readonly {
          result, err, opResult := None, Some(ErrTxnReadOnly), None;
        } else {
          var u := Update(rc);
          result, err := u.0, u.1;
          opResult := err;
        }
        var ran := txn.Submit(opResult);
        if !ran {
          return Blocked;
        }
        return Returned(result, err);
      }
      var u := Update(rc);
      if terr.Some? {
        return Returned(None, terr);
      }
      return Returned(u.0, u.1);
    }

    /**
     * `query`. Inside a running transaction the operation takes the read-only handle's
     * iterator `roIt` if there is one and the read-write handle's `rwIt` otherwise, and
     * always succeeds, unless the caller blocks as in `Exec`; outside one the iterator is
     * `singleIt`. Then the lookahead.
     */
    method Query(roIt: RowIterator, rwIt: RowIterator, singleIt: RowIterator) returns (r: Reply<Rows>)
      requires roIt.Valid() && rwIt.Valid() && singleIt.Valid()
      modifies txn, roIt, rwIt, singleIt
      ensures txn == old(txn)
      ensures old(RunningOf(txn)) && old(txn.Failed()) ==>
        r == Returned(None, Some(ErrTxnFailed)) && txn.events == old(txn.events)
      ensures old(RunningOf(txn)) && !old(txn.Failed()) ==>
        && txn.events == old(txn.events) + [Op(None)]
        && (r.Blocked? <==> !txn.Serving() || old(TxLoop(txn.events)).Some?)
        && (r.Returned? ==> (if txn.readonly then LookaheadOf(r, old(roIt.Upcoming()), roIt)
                                  else LookaheadOf(r, old(rwIt.Upcoming()), rwIt)))
      ensures !old(RunningOf(txn)) ==> r.Returned? && LookaheadOf(r, old(singleIt.Upcoming()), singleIt)
      ensures roIt.Valid() && rwIt.Valid() && singleIt.Valid()
      ensures r.Returned? && r.value.Some? ==> fresh(r.value.value) && r.value.value.Valid()
      ensures r.Blocked? || (old(RunningOf(txn)) && old(txn.Failed())) ==> unchanged(roIt, rwIt, singleIt)
      ensures r.Returned? && !(old(RunningOf(txn)) && old(txn.Failed())) ==>
        var ri := if !old(RunningOf(txn)) then singleIt else if txn.readonly then roIt else rwIt;
        && Advanced(ri, old(ri.pos), old(ri.stopped), old(ri.Upcoming()))
        && (roIt != ri ==> unchanged(roIt)) && (rwIt != ri ==> unchanged(rwIt))
        && (singleIt != ri ==> unchanged(singleIt))
      ensures !old(RunningOf(txn)) && txn != null ==> txn.events == old(txn.events)
      ensures txn != null ==> txn.opOpen == old(txn.opOpen) && txn.err == old(txn.err)
      ensures txn != null ==> txn.resultOpen == old(txn.resultOpen) && txn.rollbackClosed == old(txn.rollbackClosed)
      ensures txn != null && old(txn.Valid()) ==> txn.Valid()
    {
      var ri: RowIterator;
      if RunningOf(txn) {
        if txn.Failed() {
          return Returned(None, Some(ErrTxnFailed));
        }
        ri := if txn.readonly then roIt else rwIt;
        var ran := txn.Submit(None);
        if !ran {
          return Blocked;
        }
      } else {
        ri := singleIt;
      }
      var rows, err := Lookahead(ri);
      return Returned(rows, err);
    }
  }

  /**
   * The three outcomes of the lookahead on `ri`, whose first `Next` was `first`, as
   * `Lookahead` states them, for `Query`'s result.
   */
  predicate LookaheadOf(r: Reply<Rows>, first: Result<Row, Error>, ri: RowIterator)
    reads ri, if r.Returned? && r.value.Some? then {r.value.value} else {}
  {
    && r.Returned?
    && match first
       case Failure(e) =>
         if e == IteratorDone then r.err == None && r.value.Some? && r.value.value.Empty()
         else r == Returned(None, Some(e)) && ri.stopped
       case Success(row) =>
         && r.err == None && r.value.Some?
         && r.value.value.cols == row.names && r.value.value.r1 == Some(row)
         && r.value.value.ri == ri
  }

  /**
   * The iterator after the lookahead, which was at `pos0`, stopped or not as `stopped0`, and
   * about to yield `first`: `Next` moved it past a scripted result, and an error other than
   * `Done` stopped it.
   */
  ghost predicate Advanced(ri: RowIterator, pos0: nat, stopped0: bool, first: Result<Row, Error>)
    reads ri
  {
    && ri.Valid()
    && ri.pos == (if !stopped0 && pos0 < |ri.script| then pos0 + 1 else pos0)
    && ri.stopped == (stopped0 || (first.Failure? && first.error != IteratorDone))
  }

  /**
   * The lookahead of `query`: `Done` at once gives an empty `Rows` and no error; any other
   * error stops the iterator and is returned; otherwise the `Rows` holds the first row's
   * column names, the row itself and the iterator.
   */
  method Lookahead(ri: RowIterator) returns (rows: Option<Rows>, err: Option<Error>)
    requires ri.Valid()
    modifies ri
    ensures Advanced(ri, old(ri.pos), old(ri.stopped), old(ri.Upcoming()))
    ensures LookaheadOf(Returned(rows, err), old(ri.Upcoming()), ri)
    ensures rows.Some? ==> fresh(rows.value) && rows.value.Valid()
  {
    var res := ri.Next();
    if res.Failure? {
      if res.error == IteratorDone {
        var empty := new Rows([], None, null);
        return Some(empty), None;
      }
      ri.Stop();
      return None, Some(res.error);
    }
    var full := new Rows(res.value.names, Some(res.value), ri);
    return Some(full), None;
  }

  /**
   * `Statement.Exec` by way of `ExecContext`: the values become ordinals 1, 2, …, the
   * Spanner statement is bound, and a count mismatch fails before the connection is used.
   */
  method StatementExec<V>(s: Statement, c: Conn, vals: seq<V>, rc: Result<int, Error>, terr: Option<Error>)
    returns (r: Reply<ExecResult>)
    modifies c.txn
    ensures NumInput(s) != |vals| ==> r == Returned(None, Some(ErrArgCount))
    ensures NumInput(s) != |vals| ==> c.txn == null || c.txn.events == old(c.txn.events)
    ensures NumInput(s) == |vals| && !old(RunningOf(c.txn)) ==>
      r == (if terr.Some? then Returned(None, terr) else Returned(Update(rc).0, Update(rc).1))
    ensures NumInput(s) == |vals| && old(RunningOf(c.txn)) && old(c.txn.Failed()) ==>
      r == Returned(None, Some(ErrTxnFailed)) && c.txn.events == old(c.txn.events)
    ensures NumInput(s) == |vals| && old(RunningOf(c.txn)) && !old(c.txn.Failed()) ==>
      var opResult := if c.txn.readonly then None else Update(rc).1;
      && c.txn.events == old(c.txn.events) + [Op(opResult)]
      && (r.Blocked? <==> !c.txn.Serving() || old(TxLoop(c.txn.events)).Some?)
      && (r.Returned? ==> r == if c.txn.readonly then Returned(None, Some(ErrTxnReadOnly))
                               else Returned(Update(rc).0, Update(rc).1))
    ensures !old(RunningOf(c.txn)) && c.txn != null ==> c.txn.events == old(c.txn.events)
    ensures c.txn != null ==> c.txn.opOpen == old(c.txn.opOpen) && c.txn.err == old(c.txn.err)
    ensures c.txn != null ==> c.txn.resultOpen == old(c.txn.resultOpen) && c.txn.rollbackClosed == old(c.txn.rollbackClosed)
    ensures c.txn != null && old(c.txn.Valid()) ==> c.txn.Valid()
  {
    var nv := NamedArgs(vals);
    var stmt := SpannerStatement(s, nv);
    if stmt.Failure? {
      return Returned(None, Some(stmt.error));
    }
    r := c.Exec(rc, terr);
  }

  /** `Statement.Query` by way of `QueryContext`. */
  method StatementQuery<V>(s: Statement, c: Conn, vals: seq<V>,
                           roIt: RowIterator, rwIt: RowIterator, singleIt: RowIterator)
    returns (r: Reply<Rows>)
    requires roIt.Valid() && rwIt.Valid() && singleIt.Valid()
    modifies c.txn, roIt, rwIt, singleIt
    ensures NumInput(s) != |vals| ==> r == Returned(None, Some(ErrArgCount))
    ensures NumInput(s) == |vals| && !old(RunningOf(c.txn)) ==> r.Returned? && LookaheadOf(r, old(singleIt.Upcoming()), singleIt)
    ensures NumInput(s) == |vals| && old(RunningOf(c.txn)) && old(c.txn.Failed()) ==>
      r == Returned(None, Some(ErrTxnFailed)) && c.txn.events == old(c.txn.events)
    ensures NumInput(s) == |vals| && old(RunningOf(c.txn)) && !old(c.txn.Failed()) ==>
      && c.txn.events == old(c.txn.events) + [Op(None)]
      && (r.Blocked? <==> !c.txn.Serving() || old(TxLoop(c.txn.events)).Some?)
      && (r.Returned? ==> (if c.txn.readonly then LookaheadOf(r, old(roIt.Upcoming()), roIt)
                                else LookaheadOf(r, old(rwIt.Upcoming()), rwIt)))
    ensures roIt.Valid() && rwIt.Valid() && singleIt.Valid()
    ensures r.Returned? && r.value.Some? ==> fresh(r.value.value) && r.value.value.Valid()
    ensures NumInput(s) != |vals| || r.Blocked? || (old(RunningOf(c.txn)) && old(c.txn.Failed())) ==>
      unchanged(roIt, rwIt, singleIt)
    ensures NumInput(s) == |vals| && r.Returned? && !(old(RunningOf(c.txn)) && old(c.txn.Failed())) ==>
      var ri := if !old(RunningOf(c.txn)) then singleIt else if c.txn.readonly then roIt else rwIt;
      && Advanced(ri, old(ri.pos), old(ri.stopped), old(ri.Upcoming()))
      && (roIt != ri ==> unchanged(roIt)) && (rwIt != ri ==> unchanged(rwIt))
      && (singleIt != ri ==> unchanged(singleIt))
    ensures NumInput(s) != |vals| && c.txn != null ==> c.txn.events == old(c.txn.events)
    ensures !old(RunningOf(c.txn)) && c.txn != null ==> c.txn.events == old(c.txn.events)
    ensures c.txn != null ==> c.txn.opOpen == old(c.txn.opOpen) && c.txn.err == old(c.txn.err)
    ensures c.txn != null ==> c.txn.resultOpen == old(c.txn.resultOpen) && c.txn.rollbackClosed == old(c.txn.rollbackClosed)
    ensures c.txn != null && old(c.txn.Valid()) ==> c.txn.Valid()
  {
    var nv := NamedArgs(vals);
    var stmt := SpannerStatement(s, nv);
    if stmt.Failure? {
      return Returned(None, Some(stmt.error));
    }
    r := c.Query(roIt, rwIt, singleIt);
  }
}
