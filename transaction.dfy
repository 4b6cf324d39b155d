/**
 * The transaction bridge of transaction.go, made sequential. In Go a goroutine (`run`)
 * holds the Spanner transaction open and serves operations sent over `txnOpCh` until the
 * channel is closed or `rollbackCh` fires; `Commit` and `Rollback` close the channels and
 * collect the outcome from `resultCh`.
 *
 * Here the goroutine's view is the sequence of events it has been handed (`Event`), and
 * `runTx`'s `for`/`select` loop is `RunTx`, which folds that sequence to the outcome the
 * loop returns (`TxLoop`). The Spanner client's `ReadWriteTransaction` is an oracle fixed
 * when the transaction begins: how many times it invokes the callback (none at all when it
 * fails before the first call, say for want of a session), and the error it returns given
 * the callback's results.
 */
module Transactions {
  import opened Wrappers
  import opened Errors

  /** What the `select` in `runTx` receives: an operation (by the error it returns), the closed op channel, or the rollback signal. */
  datatype Event = Op(result: Option<Error>) | Close | Rollback

  /** An event after which `runTx` returns, and what it returns. */
  predicate Terminal(e: Event) {
    e != Op(None)
  }

  function TerminalResult(e: Event): Option<Error>
    requires Terminal(e)
  {
    match e
    case Op(r) => r
    case Close => None
    case Rollback => Some(ErrRollback)
  }

  /** What `runTx` returns after the events `evs`: `None` while it is still waiting for one. */
  function TxLoop(evs: seq<Event>): Option<Option<Error>> {
    if evs == [] then None
    else if Terminal(evs[0]) then Some(TerminalResult(evs[0]))
    else TxLoop(evs[1..])
  }

  /** How many of the events `runTx` takes before it returns. */
  function Consumed(evs: seq<Event>): nat {
    if evs == [] then 0
    else if Terminal(evs[0]) then 1
    else 1 + Consumed(evs[1..])
  }

  /**
   * `runTx`: takes events in order; an operation that returns an error ends the loop with
   * that error, the closed op channel ends it with `result` (which is nil by then), the
   * rollback signal with `ErrRollback`. `done` is false if the events run out first.
   */
  method RunTx(evs: seq<Event>) returns (done: bool, outcome: Option<Error>, consumed: nat)
    ensures done <==> TxLoop(evs).Some?
    ensures done ==> outcome == TxLoop(evs).value
    ensures consumed == Consumed(evs)
  {
    var result: Option<Error> := None;
    var i := 0;
    while i < |evs|
      invariant i <= |evs| && result == None
      invariant TxLoop(evs) == TxLoop(evs[i..]) && Consumed(evs) == i + Consumed(evs[i..])
    {
      assert evs[i..][1..] == evs[i + 1..];
      match evs[i] {
        case Op(r) =>
          result := r;
          if result != None {
            return true, result, i + 1;
          }
        case Close =>
          return true, result, i + 1;
        case Rollback =>
          return true, Some(ErrRollback), i + 1;
      }
      i := i + 1;
    }
    return false, None, i;
  }

  /** The first terminal event decides the outcome, and nothing after it is taken. */
  lemma {:induction false} FirstTerminalDecides(evs: seq<Event>, k: nat)
    requires k < |evs| && Terminal(evs[k])
    requires forall i :: 0 <= i < k ==> evs[i] == Op(None)
    ensures TxLoop(evs) == Some(TerminalResult(evs[k]))
    ensures Consumed(evs) == k + 1
  {
    if k > 0 {
      FirstTerminalDecides(evs[1..], k - 1);
    }
  }

  /** The loop is still waiting exactly when every event so far is an operation that succeeded. */
  lemma {:induction false} WaitingIff(evs: seq<Event>)
    ensures TxLoop(evs).None? <==> forall i :: 0 <= i < |evs| ==> evs[i] == Op(None)
    ensures TxLoop(evs).None? ==> Consumed(evs) == |evs|
  {
    if evs != [] {
      WaitingIff(evs[1..]);
      if !Terminal(evs[0]) {
        assert forall i :: 1 <= i < |evs| ==> evs[i] == evs[1..][i - 1];
      }
    }
  }

  /** Once the loop has returned, later events change nothing: an operation sent afterwards never runs. */
  lemma {:induction false} DoneIsFinal(evs: seq<Event>, more: seq<Event>)
    requires TxLoop(evs).Some?
    ensures TxLoop(evs + more) == TxLoop(evs)
    ensures Consumed(evs + more) == Consumed(evs)
  {
    assert evs != [];
    if !Terminal(evs[0]) {
      assert (evs + more)[1..] == evs[1..] + more;
      DoneIsFinal(evs[1..], more);
    }
  }

  /** One more event for a waiting loop: it returns exactly when the event is terminal. */
  lemma {:induction false} StepWaiting(evs: seq<Event>, e: Event)
    requires TxLoop(evs).None?
    ensures TxLoop(evs + [e]) == if Terminal(e) then Some(TerminalResult(e)) else None
  {
    if evs != [] {
      assert (evs + [e])[1..] == evs[1..] + [e];
      StepWaiting(evs[1..], e);
    }
  }

  // ---------------------------------------------------------------------------------------
  // run

  /** The closure's captured `once` flag, which refuses every invocation after the first. */
  class OnceGuard {
    var once: bool

    constructor ()
      ensures !once
    {
      once := false;
    }

    /** The read-write callback: the first call runs the loop (whose result is `loop`), later ones report `ErrTxnRetry`. */
    method Call(loop: Option<Error>) returns (r: Option<Error>)
      modifies this
      ensures r == if old(once) then Some(ErrTxnRetry) else loop
      ensures once
    {
      if once {
        return Some(ErrTxnRetry);
      }
      once := true;
      r := loop;
    }
  }

  /** What the callback returns on each of `n` invocations. */
  function CallbackResults(loop: Option<Error>, n: nat): (rs: seq<Option<Error>>)
    ensures |rs| == n
  {
    if n == 0 then [] else CallbackResults(loop, n - 1) + [if n == 1 then loop else Some(ErrTxnRetry)]
  }

  /** Only the first invocation runs the loop; every retry is refused. */
  lemma {:induction false} OnlyFirstCallRuns(loop: Option<Error>, n: nat)
    ensures n > 0 ==> CallbackResults(loop, n)[0] == loop
    ensures forall i :: 1 <= i < n ==> CallbackResults(loop, n)[i] == Some(ErrTxnRetry)
  {
    if n > 0 {
      OnlyFirstCallRuns(loop, n - 1);
    }
  }

  /**
   * What `run` delivers on `resultCh`: the loop's result in read-only mode; in read-write
   * mode the client's error, or nil (the closed channel) when the client succeeds, given
   * the results of the `invocations` calls of the callback.
   */
  function Delivered(readonly: bool, loop: Option<Error>, invocations: nat,
                     client: seq<Option<Error>> -> Option<Error>): Option<Error>
  {
    if readonly then loop else client(CallbackResults(loop, invocations))
  }

  /** A transaction handed out by `BeginTx`, together with its goroutine. */
  class Transaction {
    const readonly: bool
    const invocations: nat                               // callback invocations by the client, possibly 0
    const client: seq<Option<Error>> -> Option<Error>    // ReadWriteTransaction's error from the callback results
    var opOpen: bool          // txnOpCh != nil
    var resultOpen: bool      // resultCh != nil
    var rollbackClosed: bool  // rollbackCh has been closed
    var err: Option<Error>
    var events: seq<Event>    // what the goroutine's select has been handed

    /**
     * Both channels live and die together; an outcome is recorded only once the loop has
     * returned. When the loop never runs, the outcome does not depend on `events`.
     */
    ghost predicate Valid()
      reads this
    {
      && (opOpen <==> resultOpen)
      && (opOpen ==> err.None?)
      && (!opOpen ==> TxLoop(events).Some? && err == Delivered(readonly, TxLoop(events).value, invocations, client))
    }

    /** Whether `runTx` runs at all: always in read-only mode, in read-write mode once the client calls the callback. */
    predicate Serving() {
      readonly || invocations > 0
    }

    /** `Running`: the op channel is still set. */
    predicate Running()
      reads this
    {
      opOpen
    }

    predicate Failed()
      reads this
    {
      err.Some?
    }

    /** `newTransaction` followed by `go run`: running, not failed, the loop waiting. */
    constructor (readonly: bool, invocations: nat, client: seq<Option<Error>> -> Option<Error>)
      ensures Valid() && Running() && !Failed() && events == [] && !rollbackClosed
      ensures this.readonly == readonly && this.invocations == invocations && this.client == client
    {
      this.readonly, this.invocations, this.client := readonly, invocations, client;
      opOpen, resultOpen, rollbackClosed := true, true, false;
      err := None;
      events := [];
    }

    /**
     * `t.txnOpCh <- op`: the goroutine takes the operation, whose error is `opResult`.
     * `ran` is false when the loop had already returned, or never ran: the operation then
     * stays in the channel's buffer and its sender waits for it forever.
     */
    method Submit(opResult: Option<Error>) returns (ran: bool)
      requires Running()
      modifies this
      ensures events == old(events) + [Op(opResult)]
      ensures ran <==> Serving() && TxLoop(old(events)).None?
      ensures opOpen == old(opOpen) && resultOpen == old(resultOpen)
      ensures rollbackClosed == old(rollbackClosed) && err == old(err)
    {
      var done, _, _ := RunTx(events);
      events := events + [Op(opResult)];
      ran := Serving() && !done;
    }

    /** `run`'s tail: how the loop's result reaches `resultCh`, through the once guard in read-write mode. */
    method Run(loop: Option<Error>) returns (res: Option<Error>)
      ensures res == Delivered(readonly, loop, invocations, client)
    {
      if readonly {
        return loop;
      }
      var guard := new OnceGuard();
      var results: seq<Option<Error>> := [];
      for n := 0 to invocations
        invariant results == CallbackResults(loop, n)
        invariant guard.once <==> n > 0
      {
        var r := guard.Call(loop);
        results := results + [r];
      }
      var terr := client(results);
      if terr != None {
        return terr;
      }
      return None;
    }

    /** `finish`: closes the op channel (the loop sees `last`), stores the outcome and clears both channels. */
    method Finish(last: Event)
      requires Valid() && Running() && Terminal(last)
      modifies this
      ensures Valid() && !Running() && !resultOpen
      ensures events == old(events) + [last] && rollbackClosed == old(rollbackClosed)
      ensures err == Delivered(readonly, TxLoop(events).value, invocations, client)
    {
      events := events + [last];
      if TxLoop(old(events)).Some? {
        DoneIsFinal(old(events), [last]);
      } else {
        StepWaiting(old(events), last);
      }
      var done, loop, _ := RunTx(events);
      err := Run(loop);
      opOpen, resultOpen := false, false;
    }

    /** `Commit`: finishes and reports `ErrTxnFailed` exactly when the outcome is an error. */
    method Commit() returns (r: Option<Error>)
      requires Valid() && Running()
      modifies this
      ensures Valid() && !Running() && events == old(events) + [Close]
      ensures rollbackClosed == old(rollbackClosed)
      ensures err == Delivered(readonly, TxLoop(events).value, invocations, client)
      ensures r == if Failed() then Some(ErrTxnFailed) else None
    {
      Finish(Close);
      if Failed() {
        return Some(ErrTxnFailed);
      }
      return None;
    }

    /**
     * `Rollback`: closes the rollback channel, then finishes. A loop that is still waiting
     * sees both channels ready, and `select` picks either; `rollbackWins` is that choice.
     * The rollback's own `ErrRollback` is reported as nil; any other outcome as itself.
     */
    method Rollback(rollbackWins: bool) returns (r: Option<Error>)
      requires Valid() && Running()
      modifies this
      ensures Valid() && !Running() && rollbackClosed
      ensures events == old(events) + [if rollbackWins then Event.Rollback else Close]
      ensures err == Delivered(readonly, TxLoop(events).value, invocations, client)
      ensures r == if err == Some(ErrRollback) then None else err
    {
      rollbackClosed := true;
      Finish(if rollbackWins then Event.Rollback else Close);
      if err != Some(ErrRollback) {
        return err;
      }
      return None;
    }
  }

  /** `running` on a possibly nil transaction. */
  predicate RunningOf(t: Transaction?)
    reads t
  {
    t != null && t.Running()
  }

  /** `failed` cannot hold while the transaction runs: the error is assigned only by `finish`. */
  lemma RunningNeverFailed(t: Transaction)
    requires t.Valid()
    ensures t.Running() ==> !t.Failed()
    ensures !t.Running() ==> (t.Failed() <==> Delivered(t.readonly, TxLoop(t.events).value, t.invocations, t.client).Some?)
  {
  }

  /** A read-write transaction whose client succeeds has a nil outcome, whatever the loop returned. */
  lemma ReadWriteSuccess(loop: Option<Error>, invocations: nat, client: seq<Option<Error>> -> Option<Error>)
    requires client(CallbackResults(loop, invocations)) == None
    ensures Delivered(false, loop, invocations, client) == None
  {
  }

  /** A read-only transaction delivers exactly what the loop returned. */
  lemma ReadOnlyOutcome(loop: Option<Error>, invocations: nat, client: seq<Option<Error>> -> Option<Error>)
    ensures Delivered(true, loop, invocations, client) == loop
  {
  }

  /**
   * A read-write transaction whose client never calls the callback: its outcome is the
   * client's error, whatever was sent to the loop that never ran.
   */
  lemma UnservedOutcome(t: Transaction)
    requires t.Valid() && !t.Serving() && !t.Running()
    ensures t.err == t.client([])
  {
  }
}
