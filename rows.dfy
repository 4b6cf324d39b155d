/**
 * The result sets of rows.go: `convert`, which maps a Spanner column value to a Go value by
 * its type code, `decodeValues`, which fills the caller's `dest` slice in place, the `Rows`
 * cursor with its one-row lookahead and its row iterator, and the `SubRows` cursor over a
 * decoded STRUCT array.
 *
 * Spanner's own values are oracles: a column carries its type code, a null flag, an opaque
 * payload, the elements of a STRUCT array, and the error its decoding would report.
 */
module ResultSets {
  import opened Wrappers
  import opened Text
  import opened Errors

  /** The `sppb.TypeCode` values. */
  datatype TypeCode =
    | TYPE_CODE_UNSPECIFIED | BOOL | INT64 | FLOAT64 | TIMESTAMP | DATE | STRING | BYTES
    | ARRAY | STRUCT | NUMERIC | JSON

  /** A `spanner.GenericColumnValue` as `Decode` sees it. */
  datatype Column = Column(
    code: TypeCode,
    isNull: bool,           // the value is SQL NULL
    payload: nat,          // the decoded scalar, opaque
    elems: seq<NullRow>,   // the decoded elements, for a STRUCT array
    decodeErr: Option<Error>)

  /** A `spanner.Row`: its column names and values. */
  datatype Row = Row(names: seq<Bytes>, cols: seq<Column>)

  /** A `spanner.NullRow`. */
  datatype NullRow = NullRow(row: Row, valid: bool)

  /**
   * A `driver.Value`: nil, a scalar of one of the six nullable types, a `[]byte` (which
   * may be a nil slice inside a non-nil interface), or a fresh `*SubRows`.
   */
  datatype Value =
    | Nil
    | Scalar(code: TypeCode, payload: nat)
    | Blob(nilSlice: bool, payload: nat)
    | Sub(cols: seq<Bytes>, rows: seq<NullRow>)

  /** The six types `convert` decodes into a `spanner.NullXxx`. */
  predicate Nullable(code: TypeCode) {
    code in {BOOL, INT64, FLOAT64, TIMESTAMP, DATE, STRING}
  }

  /** `Row.Column(i, &gcv)`: the i-th column, or the client's index error past the last one. */
  function ColumnAt(row: Row, i: nat): (r: Result<Column, Error>)
    ensures r.Success? <==> i < |row.cols|
    ensures r.Success? ==> r.value == row.cols[i]
    ensures r.Failure? ==> r.error == ErrColumnIndex
  {
    if i < |row.cols| then Success(row.cols[i]) else Failure(ErrColumnIndex)
  }

  /** `convert`. */
  function Convert(c: Column): Result<Value, Error> {
    if Nullable(c.code) then
      if c.decodeErr.Some? then Failure(c.decodeErr.value)
      else if c.isNull then Success(Nil)
      else Success(Scalar(c.code, c.payload))
    else if c.code == BYTES then
      if c.decodeErr.Some? then Failure(c.decodeErr.value) else Success(Blob(c.isNull, c.payload))
    else if c.code == STRUCT then
      if c.decodeErr.Some? then Failure(c.decodeErr.value)
      else if c.isNull || c.elems == [] then Success(Nil)
      else Success(Sub(c.elems[0].row.names, c.elems))
    else Failure(ErrUnsupported)
  }

  /** A NULL of the six nullable types is nil; anything else is its payload. */
  lemma ConvertNullable(c: Column)
    requires Nullable(c.code) && c.decodeErr.None?
    ensures Convert(c) == Success(Nil) <==> c.isNull
    ensures !c.isNull ==> Convert(c) == Success(Scalar(c.code, c.payload))
  {
  }

  /** BYTES has no null branch: even a NULL gives a (nil) byte slice, never nil. */
  lemma ConvertBytes(c: Column)
    requires c.code == BYTES && c.decodeErr.None?
    ensures Convert(c) == Success(Blob(c.isNull, c.payload))
    ensures Convert(c) != Success(Nil)
  {
  }

  /** A STRUCT array with no element is nil; otherwise a cursor whose columns are the first element's. */
  lemma ConvertStruct(c: Column)
    requires c.code == STRUCT && c.decodeErr.None?
    ensures Convert(c) == Success(Nil) <==> (c.isNull || c.elems == [])
    ensures !c.isNull && c.elems != [] ==> Convert(c) == Success(Sub(c.elems[0].row.names, c.elems))
  {
  }

  /** Codes without a case are unsupported whatever the value; the others report their decoding error. */
  lemma ConvertErrors(c: Column)
    ensures Convert(c) == Failure(ErrUnsupported) <==>
      (!Nullable(c.code) && c.code != BYTES && c.code != STRUCT) || c.decodeErr == Some(ErrUnsupported)
    ensures (Nullable(c.code) || c.code == BYTES || c.code == STRUCT) && c.decodeErr.Some? ==>
      Convert(c) == Failure(c.decodeErr.value)
    ensures Convert(c).Failure? <==>
      (!Nullable(c.code) && c.code != BYTES && c.code != STRUCT) || c.decodeErr.Some?
  {
  }

  // ---------------------------------------------------------------------------------------
  // decodeValues

  /** What column `i` of `row` converts to. */
  function ValueAt(row: Row, i: nat): Result<Value, Error> {
    match ColumnAt(row, i)
    case Failure(e) => Failure(e)
    case Success(c) => Convert(c)
  }

  /** The contents of `dest` and the error after decoding from index `i` on. */
  function DecodeFrom(dest: seq<Value>, row: Row, i: nat): (seq<Value>, Option<Error>)
    requires i <= |dest|
    decreases |dest| - i
  {
    if i == |dest| then (dest, None)
    else match ValueAt(row, i)
      case Failure(e) => (dest, Some(e))
      case Success(v) => DecodeFrom(dest[i := v], row, i + 1)
  }

  /** The first index from `i` on whose column does not convert, or `n`. */
  function FirstFailure(row: Row, i: nat, n: nat): (k: nat)
    requires i <= n
    ensures i <= k <= n
    ensures forall j :: i <= j < k ==> ValueAt(row, j).Success?
    ensures k < n ==> ValueAt(row, k).Failure?
    decreases n - i
  {
    if i == n || ValueAt(row, i).Failure? then i else FirstFailure(row, i + 1, n)
  }

  /**
   * First-error semantics: the entries before the first failing column hold the converted
   * values, the others are as they were, and the error is that column's.
   */
  lemma {:induction false} DecodeFromFirstError(dest: seq<Value>, row: Row, i: nat)
    requires i <= |dest|
    ensures var (d, err) := DecodeFrom(dest, row, i);
      var k := FirstFailure(row, i, |dest|);
      && |d| == |dest|
      && (forall j :: 0 <= j < i ==> d[j] == dest[j])
      && (forall j :: i <= j < k ==> d[j] == ValueAt(row, j).value)
      && (forall j :: k <= j < |dest| ==> d[j] == dest[j])
      && err == (if k < |dest| then Some(ValueAt(row, k).error) else None)
    decreases |dest| - i
  {
    if i < |dest| && ValueAt(row, i).Success? {
      DecodeFromFirstError(dest[i := ValueAt(row, i).value], row, i + 1);
    }
  }

  /** `decodeValues`: converts column `i` into `dest[i]` for each index, stopping at the first error. */
  method DecodeValues(dest: array<Value>, row: Row) returns (err: Option<Error>)
    modifies dest
    ensures (dest[..], err) == DecodeFrom(old(dest[..]), row, 0)
  {
    for i := 0 to dest.Length
      invariant DecodeFrom(dest[..], row, i) == DecodeFrom(old(dest[..]), row, 0)
    {
      var c := ColumnAt(row, i);
      if c.Failure? {
        return Some(c.error);
      }
      var val := Convert(c.value);
      if val.Failure? {
        return Some(val.error);
      }
      ghost var before := dest[..];
      dest[i] := val.value;
      assert dest[..] == before[i := val.value];
    }
    return None;
  }

  // ---------------------------------------------------------------------------------------
  // Row iterators

  /**
   * A `spanner.RowIterator`, scripted: it yields the results of `script` in turn, then
   * `iterator.Done`; after `Stop` it yields `afterStop`.
   */
  class RowIterator {
    const script: seq<Result<Row, Error>>
    const afterStop: Error
    var pos: nat
    var stopped: bool

    ghost predicate Valid()
      reads this
    {
      pos <= |script|
    }

    constructor (script: seq<Result<Row, Error>>, afterStop: Error)
      ensures Valid() && this.script == script && this.afterStop == afterStop
      ensures pos == 0 && !stopped
    {
      this.script, this.afterStop := script, afterStop;
      pos, stopped := 0, false;
    }

    /** What the next call of `Next` returns. */
    function Upcoming(): Result<Row, Error>
      reads this
    {
      if stopped then Failure(afterStop)
      else if pos < |script| then script[pos]
      else Failure(IteratorDone)
    }

    method Next() returns (r: Result<Row, Error>)
      requires Valid()
      modifies this
      ensures Valid() && r == old(Upcoming()) && stopped == old(stopped)
      ensures pos == if !old(stopped) && old(pos) < |script| then old(pos) + 1 else old(pos)
    {
      r := Upcoming();
      if !stopped && pos < |script| {
        pos := pos + 1;
      }
    }

    method Stop()
      modifies this
      ensures stopped && pos == old(pos)
    {
      stopped := true;
    }
  }

  // ---------------------------------------------------------------------------------------
  // Rows

  /** `Rows`: the column names, the lookahead row `r1`, and the iterator `ri`; either may be absent. */
  class Rows {
    var cols: seq<Bytes>
    var r1: Option<Row>
    var ri: RowIterator?

    ghost predicate Valid()
      reads this, ri
    {
      ri != null ==> ri.Valid()
    }

    constructor (cols: seq<Bytes>, r1: Option<Row>, ri: RowIterator?)
      requires ri != null ==> ri.Valid()
      ensures Valid() && this.cols == cols && this.r1 == r1 && this.ri == ri
    {
      this.cols, this.r1, this.ri := cols, r1, ri;
    }

    /** `Columns`. */
    function Columns(): (c: seq<Bytes>)
      reads this
      ensures c == cols
    {
      cols
    }

    /** The zero `Rows{}`: no columns, no lookahead row, no iterator. */
    predicate Empty()
      reads this
    {
      cols == [] && r1.None? && ri == null
    }

    /** `Close`: stops the iterator if there is one, and never fails. */
    method Close() returns (err: Option<Error>)
      requires Valid()
      modifies ri
      ensures err == None
      ensures ri != null ==> ri.stopped && ri.pos == old(ri.pos)
    {
      if ri != null {
        ri.Stop();
      }
      return None;
    }

    /**
     * `Next`: EOF when there is neither a lookahead row nor an iterator; otherwise the
     * lookahead row first (and it is cleared), then the iterator's rows, `Done` becoming EOF.
     */
    method Next(dest: array<Value>) returns (err: Option<Error>)
      requires Valid()
      modifies this, ri, dest
      ensures Valid() && cols == old(cols) && ri == old(ri)
      ensures old(r1).None? && ri == null ==> err == Some(EOF) && r1 == None && dest[..] == old(dest[..])
      ensures old(r1).Some? ==>
        && r1 == None && (ri != null ==> ri.pos == old(ri.pos) && ri.stopped == old(ri.stopped))
        && (dest[..], err) == DecodeFrom(old(dest[..]), old(r1).value, 0)
      ensures old(r1).None? && ri != null ==>
        && r1 == None && ri.stopped == old(ri.stopped)
        && ri.pos == (if !old(ri.stopped) && old(ri.pos) < |ri.script| then old(ri.pos) + 1 else old(ri.pos))
        && match old(ri.Upcoming())
           case Failure(e) => err == Some(if e == IteratorDone then EOF else e) && dest[..] == old(dest[..])
           case Success(row) => (dest[..], err) == DecodeFrom(old(dest[..]), row, 0)
    {
      if r1.None? && ri == null {
        return Some(EOF);
      }
      var row: Row;
      if r1.Some? {
        row := r1.value;
        r1 := None;
      } else {
        var res := ri.Next();
        if res.Failure? {
          if res.error == IteratorDone {
            return Some(EOF);
          }
          return Some(res.error);
        }
        row := res.value;
      }
      err := DecodeValues(dest, row);
    }
  }

  /** An exhausted `Rows` stays exhausted: EOF on every call, nothing written. */
  method NextOnEmpty(r: Rows, dest: array<Value>) returns (err: Option<Error>)
    requires r.Valid() && r.r1.None? && r.ri == null
    modifies r, dest
    ensures err == Some(EOF) && r.r1.None? && r.ri == null && dest[..] == old(dest[..])
  {
    err := r.Next(dest);
  }

  // ---------------------------------------------------------------------------------------
  // SubRows

  /** The first valid row at or after `i`. */
  ghost function NextValid(rows: seq<NullRow>, i: nat): (j: nat)
    requires exists j :: i <= j < |rows| && rows[j].valid
    ensures i <= j < |rows| && rows[j].valid
    ensures forall k :: i <= k < j ==> !rows[k].valid
    decreases |rows| - i
  {
    if rows[i].valid then i else NextValid(rows, i + 1)
  }

  /** `SubRows`: a cursor over the elements of a STRUCT array. */
  class SubRows {
    const cols: seq<Bytes>
    const rows: seq<NullRow>
    var index: nat

    ghost predicate Valid()
      reads this
    {
      index <= |rows|
    }

    /** A `Sub` value as the fresh `*SubRows` `convert` returns, at index 0. */
    constructor (v: Value)
      requires v.Sub?
      ensures Valid() && cols == v.cols && rows == v.rows && index == 0
    {
      cols, rows := v.cols, v.rows;
      index := 0;
    }

    /** `Columns`: the first element's column names, fixed when the cursor was made. */
    function Columns(): (c: seq<Bytes>)
      reads this
      ensures c == cols
    {
      cols
    }

    /** `Close`: nothing to release, and it never fails. */
    method Close() returns (err: Option<Error>)
      ensures err == None
    {
      return None;
    }

    /** A valid row lies at or after the index. */
    ghost predicate HasNext()
      reads this
    {
      exists j :: index <= j < |rows| && rows[j].valid
    }

    /**
     * `Next`: skips the invalid rows, decodes the next valid one and leaves the index just
     * past it. There is no bounds check: with no valid row ahead, the skipping loop runs
     * off the end of the slice and panics, which `panics` reports.
     */
    method Next(dest: array<Value>) returns (err: Option<Error>, panics: bool)
      requires Valid()
      modifies this, dest
      ensures Valid()
      ensures panics <==> !old(HasNext())
      ensures panics ==> index == |rows| && err == None && dest[..] == old(dest[..])
      ensures !panics ==> old(HasNext()) && index == NextValid(rows, old(index)) + 1
      ensures !panics ==> (dest[..], err) == DecodeFrom(old(dest[..]), rows[index - 1].row, 0)
    {
      while index < |rows| && !rows[index].valid
        invariant Valid() && dest[..] == old(dest[..])
        invariant old(index) <= index
        invariant forall k :: old(index) <= k < index ==> !rows[k].valid
        decreases |rows| - index
      {
        index := index + 1;
      }
      if index == |rows| {
        return None, true;
      }
      SkipInvalid(rows, old(index), index);
      var row := rows[index].row;
      index := index + 1;
      err := DecodeValues(dest, row);
      panics := false;
    }
  }

  /** Skipping the invalid rows from `i` to a valid row `j` lands on the next valid row. */
  lemma {:induction false} SkipInvalid(rows: seq<NullRow>, i: nat, j: nat)
    requires i <= j < |rows| && rows[j].valid
    requires forall k :: i <= k < j ==> !rows[k].valid
    ensures exists k :: i <= k < |rows| && rows[k].valid
    ensures NextValid(rows, i) == j
    decreases j - i
  {
    if i < j {
      SkipInvalid(rows, i + 1, j);
    }
  }
}
