/**
 * The placeholder compiler of statement.go: a single left-to-right byte scan that rewrites
 * `?` and `$N` placeholders into Spanner's `@param_N` named parameters, and the binding of
 * positional arguments to those names.
 *
 * The scan is specified by `Continue`/`Handle`/`AfterErrorByte`, which read the remaining
 * input; `ParseStatement` is the Go loop itself, proved to compute `Compile`.
 */
module StatementCompiler {
  import opened Wrappers
  import opened Text
  import opened Errors

  /** The largest value `strconv.ParseInt(_, 10, 64)` accepts. */
  const MaxInt64: nat := 0x7FFF_FFFF_FFFF_FFFF

  /** `paramName(p)`: the Spanner parameter name of placeholder `p`. */
  function ParamName(p: nat): Bytes {
    "param_" + Decimal(p)
  }

  /** Distinct placeholders get distinct names. */
  lemma ParamNameInjective(p: nat, p': nat)
    requires ParamName(p) == ParamName(p')
    ensures p == p'
  {
    assert Decimal(p) == ParamName(p)[6..];
    assert Decimal(p') == ParamName(p')[6..];
    DecimalInjective(p, p');
  }

  /** The compiled statement: rewritten SQL and the parameter names, slot `i` for ordinal `i + 1`. */
  datatype Statement = Statement(sql: Bytes, args: seq<Bytes>)

  /** `Statement.NumInput`: the number of arguments the statement takes. */
  function NumInput(s: Statement): nat {
    |s.args|
  }

  /** The `args` slice after `WriteParam(p)`: grown to `p` slots if shorter, with slot `p - 1` named. */
  function Put(args: seq<Bytes>, p: nat): (r: seq<Bytes>)
    requires p >= 1
    ensures |r| == if p > |args| then p else |args|
    ensures r[p - 1] == ParamName(p)
    ensures forall i :: 0 <= i < |args| && i != p - 1 ==> r[i] == args[i]
    ensures forall i :: |args| <= i < |r| && i != p - 1 ==> r[i] == []
  {
    var grown := if p > |args| then args + seq(p - |args|, _ => []) else args;
    grown[p - 1 := ParamName(p)]
  }

  /**
   * The shape every parameter list has: slot `i` is empty or names parameter `i + 1`,
   * and the last slot is named, so the length is the largest placeholder index written.
   */
  ghost predicate WellShaped(args: seq<Bytes>) {
    && (forall i :: 0 <= i < |args| ==> args[i] == [] || args[i] == ParamName(i + 1))
    && (args != [] ==> args[|args| - 1] != [])
  }

  lemma PutWellShaped(args: seq<Bytes>, p: nat)
    requires p >= 1 && WellShaped(args)
    ensures WellShaped(Put(args, p))
  {
    var r := Put(args, p);
    forall i | 0 <= i < |r|
      ensures r[i] == [] || r[i] == ParamName(i + 1)
    {
    }
    assert r[|r| - 1] != [] by {
      if p - 1 != |r| - 1 {
        assert |r| == |args|;
      }
    }
  }

  /** The value a `statmentBuilder` holds: the `?` counter, the SQL written so far, the names. */
  datatype Builder = Builder(pi: nat, sql: Bytes, args: seq<Bytes>) {

    function WriteByte(b: byte): Builder {
      this.(sql := sql + [b])
    }

    function WriteParam(p: nat): Builder
      requires p >= 1
    {
      Builder(pi, sql + "@" + ParamName(p), Put(args, p))
    }

    /** A `?`: the next positional index, counted from 1. */
    function AutoParam(): Builder {
      this.(pi := pi + 1).WriteParam(pi + 1)
    }

    function Build(): Statement {
      Statement(sql, args)
    }
  }

  const Empty := Builder(0, [], [])

  /** The state of the scan after the input is used up, or the panic of `WriteParam(0)`. */
  datatype Scan = Done(st: Builder) | Panicked

  /** What `parseStatement` returns, or the index-out-of-range panic that `$0` causes. */
  datatype Outcome = Parsed(stmt: Statement) | IndexPanic

  /** `strconv.ParseInt(arg, 10, 64)` on a run of digits: `None` for an empty run or for overflow. */
  function ParseInt(arg: Bytes): (r: Option<nat>)
    requires forall i :: 0 <= i < |arg| ==> IsDigit(arg[i])
    ensures r.Some? <==> arg != [] && DecimalValue(arg) <= MaxInt64
    ensures r.Some? ==> r.value == DecimalValue(arg)
  {
    if arg == [] || DecimalValue(arg) > MaxInt64 then None else Some(DecimalValue(arg))
  }

  /** The scan with no escape pending: the next byte, if any, is handled normally. */
  function Continue(rest: Bytes, st: Builder): Scan
    decreases |rest|, 1
  {
    if rest == [] then Done(st) else Handle(rest[0], rest[1..], st)
  }

  /** Handling byte `b` with `rest` still unread and no error pending. */
  function Handle(b: byte, rest: Bytes, st: Builder): Scan
    decreases |rest|, 2
  {
    if b == NUL then
      Continue(rest, st)
    else if b == '\\' then
      // the escaped byte is copied; at the end of input it is the zero byte ReadByte returns
      if rest == [] then Done(st.WriteByte(NUL)) else Continue(rest[1..], st.WriteByte(rest[0]))
    else if b == '$' then
      var n := DigitRun(rest);
      match ParseInt(rest[..n])
      case Some(v) =>
        if v == 0 then Panicked else Continue(rest[n..], st.WriteParam(v))
      case None =>
        if n == |rest| then Done(st) else AfterErrorByte(rest[n], rest[n + 1..], st)
    else if b == '?' then
      Continue(rest, st.AutoParam())
    else
      Continue(rest, st.WriteByte(b))
  }

  /** After a `$` without a usable number: the next byte is handled, then the scan stops, unless it is `$`. */
  function AfterErrorByte(b: byte, rest: Bytes, st: Builder): Scan
    decreases |rest|, 3
  {
    if b == '$' then Handle(b, rest, st) else Done(LastByte(b, st))
  }

  /** The effect of handling byte `b` right before the scan stops. */
  function LastByte(b: byte, st: Builder): Builder {
    if b == NUL || b == '\\' then st else if b == '?' then st.AutoParam() else st.WriteByte(b)
  }

  /** `parseStatement(q)`. */
  function Compile(q: Bytes): Outcome {
    match Continue(q, Empty)
    case Done(st) => Parsed(st.Build())
    case Panicked => IndexPanic
  }

  // ---------------------------------------------------------------------------------------
  // The Go loop

  /** The `err` variable of `parseStatement`: nil, `io.EOF`, or the error of `strconv.ParseInt`. */
  datatype ScanErr = NoErr | ReadEof | BadNumber

  /** What `ReadByte` returns on `rest`: the next byte, or the zero byte with `io.EOF`. */
  function Peek(rest: Bytes): (byte, ScanErr) {
    if rest == [] then (NUL, ReadEof) else (rest[0], NoErr)
  }

  /** What is left unread after `ReadByte` on `rest`. */
  function Drop(rest: Bytes): Bytes {
    if rest == [] then [] else rest[1..]
  }

  /** A `strings.Reader` over the query. */
  class Reader {
    const s: Bytes
    var i: nat

    ghost predicate Valid()
      reads this
    {
      i <= |s|
    }

    function Rest(): Bytes
      reads this
      requires Valid()
    {
      s[i..]
    }

    constructor (s: Bytes)
      ensures Valid() && this.s == s && i == 0
    {
      this.s, i := s, 0;
    }

    /** `ReadByte`: the next byte, or the zero byte with `io.EOF` at the end. */
    method ReadByte() returns (b: byte, err: ScanErr)
      requires Valid()
      modifies this
      ensures Valid()
      ensures (b, err) == Peek(old(Rest())) && Rest() == Drop(old(Rest()))
      ensures i == if old(i) < |s| then old(i) + 1 else old(i)
    {
      if i < |s| {
        b, err := s[i], NoErr;
        i := i + 1;
      } else {
        b, err := NUL, ReadEof;
      }
    }
  }

  /** `statmentBuilder`: the `?` counter `pi`, the output text and the `args` slice. */
  class StatementBuilder {
    var pi: nat
    var sb: Bytes
    var args: seq<Bytes>

    function State(): Builder
      reads this
    {
      Builder(pi, sb, args)
    }

    constructor ()
      ensures State() == Empty
    {
      pi, sb, args := 0, [], [];
    }

    method WriteByte(b: byte)
      modifies this
      ensures State() == old(State()).WriteByte(b)
    {
      sb := sb + [b];
    }

    /** Index 0 would be `args[-1]`, so placeholders start at 1. */
    method WriteParam(p: nat)
      requires p >= 1
      modifies this
      ensures pi == old(pi) && args == Put(old(args), p) && sb == old(sb) + "@" + ParamName(p)
      ensures State() == old(State()).WriteParam(p)
    {
      if p > |args| {
        var newArgs := args + seq(p - |args|, _ => []);
        args := newArgs;
      }
      var pn := ParamName(p);
      args := args[p - 1 := pn];
      sb := sb + "@" + pn;
    }

    method AutoParam()
      modifies this
      ensures pi == old(pi) + 1
      ensures State() == old(State()).AutoParam()
    {
      pi := pi + 1;
      WriteParam(pi);
    }

    /** `Statement()`: the finished statement. */
    method Finish() returns (s: Statement)
      ensures s == State().Build()
    {
      s := State().Build();
    }
  }

  /** The result of `parseArg` on the unread input `rest`: the byte after the digits, the error, the number. */
  function ArgScan(rest: Bytes): (byte, ScanErr, Option<nat>) {
    var n := DigitRun(rest);
    var b := if n < |rest| then rest[n] else NUL;
    match ParseInt(rest[..n])
    case None => (b, BadNumber, None)
    case Some(v) => (b, NoErr, Some(v))
  }

  /** What `parseArg` leaves unread. */
  function ArgRest(rest: Bytes): Bytes {
    var n := DigitRun(rest);
    if n < |rest| then rest[n + 1..] else []
  }

  /**
   * The reading loop of `parseArg`: the run of digits at the front of the unread input,
   * then the byte after it, or the zero byte with `io.EOF` when the input ends first.
   */
  method ReadDigits(r: Reader) returns (arg: Bytes, b: byte, err: ScanErr)
    requires r.Valid()
    modifies r
    ensures r.Valid() && r.Rest() == ArgRest(old(r.Rest()))
    ensures var rest, n := old(r.Rest()), DigitRun(old(r.Rest()));
      && arg == rest[..n]
      && (b, err) == (if n < |rest| then (rest[n], NoErr) else (NUL, ReadEof))
  {
    ghost var start := r.i;
    arg := [];
    b, err := NUL, NoErr;
    while err == NoErr
      modifies r
      invariant r.Valid() && start <= r.i
      invariant arg == r.s[start..r.i]
      invariant forall k :: start <= k < r.i ==> IsDigit(r.s[k])
      invariant err != NoErr ==> b == NUL && err == ReadEof && r.i == |r.s|
      decreases |r.s| - r.i, if err == NoErr then 1 else 0
    {
      b, err := r.ReadByte();
      if IsDigit(b) {
        arg := arg + [b];
        continue;
      }
      break;
    }
    assert err == NoErr ==> arg == r.s[start..r.i - 1];
    DigitsEnd(r.s, start, r.i, b, err);
  }

  /** Where the reading loop of `parseArg` stops, `n` being the number of digits read. */
  lemma DigitsEnd(s: Bytes, start: nat, i: nat, b: byte, err: ScanErr)
    requires start <= i <= |s|
    requires err == ReadEof ==> i == |s| && b == NUL && forall k :: start <= k < i ==> IsDigit(s[k])
    requires err == NoErr ==> start < i && s[i - 1] == b && !IsDigit(b) && forall k :: start <= k < i - 1 ==> IsDigit(s[k])
    requires err != BadNumber
    ensures var rest, n := s[start..], DigitRun(s[start..]);
      && start + n <= |s|
      && n == (if err == NoErr then i - 1 - start else i - start)
      && s[start..start + n] == rest[..n]
      && s[i..] == ArgRest(rest)
      && (b, err) == (if n < |rest| then (rest[n], NoErr) else (NUL, ReadEof))
  {
    var rest := s[start..];
    var n := if err == NoErr then i - 1 - start else i - start;
    DigitRunIs(rest, n);
    if n < |rest| {
      assert s[i..] == rest[n + 1..];
    }
  }

  /**
   * `parseArg`: reads the digits after a `$` and the byte after them, and writes the
   * parameter when they form a number; `panics` reports the `WriteParam(0)` panic. The
   * number's parse result replaces the read error, so `io.EOF` after the digits is lost.
   */
  method ParseArg(r: Reader, stmt: StatementBuilder) returns (b: byte, err: ScanErr, panics: bool)
    requires r.Valid()
    modifies r, stmt
    ensures r.Valid() && r.Rest() == ArgRest(old(r.Rest()))
    ensures var (b', err', p) := ArgScan(old(r.Rest()));
      && b == b' && err == err'
      && panics == (p == Some(0))
      && stmt.State() == (if p.Some? && p.value != 0 then old(stmt.State()).WriteParam(p.value) else old(stmt.State()))
  {
    var arg;
    arg, b, err := ReadDigits(r);
    var pn := ParseInt(arg);
    if pn.None? {
      return b, BadNumber, false;
    }
    if pn.value == 0 {
      return b, NoErr, true;
    }
    stmt.WriteParam(pn.value);
    return b, NoErr, false;
  }

  lemma DigitRunIs(s: Bytes, n: nat)
    requires n <= |s|
    requires forall k :: 0 <= k < n ==> IsDigit(s[k])
    requires n < |s| ==> !IsDigit(s[n])
    ensures DigitRun(s) == n
  {
    if n > 0 {
      DigitRunIs(s[1..], n - 1);
    }
  }

  /** The value a loop-top state of `parseStatement` leads to, read off the specification. */
  function Resume(rest: Bytes, b: byte, err: ScanErr, escaped: bool, st: Builder): Scan {
    if escaped then Continue(rest, st.WriteByte(b))
    else match err
      case NoErr => Handle(b, rest, st)
      case ReadEof => Done(st)
      case BadNumber => AfterErrorByte(b, rest, st)
  }

  /** Reading the next byte: the loop top it reaches leads where `Continue` does. */
  lemma ReadResume(rest: Bytes, escaped: bool, st: Builder)
    ensures Resume(Drop(rest), Peek(rest).0, Peek(rest).1, escaped, st)
         == if escaped then (if rest == [] then Done(st.WriteByte(NUL)) else Continue(rest[1..], st.WriteByte(rest[0])))
            else Continue(rest, st)
  {
  }

  /** The `$` case: the loop top `parseArg` hands back leads where the specification's `$` case does. */
  lemma DollarResume(rest: Bytes, st: Builder)
    ensures var (b, err, p) := ArgScan(rest);
      match p
      case None => Resume(ArgRest(rest), b, err, false, st) == Handle('$', rest, st)
      case Some(v) =>
        if v == 0 then Handle('$', rest, st) == Panicked
        else Resume(ArgRest(rest), b, err, false, st.WriteParam(v)) == Handle('$', rest, st)
  {
    var n := DigitRun(rest);
    if n < |rest| {
      assert rest[n..][1..] == rest[n + 1..];
    }
  }

  function Rank(escaped: bool, err: ScanErr, b: byte): nat {
    if escaped then 1 else if err == NoErr || (err == BadNumber && b == '$') then 2 else 0
  }

  /** The termination measure of the loop of `parseStatement` at a loop-top state. */
  function Measure(rest: Bytes, b: byte, err: ScanErr, escaped: bool): nat {
    3 * |rest| + Rank(escaped, err, b)
  }

  /** A loop-top state `parseStatement` can be in. */
  ghost predicate LoopTop(rest: Bytes, b: byte, err: ScanErr, escaped: bool) {
    && (err == ReadEof ==> b == NUL && rest == [])
    && (escaped ==> err != BadNumber)
  }

  /** The loop of `parseStatement` from one loop-top state to its end, one iteration per call. */
  ghost function Run(rest: Bytes, b: byte, err: ScanErr, escaped: bool, st: Builder): Scan
    requires LoopTop(rest, b, err, escaped)
    decreases Measure(rest, b, err, escaped)
  {
    if escaped then
      Run(Drop(rest), Peek(rest).0, Peek(rest).1, false, st.WriteByte(b))
    else if b == '$' then
      var (b', err', p) := ArgScan(rest);
      if p == Some(0) then Panicked
      else Run(ArgRest(rest), b', err', false, if p.Some? then st.WriteParam(p.value) else st)
    else if err != NoErr then
      Done(LastByte(b, st))
    else
      Run(Drop(rest), Peek(rest).0, Peek(rest).1, b == '\\', LastByte(b, st))
  }

  /** The loop computes what the specification says, from every loop-top state. */
  lemma {:induction false} RunIsResume(rest: Bytes, b: byte, err: ScanErr, escaped: bool, st: Builder)
    requires LoopTop(rest, b, err, escaped)
    ensures Run(rest, b, err, escaped, st) == Resume(rest, b, err, escaped, st)
    decreases Measure(rest, b, err, escaped)
  {
    if escaped {
      RunIsResume(Drop(rest), Peek(rest).0, Peek(rest).1, false, st.WriteByte(b));
      ReadResume(rest, false, st.WriteByte(b));
    } else if b == '$' {
      var (b', err', p) := ArgScan(rest);
      DollarResume(rest, st);
      if p != Some(0) {
        RunIsResume(ArgRest(rest), b', err', false, if p.Some? then st.WriteParam(p.value) else st);
      }
    } else if err == NoErr {
      RunIsResume(Drop(rest), Peek(rest).0, Peek(rest).1, b == '\\', LastByte(b, st));
      ReadResume(rest, b == '\\', LastByte(b, st));
    }
  }

  /** The first read reaches a loop-top state. */
  lemma StartLoopTop(q: Bytes)
    ensures LoopTop(Drop(q), Peek(q).0, Peek(q).1, false)
  {
  }

  /** From the first loop-top state, the loop leads where `Compile` does. */
  lemma StartRun(q: Bytes)
    requires LoopTop(Drop(q), Peek(q).0, Peek(q).1, false)
    ensures Compile(q) == match Run(Drop(q), Peek(q).0, Peek(q).1, false, Empty)
                          case Done(st) => Parsed(st.Build())
                          case Panicked => IndexPanic
  {
    RunIsResume(Drop(q), Peek(q).0, Peek(q).1, false, Empty);
    ReadResume(q, false, Empty);
  }

  /** An iteration that ends with `ReadByte`: from state `st` the loop body reached `st'`. */
  lemma ReadStep(rest: Bytes, b: byte, err: ScanErr, escaped: bool, st: Builder, escaped': bool, st': Builder)
    requires LoopTop(rest, b, err, escaped)
    requires escaped ==> !escaped' && st' == st.WriteByte(b)
    requires !escaped ==> b != '$' && err == NoErr && escaped' == (b == '\\') && st' == LastByte(b, st)
    ensures LoopTop(Drop(rest), Peek(rest).0, Peek(rest).1, escaped')
    ensures Measure(Drop(rest), Peek(rest).0, Peek(rest).1, escaped') < Measure(rest, b, err, escaped)
    ensures Run(Drop(rest), Peek(rest).0, Peek(rest).1, escaped', st') == Run(rest, b, err, escaped, st)
  {
  }

  /** An iteration that hands the `$` to `parseArg`. */
  lemma DollarStep(rest: Bytes, err: ScanErr, st: Builder)
    requires LoopTop(rest, '$', err, false)
    ensures var (b', err', p) := ArgScan(rest);
      if p == Some(0) then Run(rest, '$', err, false, st) == Panicked
      else
        var st' := if p.Some? then st.WriteParam(p.value) else st;
        && LoopTop(ArgRest(rest), b', err', false)
        && Measure(ArgRest(rest), b', err', false) < Measure(rest, '$', err, false)
        && Run(ArgRest(rest), b', err', false, st') == Run(rest, '$', err, false, st)
  {
  }

  /** An iteration that stops the loop on the error it carries. */
  lemma BreakStep(rest: Bytes, b: byte, err: ScanErr, st: Builder)
    requires LoopTop(rest, b, err, false) && b != '$' && err != NoErr
    ensures Run(rest, b, err, false, st) == Done(LastByte(b, st))
  {
  }

  /** How an iteration of the loop of `parseStatement` ends. */
  datatype Control = Again | Stop | Panic

  /**
   * One iteration of the loop of `parseStatement`, from the loop-top state `b`, `err`,
   * `escaped`: `Again` with the next loop-top state, `Stop` at the `break`, or `Panic`
   * when `parseArg` writes parameter 0. In each case the loop leads where it led before.
   */
  method Iterate(rd: Reader, sb: StatementBuilder, b: byte, err: ScanErr, escaped: bool)
    returns (b': byte, err': ScanErr, escaped': bool, c: Control)
    requires rd.Valid() && LoopTop(rd.Rest(), b, err, escaped)
    modifies rd, sb
    ensures rd.Valid()
    ensures c == Panic ==> Run(old(rd.Rest()), b, err, escaped, old(sb.State())) == Panicked
    ensures c == Stop ==> Run(old(rd.Rest()), b, err, escaped, old(sb.State())) == Done(sb.State())
    ensures c == Again ==>
      && LoopTop(rd.Rest(), b', err', escaped')
      && Measure(rd.Rest(), b', err', escaped') < Measure(old(rd.Rest()), b, err, escaped)
      && Run(rd.Rest(), b', err', escaped', sb.State()) == Run(old(rd.Rest()), b, err, escaped, old(sb.State()))
  {
    ghost var rest, st := rd.Rest(), sb.State();
    escaped' := escaped;
    if escaped {
      sb.WriteByte(b);
      escaped' := false;
    } else {
      if b == NUL {
      } else if b == '\\' {
        escaped' := true;
      } else if b == '$' {
        DollarStep(rest, err, st);
        var panics;
        b', err', panics := ParseArg(rd, sb);
        return b', err', false, if panics then Panic else Again;
      } else if b == '?' {
        sb.AutoParam();
      } else {
        sb.WriteByte(b);
      }
      if err != NoErr {
        BreakStep(rest, b, err, st);
        return b, err, false, Stop;
      }
    }
    ReadStep(rest, b, err, escaped, st, escaped', sb.State());
    b', err' := rd.ReadByte();
    c := Again;
  }

  /** `parseStatement`: the byte loop with its `escaped` flag. */
  method ParseStatement(q: Bytes) returns (r: Outcome)
    ensures r == Compile(q)
  {
    var sb := new StatementBuilder();
    var rd := new Reader(q);
    var escaped := false;
    StartLoopTop(q);
    var b, err := rd.ReadByte();
    ghost var target := Run(Drop(q), Peek(q).0, Peek(q).1, false, Empty);
    while true
      invariant rd.Valid() && rd.s == q
      invariant LoopTop(rd.Rest(), b, err, escaped)
      invariant Run(rd.Rest(), b, err, escaped, sb.State()) == target
      decreases Measure(rd.Rest(), b, err, escaped)
    {
      var c;
      b, err, escaped, c := Iterate(rd, sb, b, err, escaped);
      if c == Panic {
        StartRun(q);
        return IndexPanic;
      }
      if c == Stop {
        break;
      }
    }
    var s := sb.Finish();
    r := Parsed(s);
    StartRun(q);
  }

  // ---------------------------------------------------------------------------------------
  // Binding arguments

  /** A `driver.NamedValue`: an argument with its 1-based ordinal. */
  datatype NamedValue<V> = NamedValue(ordinal: nat, value: V)

  /** A `spanner.Statement`: the SQL text and its parameter map. */
  datatype SpannerStmt<V> = SpannerStmt(sql: Bytes, params: map<Bytes, V>)

  ghost predicate OrdinalsIn<V>(args: seq<NamedValue<V>>, n: nat) {
    forall i :: 0 <= i < |args| ==> 1 <= args[i].ordinal <= n
  }

  /** The parameter map after binding `args` in order: argument `a` goes to `names[a.ordinal - 1]`. */
  ghost function BindAll<V>(names: seq<Bytes>, args: seq<NamedValue<V>>): map<Bytes, V>
    requires OrdinalsIn(args, |names|)
  {
    if args == [] then map[]
    else
      var a := args[|args| - 1];
      BindAll(names, args[..|args| - 1])[names[a.ordinal - 1] := a.value]
  }

  /**
   * `spannerStatement`: fails when the number of arguments differs from the number of
   * parameter slots, and otherwise binds each argument to its slot's name. Slot names
   * are indexed by ordinal without a bounds check, so the ordinals must be in range.
   */
  method SpannerStatement<V>(s: Statement, args: seq<NamedValue<V>>) returns (r: Result<SpannerStmt<V>, Error>)
    requires |s.args| == |args| ==> OrdinalsIn(args, |args|)
    ensures r.Failure? <==> NumInput(s) != |args|
    ensures r.Failure? ==> r.error == ErrArgCount
    ensures r.Success? ==> r.value == SpannerStmt(s.sql, BindAll(s.args, args))
  {
    if |s.args| != |args| {
      return Failure(ErrArgCount);
    }
    var params: map<Bytes, V> := map[];
    for i := 0 to |args|
      invariant params == BindAll(s.args, args[..i])
    {
      assert args[..i + 1][..i] == args[..i];
      var argv := args[i];
      var pn := s.args[argv.ordinal - 1];
      params := params[pn := argv.value];
    }
    assert args[..|args|] == args;
    return Success(SpannerStmt(s.sql, params));
  }

  /** The ordinals `Exec` and `Query` give their arguments: 1, 2, ... in argument order. */
  ghost function Positional<V>(vals: seq<V>): (nv: seq<NamedValue<V>>)
    ensures OrdinalsIn(nv, |vals|)
  {
    seq(|vals|, i requires 0 <= i < |vals| => NamedValue(i + 1, vals[i]))
  }

  /** The loop of `Exec`/`Query` that builds the `[]driver.NamedValue`. */
  method NamedArgs<V>(vals: seq<V>) returns (nv: seq<NamedValue<V>>)
    ensures |nv| == |vals|
    ensures forall i :: 0 <= i < |vals| ==> nv[i].ordinal == i + 1 && nv[i].value == vals[i]
  {
    nv := [];
    for i := 0 to |vals|
      invariant |nv| == i
      invariant forall k :: 0 <= k < i ==> nv[k] == NamedValue(k + 1, vals[k])
    {
      nv := nv + [NamedValue(i + 1, vals[i])];
    }
  }

  /** The names bound are exactly the slots the arguments' ordinals select. */
  lemma {:induction false} BindAllKeys<V>(names: seq<Bytes>, args: seq<NamedValue<V>>)
    requires OrdinalsIn(args, |names|)
    ensures forall k :: k in BindAll(names, args) <==> exists i :: 0 <= i < |args| && names[args[i].ordinal - 1] == k
    decreases |args|
  {
    if args != [] {
      var init := args[..|args| - 1];
      BindAllKeys(names, init);
      forall k | k in BindAll(names, args)
        ensures exists i :: 0 <= i < |args| && names[args[i].ordinal - 1] == k
      {
        if k != names[args[|args| - 1].ordinal - 1] {
          assert k in BindAll(names, init);
          var i :| 0 <= i < |init| && names[init[i].ordinal - 1] == k;
          assert args[i] == init[i];
        }
      }
      forall k | exists i :: 0 <= i < |args| && names[args[i].ordinal - 1] == k
        ensures k in BindAll(names, args)
      {
        var i :| 0 <= i < |args| && names[args[i].ordinal - 1] == k;
        if i < |init| {
          assert init[i] == args[i];
        }
      }
    }
  }

  /** An argument whose slot name no other argument selects is bound to its own value. */
  lemma {:induction false} BindAllUnique<V>(names: seq<Bytes>, args: seq<NamedValue<V>>, i: nat)
    requires OrdinalsIn(args, |names|) && i < |args|
    requires forall j :: 0 <= j < |args| && j != i ==> names[args[j].ordinal - 1] != names[args[i].ordinal - 1]
    ensures names[args[i].ordinal - 1] in BindAll(names, args)
    ensures BindAll(names, args)[names[args[i].ordinal - 1]] == args[i].value
    decreases |args|
  {
    var init := args[..|args| - 1];
    if i < |init| {
      forall j | 0 <= j < |init| && j != i
        ensures names[init[j].ordinal - 1] != names[init[i].ordinal - 1]
      {
        assert init[j] == args[j];
      }
      BindAllUnique(names, init, i);
    }
  }

  /**
   * Positional arguments against a well-shaped parameter list: every named slot
   * `param_<i+1>` receives the i-th value.
   */
  lemma BindPositional<V>(names: seq<Bytes>, vals: seq<V>, i: nat)
    requires WellShaped(names) && |vals| == |names|
    requires i < |names| && names[i] != []
    ensures names[i] in BindAll(names, Positional(vals))
    ensures BindAll(names, Positional(vals))[names[i]] == vals[i]
  {
    var args := Positional(vals);
    forall j | 0 <= j < |args| && j != i
      ensures names[args[j].ordinal - 1] != names[args[i].ordinal - 1]
    {
      if names[j] == names[i] {
        ParamNameInjective(j + 1, i + 1);
      }
    }
    BindAllUnique(names, args, i);
  }
}
