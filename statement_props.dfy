/**
 * What the placeholder compiler of statement.go promises, proved about `Compile`:
 * the shape of the parameter list, the treatment of `\`, NUL, `$N`, bare `$` and `?`,
 * and a reference semantics over tokens that says which name each placeholder receives.
 */
module StatementProperties {
  import opened Wrappers
  import opened Text
  import opened StatementCompiler

  // ---------------------------------------------------------------------------------------
  // The shape of the parameter list

  /** A builder state the scan can reach: well-shaped names, and every `?` so far has its slot. */
  ghost predicate Shaped(st: Builder) {
    && WellShaped(st.args)
    && st.pi <= |st.args|
    && forall k :: 1 <= k <= st.pi ==> st.args[k - 1] == ParamName(k)
  }

  lemma WriteParamShaped(st: Builder, p: nat)
    requires p >= 1 && Shaped(st)
    ensures Shaped(st.WriteParam(p))
  {
    PutWellShaped(st.args, p);
  }

  lemma AutoParamShaped(st: Builder)
    requires Shaped(st)
    ensures Shaped(st.AutoParam())
  {
    PutWellShaped(st.args, st.pi + 1);
  }

  lemma LastByteShaped(b: byte, st: Builder)
    requires Shaped(st)
    ensures Shaped(LastByte(b, st))
  {
    if b == '?' {
      AutoParamShaped(st);
    }
  }

  lemma {:induction false} ContinueShaped(rest: Bytes, st: Builder)
    requires Shaped(st)
    ensures Continue(rest, st).Done? ==> Shaped(Continue(rest, st).st)
    decreases |rest|, 1
  {
    if rest != [] {
      HandleShaped(rest[0], rest[1..], st);
    }
  }

  lemma {:induction false} HandleShaped(b: byte, rest: Bytes, st: Builder)
    requires Shaped(st)
    ensures Handle(b, rest, st).Done? ==> Shaped(Handle(b, rest, st).st)
    decreases |rest|, 2
  {
    if b == NUL {
      ContinueShaped(rest, st);
    } else if b == '\\' {
      if rest != [] {
        ContinueShaped(rest[1..], st.WriteByte(rest[0]));
      }
    } else if b == '$' {
      var n := DigitRun(rest);
      match ParseInt(rest[..n])
      case Some(v) =>
        if v != 0 {
          WriteParamShaped(st, v);
          ContinueShaped(rest[n..], st.WriteParam(v));
        }
      case None =>
        if n < |rest| {
          AfterErrorShaped(rest[n], rest[n + 1..], st);
        }
    } else if b == '?' {
      AutoParamShaped(st);
      ContinueShaped(rest, st.AutoParam());
    } else {
      ContinueShaped(rest, st.WriteByte(b));
    }
  }

  lemma {:induction false} AfterErrorShaped(b: byte, rest: Bytes, st: Builder)
    requires Shaped(st)
    ensures AfterErrorByte(b, rest, st).Done? ==> Shaped(AfterErrorByte(b, rest, st).st)
    decreases |rest|, 3
  {
    if b == '$' {
      HandleShaped(b, rest, st);
    } else {
      LastByteShaped(b, st);
    }
  }

  /**
   * Every compiled statement has a well-shaped parameter list: each non-empty slot `i` is
   * `param_<i+1>`, gaps are empty and the last slot is named, so the length is the largest
   * placeholder index written.
   */
  lemma CompileWellShaped(q: Bytes)
    ensures Compile(q).Parsed? ==> WellShaped(Compile(q).stmt.args)
  {
    ContinueShaped(q, Empty);
  }

  // ---------------------------------------------------------------------------------------
  // Single bytes

  /** The bytes the scan treats specially. */
  predicate Special(b: byte) {
    b == NUL || b == '\\' || b == '$' || b == '?'
  }

  /** A NUL byte is dropped. */
  lemma NulDropped(rest: Bytes, st: Builder)
    ensures Continue([NUL] + rest, st) == Continue(rest, st)
  {
    assert ([NUL] + rest)[1..] == rest;
  }

  /** The byte after a backslash is copied verbatim, whatever it is; the backslash is not. */
  lemma EscapedByte(c: byte, rest: Bytes, st: Builder)
    ensures Continue(['\\', c] + rest, st) == Continue(rest, st.WriteByte(c))
  {
    assert (['\\', c] + rest)[1..][1..] == rest;
  }

  /** A trailing backslash copies the zero byte that reading past the end returns. */
  lemma TrailingBackslash(st: Builder)
    ensures Continue("\\", st) == Done(st.WriteByte(NUL))
  {
  }

  /** A `?` takes the next positional index. */
  lemma QuestionMark(rest: Bytes, st: Builder)
    ensures Continue(['?'] + rest, st) == Continue(rest, st.AutoParam())
    ensures st.AutoParam().pi == st.pi + 1
    ensures st.AutoParam().sql == st.sql + "@" + ParamName(st.pi + 1)
  {
    assert (['?'] + rest)[1..] == rest;
  }

  /** `$N` for 1 <= N <= MaxInt64, the digits read greedily: `@param_N`, then the next byte normally. */
  lemma DollarNumber(n: nat, rest: Bytes, st: Builder)
    requires 1 <= n <= MaxInt64
    requires rest != [] ==> !IsDigit(rest[0])
    ensures Continue(['$'] + Decimal(n) + rest, st) == Continue(rest, st.WriteParam(n))
  {
    var d := Decimal(n);
    var t := d + rest;
    assert (['$'] + d + rest)[1..] == t;
    DigitRunIs(t, |d|);
    assert t[..|d|] == d;
    assert t[|d|..] == rest;
    DecimalRoundTrip(n);
  }

  /** `$` followed by digits whose value is 0 is the index-out-of-range panic of `WriteParam(0)`. */
  lemma DollarZero(d: Bytes, rest: Bytes, st: Builder)
    requires d != [] && forall i :: 0 <= i < |d| ==> IsDigit(d[i])
    requires DecimalValue(d) == 0
    requires rest != [] ==> !IsDigit(rest[0])
    ensures Continue(['$'] + d + rest, st) == Panicked
  {
    var t := d + rest;
    assert (['$'] + d + rest)[1..] == t;
    DigitRunIs(t, |d|);
    assert t[..|d|] == d;
  }

  lemma CompileDollarZero()
    ensures Compile("$0") == IndexPanic
  {
    DollarZero("0", [], Empty);
    assert ['$'] + "0" + [] == "$0";
  }

  /** Digits whose value overflows int64 are dropped, and the `$` then acts as a bare `$`. */
  lemma DollarOverflow(d: Bytes, rest: Bytes, st: Builder)
    requires forall i :: 0 <= i < |d| ==> IsDigit(d[i])
    requires DecimalValue(d) > MaxInt64
    requires rest != [] ==> !IsDigit(rest[0])
    ensures Continue(['$'] + d + rest, st) == Continue(['$'] + rest, st)
  {
    var t := d + rest;
    assert (['$'] + d + rest)[1..] == t;
    assert (['$'] + rest)[1..] == rest;
    DigitRunIs(t, |d|);
    DigitRunIs(rest, 0);
    assert t[..|d|] == d;
    if rest != [] {
      assert t[|d|] == rest[0] && t[|d| + 1..] == rest[1..];
    }
  }

  /** A bare `$` at the end of the input writes nothing. */
  lemma BareDollarAtEnd(st: Builder)
    ensures Continue("$", st) == Done(st)
  {
    assert "$"[1..] == [];
  }

  /** A bare `$` writes nothing; the byte after it is handled and then the scan stops. */
  lemma BareDollarStops(c: byte, rest: Bytes, st: Builder)
    requires !IsDigit(c) && c != '$'
    ensures Continue(['$', c] + rest, st) == Done(LastByte(c, st))
  {
    var t := [c] + rest;
    assert (['$', c] + rest)[1..] == t;
    DigitRunIs(t, 0);
    assert t[..0] == [];
    assert t[1..] == rest;
    assert Handle('$', t, st) == AfterErrorByte(c, rest, st);
  }

  /** A second `$` after a bare `$` starts argument parsing again. */
  lemma DollarDollar(rest: Bytes, st: Builder)
    ensures Continue(['$', '$'] + rest, st) == Continue(['$'] + rest, st)
  {
    var t := ['$'] + rest;
    assert (['$', '$'] + rest)[1..] == t;
    DigitRunIs(t, 0);
    assert t[..0] == [];
    assert t[1..] == rest;
    assert Handle('$', t, st) == AfterErrorByte('$', rest, st);
  }

  // ---------------------------------------------------------------------------------------
  // Whole inputs

  /** Input with no special byte passes through unchanged. */
  lemma {:induction false} ContinuePlain(rest: Bytes, st: Builder)
    requires forall i :: 0 <= i < |rest| ==> !Special(rest[i])
    ensures Continue(rest, st) == Done(st.(sql := st.sql + rest))
    decreases |rest|
  {
    if rest != [] {
      ContinuePlain(rest[1..], st.WriteByte(rest[0]));
      assert st.sql + [rest[0]] + rest[1..] == st.sql + rest;
    } else {
      assert st.sql + rest == st.sql;
    }
  }

  /** A query with no `\`, `$`, `?` or NUL byte compiles to itself with no parameters. */
  lemma CompilePlain(q: Bytes)
    requires forall i :: 0 <= i < |q| ==> !Special(q[i])
    ensures Compile(q) == Parsed(Statement(q, []))
  {
    ContinuePlain(q, Empty);
  }

  /** Every byte preceded by a backslash. */
  function Escape(s: Bytes): (r: Bytes)
    ensures |r| == 2 * |s|
  {
    if s == [] then [] else ['\\', s[0]] + Escape(s[1..])
  }

  lemma {:induction false} ContinueEscaped(s: Bytes, rest: Bytes, st: Builder)
    ensures Continue(Escape(s) + rest, st) == Continue(rest, st.(sql := st.sql + s))
    decreases |s|
  {
    if s == [] {
      assert Escape(s) + rest == rest;
      assert st.sql + s == st.sql;
    } else {
      assert Escape(s) + rest == ['\\', s[0]] + (Escape(s[1..]) + rest);
      EscapedByte(s[0], Escape(s[1..]) + rest, st);
      ContinueEscaped(s[1..], rest, st.WriteByte(s[0]));
      assert st.sql + [s[0]] + s[1..] == st.sql + s;
    }
  }

  /** Escaping every byte makes the compiler copy the text verbatim: `Escape` is its inverse. */
  lemma CompileEscaped(s: Bytes)
    ensures Compile(Escape(s)) == Parsed(Statement(s, []))
  {
    ContinueEscaped(s, [], Empty);
    assert Escape(s) + [] == Escape(s);
  }

  /** An escaped text followed by a lone backslash ends in the zero byte. */
  lemma CompileEscapedTrailingBackslash(s: Bytes)
    ensures Compile(Escape(s) + "\\") == Parsed(Statement(s + [NUL], []))
  {
    ContinueEscaped(s, "\\", Empty);
    TrailingBackslash(Empty.(sql := s));
  }

  // ---------------------------------------------------------------------------------------
  // A reference semantics over tokens

  /** A query seen as a sequence of literal bytes, `?` placeholders and `$N` placeholders. */
  datatype Token = Lit(b: byte) | Auto | Num(n: nat)

  /**
   * The token sequences a query text stands for unambiguously: literals are not special,
   * a literal digit does not follow `$N` (the digits would be read greedily), and N is in
   * 1..MaxInt64.
   */
  predicate WellFormed(toks: seq<Token>) {
    && (forall i :: 0 <= i < |toks| ==> TokenOk(toks[i]))
    && (forall i :: 0 < i < |toks| ==> !(toks[i - 1].Num? && toks[i].Lit? && IsDigit(toks[i].b)))
  }

  predicate TokenOk(t: Token) {
    match t
    case Lit(b) => !Special(b)
    case Auto => true
    case Num(n) => 1 <= n <= MaxInt64
  }

  function TokenText(t: Token): Bytes {
    match t
    case Lit(b) => [b]
    case Auto => "?"
    case Num(n) => "$" + Decimal(n)
  }

  /** The query text of a token sequence. */
  function Encode(toks: seq<Token>): Bytes {
    if toks == [] then [] else TokenText(toks[0]) + Encode(toks[1..])
  }

  /** The expected SQL: `k` is the number of `?` before `toks`; `$N` does not count. */
  function RefSql(toks: seq<Token>, k: nat): Bytes {
    if toks == [] then []
    else match toks[0]
      case Lit(b) => [b] + RefSql(toks[1..], k)
      case Auto => "@" + ParamName(k + 1) + RefSql(toks[1..], k + 1)
      case Num(n) => "@" + ParamName(n) + RefSql(toks[1..], k)
  }

  /** The placeholder indices `toks` uses, `k` being the number of `?` before it. */
  function Indices(toks: seq<Token>, k: nat): set<nat> {
    if toks == [] then {}
    else match toks[0]
      case Lit(_) => Indices(toks[1..], k)
      case Auto => {k + 1} + Indices(toks[1..], k + 1)
      case Num(n) => {n} + Indices(toks[1..], k)
  }

  /** The largest placeholder index `toks` uses, or 0. */
  function Top(toks: seq<Token>, k: nat): nat {
    if toks == [] then 0
    else match toks[0]
      case Lit(_) => Top(toks[1..], k)
      case Auto => Max(k + 1, Top(toks[1..], k + 1))
      case Num(n) => Max(n, Top(toks[1..], k))
  }

  function Max(a: nat, b: nat): nat {
    if a < b then b else a
  }

  /** The effect of the scan on a token sequence, token by token. */
  function Render(toks: seq<Token>, st: Builder): Builder
    requires forall i :: 0 <= i < |toks| ==> TokenOk(toks[i])
  {
    if toks == [] then st
    else
      assert TokenOk(toks[0]);
      var st' := match toks[0]
        case Lit(b) => st.WriteByte(b)
        case Auto => st.AutoParam()
        case Num(n) => st.WriteParam(n);
      Render(toks[1..], st')
  }

  lemma WellFormedTail(toks: seq<Token>)
    requires toks != [] && WellFormed(toks)
    ensures WellFormed(toks[1..])
  {
    forall i | 0 < i < |toks[1..]|
      ensures !(toks[1..][i - 1].Num? && toks[1..][i].Lit? && IsDigit(toks[1..][i].b))
    {
      assert toks[1..][i - 1] == toks[i] && toks[1..][i] == toks[i + 1];
    }
  }

  /** After `$N` the text goes on with a byte that is not a digit. */
  lemma AfterNumber(toks: seq<Token>)
    requires |toks| >= 2 && WellFormed(toks) && toks[0].Num?
    ensures Encode(toks[1..]) != [] && !IsDigit(Encode(toks[1..])[0])
  {
    assert toks[1..][0] == toks[1];
  }

  lemma {:induction false} ContinueTokens(toks: seq<Token>, st: Builder)
    requires WellFormed(toks)
    ensures Continue(Encode(toks), st) == Done(Render(toks, st))
    decreases |toks|
  {
    if toks != [] {
      WellFormedTail(toks);
      var e := Encode(toks[1..]);
      match toks[0]
      case Lit(b) =>
        assert Encode(toks) == [b] + e;
        assert ([b] + e)[1..] == e;
        ContinueTokens(toks[1..], st.WriteByte(b));
      case Auto =>
        assert Encode(toks) == ['?'] + e;
        QuestionMark(e, st);
        ContinueTokens(toks[1..], st.AutoParam());
      case Num(n) =>
        assert Encode(toks) == ['$'] + Decimal(n) + e;
        if |toks| >= 2 {
          AfterNumber(toks);
        }
        DollarNumber(n, e, st);
        ContinueTokens(toks[1..], st.WriteParam(n));
    }
  }

  lemma Regroup4(a: Bytes, b: Bytes, c: Bytes, d: Bytes)
    ensures a + b + c + d == a + (b + c + d)
  {
  }

  lemma {:induction false} RenderSql(toks: seq<Token>, st: Builder)
    requires WellFormed(toks)
    ensures Render(toks, st).sql == st.sql + RefSql(toks, st.pi)
    decreases |toks|
  {
    if toks == [] {
      assert st.sql + [] == st.sql;
    } else {
      WellFormedTail(toks);
      match toks[0]
      case Lit(b) =>
        var st' := st.WriteByte(b);
        assert Render(toks, st) == Render(toks[1..], st');
        RenderSql(toks[1..], st');
        var tail := RefSql(toks[1..], st.pi);
        assert RefSql(toks, st.pi) == [b] + tail;
        assert st.sql + [b] + tail == st.sql + ([b] + tail);
      case Auto =>
        var st' := st.AutoParam();
        var pn := ParamName(st.pi + 1);
        assert Render(toks, st) == Render(toks[1..], st');
        assert st'.sql == st.sql + "@" + pn && st'.pi == st.pi + 1;
        RenderSql(toks[1..], st');
        var tail := RefSql(toks[1..], st.pi + 1);
        assert RefSql(toks, st.pi) == "@" + pn + tail;
        Regroup4(st.sql, "@", pn, tail);
      case Num(n) =>
        assert TokenOk(toks[0]);
        var st' := st.WriteParam(n);
        var pn := ParamName(n);
        assert Render(toks, st) == Render(toks[1..], st');
        assert st'.sql == st.sql + "@" + pn && st'.pi == st.pi;
        RenderSql(toks[1..], st');
        var tail := RefSql(toks[1..], st.pi);
        assert RefSql(toks, st.pi) == "@" + pn + tail;
        Regroup4(st.sql, "@", pn, tail);
    }
  }

  /** Slot `i` after placeholders `used` were written over `base`. */
  function Slot(base: seq<Bytes>, used: set<nat>, i: nat): Bytes {
    if i + 1 in used then ParamName(i + 1) else if i < |base| then base[i] else []
  }

  /** Writing placeholder `p` is adding `p` to the indices used. */
  lemma PutSlot(base: seq<Bytes>, p: nat, used: set<nat>)
    requires p >= 1
    ensures forall i: nat :: Slot(Put(base, p), used, i) == Slot(base, {p} + used, i)
  {
  }

  lemma {:induction false} RenderArgs(toks: seq<Token>, st: Builder)
    requires WellFormed(toks)
    ensures |Render(toks, st).args| == Max(|st.args|, Top(toks, st.pi))
    ensures forall i :: 0 <= i < |Render(toks, st).args| ==>
      Render(toks, st).args[i] == Slot(st.args, Indices(toks, st.pi), i)
    decreases |toks|
  {
    if toks != [] {
      WellFormedTail(toks);
      match toks[0]
      case Lit(b) =>
        RenderArgs(toks[1..], st.WriteByte(b));
      case Auto =>
        RenderArgs(toks[1..], st.AutoParam());
        PutSlot(st.args, st.pi + 1, Indices(toks[1..], st.pi + 1));
      case Num(n) =>
        assert TokenOk(toks[0]);
        RenderArgs(toks[1..], st.WriteParam(n));
        PutSlot(st.args, n, Indices(toks[1..], st.pi));
    }
  }

  /**
   * The compiler on a well-formed token sequence: the k-th `?` becomes `@param_k`, counting
   * only `?`, `$N` becomes `@param_N`, and the parameter list names exactly the indices used,
   * with empty gaps, up to the largest of them.
   */
  lemma CompileTokens(toks: seq<Token>)
    requires WellFormed(toks)
    ensures Compile(Encode(toks)).Parsed?
    ensures Compile(Encode(toks)).stmt.sql == RefSql(toks, 0)
    ensures |Compile(Encode(toks)).stmt.args| == Top(toks, 0)
    ensures forall i :: 0 <= i < |Compile(Encode(toks)).stmt.args| ==>
      Compile(Encode(toks)).stmt.args[i] == if i + 1 in Indices(toks, 0) then ParamName(i + 1) else []
  {
    ContinueTokens(toks, Empty);
    RenderSql(toks, Empty);
    RenderArgs(toks, Empty);
  }

  /** Literal tokens for every byte of `s`. */
  function Lits(s: Bytes): (r: seq<Token>)
    ensures |r| == |s| && forall i :: 0 <= i < |s| ==> r[i] == Lit(s[i])
  {
    seq(|s|, i requires 0 <= i < |s| => Lit(s[i]))
  }

  lemma {:induction false} EncodeAppend(a: seq<Token>, b: seq<Token>)
    ensures Encode(a + b) == Encode(a) + Encode(b)
  {
    if a == [] {
      assert a + b == b;
    } else {
      assert (a + b)[0] == a[0];
      assert (a + b)[1..] == a[1..] + b;
      EncodeAppend(a[1..], b);
    }
  }

  lemma {:induction false} EncodeLits(s: Bytes)
    ensures Encode(Lits(s)) == s
  {
    if s != [] {
      assert Lits(s)[1..] == Lits(s[1..]);
      EncodeLits(s[1..]);
      assert s == [s[0]] + s[1..];
    }
  }

  lemma EncodeLitsThen(s: Bytes, t: seq<Token>)
    ensures Encode(Lits(s) + t) == s + Encode(t)
  {
    EncodeAppend(Lits(s), t);
    EncodeLits(s);
  }

  lemma {:induction false} RefSqlLitsThen(s: Bytes, t: seq<Token>, k: nat)
    ensures RefSql(Lits(s) + t, k) == s + RefSql(t, k)
    ensures Indices(Lits(s) + t, k) == Indices(t, k)
    ensures Top(Lits(s) + t, k) == Top(t, k)
    decreases |s|
  {
    if s == [] {
      assert Lits(s) + t == t;
    } else {
      var u := Lits(s) + t;
      assert u[0] == Lit(s[0]) && u[1..] == Lits(s[1..]) + t;
      RefSqlLitsThen(s[1..], t, k);
      assert s + RefSql(t, k) == [s[0]] + (s[1..] + RefSql(t, k));
    }
  }

  /** The query and the expected SQL of the unit test of `parseStatement`, around their placeholders. */
  const UnitTestHead: Bytes := "UPDATE balances SET balance = balance + "
  const UnitTestMiddle: Bytes := " WHERE user_id = "

  /** The shape of the unit test of `parseStatement`: plain text, `$2`, plain text, `?`. */
  function DollarThenQuestion(a: Bytes, b: Bytes): seq<Token> {
    Lits(a) + ([Num(2)] + (Lits(b) + [Auto]))
  }

  lemma DollarThenQuestionWellFormed(a: Bytes, b: Bytes)
    requires forall i :: 0 <= i < |a| ==> !Special(a[i])
    requires forall i :: 0 <= i < |b| ==> !Special(b[i])
    requires b != [] ==> !IsDigit(b[0])
    ensures WellFormed(DollarThenQuestion(a, b))
  {
    var toks := DollarThenQuestion(a, b);
    forall i | 0 <= i < |toks| ensures TokenOk(toks[i]) {
      if i < |a| {
        assert toks[i] == Lit(a[i]);
      } else if i > |a| && i < |toks| - 1 {
        assert toks[i] == Lit(b[i - |a| - 1]);
      }
    }
    forall i | 0 < i < |toks| ensures !(toks[i - 1].Num? && toks[i].Lit? && IsDigit(toks[i].b)) {
      if i <= |a| {
        assert toks[i - 1] == Lit(a[i - 1]);
      } else if i == |a| + 1 {
        if i < |toks| - 1 {
          assert toks[i] == Lit(b[0]);
        }
      } else {
        assert toks[i - 1] == Lit(b[i - |a| - 2]);
      }
    }
  }

  lemma SmallParamNames()
    ensures ParamName(1) == "param_1" && ParamName(2) == "param_2"
  {
    assert Decimal(1) == "1" && Decimal(2) == "2";
  }

  lemma DollarThenQuestionText(a: Bytes, b: Bytes)
    ensures Encode(DollarThenQuestion(a, b)) == a + "$2" + b + "?"
  {
    var tail := [Auto];
    var mid := [Num(2)] + (Lits(b) + tail);
    assert mid[0] == Num(2) && mid[1..] == Lits(b) + tail;
    assert tail[1..] == [];
    EncodeLitsThen(a, mid);
    EncodeLitsThen(b, tail);
    assert Decimal(2) == "2";
    assert Encode(mid) == "$2" + (b + "?");
  }

  lemma DollarThenQuestionRendering(a: Bytes, b: Bytes)
    ensures RefSql(DollarThenQuestion(a, b), 0) == a + "@param_2" + b + "@param_1"
    ensures Indices(DollarThenQuestion(a, b), 0) == {1, 2} && Top(DollarThenQuestion(a, b), 0) == 2
  {
    var tail := [Auto];
    var mid := [Num(2)] + (Lits(b) + tail);
    assert mid[0] == Num(2) && mid[1..] == Lits(b) + tail;
    assert tail[1..] == [];
    RefSqlLitsThen(a, mid, 0);
    RefSqlLitsThen(b, tail, 0);
    SmallParamNames();
    assert RefSql(tail, 0) == "@param_1";
    assert RefSql(mid, 0) == "@param_2" + (b + "@param_1");
  }

  /** Plain text, `$2`, plain text, `?`: the `?` is the first positional parameter. */
  lemma DollarThenQuestionCompiles(a: Bytes, b: Bytes)
    requires forall i :: 0 <= i < |a| ==> !Special(a[i])
    requires forall i :: 0 <= i < |b| ==> !Special(b[i])
    requires b != [] ==> !IsDigit(b[0])
    ensures Compile(a + "$2" + b + "?") == Parsed(Statement(a + "@param_2" + b + "@param_1", ["param_1", "param_2"]))
  {
    DollarThenQuestionWellFormed(a, b);
    DollarThenQuestionText(a, b);
    DollarThenQuestionRendering(a, b);
    CompileTokens(DollarThenQuestion(a, b));
    var st := Compile(Encode(DollarThenQuestion(a, b))).stmt;
    SmallParamNames();
    assert st.args[0] == "param_1" && st.args[1] == "param_2";
    assert st.args == ["param_1", "param_2"];
  }

  /** The case of the unit test. */
  lemma UnitTestExample()
    ensures Compile(UnitTestHead + "$2" + UnitTestMiddle + "?")
         == Parsed(Statement(UnitTestHead + "@param_2" + UnitTestMiddle + "@param_1", ["param_1", "param_2"]))
  {
    var a, b := UnitTestHead, UnitTestMiddle;
    assert forall i :: 0 <= i < |a| ==> !Special(a[i]);
    assert forall i :: 0 <= i < |b| ==> !Special(b[i]);
    DollarThenQuestionCompiles(a, b);
  }
}
