/**
 * The backend constructor of spanner.go: the connection string is parsed before anything
 * is opened, and the dialect gets two error classifiers, `TranslateErr` and `Retry`, which
 * look only at the gRPC code `spanner.ErrCode` reports.
 *
 * `generic.Open`, `setupDB` and the log-structured store wrapped around the dialect are not
 * part of this model: opening is an oracle error, and the result records which data source
 * name was handed to the opener.
 */
module Spanner {
  import opened Wrappers
  import opened Text
  import opened Errors
  import Dsn

  /** `spanner.ErrCode`: OK for nil, the status code of a client error, Unknown for anything else. */
  function ErrCode(err: Option<Error>): (c: Code)
    ensures err.None? ==> c == OK
    ensures err.Some? && err.value.Backend? ==> c == err.value.code
    ensures err.Some? && !err.value.Backend? ==> c == Unknown
  {
    match err
    case None => OK
    case Some(Backend(code, _)) => code
    case Some(_) => Unknown
  }

  /** `TranslateErr`: a key-exists status becomes the store's `ErrKeyExists`; every other error passes unchanged. */
  function TranslateErr(err: Option<Error>): (r: Option<Error>)
    ensures ErrCode(err) == AlreadyExists ==> r == Some(ErrKeyExists)
    ensures ErrCode(err) != AlreadyExists ==> r == err
  {
    var code := ErrCode(err);
    if code != Unknown && code == AlreadyExists then Some(ErrKeyExists) else err
  }

  /** The codes after which the store retries. */
  predicate Transient(c: Code) {
    c == DeadlineExceeded || c == Canceled || c == Aborted
  }

  /** `Retry`: true exactly for a deadline, a cancellation or an abort. */
  function Retry(err: Option<Error>): (r: bool)
    ensures r <==> Transient(ErrCode(err))
  {
    var code := ErrCode(err);
    if code != Unknown then
      match code
      case DeadlineExceeded => true
      case Canceled => true
      case Aborted => true
      case _ => false
    else false
  }

  /** Errors without a gRPC code are never translated and never retried. */
  lemma UncodedErrors(e: Error)
    requires !e.Backend?
    ensures TranslateErr(Some(e)) == Some(e) && !Retry(Some(e))
  {
  }

  /** Only the already-exists status is translated; only a transient one is retried; no error is both. */
  lemma ClassifiersDisjoint(err: Option<Error>)
    ensures TranslateErr(err) != err ==> err.Some? && err.value.Backend? && err.value.code == AlreadyExists
    ensures Retry(err) ==> TranslateErr(err) == err
  {
  }

  /** How `New` ends: the data source names handed to the opener, and the backend's DSN string or the error. */
  datatype Startup = Startup(names: seq<Bytes>, result: Result<Bytes, Error>)

  /**
   * The names of a parsed DSN that `path.Join` prints as they are, that unescaping leaves
   * alone and that `url.Parse` keeps in the path: no slash, not empty, not `.` or `..`, no
   * `%`, no `?`, no `#` and no control byte.
   */
  predicate Canonical(d: Dsn.DSN) {
    && Dsn.Plain(d.project) && Dsn.Plain(d.instance) && Dsn.Plain(d.database)
    && Dsn.PercentFree(d.project) && Dsn.PercentFree(d.instance) && Dsn.PercentFree(d.database)
    && Dsn.UrlPathSafe(d.project) && Dsn.UrlPathSafe(d.instance) && Dsn.UrlPathSafe(d.database)
  }

  /**
   * `New`: a connection string that does not parse is refused before anything is opened;
   * otherwise the canonical DSN string is opened, and the opener's error `openErr`, if any,
   * is returned. For canonical names the string opened parses back, without a scheme or a
   * query, to the DSN `New` parsed.
   */
  method New(u: Option<Dsn.Uri>, openErr: Option<Error>) returns (r: Startup)
    ensures Dsn.Parse(u).Failure? ==> r == Startup([], Failure(Dsn.Parse(u).error))
    ensures Dsn.Parse(u).Success? ==>
      var name := Dsn.String(Dsn.Parse(u).value.dsn);
      r == Startup([name], if openErr.Some? then Failure(openErr.value) else Success(name))
    ensures Dsn.Parse(u).Success? && Canonical(Dsn.Parse(u).value.dsn) ==>
      |r.names| == 1 && Dsn.Parse(Some(Dsn.Uri([], r.names[0], map[]))) == Success(Dsn.Parsed(Dsn.Parse(u).value.dsn, map[]))
  {
    var parsed := Dsn.ParseConnectionURI(u);
    if parsed.Failure? {
      return Startup([], Failure(parsed.error));
    }
    var name := Dsn.String(parsed.value.dsn);
    if Canonical(parsed.value.dsn) {
      NewOpensCanonical(parsed.value.dsn);
    }
    if openErr.Some? {
      return Startup([name], Failure(openErr.value));
    }
    return Startup([name], Success(name));
  }

  /**
   * The string `New` opens, parsed again as a scheme-less connection string with no query,
   * gives back the DSN it was printed from.
   */
  lemma NewOpensCanonical(d: Dsn.DSN)
    requires Canonical(d)
    ensures Dsn.Parse(Some(Dsn.Uri([], Dsn.String(d), map[]))) == Success(Dsn.Parsed(d, map[]))
  {
    Dsn.RoundTrip(d, [], Dsn.String(d), map[]);
    assert Dsn.LastValues(map[]) == map[];
  }
}
