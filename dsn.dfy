/**
 * The connection string of dsn.go: the `projects/P/instances/I/databases/D` database path,
 * printed with `path.Join` and recognised by a regular expression, and `ParseConnectionURI`,
 * which takes the result of `url.Parse` (scheme, decoded path and query) as its input.
 */
module Dsn {
  import opened Wrappers
  import opened Text
  import opened Errors

  /** The only scheme accepted besides none at all. */
  const Scheme: Bytes := "spanner"

  datatype DSN = DSN(project: Bytes, instance: Bytes, database: Bytes)

  /** What `url.Parse` hands over: the lower-cased scheme, the decoded path and the query values. */
  datatype Uri = Uri(scheme: Bytes, path: Bytes, query: map<Bytes, seq<Bytes>>)

  /** A successful `ParseConnectionURI`: the DSN and the parameter map. */
  datatype Parsed = Parsed(dsn: DSN, params: map<Bytes, Bytes>)

  // ---------------------------------------------------------------------------------------
  // Slash-separated paths

  predicate SlashFree(s: Bytes) {
    forall i :: 0 <= i < |s| ==> s[i] != '/'
  }

  /** The parts of `s` between slashes (`strings.Split(s, "/")`): never empty. */
  function Segments(s: Bytes): (parts: seq<Bytes>)
    ensures |parts| > 0
  {
    if s == [] then [[]]
    else if s[0] == '/' then [[]] + Segments(s[1..])
    else
      var r := Segments(s[1..]);
      [[s[0]] + r[0]] + r[1..]
  }

  /** The parts joined with slashes (`strings.Join(parts, "/")`). */
  function JoinSlash(parts: seq<Bytes>): Bytes
    requires |parts| > 0
  {
    if |parts| == 1 then parts[0] else parts[0] + "/" + JoinSlash(parts[1..])
  }

  /** A slash-free first part is split off at the first slash. */
  lemma {:induction false} SegmentsCons(x: Bytes, rest: Bytes)
    requires SlashFree(x)
    ensures Segments(x + "/" + rest) == [x] + Segments(rest)
    decreases |x|
  {
    if x == [] {
      assert x + "/" + rest == ['/'] + rest;
      assert (['/'] + rest)[1..] == rest;
    } else {
      assert (x + "/" + rest)[1..] == x[1..] + "/" + rest;
      SegmentsCons(x[1..], rest);
      assert [x[0]] + x[1..] == x;
    }
  }

  lemma {:induction false} SegmentsSingle(x: Bytes)
    requires SlashFree(x)
    ensures Segments(x) == [x]
    decreases |x|
  {
    if x != [] {
      SegmentsSingle(x[1..]);
      assert [x[0]] + x[1..] == x;
    }
  }

  /** Splitting undoes joining slash-free parts. */
  lemma {:induction false} SegmentsJoin(parts: seq<Bytes>)
    requires |parts| > 0 && forall i :: 0 <= i < |parts| ==> SlashFree(parts[i])
    ensures Segments(JoinSlash(parts)) == parts
    decreases |parts|
  {
    if |parts| == 1 {
      SegmentsSingle(parts[0]);
    } else {
      SegmentsCons(parts[0], JoinSlash(parts[1..]));
      SegmentsJoin(parts[1..]);
    }
  }

  /** Joining undoes splitting, and the parts are slash-free. */
  lemma {:induction false} JoinSegments(s: Bytes)
    ensures JoinSlash(Segments(s)) == s
    ensures forall i :: 0 <= i < |Segments(s)| ==> SlashFree(Segments(s)[i])
    decreases |s|
  {
    if s != [] {
      JoinSegments(s[1..]);
      var r := Segments(s[1..]);
      if s[0] == '/' {
        assert JoinSlash(Segments(s)) == [] + "/" + JoinSlash(r);
        assert s == "/" + s[1..];
        assert Segments(s)[1..] == r;
      } else {
        var parts := Segments(s);
        assert parts[1..] == r[1..];
        if |r| == 1 {
          assert JoinSlash(parts) == [s[0]] + r[0];
        } else {
          assert JoinSlash(r) == r[0] + "/" + JoinSlash(r[1..]);
          assert JoinSlash(parts) == [s[0]] + r[0] + "/" + JoinSlash(r[1..]);
        }
        assert s == [s[0]] + s[1..];
        forall i | 0 <= i < |parts| ensures SlashFree(parts[i]) {
          if i > 0 {
            assert parts[i] == r[i];
          }
        }
      }
    }
  }

  // ---------------------------------------------------------------------------------------
  // path.Join and path.Clean

  /** One step of `path.Clean`'s scan over the parts of the path, `out` being what is kept so far. */
  function CleanSegs(segs: seq<Bytes>, rooted: bool, out: seq<Bytes>): seq<Bytes>
    decreases |segs|
  {
    if segs == [] then out
    else
      var s := segs[0];
      var out' :=
        if s == [] || s == "." then out
        else if s == ".." then
          if |out| > 0 && out[|out| - 1] != ".." then out[..|out| - 1]
          else if rooted then out
          else out + [".."]
        else out + [s];
      CleanSegs(segs[1..], rooted, out')
  }

  /** `path.Clean`: empty parts and `.` dropped, `..` cancels the part before it. */
  function Clean(p: Bytes): Bytes {
    var rooted := |p| > 0 && p[0] == '/';
    var out := CleanSegs(Segments(p), rooted, []);
    if rooted then "/" + (if out == [] then [] else JoinSlash(out))
    else if out == [] then "." else JoinSlash(out)
  }

  /** `path.Join`: leading empty elements skipped, the rest joined with slashes and cleaned. */
  function Join(elems: seq<Bytes>): Bytes {
    if elems == [] then []
    else if elems[0] == [] then Join(elems[1..])
    else Clean(JoinSlash(elems))
  }

  /** A part `path.Clean` keeps as it is. */
  predicate Plain(s: Bytes) {
    s != [] && s != "." && s != ".." && SlashFree(s)
  }

  lemma {:induction false} CleanSegsPlain(segs: seq<Bytes>, rooted: bool, out: seq<Bytes>)
    requires forall i :: 0 <= i < |segs| ==> Plain(segs[i])
    ensures CleanSegs(segs, rooted, out) == out + segs
    decreases |segs|
  {
    if segs != [] {
      CleanSegsPlain(segs[1..], rooted, out + [segs[0]]);
      assert out + [segs[0]] + segs[1..] == out + segs;
    }
  }

  /** A relative path of plain parts is already clean. */
  lemma JoinPlain(parts: seq<Bytes>)
    requires |parts| > 0 && forall i :: 0 <= i < |parts| ==> Plain(parts[i])
    ensures Join(parts) == JoinSlash(parts)
  {
    SegmentsJoin(parts);
    CleanSegsPlain(parts, false, []);
    assert [] + parts == parts;
  }

  /** `DSN.Instance`. */
  function Instance(d: DSN): Bytes {
    Join(["projects", d.project, "instances", d.instance])
  }

  /** `DSN.String`. */
  function String(d: DSN): Bytes {
    Join(["projects", d.project, "instances", d.instance, "databases", d.database])
  }

  /** The database path the regular expression captures from, without the optional slashes. */
  function Core(p: Bytes, i: Bytes, d: Bytes): Bytes {
    "projects/" + p + "/instances/" + i + "/databases/" + d
  }

  lemma JoinSlashCons(x: Bytes, rest: seq<Bytes>)
    requires rest != []
    ensures JoinSlash([x] + rest) == x + "/" + JoinSlash(rest)
  {
    assert ([x] + rest)[1..] == rest;
  }

  /** Four parts joined: `a/b/c/d`. */
  lemma JoinFour(sl: Bytes, a: Bytes, b: Bytes, c: Bytes, d: Bytes)
    requires sl == "/"
    ensures JoinSlash([a, b, c, d]) == a + sl + b + sl + c + sl + d
  {
    assert [c, d][1..] == [d];
    assert JoinSlash([c, d]) == c + sl + d;
    assert [b, c, d][1..] == [c, d];
    assert JoinSlash([b, c, d]) == b + sl + (c + sl + d);
    assert [a, b, c, d][1..] == [b, c, d];
  }

  /** Six parts joined: `a/b/c/d/e/f`. */
  lemma JoinSix(sl: Bytes, a: Bytes, b: Bytes, c: Bytes, d: Bytes, e: Bytes, f: Bytes)
    requires sl == "/"
    ensures JoinSlash([a, b, c, d, e, f]) == a + sl + b + sl + c + sl + d + sl + e + sl + f
  {
    assert [a, b, c, d, e, f][1..] == [b, c, d, e, f];
    assert [b, c, d, e, f][1..] == [c, d, e, f];
    JoinFour(sl, c, d, e, f);
  }

  /** Regrouping the separators into the fixed parts around the captures. */
  lemma Regroup(sl: Bytes, a: Bytes, x: Bytes, b: Bytes, y: Bytes, c: Bytes, z: Bytes,
                a': Bytes, b': Bytes, c': Bytes)
    requires a' == a + sl && b' == sl + b + sl && c' == sl + c + sl
    ensures a + sl + x + sl + b + sl + y + sl + c + sl + z == a' + x + b' + y + c' + z
    ensures a + sl + x + sl + b + sl + y == a' + x + b' + y
  {
  }

  /** The fixed parts of the database path, with their slashes. */
  lemma Separators()
    ensures "projects" + "/" == "projects/"
    ensures "/" + "instances" + "/" == "/instances/"
    ensures "/" + "databases" + "/" == "/databases/"
  {
  }

  lemma CoreIsJoin(p: Bytes, i: Bytes, d: Bytes)
    ensures Core(p, i, d) == JoinSlash(["projects", p, "instances", i, "databases", d])
  {
    JoinSix("/", "projects", p, "instances", i, "databases", d);
    Separators();
    Regroup("/", "projects", p, "instances", i, "databases", d, "projects/", "/instances/", "/databases/");
  }

  lemma InstanceIsJoin(p: Bytes, i: Bytes)
    ensures "projects/" + p + "/instances/" + i == JoinSlash(["projects", p, "instances", i])
  {
    JoinFour("/", "projects", p, "instances", i);
    Separators();
    Regroup("/", "projects", p, "instances", i, "databases", [], "projects/", "/instances/", "/databases/");
  }

  lemma FixedPartsPlain()
    ensures Plain("projects") && Plain("instances") && Plain("databases")
  {
  }

  /** The printed forms when the names are plain: no slash, not empty, not `.` or `..`. */
  lemma StringPlain(d: DSN)
    requires Plain(d.project) && Plain(d.instance) && Plain(d.database)
    ensures String(d) == "projects/" + d.project + "/instances/" + d.instance + "/databases/" + d.database
    ensures Instance(d) == "projects/" + d.project + "/instances/" + d.instance
  {
    FixedPartsPlain();
    CoreIsJoin(d.project, d.instance, d.database);
    JoinPlain(["projects", d.project, "instances", d.instance, "databases", d.database]);
    InstanceIsJoin(d.project, d.instance);
    JoinPlain(["projects", d.project, "instances", d.instance]);
  }

  // ---------------------------------------------------------------------------------------
  // The path regular expression

  /** A capture of `([^/]+)`. */
  predicate Capture(s: Bytes) {
    s != [] && SlashFree(s)
  }

  /** The paths `^/?projects/([^/]+)/instances/([^/]+)/databases/([^/]+)/?$` matches, with their captures. */
  predicate PathShape(path: Bytes, p: Bytes, i: Bytes, d: Bytes) {
    && Capture(p) && Capture(i) && Capture(d)
    && (|| path == Core(p, i, d) || path == "/" + Core(p, i, d)
        || path == Core(p, i, d) + "/" || path == "/" + Core(p, i, d) + "/")
  }

  /** The regular expression as a matcher: strip the optional slashes, then split at the others. */
  function MatchPath(path: Bytes): Option<(Bytes, Bytes, Bytes)> {
    var parts := Segments(Stripped(path));
    if && |parts| == 6 && parts[0] == "projects" && parts[2] == "instances" && parts[4] == "databases"
       && parts[1] != [] && parts[3] != [] && parts[5] != []
    then Some((parts[1], parts[3], parts[5]))
    else None
  }

  lemma CoreEnds(p: Bytes, i: Bytes, d: Bytes)
    requires Capture(d)
    ensures Core(p, i, d)[0] == 'p'
    ensures Core(p, i, d)[|Core(p, i, d)| - 1] == d[|d| - 1] != '/'
  {
  }

  /** The optional slashes `MatchPath` strips. */
  function Stripped(path: Bytes): Bytes {
    var a := if |path| > 0 && path[0] == '/' then path[1..] else path;
    if |a| > 0 && a[|a| - 1] == '/' then a[..|a| - 1] else a
  }

  lemma StrippedShape(path: Bytes, c: Bytes)
    requires c != [] && c[0] != '/' && c[|c| - 1] != '/'
    requires path == c || path == "/" + c || path == c + "/" || path == "/" + c + "/"
    ensures Stripped(path) == c
  {
    var a := if |path| > 0 && path[0] == '/' then path[1..] else path;
    if path == "/" + c {
      assert a == c;
    } else if path == "/" + c + "/" {
      assert a == c + "/";
      assert a[..|a| - 1] == c;
    } else if path == c + "/" {
      assert a[..|a| - 1] == c;
    }
  }

  lemma StrippedBack(path: Bytes)
    ensures var c := Stripped(path);
      path == c || path == "/" + c || path == c + "/" || path == "/" + c + "/"
  {
    var a := if |path| > 0 && path[0] == '/' then path[1..] else path;
    if |path| > 0 && path[0] == '/' {
      assert path == "/" + a;
    }
    if |a| > 0 && a[|a| - 1] == '/' {
      assert a == a[..|a| - 1] + "/";
    }
  }

  lemma MatchPathSound(path: Bytes)
    requires MatchPath(path).Some?
    ensures var (p, i, d) := MatchPath(path).value; PathShape(path, p, i, d)
  {
    var (p, i, d) := MatchPath(path).value;
    var core := Stripped(path);
    var parts := Segments(core);
    JoinSegments(core);
    assert parts == ["projects", p, "instances", i, "databases", d];
    CoreIsJoin(p, i, d);
    assert SlashFree(parts[1]) && SlashFree(parts[3]) && SlashFree(parts[5]);
    StrippedBack(path);
  }

  lemma MatchPathComplete(path: Bytes, p: Bytes, i: Bytes, d: Bytes)
    requires PathShape(path, p, i, d)
    ensures MatchPath(path) == Some((p, i, d))
  {
    CoreEnds(p, i, d);
    StrippedShape(path, Core(p, i, d));
    CoreIsJoin(p, i, d);
    SegmentsJoin(["projects", p, "instances", i, "databases", d]);
  }

  /** The matcher accepts exactly the paths of the regular expression, with the same captures. */
  lemma MatchPathIff(path: Bytes, p: Bytes, i: Bytes, d: Bytes)
    ensures MatchPath(path) == Some((p, i, d)) <==> PathShape(path, p, i, d)
  {
    if PathShape(path, p, i, d) {
      MatchPathComplete(path, p, i, d);
    }
    if MatchPath(path) == Some((p, i, d)) {
      MatchPathSound(path);
    }
  }

  // ---------------------------------------------------------------------------------------
  // url.PathUnescape

  predicate IsHex(b: byte) {
    '0' <= b <= '9' || 'a' <= b <= 'f' || 'A' <= b <= 'F'
  }

  function HexValue(b: byte): (v: nat)
    requires IsHex(b)
    ensures v < 16
  {
    if '0' <= b <= '9' then b as int - '0' as int
    else if 'a' <= b <= 'f' then b as int - 'a' as int + 10
    else b as int - 'A' as int + 10
  }

  /** Percent-decoding: `None` when a `%` is not followed by two hex digits. */
  function Unescape(s: Bytes): Option<Bytes>
    decreases |s|
  {
    if s == [] then Some([])
    else if s[0] == '%' then
      if |s| >= 3 && IsHex(s[1]) && IsHex(s[2]) then
        match Unescape(s[3..])
        case None => None
        case Some(t) => Some([(HexValue(s[1]) * 16 + HexValue(s[2])) as char] + t)
      else None
    else
      match Unescape(s[1..])
      case None => None
      case Some(t) => Some([s[0]] + t)
  }

  /** `url.PathUnescape` with its error discarded: the empty string on a bad escape. */
  function PathUnescape(s: Bytes): Bytes {
    match Unescape(s)
    case Some(t) => t
    case None => []
  }

  predicate PercentFree(s: Bytes) {
    forall i :: 0 <= i < |s| ==> s[i] != '%'
  }

  /**
   * A name `url.Parse` keeps inside the path: no `?` (the query starts there), no `#` (the
   * fragment starts there) and no control byte (below a space, or DEL), which it rejects.
   */
  predicate UrlPathSafe(s: Bytes) {
    forall i :: 0 <= i < |s| ==> s[i] != '?' && s[i] != '#' && s[i] >= ' ' && s[i] != 0x7f as char
  }

  /** A name without `%` is not changed by unescaping. */
  lemma {:induction false} UnescapePercentFree(s: Bytes)
    requires PercentFree(s)
    ensures Unescape(s) == Some(s) && PathUnescape(s) == s
    decreases |s|
  {
    if s != [] {
      UnescapePercentFree(s[1..]);
      assert [s[0]] + s[1..] == s;
    }
  }

  /** A `%` at the end, or before something that is not two hex digits, empties the name. */
  lemma BadEscapeEmpties(s: Bytes, k: nat)
    requires k < |s| && PercentFree(s[..k]) && s[k] == '%'
    requires !(k + 2 < |s| && IsHex(s[k + 1]) && IsHex(s[k + 2]))
    ensures PathUnescape(s) == []
    decreases k
  {
    if k > 0 {
      assert s[1..][..k - 1] == s[..k][1..];
      BadEscapeEmpties(s[1..], k - 1);
    }
  }

  // ---------------------------------------------------------------------------------------
  // ParseConnectionURI

  /** Each query key with at least one value, mapped to its last value. */
  ghost function LastValues(query: map<Bytes, seq<Bytes>>): map<Bytes, Bytes> {
    map k | k in query && |query[k]| > 0 :: query[k][|query[k]| - 1]
  }

  /** What `ParseConnectionURI` returns; `None` is a string `url.Parse` rejects. */
  ghost function Parse(u: Option<Uri>): Result<Parsed, Error> {
    if u.None? then Failure(ErrInvalidUri)
    else if u.value.scheme != [] && u.value.scheme != Scheme then Failure(ErrInvalidScheme)
    else match MatchPath(u.value.path)
      case None => Failure(ErrInvalidPath)
      case Some((p, i, d)) =>
        Success(Parsed(DSN(PathUnescape(p), PathUnescape(i), PathUnescape(d)), LastValues(u.value.query)))
  }

  /** `ParseConnectionURI`, with the parameter loop over the query map. */
  method ParseConnectionURI(u: Option<Uri>) returns (r: Result<Parsed, Error>)
    ensures r == Parse(u)
  {
    if u.None? {
      return Failure(ErrInvalidUri);
    }
    var uri := u.value;
    if uri.scheme != [] && uri.scheme != Scheme {
      return Failure(ErrInvalidScheme);
    }
    var m := MatchPath(uri.path);
    if m.None? {
      return Failure(ErrInvalidPath);
    }
    var (p, i, d) := m.value;
    var prj, ins, dbn := PathUnescape(p), PathUnescape(i), PathUnescape(d);
    var params: map<Bytes, Bytes> := map[];
    var todo := uri.query.Keys;
    while todo != {}
      invariant todo <= uri.query.Keys
      invariant forall k :: k in params <==> k in uri.query && k !in todo && |uri.query[k]| > 0
      invariant forall k :: k in params ==> params[k] == uri.query[k][|uri.query[k]| - 1]
      decreases todo
    {
      var k :| k in todo;
      var v := uri.query[k];
      if |v| > 0 {
        params := params[k := v[|v| - 1]];
      }
      todo := todo - {k};
    }
    assert params == LastValues(uri.query);
    return Success(Parsed(DSN(prj, ins, dbn), params));
  }

  /** The three ways to fail, and nothing but the error is returned on each. */
  lemma ParseFails(u: Option<Uri>)
    ensures Parse(u).Failure? <==>
      u.None? || (u.value.scheme != [] && u.value.scheme != Scheme) || MatchPath(u.value.path).None?
    ensures u.None? ==> Parse(u) == Failure(ErrInvalidUri)
    ensures u.Some? && u.value.scheme != [] && u.value.scheme != Scheme ==> Parse(u) == Failure(ErrInvalidScheme)
  {
  }

  /** On success the captures, unescaped, are the project, instance and database in that order. */
  lemma ParseSucceeds(u: Option<Uri>, p: Bytes, i: Bytes, d: Bytes)
    requires u.Some? && (u.value.scheme == [] || u.value.scheme == Scheme)
    requires PathShape(u.value.path, p, i, d)
    ensures Parse(u) == Success(Parsed(DSN(PathUnescape(p), PathUnescape(i), PathUnescape(d)), LastValues(u.value.query)))
  {
    MatchPathIff(u.value.path, p, i, d);
  }

  /** A path the regular expression does not match is rejected. */
  lemma ParseRejectsPath(u: Option<Uri>)
    requires u.Some? && (u.value.scheme == [] || u.value.scheme == Scheme)
    requires forall p, i, d :: !PathShape(u.value.path, p, i, d)
    ensures Parse(u) == Failure(ErrInvalidPath)
  {
    var m := MatchPath(u.value.path);
    if m.Some? {
      MatchPathIff(u.value.path, m.value.0, m.value.1, m.value.2);
    }
  }

  /**
   * Names that are plain and free of `%` survive printing and parsing back, when `url.Parse`
   * hands over the printed string as the path: as it is or rooted without a scheme
   * (`projects/…`, `/projects/…`), rooted with one (`spanner:///projects/…`).
   */
  lemma RoundTrip(d: DSN, scheme: Bytes, path: Bytes, query: map<Bytes, seq<Bytes>>)
    requires Plain(d.project) && Plain(d.instance) && Plain(d.database)
    requires PercentFree(d.project) && PercentFree(d.instance) && PercentFree(d.database)
    requires scheme == [] || scheme == Scheme
    requires path == "/" + String(d) || (scheme == [] && path == String(d))
    ensures Parse(Some(Uri(scheme, path, query))) == Success(Parsed(d, LastValues(query)))
  {
    StringPlain(d);
    MatchPathIff(path, d.project, d.instance, d.database);
    UnescapePercentFree(d.project);
    UnescapePercentFree(d.instance);
    UnescapePercentFree(d.database);
  }
}
