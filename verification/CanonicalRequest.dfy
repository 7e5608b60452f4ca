/** The whole canonical request of Signature Version 4 (internal/api/s3/auth.go):
    what two requests that get the same string to sign have in common. */
module CanonicalRequest {
  import opened Strings
  import opened Canonical
  import Sorting

  /** A request as far as it is signed: `params` in any order, `names` the signed
      headers in lower case and sorted. */
  datatype Request = Request(
    httpMethod: string,
    path: Bytes,
    params: seq<Pair>,
    names: seq<string>,
    value: string -> string,
    payloadHash: string)

  function Rendered(r: Request): string {
    r.httpMethod + "\n" + CanonicalPath(r.path) + "\n" + CanonicalPairs(r.params) + "\n"
    + HeaderLines(r.names, r.value) + "\n" + Join(r.names, ';') + "\n" + r.payloadHash
  }

  /** HTTP lets no newline into a method or a header, and the list of signed
      headers is split at semicolons. */
  ghost predicate OneLine(names: seq<string>, value: string -> string) {
    forall n :: n in names ==> '\n' !in n && ';' !in n && '\n' !in value(n)
  }

  ghost predicate SameHeaders(names: seq<string>, v: string -> string, w: string -> string) {
    forall n :: n in names ==> v(n) == w(n)
  }

  // ---------------------------------------------------------------------------
  // No part but the headers holds a newline
  // ---------------------------------------------------------------------------

  lemma {:induction false} JoinFree(parts: seq<string>, sep: char, c: char)
    requires c != sep && forall p :: p in parts ==> c !in p
    ensures c !in Join(parts, sep)
  {
    if |parts| > 1 {
      assert forall p :: p in parts[1..] ==> p in parts;
      JoinFree(parts[1..], sep, c);
    }
  }

  lemma PathIsOneLine(path: Bytes)
    ensures '\n' !in CanonicalPath(path)
  {
    hide Encoded;
    EncodedIsSafe(path, false);
  }

  lemma QueryIsOneLine(params: seq<Pair>)
    ensures '\n' !in CanonicalPairs(params)
  {
    hide SortedPairs, Join;
    SortedPairsAreSafe(params);
    var sorted := SortedPairs(params);
    var parts := Sorting.Mapped(sorted, RenderPair);
    forall p | p in parts ensures '\n' !in p {
      var i :| 0 <= i < |parts| && parts[i] == p;
      assert Safe(sorted[i]);
    }
    JoinFree(parts, '&', '\n');
  }

  // ---------------------------------------------------------------------------
  // The headers read back
  // ---------------------------------------------------------------------------

  function Line(name: string, value: string -> string): string {
    name + ":" + value(name)
  }

  lemma LinesStep(names: seq<string>, value: string -> string, tail: string)
    requires names != []
    ensures HeaderLines(names, value) + tail
            == Line(names[0], value) + ['\n'] + (HeaderLines(names[1..], value) + tail)
  {
  }

  lemma LineIsOneLine(names: seq<string>, value: string -> string)
    requires OneLine(names, value) && names != []
    ensures '\n' !in Line(names[0], value) && Line(names[0], value) != ""
    ensures OneLine(names[1..], value)
  {
    assert names[0] in names;
  }

  /** The first empty line ends the headers, whose lines are read off before it. */
  lemma {:induction false} LinesReadBack(a: seq<string>, v: string -> string, s: string,
                                         b: seq<string>, w: string -> string, t: string)
    requires OneLine(a, v) && OneLine(b, w)
    requires HeaderLines(a, v) + (['\n'] + s) == HeaderLines(b, w) + (['\n'] + t)
    ensures |a| == |b| && s == t
    ensures forall i :: 0 <= i < |a| ==> Line(a[i], v) == Line(b[i], w)
    decreases |a|
  {
    hide HeaderLines, OneLine, Line;
    if a != [] {
      LinesStep(a, v, ['\n'] + s);
      LineIsOneLine(a, v);
    }
    if b != [] {
      LinesStep(b, w, ['\n'] + t);
      LineIsOneLine(b, w);
    }
    if a != [] && b != [] {
      FirstCutUnique(Line(a[0], v), HeaderLines(a[1..], v) + (['\n'] + s),
                     Line(b[0], w), HeaderLines(b[1..], w) + (['\n'] + t), '\n');
      LinesReadBack(a[1..], v, s, b[1..], w, t);
      assert a == [a[0]] + a[1..] && b == [b[0]] + b[1..];
    } else {
      FirstLine(a, v, s);
      FirstLine(b, w, t);
    }
  }

  lemma NoLines(v: string -> string)
    ensures HeaderLines([], v) == ""
  {
  }

  /** An empty line comes first if and only if there is no header. */
  lemma FirstLine(names: seq<string>, v: string -> string, tail: string)
    requires names != [] ==> '\n' !in Line(names[0], v) && Line(names[0], v) != ""
    ensures var s := HeaderLines(names, v) + (['\n'] + tail);
            s != "" && (s[0] == '\n' <==> names == []) && (names == [] ==> s[1..] == tail)
  {
    hide HeaderLines, Line;
    if names == [] {
      NoLines(v);
      assert HeaderLines(names, v) + (['\n'] + tail) == ['\n'] + tail;
    } else {
      LinesStep(names, v, ['\n'] + tail);
      assert Line(names[0], v)[0] in Line(names[0], v);
    }
  }

  /** As many names, joined to the same string, are the same names. */
  lemma {:induction false} NamesFromJoin(a: seq<string>, b: seq<string>, sep: char)
    requires |a| == |b| && forall p :: p in a + b ==> sep !in p
    requires Join(a, sep) == Join(b, sep)
    ensures a == b
  {
    if a != [] {
      assert a[0] in a + b && b[0] in a + b;
      HeadOfJoin(a, b, sep);
      if |a| > 1 {
        assert forall p :: p in a[1..] + b[1..] ==> p in a + b;
        NamesFromJoin(a[1..], b[1..], sep);
      }
      assert a == [a[0]] + a[1..] && b == [b[0]] + b[1..];
    }
  }

  lemma HeadersReadBack(a: seq<string>, v: string -> string, g: string,
                        b: seq<string>, w: string -> string, h: string)
    requires OneLine(a, v) && OneLine(b, w)
    requires HeaderLines(a, v) + (['\n'] + (Join(a, ';') + ['\n'] + g))
             == HeaderLines(b, w) + (['\n'] + (Join(b, ';') + ['\n'] + h))
    ensures a == b && SameHeaders(a, v, w) && g == h
  {
    hide HeaderLines, Join;
    LinesReadBack(a, v, Join(a, ';') + ['\n'] + g, b, w, Join(b, ';') + ['\n'] + h);
    JoinFree(a, ';', '\n');
    JoinFree(b, ';', '\n');
    FirstCutUnique(Join(a, ';'), g, Join(b, ';'), h, '\n');
    NamesFromJoin(a, b, ';');
    forall n | n in a ensures v(n) == w(n) {
      var i :| 0 <= i < |a| && a[i] == n;
      assert Line(a[i], v)[|n| + 1..] == v(n) && Line(b[i], w)[|n| + 1..] == w(n);
    }
  }

  lemma {:induction false} SameHeadersSameLines(names: seq<string>, v: string -> string, w: string -> string)
    requires SameHeaders(names, v, w)
    ensures HeaderLines(names, v) == HeaderLines(names, w)
  {
    if names != [] {
      assert names[0] in names;
      SameHeadersSameLines(names[1..], v, w);
    }
  }

  // ---------------------------------------------------------------------------
  // The request read back
  // ---------------------------------------------------------------------------

  /** Everything after the query. */
  function Rest(r: Request): string {
    HeaderLines(r.names, r.value) + (['\n'] + (Join(r.names, ';') + ['\n'] + r.payloadHash))
  }

  lemma RenderedInLines(r: Request)
    ensures Rendered(r) == r.httpMethod + ['\n']
                           + (CanonicalPath(r.path) + ['\n'] + (CanonicalPairs(r.params) + ['\n'] + Rest(r)))
  {
    hide CanonicalPath, CanonicalPairs, HeaderLines, Join;
  }

  /** Two requests have the same canonical form if and only if they agree in
      method, path, parameters as a multiset, signed headers and payload hash. */
  lemma SameFormIff(a: Request, b: Request)
    requires '\n' !in a.httpMethod && '\n' !in b.httpMethod
    requires OneLine(a.names, a.value) && OneLine(b.names, b.value)
    ensures Rendered(a) == Rendered(b) <==>
              && a.httpMethod == b.httpMethod
              && (a.path == b.path || (a.path in {[], ['/']} && b.path in {[], ['/']}))
              && multiset(a.params) == multiset(b.params)
              && a.names == b.names && SameHeaders(a.names, a.value, b.value)
              && a.payloadHash == b.payloadHash
  {
    hide Rendered, Rest, CanonicalPath, CanonicalPairs, HeaderLines, Join, OneLine, SameHeaders;
    RenderedInLines(a);
    RenderedInLines(b);
    CanonicalPathIff(a.path, b.path);
    CanonicalIffSameParameters(a.params, b.params);
    if Rendered(a) == Rendered(b) {
      PartsReadBack(a, b);
    } else if a.names == b.names && SameHeaders(a.names, a.value, b.value) && a.payloadHash == b.payloadHash {
      SameRest(a, b);
    }
  }

  lemma SameRest(a: Request, b: Request)
    requires a.names == b.names && SameHeaders(a.names, a.value, b.value) && a.payloadHash == b.payloadHash
    ensures Rest(a) == Rest(b)
  {
    SameHeadersSameLines(a.names, a.value, b.value);
  }

  /** Method, path and query are read off before the headers. */
  lemma FrontReadBack(a: Request, b: Request)
    requires '\n' !in a.httpMethod && '\n' !in b.httpMethod && Rendered(a) == Rendered(b)
    ensures a.httpMethod == b.httpMethod && CanonicalPath(a.path) == CanonicalPath(b.path)
    ensures CanonicalPairs(a.params) == CanonicalPairs(b.params) && Rest(a) == Rest(b)
  {
    hide Rendered, Rest, CanonicalPath, CanonicalPairs;
    RenderedInLines(a);
    RenderedInLines(b);
    PathIsOneLine(a.path);
    PathIsOneLine(b.path);
    QueryIsOneLine(a.params);
    QueryIsOneLine(b.params);
    var qa, qb := CanonicalPairs(a.params) + ['\n'] + Rest(a), CanonicalPairs(b.params) + ['\n'] + Rest(b);
    FirstCutUnique(a.httpMethod, CanonicalPath(a.path) + ['\n'] + qa,
                   b.httpMethod, CanonicalPath(b.path) + ['\n'] + qb, '\n');
    FirstCutUnique(CanonicalPath(a.path), qa, CanonicalPath(b.path), qb, '\n');
    FirstCutUnique(CanonicalPairs(a.params), Rest(a), CanonicalPairs(b.params), Rest(b), '\n');
  }

  lemma PartsReadBack(a: Request, b: Request)
    requires '\n' !in a.httpMethod && '\n' !in b.httpMethod
    requires OneLine(a.names, a.value) && OneLine(b.names, b.value)
    requires Rendered(a) == Rendered(b)
    ensures a.httpMethod == b.httpMethod && CanonicalPath(a.path) == CanonicalPath(b.path)
    ensures CanonicalPairs(a.params) == CanonicalPairs(b.params)
    ensures a.names == b.names && SameHeaders(a.names, a.value, b.value) && a.payloadHash == b.payloadHash
  {
    hide Rendered, CanonicalPath, CanonicalPairs, HeaderLines, Join, OneLine, SameHeaders;
    FrontReadBack(a, b);
    HeadersReadBack(a.names, a.value, a.payloadHash, b.names, b.value, b.payloadHash);
  }

  // ---------------------------------------------------------------------------
  // Presigned requests
  // ---------------------------------------------------------------------------

  const SIGNED_HEADERS: Bytes := "X-Amz-SignedHeaders"

  /** A presigned query names the signed headers in a parameter, which has one value
      and is itself signed. The names may hold any byte. */
  ghost predicate PresignedAs(r: Request, list: Bytes) {
    && (forall v: Bytes :: (SIGNED_HEADERS, v) in r.params <==> v == list)
    && SortedNames(r.names, Split(list, ';'))
  }

  ghost predicate OneLineValues(names: seq<string>, value: string -> string) {
    forall n :: n in names ==> '\n' !in value(n)
  }

  /** Under known names the values are read back, whatever the names hold. */
  lemma {:induction false} ValuesReadBack(names: seq<string>, v: string -> string, s: string,
                                          w: string -> string, t: string)
    requires OneLineValues(names, v) && OneLineValues(names, w)
    requires HeaderLines(names, v) + (['\n'] + s) == HeaderLines(names, w) + (['\n'] + t)
    ensures SameHeaders(names, v, w) && s == t
    decreases |names|
  {
    hide HeaderLines;
    if names == [] {
      NoLines(v);
      NoLines(w);
      assert HeaderLines(names, v) + (['\n'] + s) == ['\n'] + s;
      assert HeaderLines(names, w) + (['\n'] + t) == ['\n'] + t;
      assert (['\n'] + s)[1..] == s && (['\n'] + t)[1..] == t;
    } else {
      var n := names[0];
      var restV, restW := HeaderLines(names[1..], v) + (['\n'] + s), HeaderLines(names[1..], w) + (['\n'] + t);
      assert n in names;
      LinesStep(names, v, ['\n'] + s);
      LinesStep(names, w, ['\n'] + t);
      NameCut(n, v(n), restV);
      NameCut(n, w(n), restW);
      FirstCutUnique(v(n), restV, w(n), restW, '\n');
      ValuesReadBack(names[1..], v, s, w, t);
      assert names == [n] + names[1..];
    }
  }

  lemma NameCut(name: string, value: string, rest: string)
    ensures (name + ":" + value + ['\n'] + rest)[|name| + 1..] == value + ['\n'] + rest
  {
  }

  /** Two presigned requests have the same canonical form if and only if they agree
      in all of it; newlines in the names make no difference. */
  lemma PresignedFormIff(a: Request, listA: Bytes, b: Request, listB: Bytes)
    requires '\n' !in a.httpMethod && '\n' !in b.httpMethod
    requires PresignedAs(a, listA) && PresignedAs(b, listB)
    requires OneLineValues(a.names, a.value) && OneLineValues(b.names, b.value)
    ensures Rendered(a) == Rendered(b) <==>
              && a.httpMethod == b.httpMethod
              && (a.path == b.path || (a.path in {[], ['/']} && b.path in {[], ['/']}))
              && multiset(a.params) == multiset(b.params)
              && a.names == b.names && SameHeaders(a.names, a.value, b.value)
              && a.payloadHash == b.payloadHash
  {
    hide Rendered, Rest, CanonicalPath, CanonicalPairs, SameHeaders, PresignedAs, OneLineValues;
    RenderedInLines(a);
    RenderedInLines(b);
    CanonicalPathIff(a.path, b.path);
    CanonicalIffSameParameters(a.params, b.params);
    if Rendered(a) == Rendered(b) {
      FrontReadBack(a, b);
      SameNames(a, listA, b, listB);
      RestReadBack(a, b);
    } else if a.names == b.names && SameHeaders(a.names, a.value, b.value) && a.payloadHash == b.payloadHash {
      SameRest(a, b);
    }
  }

  lemma SameNames(a: Request, listA: Bytes, b: Request, listB: Bytes)
    requires PresignedAs(a, listA) && PresignedAs(b, listB) && multiset(a.params) == multiset(b.params)
    ensures listA == listB && a.names == b.names
  {
    hide SortedNames, Split;
    assert (SIGNED_HEADERS, listA) in a.params;
    assert (SIGNED_HEADERS, listA) in multiset(b.params);
    HeadersIgnoreOrder(a.names, Split(listA, ';'), b.names, Split(listB, ';'));
  }

  lemma RestReadBack(a: Request, b: Request)
    requires a.names == b.names && Rest(a) == Rest(b)
    requires OneLineValues(a.names, a.value) && OneLineValues(b.names, b.value)
    ensures SameHeaders(a.names, a.value, b.value) && a.payloadHash == b.payloadHash
  {
    hide HeaderLines, Join, SameHeaders, OneLineValues;
    var joined := Join(a.names, ';') + ['\n'];
    ValuesReadBack(a.names, a.value, joined + a.payloadHash, b.value, joined + b.payloadHash);
    assert (joined + a.payloadHash)[|joined|..] == a.payloadHash;
    assert (joined + b.payloadHash)[|joined|..] == b.payloadHash;
  }

  // ---------------------------------------------------------------------------
  // The code
  // ---------------------------------------------------------------------------

  /** A presigned URL does not sign its own signature. */
  function Excluded(presigned: bool): Bytes {
    if presigned then "X-Amz-Signature" else ""
  }

  /** The signature in a presigned query does not count: with any other, or none, the
      canonical query is the same. */
  lemma SignatureDoesNotCount(ps: seq<Pair>, parsed: map<Bytes, seq<Bytes>>, qs: seq<Pair>, signatures: seq<Bytes>)
    requires Lists(ps, parsed, Excluded(true))
    requires Lists(qs, parsed["X-Amz-Signature" := signatures], Excluded(true))
    ensures CanonicalPairs(ps) == CanonicalPairs(qs)
  {
    hide CanonicalPairs;
    QueryIffSameParameters(ps, parsed, qs, parsed["X-Amz-Signature" := signatures], Excluded(true));
  }

  /** A request that is not presigned has all its named parameters signed. */
  lemma AllParametersCount(ps: seq<Pair>, parsed: map<Bytes, seq<Bytes>>, k: Bytes, v: Bytes)
    requires Lists(ps, parsed, Excluded(false)) && k != []
    ensures (k, v) in ps <==> k in parsed && v in parsed[k]
  {
    ListedParameters(ps, parsed, Excluded(false), k, v);
  }

  /** A canonical request written out. */
  lemma RenderedExample(value: string -> string)
    requires value("host") == "h" && value("x-amz-date") == "t"
    ensures Rendered(Request("GET", "/k", [], ["host", "x-amz-date"], value, "p"))
            == "GET\n/k\n\nhost:h\nx-amz-date:t\n\nhost;x-amz-date\np"
  {
    hide CanonicalPath, CanonicalPairs, HeaderLines, Join;
    HeaderLinesExample(value);
    TwoJoined("host", "x-amz-date", ';');
    PathExample();
    NoQuery();
    assert "host" + [';'] + "x-amz-date" == "host;x-amz-date";
    FrontJoined();
    assert "GET\n/k\n\nhost:h\nx-amz-date:t\n\n" + "host;x-amz-date" + "\n" + "p"
           == "GET\n/k\n\nhost:h\nx-amz-date:t\n\nhost;x-amz-date\np";
  }

  lemma FrontJoined()
    ensures "GET" + "\n" + "/k" + "\n" + "" + "\n" + "host:h\nx-amz-date:t\n" + "\n"
            == "GET\n/k\n\nhost:h\nx-amz-date:t\n\n"
  {
  }

  lemma PathExample()
    ensures CanonicalPath("/k") == "/k"
  {
    BareIsKept("/k", false);
  }

  lemma NoQuery()
    ensures CanonicalPairs([]) == ""
  {
    assert Sorting.Mapped([], EncodePair) == [];
  }

  method BuildCanonicalRequest(httpMethod: string, path: Bytes, parsed: map<Bytes, seq<Bytes>>, presigned: bool,
                               signedHeaders: seq<string>, value: string -> string, payloadHash: string)
    returns (r: string)
    ensures exists ps :: Lists(ps, parsed, Excluded(presigned))
    ensures exists names ::
              SortedNames(names, signedHeaders)
              && forall ps | Lists(ps, parsed, Excluded(presigned)) ::
                   r == Rendered(Request(httpMethod, path, ps, names, value, payloadHash))
  {
    hide Lists, SortedNames, CanonicalPath, CanonicalPairs, HeaderLines, Join;
    var uri := CanonicalURI(path);
    var query := CanonicalQueryStringExcluding(parsed, Excluded(presigned));
    var headers, joined := BuildCanonicalHeaders(value, signedHeaders);
    r := httpMethod + "\n" + uri + "\n" + query + "\n" + headers + "\n" + joined + "\n" + payloadHash;
  }
}
