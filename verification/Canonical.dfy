/** The canonical forms that Signature Version 4 signs (internal/api/s3/auth.go). */
module Canonical {
  import opened Strings
  import opened Sorting

  // ---------------------------------------------------------------------------
  // Percent encoding
  // ---------------------------------------------------------------------------

  predicate Unreserved(c: Byte, encodeSlash: bool) {
    || 'A' <= c <= 'Z' || 'a' <= c <= 'z' || '0' <= c <= '9'
    || c == '-' || c == '.' || c == '_' || c == '~'
    || (!encodeSlash && c == '/')
  }

  function HexDigit(d: nat): Byte
    requires d < 16
  {
    "0123456789ABCDEF"[d]
  }

  function HexDigitValue(c: Byte): nat {
    if '0' <= c <= '9' then c as nat - '0' as nat
    else if 'A' <= c <= 'F' then c as nat - 'A' as nat + 10
    else 0
  }

  function EncodeByte(c: Byte, encodeSlash: bool): Bytes {
    if Unreserved(c, encodeSlash) then [c]
    else ['%', HexDigit(c as nat / 16), HexDigit(c as nat % 16)]
  }

  function Encoded(s: Bytes, encodeSlash: bool): Bytes {
    if s == [] then [] else EncodeByte(s[0], encodeSlash) + Encoded(s[1..], encodeSlash)
  }

  /** Bare are the unreserved characters of section 2.3 of RFC 3986, and the slash
      where it is not to be encoded. */
  lemma BareBytesAre(c: Byte, encodeSlash: bool)
    ensures Encoded([c], encodeSlash) == [c] <==>
              'A' <= c <= 'Z' || 'a' <= c <= 'z' || '0' <= c <= '9'
              || c in {'-', '.', '_', '~'} || (c == '/' && !encodeSlash)
  {
    assert [c][1..] == [];
  }

  /** Every other byte becomes a percent sign and two upper-case hexadecimal digits. */
  lemma EncodedByteIs(c: Byte, encodeSlash: bool)
    ensures Unreserved(c, encodeSlash) ==> Encoded([c], encodeSlash) == [c]
    ensures !Unreserved(c, encodeSlash) ==>
              Encoded([c], encodeSlash)
              == ['%', "0123456789ABCDEF"[c as nat / 16], "0123456789ABCDEF"[c as nat % 16]]
  {
    assert [c][1..] == [];
  }

  lemma {:induction false} BareIsKept(s: Bytes, encodeSlash: bool)
    requires forall c :: c in s ==> Unreserved(c, encodeSlash)
    ensures Encoded(s, encodeSlash) == s
  {
    hide Unreserved;
    if s != [] {
      BareIsKept(s[1..], encodeSlash);
      assert s == [s[0]] + s[1..];
    }
  }

  lemma EncodedExample()
    ensures Encoded("a b", true) == "a%20b" && Encoded("/", true) == "%2F" && Encoded("/", false) == "/"
    ensures Encoded(['\U{c3}', '\U{a9}'], true) == "%C3%A9"
  {
    assert "a b"[1..] == " b" && " b"[1..] == "b" && "b"[1..] == "" && "/"[1..] == "";
    assert Encoded("b", true) == "b" && Encoded(" b", true) == "%20b";
    assert ['\U{c3}', '\U{a9}'][1..] == ['\U{a9}'] && ['\U{a9}'][1..] == [];
    assert Encoded(['\U{a9}'], true) == "%A9";
  }

  lemma EncodedStep(s: Bytes, encodeSlash: bool, i: nat)
    requires i < |s|
    ensures Encoded(s[i..], encodeSlash) == EncodeByte(s[i], encodeSlash) + Encoded(s[i + 1..], encodeSlash)
  {
    assert s[i..][1..] == s[i + 1..];
  }

  method UriEncode(s: Bytes, encodeSlash: bool) returns (buf: Bytes)
    ensures buf == Encoded(s, encodeSlash)
  {
    hide Encoded, Unreserved, HexDigit;
    buf := [];
    assert s[0..] == s;
    for i := 0 to |s|
      invariant buf + Encoded(s[i..], encodeSlash) == Encoded(s, encodeSlash)
    {
      EncodedStep(s, encodeSlash, i);
      var c := s[i];
      if Unreserved(c, encodeSlash) {
        buf := buf + [c];
      } else {
        buf := buf + ['%', HexDigit(c as nat / 16), HexDigit(c as nat % 16)];
      }
    }
    assert s[|s|..] == [];
    EncodedNothing(encodeSlash);
  }

  lemma EncodedNothing(encodeSlash: bool)
    ensures Encoded([], encodeSlash) == []
  {
  }

  /** Percent decoding. */
  function Decoded(e: Bytes): Bytes {
    if e == [] then []
    else if e[0] == '%' && |e| >= 3 then
      [Pack(HexDigitValue(e[1]), HexDigitValue(e[2]))] + Decoded(e[3..])
    else
      [e[0]] + Decoded(e[1..])
  }

  function Pack(hi: nat, lo: nat): Byte {
    ((16 * hi + lo) % 256) as char
  }

  lemma HexDigitReadBack(d: nat)
    requires d < 16
    ensures HexDigitValue(HexDigit(d)) == d
    ensures Unreserved(HexDigit(d), true)
  {
  }

  lemma EncodeByteReadBack(c: Byte, encodeSlash: bool, rest: Bytes)
    ensures Decoded(EncodeByte(c, encodeSlash) + rest) == [c] + Decoded(rest)
  {
    HexDigitReadBack(c as nat / 16);
    HexDigitReadBack(c as nat % 16);
    var e := EncodeByte(c, encodeSlash);
    assert Pack(c as nat / 16, c as nat % 16) == c;
    if Unreserved(c, encodeSlash) {
      assert (e + rest)[1..] == rest;
    } else {
      assert (e + rest)[3..] == rest;
    }
  }

  /** Decoding undoes encoding, so encoding is injective. */
  lemma {:induction false} DecodeUndoesEncode(s: Bytes, encodeSlash: bool)
    ensures Decoded(Encoded(s, encodeSlash)) == s
  {
    if s != [] {
      DecodeUndoesEncode(s[1..], encodeSlash);
      EncodeByteReadBack(s[0], encodeSlash, Encoded(s[1..], encodeSlash));
    }
  }

  /** What encoding never produces. */
  lemma {:induction false} EncodedIsSafe(s: Bytes, encodeSlash: bool)
    ensures '=' !in Encoded(s, encodeSlash) && '&' !in Encoded(s, encodeSlash) && '\n' !in Encoded(s, encodeSlash)
    ensures encodeSlash ==> '/' !in Encoded(s, encodeSlash)
  {
    if s != [] {
      EncodedIsSafe(s[1..], encodeSlash);
      HexDigitReadBack(s[0] as nat / 16);
      HexDigitReadBack(s[0] as nat % 16);
    }
  }

  // ---------------------------------------------------------------------------
  // Splitting and joining
  // ---------------------------------------------------------------------------

  /** `strings.Join`. */
  function Join(parts: seq<string>, sep: char): string {
    if parts == [] then "" else if |parts| == 1 then parts[0] else parts[0] + [sep] + Join(parts[1..], sep)
  }

  /** `strings.Split` at a single byte. */
  function Split(s: Bytes, sep: Byte): (parts: seq<Bytes>)
    ensures |parts| > 0
    decreases |s|
  {
    var i := IndexByte(s, sep);
    if i < 0 then [s] else [s[..i]] + Split(s[i + 1..], sep)
  }

  /** Joining is injective on parts that are not empty and free of the separator. */
  lemma {:induction false} JoinInjective(a: seq<string>, b: seq<string>, sep: char)
    requires forall p :: p in a + b ==> p != "" && sep !in p
    requires Join(a, sep) == Join(b, sep)
    ensures a == b
  {
    if a == [] || b == [] {
      assert a + b == if a == [] then b else a;
      JoinIsNotEmpty(a + b, sep);
    } else {
      assert a[0] in a + b && b[0] in a + b;
      HeadOfJoin(a, b, sep);
      if |a| > 1 {
        assert forall p :: p in a[1..] + b[1..] ==> p in a + b;
        JoinInjective(a[1..], b[1..], sep);
      }
      assert a == [a[0]] + a[1..] && b == [b[0]] + b[1..];
    }
  }

  lemma JoinIsNotEmpty(a: seq<string>, sep: char)
    requires forall p :: p in a ==> p != ""
    ensures Join(a, sep) == "" <==> a == []
  {
    if |a| > 1 { assert |Join(a, sep)| > 0; }
    if |a| == 1 { assert a[0] in a; }
  }

  lemma HeadOfJoin(a: seq<string>, b: seq<string>, sep: char)
    requires a != [] && b != [] && sep !in a[0] && sep !in b[0]
    requires Join(a, sep) == Join(b, sep)
    ensures a[0] == b[0] && (|a| > 1 <==> |b| > 1)
    ensures |a| > 1 ==> Join(a[1..], sep) == Join(b[1..], sep)
  {
    if |a| > 1 && |b| > 1 {
      FirstCutUnique(a[0], Join(a[1..], sep), b[0], Join(b[1..], sep), sep);
    }
    assert |a| > 1 ==> sep in Join(a, sep) by { if |a| > 1 { assert Join(a, sep)[|a[0]|] == sep; } }
    assert |b| > 1 ==> sep in Join(b, sep) by { if |b| > 1 { assert Join(b, sep)[|b[0]|] == sep; } }
  }

  // ---------------------------------------------------------------------------
  // The path
  // ---------------------------------------------------------------------------

  function EncodeAll(segs: seq<Bytes>): (r: seq<Bytes>)
    ensures |r| == |segs|
    ensures forall i :: 0 <= i < |segs| ==> r[i] == Encoded(segs[i], true)
  {
    Mapped(segs, s => Encoded(s, true))
  }

  function CanonicalPath(path: Bytes): string {
    if path == [] then "/" else Encoded(path, false)
  }

  /** Encodes each path segment, keeping the slashes. */
  method CanonicalURI(rawPath: Bytes) returns (uri: string)
    ensures uri == CanonicalPath(rawPath)
  {
    hide Encoded, Split, Join;
    if rawPath == [] {
      return "/";
    }
    var segs := Split(rawPath, '/');
    var encoded: seq<Bytes> := [];
    for i := 0 to |segs|
      invariant encoded == EncodeAll(segs[..i])
    {
      assert segs[..i + 1][..i] == segs[..i];
      var e := UriEncode(segs[i], true);
      encoded := encoded + [e];
    }
    assert segs[..|segs|] == segs;
    SegmentwiseIsWhole(rawPath);
    uri := Join(encoded, '/');
  }

  lemma EncodedCons(c: Byte, rest: Bytes, encodeSlash: bool)
    ensures Encoded([c] + rest, encodeSlash) == EncodeByte(c, encodeSlash) + Encoded(rest, encodeSlash)
  {
    hide EncodeByte;
    assert ([c] + rest)[1..] == rest;
  }

  lemma {:induction false} EncodedConcat(a: Bytes, b: Bytes, encodeSlash: bool)
    ensures Encoded(a + b, encodeSlash) == Encoded(a, encodeSlash) + Encoded(b, encodeSlash)
  {
    hide Encoded, EncodeByte;
    if a == [] {
      EncodedNothing(encodeSlash);
      assert a + b == b;
    } else {
      EncodedConcat(a[1..], b, encodeSlash);
      EncodedCons(a[0], a[1..], encodeSlash);
      EncodedCons(a[0], a[1..] + b, encodeSlash);
      assert a == [a[0]] + a[1..] && a + b == [a[0]] + (a[1..] + b);
    }
  }

  lemma {:induction false} NoSlashNoDifference(s: Bytes)
    requires '/' !in s
    ensures Encoded(s, true) == Encoded(s, false)
  {
    if s != [] {
      assert s[0] in s;
      NoSlashNoDifference(s[1..]);
    }
  }

  lemma JoinStep(head: string, rest: seq<string>, sep: char)
    ensures Join([head], sep) == head
    ensures rest != [] ==> Join([head] + rest, sep) == head + [sep] + Join(rest, sep)
  {
    assert ([head] + rest)[1..] == rest;
  }

  lemma EncodeAllStep(head: Bytes, rest: seq<Bytes>)
    ensures EncodeAll([head]) == [Encoded(head, true)]
    ensures EncodeAll([head] + rest) == [Encoded(head, true)] + EncodeAll(rest)
  {
    hide Encoded;
    var segs := [head] + rest;
    forall i | 0 <= i < |segs| ensures EncodeAll(segs)[i] == ([Encoded(head, true)] + EncodeAll(rest))[i] {
      if i > 0 { assert segs[i] == rest[i - 1]; }
    }
  }

  /** Encoding segment by segment is encoding the whole path but its slashes. */
  lemma {:induction false} SegmentwiseIsWhole(path: Bytes)
    ensures Join(EncodeAll(Split(path, '/')), '/') == Encoded(path, false)
    decreases |path|
  {
    hide Encoded, EncodeAll, Join;
    var i := IndexByte(path, '/');
    if i < 0 {
      NoSlashNoDifference(path);
      EncodeAllStep(path, []);
      JoinStep(Encoded(path, true), [], '/');
    } else {
      var head, tail := path[..i], path[i + 1..];
      SegmentwiseIsWhole(tail);
      NoSlashNoDifference(head);
      EncodedAtSlash(path, i);
      EncodeAllStep(head, Split(tail, '/'));
      JoinStep(Encoded(head, true), EncodeAll(Split(tail, '/')), '/');
    }
  }

  lemma EncodedAtSlash(path: Bytes, i: nat)
    requires i < |path| && path[i] == '/'
    ensures Encoded(path, false) == Encoded(path[..i], false) + "/" + Encoded(path[i + 1..], false)
  {
    hide Encoded, HexDigit;
    EncodedConcat(path[..i], path[i..], false);
    assert path == path[..i] + path[i..];
    EncodedStep(path, false, i);
    assert EncodeByte('/', false) == ['/'];
  }

  /** Two paths have the same canonical form if and only if they are the same, or
      one is empty and the other the root. */
  lemma CanonicalPathIff(p: Bytes, q: Bytes)
    ensures CanonicalPath(p) == CanonicalPath(q) <==> p == q || (p in {[], ['/']} && q in {[], ['/']})
  {
    hide Encoded;
    DecodeUndoesEncode(p, false);
    DecodeUndoesEncode(q, false);
    DecodeUndoesEncode(['/'], false);
    SlashEncoded();
  }

  lemma SlashEncoded()
    ensures Encoded(['/'], false) == ['/']
  {
    assert ['/'][1..] == [];
  }

  // ---------------------------------------------------------------------------
  // The query
  // ---------------------------------------------------------------------------

  type Pair = (Bytes, Bytes)

  predicate PairAtMost(p: Pair, q: Pair) {
    if p.0 != q.0 then Less(p.0, q.0) else AtMost(p.1, q.1)
  }

  function EncodePair(p: Pair): Pair {
    (Encoded(p.0, true), Encoded(p.1, true))
  }

  function DecodePair(p: Pair): Pair {
    (Decoded(p.0), Decoded(p.1))
  }

  function RenderPair(p: Pair): Bytes {
    p.0 + "=" + p.1
  }

  /** The encoded parameters in order. */
  function SortedPairs(ps: seq<Pair>): seq<Pair> {
    Sort(Mapped(ps, EncodePair), PairAtMost)
  }

  /** The canonical string of parameters given in any order. */
  function CanonicalPairs(ps: seq<Pair>): string {
    Join(Mapped(SortedPairs(ps), RenderPair), '&')
  }

  /** How often a parsed query has the parameter, the excluded key not counting. */
  ghost function Count(parsed: map<Bytes, seq<Bytes>>, exclude: Bytes, k: Bytes, v: Bytes): nat {
    if k in parsed && k != exclude then multiset(parsed[k])[v] else 0
  }

  /** `ps` lists the parsed parameters but the excluded one, in some order. */
  ghost predicate Lists(ps: seq<Pair>, parsed: map<Bytes, seq<Bytes>>, exclude: Bytes) {
    forall k: Bytes, v: Bytes :: multiset(ps)[(k, v)] == Count(parsed, exclude, k, v)
  }

  lemma PairOrderIsTotal()
    ensures TotalOrder(PairAtMost)
  {
    forall p: Pair, q: Pair ensures PairAtMost(p, q) || PairAtMost(q, p) {
      LessTotal(p.0, q.0);
      LessTotal(p.1, q.1);
    }
    forall p: Pair, q: Pair | PairAtMost(p, q) && PairAtMost(q, p) ensures p == q {
      if p.0 != q.0 { LessAsymmetric(p.0, q.0); }
      else if p.1 != q.1 { LessAsymmetric(p.1, q.1); }
    }
    forall p: Pair, q: Pair, r: Pair | PairAtMost(p, q) && PairAtMost(q, r)
      ensures PairAtMost(p, r)
    {
      if p.0 != q.0 && q.0 != r.0 { LessTransitive(p.0, q.0, r.0); LessAsymmetric(p.0, q.0); }
      if p.0 == q.0 == r.0 && p.1 != q.1 && q.1 != r.1 { LessTransitive(p.1, q.1, r.1); }
      if p.0 == r.0 && p.0 != q.0 { LessAsymmetric(p.0, q.0); }
    }
  }

  lemma PairsReadBack(ps: seq<Pair>)
    ensures Mapped(Mapped(ps, EncodePair), DecodePair) == ps
  {
    forall i | 0 <= i < |ps| ensures DecodePair(EncodePair(ps[i])) == ps[i] {
      DecodeUndoesEncode(ps[i].0, true);
      DecodeUndoesEncode(ps[i].1, true);
    }
  }

  ghost predicate Safe(p: Pair) {
    '=' !in p.0 && '&' !in p.0 && '&' !in p.1 && '\n' !in p.0 && '\n' !in p.1
  }

  lemma SortedPairsAreSafe(ps: seq<Pair>)
    ensures multiset(SortedPairs(ps)) == multiset(Mapped(ps, EncodePair))
    ensures forall i :: 0 <= i < |SortedPairs(ps)| ==> Safe(SortedPairs(ps)[i])
  {
    hide Sort, PairAtMost;
    PairOrderIsTotal();
    var encoded, sorted := Mapped(ps, EncodePair), SortedPairs(ps);
    SortSorts(encoded, PairAtMost);
    forall i | 0 <= i < |sorted| ensures Safe(sorted[i]) {
      assert sorted[i] in multiset(sorted) && sorted[i] in multiset(encoded);
      var j :| 0 <= j < |encoded| && encoded[j] == sorted[i];
      EncodedIsSafe(ps[j].0, true);
      EncodedIsSafe(ps[j].1, true);
    }
  }

  lemma RenderInjective(p: Pair, q: Pair)
    requires Safe(p) && Safe(q) && RenderPair(p) == RenderPair(q)
    ensures p == q
  {
    assert p.0 + ['='] + p.1 == q.0 + ['='] + q.1;
    FirstCutUnique(p.0, p.1, q.0, q.1, '=');
  }

  /** Equal canonical strings come from equal sorted lists. */
  lemma SortedPairsFromString(ps: seq<Pair>, qs: seq<Pair>)
    requires CanonicalPairs(ps) == CanonicalPairs(qs)
    ensures SortedPairs(ps) == SortedPairs(qs)
  {
    hide SortedPairs, Join, Mapped;
    SortedPairsAreSafe(ps);
    SortedPairsAreSafe(qs);
    var s, t := SortedPairs(ps), SortedPairs(qs);
    var a, b := Mapped(s, RenderPair), Mapped(t, RenderPair);
    forall p | p in a + b ensures p != "" && '&' !in p {
      if i :| 0 <= i < |a| && a[i] == p { assert Safe(s[i]); }
      else { var i :| 0 <= i < |b| && b[i] == p; assert Safe(t[i]); }
    }
    JoinInjective(a, b, '&');
    forall i | 0 <= i < |s| ensures s[i] == t[i] {
      assert Safe(s[i]) && Safe(t[i]) && a[i] == b[i];
      RenderInjective(s[i], t[i]);
    }
  }

  /** The string is the parameters, each encoded as `key=value`, in the order of the
      encoded keys, and of the encoded values under the same key, between `&`. */
  lemma CanonicalPairsAre(ps: seq<Pair>) returns (s: seq<Pair>)
    ensures multiset(s) == multiset(Encodings(ps))
    ensures forall i, j :: 0 <= i < j < |s| ==>
              Less(s[i].0, s[j].0) || (s[i].0 == s[j].0 && AtMost(s[i].1, s[j].1))
    ensures CanonicalPairs(ps) == Join(seq(|s|, i requires 0 <= i < |s| => s[i].0 + "=" + s[i].1), '&')
  {
    hide Encoded, Join, Sort, Less;
    PairOrderIsTotal();
    s := SortedPairs(ps);
    assert Mapped(ps, EncodePair) == Encodings(ps);
    SortSorts(Mapped(ps, EncodePair), PairAtMost);
    assert Mapped(s, RenderPair) == seq(|s|, i requires 0 <= i < |s| => s[i].0 + "=" + s[i].1);
  }

  function Encodings(ps: seq<Pair>): (r: seq<Pair>)
    ensures |r| == |ps| && forall i :: 0 <= i < |ps| ==> r[i] == (Encoded(ps[i].0, true), Encoded(ps[i].1, true))
  {
    seq(|ps|, i requires 0 <= i < |ps| => (Encoded(ps[i].0, true), Encoded(ps[i].1, true)))
  }

  /** The query of a part upload: partNumber comes before uploadId, whatever the
      values. */
  lemma PartQueryExample()
    ensures CanonicalPairs([("uploadId", "0a"), ("partNumber", "1")]) == "partNumber=1&uploadId=0a"
  {
    hide CanonicalPairs, Encoded, Join, Less, Encodings;
    var s := CanonicalPairsAre([("uploadId", "0a"), ("partNumber", "1")]);
    PartEncodings();
    PartBeforeUpload();
    TwoInOrder(s, ("partNumber", "1"), ("uploadId", "0a"));
    PartRendered(s);
  }

  lemma PartEncodings()
    ensures multiset(Encodings([("uploadId", "0a"), ("partNumber", "1")]))
            == multiset{("partNumber", "1"), ("uploadId", "0a")}
  {
    hide Encoded;
    BareIsKept("uploadId", true);
    BareIsKept("0a", true);
    BareIsKept("partNumber", true);
    BareIsKept("1", true);
    var ps: seq<Pair> := [("uploadId", "0a"), ("partNumber", "1")];
    assert Encodings(ps) == ps;
  }

  lemma PartRendered(s: seq<Pair>)
    requires s == [("partNumber", "1"), ("uploadId", "0a")]
    ensures Join(seq(|s|, i requires 0 <= i < |s| => s[i].0 + "=" + s[i].1), '&') == "partNumber=1&uploadId=0a"
  {
    hide Join;
    assert "partNumber" + "=" + "1" == "partNumber=1" && "uploadId" + "=" + "0a" == "uploadId=0a";
    assert seq(|s|, i requires 0 <= i < |s| => s[i].0 + "=" + s[i].1) == ["partNumber=1", "uploadId=0a"];
    TwoJoined("partNumber=1", "uploadId=0a", '&');
    assert "partNumber=1" + ['&'] + "uploadId=0a" == "partNumber=1&uploadId=0a";
  }

  lemma PartBeforeUpload()
    ensures Less("partNumber", "uploadId") && !Less("uploadId", "partNumber")
  {
  }

  lemma TwoInOrder(s: seq<Pair>, p: Pair, q: Pair)
    requires multiset(s) == multiset{p, q} && !Less(q.0, p.0) && q.0 != p.0
    requires forall i, j :: 0 <= i < j < |s| ==> Less(s[i].0, s[j].0) || (s[i].0 == s[j].0 && AtMost(s[i].1, s[j].1))
    ensures s == [p, q]
  {
    hide Less;
    assert |s| == |multiset(s)| == 2;
    assert s == [s[0], s[1]];
    assert multiset(s) == multiset{s[0], s[1]};
    assert s[0] in multiset{p, q} && s[1] in multiset{p, q};
    assert multiset{p, q}[p] == 1 && multiset{p, q}[q] == 1;
  }

  lemma TwoJoined(a: string, b: string, sep: char)
    ensures Join([a, b], sep) == a + [sep] + b && Join([a], sep) == a && Join([], sep) == ""
  {
    assert [a, b][1..] == [b];
  }

  /** Which parameters a list of a parsed query's has. */
  lemma ListedParameters(ps: seq<Pair>, parsed: map<Bytes, seq<Bytes>>, exclude: Bytes, k: Bytes, v: Bytes)
    requires Lists(ps, parsed, exclude)
    ensures (k, v) in ps <==> k in parsed && k != exclude && v in parsed[k]
    ensures k in parsed && k != exclude ==> multiset(ps)[(k, v)] == multiset(parsed[k])[v]
  {
    assert (k, v) in ps <==> multiset(ps)[(k, v)] > 0;
    assert multiset(ps)[(k, v)] == Count(parsed, exclude, k, v);
  }

  /** Two lists of parameters have the same canonical string if and only if they
      are the same multiset: order does not matter, everything else does. */
  lemma CanonicalIffSameParameters(ps: seq<Pair>, qs: seq<Pair>)
    ensures CanonicalPairs(ps) == CanonicalPairs(qs) <==> multiset(ps) == multiset(qs)
  {
    hide CanonicalPairs, Mapped, Sort;
    if multiset(ps) == multiset(qs) {
      SameParametersSameString(ps, qs);
    }
    if CanonicalPairs(ps) == CanonicalPairs(qs) {
      SortedPairsFromString(ps, qs);
      SortedPairsAreSafe(ps);
      SortedPairsAreSafe(qs);
      MappedRearranged(Mapped(ps, EncodePair), Mapped(qs, EncodePair), DecodePair);
      PairsReadBack(ps);
      PairsReadBack(qs);
    }
  }

  lemma SameParametersSameString(ps: seq<Pair>, qs: seq<Pair>)
    requires multiset(ps) == multiset(qs)
    ensures CanonicalPairs(ps) == CanonicalPairs(qs)
  {
    hide Mapped, Sort, PairAtMost, Join;
    PairOrderIsTotal();
    MappedRearranged(ps, qs, EncodePair);
    SortIgnoresOrder(Mapped(ps, EncodePair), Mapped(qs, EncodePair), PairAtMost);
  }

  /** The parameters of a parsed query, the excluded key left out, are one
      multiset, in whatever order its map is walked. */
  lemma ListsIsOneMultiset(ps: seq<Pair>, qs: seq<Pair>, parsed: map<Bytes, seq<Bytes>>, exclude: Bytes)
    requires Lists(ps, parsed, exclude) && Lists(qs, parsed, exclude)
    ensures multiset(ps) == multiset(qs)
  {
    forall p: Pair ensures multiset(ps)[p] == multiset(qs)[p] {
      assert p == (p.0, p.1);
    }
  }

  /** Two parsed queries have the same canonical string if and only if they have
      every parameter but the excluded one equally often. */
  lemma QueryIffSameParameters(ps: seq<Pair>, p: map<Bytes, seq<Bytes>>, qs: seq<Pair>, q: map<Bytes, seq<Bytes>>,
                               exclude: Bytes)
    requires Lists(ps, p, exclude) && Lists(qs, q, exclude)
    ensures CanonicalPairs(ps) == CanonicalPairs(qs)
            <==> forall k: Bytes, v: Bytes :: Count(p, exclude, k, v) == Count(q, exclude, k, v)
  {
    hide CanonicalPairs;
    CanonicalIffSameParameters(ps, qs);
    if multiset(ps) == multiset(qs) {
      forall k: Bytes, v: Bytes ensures Count(p, exclude, k, v) == Count(q, exclude, k, v) {
        assert multiset(ps)[(k, v)] == multiset(qs)[(k, v)];
      }
    } else {
      var x: Pair :| multiset(ps)[x] != multiset(qs)[x];
      assert x == (x.0, x.1);
      assert Count(p, exclude, x.0, x.1) != Count(q, exclude, x.0, x.1);
    }
  }

  /** `ps` lists the parameters of the keys in `done`. */
  ghost predicate ListsSome(ps: seq<Pair>, parsed: map<Bytes, seq<Bytes>>, exclude: Bytes, done: set<Bytes>) {
    forall k: Bytes, v: Bytes ::
      multiset(ps)[(k, v)] == if k in done then Count(parsed, exclude, k, v) else 0
  }

  function Pairs(k: Bytes, vals: seq<Bytes>): seq<Pair> {
    Mapped(vals, v => (k, v))
  }

  lemma {:induction false} PairsCounted(k: Bytes, vals: seq<Bytes>)
    ensures forall k': Bytes, v: Bytes :: multiset(Pairs(k, vals))[(k', v)] == if k' == k then multiset(vals)[v] else 0
  {
    if vals != [] {
      PairsCounted(k, vals[1..]);
      assert vals == [vals[0]] + vals[1..];
      assert Pairs(k, vals) == [(k, vals[0])] + Pairs(k, vals[1..]);
    }
  }

  lemma ListsOneMore(ps: seq<Pair>, parsed: map<Bytes, seq<Bytes>>, exclude: Bytes, done: set<Bytes>, k: Bytes)
    requires ListsSome(ps, parsed, exclude, done) && k in parsed && k !in done
    ensures k == exclude ==> ListsSome(ps, parsed, exclude, done + {k})
    ensures k != exclude ==> ListsSome(ps + Pairs(k, parsed[k]), parsed, exclude, done + {k})
  {
    hide Pairs;
    PairsCounted(k, parsed[k]);
  }

  lemma ListsAll(ps: seq<Pair>, parsed: map<Bytes, seq<Bytes>>, exclude: Bytes)
    requires ListsSome(ps, parsed, exclude, parsed.Keys)
    ensures Lists(ps, parsed, exclude)
  {
  }

  /** Appends a key's values, encoded. */
  method AppendEncoded(pairs: seq<Pair>, k: Bytes, vals: seq<Bytes>) returns (r: seq<Pair>)
    ensures r == pairs + Mapped(Pairs(k, vals), EncodePair)
  {
    hide Encoded;
    r := pairs;
    for i := 0 to |vals|
      invariant |r| == |pairs| + i && r[..|pairs|] == pairs
      invariant forall j :: 0 <= j < i ==> r[|pairs| + j] == EncodePair((k, vals[j]))
    {
      var ek := UriEncode(k, true);
      var ev := UriEncode(vals[i], true);
      r := r + [(ek, ev)];
    }
    assert r[|pairs|..] == Mapped(Pairs(k, vals), EncodePair);
    assert r == r[..|pairs|] + r[|pairs|..];
  }

  lemma MappedAppend(a: seq<Pair>, b: seq<Pair>)
    ensures Mapped(a + b, EncodePair) == Mapped(a, EncodePair) + Mapped(b, EncodePair)
  {
    hide EncodePair;
  }

  method RenderAll(pairs: seq<Pair>) returns (parts: seq<Bytes>)
    ensures parts == Mapped(pairs, RenderPair)
  {
    parts := [];
    for i := 0 to |pairs|
      invariant |parts| == i && forall j :: 0 <= j < i ==> parts[j] == RenderPair(pairs[j])
    {
      parts := parts + [pairs[i].0 + "=" + pairs[i].1];
    }
  }

  /** Canonical form of a query, given what `url.ParseQuery` makes of it. The map
      may be walked in any order. */
  method CanonicalQueryStringExcluding(parsed: map<Bytes, seq<Bytes>>, exclude: Bytes) returns (r: string)
    ensures forall ps | Lists(ps, parsed, exclude) :: r == CanonicalPairs(ps)
    ensures exists ps :: Lists(ps, parsed, exclude)
    ensures forall ps | Lists(ps, parsed, exclude) ::
              exists s: seq<Pair> ::
                && multiset(s) == multiset(Encodings(ps))
                && (forall i, j :: 0 <= i < j < |s| ==>
                      Less(s[i].0, s[j].0) || (s[i].0 == s[j].0 && AtMost(s[i].1, s[j].1)))
                && r == Join(seq(|s|, i requires 0 <= i < |s| => s[i].0 + "=" + s[i].1), '&')
  {
    hide ListsSome, Lists, Pairs, Mapped, Sort, Join, Encoded, Less, AtMost, Encodings;
    ghost var params: seq<Pair> := [];
    var pairs: seq<Pair> := [];
    var left := parsed.Keys;
    ListsNone(parsed, exclude);
    while left != {}
      invariant left <= parsed.Keys && pairs == Mapped(params, EncodePair)
      invariant ListsSome(params, parsed, exclude, parsed.Keys - left)
    {
      var k :| k in left;
      ListsOneMore(params, parsed, exclude, parsed.Keys - left, k);
      assert parsed.Keys - (left - {k}) == parsed.Keys - left + {k};
      left := left - {k};
      if k == exclude {
        continue;
      }
      MappedAppend(params, Pairs(k, parsed[k]));
      pairs := AppendEncoded(pairs, k, parsed[k]);
      params := params + Pairs(k, parsed[k]);
    }
    assert parsed.Keys - {} == parsed.Keys;
    ListsAll(params, parsed, exclude);
    var parts := RenderAll(Sort(pairs, PairAtMost));
    r := Join(parts, '&');
    forall ps | Lists(ps, parsed, exclude) ensures r == CanonicalPairs(ps) {
      ListsIsOneMultiset(ps, params, parsed, exclude);
      SameParametersSameString(ps, params);
    }
    forall ps | Lists(ps, parsed, exclude)
      ensures exists s: seq<Pair> ::
                && multiset(s) == multiset(Encodings(ps))
                && (forall i, j :: 0 <= i < j < |s| ==>
                      Less(s[i].0, s[j].0) || (s[i].0 == s[j].0 && AtMost(s[i].1, s[j].1)))
                && r == Join(seq(|s|, i requires 0 <= i < |s| => s[i].0 + "=" + s[i].1), '&')
    {
      var s := CanonicalPairsAre(ps);
    }
  }

  lemma ListsNone(parsed: map<Bytes, seq<Bytes>>, exclude: Bytes)
    ensures ListsSome([], parsed, exclude, parsed.Keys - parsed.Keys)
    ensures Mapped([], EncodePair) == []
  {
  }

  // ---------------------------------------------------------------------------
  // The headers
  // ---------------------------------------------------------------------------

  function LowerChar(c: char): char {
    if 'A' <= c <= 'Z' then (c as int + 32) as char else c
  }

  function ToLower(s: string): string {
    Mapped(s, LowerChar)
  }

  /** The names of `signed` in lower case, sorted, each once. */
  ghost predicate SortedNames(sorted: seq<string>, signed: seq<string>) {
    && SortedBy(sorted, AtMost)
    && (forall i, j :: 0 <= i < j < |sorted| ==> sorted[i] != sorted[j])
    && (forall s :: s in sorted <==> s in Mapped(signed, ToLower))
  }

  function HeaderLines(sorted: seq<string>, value: string -> string): string {
    if sorted == [] then "" else sorted[0] + ":" + value(sorted[0]) + "\n" + HeaderLines(sorted[1..], value)
  }

  /** Only capital letters change. */
  lemma LoweredIs(s: string, i: nat)
    requires i < |s|
    ensures |ToLower(s)| == |s|
    ensures ToLower(s)[i] as int == if 'A' <= s[i] <= 'Z' then s[i] as int - 'A' as int + 'a' as int else s[i] as int
  {
  }

  lemma HeaderLinesExample(value: string -> string)
    requires value("host") == "h" && value("x-amz-date") == "t"
    ensures HeaderLines(["host", "x-amz-date"], value) == "host:h\nx-amz-date:t\n"
  {
    assert ["host", "x-amz-date"][1..] == ["x-amz-date"] && ["x-amz-date"][1..] == [];
    assert HeaderLines(["x-amz-date"], value) == "x-amz-date:t\n";
  }

  lemma {:induction false} DistinctIsSet(s: seq<string>)
    requires forall i, j :: 0 <= i < j < |s| ==> s[i] != s[j]
    ensures forall x :: multiset(s)[x] == if x in s then 1 else 0
  {
    if s != [] {
      DistinctIsSet(s[1..]);
      assert s == [s[0]] + s[1..];
    }
  }

  /** The canonical headers do not depend on the order, the case or the
      repetition of the signed names. */
  lemma HeadersIgnoreOrder(a: seq<string>, signedA: seq<string>, b: seq<string>, signedB: seq<string>)
    requires SortedNames(a, signedA) && SortedNames(b, signedB)
    requires forall s :: s in Mapped(signedA, ToLower) <==> s in Mapped(signedB, ToLower)
    ensures a == b
  {
    hide Mapped;
    DistinctIsSet(a);
    DistinctIsSet(b);
    assert multiset(a) == multiset(b);
    StringOrderIsTotal();
    SortedIsUnique(a, b, AtMost);
  }

  /** `value` gives a header's trimmed value, or the host, by lower-case name. */
  method BuildCanonicalHeaders(value: string -> string, signedHeaders: seq<string>)
    returns (canonical: string, joined: string)
    ensures exists sorted :: SortedNames(sorted, signedHeaders)
                             && canonical == HeaderLines(sorted, value) && joined == Join(sorted, ';')
  {
    hide Join, Sort, AtMost, HeaderLines, ToLower, Mapped;
    LoweredNone();
    var headers: map<string, string> := map[];
    for i := 0 to |signedHeaders|
      invariant forall s :: s in headers <==> s in Mapped(signedHeaders[..i], ToLower)
      invariant forall s :: s in headers ==> headers[s] == value(s)
    {
      assert signedHeaders[..i + 1] == signedHeaders[..i] + [signedHeaders[i]];
      LoweredOneMore(signedHeaders[..i], signedHeaders[i]);
      var lower := ToLower(signedHeaders[i]);
      headers := headers[lower := value(lower)];
    }
    assert signedHeaders[..|signedHeaders|] == signedHeaders;
    var names: seq<string> := [];
    var left := headers.Keys;
    while left != {}
      invariant left <= headers.Keys
      invariant forall s :: s in names <==> s in headers && s !in left
      invariant forall i, j :: 0 <= i < j < |names| ==> names[i] != names[j]
    {
      var k :| k in left;
      left := left - {k};
      names := names + [k];
    }
    var keys := Sort(names, AtMost);
    SortedOnce(names);
    canonical := WriteHeaders(keys, headers, value);
    joined := Join(keys, ';');
    assert SortedNames(keys, signedHeaders);
  }

  method WriteHeaders(keys: seq<string>, headers: map<string, string>, ghost value: string -> string)
    returns (canonical: string)
    requires forall k :: k in keys ==> k in headers && headers[k] == value(k)
    ensures canonical == HeaderLines(keys, value)
  {
    hide HeaderLines;
    canonical := "";
    assert keys[0..] == keys;
    for i := 0 to |keys|
      invariant canonical + HeaderLines(keys[i..], value) == HeaderLines(keys, value)
    {
      assert keys[i] in keys;
      HeaderLine(keys, i, value);
      canonical := canonical + keys[i] + ":" + headers[keys[i]] + "\n";
    }
    HeaderLinesEnd(keys, value);
  }

  lemma LoweredOneMore(names: seq<string>, name: string)
    ensures Mapped(names + [name], ToLower) == Mapped(names, ToLower) + [ToLower(name)]
  {
  }

  lemma LoweredNone()
    ensures Mapped([], ToLower) == []
  {
  }

  lemma HeaderLine(keys: seq<string>, i: nat, value: string -> string)
    requires i < |keys|
    ensures HeaderLines(keys[i..], value)
            == keys[i] + ":" + value(keys[i]) + "\n" + HeaderLines(keys[i + 1..], value)
  {
    assert keys[i..][1..] == keys[i + 1..];
  }

  lemma HeaderLinesEnd(keys: seq<string>, value: string -> string)
    ensures HeaderLines(keys[|keys|..], value) == ""
  {
  }

  lemma SortedOnce(names: seq<string>)
    requires forall i, j :: 0 <= i < j < |names| ==> names[i] != names[j]
    ensures var sorted := Sort(names, AtMost);
            && SortedBy(sorted, AtMost)
            && (forall s :: s in sorted <==> s in names)
            && (forall i, j :: 0 <= i < j < |sorted| ==> sorted[i] != sorted[j])
  {
    hide Sort, AtMost;
    StringOrderIsTotal();
    SortSorts(names, AtMost);
    var sorted := Sort(names, AtMost);
    DistinctIsSet(names);
    forall s ensures s in sorted <==> s in names {
      assert s in multiset(sorted) <==> s in multiset(names);
    }
    forall i, j | 0 <= i < j < |sorted| ensures sorted[i] != sorted[j] {
      assert sorted == sorted[..i] + [sorted[i]] + sorted[i + 1..j] + [sorted[j]] + sorted[j + 1..];
      assert multiset(sorted)[sorted[i]] <= 1;
    }
  }
}
