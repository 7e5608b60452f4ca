/** Listing through a key prefix (internal/api/s3/buckets.go): the backend is
    asked with translated keys and its answer translated back, and the client
    sees the listing of its own keys. */
module ListingTranslation {
  import opened Strings
  import opened Strconv
  import opened Sorting
  import opened Models
  import opened Listing
  import opened ListingRun

  // ---------------------------------------------------------------------------
  // The two sides
  // ---------------------------------------------------------------------------

  /** The gateway's own objects: the backend objects under the prefix. */
  function GatewayEntries(prefix: string, es: seq<ObjectInfo>): seq<ObjectInfo> {
    if es == [] then []
    else
      var e := es[|es| - 1];
      GatewayEntries(prefix, es[..|es| - 1])
      + if Root(prefix) <= e.key then [ObjectInfo(DropPrefix(prefix, e.key), e.size)] else []
  }

  function TokenFor(prefix: string, token: string): string {
    if token == "" then "" else AddPrefix(prefix, token)
  }

  /** The backend's question for a gateway question. */
  function BackendInput(prefix: string, q: ListInput): ListInput {
    ListInput(AddPrefix(prefix, q.prefix), q.delimiter, q.maxKeys,
              TokenFor(prefix, q.startAfter), TokenFor(prefix, q.token))
  }

  function Lift(prefix: string, es: seq<ObjectInfo>): seq<ObjectInfo> {
    seq(|es|, i requires 0 <= i < |es| => ObjectInfo(AddPrefix(prefix, es[i].key), es[i].size))
  }

  function LiftKeys(prefix: string, keys: seq<string>): seq<string> {
    seq(|keys|, i requires 0 <= i < |keys| => AddPrefix(prefix, keys[i]))
  }

  function LiftPage(prefix: string, page: ListOutput): ListOutput {
    ListOutput(Lift(prefix, page.contents), LiftKeys(prefix, page.commonPrefixes),
               page.isTruncated, TokenFor(prefix, page.nextToken), page.keyCount)
  }

  function LiftPages(prefix: string, pages: seq<ListOutput>): seq<ListOutput> {
    seq(|pages|, i requires 0 <= i < |pages| => LiftPage(prefix, pages[i]))
  }

  // ---------------------------------------------------------------------------
  // One key
  // ---------------------------------------------------------------------------

  lemma MatchesTranslated(prefix: string, q: ListInput, key: string)
    ensures Matches(BackendInput(prefix, q), AddPrefix(prefix, key)) == Matches(q, key)
  {
    TranslationKeepsOrder(prefix, q.prefix, key);
    TranslationKeepsOrder(prefix, q.startAfter, key);
    TranslationKeepsOrder(prefix, q.token, key);
    assert q.startAfter != "" ==> AddPrefix(prefix, q.startAfter) != "";
    assert q.token != "" ==> AddPrefix(prefix, q.token) != "";
  }

  lemma OutsideNeverMatches(prefix: string, q: ListInput, backendKey: string)
    requires !(Root(prefix) <= backendKey)
    ensures !Matches(BackendInput(prefix, q), backendKey)
  {
    AddPrefixIsRoot(prefix, q.prefix);
    if Root(prefix) + q.prefix <= backendKey {
      PrefixTransitive(Root(prefix), Root(prefix) + q.prefix, backendKey);
    }
  }

  lemma GroupTranslated(prefix: string, q: ListInput, key: string)
    requires q.prefix <= key
    ensures GroupOf(BackendInput(prefix, q), AddPrefix(prefix, key))
            == match GroupOf(q, key) case None => None case Some(g) => Some(AddPrefix(prefix, g))
  {
    hide Index, Occurs;
    var r := Root(prefix);
    AddPrefixIsRoot(prefix, key);
    AddPrefixIsRoot(prefix, q.prefix);
    TranslationKeepsOrder(prefix, q.prefix, key);
    assert (r + key)[|r + q.prefix|..] == key[|q.prefix|..];
    if GroupOf(q, key).Some? {
      var g := GroupOf(q, key).value;
      AddPrefixIsRoot(prefix, g);
      var tail := g[|q.prefix|..];
      assert r + (q.prefix + tail) == (r + q.prefix) + tail;
    }
  }

  // ---------------------------------------------------------------------------
  // All entries
  // ---------------------------------------------------------------------------

  /** How a backend key counts in a listing is how the gateway's key counts. */
  lemma KeyTranslated(prefix: string, q: ListInput, key: string, backendKey: string)
    requires backendKey == AddPrefix(prefix, key)
    ensures IsPlain(BackendInput(prefix, q), backendKey) == IsPlain(q, key)
    ensures IsGrouped(BackendInput(prefix, q), backendKey) == IsGrouped(q, key)
    ensures IsGrouped(q, key) ==>
              GroupOf(BackendInput(prefix, q), backendKey) == Some(AddPrefix(prefix, GroupOf(q, key).value))
  {
    hide Matches, GroupOf, BackendInput, AddPrefix;
    MatchesTranslated(prefix, q, key);
    if Matches(q, key) {
      MatchesPrefix(q, key);
      GroupTranslated(prefix, q, key);
    }
  }

  lemma LiftAppend(prefix: string, es: seq<ObjectInfo>, g: ObjectInfo)
    ensures Lift(prefix, es + [g]) == Lift(prefix, es) + [ObjectInfo(AddPrefix(prefix, g.key), g.size)]
  {
    hide AddPrefix;
  }

  lemma EntryPlainTranslated(prefix: string, q: ListInput, es: seq<ObjectInfo>, e: ObjectInfo,
                             gs: seq<ObjectInfo>, g: ObjectInfo)
    requires e == ObjectInfo(AddPrefix(prefix, g.key), g.size)
    requires Plain(BackendInput(prefix, q), es) == Lift(prefix, Plain(q, gs))
    ensures Plain(BackendInput(prefix, q), es + [e]) == Lift(prefix, Plain(q, gs + [g]))
  {
    hide IsPlain, BackendInput, AddPrefix, Lift, Groups;
    assert (es + [e])[..|es|] == es && (gs + [g])[..|gs|] == gs;
    assert Plain(q, gs) + [] == Plain(q, gs);
    assert Plain(BackendInput(prefix, q), es) + [] == Plain(BackendInput(prefix, q), es);
    KeyTranslated(prefix, q, g.key, e.key);
    LiftAppend(prefix, Plain(q, gs), g);
  }

  lemma EntryGroupsTranslated(prefix: string, q: ListInput, es: seq<ObjectInfo>, e: ObjectInfo,
                              gs: seq<ObjectInfo>, g: ObjectInfo)
    requires e == ObjectInfo(AddPrefix(prefix, g.key), g.size)
    requires Groups(BackendInput(prefix, q), es) == LiftKeys(prefix, Groups(q, gs))
    ensures Groups(BackendInput(prefix, q), es + [e]) == LiftKeys(prefix, Groups(q, gs + [g]))
  {
    hide Matches, GroupOf, BackendInput, AddPrefix, LiftKeys, Plain;
    assert (es + [e])[..|es|] == es && (gs + [g])[..|gs|] == gs;
    KeyTranslated(prefix, q, g.key, e.key);
    if IsGrouped(q, g.key) {
      SeenTranslated(prefix, Groups(q, gs), GroupOf(q, g.key).value);
    }
  }

  lemma OutsideSkipped(prefix: string, q: ListInput, es: seq<ObjectInfo>, e: ObjectInfo)
    requires !(Root(prefix) <= e.key)
    ensures Plain(BackendInput(prefix, q), es + [e]) == Plain(BackendInput(prefix, q), es)
    ensures Groups(BackendInput(prefix, q), es + [e]) == Groups(BackendInput(prefix, q), es)
  {
    hide Matches, GroupOf, BackendInput, Root;
    assert (es + [e])[..|es|] == es;
    OutsideNeverMatches(prefix, q, e.key);
  }

  lemma NothingTranslated(prefix: string, q: ListInput)
    ensures Plain(BackendInput(prefix, q), []) == Lift(prefix, Plain(q, GatewayEntries(prefix, [])))
    ensures Groups(BackendInput(prefix, q), []) == LiftKeys(prefix, Groups(q, GatewayEntries(prefix, [])))
  {
    PlainOfNone(q);
    PlainOfNone(BackendInput(prefix, q));
  }

  lemma LastGatewayEntry(prefix: string, es: seq<ObjectInfo>, e: ObjectInfo) returns (g: ObjectInfo)
    ensures !(Root(prefix) <= e.key) ==> GatewayEntries(prefix, es + [e]) == GatewayEntries(prefix, es)
    ensures Root(prefix) <= e.key ==>
              GatewayEntries(prefix, es + [e]) == GatewayEntries(prefix, es) + [g]
              && e == ObjectInfo(AddPrefix(prefix, g.key), g.size)
  {
    hide AddPrefix, DropPrefix, Root;
    assert (es + [e])[..|es|] == es;
    g := ObjectInfo(DropPrefix(prefix, e.key), e.size);
    if Root(prefix) <= e.key { TranslationRoundTrip(prefix, g.key, e.key); }
  }

  lemma {:induction false} PlainTranslated(prefix: string, q: ListInput, es: seq<ObjectInfo>)
    ensures Plain(BackendInput(prefix, q), es) == Lift(prefix, Plain(q, GatewayEntries(prefix, es)))
    ensures Groups(BackendInput(prefix, q), es) == LiftKeys(prefix, Groups(q, GatewayEntries(prefix, es)))
  {
    hide Plain, Groups, GatewayEntries, Lift, LiftKeys, BackendInput, AddPrefix, Root;
    if es == [] {
      NothingTranslated(prefix, q);
    } else {
      var init, e := es[..|es| - 1], es[|es| - 1];
      assert es == init + [e];
      PlainTranslated(prefix, q, init);
      var g := LastGatewayEntry(prefix, init, e);
      if Root(prefix) <= e.key {
        EntryPlainTranslated(prefix, q, init, e, GatewayEntries(prefix, init), g);
        EntryGroupsTranslated(prefix, q, init, e, GatewayEntries(prefix, init), g);
      } else {
        OutsideSkipped(prefix, q, init, e);
      }
    }
  }

  lemma MatchesPrefix(q: ListInput, key: string)
    requires Matches(q, key)
    ensures q.prefix <= key
  {
  }

  lemma SeenTranslated(prefix: string, keys: seq<string>, key: string)
    ensures AddPrefix(prefix, key) in LiftKeys(prefix, keys) <==> key in keys
    ensures LiftKeys(prefix, keys + [key]) == LiftKeys(prefix, keys) + [AddPrefix(prefix, key)]
  {
    if key in keys {
      var i :| 0 <= i < |keys| && keys[i] == key;
      assert LiftKeys(prefix, keys)[i] == AddPrefix(prefix, key);
    }
    if AddPrefix(prefix, key) in LiftKeys(prefix, keys) {
      var i :| 0 <= i < |keys| && LiftKeys(prefix, keys)[i] == AddPrefix(prefix, key);
      TranslationKeepsOrder(prefix, keys[i], key);
    }
  }

  lemma {:induction false} GatewayMembers(prefix: string, es: seq<ObjectInfo>, g: ObjectInfo)
    requires g in GatewayEntries(prefix, es)
    ensures exists e :: e in es && e.key == AddPrefix(prefix, g.key) && e.size == g.size
  {
    var k := |es| - 1;
    if g in GatewayEntries(prefix, es[..k]) {
      GatewayMembers(prefix, es[..k], g);
      var e :| e in es[..k] && e.key == AddPrefix(prefix, g.key) && e.size == g.size;
      assert e in es;
    } else {
      TranslationRoundTrip(prefix, g.key, es[k].key);
      assert es[k] in es;
    }
  }

  lemma {:induction false} EntryUnderPrefix(prefix: string, es: seq<ObjectInfo>, e: ObjectInfo)
    requires e in es && Root(prefix) <= e.key
    ensures ObjectInfo(DropPrefix(prefix, e.key), e.size) in GatewayEntries(prefix, es)
  {
    var n := |es| - 1;
    if e in es[..n] {
      EntryUnderPrefix(prefix, es[..n], e);
    } else {
      assert es == es[..n] + [es[n]];
    }
  }

  /** The gateway's keys are in order because the backend's are. */
  lemma {:induction false} GatewaySorted(prefix: string, es: seq<ObjectInfo>)
    requires Sorted(es)
    ensures Sorted(GatewayEntries(prefix, es))
  {
    if es != [] {
      var k := |es| - 1;
      GatewaySorted(prefix, es[..k]);
      if Root(prefix) <= es[k].key {
        var last := DropPrefix(prefix, es[k].key);
        TranslationRoundTrip(prefix, last, es[k].key);
        forall g | g in GatewayEntries(prefix, es[..k]) ensures Less(g.key, last) {
          GatewayMembers(prefix, es[..k], g);
          var e :| e in es[..k] && e.key == AddPrefix(prefix, g.key) && e.size == g.size;
          TranslationKeepsOrder(prefix, g.key, last);
        }
      }
    }
  }

  lemma LastEntry(prefix: string, es: seq<ObjectInfo>, e: ObjectInfo, cut: string)
    ensures GatewayEntries(prefix, es + [e])
            == if Root(prefix) <= e.key
               then GatewayEntries(prefix, es) + [ObjectInfo(DropPrefix(prefix, e.key), e.size)]
               else GatewayEntries(prefix, es)
    ensures Below(es + [e], cut) == if Less(e.key, cut) then Below(es, cut) + [e] else Below(es, cut)
  {
    assert (es + [e])[..|es|] == es;
  }

  lemma {:induction false} BelowTranslated(prefix: string, es: seq<ObjectInfo>, cut: string)
    ensures GatewayEntries(prefix, Below(es, AddPrefix(prefix, cut))) == Below(GatewayEntries(prefix, es), cut)
  {
    hide AddPrefix, DropPrefix, Root, Less, Below, GatewayEntries;
    if es == [] {
      BelowNone(prefix, cut);
    } else {
      var init, e := es[..|es| - 1], es[|es| - 1];
      BelowTranslated(prefix, init, cut);
      assert es == init + [e];
      LastEntry(prefix, init, e, AddPrefix(prefix, cut));
      LastEntry(prefix, Below(init, AddPrefix(prefix, cut)), e, cut);
      if Root(prefix) <= e.key {
        var key := DropPrefix(prefix, e.key);
        TranslationRoundTrip(prefix, key, e.key);
        TranslationKeepsOrder(prefix, key, cut);
        LastEntry(prefix, GatewayEntries(prefix, init), ObjectInfo(key, e.size), cut);
      }
    }
  }

  lemma BelowNone(prefix: string, cut: string)
    ensures Below([], cut) == [] && Below([], AddPrefix(prefix, cut)) == [] && GatewayEntries(prefix, []) == []
  {
  }

  // ---------------------------------------------------------------------------
  // Pages and runs
  // ---------------------------------------------------------------------------

  lemma PageTranslated(prefix: string, q: ListInput, es: seq<ObjectInfo>)
    requires Sorted(es)
    ensures Page(BackendInput(prefix, q), es) == LiftPage(prefix, Page(q, GatewayEntries(prefix, es)))
  {
    hide Plain, Groups, Below, GatewayEntries, AddPrefix;
    PlainTranslated(prefix, q, es);
    var n, plain := PageSize(q), Plain(q, GatewayEntries(prefix, es));
    if |plain| > n {
      var cut := plain[n].key;
      assert cut != "" by {
        GatewaySorted(prefix, es);
        PlainSorted(q, GatewayEntries(prefix, es));
        LessIsNotEmpty(plain[0].key, cut);
      }
      PlainTranslated(prefix, q, Below(es, AddPrefix(prefix, cut)));
      BelowTranslated(prefix, es, cut);
      assert Lift(prefix, plain)[..n] == Lift(prefix, plain[..n]);
    }
  }

  /** Page for page, the backend's run is the translation of the gateway's run
      over its own keys: same contents, groups, order and truncation, and each
      backend token is the translation of the gateway's. */
  lemma {:induction false} RunTranslated(prefix: string, q: ListInput, es: seq<ObjectInfo>)
    requires Sorted(es)
    ensures Sorted(GatewayEntries(prefix, es))
    ensures Run(BackendInput(prefix, q), es) == LiftPages(prefix, Run(q, GatewayEntries(prefix, es)))
    decreases |Plain(q, GatewayEntries(prefix, es))|
  {
    hide Page, BackendInput, GatewayEntries, Plain, AddPrefix;
    var gs := GatewayEntries(prefix, es);
    GatewaySorted(prefix, es);
    PageTranslated(prefix, q, es);
    var page := Page(q, gs);
    if page.isTruncated {
      AfterToken(q, gs);
      NextTranslated(prefix, q, page);
      RunTranslated(prefix, Next(q, page), es);
    }
  }

  lemma NextTranslated(prefix: string, q: ListInput, page: ListOutput)
    ensures Next(BackendInput(prefix, q), LiftPage(prefix, page)) == BackendInput(prefix, Next(q, page))
  {
  }

  // ---------------------------------------------------------------------------
  // The handler
  // ---------------------------------------------------------------------------

  datatype ListQuery = ListQuery(
    prefix: string,
    delimiter: string,
    maxKeys: string,
    continuationToken: string,
    startAfter: string,
    marker: string)

  datatype ListBucketResult = ListBucketResult(
    prefix: string,
    maxKeys: int,
    keyCount: nat,
    isTruncated: bool,
    nextContinuationToken: string,
    contents: seq<ObjectInfo>,
    commonPrefixes: seq<string>)

  /** The page size a client asks for: 1 to 1000, else 1000. */
  function QueryMaxKeys(v: string): (n: int)
    ensures 0 < n <= 1000
  {
    match ParseInt(v, 10)
    case Some(n) => if 0 < n <= 1000 then n else 1000
    case None => 1000
  }

  /** The question the client asks of its own keys, `token` being the gateway's
      form of its continuation token. */
  function GatewayInput(query: ListQuery, token: string): ListInput {
    ListInput(query.prefix, query.delimiter, QueryMaxKeys(query.maxKeys),
              if query.startAfter != "" then query.startAfter else query.marker, token)
  }

  lemma LiftedIsDropped(prefix: string, key: string)
    ensures DropPrefix(prefix, AddPrefix(prefix, key)) == key
  {
    AddPrefixIsRoot(prefix, key);
    DropPrefixCutsRoot(prefix, key);
  }

  /** What the backend is asked: prefix and markers translated, token untouched. */
  function BackendQuery(prefix: string, query: ListQuery): ListInput {
    ListInput(AddPrefix(prefix, query.prefix), query.delimiter, QueryMaxKeys(query.maxKeys),
              if query.startAfter != "" then AddPrefix(prefix, query.startAfter)
              else if query.marker != "" then AddPrefix(prefix, query.marker)
              else "",
              query.continuationToken)
  }

  function DropEntry(prefix: string, e: ObjectInfo): ObjectInfo {
    ObjectInfo(DropPrefix(prefix, e.key), e.size)
  }

  /** The answer made of a backend page. */
  function Answer(prefix: string, query: ListQuery, page: ListOutput): ListBucketResult {
    ListBucketResult(query.prefix, QueryMaxKeys(query.maxKeys), page.keyCount, page.isTruncated,
                     if page.isTruncated then page.nextToken else "",
                     Mapped(page.contents, e => DropEntry(prefix, e)),
                     Mapped(page.commonPrefixes, p => DropPrefix(prefix, p)))
  }

  method ListObjectsV2(rb: ResolvedBucket, query: ListQuery, entries: seq<ObjectInfo>)
    returns (result: ListBucketResult)
    requires Sorted(entries)
    ensures result == Answer(rb.backendPrefix, query, Page(BackendQuery(rb.backendPrefix, query), entries))
  {
    hide Page, AddPrefix, DropPrefix, Mapped;
    var maxKeys := 1000;
    if query.maxKeys != "" {
      var n := ParseInt(query.maxKeys, 10);
      if n.Some? && n.value > 0 && n.value <= 1000 {
        maxKeys := n.value;
      }
    }
    var input := ListInput(rb.PrefixKey(query.prefix), query.delimiter, maxKeys, "", "");
    if query.continuationToken != "" {
      input := input.(token := query.continuationToken);
    }
    if query.startAfter != "" {
      input := input.(startAfter := rb.PrefixKey(query.startAfter));
    } else if query.marker != "" {
      input := input.(startAfter := rb.PrefixKey(query.marker));
    }
    assert input == BackendQuery(rb.backendPrefix, query);
    var out := ListObjects(entries, input);
    result := ListBucketResult(query.prefix, maxKeys, out.keyCount, out.isTruncated,
                               if out.isTruncated then out.nextToken else "", [], []);
    var contents := StripContents(rb, out.contents);
    var commonPrefixes := StripKeys(rb, out.commonPrefixes);
    result := result.(contents := contents, commonPrefixes := commonPrefixes);
  }

  method StripContents(rb: ResolvedBucket, es: seq<ObjectInfo>) returns (r: seq<ObjectInfo>)
    ensures r == Mapped(es, e => DropEntry(rb.backendPrefix, e))
  {
    hide DropPrefix;
    r := [];
    for i := 0 to |es|
      invariant |r| == i && forall j :: 0 <= j < i ==> r[j] == DropEntry(rb.backendPrefix, es[j])
    {
      r := r + [ObjectInfo(rb.StripPrefix(es[i].key), es[i].size)];
    }
  }

  method StripKeys(rb: ResolvedBucket, keys: seq<string>) returns (r: seq<string>)
    ensures r == Mapped(keys, k => DropPrefix(rb.backendPrefix, k))
  {
    hide DropPrefix;
    r := [];
    for i := 0 to |keys|
      invariant |r| == i && forall j :: 0 <= j < i ==> r[j] == DropPrefix(rb.backendPrefix, keys[j])
    {
      r := r + [rb.StripPrefix(keys[i])];
    }
  }

  /** With a token the gateway issued, or none, ListObjectsV2 answers as if the
      backend bucket held the gateway's keys and nothing else; and the token it
      issues is good for the next call. */
  lemma ListingIsTransparent(prefix: string, query: ListQuery, token: string, entries: seq<ObjectInfo>)
    requires Sorted(entries) && query.continuationToken == TokenFor(prefix, token)
    ensures var page := Page(GatewayInput(query, token), GatewayEntries(prefix, entries));
            Answer(prefix, query, Page(BackendQuery(prefix, query), entries))
            == ListBucketResult(query.prefix, QueryMaxKeys(query.maxKeys), page.keyCount, page.isTruncated,
                                TokenFor(prefix, page.nextToken), page.contents, page.commonPrefixes)
  {
    hide Page, GatewayEntries, AddPrefix, DropPrefix, Mapped;
    var q := GatewayInput(query, token);
    assert BackendQuery(prefix, query) == BackendInput(prefix, q);
    PageTranslated(prefix, q, entries);
    var page := Page(q, GatewayEntries(prefix, entries));
    PageTokens(q, GatewayEntries(prefix, entries));
    LiftThenDrop(prefix, page.contents, page.commonPrefixes);
  }

  lemma LiftThenDrop(prefix: string, es: seq<ObjectInfo>, keys: seq<string>)
    ensures Mapped(Lift(prefix, es), e => DropEntry(prefix, e)) == es
    ensures Mapped(LiftKeys(prefix, keys), k => DropPrefix(prefix, k)) == keys
  {
    hide AddPrefix, DropPrefix;
    forall i | 0 <= i < |es| ensures DropEntry(prefix, Lift(prefix, es)[i]) == es[i] {
      LiftedIsDropped(prefix, es[i].key);
    }
    forall i | 0 <= i < |keys| ensures DropPrefix(prefix, LiftKeys(prefix, keys)[i]) == keys[i] {
      LiftedIsDropped(prefix, keys[i]);
    }
  }

  lemma PageTokens(q: ListInput, es: seq<ObjectInfo>)
    ensures !Page(q, es).isTruncated ==> Page(q, es).nextToken == ""
  {
  }
}
