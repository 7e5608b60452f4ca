/** What a listing is, in terms of its entries alone: prefix, byte order and the
    place of the delimiter (internal/backend/local.go, internal/api/s3/buckets.go). */
module ListingTerms {
  import opened Strings
  import opened Strconv
  import opened Models
  import opened Listing
  import opened ListingRun
  import opened ListingTranslation

  // ---------------------------------------------------------------------------
  // One key
  // ---------------------------------------------------------------------------

  lemma PlainTerms(q: ListInput, key: string)
    ensures IsPlain(q, key) <==>
              && q.prefix <= key && (q.startAfter != "" ==> Less(q.startAfter, key))
              && (q.token != "" ==> Less(q.token, key))
              && (q.delimiter != "" ==> Index(key[|q.prefix|..], q.delimiter) < 0)
  {
    hide Index, Less;
  }

  lemma GroupedTerms(q: ListInput, key: string)
    ensures IsGrouped(q, key) <==>
              && q.prefix <= key && (q.startAfter != "" ==> Less(q.startAfter, key))
              && (q.token != "" ==> Less(q.token, key))
              && q.delimiter != "" && Index(key[|q.prefix|..], q.delimiter) >= 0
    ensures IsGrouped(q, key) ==>
              GroupOf(q, key) == Some(key[..|q.prefix| + Index(key[|q.prefix|..], q.delimiter) + |q.delimiter|])
  {
    hide Index, Less;
    if IsGrouped(q, key) {
      var end := Index(key[|q.prefix|..], q.delimiter) + |q.delimiter|;
      assert key[..|q.prefix| + end] == q.prefix + key[|q.prefix|..][..end];
    }
  }

  // ---------------------------------------------------------------------------
  // One page
  // ---------------------------------------------------------------------------

  /** The part of the entries a page is made of: all, or those before the token. */
  lemma Scanned(q: ListInput, es: seq<ObjectInfo>) returns (i: nat)
    requires Sorted(es)
    ensures i <= |es|
    ensures Page(q, es).contents == Plain(q, es[..i]) && Page(q, es).commonPrefixes == Groups(q, es[..i])
    ensures Page(q, es).isTruncated <==> i < |es|
    ensures Page(q, es).isTruncated ==> es[i].key == Page(q, es).nextToken && IsPlain(q, es[i].key)
  {
    hide Plain, Groups, Below, IsPlain;
    if |Plain(q, es)| <= PageSize(q) {
      i := |es|;
      assert es[..i] == es;
    } else {
      i := PlainIndex(q, es, PageSize(q));
      BelowIsPrefix(es, i);
    }
  }

  /** What a page returns: entries that start with the prefix, lie strictly behind
      both markers where given, and hold no delimiter behind the prefix. */
  lemma ReturnedKeys(q: ListInput, es: seq<ObjectInfo>, e: ObjectInfo)
    requires Sorted(es) && e in Page(q, es).contents
    ensures e in es && q.prefix <= e.key
    ensures q.startAfter != "" ==> Less(q.startAfter, e.key)
    ensures q.token != "" ==> Less(q.token, e.key)
    ensures q.delimiter != "" ==> Index(e.key[|q.prefix|..], q.delimiter) < 0
    ensures Page(q, es).isTruncated ==> Less(e.key, Page(q, es).nextToken)
  {
    hide Page, Plain, Groups, IsPlain, Less, Index;
    var i := Scanned(q, es);
    PlainMembers(q, es[..i], e);
    PlainTerms(q, e.key);
    assert e in es by { assert e in es[..i]; }
  }

  /** What a page leaves out: every entry with the prefix behind both markers is
      returned, or starts with a returned group, or is at or behind the next token. */
  lemma NothingElseLeftOut(q: ListInput, es: seq<ObjectInfo>, e: ObjectInfo)
    requires Sorted(es) && e in es && q.prefix <= e.key
    requires q.startAfter != "" ==> Less(q.startAfter, e.key)
    requires q.token != "" ==> Less(q.token, e.key)
    ensures || e in Page(q, es).contents
            || (exists g :: g in Page(q, es).commonPrefixes && |g| > |q.prefix| && g <= e.key)
            || (Page(q, es).isTruncated && AtMost(Page(q, es).nextToken, e.key))
  {
    hide Page, Plain, Groups, IsPlain, IsGrouped, GroupOf, Less, Index;
    var i := Scanned(q, es);
    var k :| 0 <= k < |es| && es[k] == e;
    PlainTerms(q, e.key);
    GroupedTerms(q, e.key);
    if k < i {
      assert e in es[..i] by { assert es[..i][k] == e; }
      if IsPlain(q, e.key) {
        PlainMembers(q, es[..i], e);
      } else {
        GroupsMembers(q, es[..i], GroupOf(q, e.key).value);
        GroupIsPrefix(q, e.key);
      }
    }
  }

  /** What a common prefix is: the beginning, through the first delimiter behind the
      prefix, of an entry that starts with the prefix behind both markers. */
  lemma ReturnedGroups(q: ListInput, es: seq<ObjectInfo>, g: string) returns (e: ObjectInfo)
    requires Sorted(es) && g in Page(q, es).commonPrefixes
    ensures e in es && q.prefix <= e.key
    ensures q.startAfter != "" ==> Less(q.startAfter, e.key)
    ensures q.token != "" ==> Less(q.token, e.key)
    ensures q.delimiter != "" && Index(e.key[|q.prefix|..], q.delimiter) >= 0
    ensures g == e.key[..|q.prefix| + Index(e.key[|q.prefix|..], q.delimiter) + |q.delimiter|]
  {
    hide Page, Plain, Groups, Less, Index;
    var i := Scanned(q, es);
    GroupsMembers(q, es[..i], g);
    e :| e in es[..i] && IsGrouped(q, e.key) && GroupOf(q, e.key).value == g;
    GroupedTerms(q, e.key);
    assert e in es;
  }

  /** How many keys a page has, and what its token is. */
  lemma PageNumbers(q: ListInput, es: seq<ObjectInfo>)
    requires Sorted(es)
    ensures var page, n := Page(q, es), if q.maxKeys <= 0 then 1000 else q.maxKeys;
            && page.keyCount == |page.contents| <= n && Sorted(page.contents)
            && (page.isTruncated ==> |page.contents| == n && exists e :: e in es && e.key == page.nextToken)
            && (!page.isTruncated ==> page.nextToken == "")
  {
    hide Plain, Groups, Below, IsPlain, Less;
    var i := Scanned(q, es);
    SortedPrefix(es, i);
    PlainSorted(q, es[..i]);
    if i < |es| { assert es[i] in es; }
  }

  // ---------------------------------------------------------------------------
  // ListObjectsV2
  // ---------------------------------------------------------------------------

  lemma EntryUnder(prefix: string, es: seq<ObjectInfo>, key: string, size: nat)
    ensures ObjectInfo(key, size) in GatewayEntries(prefix, es)
            <==> ObjectInfo(prefix + (if prefix == "" then "" else "/") + key, size) in es
  {
    hide GatewayEntries, DropPrefix, Root;
    var g, b := ObjectInfo(key, size), ObjectInfo(prefix + (if prefix == "" then "" else "/") + key, size);
    AddPrefixIsRoot(prefix, key);
    RootIs(prefix);
    assert AddPrefix(prefix, key) == b.key;
    if g in GatewayEntries(prefix, es) {
      GatewayMembers(prefix, es, g);
      var e :| e in es && e.key == AddPrefix(prefix, g.key) && e.size == g.size;
      assert e == b;
    }
    if b in es {
      RootCut(prefix, key);
      EntryUnderPrefix(prefix, es, b);
      LiftedIsDropped(prefix, key);
    }
  }

  lemma RootIs(prefix: string)
    ensures Root(prefix) == prefix + if prefix == "" then "" else "/"
  {
  }

  lemma RootCut(prefix: string, key: string)
    ensures Root(prefix) <= AddPrefix(prefix, key)
  {
    AddPrefixIsRoot(prefix, key);
  }

  /** The marker a client's question starts after: start-after before marker. */
  lemma QuestionIs(query: ListQuery, token: string)
    ensures var q := GatewayInput(query, token);
            && q.prefix == query.prefix && q.delimiter == query.delimiter && q.token == token
            && (query.startAfter != "" ==> q.startAfter == query.startAfter)
            && (query.startAfter == "" ==> q.startAfter == query.marker)
            && q.maxKeys == QueryMaxKeys(query.maxKeys)
  {
  }

  /** max-keys is taken if it is a number from 1 to 1000, and is 1000 otherwise. */
  lemma MaxKeysAre(n: int)
    ensures 1 <= n <= 1000 ==> QueryMaxKeys(FormatInt(n)) == n
    ensures MIN_INT64 <= n <= MAX_INT64 && !(1 <= n <= 1000) ==> QueryMaxKeys(FormatInt(n)) == 1000
    ensures QueryMaxKeys("") == 1000 && QueryMaxKeys("x") == 1000
  {
    if MIN_INT64 <= n <= MAX_INT64 { ParseFormatted(n); }
    NoNumeral("x", 10, 0);
  }

  /** What ListObjectsV2 returns, in the client's own keys: objects under the prefix
      of the mapping that start with the prefix asked for and lie strictly behind
      start-after, or behind marker where that is not given, and behind the token. */
  lemma AnsweredKeys(prefix: string, query: ListQuery, token: string, es: seq<ObjectInfo>, e: ObjectInfo)
    requires Sorted(es) && query.continuationToken == TokenFor(prefix, token)
    requires e in Answer(prefix, query, Page(BackendQuery(prefix, query), es)).contents
    ensures ObjectInfo(prefix + (if prefix == "" then "" else "/") + e.key, e.size) in es
    ensures query.prefix <= e.key
    ensures query.startAfter != "" ==> Less(query.startAfter, e.key)
    ensures query.startAfter == "" && query.marker != "" ==> Less(query.marker, e.key)
    ensures token != "" ==> Less(token, e.key)
    ensures query.delimiter != "" ==> Index(e.key[|query.prefix|..], query.delimiter) < 0
  {
    hide Page, Answer, BackendQuery, GatewayInput, GatewayEntries, Less, Index;
    ListingIsTransparent(prefix, query, token, es);
    GatewaySorted(prefix, es);
    QuestionIs(query, token);
    ReturnedKeys(GatewayInput(query, token), GatewayEntries(prefix, es), e);
    EntryUnder(prefix, es, e.key, e.size);
  }

  /** And what it leaves out: an object of the client's that answers the question is
      returned, or starts with a returned common prefix, or is at or behind the key
      the next token stands for. */
  lemma NothingElseUnanswered(prefix: string, query: ListQuery, token: string, es: seq<ObjectInfo>, e: ObjectInfo)
    requires Sorted(es) && query.continuationToken == TokenFor(prefix, token)
    requires ObjectInfo(prefix + (if prefix == "" then "" else "/") + e.key, e.size) in es && query.prefix <= e.key
    requires query.startAfter != "" ==> Less(query.startAfter, e.key)
    requires query.startAfter == "" && query.marker != "" ==> Less(query.marker, e.key)
    requires token != "" ==> Less(token, e.key)
    ensures var r := Answer(prefix, query, Page(BackendQuery(prefix, query), es));
            || e in r.contents
            || (exists g :: g in r.commonPrefixes && |g| > |query.prefix| && g <= e.key)
            || (r.isTruncated
                && exists next :: r.nextContinuationToken == TokenFor(prefix, next) && AtMost(next, e.key))
  {
    hide Page, Answer, BackendQuery, GatewayInput, GatewayEntries, Less, Index;
    ListingIsTransparent(prefix, query, token, es);
    GatewaySorted(prefix, es);
    QuestionIs(query, token);
    EntryUnder(prefix, es, e.key, e.size);
    NothingElseLeftOut(GatewayInput(query, token), GatewayEntries(prefix, es), e);
  }

  /** What else the answer says. */
  lemma AnswerNumbers(prefix: string, query: ListQuery, token: string, es: seq<ObjectInfo>)
    requires Sorted(es) && query.continuationToken == TokenFor(prefix, token)
    ensures var r := Answer(prefix, query, Page(BackendQuery(prefix, query), es));
            && r.prefix == query.prefix && r.maxKeys == QueryMaxKeys(query.maxKeys)
            && r.keyCount == |r.contents| <= r.maxKeys && Sorted(r.contents)
            && (r.isTruncated ==> |r.contents| == r.maxKeys)
            && (!r.isTruncated ==> r.nextContinuationToken == "")
  {
    hide Page, GatewayInput, GatewayEntries, BackendQuery, Answer;
    ListingIsTransparent(prefix, query, token, es);
    GatewaySorted(prefix, es);
    QuestionIs(query, token);
    PageNumbers(GatewayInput(query, token), GatewayEntries(prefix, es));
  }

  // ---------------------------------------------------------------------------
  // Examples
  // ---------------------------------------------------------------------------

  lemma PageOfFew(q: ListInput, es: seq<ObjectInfo>)
    requires |Plain(q, es)| <= PageSize(q)
    ensures Page(q, es) == ListOutput(Plain(q, es), Groups(q, es), false, "", |Plain(q, es)|)
  {
    hide Plain, Groups, Below;
  }

  lemma LastOfThree(q: ListInput, x: ObjectInfo, y: ObjectInfo, z: ObjectInfo)
    requires !IsPlain(q, x.key) && !IsPlain(q, y.key) && IsPlain(q, z.key)
    ensures Plain(q, [x, y, z]) == [z]
  {
    hide IsPlain, Plain, Groups;
    PlainOfOne(q, x);
    PlainOfOne(q, y);
    PlainOfOne(q, z);
    PlainConcat(q, [x], [y]);
    PlainConcat(q, [x] + [y], [z]);
    assert [x] + [y] + [z] == [x, y, z];
  }

  lemma PlainOfOne(q: ListInput, e: ObjectInfo)
    ensures Plain(q, [e]) == if IsPlain(q, e.key) then [e] else []
  {
    hide IsPlain;
    assert [e][..0] == [];
  }

  lemma GroupOfTwo(q: ListInput, x: ObjectInfo, y: ObjectInfo, z: ObjectInfo)
    requires IsGrouped(q, x.key) && IsGrouped(q, y.key) && GroupOf(q, x.key) == GroupOf(q, y.key)
    requires !IsGrouped(q, z.key)
    ensures Groups(q, [x, y, z]) == [GroupOf(q, x.key).value]
  {
    hide Matches, GroupOf, Plain, Groups;
    var es := [x, y, z];
    assert es[..3] == es && es[..0] == [];
    PlainOfNone(q);
    PlainStep(q, es, 0);
    PlainStep(q, es, 1);
    PlainStep(q, es, 2);
  }

  /** Keys a, b and c after b: c alone. */
  lemma StartAfterExample()
    ensures var es := [ObjectInfo("a", 1), ObjectInfo("b", 1), ObjectInfo("c", 1)];
            Sorted(es) && Page(ListInput("", "", 1000, "b", ""), es).contents == [ObjectInfo("c", 1)]
  {
    hide Index, Plain, Groups, Page, Sorted, IsPlain, Less;
    var a, b, c := ObjectInfo("a", 1), ObjectInfo("b", 1), ObjectInfo("c", 1);
    var q := ListInput("", "", 1000, "b", "");
    ThreeSorted(a, b, c);
    BehindB();
    PlainTerms(q, "a");
    PlainTerms(q, "b");
    PlainTerms(q, "c");
    LastOfThree(q, a, b, c);
    PageOfFew(q, [a, b, c]);
  }

  lemma BehindB()
    ensures !Less("b", "a") && !Less("b", "b") && Less("b", "c")
  {
  }

  /** Keys a/x, a/y and b with delimiter "/": the common prefix a/ and the key b. */
  lemma DelimiterExample()
    ensures var es := [ObjectInfo("a/x", 1), ObjectInfo("a/y", 1), ObjectInfo("b", 1)];
            var page := Page(ListInput("", "/", 1000, "", ""), es);
            page.contents == [ObjectInfo("b", 1)] && page.commonPrefixes == ["a/"] && !page.isTruncated
  {
    hide Index, Occurs, Plain, Groups, Page, IsPlain, GroupOf;
    var x, y, b := ObjectInfo("a/x", 1), ObjectInfo("a/y", 1), ObjectInfo("b", 1);
    var q := ListInput("", "/", 1000, "", "");
    SlashAtOne("a/x");
    SlashAtOne("a/y");
    NoSlash();
    assert "a/x"[0..] == "a/x" && "a/y"[0..] == "a/y" && "b"[0..] == "b";
    assert "a/x"[..2] == "a/" && "a/y"[..2] == "a/";
    PlainTerms(q, "a/x");
    PlainTerms(q, "a/y");
    PlainTerms(q, "b");
    GroupedTerms(q, "a/x");
    GroupedTerms(q, "a/y");
    GroupedTerms(q, "b");
    LastOfThree(q, x, y, b);
    GroupOfTwo(q, x, y, b);
    PageOfFew(q, [x, y, b]);
  }

  lemma SlashAtOne(s: string)
    requires |s| == 3 && s[0] == 'a' && s[1] == '/'
    ensures Index(s, "/") == 1
  {
    assert Occurs(s, "/", 1);
    assert !Occurs(s, "/", 0);
  }

  lemma NoSlash()
    ensures Index("b", "/") < 0
  {
    assert "b"[0..][0] == 'b';
    assert !Occurs("b", "/", 0);
  }
}
