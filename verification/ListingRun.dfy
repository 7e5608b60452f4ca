/** Following page tokens until a listing is not truncated: what a whole run
    returns, what it loses, and where each common prefix appears. */
module ListingRun {
  import opened Strings
  import opened Strconv
  import opened Listing
  import opened Models

  function Next(q: ListInput, page: ListOutput): ListInput {
    q.(token := page.nextToken)
  }

  /** The pages a client sees that passes each token back untouched. */
  function Run(q: ListInput, es: seq<ObjectInfo>): (pages: seq<ListOutput>)
    requires Sorted(es)
    ensures |pages| > 0
    decreases |Plain(q, es)|
  {
    var page := Page(q, es);
    if page.isTruncated then
      AfterToken(q, es);
      [page] + Run(Next(q, page), es)
    else
      [page]
  }

  /** Each page is followed by the page for the same question with its token. */
  lemma RunFollows(q: ListInput, es: seq<ObjectInfo>)
    requires Sorted(es)
    ensures Run(q, es)[0] == Page(q, es)
    ensures Page(q, es).isTruncated ==>
              Run(q, es)[1..]
              == Run(ListInput(q.prefix, q.delimiter, q.maxKeys, q.startAfter, Page(q, es).nextToken), es)
    ensures !Page(q, es).isTruncated ==> |Run(q, es)| == 1
  {
    hide Page;
    assert Next(q, Page(q, es)) == ListInput(q.prefix, q.delimiter, q.maxKeys, q.startAfter, Page(q, es).nextToken);
    if Page(q, es).isTruncated {
      AfterToken(q, es);
      assert ([Page(q, es)] + Run(Next(q, Page(q, es)), es))[1..] == Run(Next(q, Page(q, es)), es);
    }
  }

  function Keys(es: seq<ObjectInfo>): seq<string> {
    seq(|es|, i requires 0 <= i < |es| => es[i].key)
  }

  function AllContents(pages: seq<ListOutput>): seq<ObjectInfo> {
    if pages == [] then [] else pages[0].contents + AllContents(pages[1..])
  }

  function AllGroups(pages: seq<ListOutput>): seq<string> {
    if pages == [] then [] else pages[0].commonPrefixes + AllGroups(pages[1..])
  }

  function Link(page: ListOutput): seq<string> {
    if page.isTruncated then [page.nextToken] else []
  }

  function Links(pages: seq<ListOutput>): seq<string> {
    if pages == [] then [] else Link(pages[0]) + Links(pages[1..])
  }

  /** The keys returned on each page, each followed by the page's link token. */
  function Woven(pages: seq<ListOutput>): seq<string> {
    if pages == [] then []
    else Keys(pages[0].contents) + Link(pages[0]) + Woven(pages[1..])
  }

  // ---------------------------------------------------------------------------
  // One link
  // ---------------------------------------------------------------------------

  /** Where in the directory the n-th plain key stands. */
  lemma {:induction false} PlainIndex(q: ListInput, es: seq<ObjectInfo>, n: nat) returns (i: nat)
    requires n < |Plain(q, es)|
    ensures i < |es| && es[i] == Plain(q, es)[n] && IsPlain(q, es[i].key)
    ensures Plain(q, es[..i]) == Plain(q, es)[..n]
  {
    hide IsPlain;
    var k := |es| - 1;
    var init := es[..k];
    if n < |Plain(q, init)| {
      i := PlainIndex(q, init, n);
      assert init[..i] == es[..i];
    } else {
      i := k;
    }
  }

  /** Nothing up to the token matches any more; what lies after is unaffected. */
  lemma TokenSplits(q: ListInput, t: string, key: string)
    requires t != "" && Matches(q, t)
    ensures AtMost(key, t) ==> !Matches(q.(token := t), key)
    ensures Less(t, key) ==> Matches(q.(token := t), key) == Matches(q, key)
  {
    SkippedAtMost(t, key);
    if Less(t, key) {
      if q.token != "" { LessTransitive(q.token, t, key); }
    }
  }

  lemma {:induction false} NothingMatches(q: ListInput, es: seq<ObjectInfo>)
    requires forall e :: e in es ==> !Matches(q, e.key)
    ensures Plain(q, es) == [] && Groups(q, es) == []
  {
    if es != [] { NothingMatches(q, es[..|es| - 1]); }
  }

  lemma {:induction false} SameMatches(q: ListInput, q': ListInput, es: seq<ObjectInfo>)
    requires q' == q.(token := q'.token)
    requires forall e :: e in es ==> Matches(q, e.key) == Matches(q', e.key)
    ensures Plain(q, es) == Plain(q', es) && Groups(q, es) == Groups(q', es)
  {
    hide Matches, GroupOf;
    if es != [] {
      var k := |es| - 1;
      SameMatches(q, q', es[..k]);
      assert es[k] in es;
      SameGroup(q, q', es[k].key);
    }
  }

  lemma SameGroup(q: ListInput, q': ListInput, key: string)
    requires q' == q.(token := q'.token)
    ensures GroupOf(q, key) == GroupOf(q', key)
  {
  }

  lemma {:induction false} GroupsConcat(q: ListInput, a: seq<ObjectInfo>, b: seq<ObjectInfo>)
    requires forall g :: g in Groups(q, a) ==> g !in Groups(q, b)
    ensures Groups(q, a + b) == Groups(q, a) + Groups(q, b)
  {
    hide IsGrouped;
    if b == [] {
      assert a + b == a;
    } else {
      GroupsConcat(q, a, b[..|b| - 1]);
      assert (a + b)[..|a + b| - 1] == a + b[..|b| - 1];
    }
  }

  /** No group has keys on both sides of a plain key. */
  lemma PlainKeySeparates(q: ListInput, a: seq<ObjectInfo>, t: string, b: seq<ObjectInfo>)
    requires IsPlain(q, t)
    requires forall e :: e in a ==> Less(e.key, t)
    requires forall e :: e in b ==> Less(t, e.key)
    ensures forall g :: g in Groups(q, a) ==> g !in Groups(q, b)
  {
    forall g | g in Groups(q, a) ensures g !in Groups(q, b) {
      GroupsMembers(q, a, g);
      GroupsMembers(q, b, g);
      if g in Groups(q, b) {
        var x :| x in a && IsGrouped(q, x.key) && GroupOf(q, x.key).value == g;
        var y :| y in b && IsGrouped(q, y.key) && GroupOf(q, y.key).value == g;
        GroupIsPrefix(q, x.key);
        GroupIsPrefix(q, y.key);
        PrefixContiguous(g, x.key, t, y.key);
        GroupIsShared(q, x.key, t);
        assert false;
      }
    }
  }

  lemma LessIsNotEmpty(a: string, b: string)
    requires Less(a, b)
    ensures b != ""
  {
  }

  /** After a truncated page: the token's own key is gone, everything behind it
      is still to come, and no group is met again. */
  lemma AfterToken(q: ListInput, es: seq<ObjectInfo>)
    requires Sorted(es) && Page(q, es).isTruncated
    ensures var plain, n, q' := Plain(q, es), PageSize(q), Next(q, Page(q, es));
            && plain == Page(q, es).contents + [plain[n]] + Plain(q', es)
            && plain[n].key == q'.token
            && Groups(q, es) == Page(q, es).commonPrefixes + Groups(q', es)
            && |Plain(q', es)| < |plain|
  {
    var plain, n := Plain(q, es), PageSize(q);
    var q', t := Next(q, Page(q, es)), plain[n].key;
    var i := PlainIndex(q, es, n);
    var a, b := es[..i], es[i + 1..];
    assert es == (a + [es[i]]) + b;
    BelowIsPrefix(es, i);
    PlainSorted(q, es);
    assert t != "" by { LessIsNotEmpty(plain[0].key, t); }
    forall e | e in a + [es[i]] ensures !Matches(q', e.key) { TokenSplits(q, t, e.key); }
    forall e | e in b ensures Matches(q', e.key) == Matches(q, e.key) { TokenSplits(q, t, e.key); }
    AfterSplit(q, q', a, es[i], b);
  }

  lemma AfterSplit(q: ListInput, q': ListInput, a: seq<ObjectInfo>, e: ObjectInfo, b: seq<ObjectInfo>)
    requires IsPlain(q, e.key) && q' == q.(token := e.key)
    requires Sorted(a + [e] + b)
    requires forall x :: x in a + [e] ==> !Matches(q', x.key)
    requires forall x :: x in b ==> Matches(q', x.key) == Matches(q, x.key)
    ensures Plain(q, a + [e] + b) == Plain(q, a) + [e] + Plain(q', a + [e] + b)
    ensures Groups(q, a + [e] + b) == Groups(q, a) + Groups(q', a + [e] + b)
  {
    hide Matches, Plain, Groups, GroupOf;
    var es := a + [e] + b;
    var i := |a|;
    assert es[..i] == a && es[..i + 1] == a + [e] && es[i + 1..] == b;
    PlainStep(q, es, i);
    NothingMatches(q', a + [e]);
    SameMatches(q, q', b);
    PlainConcat(q, a + [e], b);
    PlainConcat(q', a + [e], b);
    assert Groups(q, a + [e]) == Groups(q, a);
    forall x | x in a ensures Less(x.key, e.key) {
      var k :| 0 <= k < |a| && a[k] == x;
      assert es[k] == x && es[i] == e;
    }
    forall x | x in b ensures Less(e.key, x.key) {
      var k :| 0 <= k < |b| && b[k] == x;
      assert es[i] == e && es[i + 1 + k] == x;
    }
    PlainKeySeparates(q, a, e.key, b);
    GroupsConcat(q, a + [e], b);
    GroupsConcat(q', a + [e], b);
  }

  // ---------------------------------------------------------------------------
  // Whole runs
  // ---------------------------------------------------------------------------

  lemma KeysConcat(a: seq<ObjectInfo>, b: seq<ObjectInfo>)
    ensures Keys(a + b) == Keys(a) + Keys(b)
  {
  }

  /** The returned keys and the link tokens partition the matching plain keys:
      woven together page by page they are exactly those keys, in order. */
  lemma {:induction false} RunPartitions(q: ListInput, es: seq<ObjectInfo>)
    requires Sorted(es)
    ensures Woven(Run(q, es)) == Keys(Plain(q, es))
    decreases |Plain(q, es)|
  {
    var page := Page(q, es);
    if page.isTruncated {
      AfterToken(q, es);
      var q', e := Next(q, page), Plain(q, es)[PageSize(q)];
      RunPartitions(q', es);
      assert Run(q, es)[1..] == Run(q', es);
      KeysConcat(page.contents + [e], Plain(q', es));
      KeysConcat(page.contents, [e]);
      assert Keys([e]) == Link(page);
    } else {
      assert Woven([page][1..]) == [];
    }
  }

  /** Every common prefix is on exactly one page: the pages' common prefixes, one
      page after the other, are those of the unpaged listing, each once. */
  lemma {:induction false} RunGroups(q: ListInput, es: seq<ObjectInfo>)
    requires Sorted(es)
    ensures AllGroups(Run(q, es)) == Groups(q, es)
    ensures Ascending(AllGroups(Run(q, es)))
    decreases |Plain(q, es)|
  {
    GroupsAscend(q, es);
    var page := Page(q, es);
    if page.isTruncated {
      AfterToken(q, es);
      RunGroups(Next(q, page), es);
      assert Run(q, es)[1..] == Run(Next(q, page), es);
    } else {
      assert AllGroups([page][1..]) == [];
    }
  }

  /** Every page but the last is full and truncated; the last is neither lost
      nor followed. */
  lemma {:induction false} RunShape(q: ListInput, es: seq<ObjectInfo>, i: nat)
    requires Sorted(es) && i < |Run(q, es)|
    ensures var page := Run(q, es)[i];
            && page.keyCount == |page.contents| <= PageSize(q)
            && (page.isTruncated <==> i < |Run(q, es)| - 1)
            && (page.isTruncated ==> |page.contents| == PageSize(q) && page.nextToken != "")
    decreases |Plain(q, es)|
  {
    var page := Page(q, es);
    if page.isTruncated {
      AfterToken(q, es);
      PlainSorted(q, es);
      LessIsNotEmpty(Plain(q, es)[0].key, page.nextToken);
      if i > 0 { RunShape(Next(q, page), es, i - 1); }
    }
  }

  /** `n` keys fill `pages` pages that use up `p` keys each but for the last. */
  predicate FillsPages(n: nat, p: nat, pages: int) {
    p * (pages - 1) <= n < p * pages
  }

  lemma OnePageMore(n: nat, p: nat, pages: int)
    ensures FillsPages(n, p, pages) ==> FillsPages(n + p, p, pages + 1)
    ensures n < p ==> FillsPages(n, p, 1)
  {
    assert p * (pages + 1) == p * pages + p;
    assert p * pages == p * (pages - 1) + p;
  }

  /** The number of pages, and of keys returned. */
  lemma {:induction false} RunCounts(q: ListInput, es: seq<ObjectInfo>)
    requires Sorted(es)
    ensures |AllContents(Run(q, es))| == |Plain(q, es)| - (|Run(q, es)| - 1)
    ensures |Links(Run(q, es))| == |Run(q, es)| - 1
    ensures FillsPages(|Plain(q, es)|, PageSize(q) + 1, |Run(q, es)|)
    decreases |Plain(q, es)|
  {
    hide Plain, Groups, Below, FillsPages;
    var page, rest := Page(q, es), Next(q, Page(q, es));
    OnePageMore(|Plain(rest, es)|, PageSize(q) + 1, |Run(rest, es)|);
    OnePageMore(|Plain(q, es)|, PageSize(q) + 1, 1);
    if page.isTruncated {
      AfterToken(q, es);
      RunCounts(rest, es);
      assert Run(q, es)[1..] == Run(rest, es);
    } else {
      assert AllContents([page][1..]) == [] && Links([page][1..]) == [];
    }
  }

  /** A run returns every matching plain key if and only if one page holds them
      all; each link of a longer run loses the key it is named after. */
  lemma NothingLostIffOnePage(q: ListInput, es: seq<ObjectInfo>)
    requires Sorted(es)
    ensures AllContents(Run(q, es)) == Plain(q, es) <==> |Plain(q, es)| <= PageSize(q)
  {
    RunCounts(q, es);
    var page := Page(q, es);
    if page.isTruncated {
      AfterToken(q, es);
      assert |Run(q, es)| > 1;
    } else {
      assert AllContents([page][1..]) == [];
    }
  }

  /** Without prefix, delimiter and markers every key is a plain match. */
  lemma {:induction false} AllPlain(maxKeys: int, es: seq<ObjectInfo>)
    ensures Plain(ListInput("", "", maxKeys, "", ""), es) == es
  {
    hide Index;
    if es != [] {
      AllPlain(maxKeys, es[..|es| - 1]);
      assert es == es[..|es| - 1] + [es[|es| - 1]];
    }
  }

  lemma ThreeSorted(a: ObjectInfo, b: ObjectInfo, c: ObjectInfo)
    requires a.key == "a" && b.key == "b" && c.key == "c"
    ensures Sorted([a, b, c])
  {
    assert Less("a", "b") && Less("a", "c") && Less("b", "c");
  }

  /** A listing of three keys two at a time never shows the third. */
  lemma LostKeyExample()
    ensures var es := [ObjectInfo("a", 1), ObjectInfo("b", 1), ObjectInfo("c", 1)];
            var q := ListInput("", "", 2, "", "");
            Sorted(es) && Keys(AllContents(Run(q, es))) == ["a", "b"] && Links(Run(q, es)) == ["c"]
  {
    hide Run, AllContents, Links, Sorted, Plain, Keys;
    var a, b, c := ObjectInfo("a", 1), ObjectInfo("b", 1), ObjectInfo("c", 1);
    ThreeSorted(a, b, c);
    AllPlain(2, [a, b, c]);
    LostKeyPages(ListInput("", "", 2, "", ""), [a, b, c]);
  }

  lemma LostKeyPages(q: ListInput, es: seq<ObjectInfo>)
    requires Sorted(es) && |es| == 3 && Plain(q, es) == es && q.maxKeys == 2
    ensures Keys(AllContents(Run(q, es))) == [es[0].key, es[1].key] && Links(Run(q, es)) == [es[2].key]
  {
    hide Plain, Groups, Below;
    var page, q' := Page(q, es), Next(q, Page(q, es));
    AfterToken(q, es);
    assert Plain(q', es) == [];
    var last := Page(q', es);
    assert Run(q, es) == [page] + [last];
    var rest := ([page] + [last])[1..];
    assert rest == [last] && [last][1..] == [];
    assert AllContents(rest) == [] && Links(rest) == [];
  }

  /** Returned keys and link tokens ascend over the whole run, so it never turns
      back. */
  lemma RunAscends(q: ListInput, es: seq<ObjectInfo>)
    requires Sorted(es)
    ensures Ascending(Woven(Run(q, es)))
  {
    RunPartitions(q, es);
    PlainSorted(q, es);
  }

  // ---------------------------------------------------------------------------
  // The size stream
  // ---------------------------------------------------------------------------

  function TotalSize(es: seq<ObjectInfo>): nat {
    if es == [] then 0 else es[0].size + TotalSize(es[1..])
  }

  lemma {:induction false} TotalSizeConcat(a: seq<ObjectInfo>, b: seq<ObjectInfo>)
    ensures TotalSize(a + b) == TotalSize(a) + TotalSize(b)
  {
    if a == [] {
      assert a + b == b;
    } else {
      TotalSizeConcat(a[1..], b);
      assert (a + b)[1..] == a[1..] + b;
    }
  }

  lemma TotalSizeIs(e: ObjectInfo)
    ensures TotalSize([]) == 0 && TotalSize([e]) == e.size
  {
    assert [e][1..] == [];
  }

  /** The keys with a prefix, in a flat listing without markers. */
  function WithPrefix(es: seq<ObjectInfo>, prefix: string): seq<ObjectInfo> {
    if es == [] then []
    else WithPrefix(es[..|es| - 1], prefix) + if prefix <= es[|es| - 1].key then [es[|es| - 1]] else []
  }

  lemma {:induction false} WithPrefixIs(es: seq<ObjectInfo>, prefix: string, e: ObjectInfo)
    ensures e in WithPrefix(es, prefix) <==> e in es && prefix <= e.key
  {
    if es != [] {
      WithPrefixIs(es[..|es| - 1], prefix, e);
      assert es == es[..|es| - 1] + [es[|es| - 1]];
    }
  }

  function FlatInput(prefix: string, token: string): ListInput {
    ListInput(prefix, "", 1000, "", token)
  }

  lemma {:induction false} FlatIsWithPrefix(es: seq<ObjectInfo>, prefix: string)
    ensures Plain(FlatInput(prefix, ""), es) == WithPrefix(es, prefix)
  {
    if es != [] { FlatIsWithPrefix(es[..|es| - 1], prefix); }
  }

  /** Scans a bucket page by page and adds up what the pages return: all keys
      with the prefix but one for each page link. A listing that fails ends it,
      with the totals of the pages before. `answers` says whether the n-th listing
      succeeds. */
  method BrowseSizeStream(entries: seq<ObjectInfo>, backendPrefix: string, clientPrefix: string,
                          answers: nat -> bool)
    returns (done: bool, scanned: nat, totalBytes: nat)
    requires Sorted(entries)
    ensures var pages := Run(FlatInput(AddPrefix(backendPrefix, clientPrefix), ""), entries);
            if done then forall n: nat :: n < |pages| ==> answers(n)
            else exists n: nat :: n < |pages| && !answers(n) && scanned == |AllContents(pages[..n])|
                                  && totalBytes == TotalSize(AllContents(pages[..n]))
    ensures done ==>
            var q := FlatInput(AddPrefix(backendPrefix, clientPrefix), "");
            && scanned == |WithPrefix(entries, q.prefix)| - (|Run(q, entries)| - 1)
            && totalBytes == TotalSize(AllContents(Run(q, entries)))
  {
    hide Plain, Page, Run, AllContents, TotalSize, WithPrefix;
    var prefix := AddPrefix(backendPrefix, clientPrefix);
    done, scanned, totalBytes := true, 0, 0;
    var token := "";
    var n: nat := 0;
    ghost var all := Run(FlatInput(prefix, ""), entries);
    RunCounts(FlatInput(prefix, ""), entries);
    FlatIsWithPrefix(entries, prefix);
    NoPages(all);
    while true
      invariant forall m: nat :: m < n ==> answers(m)
      invariant n < |all| && all[n..] == Run(FlatInput(prefix, token), entries)
      invariant scanned == |AllContents(all[..n])| && totalBytes == TotalSize(AllContents(all[..n]))
      decreases |Plain(FlatInput(prefix, token), entries)|
    {
      if !answers(n) {
        return false, scanned, totalBytes;
      }
      var q := FlatInput(prefix, token);
      var out := ListObjects(entries, q);
      RunFollows(q, entries);
      assert all[n] == all[n..][0] == out && all[n + 1..] == all[n..][1..];
      OnePageOn(all, n);
      TotalSizeConcat(AllContents(all[..n]), out.contents);
      var bytes := SumSizes(out.contents);
      scanned, totalBytes := scanned + |out.contents|, totalBytes + bytes;
      if !out.isTruncated {
        assert all[..n + 1] == all;
        break;
      }
      AfterToken(q, entries);
      n := n + 1;
      token := out.nextToken;
    }
  }

  lemma NoPages(pages: seq<ListOutput>)
    ensures AllContents(pages[..0]) == [] && TotalSize(AllContents(pages[..0])) == 0 && pages[0..] == pages
  {
  }

  lemma OnePageOn(pages: seq<ListOutput>, n: nat)
    requires n < |pages|
    ensures AllContents(pages[..n + 1]) == AllContents(pages[..n]) + pages[n].contents
  {
    if n > 0 {
      OnePageOn(pages[1..], n - 1);
      assert pages[1..][..n] == pages[..n + 1][1..] && pages[1..][..n - 1] == pages[..n][1..];
    } else {
      assert pages[..1][1..] == [];
    }
  }

  method SumSizes(contents: seq<ObjectInfo>) returns (bytes: nat)
    ensures bytes == TotalSize(contents)
  {
    bytes := 0;
    assert contents[..0] == [];
    for i := 0 to |contents|
      invariant bytes == TotalSize(contents[..i])
    {
      assert contents[..i + 1] == contents[..i] + [contents[i]];
      TotalSizeConcat(contents[..i], [contents[i]]);
      bytes := bytes + contents[i].size;
    }
    assert contents[..|contents|] == contents;
  }
}
