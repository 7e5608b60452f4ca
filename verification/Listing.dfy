/** One page of the local backend's listing (internal/backend/local.go). */
module Listing {
  import opened Strings
  import opened Strconv
  import opened Sorting

  datatype ObjectInfo = ObjectInfo(key: string, size: nat)

  datatype ListInput = ListInput(
    prefix: string,
    delimiter: string,
    maxKeys: int,
    startAfter: string,
    token: string)

  datatype ListOutput = ListOutput(
    contents: seq<ObjectInfo>,
    commonPrefixes: seq<string>,
    isTruncated: bool,
    nextToken: string,
    keyCount: nat)

  /** The directory as `os.ReadDir` gives it: by strictly ascending name. */
  ghost predicate Sorted(es: seq<ObjectInfo>) {
    forall i, j :: 0 <= i < j < |es| ==> Less(es[i].key, es[j].key)
  }

  // ---------------------------------------------------------------------------
  // What a listing is about
  // ---------------------------------------------------------------------------

  function PageSize(q: ListInput): (n: nat)
    ensures n > 0
  {
    if q.maxKeys <= 0 then 1000 else q.maxKeys
  }

  /** The key has the prefix and lies after both markers. */
  predicate Matches(q: ListInput, key: string) {
    && q.prefix <= key
    && (q.startAfter == "" || Less(q.startAfter, key))
    && (q.token == "" || Less(q.token, key))
  }

  /** The common prefix a key is grouped under: through the first delimiter
      after the listing prefix. */
  function GroupOf(q: ListInput, key: string): Option<string> {
    var rest := TrimPrefix(key, q.prefix);
    var i := Index(rest, q.delimiter);
    if q.delimiter != "" && i >= 0
    then Some(q.prefix + rest[..i + |q.delimiter|])
    else None
  }

  predicate IsPlain(q: ListInput, key: string) {
    Matches(q, key) && GroupOf(q, key).None?
  }

  predicate IsGrouped(q: ListInput, key: string) {
    Matches(q, key) && GroupOf(q, key).Some?
  }

  /** The matching keys that are listed themselves, in order. */
  function Plain(q: ListInput, es: seq<ObjectInfo>): seq<ObjectInfo> {
    if es == [] then []
    else
      var e := es[|es| - 1];
      Plain(q, es[..|es| - 1]) + if IsPlain(q, e.key) then [e] else []
  }

  /** The common prefixes of the matching keys, in order of first appearance. */
  function Groups(q: ListInput, es: seq<ObjectInfo>): seq<string> {
    if es == [] then []
    else
      var seen := Groups(q, es[..|es| - 1]);
      var key := es[|es| - 1].key;
      if IsGrouped(q, key) && GroupOf(q, key).value !in seen
      then seen + [GroupOf(q, key).value]
      else seen
  }

  function Below(es: seq<ObjectInfo>, key: string): seq<ObjectInfo> {
    if es == [] then []
    else Below(es[..|es| - 1], key) + if Less(es[|es| - 1].key, key) then [es[|es| - 1]] else []
  }

  /** What one page is: the first `PageSize` plain keys, the groups of the keys
      below the first plain key left out, and that key as the token. */
  function Page(q: ListInput, es: seq<ObjectInfo>): ListOutput {
    var plain := Plain(q, es);
    var n := PageSize(q);
    if |plain| <= n then
      ListOutput(plain, Groups(q, es), false, "", |plain|)
    else
      var cut := plain[n].key;
      ListOutput(plain[..n], Groups(q, Below(es, cut)), true, cut, n)
  }

  // ---------------------------------------------------------------------------
  // Sequences of entries
  // ---------------------------------------------------------------------------

  lemma {:induction false} PlainConcat(q: ListInput, a: seq<ObjectInfo>, b: seq<ObjectInfo>)
    ensures Plain(q, a + b) == Plain(q, a) + Plain(q, b)
  {
    if b == [] {
      assert a + b == a;
    } else {
      PlainConcat(q, a, b[..|b| - 1]);
      assert (a + b)[..|a + b| - 1] == a + b[..|b| - 1];
    }
  }

  lemma {:induction false} PlainMembers(q: ListInput, es: seq<ObjectInfo>, e: ObjectInfo)
    ensures e in Plain(q, es) <==> e in es && IsPlain(q, e.key)
  {
    if es != [] {
      PlainMembers(q, es[..|es| - 1], e);
      assert es == es[..|es| - 1] + [es[|es| - 1]];
    }
  }

  lemma {:induction false} PlainSorted(q: ListInput, es: seq<ObjectInfo>)
    requires Sorted(es)
    ensures Sorted(Plain(q, es))
  {
    if es != [] {
      var init := es[..|es| - 1];
      PlainSorted(q, init);
      forall e | e in Plain(q, init) ensures Less(e.key, es[|es| - 1].key) {
        PlainMembers(q, init, e);
      }
    }
  }

  lemma {:induction false} GroupsMembers(q: ListInput, es: seq<ObjectInfo>, g: string)
    ensures g in Groups(q, es) <==> exists e :: e in es && IsGrouped(q, e.key) && GroupOf(q, e.key).value == g
  {
    if es != [] {
      GroupsMembers(q, es[..|es| - 1], g);
      assert es == es[..|es| - 1] + [es[|es| - 1]];
    }
  }

  /** In sorted entries, those below an entry are the ones before it. */
  lemma {:induction false} BelowIsPrefix(es: seq<ObjectInfo>, i: nat)
    requires Sorted(es) && i < |es|
    ensures Below(es, es[i].key) == es[..i]
  {
    BelowOf(es, es[i].key, i);
  }

  lemma {:induction false} BelowOf(es: seq<ObjectInfo>, key: string, i: nat)
    requires i <= |es|
    requires forall k :: 0 <= k < i ==> Less(es[k].key, key)
    requires forall k :: i <= k < |es| ==> AtMost(key, es[k].key)
    ensures Below(es, key) == es[..i]
  {
    if es != [] {
      var last := es[|es| - 1];
      if i == |es| {
        BelowOf(es[..|es| - 1], key, i - 1);
        assert es == es[..i - 1] + [last];
      } else {
        BelowOf(es[..|es| - 1], key, i);
        assert es[..|es| - 1][..i] == es[..i];
        if key == last.key { LessIrreflexive(key); } else { LessAsymmetric(key, last.key); }
      }
    }
  }

  // ---------------------------------------------------------------------------
  // Groups
  // ---------------------------------------------------------------------------

  /** The group is a prefix of its key that ends with its only delimiter. */
  lemma GroupIsPrefix(q: ListInput, key: string)
    requires q.prefix <= key && GroupOf(q, key).Some?
    ensures q.prefix <= GroupOf(q, key).value <= key
    ensures |GroupOf(q, key).value| > |q.prefix|
  {
    var g := GroupOf(q, key).value;
    assert key[..|g|] == g;
  }

  /** A key that starts with a group belongs to it. */
  lemma GroupIsShared(q: ListInput, x: string, y: string)
    requires q.prefix <= x && GroupOf(q, x).Some?
    requires GroupOf(q, x).value <= y
    ensures q.prefix <= y && GroupOf(q, y) == GroupOf(q, x)
  {
    hide Index, Occurs;
    var g := GroupOf(q, x).value;
    GroupIsPrefix(q, x);
    var p := |q.prefix|;
    assert y[..p] == g[..p] == q.prefix;
    assert x[p..|g|] == g[p..] == y[p..|g|];
    IndexShared(x[p..], y[p..], q.delimiter, |g| - p - |q.delimiter|);
  }

  /** Where `sub` first occurs depends on nothing after the occurrence. */
  lemma IndexShared(s: string, t: string, sub: string, i: nat)
    requires Index(s, sub) == i
    requires i + |sub| <= |s| && i + |sub| <= |t| && s[..i + |sub|] == t[..i + |sub|]
    ensures Index(t, sub) == i
  {
    hide Index, Occurs;
    SameOccurrence(s, t, sub, i, i);
    var j := Index(t, sub);
    assert 0 <= j <= i;
    SameOccurrence(s, t, sub, i, j);
  }

  lemma SameOccurrence(s: string, t: string, sub: string, i: nat, j: nat)
    requires j <= i && i + |sub| <= |s| && i + |sub| <= |t| && s[..i + |sub|] == t[..i + |sub|]
    ensures Occurs(s, sub, j) <==> Occurs(t, sub, j)
  {
    assert s[j..][..|sub|] == s[..i + |sub|][j..j + |sub|];
    assert t[j..][..|sub|] == t[..i + |sub|][j..j + |sub|];
  }

  /** Different groups are incomparable as prefixes, so they follow their keys. */
  lemma GroupsFollowKeys(q: ListInput, x: string, y: string)
    requires q.prefix <= x && q.prefix <= y && Less(x, y)
    requires GroupOf(q, x).Some? && GroupOf(q, y).Some?
    ensures AtMost(GroupOf(q, x).value, GroupOf(q, y).value)
  {
    var g, h := GroupOf(q, x).value, GroupOf(q, y).value;
    GroupIsPrefix(q, x);
    GroupIsPrefix(q, y);
    if g <= h {
      PrefixTransitive(g, h, y);
      GroupIsShared(q, x, y);
    } else if h <= g {
      PrefixTransitive(h, g, x);
      GroupIsShared(q, y, x);
    } else {
      IncomparablePrefixesDecide(g, h, x, y);
    }
  }

  lemma PrefixTransitive(a: string, b: string, c: string)
    requires a <= b <= c
    ensures a <= c
  {
    assert c[..|a|] == b[..|a|];
  }

  ghost predicate Ascending(s: seq<string>) {
    forall i, j :: 0 <= i < j < |s| ==> Less(s[i], s[j])
  }

  /** The groups appear in ascending order, each once. */
  lemma {:induction false} GroupsAscend(q: ListInput, es: seq<ObjectInfo>)
    requires Sorted(es)
    ensures Ascending(Groups(q, es))
  {
    if es != [] {
      var init, key := es[..|es| - 1], es[|es| - 1].key;
      GroupsAscend(q, init);
      if IsGrouped(q, key) && GroupOf(q, key).value !in Groups(q, init) {
        forall g | g in Groups(q, init) ensures Less(g, GroupOf(q, key).value) {
          GroupsMembers(q, init, g);
          var e :| e in init && IsGrouped(q, e.key) && GroupOf(q, e.key).value == g;
          GroupsFollowKeys(q, e.key, key);
        }
      }
    }
  }

  /** The final sort of the common prefixes has nothing to do. */
  lemma SortingGroupsIsIdle(q: ListInput, es: seq<ObjectInfo>)
    requires Sorted(es)
    ensures Sort(Groups(q, es), AtMost) == Groups(q, es)
  {
    StringOrderIsTotal();
    GroupsAscend(q, es);
    SortOfSorted(Groups(q, es), AtMost);
  }

  // ---------------------------------------------------------------------------
  // The loop
  // ---------------------------------------------------------------------------

  /** A key is passed over exactly when one of the three tests says so. */
  lemma SkippedAtMost(marker: string, key: string)
    ensures AtMost(key, marker) <==> !Less(marker, key)
  {
    LessTotal(marker, key);
    if key == marker { LessIrreflexive(key); }
    if Less(key, marker) { LessAsymmetric(key, marker); }
  }

  lemma PlainStep(q: ListInput, es: seq<ObjectInfo>, i: nat)
    requires i < |es|
    ensures Plain(q, es[..i + 1]) == Plain(q, es[..i]) + if IsPlain(q, es[i].key) then [es[i]] else []
    ensures var seen, key := Groups(q, es[..i]), es[i].key;
            Groups(q, es[..i + 1]) == if IsGrouped(q, key) && GroupOf(q, key).value !in seen
                                      then seen + [GroupOf(q, key).value] else seen
  {
    assert es[..i + 1][..i] == es[..i];
  }

  /** Stopping at a plain key with a full page gives the page. */
  lemma CutHere(q: ListInput, es: seq<ObjectInfo>, i: nat)
    requires Sorted(es) && i < |es| && IsPlain(q, es[i].key)
    ensures |Plain(q, es)| > |Plain(q, es[..i])|
    ensures Plain(q, es)[..|Plain(q, es[..i])|] == Plain(q, es[..i])
    ensures Plain(q, es)[|Plain(q, es[..i])|] == es[i]
    ensures Below(es, es[i].key) == es[..i]
  {
    hide IsPlain, Below, Plain, Groups, Sorted;
    BelowIsPrefix(es, i);
    PlainStep(q, es, i);
    assert es == es[..i + 1] + es[i + 1..];
    PlainConcat(q, es[..i + 1], es[i + 1..]);
    var front, rest := Plain(q, es[..i]), Plain(q, es[i + 1..]);
    assert Plain(q, es) == (front + [es[i]]) + rest;
  }

  method ListObjects(entries: seq<ObjectInfo>, q: ListInput) returns (result: ListOutput)
    requires Sorted(entries)
    ensures result == Page(q, entries)
  {
    hide Plain, Groups, Less, AtMost, Index, Below, Sort, Sorted;
    var maxKeys := q.maxKeys;
    if maxKeys <= 0 {
      maxKeys := 1000;
    }
    result := ListOutput([], [], false, "", 0);
    var seenPrefixes: set<string> := {};
    var i := 0;
    assert entries[..0] == [];
    PlainOfNone(q);
    while i < |entries|
      invariant 0 <= i <= |entries| && !result.isTruncated && result.nextToken == ""
      invariant result.contents == Plain(q, entries[..i]) && |result.contents| <= maxKeys
      invariant result.commonPrefixes == Groups(q, entries[..i])
      invariant forall g :: g in seenPrefixes <==> g in result.commonPrefixes
    {
      var e := entries[i];
      PlainStep(q, entries, i);
      SkippedAtMost(q.startAfter, e.key);
      SkippedAtMost(q.token, e.key);
      i := i + 1;
      if !(q.prefix <= e.key) {
        continue;
      }
      if q.startAfter != "" && AtMost(e.key, q.startAfter) {
        continue;
      }
      if q.token != "" && AtMost(e.key, q.token) {
        continue;
      }
      if q.delimiter != "" {
        var rest := TrimPrefix(e.key, q.prefix);
        var idx := Index(rest, q.delimiter);
        if idx >= 0 {
          var prefix := q.prefix + rest[..idx + |q.delimiter|];
          if prefix !in seenPrefixes {
            seenPrefixes := seenPrefixes + {prefix};
            result := result.(commonPrefixes := result.commonPrefixes + [prefix]);
          }
          continue;
        }
      }
      if |result.contents| >= maxKeys {
        result := result.(isTruncated := true, nextToken := e.key);
        CutHere(q, entries, i - 1);
        break;
      }
      result := result.(contents := result.contents + [e]);
    }
    assert entries[..|entries|] == entries;
    ghost var scanned := if result.isTruncated then entries[..i - 1] else entries;
    assert Sorted(scanned) by { SortedPrefix(entries, if result.isTruncated then i - 1 else i); }
    SortingGroupsIsIdle(q, scanned);
    result := result.(commonPrefixes := Sort(result.commonPrefixes, AtMost), keyCount := |result.contents|);
  }

  lemma PlainOfNone(q: ListInput)
    ensures Plain(q, []) == [] && Groups(q, []) == []
  {
  }

  lemma SortedPrefix(es: seq<ObjectInfo>, i: nat)
    requires Sorted(es) && i <= |es|
    ensures Sorted(es[..i])
  {
  }
}
