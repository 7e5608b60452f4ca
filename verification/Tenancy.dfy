/** Several gateway buckets on one backend bucket, kept apart by key prefixes
    (internal/registry/models.go, internal/api/s3/objects.go). */
module Tenancy {
  import opened Strings
  import opened Strconv
  import opened Models
  import opened Listing
  import opened ListingTranslation

  type Objects = map<string, Bytes>

  /** What a gateway bucket with this prefix sees of the backend bucket. */
  ghost function View(prefix: string, objects: Objects): (v: Objects)
    ensures forall k :: k in v <==> AddPrefix(prefix, k) in objects
    ensures forall k :: k in v ==> v[k] == objects[AddPrefix(prefix, k)]
  {
    var under := set b | b in objects && Root(prefix) <= b :: DropPrefix(prefix, b);
    assert forall k :: k in under <==> AddPrefix(prefix, k) in objects by { UnderPrefix(prefix, objects, under); }
    map k | k in under :: objects[AddPrefix(prefix, k)]
  }

  lemma UnderPrefix(prefix: string, objects: Objects, under: set<string>)
    requires under == set b | b in objects && Root(prefix) <= b :: DropPrefix(prefix, b)
    ensures forall k :: k in under <==> AddPrefix(prefix, k) in objects
  {
    forall k ensures k in under <==> AddPrefix(prefix, k) in objects {
      AddPrefixIsRoot(prefix, k);
      DropPrefixCutsRoot(prefix, k);
      if k in under {
        var b :| b in objects && Root(prefix) <= b && DropPrefix(prefix, b) == k;
        TranslationRoundTrip(prefix, k, b);
      }
    }
  }

  // ---------------------------------------------------------------------------
  // Operations
  // ---------------------------------------------------------------------------

  datatype Op =
    | Put(key: string, body: Bytes)
    | Delete(key: string)
    | DeleteMany(keys: seq<string>)

  function KeySet(keys: seq<string>): set<string> {
    set k | k in keys
  }

  /** The operation on a bucket of one's own. */
  function ApplyOwn(v: Objects, op: Op): Objects {
    match op
    case Put(key, body) => v[key := body]
    case Delete(key) => v - {key}
    case DeleteMany(keys) => v - KeySet(keys)
  }

  /** Key by key: a put gives its key the body, a delete takes its keys away, and
      every other key keeps what it has. */
  lemma OwnEffects(v: Objects, k: string, key: string, body: Bytes, keys: seq<string>)
    ensures var w := ApplyOwn(v, Put(key, body));
            if k == key then k in w && w[k] == body else (k in w <==> k in v) && (k in v ==> w[k] == v[k])
    ensures var w := ApplyOwn(v, Delete(key));
            (k in w <==> k in v && k != key) && (k in w ==> w[k] == v[k])
    ensures var w := ApplyOwn(v, DeleteMany(keys));
            (k in w <==> k in v && k !in keys) && (k in w ==> w[k] == v[k])
  {
  }

  function AddPrefixes(prefix: string, keys: seq<string>): seq<string> {
    seq(|keys|, i requires 0 <= i < |keys| => AddPrefix(prefix, keys[i]))
  }

  /** The operation as the gateway passes it to the backend. */
  function Translate(prefix: string, op: Op): Op {
    match op
    case Put(key, body) => Put(AddPrefix(prefix, key), body)
    case Delete(key) => Delete(AddPrefix(prefix, key))
    case DeleteMany(keys) => DeleteMany(AddPrefixes(prefix, keys))
  }

  /** Neither prefix's keys lie under the other. */
  predicate Apart(p: string, q: string) {
    p != "" && q != "" && !(Root(p) <= Root(q)) && !(Root(q) <= Root(p))
  }

  lemma ApartKeysDiffer(p: string, q: string, k: string, l: string)
    requires Apart(p, q)
    ensures AddPrefix(p, k) != AddPrefix(q, l)
  {
    AddPrefixIsRoot(p, k);
    AddPrefixIsRoot(q, l);
    var b := Root(p) + k;
    if Root(q) <= b { PrefixesOfOne(Root(p), Root(q), b); }
  }

  lemma TranslatedKeys(prefix: string, keys: seq<string>, k: string)
    ensures AddPrefix(prefix, k) in AddPrefixes(prefix, keys) <==> k in keys
  {
    if k in keys {
      var i :| 0 <= i < |keys| && keys[i] == k;
      assert AddPrefixes(prefix, keys)[i] == AddPrefix(prefix, k);
    }
    if AddPrefix(prefix, k) in AddPrefixes(prefix, keys) {
      var i :| 0 <= i < |keys| && AddPrefixes(prefix, keys)[i] == AddPrefix(prefix, k);
      TranslationKeepsOrder(prefix, keys[i], k);
    }
  }

  /** Through its prefix an operation acts on the gateway bucket as on a bucket of
      its own. */
  lemma OpOnOwnView(prefix: string, objects: Objects, op: Op)
    ensures View(prefix, ApplyOwn(objects, Translate(prefix, op))) == ApplyOwn(View(prefix, objects), op)
  {
    hide AddPrefix, AddPrefixes, View;
    match op
    case Put(key, body) =>
      forall k ensures AddPrefix(prefix, k) == AddPrefix(prefix, key) <==> k == key {
        TranslationKeepsOrder(prefix, key, k);
      }
    case Delete(key) =>
      forall k ensures AddPrefix(prefix, k) == AddPrefix(prefix, key) <==> k == key {
        TranslationKeepsOrder(prefix, key, k);
      }
    case DeleteMany(keys) =>
      DeleteManyOnOwnView(prefix, objects, keys);
  }

  lemma DeleteManyOnOwnView(prefix: string, objects: Objects, keys: seq<string>)
    ensures View(prefix, ApplyOwn(objects, Translate(prefix, DeleteMany(keys))))
            == ApplyOwn(View(prefix, objects), DeleteMany(keys))
  {
    hide AddPrefix, AddPrefixes, View;
    forall k ensures AddPrefix(prefix, k) in AddPrefixes(prefix, keys) <==> k in keys {
      TranslatedKeys(prefix, keys, k);
    }
  }

  /** And on a gateway bucket apart from it not at all. */
  lemma OpOnOtherView(p: string, q: string, objects: Objects, op: Op)
    requires Apart(p, q)
    ensures View(q, ApplyOwn(objects, Translate(p, op))) == View(q, objects)
  {
    hide AddPrefix, AddPrefixes, Apart, View;
    match op
    case Put(key, body) =>
      forall k ensures AddPrefix(q, k) != AddPrefix(p, key) { ApartKeysDiffer(p, q, key, k); }
    case Delete(key) =>
      forall k ensures AddPrefix(q, k) != AddPrefix(p, key) { ApartKeysDiffer(p, q, key, k); }
    case DeleteMany(keys) =>
      forall k ensures AddPrefix(q, k) !in AddPrefixes(p, keys) { OthersKeyNotIn(p, q, keys, k); }
  }

  lemma OthersKeyNotIn(p: string, q: string, keys: seq<string>, k: string)
    requires Apart(p, q)
    ensures AddPrefix(q, k) !in AddPrefixes(p, keys)
  {
    hide AddPrefix, Apart;
    forall i | 0 <= i < |keys| ensures AddPrefixes(p, keys)[i] != AddPrefix(q, k) {
      ApartKeysDiffer(p, q, keys[i], k);
    }
  }

  // ---------------------------------------------------------------------------
  // Histories
  // ---------------------------------------------------------------------------

  /** An operation with the prefix of the gateway bucket it came through. */
  type Event = (string, Op)

  function Play(objects: Objects, history: seq<Event>): Objects {
    if history == [] then objects
    else
      var n := |history| - 1;
      ApplyOwn(Play(objects, history[..n]), Translate(history[n].0, history[n].1))
  }

  function PlayOwn(v: Objects, prefix: string, history: seq<Event>): Objects {
    if history == [] then v
    else
      var n := |history| - 1;
      var before := PlayOwn(v, prefix, history[..n]);
      if history[n].0 == prefix then ApplyOwn(before, history[n].1) else before
  }

  /** Whatever the history, each gateway bucket is what its own operations alone
      make of it, as long as the other prefixes are apart from its own. */
  lemma {:induction false} BucketsAreIndependent(objects: Objects, prefix: string, history: seq<Event>)
    requires forall e :: e in history ==> e.0 == prefix || Apart(e.0, prefix)
    ensures View(prefix, Play(objects, history)) == PlayOwn(View(prefix, objects), prefix, history)
  {
    hide View, Apart, ApplyOwn, Translate;
    if history != [] {
      var n := |history| - 1;
      BucketsAreIndependent(objects, prefix, history[..n]);
      var before := Play(objects, history[..n]);
      assert history[n] in history;
      if history[n].0 == prefix {
        OpOnOwnView(prefix, before, history[n].1);
      } else {
        OpOnOtherView(history[n].0, prefix, before, history[n].1);
      }
    }
  }

  /** Being apart is exactly never meeting in one backend key. */
  lemma ApartIffNeverMeeting(p: string, q: string)
    requires p != "" && q != ""
    ensures Apart(p, q) <==> forall k, l :: AddPrefix(p, k) != AddPrefix(q, l)
  {
    if Apart(p, q) {
      forall k, l ensures AddPrefix(p, k) != AddPrefix(q, l) { ApartKeysDiffer(p, q, k, l); }
    } else {
      var a, b := if Root(p) <= Root(q) then p else q, if Root(p) <= Root(q) then q else p;
      var rest := Root(b)[|Root(a)|..];
      AddPrefixIsRoot(a, rest);
      AddPrefixIsRoot(b, "");
      assert Root(a) + rest == Root(b) == Root(b) + "";
      assert AddPrefix(a, rest) == AddPrefix(b, "");
    }
  }

  // ---------------------------------------------------------------------------
  // Listing
  // ---------------------------------------------------------------------------

  /** The directory shows exactly the bucket's objects. */
  ghost predicate Shows(es: seq<ObjectInfo>, objects: Objects) {
    && Sorted(es)
    && (forall e :: e in es ==> e.key in objects && e.size == |objects[e.key]|)
    && (forall k :: k in objects ==> exists e :: e in es && e.key == k)
  }

  /** The entries a gateway bucket lists are exactly the objects it sees. */
  lemma ListingShowsView(prefix: string, es: seq<ObjectInfo>, objects: Objects)
    requires Shows(es, objects)
    ensures Shows(GatewayEntries(prefix, es), View(prefix, objects))
  {
    hide AddPrefix, DropPrefix, GatewayEntries;
    var gs, v := GatewayEntries(prefix, es), View(prefix, objects);
    GatewaySorted(prefix, es);
    forall g | g in gs ensures g.key in v && g.size == |v[g.key]| {
      GatewayMembers(prefix, es, g);
    }
    forall k | k in v ensures exists g :: g in gs && g.key == k {
      var e :| e in es && e.key == AddPrefix(prefix, k);
      AddPrefixIsRoot(prefix, k);
      LiftedIsDropped(prefix, k);
      EntryUnderPrefix(prefix, es, e);
    }
  }

  /** A bucket has one listing. */
  lemma {:induction false} ShownOnce(a: seq<ObjectInfo>, b: seq<ObjectInfo>, objects: Objects)
    requires Shows(a, objects) && Shows(b, objects)
    ensures a == b
    decreases |a|
  {
    hide Shows;
    if a == [] || b == [] {
      EmptyIffNothing(a, objects);
      EmptyIffNothing(b, objects);
    } else {
      var m, n := |a| - 1, |b| - 1;
      LastIsGreatest(a, b, objects);
      ShownWithout(a, objects);
      ShownWithout(b, objects);
      ShownOnce(a[..m], b[..n], objects - {a[m].key});
      assert a == a[..m] + [a[m]] && b == b[..n] + [b[n]];
    }
  }

  lemma EmptyIffNothing(a: seq<ObjectInfo>, objects: Objects)
    requires Shows(a, objects)
    ensures a == [] <==> objects == map[]
  {
    if a != [] { assert a[0] in a && a[0].key in objects; }
  }

  lemma LastIsGreatest(a: seq<ObjectInfo>, b: seq<ObjectInfo>, objects: Objects)
    requires Shows(a, objects) && Shows(b, objects) && a != [] && b != []
    ensures a[|a| - 1] == b[|b| - 1]
  {
    hide Less;
    var x, y := a[|a| - 1], b[|b| - 1];
    assert x in a && y in b;
    var e :| e in b && e.key == x.key;
    var f :| f in a && f.key == y.key;
    if x.key != y.key { LessAsymmetric(x.key, y.key); }
  }

  lemma ShownWithout(a: seq<ObjectInfo>, objects: Objects)
    requires Shows(a, objects) && a != []
    ensures Shows(a[..|a| - 1], objects - {a[|a| - 1].key})
  {
    hide Less;
    var m := |a| - 1;
    assert a == a[..m] + [a[m]];
    forall e | e in a[..m] ensures e.key != a[m].key { LessIrreflexive(e.key); }
    forall k | k in objects - {a[m].key} ensures exists e :: e in a[..m] && e.key == k {
      var e :| e in a && e.key == k;
    }
  }

  /** After any history of all buckets, ListObjectsV2 answers one of them as a
      backend would that held nothing but what its own operations made. */
  lemma ListingIsOwn(objects: Objects, prefix: string, history: seq<Event>,
                     es: seq<ObjectInfo>, own: seq<ObjectInfo>, query: ListQuery, token: string)
    requires forall e :: e in history ==> e.0 == prefix || Apart(e.0, prefix)
    requires Shows(es, Play(objects, history))
    requires Shows(own, PlayOwn(View(prefix, objects), prefix, history))
    requires query.continuationToken == TokenFor(prefix, token)
    ensures var page := Page(GatewayInput(query, token), own);
            Answer(prefix, query, Page(BackendQuery(prefix, query), es))
            == ListBucketResult(query.prefix, QueryMaxKeys(query.maxKeys), page.keyCount, page.isTruncated,
                                TokenFor(prefix, page.nextToken), page.contents, page.commonPrefixes)
  {
    hide Page, Answer, BackendQuery, GatewayInput, View, Apart;
    BucketsAreIndependent(objects, prefix, history);
    ListingShowsView(prefix, es, Play(objects, history));
    ShownOnce(GatewayEntries(prefix, es), own, PlayOwn(View(prefix, objects), prefix, history));
    ListingIsTransparent(prefix, query, token, es);
  }

  // ---------------------------------------------------------------------------
  // Multi-object delete
  // ---------------------------------------------------------------------------

  class BackendBucket {
    var objects: Objects
    /** Deletes the backend has refused. */
    ghost var refusals: nat

    /** Deletes one by one; a key that is not there counts as deleted. */
    method DeleteObjects(keys: seq<string>, quiet: bool)
      returns (deleted: seq<string>, errors: seq<string>, ghost failed: seq<bool>)
      modifies this
      ensures |failed| == |keys|
      // A key fails only for a refusal of its own.
      ensures |errors| == refusals - old(refusals)
      ensures errors == Chosen(keys, failed, true)
      ensures deleted == if quiet then [] else Chosen(keys, failed, false)
      ensures objects.Keys <= old(objects).Keys && KeySet(Chosen(keys, failed, false)) !! objects.Keys
      ensures forall k :: k in old(objects) && k !in Chosen(keys, failed, false)
                          ==> k in objects && objects[k] == old(objects)[k]
    {
      hide Chosen, KeySet, OnlyGone;
      deleted, errors, failed := [], [], [];
      NothingGone(objects);
      for i := 0 to |keys|
        invariant |failed| == i
        invariant |errors| == refusals - old(refusals)
        invariant errors == Chosen(keys[..i], failed, true)
        invariant deleted == if quiet then [] else Chosen(keys[..i], failed, false)
        invariant OnlyGone(old(objects), objects, Chosen(keys[..i], failed, false))
      {
        assert keys[..i + 1] == keys[..i] + [keys[i]];
        var err: bool := *;
        refusals := refusals + if err then 1 else 0;
        ChosenStep(keys[..i], failed, keys[i], err);
        GoneStep(old(objects), objects, Chosen(keys[..i], failed, false), keys[i]);
        failed := failed + [err];
        if err {
          errors := errors + [keys[i]];
        } else {
          objects := objects - {keys[i]};
          if !quiet {
            deleted := deleted + [keys[i]];
          }
        }
      }
      assert keys[..|keys|] == keys;
      GoneAre(old(objects), objects, Chosen(keys, failed, false));
    }
  }

  /** `after` is `before` without the keys of `gone`. */
  ghost predicate OnlyGone(before: Objects, after: Objects, gone: seq<string>) {
    && after.Keys <= before.Keys && KeySet(gone) !! after.Keys
    && forall k :: k in before && k !in gone ==> k in after && after[k] == before[k]
  }

  lemma NothingGone(objects: Objects)
    ensures OnlyGone(objects, objects, [])
    ensures forall which :: Chosen([], [], which) == []
  {
  }

  lemma GoneStep(before: Objects, after: Objects, gone: seq<string>, k: string)
    requires OnlyGone(before, after, gone)
    ensures OnlyGone(before, after - {k}, gone + [k])
    ensures gone + [] == gone
  {
    forall x | x in before && x !in gone + [k] ensures x !in gone && x != k {
      assert k in gone + [k];
    }
  }

  lemma GoneAre(before: Objects, after: Objects, gone: seq<string>)
    requires OnlyGone(before, after, gone)
    ensures after.Keys <= before.Keys && KeySet(gone) !! after.Keys
    ensures forall k :: k in before && k !in gone ==> k in after && after[k] == before[k]
  {
  }

  lemma ChosenStep(keys: seq<string>, flags: seq<bool>, key: string, flag: bool)
    requires |flags| == |keys|
    ensures Chosen(keys + [key], flags + [flag], flag) == Chosen(keys, flags, flag) + [key]
    ensures Chosen(keys + [key], flags + [flag], !flag) == Chosen(keys, flags, !flag)
  {
    assert (keys + [key])[..|keys|] == keys && (flags + [flag])[..|keys|] == flags;
  }

  /** The keys whose flag is `which`, in order. */
  function Chosen(keys: seq<string>, flags: seq<bool>, which: bool): seq<string>
    requires |flags| == |keys|
  {
    if keys == [] then []
    else
      var n := |keys| - 1;
      Chosen(keys[..n], flags[..n], which) + if flags[n] == which then [keys[n]] else []
  }

  /** Each key is chosen for its own flag, and none is lost between the two. */
  lemma {:induction false} ChosenIff(keys: seq<string>, flags: seq<bool>, which: bool, k: string)
    requires |flags| == |keys|
    ensures k in Chosen(keys, flags, which) <==> exists i :: 0 <= i < |keys| && keys[i] == k && flags[i] == which
    ensures |Chosen(keys, flags, true)| + |Chosen(keys, flags, false)| == |keys|
  {
    if keys != [] {
      var n := |keys| - 1;
      ChosenIff(keys[..n], flags[..n], which, k);
      if i :| 0 <= i < |keys| && keys[i] == k && flags[i] == which {
        assert i < n ==> keys[..n][i] == k && flags[..n][i] == which;
      }
    }
  }

  lemma {:induction false} ChosenTranslated(prefix: string, keys: seq<string>, flags: seq<bool>, which: bool)
    requires |flags| == |keys|
    ensures Chosen(AddPrefixes(prefix, keys), flags, which) == AddPrefixes(prefix, Chosen(keys, flags, which))
  {
    if keys != [] {
      var n := |keys| - 1;
      ChosenTranslated(prefix, keys[..n], flags[..n], which);
      assert AddPrefixes(prefix, keys)[..n] == AddPrefixes(prefix, keys[..n]);
    }
  }

  method StripAll(rb: ResolvedBucket, backendKeys: seq<string>, ghost keys: seq<string>) returns (r: seq<string>)
    requires backendKeys == AddPrefixes(rb.backendPrefix, keys)
    ensures r == keys
  {
    hide AddPrefix, DropPrefix;
    r := [];
    for i := 0 to |backendKeys|
      invariant r == keys[..i]
    {
      LiftedIsDropped(rb.backendPrefix, keys[i]);
      r := r + [rb.StripPrefix(backendKeys[i])];
    }
  }

  /** The multi-object delete of one gateway bucket: the client reads its own keys
      back, the bucket loses exactly the keys whose deletion did not fail, and no
      bucket apart from it loses any. */
  method DeleteObjectsHandler(rb: ResolvedBucket, be: BackendBucket, keys: seq<string>, quiet: bool)
    returns (deleted: seq<string>, errors: seq<string>, ghost failed: seq<bool>)
    modifies be
    ensures |failed| == |keys|
    ensures |errors| == be.refusals - old(be.refusals)
    ensures errors == Chosen(keys, failed, true)
    ensures deleted == if quiet then [] else Chosen(keys, failed, false)
    ensures View(rb.backendPrefix, be.objects)
            == ApplyOwn(View(rb.backendPrefix, old(be.objects)), DeleteMany(Chosen(keys, failed, false)))
    ensures forall q | Apart(rb.backendPrefix, q) :: View(q, be.objects) == View(q, old(be.objects))
  {
    hide AddPrefix, Apart, View, Chosen, ApplyOwn, Translate;
    var objects: seq<string> := [];
    for i := 0 to |keys|
      invariant objects == AddPrefixes(rb.backendPrefix, keys[..i])
    {
      objects := objects + [rb.PrefixKey(keys[i])];
    }
    assert keys[..|keys|] == keys;
    var out, errs;
    out, errs, failed := be.DeleteObjects(objects, quiet);
    ghost var gone := Chosen(keys, failed, false);
    ChosenTranslated(rb.backendPrefix, keys, failed, false);
    ChosenTranslated(rb.backendPrefix, keys, failed, true);
    deleted := StripAll(rb, out, if quiet then [] else gone);
    errors := StripAll(rb, errs, Chosen(keys, failed, true));
    DeletedIs(rb.backendPrefix, old(be.objects), be.objects, gone);
    OpOnOwnView(rb.backendPrefix, old(be.objects), DeleteMany(gone));
    forall q | Apart(rb.backendPrefix, q) ensures View(q, be.objects) == View(q, old(be.objects)) {
      OpOnOtherView(rb.backendPrefix, q, old(be.objects), DeleteMany(gone));
    }
  }

  lemma DeletedIs(prefix: string, before: Objects, after: Objects, gone: seq<string>)
    requires after.Keys <= before.Keys && KeySet(AddPrefixes(prefix, gone)) !! after.Keys
    requires forall k :: k in before && k !in AddPrefixes(prefix, gone) ==> k in after && after[k] == before[k]
    ensures after == ApplyOwn(before, Translate(prefix, DeleteMany(gone)))
  {
    hide AddPrefixes;
  }
}
