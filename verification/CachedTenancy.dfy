/** The gateway buckets of one backend bucket behind the bucket cache
    (internal/registry/cache.go): an operation whose bucket was resolved from the
    cache is carried out without the prefix. What that does to writes, reads,
    listings and multipart uploads. */
module CachedTenancy {
  import opened Strings
  import opened Strconv
  import opened Models
  import opened Database
  import opened CachedRegistry
  import opened Tenancy
  import opened Listing
  import opened ListingRun
  import opened ListingTranslation
  import Compose
  import Multipart

  /** The prefix a request is served with. */
  function ServedPrefix(prefix: string, hit: bool): string {
    if hit then "" else prefix
  }

  /** That is the prefix of the registry's answers, from the database and from an
      entry of the cache. */
  lemma AnswersHaveServedPrefix(store: Store, m: Mapping, hit: bool)
    ensures var rb := Joined(store, m);
            var answer := if hit then BucketFromCache(m.gatewayBucket, ProjectBucket(rb)) else rb;
            answer.backendPrefix == ServedPrefix(ParseBackendBucket(m.backendBucket).1, hit)
            && answer.backendBucket == rb.backendBucket
  {
    BucketHitIsExactIff(store, m);
  }

  /** An operation on the bucket with this prefix, and how the bucket was resolved. */
  datatype Served = Served(prefix: string, op: Op, hit: bool)

  function Serve(objects: Objects, e: Served): Objects {
    ApplyOwn(objects, Translate(ServedPrefix(e.prefix, e.hit), e.op))
  }

  function PlayServed(objects: Objects, history: seq<Served>): Objects {
    if history == [] then objects
    else Serve(PlayServed(objects, history[..|history| - 1]), history[|history| - 1])
  }

  /** The operations as their clients meant them. */
  function Meant(history: seq<Served>): seq<Event> {
    seq(|history|, i requires 0 <= i < |history| => (history[i].prefix, history[i].op))
  }

  /** The handlers refuse a put or delete without a key. */
  predicate Accepted(op: Op) {
    match op
    case Put(key, _) => key != ""
    case Delete(key) => key != ""
    case DeleteMany(_) => true
  }

  /** All operations are accepted and on these buckets, and only those in `cached`
      are ever resolved from the cache. */
  ghost predicate Within(history: seq<Served>, prefixes: set<string>, cached: set<string>) {
    forall e :: e in history ==> Accepted(e.op) && e.prefix in prefixes && (e.hit ==> e.prefix in cached)
  }

  ghost predicate AllApart(prefixes: set<string>) {
    forall p, q :: p in prefixes && q in prefixes && p != q ==> Apart(p, q)
  }

  /** Whatever the bucket holds and the history, each gateway bucket is what its
      own operations alone make of it. */
  ghost predicate Independent(prefixes: set<string>, cached: set<string>) {
    forall objects: Objects, history, p | Within(history, prefixes, cached) && p in prefixes
      :: View(p, PlayServed(objects, history)) == PlayOwn(View(p, objects), p, Meant(history))
  }

  /** Where no hit drops a prefix, serving is translating. */
  lemma {:induction false} ServedAsMeant(objects: Objects, history: seq<Served>)
    requires forall e :: e in history ==> (e.hit ==> e.prefix == "")
    ensures PlayServed(objects, history) == Play(objects, Meant(history))
  {
    hide Translate, ApplyOwn;
    if history != [] {
      var n := |history| - 1;
      ServedAsMeant(objects, history[..n]);
      assert history[n] in history;
      assert Meant(history)[..n] == Meant(history[..n]);
    }
  }

  lemma MeantMembers(history: seq<Served>, prefixes: set<string>, cached: set<string>, p: string)
    requires Within(history, prefixes, cached) && AllApart(prefixes) && p in prefixes
    ensures forall e :: e in Meant(history) ==> e.0 == p || Apart(e.0, p)
  {
    hide Apart;
    forall e | e in Meant(history) ensures e.0 == p || Apart(e.0, p) {
      var i :| 0 <= i < |history| && Meant(history)[i] == e;
      assert history[i] in history;
    }
  }

  /** A put through a hit reaches another bucket if and only if the client's key
      starts with that bucket's root, and then under the rest of the key. */
  lemma HitReaches(p: string, q: string, objects: Objects, key: string, body: Bytes)
    ensures View(q, Serve(objects, Served(p, Put(key, body), true)))
            == if Root(q) <= key then View(q, objects)[DropPrefix(q, key) := body] else View(q, objects)
  {
    hide View, AddPrefix, DropPrefix, Root;
    assert Serve(objects, Served(p, Put(key, body), true)) == objects[key := body] by { NoPrefix(key); }
    if Root(q) <= key {
      TranslationRoundTrip(q, key, key);
      forall k ensures AddPrefix(q, k) == key <==> k == DropPrefix(q, key) {
        TranslationKeepsOrder(q, k, DropPrefix(q, key));
      }
    } else {
      forall k ensures AddPrefix(q, k) != key { AddPrefixIsRoot(q, k); }
    }
  }

  lemma NoPrefix(key: string)
    ensures AddPrefix("", key) == key
  {
  }

  /** A put through a hit misses its own bucket, unless the key repeats its prefix. */
  lemma HitMissesOwn(p: string, objects: Objects, key: string, body: Bytes)
    requires p != "" && !(Root(p) <= key)
    ensures View(p, PlayServed(objects, [Served(p, Put(key, body), true)])) == View(p, objects)
    ensures PlayOwn(View(p, objects), p, Meant([Served(p, Put(key, body), true)])) == View(p, objects)[key := body]
  {
    hide View, Root;
    var e := Served(p, Put(key, body), true);
    assert [e][..0] == [];
    HitReaches(p, p, objects, key, body);
    assert Meant([e]) == [(p, e.op)] && [(p, e.op)][..0] == [];
  }

  /** Gateway buckets apart from each other stay independent, whichever requests
      the cache answers, if and only if no bucket with a prefix is ever resolved
      from the cache. */
  lemma IndependentIff(prefixes: set<string>, cached: set<string>)
    requires AllApart(prefixes) && cached <= prefixes
    ensures Independent(prefixes, cached) <==> forall p :: p in cached ==> p == ""
  {
    hide View, PlayServed, PlayOwn, Apart, Meant;
    if forall p :: p in cached ==> p == "" {
      forall objects: Objects, history, p | Within(history, prefixes, cached) && p in prefixes
        ensures View(p, PlayServed(objects, history)) == PlayOwn(View(p, objects), p, Meant(history))
      {
        ServedAsMeant(objects, history);
        MeantMembers(history, prefixes, cached, p);
        BucketsAreIndependent(objects, p, Meant(history));
      }
    } else {
      var p :| p in cached && p != "";
      LostPut(p, prefixes, cached);
    }
  }

  lemma LostPut(p: string, prefixes: set<string>, cached: set<string>)
    requires p != "" && p in cached && cached <= prefixes
    ensures !Independent(prefixes, cached)
  {
    hide View, PlayServed, PlayOwn, Meant;
    var objects: Objects, history := map[], [Served(p, Put("k", []), true)];
    assert |Root(p)| > |"k"|;
    HitMissesOwn(p, objects, "k", []);
    NothingToSee(p);
    assert View(p, PlayServed(objects, history)) == map[];
    assert "k" in PlayOwn(View(p, objects), p, Meant(history));
    assert Within(history, prefixes, cached) && p in prefixes;
  }

  lemma NothingToSee(p: string)
    ensures View(p, map[]) == map[]
  {
  }

  // ---------------------------------------------------------------------------
  // Reads
  // ---------------------------------------------------------------------------

  function Lookup(objects: Objects, key: string): Option<Bytes> {
    if key in objects then Some(objects[key]) else None
  }

  /** What a get of the bucket with this prefix returns. */
  function Get(objects: Objects, prefix: string, key: string, hit: bool): Option<Bytes> {
    Lookup(objects, AddPrefix(ServedPrefix(prefix, hit), key))
  }

  /** Without a hit a get returns the bucket's own object. */
  lemma MissGetsOwn(p: string, objects: Objects, key: string)
    ensures Get(objects, p, key, false) == Lookup(View(p, objects), key)
  {
    hide View, AddPrefix;
  }

  /** A get through a hit returns an object of bucket `q` if and only if the client's
      key starts with that bucket's root; it is the one under the rest of the key. */
  lemma HitGetsIff(p: string, q: string, objects: Objects, key: string)
    requires Get(objects, p, key, true).Some?
    ensures (exists l :: l in View(q, objects) && AddPrefix(q, l) == key) <==> Root(q) <= key
    ensures Root(q) <= key ==> Get(objects, p, key, true) == Lookup(View(q, objects), DropPrefix(q, key))
  {
    hide View, AddPrefix, DropPrefix, Root;
    NoPrefix(key);
    if Root(q) <= key {
      TranslationRoundTrip(q, key, key);
      assert DropPrefix(q, key) in View(q, objects);
    } else {
      forall l ensures AddPrefix(q, l) != key { AddPrefixIsRoot(q, l); }
    }
  }

  ghost predicate HitsGetOwn(p: string) {
    forall objects: Objects, key | key != "" :: Get(objects, p, key, true) == Lookup(View(p, objects), key)
  }

  /** Gets through hits return the bucket's own objects if and only if it has no
      prefix. */
  lemma HitsGetOwnIff(p: string)
    ensures HitsGetOwn(p) <==> p == ""
  {
    hide View;
    if p == "" {
      forall objects: Objects, key | key != ""
        ensures Get(objects, p, key, true) == Lookup(View(p, objects), key)
      {
        MissGetsOwn(p, objects, key);
      }
    } else {
      var objects: Objects := map["k" := []];
      MissGetsOwn(p, objects, "k");
      assert |AddPrefix(p, "k")| > |"k"|;
      assert Get(objects, p, "k", true) != Lookup(View(p, objects), "k");
    }
  }

  // ---------------------------------------------------------------------------
  // Listings
  // ---------------------------------------------------------------------------

  /** The answer of ListObjectsV2 on the bucket with this prefix. */
  function Listed(prefix: string, query: ListQuery, es: seq<ObjectInfo>, hit: bool): ListBucketResult {
    var served := ServedPrefix(prefix, hit);
    Answer(served, query, Page(BackendQuery(served, query), es))
  }

  lemma {:induction false} NoPrefixAllEntries(es: seq<ObjectInfo>)
    ensures GatewayEntries("", es) == es
  {
    if es != [] {
      NoPrefixAllEntries(es[..|es| - 1]);
      assert es == es[..|es| - 1] + [es[|es| - 1]];
    }
  }

  /** Through a hit the client is answered as if all of the backend bucket were its
      own, whatever its prefix. */
  lemma HitListsWholeBucket(p: string, query: ListQuery, es: seq<ObjectInfo>)
    requires Sorted(es)
    ensures var page := Page(GatewayInput(query, query.continuationToken), es);
            Listed(p, query, es, true)
            == ListBucketResult(query.prefix, QueryMaxKeys(query.maxKeys), page.keyCount, page.isTruncated,
                                page.nextToken, page.contents, page.commonPrefixes)
  {
    hide Page, Answer, BackendQuery, GatewayInput;
    NoPrefixAllEntries(es);
    ListingIsTransparent("", query, query.continuationToken, es);
  }

  /** So an object of any bucket `q` is among the plain keys listed if and only if
      its backend key answers the client's question. */
  lemma HitListsOtherIff(q: string, query: ListQuery, es: seq<ObjectInfo>, g: ObjectInfo)
    requires g in GatewayEntries(q, es)
    ensures var question := GatewayInput(query, query.continuationToken);
            ObjectInfo(AddPrefix(q, g.key), g.size) in Plain(question, es)
            <==> IsPlain(question, AddPrefix(q, g.key))
  {
    hide IsPlain, GatewayInput, AddPrefix;
    GatewayMembers(q, es, g);
    var e :| e in es && e.key == AddPrefix(q, g.key) && e.size == g.size;
    PlainMembers(GatewayInput(query, query.continuationToken), es, e);
  }

  ghost predicate HitsListOwn(p: string) {
    forall es, query: ListQuery | Sorted(es) && query.continuationToken == ""
      :: Listed(p, query, es, true) == Listed(p, query, es, false)
  }

  /** Listings through hits are the bucket's own if and only if it has no prefix. */
  lemma HitsListOwnIff(p: string)
    ensures HitsListOwn(p) <==> p == ""
  {
    if p != "" {
      hide Listed;
      var es, query := [ObjectInfo("k", 0)], ListQuery("", "", "", "", "", "");
      OneKeyShown(p, es, query);
      assert Listed(p, query, es, true) != Listed(p, query, es, false);
    }
  }

  lemma OneKeyShown(p: string, es: seq<ObjectInfo>, query: ListQuery)
    requires p != "" && es == [ObjectInfo("k", 0)] && query == ListQuery("", "", "", "", "", "")
    ensures Sorted(es) && Listed(p, query, es, true).contents == es && Listed(p, query, es, false).contents == []
  {
    hide Plain, Groups, Below, GatewayEntries, Answer, Listed;
    HitListsWholeBucket(p, query, es);
    assert GatewayInput(query, "") == ListInput("", "", 1000, "", "");
    AllPlain(1000, es);
    NoneUnder(p, es);
    PlainOfNone(GatewayInput(query, ""));
    ListingIsTransparent(p, query, "", es);
    ListedOnMiss(p, query, es);
  }

  lemma ListedOnMiss(p: string, query: ListQuery, es: seq<ObjectInfo>)
    ensures Listed(p, query, es, false) == Answer(p, query, Page(BackendQuery(p, query), es))
  {
  }

  lemma NoneUnder(p: string, es: seq<ObjectInfo>)
    requires p != "" && es == [ObjectInfo("k", 0)]
    ensures GatewayEntries(p, es) == []
  {
    assert es[..0] == [];
    assert |Root(p)| > |"k"|;
  }

  // ---------------------------------------------------------------------------
  // Multipart uploads
  // ---------------------------------------------------------------------------

  /** A completion through a hit puts the object under the client's bare key, and
      the bucket with the prefix does not see it unless the key repeats the prefix. */
  lemma MultipartThroughHit(objects: Objects, events: seq<Multipart.Event>, e: Multipart.Event, p: string)
    requires Multipart.Unstaged(objects) && forall x :: x in events ==> Multipart.InDomain(x)
    requires e.Complete? && Multipart.InDomain(e) && e.bucket.prefix == ServedPrefix(p, true)
    requires Multipart.GcsSucceeds(Multipart.GcsRun(objects, events), e)
    ensures var s := Multipart.GcsRun(objects, events);
            var after := Multipart.GcsStep(s, e).objects;
            && Multipart.AllReceived(s.t, e.gw, e.numbers)
            && Lookup(after, e.key) == Some(Multipart.Assembly(s.t, e.gw, e.numbers))
            && (!(Root(p) <= e.key) ==>
                  forall k :: Multipart.UserKey(AddPrefix(p, k))
                              ==> Lookup(View(p, after), k) == Lookup(View(p, s.objects), k))
  {
    hide View, AddPrefix, Root, Multipart.GcsRun, Multipart.GcsStep, Multipart.GcsSucceeds, Multipart.UserKey;
    Multipart.GcsCompletionIsRight(objects, events, e);
    assert Multipart.BackendKey(e.bucket, e.key) == e.key by { NoPrefix(e.key); }
    if !(Root(p) <= e.key) {
      forall k ensures AddPrefix(p, k) != e.key { AddPrefixIsRoot(p, k); }
    }
  }

  lemma CreatedOnMiss() returns (events: seq<Multipart.Event>, id: string)
    ensures var miss := Multipart.Bucket("b", "p");
            events == [Multipart.Create(miss, "k", "g", 1, true, {}, {}),
                       Multipart.Upload("g", miss, "k", 1, "x", true)]
    ensures var s := Multipart.GcsRun(map[], events);
            s.t.records == map["g" := Multipart.Record(id, "b", "k")]
            && s.objects == map[Compose.PartKey(id, 1) := "x"]
  {
    hide Compose.PartKey, Compose.GcsUploadId;
    var miss := Multipart.Bucket("b", "p");
    var e0 := Multipart.Create(miss, "k", "g", 1, true, {}, {});
    var e1 := Multipart.Upload("g", miss, "k", 1, "x", true);
    events := [e0, e1];
    assert [] + [e0] == [e0] && [e0] + [e1] == events;
    Multipart.GcsRunStep(map[], [], e0);
    Multipart.GcsRunStep(map[], [e0], e1);
    id := Multipart.GcsRun(map[], events).t.records["g"].backendId;
  }

  /** Created and filled while resolved from the database, completed through a hit:
      the object is "k", and there is none at "p/k". */
  lemma MissThenHit() returns (events: seq<Multipart.Event>, e: Multipart.Event)
    ensures var miss := Multipart.Bucket("b", "p");
            events == [Multipart.Create(miss, "k", "g", 1, true, {}, {}),
                       Multipart.Upload("g", miss, "k", 1, "x", true)]
    ensures e == Multipart.Complete("g", Multipart.Bucket("b", ""), "k", [1], true, true, map[], None, {})
    ensures var after := Multipart.GcsStep(Multipart.GcsRun(map[], events), e).objects;
            Lookup(after, "k") == Some("x") && Lookup(after, "p/k") == None
  {
    hide Multipart.GcsRun, Compose.PartKey, Compose.PartKeys, Compose.Concat, Compose.AllPresent;
    var id: string;
    events, id := CreatedOnMiss();
    e := Multipart.Complete("g", Multipart.Bucket("b", ""), "k", [1], true, true, map[], None, {});
    OnePart(id, Multipart.GcsRun(map[], events).objects);
  }

  lemma OnePart(id: string, objects: Objects)
    requires objects == map[Compose.PartKey(id, 1) := "x"]
    ensures Compose.AllPresent(objects, Compose.PartKeys(id, [1]))
    ensures Compose.Concat(objects, Compose.PartKeys(id, [1])) == "x"
    ensures Compose.PartKey(id, 1) !in {"k", "p/k"}
  {
    Multipart.PartKeyIsStaging(id, 1);
    hide Compose.PartKey;
    var keys := Compose.PartKeys(id, [1]);
    assert keys == [Compose.PartKey(id, 1)] && keys[..0] == [];
    assert Multipart.UserKey("k") && Multipart.UserKey("p/k");
  }
}
