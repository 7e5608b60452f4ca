/** The Redis cache in front of the database (internal/registry/cache.go), whole
    operations one after the other. */
module CachedRegistry {
  import opened Strings
  import opened Strconv
  import opened Models
  import opened Database

  /** Durations are in nanoseconds. */
  const NEGATIVE_TTL: nat := 30_000_000_000
  const SECOND: nat := 1_000_000_000
  const NIL_ID: Id := 0

  /** A cache entry: "not found", or a value; Redis keeps it until `expires`. */
  datatype Entry<T> = Entry(value: Option<T>, expires: Option<nat>) {
    predicate Live(now: nat) {
      expires.None? || now < expires.value
    }
  }

  datatype CachedKey = CachedKey(tenantId: Id, secretEnc: Bytes, readonly: bool, createdSeconds: int)

  datatype CachedBucket = CachedBucket(
    storeId: Id,
    tenantId: Id,
    backendType: string,
    configEnc: Bytes,
    backendBucket: string,
    presignedMode: string,
    allowedOrigins: seq<string>)

  /** Redis: the key spaces "sgw:ak:" and "sgw:bm:", which have no key in common. */
  datatype Redis = Redis(keys: map<string, Entry<CachedKey>>, buckets: map<string, Entry<CachedBucket>>)

  // ---------------------------------------------------------------------------
  // What is kept of a row
  // ---------------------------------------------------------------------------

  function ProjectKey(row: AccessKeyRow): CachedKey {
    CachedKey(row.tenantId, row.secretEnc, row.readonly, row.createdAt / SECOND)
  }

  function KeyFromCache(accessKey: string, c: CachedKey): AccessKeyRow {
    AccessKeyRow(NIL_ID, c.tenantId, accessKey, c.secretEnc, c.readonly, c.createdSeconds * SECOND, false)
  }

  function ProjectBucket(rb: ResolvedBucket): CachedBucket {
    CachedBucket(rb.storeId, rb.tenantId, rb.backendType, rb.configEnc, rb.backendBucket,
                 rb.presignedMode, rb.allowedOrigins)
  }

  function BucketFromCache(gatewayBucket: string, c: CachedBucket): ResolvedBucket {
    var (bucket, prefix) := ParseBackendBucket(c.backendBucket);
    ResolvedBucket(c.storeId, c.tenantId, c.backendType, c.configEnc, gatewayBucket, bucket, prefix,
                   c.presignedMode, c.allowedOrigins)
  }

  /** A hit answers like the database if and only if the mapping has no prefix:
      the prefix is not kept, and everything else is. */
  lemma BucketHitIsExactIff(store: Store, m: Mapping)
    ensures var rb := Joined(store, m);
            && BucketFromCache(m.gatewayBucket, ProjectBucket(rb)) == rb.(backendPrefix := "")
            && (BucketFromCache(m.gatewayBucket, ProjectBucket(rb)) == rb
                <==> ParseBackendBucket(m.backendBucket).1 == "")
  {
    var (bucket, prefix) := ParseBackendBucket(m.backendBucket);
    ParseReadsBack(bucket, prefix);
  }

  /** A key hit has the row's tenant, secret and flag, its time to the second,
      and no ID: it is the row itself just when the row has no more than that. */
  lemma KeyHitIsExactIff(row: AccessKeyRow)
    requires !row.revoked
    ensures KeyFromCache(row.accessKey, ProjectKey(row)) == row
            <==> row.id == NIL_ID && row.createdAt % SECOND == 0
  {
  }

  // ---------------------------------------------------------------------------
  // Coherence
  // ---------------------------------------------------------------------------

  ghost predicate KeyCoherent(db: Db, r: Redis, now: nat, accessKey: string) {
    accessKey in r.keys && r.keys[accessKey].Live(now) && r.keys[accessKey].value.Some?
    ==> FindKey(db, accessKey).Some?
        && r.keys[accessKey].value.value == ProjectKey(FindKey(db, accessKey).value)
  }

  ghost predicate BucketCoherent(db: Db, r: Redis, now: nat, bucket: string)
    requires Consistent(db)
  {
    bucket in r.buckets && r.buckets[bucket].Live(now) && r.buckets[bucket].value.Some?
    ==> FindBucket(db, bucket).Some?
        && r.buckets[bucket].value.value == ProjectBucket(FindBucket(db, bucket).value)
  }

  /** Every live positive entry is what the current row would be cached as. */
  ghost predicate Coherent(db: Db, r: Redis, now: nat)
    requires Consistent(db)
  {
    && (forall k :: KeyCoherent(db, r, now, k))
    && (forall b :: BucketCoherent(db, r, now, b))
  }

  /** A change of a store shows only in the buckets mapped to it. */
  lemma StoreChangeShows(db: Db, db': Db, r: Redis, now: nat, storeId: Id)
    requires Consistent(db) && Consistent(db') && Coherent(db, r, now)
    requires db'.keys == db.keys
    requires forall s :: s in db.stores && s != storeId ==> s in db'.stores && db'.stores[s] == db.stores[s]
    requires forall m :: m in db'.mappings ==> m in db.mappings && db'.mappings[m] == db.mappings[m]
    requires forall m :: m in db.mappings && db.mappings[m].storeId != storeId ==> m in db'.mappings
    requires forall m :: m in db.mappings && db.mappings[m].storeId == storeId
                         ==> db.mappings[m].gatewayBucket !in r.buckets
    ensures Coherent(db', r, now)
  {
    forall k ensures KeyCoherent(db', r, now, k) {
      assert KeyCoherent(db, r, now, k);
      SameKeyFound(db, db', k);
    }
    forall b ensures BucketCoherent(db', r, now, b) {
      assert BucketCoherent(db, r, now, b);
      if b in r.buckets {
        forall id | IsMapping(db, id, b) || IsMapping(db', id, b)
          ensures id in db.mappings && id in db'.mappings && db.mappings[id] == db'.mappings[id]
                  && db.mappings[id].storeId != storeId
        {
        }
        SameMappingFound(db, db', b);
      }
    }
  }

  /** A change of one mapping shows only in its bucket. */
  lemma MappingChangeShows(db: Db, db': Db, r: Redis, now: nat, bucket: string)
    requires Consistent(db) && Consistent(db') && Coherent(db, r, now)
    requires db'.keys == db.keys && db'.stores == db.stores
    requires forall b :: b != bucket ==> SameMapping(db, db', b)
    requires bucket in r.buckets && r.buckets[bucket].Live(now) ==> r.buckets[bucket].value.None?
    ensures Coherent(db', r, now)
  {
    forall k ensures KeyCoherent(db', r, now, k) {
      assert KeyCoherent(db, r, now, k);
      SameKeyFound(db, db', k);
    }
    forall b ensures BucketCoherent(db', r, now, b) {
      assert BucketCoherent(db, r, now, b);
      if b != bucket { SameMappingFound(db, db', b); }
    }
  }

  /** A change of one access key shows only in that key. */
  lemma KeyChangeShows(db: Db, db': Db, r: Redis, now: nat, accessKey: string)
    requires Consistent(db) && Consistent(db') && Coherent(db, r, now)
    requires db'.mappings == db.mappings && db'.stores == db.stores
    requires forall i :: i in db.keys && db.keys[i].accessKey != accessKey
                         ==> i in db'.keys && db'.keys[i] == db.keys[i]
    requires forall i :: i in db'.keys && db'.keys[i].accessKey != accessKey
                         ==> i in db.keys && db'.keys[i] == db.keys[i]
    requires accessKey in r.keys && r.keys[accessKey].Live(now) ==> r.keys[accessKey].value.None?
    ensures Coherent(db', r, now)
  {
    forall k ensures KeyCoherent(db', r, now, k) {
      assert KeyCoherent(db, r, now, k);
      if k != accessKey { SameKeyFound(db, db', k); }
    }
    forall b ensures BucketCoherent(db', r, now, b) {
      assert BucketCoherent(db, r, now, b);
      SameMappingFound(db, db', b);
    }
  }

  // ---------------------------------------------------------------------------
  // Hits
  // ---------------------------------------------------------------------------

  /** What a live entry answers, if there is one. */
  function BucketHit(r: Redis, now: nat, tenantId: Id, bucket: string): Option<Result<ResolvedBucket>> {
    if bucket !in r.buckets || !r.buckets[bucket].Live(now) then None
    else
      match r.buckets[bucket].value
      case None => Some(Err(BucketNotFound))
      case Some(cached) =>
        Some(if cached.tenantId != tenantId then Err(Unauthorized) else Ok(BucketFromCache(bucket, cached)))
  }

  function KeyHit(r: Redis, now: nat, accessKey: string): Option<Result<AccessKeyRow>> {
    if accessKey !in r.keys || !r.keys[accessKey].Live(now) then None
    else
      match r.keys[accessKey].value
      case None => Some(Err(AccessKeyNotFound))
      case Some(cached) => Some(Ok(KeyFromCache(accessKey, cached)))
  }

  /** A coherent positive hit equals the uncached answer if and only if the tenant
      is refused or the mapping has no prefix. */
  lemma BucketHitEqualsUncachedIff(db: Db, r: Redis, now: nat, tenantId: Id, bucket: string)
    requires Consistent(db) && Coherent(db, r, now)
    requires BucketHit(r, now, tenantId, bucket).Some?
    requires BucketHit(r, now, tenantId, bucket) != Some(Err(BucketNotFound))
    ensures FindMapping(db, bucket).Some?
    ensures BucketHit(r, now, tenantId, bucket) == Some(ResolveAnswer(db, tenantId, bucket))
            <==> ResolveAnswer(db, tenantId, bucket) == Err(Unauthorized)
                 || ParseBackendBucket(FindMapping(db, bucket).value.backendBucket).1 == ""
  {
    hide Coherent, ParseBackendBucket, BucketFromCache, ProjectBucket;
    CoherentBucket(db, r, now, bucket);
    var cached := r.buckets[bucket].value.value;
    HitIsStripped(db, bucket, cached);
    ProjectedTenant(FindBucket(db, bucket).value);
  }

  lemma ProjectedTenant(rb: ResolvedBucket)
    ensures ProjectBucket(rb).tenantId == rb.tenantId
  {
  }

  /** A coherent positive key hit equals the uncached answer if and only if the row
      has no ID and no fraction of a second. */
  lemma KeyHitEqualsUncachedIff(db: Db, r: Redis, now: nat, accessKey: string)
    requires Consistent(db) && Coherent(db, r, now)
    requires KeyHit(r, now, accessKey).Some? && KeyHit(r, now, accessKey) != Some(Err(AccessKeyNotFound))
    ensures FindKey(db, accessKey).Some?
    ensures var row := FindKey(db, accessKey).value;
            KeyHit(r, now, accessKey) == Some(LookupAnswer(db, accessKey))
            <==> row.id == NIL_ID && row.createdAt % SECOND == 0
  {
    assert KeyCoherent(db, r, now, accessKey);
    FoundKeyIsNamed(db, accessKey);
    KeyHitIsExactIff(FindKey(db, accessKey).value);
  }

  lemma FoundKeyIsNamed(db: Db, accessKey: string)
    requires FindKey(db, accessKey).Some?
    ensures FindKey(db, accessKey).value.accessKey == accessKey && !FindKey(db, accessKey).value.revoked
  {
  }

  /** The mapping "b/p" resolved twice: the first answer has the prefix, and the
      entry it leaves gives the second one without. */
  lemma SecondAnswerLosesPrefix(store: Store, ttl: nat, now: nat) returns (db: Db, r: Redis)
    requires ttl > 0
    ensures Consistent(db)
    ensures var first := ResolveAnswer(db, store.tenantId, "g");
            && first.Ok? && first.value.backendBucket == "b" && first.value.backendPrefix == "p"
            && r == Redis(map[], map["g" := Entry(Some(ProjectBucket(first.value)), Some(now + ttl))])
            && BucketHit(r, now, store.tenantId, "g") == Some(Ok(first.value.(backendPrefix := "")))
            && BucketHit(r, now, store.tenantId, "g") != Some(ResolveAnswer(db, store.tenantId, "g"))
  {
    hide ParseBackendBucket;
    var m := Mapping(1, "g", "b/p");
    db := Db(map[], map[1 := store], map[1 := m]);
    FindMappingIs(db, 1);
    ParseReadsBack("b", "p");
    assert "b" + "/" + "p" == "b/p";
    var rb := Joined(store, m);
    r := Redis(map[], map["g" := Entry(Some(ProjectBucket(rb)), Some(now + ttl))]);
    BucketHitIsExactIff(store, m);
  }

  // ---------------------------------------------------------------------------
  // The registry
  // ---------------------------------------------------------------------------

  class CachedManager {
    const inner: PgManager
    const ttl: int
    var rdb: Redis
    var now: nat
    /** Whether Redis carries out the n-th eviction asked of it, and how many have
        been asked. */
    const carriedOut: nat -> bool
    var evictions: nat
    /** An eviction that was due has not happened. */
    ghost var evictionLost: bool
    /** Reads and writes of entries that Redis has refused. */
    ghost var redisFailures: nat

    /** Redis has refused one of the evictions since. */
    ghost predicate Refused(since: nat)
      reads this`evictions
    {
      exists n: nat :: since <= n < evictions && !carriedOut(n)
    }

    ghost predicate Valid()
      reads this, inner
    {
      Consistent(inner.db) && (!evictionLost ==> Coherent(inner.db, rdb, now))
    }

    constructor (inner: PgManager, ttl: int, now: nat, carriedOut: nat -> bool)
      requires Consistent(inner.db)
      ensures this.inner == inner && this.ttl == ttl && this.carriedOut == carriedOut
      ensures Valid() && !evictionLost
    {
      this.inner := inner;
      this.ttl := ttl;
      this.now := now;
      this.carriedOut := carriedOut;
      evictions := 0;
      rdb := Redis(map[], map[]);
      evictionLost := false;
      redisFailures := 0;
    }

    method Available() returns (up: bool)
      modifies this`redisFailures
      ensures redisFailures == old(redisFailures) + if up then 0 else 1
    {
      up := *;
      redisFailures := redisFailures + if up then 0 else 1;
    }

    /** Time goes by: entries expire, and none becomes wrong. */
    method Elapse(d: nat)
      requires Valid()
      modifies this`now
      ensures Valid() && now == old(now) + d
    {
      now := now + d;
      if !evictionLost {
        forall k ensures KeyCoherent(inner.db, rdb, now, k) {
          assert KeyCoherent(inner.db, rdb, old(now), k);
        }
        forall b ensures BucketCoherent(inner.db, rdb, now, b) {
          assert BucketCoherent(inner.db, rdb, old(now), b);
        }
      }
    }

    /** When a `Set` with this duration expires; unless it is positive, never. */
    function Expiry(d: int): Option<nat>
      reads this`now
    {
      if d <= 0 then None else Some(now + d)
    }

    // ----- reads -----

    method LookupAccessKey(accessKey: string) returns (r: Result<AccessKeyRow>, ghost hit: bool)
      requires Valid()
      modifies this`rdb, this`redisFailures, inner`failures
      ensures Valid() && rdb.buckets == old(rdb).buckets && redisFailures >= old(redisFailures)
      ensures inner.failures >= old(inner.failures) && (r == Err(DbError) <==> inner.failures > old(inner.failures))
      // Field by field, an answer is the row, but for what the cache does not keep of it.
      ensures r.Ok? && !(hit && evictionLost) ==>
                exists id | id in inner.db.keys :: var row, k := inner.db.keys[id], r.value;
                  && !row.revoked && !k.revoked
                  && row.accessKey == k.accessKey == accessKey
                  && row.tenantId == k.tenantId
                  && row.secretEnc == k.secretEnc
                  && row.readonly == k.readonly
                  && k.id == (if hit then 0 else row.id)
                  && k.createdAt == row.createdAt - if hit then row.createdAt % 1_000_000_000 else 0
      // A hit is answered by the entry: the current row as the cache keeps it.
      ensures hit ==> KeyHit(old(rdb), now, accessKey) == Some(r) && rdb == old(rdb)
      ensures hit && r.Ok? && !evictionLost ==>
                FindKey(inner.db, accessKey).Some?
                && r.value == KeyFromCache(accessKey, ProjectKey(FindKey(inner.db, accessKey).value))
      // Anything else is the database's answer, cached for as long as its kind allows or not at all.
      ensures !hit ==> r == Err(DbError) || r == LookupAnswer(inner.db, accessKey)
      ensures rdb.keys == old(rdb).keys
              || (r == Err(AccessKeyNotFound)
                  && rdb.keys == old(rdb).keys[accessKey := Entry(None, Some(now + 30_000_000_000))])
              || (r.Ok? && rdb.keys == old(rdb).keys[accessKey := Entry(Some(ProjectKey(r.value)), Expiry(ttl))])
      // With Redis up, a live entry is used and an answer is kept.
      ensures redisFailures == old(redisFailures) ==>
                && (hit <==> KeyHit(old(rdb), now, accessKey).Some?)
                && (!hit && r == Err(AccessKeyNotFound) ==>
                      rdb.keys == old(rdb).keys[accessKey := Entry(None, Some(now + 30_000_000_000))])
                && (!hit && r.Ok? ==>
                      rdb.keys == old(rdb).keys[accessKey := Entry(Some(ProjectKey(r.value)),
                                                                   if ttl > 0 then Some(now + ttl) else None)])
    {
      hit := false;
      var up := Available();
      if up && accessKey in rdb.keys && rdb.keys[accessKey].Live(now) {
        assert !evictionLost ==> KeyCoherent(inner.db, rdb, now, accessKey);
        match rdb.keys[accessKey].value
        case None => return Err(AccessKeyNotFound), true;
        case Some(cached) => return Ok(KeyFromCache(accessKey, cached)), true;
      }
      r := inner.LookupAccessKey(accessKey);
      up := Available();
      if up {
        if r == Err(AccessKeyNotFound) {
          SetKey(accessKey, Entry(None, Expiry(NEGATIVE_TTL)));
        } else if r.Ok? {
          SetKey(accessKey, Entry(Some(ProjectKey(r.value)), Expiry(ttl)));
        }
      }
    }

    method SetKey(accessKey: string, e: Entry<CachedKey>)
      requires Valid()
      requires e.value.Some? ==> FindKey(inner.db, accessKey).Some?
                                 && e.value.value == ProjectKey(FindKey(inner.db, accessKey).value)
      modifies this`rdb
      ensures Valid() && rdb == old(rdb).(keys := old(rdb).keys[accessKey := e])
    {
      rdb := rdb.(keys := rdb.keys[accessKey := e]);
      if !evictionLost {
        forall k ensures KeyCoherent(inner.db, rdb, now, k) {
          assert KeyCoherent(inner.db, old(rdb), now, k);
        }
        forall b ensures BucketCoherent(inner.db, rdb, now, b) {
          assert BucketCoherent(inner.db, old(rdb), now, b);
        }
      }
    }

    method ResolveBucket(tenantId: Id, bucket: string) returns (r: Result<ResolvedBucket>, ghost hit: bool)
      requires Valid()
      modifies this`rdb, this`redisFailures, inner`failures
      ensures Valid() && rdb.keys == old(rdb).keys && redisFailures >= old(redisFailures)
      ensures inner.failures >= old(inner.failures) && (r == Err(DbError) <==> inner.failures > old(inner.failures))
      ensures r.Ok? || r.error in {DbError, Unauthorized, BucketNotFound}
      // Field by field, an answer is the mapping's row and its store's, but that a hit has no prefix.
      ensures r.Ok? && !(hit && evictionLost) ==>
                exists id | id in inner.db.mappings :: var m, rb := inner.db.mappings[id], r.value;
                  && m.gatewayBucket == bucket == rb.gatewayBucket
                  && m.storeId == rb.storeId && rb.storeId in inner.db.stores
                  && rb.backendBucket == ParseBackendBucket(m.backendBucket).0
                  && rb.backendPrefix == (if hit then "" else ParseBackendBucket(m.backendBucket).1)
                  && var store := inner.db.stores[rb.storeId];
                     && store.tenantId == rb.tenantId == tenantId
                     && store.backendType == rb.backendType
                     && store.configEnc == rb.configEnc
                     && store.presignedMode == rb.presignedMode
                     && store.allowedOrigins == rb.allowedOrigins
      // No answer ever names another tenant's bucket.
      ensures r.Ok? ==> r.value.tenantId == tenantId && r.value.gatewayBucket == bucket
      // A hit is answered by the entry: the current answer without its prefix.
      ensures hit ==> BucketHit(old(rdb), now, tenantId, bucket) == Some(r) && rdb == old(rdb)
      ensures hit && r.Ok? && !evictionLost ==>
                ResolveAnswer(inner.db, tenantId, bucket).Ok?
                && var rb := ResolveAnswer(inner.db, tenantId, bucket).value;
                   r.value == rb.(backendPrefix := "") && (r.value == rb <==> rb.backendPrefix == "")
      ensures hit && r == Err(Unauthorized) && !evictionLost ==>
                ResolveAnswer(inner.db, tenantId, bucket) == Err(Unauthorized)
      // Anything else is the database's answer, cached for as long as its kind allows or not at all.
      ensures !hit ==> r == Err(DbError) || r == ResolveAnswer(inner.db, tenantId, bucket)
      ensures rdb.buckets == old(rdb).buckets
              || (r == Err(BucketNotFound)
                  && rdb.buckets == old(rdb).buckets[bucket := Entry(None, Some(now + 30_000_000_000))])
              || (r.Ok?
                  && rdb.buckets == old(rdb).buckets[bucket := Entry(Some(ProjectBucket(r.value)), Expiry(ttl))])
      // With Redis up, a live entry is used and an answer is kept.
      ensures redisFailures == old(redisFailures) ==>
                && (hit <==> BucketHit(old(rdb), now, tenantId, bucket).Some?)
                && (!hit && r == Err(BucketNotFound) ==>
                      rdb.buckets == old(rdb).buckets[bucket := Entry(None, Some(now + 30_000_000_000))])
                && (!hit && r.Ok? ==>
                      rdb.buckets == old(rdb).buckets[bucket := Entry(Some(ProjectBucket(r.value)),
                                                                      if ttl > 0 then Some(now + ttl) else None)])
    {
      hide Coherent, Consistent, ParseBackendBucket, ResolveAnswer, FindBucket, BucketFromCache, ProjectBucket;
      hit := false;
      var up := Available();
      if up && bucket in rdb.buckets && rdb.buckets[bucket].Live(now) {
        if !evictionLost { HitIsRow(inner.db, rdb, now, tenantId, bucket); }
        match rdb.buckets[bucket].value
        case None => return Err(BucketNotFound), true;
        case Some(cached) =>
          HitIsNamed(bucket, cached);
          if cached.tenantId != tenantId {
            return Err(Unauthorized), true;
          }
          return Ok(BucketFromCache(bucket, cached)), true;
      }
      r := inner.ResolveBucket(tenantId, bucket);
      AnswerIsFound(inner.db, tenantId, bucket);
      up := Available();
      if up {
        if r == Err(BucketNotFound) {
          SetBucket(bucket, Entry(None, Expiry(NEGATIVE_TTL)));
        } else if r.Ok? {
          SetBucket(bucket, Entry(Some(ProjectBucket(r.value)), Expiry(ttl)));
        }
      }
    }

    method SetBucket(bucket: string, e: Entry<CachedBucket>)
      requires Valid()
      requires e.value.Some? ==> FindBucket(inner.db, bucket).Some?
                                 && e.value.value == ProjectBucket(FindBucket(inner.db, bucket).value)
      modifies this`rdb
      ensures Valid() && rdb == old(rdb).(buckets := old(rdb).buckets[bucket := e])
    {
      rdb := rdb.(buckets := rdb.buckets[bucket := e]);
      if !evictionLost {
        forall k ensures KeyCoherent(inner.db, rdb, now, k) {
          assert KeyCoherent(inner.db, old(rdb), now, k);
        }
        forall b ensures BucketCoherent(inner.db, rdb, now, b) {
          assert BucketCoherent(inner.db, old(rdb), now, b);
        }
      }
    }

    method GetBucketAllowedOrigins(bucket: string) returns (r: Result<seq<string>>)
      requires Valid()
      modifies this`redisFailures, inner`failures
      ensures Valid()
      ensures inner.failures >= old(inner.failures) && (r.Err? <==> inner.failures > old(inner.failures))
      ensures r == Err(DbError) || (r.Ok? && (!evictionLost ==> r.value == OriginsAnswer(inner.db, bucket)))
      ensures r.Ok? && !evictionLost ==>
                && (forall id :: id in inner.db.mappings && inner.db.mappings[id].gatewayBucket == bucket
                                 ==> r.value == inner.db.stores[inner.db.mappings[id].storeId].allowedOrigins)
                && (r.value != [] ==>
                      exists id :: id in inner.db.mappings && inner.db.mappings[id].gatewayBucket == bucket)
    {
      var up := Available();
      if up && bucket in rdb.buckets && rdb.buckets[bucket].Live(now) && rdb.buckets[bucket].value.Some? {
        assert !evictionLost ==> BucketCoherent(inner.db, rdb, now, bucket);
        if !evictionLost { OriginsAreRow(inner.db, bucket); }
        return Ok(rdb.buckets[bucket].value.value.allowedOrigins);
      }
      r := inner.GetBucketAllowedOrigins(bucket);
    }

    // ----- evictions -----

    method InvalidateAccessKey(accessKey: string) returns (ok: bool)
      modifies this`rdb, this`evictions, this`evictionLost
      ensures ok ==> rdb == old(rdb).(keys := old(rdb).keys - {accessKey}) && evictionLost == old(evictionLost)
      ensures !ok ==> rdb == old(rdb) && evictionLost
      ensures ok == carriedOut(old(evictions)) && evictions == old(evictions) + 1
      ensures ok <==> !Refused(old(evictions))
    {
      ok := carriedOut(evictions);
      evictions := evictions + 1;
      if ok {
        rdb := rdb.(keys := rdb.keys - {accessKey});
      } else {
        evictionLost := true;
      }
    }

    method InvalidateBucket(bucket: string) returns (ok: bool)
      modifies this`rdb, this`evictions, this`evictionLost
      ensures ok ==> rdb == old(rdb).(buckets := old(rdb).buckets - {bucket}) && evictionLost == old(evictionLost)
      ensures !ok ==> rdb == old(rdb) && evictionLost
      ensures ok == carriedOut(old(evictions)) && evictions == old(evictions) + 1
      ensures ok <==> !Refused(old(evictions))
    {
      ok := carriedOut(evictions);
      evictions := evictions + 1;
      if ok {
        rdb := rdb.(buckets := rdb.buckets - {bucket});
      } else {
        evictionLost := true;
      }
    }

    /** Evicts every bucket mapped to the store, unless the listing fails. */
    method InvalidateBucketsForStore(storeId: Id) returns (r: Result<()>, ghost asked: seq<string>)
      modifies this`rdb, this`evictions, this`evictionLost, inner`failures
      ensures r.Ok? || (r == Err(DbError) && rdb == old(rdb))
      ensures inner.failures >= old(inner.failures) && (r.Err? <==> inner.failures > old(inner.failures))
      ensures evictions >= old(evictions)
      ensures evictionLost <==> old(evictionLost) || Refused(old(evictions))
      ensures rdb.keys == old(rdb).keys && rdb.buckets.Items <= old(rdb).buckets.Items
      ensures r.Ok? && !evictionLost ==> forall m :: m in inner.db.mappings && inner.db.mappings[m].storeId == storeId
                                            ==> inner.db.mappings[m].gatewayBucket !in rdb.buckets
      // One eviction is asked for each bucket, whatever becomes of the others.
      ensures |asked| == evictions - old(evictions)
      ensures forall i :: 0 <= i < |asked| && carriedOut(old(evictions) + i) ==> asked[i] !in rdb.buckets
      ensures forall b :: b in old(rdb).buckets && b !in asked ==> b in rdb.buckets
      ensures r.Ok? ==>
                && (forall m :: m in inner.db.mappings && inner.db.mappings[m].storeId == storeId
                                ==> inner.db.mappings[m].gatewayBucket in asked)
                && (forall b :: b in asked ==>
                      exists m | m in inner.db.mappings ::
                        inner.db.mappings[m].storeId == storeId && inner.db.mappings[m].gatewayBucket == b)
    {
      hide Evicted;
      asked := [];
      var listed := inner.ListBucketMappings(storeId);
      if listed.Err? {
        return Err(DbError), [];
      }
      var mappings := listed.value;
      NothingEvicted(rdb, evictions, carriedOut);
      for i := 0 to |mappings|
        invariant |asked| == i && forall j :: 0 <= j < i ==> asked[j] == mappings[j].1.gatewayBucket
        invariant evictions == old(evictions) + i && inner.failures == old(inner.failures)
        invariant evictionLost <==> old(evictionLost) || Refused(old(evictions))
        invariant Evicted(old(rdb), rdb, asked, old(evictions), carriedOut)
      {
        ghost var before := rdb;
        var done := InvalidateBucket(mappings[i].1.gatewayBucket);
        EvictedStep(old(rdb), before, rdb, asked, old(evictions), carriedOut, mappings[i].1.gatewayBucket);
        asked := asked + [mappings[i].1.gatewayBucket];
      }
      EvictedAre(old(rdb), rdb, asked, old(evictions), carriedOut);
      AskedAre(inner.db, storeId, mappings, asked);
      if !evictionLost {
        forall i | 0 <= i < |asked| ensures asked[i] !in rdb.buckets { assert carriedOut(old(evictions) + i); }
      }
      r := Ok(());
    }

    // ----- writes -----

    /** After a statement that changes one store, and its evictions. */
    lemma StoreChanged(before: Db, r: Redis, storeId: Id)
      requires Consistent(before) && Consistent(inner.db) && Coherent(before, r, now)
      requires rdb.keys == r.keys && rdb.buckets.Items <= r.buckets.Items
      requires forall m :: m in before.mappings && before.mappings[m].storeId == storeId
                           ==> before.mappings[m].gatewayBucket !in rdb.buckets
      requires inner.db.keys == before.keys
      requires forall s :: s in before.stores && s != storeId
                           ==> s in inner.db.stores && inner.db.stores[s] == before.stores[s]
      requires forall m :: m in inner.db.mappings
                           ==> m in before.mappings && inner.db.mappings[m] == before.mappings[m]
      requires forall m :: m in before.mappings && before.mappings[m].storeId != storeId ==> m in inner.db.mappings
      ensures Coherent(inner.db, rdb, now)
    {
      FewerEntries(before, r, rdb, now);
      StoreChangeShows(before, inner.db, rdb, now, storeId);
    }

    method UpdateStoreBackend(id: Id, tenantId: Id, configEnc: Bytes, mode: string) returns (r: Result<()>)
      requires Valid()
      modifies this`rdb, this`evictions, this`evictionLost, inner
      ensures Valid() && evictions >= old(evictions)
      ensures inner.failures >= old(inner.failures)
      ensures r.Ok? <==> inner.failures == old(inner.failures) && Owns(old(inner.db), id, tenantId)
      ensures r.Ok? ==> (evictionLost <==> old(evictionLost) || Refused(old(evictions)))
      ensures old(evictionLost) ==> evictionLost
      ensures r.Ok? ==> Owns(old(inner.db), id, tenantId) && inner.db == WithBackend(old(inner.db), id, configEnc, mode)
      ensures r.Err? ==> inner.db == old(inner.db) || evictionLost
      ensures r == Err(StoreNotFound) ==> !Owns(inner.db, id, tenantId) && inner.db == old(inner.db)
    {
      r := inner.UpdateStoreBackend(id, tenantId, configEnc, mode);
      if r.Err? {
        // Not evicted, though the row may have changed.
        evictionLost := evictionLost || inner.db != old(inner.db);
        return;
      }
      ghost var asked;
      r, asked := InvalidateBucketsForStore(id);
      evictionLost := evictionLost || r.Err?;
      if !evictionLost {
        StoreChanged(old(inner.db), old(rdb), id);
      }
    }

    method UpdateStoreAllowedOrigins(id: Id, tenantId: Id, origins: seq<string>) returns (r: Result<()>)
      requires Valid()
      modifies this`rdb, this`evictions, this`evictionLost, inner
      ensures Valid() && evictions >= old(evictions)
      ensures inner.failures >= old(inner.failures)
      ensures r.Ok? <==> inner.failures == old(inner.failures) && Owns(old(inner.db), id, tenantId)
      ensures r.Ok? ==> (evictionLost <==> old(evictionLost) || Refused(old(evictions)))
      ensures old(evictionLost) ==> evictionLost
      ensures r.Ok? ==> Owns(old(inner.db), id, tenantId) && inner.db == WithOrigins(old(inner.db), id, origins)
      ensures r.Err? ==> inner.db == old(inner.db) || evictionLost
      ensures r == Err(StoreNotFound) ==> !Owns(inner.db, id, tenantId) && inner.db == old(inner.db)
    {
      r := inner.UpdateStoreAllowedOrigins(id, tenantId, origins);
      if r.Err? {
        // Not evicted, though the row may have changed.
        evictionLost := evictionLost || inner.db != old(inner.db);
        return;
      }
      ghost var asked;
      r, asked := InvalidateBucketsForStore(id);
      evictionLost := evictionLost || r.Err?;
      if !evictionLost {
        StoreChanged(old(inner.db), old(rdb), id);
      }
    }

    /** Evicts first, then deletes the store and with it its mappings. */
    method DeleteStore(id: Id, tenantId: Id) returns (r: Result<()>)
      requires Valid()
      modifies this`rdb, this`evictions, this`evictionLost, inner
      ensures Valid() && evictions >= old(evictions)
      ensures inner.failures >= old(inner.failures)
      ensures r.Ok? <==> inner.failures == old(inner.failures) && Owns(old(inner.db), id, tenantId)
      ensures evictionLost <==> old(evictionLost) || Refused(old(evictions))
      ensures r.Ok? ==> Owns(old(inner.db), id, tenantId) && inner.db == WithoutStore(old(inner.db), id)
      ensures r.Err? ==> inner.db in {old(inner.db), WithoutStore(old(inner.db), id)}
      ensures r == Err(StoreNotFound) ==> !Owns(inner.db, id, tenantId)
    {
      ghost var asked;
      r, asked := InvalidateBucketsForStore(id);
      if r.Err? {
        return;
      }
      r := inner.DeleteStore(id, tenantId);
      if !evictionLost {
        StoreChanged(old(inner.db), old(rdb), id);
      }
    }

    method CreateStore(id: Id, store: Store) returns (r: Result<()>)
      requires Valid()
      modifies inner
      ensures Valid()
      ensures inner.failures >= old(inner.failures)
      ensures r.Ok? <==> inner.failures == old(inner.failures) && id !in old(inner.db).stores
                         && forall s :: s in old(inner.db).stores
                                        ==> !(old(inner.db).stores[s].tenantId == store.tenantId
                                              && old(inner.db).stores[s].name == store.name)
      ensures r.Ok? ==> id !in old(inner.db).stores
                        && inner.db == old(inner.db).(stores := old(inner.db).stores[id := store])
      ensures r.Err? ==> inner.db == old(inner.db)
                         || (r == Err(DbError) && id !in old(inner.db).stores
                             && inner.db == old(inner.db).(stores := old(inner.db).stores[id := store]))
    {
      r := inner.CreateStore(id, store);
      if !evictionLost && inner.db != old(inner.db) {
        StoreChanged(old(inner.db), rdb, id);
      }
    }

    /** No entry is evicted: only a "not found" entry can be there. */
    method CreateBucketMapping(id: Id, m: Mapping) returns (r: Result<Mapping>)
      requires Valid()
      modifies inner
      ensures Valid()
      ensures inner.failures >= old(inner.failures)
      ensures r.Ok? <==> inner.failures == old(inner.failures)
                         && id !in old(inner.db).mappings && m.storeId in old(inner.db).stores
                         && forall x :: x in old(inner.db).mappings
                                        ==> old(inner.db).mappings[x].gatewayBucket != m.gatewayBucket
      ensures r.Ok? ==> id !in old(inner.db).mappings && inner.db == WithMapping(old(inner.db), id, m)
      ensures r.Err? ==> inner.db == old(inner.db)
                         || (r == Err(DbError) && id !in old(inner.db).mappings
                             && inner.db == WithMapping(old(inner.db), id, m))
    {
      r := inner.CreateBucketMapping(id, m);
      if !evictionLost && inner.db != old(inner.db) {
        assert BucketCoherent(old(inner.db), rdb, now, m.gatewayBucket);
        assert !exists x :: IsMapping(old(inner.db), x, m.gatewayBucket);
        MappingChangeShows(old(inner.db), inner.db, rdb, now, m.gatewayBucket);
      }
    }

    method DeleteBucketMapping(id: Id, storeId: Id) returns (r: Result<()>)
      requires Valid()
      modifies this`rdb, this`evictions, this`evictionLost, inner
      ensures Valid() && evictions >= old(evictions)
      ensures inner.failures >= old(inner.failures)
      ensures r.Ok? <==> inner.failures == old(inner.failures)
                         && id in old(inner.db).mappings && old(inner.db).mappings[id].storeId == storeId
      ensures r.Ok? ==> (evictionLost <==> old(evictionLost) || Refused(old(evictions)))
      ensures r.Err? ==> (evictionLost <==> old(evictionLost) || inner.db != old(inner.db))
      ensures r.Ok? ==> id in old(inner.db).mappings && inner.db == WithoutMapping(old(inner.db), id)
    {
      hide Coherent, CachedManager.Refused, Consistent;
      var listed := inner.ListBucketMappings(storeId);
      if listed.Err? {
        return Err(DbError);
      }
      var mappings := listed.value;
      r := inner.DeleteBucketMapping(id, storeId);
      if r.Err? {
        evictionLost := evictionLost || inner.db != old(inner.db);
        return;
      }
      ghost var gone := old(inner.db).mappings[id];
      assert (id, gone) in mappings;
      for i := 0 to |mappings|
        invariant rdb == old(rdb) && evictionLost == old(evictionLost) && evictions == old(evictions)
        invariant forall j :: 0 <= j < i ==> mappings[j].0 != id
      {
        if mappings[i].0 == id {
          var _ := InvalidateBucket(mappings[i].1.gatewayBucket);
          assert mappings[i].1 == gone;
          if !evictionLost {
            MappingEvicted(old(inner.db), old(rdb), rdb, now, id);
          }
          return;
        }
      }
      assert false;
    }

    /** No entry is evicted: only a "not found" entry can be there. */
    method CreateAccessKey(row: AccessKeyRow) returns (r: Result<AccessKeyRow>)
      requires Valid() && !row.revoked
      modifies inner
      ensures Valid()
      ensures inner.failures >= old(inner.failures)
      ensures r.Ok? <==> inner.failures == old(inner.failures) && row.id !in old(inner.db).keys
                         && forall k :: k in old(inner.db).keys ==> old(inner.db).keys[k].accessKey != row.accessKey
      ensures r.Ok? ==> r == Ok(row) && inner.db == WithKey(old(inner.db), row) && row.id !in old(inner.db).keys
      ensures r.Err? ==> inner.db == old(inner.db)
                         || (r == Err(DbError) && row.id !in old(inner.db).keys
                             && inner.db == WithKey(old(inner.db), row))
    {
      r := inner.CreateAccessKey(row);
      if !evictionLost && inner.db != old(inner.db) {
        assert KeyCoherent(old(inner.db), rdb, now, row.accessKey);
        assert !exists x :: ActiveKey(old(inner.db), x, row.accessKey);
        KeyChangeShows(old(inner.db), inner.db, rdb, now, row.accessKey);
      }
    }

    method UpdateAccessKeyReadonly(id: Id, tenantId: Id, readonly: bool) returns (r: Result<AccessKeyRow>)
      requires Valid()
      modifies this`rdb, this`evictions, this`evictionLost, inner
      ensures Valid() && evictions >= old(evictions)
      ensures inner.failures >= old(inner.failures)
      ensures r.Ok? <==> inner.failures == old(inner.failures) && OwnsKey(old(inner.db), id, tenantId)
      ensures r.Ok? ==> (evictionLost <==> old(evictionLost) || Refused(old(evictions)))
      ensures r.Err? ==> (evictionLost <==> old(evictionLost) || inner.db != old(inner.db))
      ensures r.Ok? ==> OwnsKey(old(inner.db), id, tenantId) && inner.db == WithReadonly(old(inner.db), id, readonly)
                        && r.value == inner.db.keys[id]
    {
      hide Coherent, CachedManager.Refused, FindKey, FindBucket, ProjectKey, ProjectBucket;
      r := inner.UpdateAccessKeyReadonly(id, tenantId, readonly);
      if r.Err? {
        evictionLost := evictionLost || inner.db != old(inner.db);
        return;
      }
      var _ := InvalidateAccessKey(r.value.accessKey);
      if !evictionLost {
        FewerEntries(old(inner.db), old(rdb), rdb, now);
        KeyChangeShows(old(inner.db), inner.db, rdb, now, r.value.accessKey);
      }
    }

    method RevokeAccessKey(id: Id, tenantId: Id) returns (r: Result<()>)
      requires Valid()
      modifies this`rdb, this`evictions, this`evictionLost, inner
      ensures Valid() && evictions >= old(evictions)
      ensures inner.failures >= old(inner.failures)
      ensures r.Ok? <==> inner.failures == old(inner.failures) && OwnsKey(old(inner.db), id, tenantId)
      ensures r.Ok? ==> (evictionLost <==> old(evictionLost) || Refused(old(evictions)))
      ensures r.Err? ==> (evictionLost <==> old(evictionLost) || inner.db != old(inner.db))
      ensures r.Ok? ==> OwnsKey(old(inner.db), id, tenantId) && inner.db == WithRevoked(old(inner.db), id)
    {
      hide Coherent, CachedManager.Refused, FindKey, FindBucket, ProjectKey, ProjectBucket;
      var listed := inner.ListAccessKeys(tenantId);
      if listed.Err? {
        return Err(DbError);
      }
      var keys := listed.value;
      r := inner.RevokeAccessKey(id, tenantId);
      if r.Err? {
        evictionLost := evictionLost || inner.db != old(inner.db);
        return;
      }
      ghost var row := old(inner.db).keys[id];
      assert row in keys;
      for i := 0 to |keys|
        invariant rdb == old(rdb) && evictionLost == old(evictionLost) && evictions == old(evictions)
        invariant forall j :: 0 <= j < i ==> keys[j].id != id
      {
        if keys[i].id == id {
          var _ := InvalidateAccessKey(keys[i].accessKey);
          assert keys[i] == row;
          if !evictionLost {
            KeyEvicted(old(inner.db), inner.db, old(rdb), rdb, now, id);
          }
          return;
        }
      }
      assert false;
    }
  }

  lemma MappingEvicted(before: Db, r: Redis, r': Redis, now: nat, id: Id)
    requires Consistent(before) && Coherent(before, r, now) && id in before.mappings
    requires r' == r.(buckets := r.buckets - {before.mappings[id].gatewayBucket})
    ensures Consistent(WithoutMapping(before, id)) && Coherent(WithoutMapping(before, id), r', now)
  {
    hide Coherent, FindKey, FindBucket, ProjectKey, ProjectBucket;
    FewerEntries(before, r, r', now);
    MappingChangeShows(before, WithoutMapping(before, id), r', now, before.mappings[id].gatewayBucket);
  }

  lemma KeyEvicted(before: Db, after: Db, r: Redis, r': Redis, now: nat, id: Id)
    requires Consistent(before) && Consistent(after) && Coherent(before, r, now) && id in before.keys
    requires after.stores == before.stores && after.mappings == before.mappings
    requires after.keys.Keys == before.keys.Keys && after.keys - {id} == before.keys - {id}
    requires after.keys[id].accessKey == before.keys[id].accessKey
    requires r' == r.(keys := r.keys - {before.keys[id].accessKey})
    ensures Coherent(after, r', now)
  {
    hide Coherent, FindKey, FindBucket, ProjectKey, ProjectBucket, Consistent;
    FewerEntries(before, r, r', now);
    forall i | i in before.keys && i != id ensures after.keys[i] == before.keys[i] {
      assert (after.keys - {id})[i] == (before.keys - {id})[i];
    }
    KeyChangeShows(before, after, r', now, before.keys[id].accessKey);
  }

  /** One eviction was asked for each bucket of `asked`, from the `first` on. */
  ghost predicate Evicted(r: Redis, r': Redis, asked: seq<string>, first: nat, carriedOut: nat -> bool) {
    && r'.keys == r.keys && r'.buckets.Items <= r.buckets.Items
    && (forall i :: 0 <= i < |asked| && carriedOut(first + i) ==> asked[i] !in r'.buckets)
    && (forall b :: b in r.buckets && b !in asked ==> b in r'.buckets)
  }

  lemma NothingEvicted(r: Redis, first: nat, carriedOut: nat -> bool)
    ensures Evicted(r, r, [], first, carriedOut)
  {
  }

  lemma EvictedStep(r: Redis, now: Redis, r': Redis, asked: seq<string>, first: nat, carriedOut: nat -> bool, b: string)
    requires Evicted(r, now, asked, first, carriedOut)
    requires r' == if carriedOut(first + |asked|) then now.(buckets := now.buckets - {b}) else now
    ensures Evicted(r, r', asked + [b], first, carriedOut)
  {
    var more := asked + [b];
    forall i | 0 <= i < |more| && carriedOut(first + i) ensures more[i] !in r'.buckets {
      assert more[i] == if i < |asked| then asked[i] else b;
    }
    forall x | x in r.buckets && x !in more ensures x in r'.buckets {
      assert b in more && forall y :: y in asked ==> y in more;
    }
  }

  lemma EvictedAre(r: Redis, r': Redis, asked: seq<string>, first: nat, carriedOut: nat -> bool)
    requires Evicted(r, r', asked, first, carriedOut)
    ensures r'.keys == r.keys && r'.buckets.Items <= r.buckets.Items
    ensures forall i :: 0 <= i < |asked| && carriedOut(first + i) ==> asked[i] !in r'.buckets
    ensures forall b :: b in r.buckets && b !in asked ==> b in r'.buckets
  {
  }

  lemma AskedAre(db: Db, storeId: Id, mappings: seq<(Id, Mapping)>, asked: seq<string>)
    requires forall x :: x in mappings ==> x.0 in db.mappings && db.mappings[x.0] == x.1 && x.1.storeId == storeId
    requires forall m :: m in db.mappings && db.mappings[m].storeId == storeId ==> (m, db.mappings[m]) in mappings
    requires |asked| == |mappings| && forall j :: 0 <= j < |asked| ==> asked[j] == mappings[j].1.gatewayBucket
    ensures forall m :: m in db.mappings && db.mappings[m].storeId == storeId ==> db.mappings[m].gatewayBucket in asked
    ensures forall b :: b in asked ==>
              exists m | m in db.mappings :: db.mappings[m].storeId == storeId && db.mappings[m].gatewayBucket == b
  {
    forall m | m in db.mappings && db.mappings[m].storeId == storeId ensures db.mappings[m].gatewayBucket in asked {
      var i :| 0 <= i < |mappings| && mappings[i] == (m, db.mappings[m]);
      assert asked[i] == mappings[i].1.gatewayBucket;
    }
    forall b | b in asked
      ensures exists m | m in db.mappings :: db.mappings[m].storeId == storeId && db.mappings[m].gatewayBucket == b
    {
      var j :| 0 <= j < |asked| && asked[j] == b;
      assert mappings[j] in mappings;
    }
  }

  lemma OriginsAreRow(db: Db, bucket: string)
    requires Consistent(db) && FindBucket(db, bucket).Some?
    ensures forall id :: id in db.mappings && db.mappings[id].gatewayBucket == bucket
                         ==> OriginsAnswer(db, bucket) == db.stores[db.mappings[id].storeId].allowedOrigins
    ensures exists id :: id in db.mappings && db.mappings[id].gatewayBucket == bucket
  {
    var id :| IsMapping(db, id, bucket);
    FindMappingIs(db, id);
  }

  lemma FewerEntries(db: Db, r: Redis, r': Redis, now: nat)
    requires Consistent(db) && Coherent(db, r, now)
    requires r'.keys.Items <= r.keys.Items && r'.buckets.Items <= r.buckets.Items
    ensures Coherent(db, r', now)
  {
    forall k ensures KeyCoherent(db, r', now, k) {
      assert KeyCoherent(db, r, now, k);
      if k in r'.keys { assert (k, r'.keys[k]) in r'.keys.Items; }
    }
    forall b ensures BucketCoherent(db, r', now, b) {
      assert BucketCoherent(db, r, now, b);
      if b in r'.buckets { assert (b, r'.buckets[b]) in r'.buckets.Items; }
    }
  }

  lemma CoherentBucket(db: Db, r: Redis, now: nat, bucket: string)
    requires Consistent(db) && Coherent(db, r, now)
    ensures BucketCoherent(db, r, now, bucket)
  {
  }

  lemma HitIsNamed(bucket: string, cached: CachedBucket)
    ensures BucketFromCache(bucket, cached).tenantId == cached.tenantId
    ensures BucketFromCache(bucket, cached).gatewayBucket == bucket
  {
  }

  lemma AnswerIsFound(db: Db, tenantId: Id, bucket: string)
    requires Consistent(db)
    ensures ResolveAnswer(db, tenantId, bucket).Ok?
            ==> FindBucket(db, bucket) == Some(ResolveAnswer(db, tenantId, bucket).value)
  {
  }

  /** What a coherent entry answers, field by field: the mapping's row and its
      store's, without the prefix. */
  lemma HitIsRow(db: Db, r: Redis, now: nat, tenantId: Id, bucket: string)
    requires Consistent(db) && Coherent(db, r, now) && BucketHit(r, now, tenantId, bucket).Some?
    ensures BucketHit(r, now, tenantId, bucket) == Some(Err(Unauthorized))
            ==> ResolveAnswer(db, tenantId, bucket) == Err(Unauthorized)
    ensures BucketHit(r, now, tenantId, bucket).value.Ok? ==>
              var rb := BucketHit(r, now, tenantId, bucket).value.value;
              && ResolveAnswer(db, tenantId, bucket).Ok?
              && rb == ResolveAnswer(db, tenantId, bucket).value.(backendPrefix := "")
              && exists id | id in db.mappings :: var m := db.mappings[id];
                   && m.gatewayBucket == bucket == rb.gatewayBucket
                   && m.storeId == rb.storeId && rb.storeId in db.stores
                   && rb.backendBucket == ParseBackendBucket(m.backendBucket).0 && rb.backendPrefix == ""
                   && var store := db.stores[rb.storeId];
                      && store.tenantId == rb.tenantId == tenantId
                      && store.backendType == rb.backendType
                      && store.configEnc == rb.configEnc
                      && store.presignedMode == rb.presignedMode
                      && store.allowedOrigins == rb.allowedOrigins
  {
    hide Coherent, ParseBackendBucket, BucketFromCache, ProjectBucket;
    CoherentBucket(db, r, now, bucket);
    if r.buckets[bucket].value.Some? {
      HitIsStripped(db, bucket, r.buckets[bucket].value.value);
      ProjectedTenant(FindBucket(db, bucket).value);
      if ResolveAnswer(db, tenantId, bucket).Ok? { AnswerIsRow(db, tenantId, bucket); }
    }
  }

  lemma HitIsStripped(db: Db, bucket: string, cached: CachedBucket)
    requires Consistent(db) && FindBucket(db, bucket).Some?
    requires cached == ProjectBucket(FindBucket(db, bucket).value)
    ensures BucketFromCache(bucket, cached) == FindBucket(db, bucket).value.(backendPrefix := "")
  {
    var id :| IsMapping(db, id, bucket);
    FindMappingIs(db, id);
    BucketHitIsExactIff(db.stores[db.mappings[id].storeId], db.mappings[id]);
  }
}
