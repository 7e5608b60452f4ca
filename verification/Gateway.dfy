/** The handlers that tie database, cache and client pool together
    (internal/api/admin/stores.go, internal/api/admin/browse.go,
    internal/api/s3/handler.go), one request after the other. */
module Gateway {
  import opened Strings
  import opened Strconv
  import opened Models
  import opened Crypto
  import opened Database
  import opened CachedRegistry
  import opened ClientPool

  /** Every pooled client of a store there is is the one its current row calls for. */
  ghost predicate PoolCurrent(db: Db, backends: map<Id, Client>, aead: Aead, key: Bytes) {
    forall s :: s in backends && s in db.stores ==>
      ClientFor(aead, key, db.stores[s].backendType, db.stores[s].configEnc) == Some(backends[s])
  }

  predicate ValidBackendType(t: string) {
    t in {"s3", "gcs", "r2", "azure", "local"}
  }

  predicate ValidPresignedMode(m: string) {
    m in {"proxy", "redirect"}
  }

  predicate ValidConfig(config: Bytes) {
    config != [] && config != ['n', 'u', 'l', 'l']
  }

  function OrElse(given: string, otherwise: string): string {
    if given == "" then otherwise else given
  }

  class Handler {
    const mgr: CachedManager
    const pool: Pool

    ghost predicate Valid()
      reads this, mgr, mgr.inner, pool
    {
      && mgr.Valid()
      && (!mgr.evictionLost ==> PoolCurrent(mgr.inner.db, pool.backends, pool.aead, pool.cryptoKey))
    }

    constructor (mgr: CachedManager, pool: Pool)
      requires mgr.Valid() && pool.backends == map[]
      ensures this.mgr == mgr && this.pool == pool && Valid()
    {
      this.mgr := mgr;
      this.pool := pool;
    }

    /** An S3 request for a bucket: the client served is the one for the config
        the store has now. */
    method ResolveBucket(tenantId: Id, bucket: string) returns (r: Option<(ResolvedBucket, Client)>)
      requires Valid()
      modifies mgr`rdb, mgr`redisFailures, mgr.inner`failures, pool
      ensures Valid()
      ensures r.Some? ==> r.value.0.tenantId == tenantId
      // Field by field, the answer is the row of the mapping and that of its store.
      ensures r.Some? && !mgr.evictionLost ==>
                exists id | id in mgr.inner.db.mappings :: var m, rb := mgr.inner.db.mappings[id], r.value.0;
                  && m.gatewayBucket == bucket == rb.gatewayBucket
                  && m.storeId == rb.storeId && rb.storeId in mgr.inner.db.stores
                  && rb.backendBucket == ParseBackendBucket(m.backendBucket).0
                  && rb.backendPrefix in {"", ParseBackendBucket(m.backendBucket).1}
                  && var store := mgr.inner.db.stores[rb.storeId];
                     && store.tenantId == rb.tenantId
                     && store.backendType == rb.backendType
                     && store.configEnc == rb.configEnc
                     && store.presignedMode == rb.presignedMode
                     && store.allowedOrigins == rb.allowedOrigins
      // The client has the config that the store's bytes open to.
      ensures r.Some? && !mgr.evictionLost ==>
                var store, c := mgr.inner.db.stores[r.value.0.storeId], r.value.1;
                && c.backendType == store.backendType && |store.configEnc| >= 28
                && pool.aead.open(pool.cryptoKey, store.configEnc[..12], store.configEnc[12..]) == Some(c.config)
      // It is refused only by a failure, by an entry that says so, to another
      // tenant, or when the store's bytes do not open.
      ensures mgr.inner.failures >= old(mgr.inner.failures) && pool.refusals >= old(pool.refusals)
      ensures r.None? ==>
                || mgr.evictionLost
                || mgr.inner.failures > old(mgr.inner.failures) || pool.refusals > old(pool.refusals)
                || (bucket in old(mgr.rdb).buckets && old(mgr.rdb).buckets[bucket].value.None?)
                || forall id | id in mgr.inner.db.mappings && mgr.inner.db.mappings[id].gatewayBucket == bucket ::
                     var store := mgr.inner.db.stores[mgr.inner.db.mappings[id].storeId];
                     || store.tenantId != tenantId || |store.configEnc| < 28
                     || pool.aead.open(pool.cryptoKey, store.configEnc[..12], store.configEnc[12..]).None?
    {
      hide PoolCurrent, ResolveAnswer, ParseBackendBucket;
      var rb, hit := mgr.ResolveBucket(tenantId, bucket);
      if rb.Err? {
        RefusalIsRow(mgr.inner.db, tenantId, bucket);
        return None;
      }
      var b := GetClient(rb.value);
      r := if b.Some? then Some((rb.value, b.value)) else None;
    }

    /** The pool's client for a resolved bucket: when that has what the row says,
        so has the client. */
    method GetClient(rb: ResolvedBucket) returns (b: Option<Client>)
      requires !mgr.evictionLost ==> && PoolCurrent(mgr.inner.db, pool.backends, pool.aead, pool.cryptoKey)
                                     && rb.storeId in mgr.inner.db.stores
                                     && rb.backendType == mgr.inner.db.stores[rb.storeId].backendType
                                     && rb.configEnc == mgr.inner.db.stores[rb.storeId].configEnc
      modifies pool
      ensures !mgr.evictionLost ==> PoolCurrent(mgr.inner.db, pool.backends, pool.aead, pool.cryptoKey)
      ensures b.Some? && !mgr.evictionLost ==>
                && b.value.backendType == rb.backendType && |rb.configEnc| >= 28
                && pool.aead.open(pool.cryptoKey, rb.configEnc[..12], rb.configEnc[12..]) == Some(b.value.config)
      ensures pool.refusals >= old(pool.refusals)
      ensures b.None? ==> pool.refusals > old(pool.refusals) || |rb.configEnc| < 28
                          || pool.aead.open(pool.cryptoKey, rb.configEnc[..12], rb.configEnc[12..]).None?
    {
      if !mgr.evictionLost && rb.storeId in pool.backends {
        ClientForIff(pool.aead, pool.cryptoKey, rb.backendType, rb.configEnc, pool.backends[rb.storeId]);
      }
      b := pool.Get(rb);
    }

    method VerifyStoreOwnership(tenantId: Id, storeId: Id) returns (r: Option<Store>)
      modifies mgr.inner`failures
      ensures mgr.inner.failures >= old(mgr.inner.failures)
      ensures r.Some? <==> mgr.inner.failures == old(mgr.inner.failures) && Owns(mgr.inner.db, storeId, tenantId)
      ensures r.Some? ==> Owns(mgr.inner.db, storeId, tenantId) && r.value == mgr.inner.db.stores[storeId]
    {
      var store := mgr.inner.GetStore(storeId);
      r := if store.Ok? && store.value.tenantId == tenantId then Some(store.value) else None;
    }

    /** The admin browse API, straight from the database. */
    method ResolveBrowseContext(tenantId: Id, storeId: Id, mappingId: Id)
      returns (r: Option<(ResolvedBucket, Client)>)
      requires Valid()
      modifies pool, mgr.inner`failures
      ensures Valid()
      // Field by field, as when an S3 request resolves the bucket, but straight from the rows.
      ensures r.Some? ==>
                && mappingId in mgr.inner.db.mappings && storeId in mgr.inner.db.stores
                && var m, store, rb := mgr.inner.db.mappings[mappingId], mgr.inner.db.stores[storeId], r.value.0;
                   && m.gatewayBucket == rb.gatewayBucket
                   && m.storeId == rb.storeId == storeId
                   && (rb.backendBucket, rb.backendPrefix) == ParseBackendBucket(m.backendBucket)
                   && store.tenantId == rb.tenantId == tenantId
                   && store.backendType == rb.backendType
                   && store.configEnc == rb.configEnc
                   && store.presignedMode == rb.presignedMode
                   && store.allowedOrigins == rb.allowedOrigins
      ensures r.Some? && !mgr.evictionLost ==>
                var configEnc := mgr.inner.db.stores[storeId].configEnc;
                && mgr.inner.db.stores[storeId].backendType == r.value.1.backendType && |configEnc| >= 28
                && pool.aead.open(pool.cryptoKey, configEnc[..12], configEnc[12..]) == Some(r.value.1.config)
      // It is refused only by a failure, for a store of another tenant or a
      // mapping of another store, or when the store's bytes do not open.
      ensures mgr.inner.failures >= old(mgr.inner.failures) && pool.refusals >= old(pool.refusals)
      ensures r.None? ==>
                || mgr.inner.failures > old(mgr.inner.failures) || pool.refusals > old(pool.refusals)
                || storeId !in mgr.inner.db.stores || mgr.inner.db.stores[storeId].tenantId != tenantId
                || mappingId !in mgr.inner.db.mappings || mgr.inner.db.mappings[mappingId].storeId != storeId
                || var configEnc := mgr.inner.db.stores[storeId].configEnc;
                   || |configEnc| < 28
                   || pool.aead.open(pool.cryptoKey, configEnc[..12], configEnc[12..]).None?
      ensures r.Some? ==>
                var db, rb := mgr.inner.db, r.value.0;
                && Owns(db, storeId, tenantId) && mappingId in db.mappings
                && rb == Joined(db.stores[storeId], db.mappings[mappingId]) && rb.storeId == storeId
                && (!mgr.evictionLost ==> Some(r.value.1) == ClientFor(pool.aead, pool.cryptoKey,
                                                                        rb.backendType, rb.configEnc))
    {
      var store := VerifyStoreOwnership(tenantId, storeId);
      if store.None? {
        return None;
      }
      var bm := mgr.inner.GetBucketMapping(mappingId, storeId);
      if bm.Err? {
        return None;
      }
      var (bucket, prefix) := ParseBackendBucket(bm.value.backendBucket);
      var rb := ResolvedBucket(storeId, store.value.tenantId, store.value.backendType, store.value.configEnc,
                               bm.value.gatewayBucket, bucket, prefix, store.value.presignedMode,
                               store.value.allowedOrigins);
      if !mgr.evictionLost && storeId in pool.backends {
        ClientForIff(pool.aead, pool.cryptoKey, rb.backendType, rb.configEnc, pool.backends[storeId]);
      }
      var b := pool.Get(rb);
      r := if b.Some? then Some((rb, b.value)) else None;
    }

    /** A new store starts without origins, and in proxy mode unless told otherwise. */
    method CreateStore(id: Id, tenantId: Id, name: string, backendType: string, config: Bytes, mode: string,
                       nonce: Bytes) returns (ok: bool)
      requires Valid() && id !in pool.backends
      modifies mgr.inner
      ensures Valid()
      ensures mgr.inner.failures >= old(mgr.inner.failures)
      ensures ok <==> && mgr.inner.failures == old(mgr.inner.failures)
                      && name != "" && backendType in {"s3", "gcs", "r2", "azure", "local"}
                      && config != "" && config != "null" && mode in {"", "proxy", "redirect"}
                      && id !in old(mgr.inner.db).stores
                      && forall s :: s in old(mgr.inner.db).stores
                                     ==> !(old(mgr.inner.db).stores[s].tenantId == tenantId
                                           && old(mgr.inner.db).stores[s].name == name)
      ensures ok ==> id in mgr.inner.db.stores
                     && var store := mgr.inner.db.stores[id];
                        && store.tenantId == tenantId && store.name == name && store.backendType == backendType
                        && store.configEnc == nonce + pool.aead.seal(pool.cryptoKey, nonce, config)
                        && store.presignedMode == (if mode == "" then "proxy" else mode)
                        && store.allowedOrigins == []
      ensures ok ==> name != "" && ValidBackendType(backendType) && ValidConfig(config)
                     && ValidPresignedMode(OrElse(mode, "proxy")) && id !in old(mgr.inner.db).stores
                     && mgr.inner.db == old(mgr.inner.db).(stores := old(mgr.inner.db).stores[
                          id := Store(tenantId, name, backendType,
                                      Encrypt(pool.aead, pool.cryptoKey, nonce, config), OrElse(mode, "proxy"), [])])
      // A database error may hide that the row was added.
      ensures !ok ==> mgr.inner.db.(stores := mgr.inner.db.stores - {id})
                      == old(mgr.inner.db).(stores := old(mgr.inner.db).stores - {id})
    {
      if name == "" || !ValidBackendType(backendType) || !ValidConfig(config) {
        return false;
      }
      var presignedMode := OrElse(mode, "proxy");
      if !ValidPresignedMode(presignedMode) {
        return false;
      }
      var configEnc := Encrypt(pool.aead, pool.cryptoKey, nonce, config);
      var r := mgr.CreateStore(id, Store(tenantId, name, backendType, configEnc, presignedMode, []));
      ok := r.Ok?;
    }

    /** Replaces a store's config: database, then cache, then pool. Whoever asks
        next is served with a client for the new config. */
    method UpdateStoreBackend(tenantId: Id, storeId: Id, config: Bytes, mode: string, nonce: Bytes)
      returns (ok: bool)
      requires Valid() && pool.aead.Correct() && |nonce| == NONCE_SIZE
      modifies mgr`rdb, mgr`evictions, mgr`evictionLost, mgr.inner, pool
      ensures Valid() && (old(mgr.evictionLost) ==> mgr.evictionLost)
      ensures mgr.inner.failures >= old(mgr.inner.failures)
      ensures ok <==> && mgr.inner.failures == old(mgr.inner.failures)
                      && storeId in old(mgr.inner.db).stores && old(mgr.inner.db).stores[storeId].tenantId == tenantId
                      && config != "" && config != "null"
                      && (if mode == "" then old(mgr.inner.db).stores[storeId].presignedMode else mode)
                         in {"proxy", "redirect"}
      ensures ok ==> storeId in mgr.inner.db.stores
                     && var was, store := old(mgr.inner.db).stores[storeId], mgr.inner.db.stores[storeId];
                        && store.tenantId == was.tenantId && store.name == was.name
                        && store.backendType == was.backendType && store.allowedOrigins == was.allowedOrigins
                        && store.configEnc == nonce + pool.aead.seal(pool.cryptoKey, nonce, config)
                        && store.presignedMode == (if mode == "" then was.presignedMode else mode)
      ensures ok && mgr.evictionLost ==> old(mgr.evictionLost) || mgr.Refused(old(mgr.evictions))
      ensures ok ==> Owns(mgr.inner.db, storeId, tenantId) && storeId !in pool.backends
                     && Decrypt(pool.aead, pool.cryptoKey, mgr.inner.db.stores[storeId].configEnc) == Some(config)
      ensures ok ==> ValidConfig(config) && Owns(old(mgr.inner.db), storeId, tenantId)
                     && var newMode := OrElse(mode, old(mgr.inner.db).stores[storeId].presignedMode);
                        ValidPresignedMode(newMode)
                        && mgr.inner.db == WithBackend(old(mgr.inner.db), storeId,
                                                       Encrypt(pool.aead, pool.cryptoKey, nonce, config), newMode)
      ensures !ok && !mgr.evictionLost ==> mgr.inner.db == old(mgr.inner.db)
    {
      var store := VerifyStoreOwnership(tenantId, storeId);
      if store.None? {
        return false;
      }
      if !ValidConfig(config) {
        return false;
      }
      var presignedMode := OrElse(mode, store.value.presignedMode);
      if !ValidPresignedMode(presignedMode) {
        return false;
      }
      var configEnc := Encrypt(pool.aead, pool.cryptoKey, nonce, config);
      DecryptUndoesEncrypt(pool.aead, pool.cryptoKey, nonce, config);
      var r := mgr.UpdateStoreBackend(storeId, tenantId, configEnc, presignedMode);
      if r.Err? {
        return false;
      }
      pool.Invalidate(storeId);
      ok := true;
    }

    method UpdateStoreCORS(tenantId: Id, storeId: Id, origins: seq<string>) returns (ok: bool)
      requires Valid()
      modifies mgr`rdb, mgr`evictions, mgr`evictionLost, mgr.inner
      ensures Valid() && (old(mgr.evictionLost) ==> mgr.evictionLost)
      ensures mgr.inner.failures >= old(mgr.inner.failures)
      ensures ok <==> && mgr.inner.failures == old(mgr.inner.failures)
                      && storeId in old(mgr.inner.db).stores && old(mgr.inner.db).stores[storeId].tenantId == tenantId
      ensures ok && mgr.evictionLost ==> old(mgr.evictionLost) || mgr.Refused(old(mgr.evictions))
      ensures ok ==> Owns(old(mgr.inner.db), storeId, tenantId)
                     && mgr.inner.db == WithOrigins(old(mgr.inner.db), storeId, origins)
      ensures !ok && !mgr.evictionLost ==> mgr.inner.db == old(mgr.inner.db)
    {
      var store := VerifyStoreOwnership(tenantId, storeId);
      if store.None? {
        return false;
      }
      var r := mgr.UpdateStoreAllowedOrigins(storeId, tenantId, origins);
      ok := r.Ok?;
    }

    method CreateBucketMapping(tenantId: Id, storeId: Id, id: Id, gatewayBucket: string, backendBucket: string)
      returns (ok: bool)
      requires Valid()
      modifies mgr.inner
      ensures Valid()
      ensures mgr.inner.failures >= old(mgr.inner.failures)
      ensures ok <==> && mgr.inner.failures == old(mgr.inner.failures)
                      && storeId in old(mgr.inner.db).stores && old(mgr.inner.db).stores[storeId].tenantId == tenantId
                      && gatewayBucket != "" && backendBucket != "" && id !in old(mgr.inner.db).mappings
                      && forall x :: x in old(mgr.inner.db).mappings
                                     ==> old(mgr.inner.db).mappings[x].gatewayBucket != gatewayBucket
      ensures ok ==> Owns(mgr.inner.db, storeId, tenantId) && gatewayBucket != "" && backendBucket != ""
                     && mgr.inner.db
                        == WithMapping(old(mgr.inner.db), id, Mapping(storeId, gatewayBucket, backendBucket))
      ensures !ok ==> mgr.inner.db in {old(mgr.inner.db),
                        WithMapping(old(mgr.inner.db), id, Mapping(storeId, gatewayBucket, backendBucket))}
    {
      var store := VerifyStoreOwnership(tenantId, storeId);
      if store.None? || gatewayBucket == "" || backendBucket == "" {
        return false;
      }
      var r := mgr.CreateBucketMapping(id, Mapping(storeId, gatewayBucket, backendBucket));
      ok := r.Ok?;
    }

    method DeleteBucketMapping(tenantId: Id, storeId: Id, id: Id) returns (ok: bool)
      requires Valid()
      modifies mgr`rdb, mgr`evictions, mgr`evictionLost, mgr.inner
      ensures Valid() && (old(mgr.evictionLost) ==> mgr.evictionLost)
      ensures mgr.inner.failures >= old(mgr.inner.failures)
      ensures ok <==> && mgr.inner.failures == old(mgr.inner.failures)
                      && storeId in old(mgr.inner.db).stores && old(mgr.inner.db).stores[storeId].tenantId == tenantId
                      && id in old(mgr.inner.db).mappings && old(mgr.inner.db).mappings[id].storeId == storeId
      ensures ok && mgr.evictionLost ==> old(mgr.evictionLost) || mgr.Refused(old(mgr.evictions))
      ensures ok ==> mgr.inner.db == WithoutMapping(old(mgr.inner.db), id)
      ensures !ok && !mgr.evictionLost ==> mgr.inner.db == old(mgr.inner.db)
    {
      var store := VerifyStoreOwnership(tenantId, storeId);
      if store.None? {
        return false;
      }
      var r := mgr.DeleteBucketMapping(id, storeId);
      ok := r.Ok?;
    }

    method DeleteStore(tenantId: Id, storeId: Id) returns (ok: bool)
      requires Valid()
      modifies mgr`rdb, mgr`evictions, mgr`evictionLost, mgr.inner, pool
      ensures Valid() && (old(mgr.evictionLost) ==> mgr.evictionLost)
      ensures mgr.inner.failures >= old(mgr.inner.failures)
      ensures ok <==> && mgr.inner.failures == old(mgr.inner.failures)
                      && storeId in old(mgr.inner.db).stores && old(mgr.inner.db).stores[storeId].tenantId == tenantId
      ensures ok && mgr.evictionLost ==> old(mgr.evictionLost) || mgr.Refused(old(mgr.evictions))
      ensures ok ==> mgr.inner.db == WithoutStore(old(mgr.inner.db), storeId) && storeId !in pool.backends
      ensures !ok ==> mgr.inner.db in {old(mgr.inner.db), WithoutStore(old(mgr.inner.db), storeId)}
                      && pool.backends == old(pool.backends)
    {
      var store := VerifyStoreOwnership(tenantId, storeId);
      if store.None? {
        return false;
      }
      var r := mgr.DeleteStore(storeId, tenantId);
      if r.Err? {
        return false;
      }
      pool.Invalidate(storeId);
      ok := true;
    }
  }

  /** A refused bucket has no row, or its store is another tenant's. */
  lemma RefusalIsRow(db: Db, tenantId: Id, bucket: string)
    requires Consistent(db)
    ensures ResolveAnswer(db, tenantId, bucket).Err? ==>
              forall id :: id in db.mappings && db.mappings[id].gatewayBucket == bucket
                           ==> db.stores[db.mappings[id].storeId].tenantId != tenantId
  {
    forall id | id in db.mappings && db.mappings[id].gatewayBucket == bucket
      ensures FindMapping(db, bucket) == Some(db.mappings[id])
    {
      FindMappingIs(db, id);
    }
  }
}
