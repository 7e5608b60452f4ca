/** The PostgreSQL tables and the manager that works on them directly
    (internal/registry/postgres.go): the reference the cache speeds up. */
module Database {
  import opened Strings
  import opened Strconv
  import opened Models

  datatype Error = AccessKeyNotFound | StoreNotFound | BucketNotFound | Unauthorized | DbError

  datatype Result<+T> = Ok(value: T) | Err(error: Error)

  /** Creation times are in nanoseconds. */
  datatype AccessKeyRow = AccessKeyRow(
    id: Id,
    tenantId: Id,
    accessKey: string,
    secretEnc: Bytes,
    readonly: bool,
    createdAt: int,
    revoked: bool)

  datatype Store = Store(
    tenantId: Id,
    name: string,
    backendType: string,
    configEnc: Bytes,
    presignedMode: string,
    allowedOrigins: seq<string>)

  datatype Mapping = Mapping(storeId: Id, gatewayBucket: string, backendBucket: string)

  datatype Db = Db(keys: map<Id, AccessKeyRow>, stores: map<Id, Store>, mappings: map<Id, Mapping>)

  /** The constraints of the schema: primary keys, foreign keys, uniqueness. */
  ghost predicate Consistent(db: Db) {
    && (forall id :: id in db.keys ==> db.keys[id].id == id)
    && (forall i, j | i in db.keys && j in db.keys
          :: db.keys[i].accessKey == db.keys[j].accessKey ==> i == j)
    && (forall i, j | i in db.mappings && j in db.mappings
          :: db.mappings[i].gatewayBucket == db.mappings[j].gatewayBucket ==> i == j)
    && (forall m :: m in db.mappings ==> db.mappings[m].storeId in db.stores)
  }

  // ---------------------------------------------------------------------------
  // Queries
  // ---------------------------------------------------------------------------

  ghost predicate ActiveKey(db: Db, id: Id, accessKey: string) {
    id in db.keys && db.keys[id].accessKey == accessKey && !db.keys[id].revoked
  }

  ghost function FindKey(db: Db, accessKey: string): Option<AccessKeyRow> {
    if exists id :: ActiveKey(db, id, accessKey) then
      var id :| ActiveKey(db, id, accessKey);
      Some(db.keys[id])
    else
      None
  }

  ghost predicate IsMapping(db: Db, id: Id, gatewayBucket: string) {
    id in db.mappings && db.mappings[id].gatewayBucket == gatewayBucket
  }

  ghost function FindMapping(db: Db, gatewayBucket: string): Option<Mapping> {
    if exists id :: IsMapping(db, id, gatewayBucket) then
      var id :| IsMapping(db, id, gatewayBucket);
      Some(db.mappings[id])
    else
      None
  }

  /** The join of a mapping with its store. */
  function Joined(store: Store, m: Mapping): ResolvedBucket {
    var (bucket, prefix) := ParseBackendBucket(m.backendBucket);
    ResolvedBucket(m.storeId, store.tenantId, store.backendType, store.configEnc, m.gatewayBucket,
                   bucket, prefix, store.presignedMode, store.allowedOrigins)
  }

  /** The bucket's row, whoever asks. */
  ghost function FindBucket(db: Db, gatewayBucket: string): Option<ResolvedBucket>
    requires Consistent(db)
  {
    match FindMapping(db, gatewayBucket)
    case None => None
    case Some(m) => Some(Joined(db.stores[m.storeId], m))
  }

  ghost function LookupAnswer(db: Db, accessKey: string): Result<AccessKeyRow> {
    match FindKey(db, accessKey)
    case None => Err(AccessKeyNotFound)
    case Some(row) => Ok(row)
  }

  ghost function ResolveAnswer(db: Db, tenantId: Id, gatewayBucket: string): Result<ResolvedBucket>
    requires Consistent(db)
  {
    match FindBucket(db, gatewayBucket)
    case None => Err(BucketNotFound)
    case Some(rb) => if rb.tenantId != tenantId then Err(Unauthorized) else Ok(rb)
  }

  ghost function OriginsAnswer(db: Db, gatewayBucket: string): seq<string>
    requires Consistent(db)
  {
    match FindBucket(db, gatewayBucket)
    case None => []
    case Some(rb) => rb.allowedOrigins
  }

  // ---------------------------------------------------------------------------
  // Uniqueness makes the queries functions of the rows
  // ---------------------------------------------------------------------------

  lemma FindKeyIs(db: Db, id: Id)
    requires Consistent(db) && id in db.keys
    ensures !db.keys[id].revoked ==> FindKey(db, db.keys[id].accessKey) == Some(db.keys[id])
    ensures db.keys[id].revoked ==> FindKey(db, db.keys[id].accessKey) == None
  {
    if !db.keys[id].revoked { assert ActiveKey(db, id, db.keys[id].accessKey); }
  }

  lemma FindMappingIs(db: Db, id: Id)
    requires Consistent(db) && id in db.mappings
    ensures FindMapping(db, db.mappings[id].gatewayBucket) == Some(db.mappings[id])
  {
    assert IsMapping(db, id, db.mappings[id].gatewayBucket);
  }

  /** Which answers a change of the tables leaves alone. */
  ghost predicate SameMapping(db: Db, db': Db, gatewayBucket: string) {
    forall id :: IsMapping(db, id, gatewayBucket) || IsMapping(db', id, gatewayBucket)
                 ==> id in db.mappings && id in db'.mappings && db.mappings[id] == db'.mappings[id]
  }

  lemma SameMappingFound(db: Db, db': Db, gatewayBucket: string)
    requires Consistent(db) && Consistent(db') && SameMapping(db, db', gatewayBucket)
    ensures FindMapping(db, gatewayBucket) == FindMapping(db', gatewayBucket)
  {
    if id :| IsMapping(db, id, gatewayBucket) {
      FindMappingIs(db, id);
      FindMappingIs(db', id);
    } else if id :| IsMapping(db', id, gatewayBucket) {
      FindMappingIs(db, id);
      FindMappingIs(db', id);
    }
  }

  lemma SameKeyFound(db: Db, db': Db, accessKey: string)
    requires Consistent(db) && Consistent(db')
    requires forall id :: id in db.keys && db.keys[id].accessKey == accessKey
                          ==> id in db'.keys && db'.keys[id] == db.keys[id]
    requires forall id :: id in db'.keys && db'.keys[id].accessKey == accessKey
                          ==> id in db.keys && db'.keys[id] == db.keys[id]
    ensures FindKey(db, accessKey) == FindKey(db', accessKey)
  {
    if id :| ActiveKey(db, id, accessKey) {
      FindKeyIs(db, id);
      FindKeyIs(db', id);
    } else if id :| ActiveKey(db', id, accessKey) {
      FindKeyIs(db, id);
      FindKeyIs(db', id);
    }
  }

  // ---------------------------------------------------------------------------
  // Statements
  // ---------------------------------------------------------------------------

  /** `UPDATE stores ... WHERE id = $ AND tenant_id = $`. */
  predicate Owns(db: Db, id: Id, tenantId: Id) {
    id in db.stores && db.stores[id].tenantId == tenantId
  }

  function WithBackend(db: Db, id: Id, configEnc: Bytes, mode: string): Db
    requires id in db.stores
  {
    db.(stores := db.stores[id := db.stores[id].(configEnc := configEnc, presignedMode := mode)])
  }

  function WithOrigins(db: Db, id: Id, origins: seq<string>): Db
    requires id in db.stores
  {
    db.(stores := db.stores[id := db.stores[id].(allowedOrigins := origins)])
  }

  /** Deleting a store deletes its mappings with it. */
  function WithoutStore(db: Db, id: Id): Db {
    db.(stores := db.stores - {id},
        mappings := map m | m in db.mappings && db.mappings[m].storeId != id :: db.mappings[m])
  }

  function WithMapping(db: Db, id: Id, m: Mapping): Db {
    db.(mappings := db.mappings[id := m])
  }

  function WithoutMapping(db: Db, id: Id): Db {
    db.(mappings := db.mappings - {id})
  }

  function WithKey(db: Db, row: AccessKeyRow): Db {
    db.(keys := db.keys[row.id := row])
  }

  function WithReadonly(db: Db, id: Id, readonly: bool): Db
    requires id in db.keys
  {
    db.(keys := db.keys[id := db.keys[id].(readonly := readonly)])
  }

  function WithRevoked(db: Db, id: Id): Db
    requires id in db.keys
  {
    db.(keys := db.keys[id := db.keys[id].(revoked := true)])
  }

  predicate OwnsKey(db: Db, id: Id, tenantId: Id) {
    id in db.keys && db.keys[id].tenantId == tenantId && !db.keys[id].revoked
  }

  // ---------------------------------------------------------------------------
  // What a query answers after a statement
  // ---------------------------------------------------------------------------

  /** The mapping a bucket is found by, if any. */
  lemma FoundMapping(db: Db, bucket: string)
    requires Consistent(db)
    ensures FindMapping(db, bucket).None? ==> forall id :: id in db.mappings ==> db.mappings[id].gatewayBucket != bucket
    ensures FindMapping(db, bucket).Some? ==> exists id | id in db.mappings ::
              db.mappings[id].gatewayBucket == bucket && FindMapping(db, bucket).value == db.mappings[id]
  {
    if id :| id in db.mappings && db.mappings[id].gatewayBucket == bucket { FindMappingIs(db, id); }
  }

  lemma SameBucketFound(db: Db, db': Db, bucket: string)
    requires Consistent(db) && Consistent(db') && db'.mappings == db.mappings
    ensures FindMapping(db', bucket) == FindMapping(db, bucket)
  {
    SameMappingFound(db, db', bucket);
  }

  /** A new config and mode are what the store's own buckets answer with from
      then on, and no other answer changes. */
  lemma BackendShows(db: Db, id: Id, configEnc: Bytes, mode: string, tenantId: Id, bucket: string)
    requires Consistent(db) && id in db.stores
    ensures Consistent(WithBackend(db, id, configEnc, mode))
    ensures ResolveAnswer(WithBackend(db, id, configEnc, mode), tenantId, bucket)
            == match ResolveAnswer(db, tenantId, bucket)
               case Err(e) => Err(e)
               case Ok(rb) =>
                 Ok(if rb.storeId == id then rb.(configEnc := configEnc, presignedMode := mode) else rb)
  {
    SameBucketFound(db, WithBackend(db, id, configEnc, mode), bucket);
    FoundMapping(db, bucket);
  }

  /** New origins are answered for the store's own buckets and no others. */
  lemma OriginsShow(db: Db, id: Id, origins: seq<string>, tenantId: Id, bucket: string)
    requires Consistent(db) && id in db.stores
    ensures Consistent(WithOrigins(db, id, origins))
    ensures ResolveAnswer(WithOrigins(db, id, origins), tenantId, bucket)
            == match ResolveAnswer(db, tenantId, bucket)
               case Err(e) => Err(e)
               case Ok(rb) => Ok(if rb.storeId == id then rb.(allowedOrigins := origins) else rb)
    ensures OriginsAnswer(WithOrigins(db, id, origins), bucket)
            == if FindMapping(db, bucket).Some? && FindMapping(db, bucket).value.storeId == id then origins
               else OriginsAnswer(db, bucket)
  {
    SameBucketFound(db, WithOrigins(db, id, origins), bucket);
    FoundMapping(db, bucket);
  }

  /** The buckets of a deleted store are found no more, the others as before. */
  lemma StoreDeletionShows(db: Db, id: Id, tenantId: Id, bucket: string)
    requires Consistent(db)
    ensures Consistent(WithoutStore(db, id))
    ensures ResolveAnswer(WithoutStore(db, id), tenantId, bucket)
            == if FindMapping(db, bucket).Some? && FindMapping(db, bucket).value.storeId == id
               then Err(BucketNotFound) else ResolveAnswer(db, tenantId, bucket)
  {
    hide Joined;
    var db' := WithoutStore(db, id);
    FoundMapping(db, bucket);
    if FindMapping(db, bucket).Some? && FindMapping(db, bucket).value.storeId == id {
      FoundMapping(db', bucket);
    } else {
      SameMappingFound(db, db', bucket);
    }
  }

  /** A new mapping gives its bucket to its store's tenant and changes no other
      answer. */
  lemma MappingShows(db: Db, id: Id, m: Mapping, tenantId: Id, bucket: string)
    requires Consistent(db) && id !in db.mappings && m.storeId in db.stores
    requires forall x :: x in db.mappings ==> db.mappings[x].gatewayBucket != m.gatewayBucket
    ensures Consistent(WithMapping(db, id, m))
    ensures bucket != m.gatewayBucket
            ==> ResolveAnswer(WithMapping(db, id, m), tenantId, bucket) == ResolveAnswer(db, tenantId, bucket)
    ensures bucket == m.gatewayBucket
            ==> ResolveAnswer(db, tenantId, bucket) == Err(BucketNotFound)
                && ResolveAnswer(WithMapping(db, id, m), tenantId, bucket)
                   == if db.stores[m.storeId].tenantId == tenantId then Ok(Joined(db.stores[m.storeId], m))
                      else Err(Unauthorized)
  {
    var db' := WithMapping(db, id, m);
    if bucket == m.gatewayBucket {
      FoundMapping(db, bucket);
      FindMappingIs(db', id);
    } else {
      SameMappingFound(db, db', bucket);
    }
  }

  lemma MappingDeletionShows(db: Db, id: Id, tenantId: Id, bucket: string)
    requires Consistent(db) && id in db.mappings
    ensures Consistent(WithoutMapping(db, id))
    ensures ResolveAnswer(WithoutMapping(db, id), tenantId, bucket)
            == if bucket == db.mappings[id].gatewayBucket then Err(BucketNotFound)
               else ResolveAnswer(db, tenantId, bucket)
  {
    hide Joined;
    var db' := WithoutMapping(db, id);
    if bucket == db.mappings[id].gatewayBucket {
      FoundMapping(db', bucket);
    } else {
      SameMappingFound(db, db', bucket);
    }
  }

  /** A new key is found by its name, and no other lookup changes. */
  lemma KeyShows(db: Db, row: AccessKeyRow, accessKey: string)
    requires Consistent(db) && row.id !in db.keys && !row.revoked
    requires forall k :: k in db.keys ==> db.keys[k].accessKey != row.accessKey
    ensures Consistent(WithKey(db, row))
    ensures LookupAnswer(WithKey(db, row), accessKey)
            == if accessKey == row.accessKey then Ok(row) else LookupAnswer(db, accessKey)
  {
    if accessKey == row.accessKey {
      FindKeyIs(WithKey(db, row), row.id);
    } else {
      SameKeyFound(db, WithKey(db, row), accessKey);
    }
  }

  /** Lookups of a key see its new flag, and no other lookup changes. */
  lemma ReadonlyShows(db: Db, id: Id, readonly: bool, accessKey: string)
    requires Consistent(db) && id in db.keys && !db.keys[id].revoked
    ensures Consistent(WithReadonly(db, id, readonly))
    ensures LookupAnswer(WithReadonly(db, id, readonly), accessKey)
            == if accessKey == db.keys[id].accessKey then Ok(db.keys[id].(readonly := readonly))
               else LookupAnswer(db, accessKey)
  {
    var db' := WithReadonly(db, id, readonly);
    assert Consistent(db');
    hide Consistent, FindKey;
    if accessKey == db.keys[id].accessKey {
      FindKeyIs(db', id);
    } else {
      SameKeyFound(db, db', accessKey);
    }
  }

  /** A revoked key is not found, and every other lookup is as before. */
  lemma RevocationShows(db: Db, id: Id, accessKey: string)
    requires Consistent(db) && id in db.keys
    ensures Consistent(WithRevoked(db, id))
    ensures LookupAnswer(WithRevoked(db, id), accessKey)
            == if accessKey == db.keys[id].accessKey then Err(AccessKeyNotFound) else LookupAnswer(db, accessKey)
  {
    var db' := WithRevoked(db, id);
    assert Consistent(db');
    hide Consistent, FindKey;
    if accessKey == db.keys[id].accessKey {
      FindKeyIs(db', id);
    } else {
      SameKeyFound(db, db', accessKey);
    }
  }

  /** What the statements on a store or a key leave alone in its row and in all
      others. */
  lemma OtherwiseUnchanged(db: Db, id: Id, configEnc: Bytes, mode: string, origins: seq<string>, readonly: bool)
    ensures id in db.stores ==>
              var a, b := WithBackend(db, id, configEnc, mode), WithOrigins(db, id, origins);
              && a.keys == b.keys == db.keys && a.mappings == b.mappings == db.mappings
              && a.stores - {id} == b.stores - {id} == db.stores - {id}
              && a.stores[id] == Store(db.stores[id].tenantId, db.stores[id].name, db.stores[id].backendType,
                                       configEnc, mode, db.stores[id].allowedOrigins)
              && b.stores[id] == Store(db.stores[id].tenantId, db.stores[id].name, db.stores[id].backendType,
                                       db.stores[id].configEnc, db.stores[id].presignedMode, origins)
    ensures id in db.keys ==>
              var a, b := WithReadonly(db, id, readonly), WithRevoked(db, id);
              && a.stores == b.stores == db.stores && a.mappings == b.mappings == db.mappings
              && a.keys - {id} == b.keys - {id} == db.keys - {id}
              && var row := db.keys[id];
                 && a.keys[id] == AccessKeyRow(id := row.id, tenantId := row.tenantId, accessKey := row.accessKey,
                                               secretEnc := row.secretEnc, readonly := readonly,
                                               createdAt := row.createdAt, revoked := row.revoked)
                 && b.keys[id] == AccessKeyRow(id := row.id, tenantId := row.tenantId, accessKey := row.accessKey,
                                               secretEnc := row.secretEnc, readonly := row.readonly,
                                               createdAt := row.createdAt, revoked := true)
  {
  }

  /** An answer, field by field: the mapping's row and its store's. */
  lemma AnswerIsRow(db: Db, tenantId: Id, bucket: string)
    requires Consistent(db) && ResolveAnswer(db, tenantId, bucket).Ok?
    ensures exists id | id in db.mappings :: var m, rb := db.mappings[id], ResolveAnswer(db, tenantId, bucket).value;
              && m.gatewayBucket == bucket == rb.gatewayBucket
              && m.storeId == rb.storeId && rb.storeId in db.stores
              && (rb.backendBucket, rb.backendPrefix) == ParseBackendBucket(m.backendBucket)
              && var store := db.stores[rb.storeId];
                 && store.tenantId == rb.tenantId == tenantId
                 && store.backendType == rb.backendType
                 && store.configEnc == rb.configEnc
                 && store.presignedMode == rb.presignedMode
                 && store.allowedOrigins == rb.allowedOrigins
  {
    hide ParseBackendBucket;
    FoundMapping(db, bucket);
  }

  // ---------------------------------------------------------------------------
  // The manager
  // ---------------------------------------------------------------------------

  /** Any statement may fail with DbError: a query then has no answer, and a write
      has been done or not. */
  class PgManager {
    var db: Db
    /** Statements without an answer. */
    ghost var failures: nat

    constructor ()
      ensures db == Db(map[], map[], map[]) && Consistent(db) && failures == 0
    {
      db := Db(map[], map[], map[]);
      failures := 0;
    }

    method Available() returns (up: bool)
      modifies this`failures
      ensures failures == old(failures) + if up then 0 else 1
    {
      up := *;
      failures := failures + if up then 0 else 1;
    }

    method LookupAccessKey(accessKey: string) returns (r: Result<AccessKeyRow>)
      requires Consistent(db)
      modifies this`failures
      ensures failures >= old(failures) && (r == Err(DbError) <==> failures > old(failures))
      ensures r == Err(DbError) || r == LookupAnswer(db, accessKey)
      ensures r.Ok? ==> r.value.id in db.keys && db.keys[r.value.id] == r.value
                        && r.value.accessKey == accessKey && !r.value.revoked
      ensures r == Err(AccessKeyNotFound) ==>
                forall id :: id in db.keys && db.keys[id].accessKey == accessKey ==> db.keys[id].revoked
    {
      var up := Available();
      if !up { return Err(DbError); }
      if id :| id in db.keys && db.keys[id].accessKey == accessKey && !db.keys[id].revoked {
        FindKeyIs(db, id);
        return Ok(db.keys[id]);
      }
      assert !exists id :: ActiveKey(db, id, accessKey);
      r := Err(AccessKeyNotFound);
    }

    method ResolveBucket(tenantId: Id, gatewayBucket: string) returns (r: Result<ResolvedBucket>)
      requires Consistent(db)
      modifies this`failures
      ensures failures >= old(failures) && (r == Err(DbError) <==> failures > old(failures))
      ensures r == Err(DbError) || r == ResolveAnswer(db, tenantId, gatewayBucket)
      // Field by field, an answer is the mapping's row and its store's.
      ensures r.Ok? ==> exists id | id in db.mappings :: var m, rb := db.mappings[id], r.value;
                && m.gatewayBucket == gatewayBucket == rb.gatewayBucket
                && m.storeId == rb.storeId && rb.storeId in db.stores
                && (rb.backendBucket, rb.backendPrefix) == ParseBackendBucket(m.backendBucket)
                && var store := db.stores[rb.storeId];
                   && store.tenantId == rb.tenantId == tenantId
                   && store.backendType == rb.backendType
                   && store.configEnc == rb.configEnc
                   && store.presignedMode == rb.presignedMode
                   && store.allowedOrigins == rb.allowedOrigins
      ensures r == Err(Unauthorized) ==> exists id | id in db.mappings ::
                db.mappings[id].gatewayBucket == gatewayBucket
                && db.stores[db.mappings[id].storeId].tenantId != tenantId
      ensures r == Err(BucketNotFound) ==>
                forall id :: id in db.mappings ==> db.mappings[id].gatewayBucket != gatewayBucket
      ensures r.Ok? || r.error in {DbError, Unauthorized, BucketNotFound}
    {
      var up := Available();
      if !up { return Err(DbError); }
      if id :| id in db.mappings && db.mappings[id].gatewayBucket == gatewayBucket {
        FindMappingIs(db, id);
        var rb := Joined(db.stores[db.mappings[id].storeId], db.mappings[id]);
        if rb.tenantId != tenantId {
          return Err(Unauthorized);
        }
        return Ok(rb);
      }
      assert !exists id :: IsMapping(db, id, gatewayBucket);
      r := Err(BucketNotFound);
    }

    method GetBucketAllowedOrigins(gatewayBucket: string) returns (r: Result<seq<string>>)
      requires Consistent(db)
      modifies this`failures
      ensures failures >= old(failures) && (r == Err(DbError) <==> failures > old(failures))
      ensures r == Err(DbError) || r == Ok(OriginsAnswer(db, gatewayBucket))
      ensures r.Ok? ==> forall id :: id in db.mappings && db.mappings[id].gatewayBucket == gatewayBucket
                                     ==> r.value == db.stores[db.mappings[id].storeId].allowedOrigins
      ensures r.Ok? && r.value != [] ==>
                exists id :: id in db.mappings && db.mappings[id].gatewayBucket == gatewayBucket
    {
      var up := Available();
      if !up { return Err(DbError); }
      if id :| id in db.mappings && db.mappings[id].gatewayBucket == gatewayBucket {
        FindMappingIs(db, id);
        return Ok(db.stores[db.mappings[id].storeId].allowedOrigins);
      }
      assert !exists id :: IsMapping(db, id, gatewayBucket);
      r := Ok([]);
    }

    method GetStore(id: Id) returns (r: Result<Store>)
      modifies this`failures
      ensures failures >= old(failures) && (r == Err(DbError) <==> failures > old(failures))
      ensures r == Err(DbError) || r == if id in db.stores then Ok(db.stores[id]) else Err(StoreNotFound)
    {
      var up := Available();
      r := if !up then Err(DbError) else if id in db.stores then Ok(db.stores[id]) else Err(StoreNotFound);
    }

    method GetBucketMapping(id: Id, storeId: Id) returns (r: Result<Mapping>)
      modifies this`failures
      ensures failures >= old(failures) && (r == Err(DbError) <==> failures > old(failures))
      ensures r == Err(DbError)
              || r == if id in db.mappings && db.mappings[id].storeId == storeId
                      then Ok(db.mappings[id]) else Err(BucketNotFound)
    {
      var up := Available();
      r := if !up then Err(DbError)
           else if id in db.mappings && db.mappings[id].storeId == storeId then Ok(db.mappings[id])
           else Err(BucketNotFound);
    }

    method ListBucketMappings(storeId: Id) returns (r: Result<seq<(Id, Mapping)>>)
      modifies this`failures
      ensures failures >= old(failures) && (r == Err(DbError) <==> failures > old(failures))
      ensures r.Ok? || r == Err(DbError)
      ensures r.Ok? ==>
                && (forall x :: x in r.value
                                ==> x.0 in db.mappings && db.mappings[x.0] == x.1 && x.1.storeId == storeId)
                && (forall m :: m in db.mappings && db.mappings[m].storeId == storeId
                                ==> (m, db.mappings[m]) in r.value)
    {
      var up := Available();
      if !up { return Err(DbError); }
      var rows: seq<(Id, Mapping)> := [];
      var left := db.mappings.Keys;
      while left != {}
        invariant left <= db.mappings.Keys
        invariant forall x :: x in rows ==> x.0 in db.mappings && db.mappings[x.0] == x.1 && x.1.storeId == storeId
        invariant forall m :: m in db.mappings && m !in left && db.mappings[m].storeId == storeId
                              ==> (m, db.mappings[m]) in rows
      {
        var m :| m in left;
        left := left - {m};
        if db.mappings[m].storeId == storeId {
          rows := rows + [(m, db.mappings[m])];
        }
      }
      r := Ok(rows);
    }

    method ListAccessKeys(tenantId: Id) returns (r: Result<seq<AccessKeyRow>>)
      requires Consistent(db)
      modifies this`failures
      ensures failures >= old(failures) && (r == Err(DbError) <==> failures > old(failures))
      ensures r.Ok? || r == Err(DbError)
      ensures r.Ok? ==>
                && (forall x :: x in r.value ==> x.id in db.keys && db.keys[x.id] == x && x.tenantId == tenantId)
                && (forall k :: k in db.keys && db.keys[k].tenantId == tenantId ==> db.keys[k] in r.value)
    {
      var up := Available();
      if !up { return Err(DbError); }
      var rows: seq<AccessKeyRow> := [];
      var left := db.keys.Keys;
      while left != {}
        invariant left <= db.keys.Keys
        invariant forall x :: x in rows ==> x.id in db.keys && db.keys[x.id] == x && x.tenantId == tenantId
        invariant forall k :: k in db.keys && k !in left && db.keys[k].tenantId == tenantId ==> db.keys[k] in rows
      {
        var k :| k in left;
        left := left - {k};
        if db.keys[k].tenantId == tenantId {
          rows := rows + [db.keys[k]];
        }
      }
      r := Ok(rows);
    }

    method CreateAccessKey(row: AccessKeyRow) returns (r: Result<AccessKeyRow>)
      requires Consistent(db) && !row.revoked
      modifies this
      ensures Consistent(db)
      ensures failures >= old(failures)
      ensures r.Ok? <==> failures == old(failures) && row.id !in old(db).keys
                         && forall k :: k in old(db).keys ==> old(db).keys[k].accessKey != row.accessKey
      ensures r in {Ok(row), Err(DbError)} && (r.Ok? ==> db != old(db))
      ensures db == old(db)
              || (db == WithKey(old(db), row) && row.id !in old(db).keys
                  && forall k :: k in old(db).keys ==> old(db).keys[k].accessKey != row.accessKey)
    {
      var up := Available();
      var applied: bool := *;
      if (!up && !applied) || row.id in db.keys || exists k :: k in db.keys && db.keys[k].accessKey == row.accessKey {
        return Err(DbError);
      }
      db := WithKey(db, row);
      r := if up then Ok(row) else Err(DbError);
    }

    method UpdateAccessKeyReadonly(id: Id, tenantId: Id, readonly: bool) returns (r: Result<AccessKeyRow>)
      requires Consistent(db)
      modifies this
      ensures Consistent(db)
      ensures failures >= old(failures) && (r == Err(DbError) <==> failures > old(failures))
      ensures r.Ok? <==> failures == old(failures) && OwnsKey(old(db), id, tenantId)
      ensures r.Ok? ==> OwnsKey(old(db), id, tenantId) && db == WithReadonly(old(db), id, readonly)
                        && r.value == db.keys[id]
      ensures r.Err? ==> db == old(db) || (r == Err(DbError) && OwnsKey(old(db), id, tenantId)
                                           && db == WithReadonly(old(db), id, readonly))
      ensures r == Err(AccessKeyNotFound) ==> !OwnsKey(db, id, tenantId)
    {
      var up := Available();
      var applied: bool := *;
      if !up && !applied { return Err(DbError); }
      if !OwnsKey(db, id, tenantId) { return Err(if up then AccessKeyNotFound else DbError); }
      db := WithReadonly(db, id, readonly);
      r := if up then Ok(db.keys[id]) else Err(DbError);
    }

    method RevokeAccessKey(id: Id, tenantId: Id) returns (r: Result<()>)
      requires Consistent(db)
      modifies this
      ensures Consistent(db)
      ensures failures >= old(failures) && (r == Err(DbError) <==> failures > old(failures))
      ensures r.Ok? <==> failures == old(failures) && OwnsKey(old(db), id, tenantId)
      ensures r.Ok? ==> OwnsKey(old(db), id, tenantId) && db == WithRevoked(old(db), id)
      ensures r.Err? ==> db == old(db) || (r == Err(DbError) && OwnsKey(old(db), id, tenantId)
                                           && db == WithRevoked(old(db), id))
      ensures r == Err(AccessKeyNotFound) ==> !OwnsKey(db, id, tenantId)
    {
      var up := Available();
      var applied: bool := *;
      if !up && !applied { return Err(DbError); }
      if !OwnsKey(db, id, tenantId) { return Err(if up then AccessKeyNotFound else DbError); }
      db := WithRevoked(db, id);
      r := if up then Ok(()) else Err(DbError);
    }

    method CreateStore(id: Id, store: Store) returns (r: Result<()>)
      requires Consistent(db)
      modifies this
      ensures Consistent(db)
      ensures failures >= old(failures)
      ensures r.Ok? <==> failures == old(failures) && id !in old(db).stores
                         && forall s :: s in old(db).stores
                                        ==> !(old(db).stores[s].tenantId == store.tenantId
                                              && old(db).stores[s].name == store.name)
      ensures r.Ok? ==> id !in old(db).stores && db == old(db).(stores := old(db).stores[id := store])
      ensures r.Err? ==> db == old(db) || (r == Err(DbError) && id !in old(db).stores
                                           && db == old(db).(stores := old(db).stores[id := store]))
    {
      var up := Available();
      var applied: bool := *;
      if (!up && !applied) || id in db.stores
         || exists s :: s in db.stores && db.stores[s].tenantId == store.tenantId && db.stores[s].name == store.name {
        return Err(DbError);
      }
      db := db.(stores := db.stores[id := store]);
      r := if up then Ok(()) else Err(DbError);
    }

    method UpdateStoreBackend(id: Id, tenantId: Id, configEnc: Bytes, mode: string) returns (r: Result<()>)
      requires Consistent(db)
      modifies this
      ensures Consistent(db)
      ensures failures >= old(failures) && (r == Err(DbError) <==> failures > old(failures))
      ensures r.Ok? <==> failures == old(failures) && Owns(old(db), id, tenantId)
      ensures r.Ok? ==> Owns(old(db), id, tenantId) && db == WithBackend(old(db), id, configEnc, mode)
      ensures r.Err? ==> db == old(db) || (r == Err(DbError) && Owns(old(db), id, tenantId)
                                           && db == WithBackend(old(db), id, configEnc, mode))
      ensures r == Err(StoreNotFound) ==> !Owns(db, id, tenantId)
    {
      var up := Available();
      var applied: bool := *;
      if !up && !applied { return Err(DbError); }
      if !Owns(db, id, tenantId) { return Err(if up then StoreNotFound else DbError); }
      db := WithBackend(db, id, configEnc, mode);
      r := if up then Ok(()) else Err(DbError);
    }

    method UpdateStoreAllowedOrigins(id: Id, tenantId: Id, origins: seq<string>) returns (r: Result<()>)
      requires Consistent(db)
      modifies this
      ensures Consistent(db)
      ensures failures >= old(failures) && (r == Err(DbError) <==> failures > old(failures))
      ensures r.Ok? <==> failures == old(failures) && Owns(old(db), id, tenantId)
      ensures r.Ok? ==> Owns(old(db), id, tenantId) && db == WithOrigins(old(db), id, origins)
      ensures r.Err? ==> db == old(db) || (r == Err(DbError) && Owns(old(db), id, tenantId)
                                           && db == WithOrigins(old(db), id, origins))
      ensures r == Err(StoreNotFound) ==> !Owns(db, id, tenantId)
    {
      var up := Available();
      var applied: bool := *;
      if !up && !applied { return Err(DbError); }
      if !Owns(db, id, tenantId) { return Err(if up then StoreNotFound else DbError); }
      db := WithOrigins(db, id, origins);
      r := if up then Ok(()) else Err(DbError);
    }

    method DeleteStore(id: Id, tenantId: Id) returns (r: Result<()>)
      requires Consistent(db)
      modifies this
      ensures Consistent(db)
      ensures failures >= old(failures) && (r == Err(DbError) <==> failures > old(failures))
      ensures r.Ok? <==> failures == old(failures) && Owns(old(db), id, tenantId)
      ensures r.Ok? ==> Owns(old(db), id, tenantId) && db == WithoutStore(old(db), id)
      ensures r.Err? ==> db == old(db) || (r == Err(DbError) && Owns(old(db), id, tenantId)
                                           && db == WithoutStore(old(db), id))
      ensures r == Err(StoreNotFound) ==> !Owns(db, id, tenantId)
    {
      var up := Available();
      var applied: bool := *;
      if !up && !applied { return Err(DbError); }
      if !Owns(db, id, tenantId) { return Err(if up then StoreNotFound else DbError); }
      db := WithoutStore(db, id);
      r := if up then Ok(()) else Err(DbError);
    }

    method CreateBucketMapping(id: Id, m: Mapping) returns (r: Result<Mapping>)
      requires Consistent(db)
      modifies this
      ensures Consistent(db)
      ensures failures >= old(failures)
      ensures r.Ok? <==> failures == old(failures) && id !in old(db).mappings && m.storeId in old(db).stores
                         && forall x :: x in old(db).mappings ==> old(db).mappings[x].gatewayBucket != m.gatewayBucket
      ensures r in {Ok(m), Err(DbError)} && (r.Ok? ==> db != old(db))
      ensures db == old(db)
              || (id !in old(db).mappings && m.storeId in old(db).stores && db == WithMapping(old(db), id, m)
                  && forall x :: x in old(db).mappings ==> old(db).mappings[x].gatewayBucket != m.gatewayBucket)
    {
      var up := Available();
      var applied: bool := *;
      if (!up && !applied) || id in db.mappings || m.storeId !in db.stores
         || exists x :: x in db.mappings && db.mappings[x].gatewayBucket == m.gatewayBucket {
        return Err(DbError);
      }
      db := WithMapping(db, id, m);
      r := if up then Ok(m) else Err(DbError);
    }

    method DeleteBucketMapping(id: Id, storeId: Id) returns (r: Result<()>)
      requires Consistent(db)
      modifies this
      ensures Consistent(db)
      ensures failures >= old(failures) && (r == Err(DbError) <==> failures > old(failures))
      ensures r.Ok? <==> failures == old(failures)
                         && id in old(db).mappings && old(db).mappings[id].storeId == storeId
      ensures r.Ok? ==> id in old(db).mappings && old(db).mappings[id].storeId == storeId
                        && db == WithoutMapping(old(db), id)
      ensures r.Err? ==> db == old(db) || (r == Err(DbError) && id in old(db).mappings
                                           && db == WithoutMapping(old(db), id))
      ensures r == Err(BucketNotFound) ==> !(id in db.mappings && db.mappings[id].storeId == storeId)
    {
      var up := Available();
      var applied: bool := *;
      if !up && !applied { return Err(DbError); }
      if id !in db.mappings || db.mappings[id].storeId != storeId {
        return Err(if up then BucketNotFound else DbError);
      }
      db := WithoutMapping(db, id);
      r := if up then Ok(()) else Err(DbError);
    }
  }
}
