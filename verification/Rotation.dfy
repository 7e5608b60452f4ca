/** Rotation of the master key (cmd/rotate-key/main.go): every stored secret is
    encrypted anew inside one transaction. */
module Rotation {
  import opened Strings
  import opened Strconv
  import opened Models
  import opened Database
  import opened Crypto

  /** `after` says under the new key what `before` says under the old one. */
  ghost predicate SameSecret(aead: Aead, oldKey: Bytes, newKey: Bytes, before: Bytes, after: Bytes) {
    Decrypt(aead, oldKey, before).Some? && Decrypt(aead, newKey, after) == Decrypt(aead, oldKey, before)
  }

  /** The same in terms of the cipher: both are a nonce with sealed text behind
      it, and the texts open to one secret. */
  lemma SameSecretIff(aead: Aead, oldKey: Bytes, newKey: Bytes, before: Bytes, after: Bytes)
    ensures SameSecret(aead, oldKey, newKey, before, after)
            <==> |before| >= 28 && |after| >= 28
                 && aead.open(oldKey, before[..12], before[12..]).Some?
                 && aead.open(newKey, after[..12], after[12..]) == aead.open(oldKey, before[..12], before[12..])
  {
  }

  /** The stores in `done` are re-encrypted and the others untouched. */
  ghost predicate StoresRotated(aead: Aead, oldKey: Bytes, newKey: Bytes,
                                before: map<Id, Store>, after: map<Id, Store>, done: set<Id>)
  {
    && after.Keys == before.Keys
    && (forall s :: s in before && s !in done ==> after[s] == before[s])
    && (forall s :: s in before && s in done ==>
          after[s] == before[s].(configEnc := after[s].configEnc)
          && SameSecret(aead, oldKey, newKey, before[s].configEnc, after[s].configEnc))
  }

  ghost predicate KeysRotated(aead: Aead, oldKey: Bytes, newKey: Bytes,
                              before: map<Id, AccessKeyRow>, after: map<Id, AccessKeyRow>, done: set<Id>)
  {
    && after.Keys == before.Keys
    && (forall k :: k in before && k !in done ==> after[k] == before[k])
    && (forall k :: k in before && k in done ==>
          after[k] == before[k].(secretEnc := after[k].secretEnc)
          && SameSecret(aead, oldKey, newKey, before[k].secretEnc, after[k].secretEnc))
  }

  lemma NoStoreYet(aead: Aead, oldKey: Bytes, newKey: Bytes, stores: map<Id, Store>)
    ensures StoresRotated(aead, oldKey, newKey, stores, stores, {})
  {
  }

  lemma NoKeyYet(aead: Aead, oldKey: Bytes, newKey: Bytes, keys: map<Id, AccessKeyRow>)
    ensures KeysRotated(aead, oldKey, newKey, keys, keys, {})
  {
  }

  lemma StoreStep(aead: Aead, oldKey: Bytes, newKey: Bytes, before: map<Id, Store>, now: map<Id, Store>,
                  done: set<Id>, id: Id, newEnc: Bytes)
    requires StoresRotated(aead, oldKey, newKey, before, now, done) && id in before && id !in done
    ensures id in now && now[id] == before[id]
    ensures SameSecret(aead, oldKey, newKey, before[id].configEnc, newEnc)
            ==> StoresRotated(aead, oldKey, newKey, before, now[id := now[id].(configEnc := newEnc)], done + {id})
  {
    hide SameSecret;
  }

  lemma KeyStep(aead: Aead, oldKey: Bytes, newKey: Bytes, before: map<Id, AccessKeyRow>, now: map<Id, AccessKeyRow>,
                done: set<Id>, id: Id, newEnc: Bytes)
    requires KeysRotated(aead, oldKey, newKey, before, now, done) && id in before && id !in done
    ensures id in now && now[id] == before[id]
    ensures SameSecret(aead, oldKey, newKey, before[id].secretEnc, newEnc)
            ==> KeysRotated(aead, oldKey, newKey, before, now[id := now[id].(secretEnc := newEnc)], done + {id})
  {
    hide SameSecret;
  }

  function Active(keys: map<Id, AccessKeyRow>): set<Id> {
    set k | k in keys && !keys[k].revoked
  }

  /** Every store and every active key carries its secret over to the new key;
      nothing else changes, revoked keys included. */
  ghost predicate Rotated(aead: Aead, oldKey: Bytes, newKey: Bytes, before: Db, after: Db) {
    && StoresRotated(aead, oldKey, newKey, before.stores, after.stores, before.stores.Keys)
    && KeysRotated(aead, oldKey, newKey, before.keys, after.keys, Active(before.keys))
    && after.mappings == before.mappings
  }

  ghost predicate StoresDecrypt(aead: Aead, key: Bytes, stores: map<Id, Store>) {
    forall s :: s in stores ==> Decrypt(aead, key, stores[s].configEnc).Some?
  }

  ghost predicate KeysDecrypt(aead: Aead, key: Bytes, keys: map<Id, AccessKeyRow>) {
    forall k :: k in Active(keys) ==> Decrypt(aead, key, keys[k].secretEnc).Some?
  }

  ghost predicate AllDecrypt(aead: Aead, key: Bytes, db: Db) {
    StoresDecrypt(aead, key, db.stores) && KeysDecrypt(aead, key, db.keys)
  }

  lemma RotatedDecrypts(aead: Aead, oldKey: Bytes, newKey: Bytes, before: Db, after: Db)
    requires Rotated(aead, oldKey, newKey, before, after)
    ensures AllDecrypt(aead, oldKey, before) && AllDecrypt(aead, newKey, after)
  {
    assert Active(after.keys) == Active(before.keys);
  }

  /** What a rotation does to a row: a store keeps all but its config and a key
      that is not revoked all but its secret, which the new key opens to what the
      old one did; revoked keys and mappings stay as they are. */
  lemma RotatedRows(aead: Aead, oldKey: Bytes, newKey: Bytes, before: Db, after: Db)
    requires Rotated(aead, oldKey, newKey, before, after)
    ensures after.mappings == before.mappings
    ensures after.stores.Keys == before.stores.Keys && after.keys.Keys == before.keys.Keys
    ensures forall s | s in before.stores :: var x, y := before.stores[s], after.stores[s];
              && y == x.(configEnc := y.configEnc)
              && |x.configEnc| >= 28 && |y.configEnc| >= 28
              && aead.open(oldKey, x.configEnc[..12], x.configEnc[12..]).Some?
              && aead.open(newKey, y.configEnc[..12], y.configEnc[12..])
                 == aead.open(oldKey, x.configEnc[..12], x.configEnc[12..])
    ensures forall k | k in before.keys && before.keys[k].revoked :: after.keys[k] == before.keys[k]
    ensures forall k | k in before.keys && !before.keys[k].revoked :: var x, y := before.keys[k], after.keys[k];
              && y == x.(secretEnc := y.secretEnc)
              && |x.secretEnc| >= 28 && |y.secretEnc| >= 28
              && aead.open(oldKey, x.secretEnc[..12], x.secretEnc[12..]).Some?
              && aead.open(newKey, y.secretEnc[..12], y.secretEnc[12..])
                 == aead.open(oldKey, x.secretEnc[..12], x.secretEnc[12..])
  {
    hide SameSecret;
    forall s | s in before.stores
      ensures SameSecret(aead, oldKey, newKey, before.stores[s].configEnc, after.stores[s].configEnc)
    {
    }
    forall x: Bytes, y: Bytes { SameSecretIff(aead, oldKey, newKey, x, y); }
  }

  /** What has to decrypt: every store's config, and the secret of every key that
      is not revoked. */
  lemma AllDecryptIff(aead: Aead, key: Bytes, db: Db)
    ensures forall k :: k in Active(db.keys) <==> k in db.keys && !db.keys[k].revoked
    ensures AllDecrypt(aead, key, db)
            <==> (forall s | s in db.stores :: var x := db.stores[s].configEnc;
                    |x| >= 28 && aead.open(key, x[..12], x[12..]).Some?)
                 && (forall k | k in db.keys && !db.keys[k].revoked :: var x := db.keys[k].secretEnc;
                       |x| >= 28 && aead.open(key, x[..12], x[12..]).Some?)
  {
    forall x: Bytes
      ensures Decrypt(aead, key, x).Some? <==> |x| >= 28 && aead.open(key, x[..12], x[12..]).Some?
    {
      SameSecretIff(aead, key, key, x, x);
    }
  }

  /** Rotating on to a third key, or back to the first, keeps every secret. */
  lemma RotationsCompose(aead: Aead, k0: Bytes, k1: Bytes, k2: Bytes, a: Db, b: Db, c: Db)
    requires Rotated(aead, k0, k1, a, b) && Rotated(aead, k1, k2, b, c)
    ensures Rotated(aead, k0, k2, a, c)
  {
    assert Active(b.keys) == Active(a.keys);
  }

  /** The rows done after `i` of them. */
  function First(ids: seq<Id>, i: nat): set<Id>
    requires i <= |ids|
  {
    set j | 0 <= j < i :: ids[j]
  }

  lemma FirstNone(ids: seq<Id>)
    ensures First(ids, 0) == {}
  {
  }

  lemma FirstStep(ids: seq<Id>, i: nat)
    requires i < |ids|
    ensures First(ids, i + 1) == First(ids, i) + {ids[i]}
  {
  }

  lemma FirstAreAll(ids: seq<Id>, all: set<Id>)
    requires forall s :: s in ids <==> s in all
    ensures First(ids, |ids|) == all
  {
    forall s | s in all ensures s in First(ids, |ids|) { assert s in ids; }
    forall s | s in First(ids, |ids|) ensures s in all { assert s in ids; }
  }

  lemma NotDoneYet(ids: seq<Id>, i: nat)
    requires i < |ids| && forall j, k :: 0 <= j < k < |ids| ==> ids[j] != ids[k]
    ensures ids[i] !in First(ids, i)
  {
  }

  datatype Outcome = Failed | DryRun(stores: nat, keys: nat) | Committed(stores: nat, keys: nat)

  /** A transaction: the tables as its statements leave them. */
  class Tx {
    var tables: Db
    /** Statements and nonce draws that have failed. */
    ghost var failures: nat

    constructor (db: Db)
      ensures tables == db && failures == 0
    {
      tables := db;
      failures := 0;
    }

    /** Whether the next statement is carried out. */
    method Available() returns (up: bool)
      modifies this`failures
      ensures failures == old(failures) + if up then 0 else 1
    {
      up := *;
      failures := failures + if up then 0 else 1;
    }

    method DrawNonce() returns (nonce: Option<Bytes>)
      modifies this`failures
      ensures nonce.Some? ==> |nonce.value| == NONCE_SIZE
      ensures failures == old(failures) + if nonce.Some? then 0 else 1
    {
      var drawn := Available();
      if !drawn {
        return None;
      }
      var zeros: Bytes := seq(NONCE_SIZE, _ => '0');
      assert |zeros| == NONCE_SIZE;
      var bytes: Bytes :| |bytes| == NONCE_SIZE;
      nonce := Some(bytes);
    }

    method StoreIds() returns (ids: seq<Id>)
      ensures |ids| == |tables.stores|
      ensures forall s :: s in ids <==> s in tables.stores
      ensures forall i, j :: 0 <= i < j < |ids| ==> ids[i] != ids[j]
    {
      ids := Listed(tables.stores.Keys);
    }

    method ActiveKeyIds() returns (ids: seq<Id>)
      ensures |ids| == |Active(tables.keys)|
      ensures forall k :: k in ids <==> k in Active(tables.keys)
      ensures forall i, j :: 0 <= i < j < |ids| ==> ids[i] != ids[j]
    {
      ids := Listed(Active(tables.keys));
    }

    method Listed(all: set<Id>) returns (ids: seq<Id>)
      ensures |ids| == |all|
      ensures forall s :: s in ids <==> s in all
      ensures forall i, j :: 0 <= i < j < |ids| ==> ids[i] != ids[j]
    {
      ids := [];
      var left := all;
      while left != {}
        invariant left <= all && |ids| + |left| == |all|
        invariant forall s :: s in ids <==> s in all && s !in left
        invariant forall i, j :: 0 <= i < j < |ids| ==> ids[i] != ids[j]
      {
        var s :| s in left;
        left := left - {s};
        ids := ids + [s];
      }
    }

    /** Re-encrypts every store; None when a row fails. */
    method ReencryptStores(aead: Aead, oldKey: Bytes, newKey: Bytes) returns (count: Option<nat>)
      requires aead.Correct()
      modifies this
      ensures count.Some? ==>
                && count.value == |old(tables).stores|
                && StoresRotated(aead, oldKey, newKey, old(tables).stores, tables.stores, old(tables).stores.Keys)
                && tables == old(tables).(stores := tables.stores)
      // It fails just when a statement fails or a row does not decrypt.
      ensures count.None? <==> failures > old(failures) || !StoresDecrypt(aead, oldKey, old(tables).stores)
    {
      var up := Available();
      hide Decrypt, Encrypt, First, Aead.Correct, StoresRotated;
      if !up {
        return None;
      }
      var ids := StoreIds();
      assert First(ids, 0) == {} by { FirstNone(ids); }
      NoStoreYet(aead, oldKey, newKey, tables.stores);
      for i := 0 to |ids|
        invariant failures == old(failures)
        invariant forall j :: 0 <= j < i ==> Decrypt(aead, oldKey, old(tables).stores[ids[j]].configEnc).Some?
        invariant tables == old(tables).(stores := tables.stores)
        invariant StoresRotated(aead, oldKey, newKey, old(tables).stores, tables.stores, First(ids, i))
      {
        var id := ids[i];
        assert id in ids;
        FirstStep(ids, i);
        NotDoneYet(ids, i);
        StoreStep(aead, oldKey, newKey, old(tables).stores, tables.stores, First(ids, i), id, []);
        var plain := Decrypt(aead, oldKey, tables.stores[id].configEnc);
        if plain.None? {
          return None;
        }
        var nonce := DrawNonce();
        if nonce.None? {
          return None;
        }
        var newEnc := Encrypt(aead, newKey, nonce.value, plain.value);
        DecryptUndoesEncrypt(aead, newKey, nonce.value, plain.value);
        StoreStep(aead, oldKey, newKey, old(tables).stores, tables.stores, First(ids, i), id, newEnc);
        up := Available();
        if !up {
          return None;
        }
        tables := tables.(stores := tables.stores[id := tables.stores[id].(configEnc := newEnc)]);
      }
      FirstAreAll(ids, old(tables).stores.Keys);
      count := Some(|ids|);
    }

    /** Re-encrypts every key that is not revoked; None when a row fails. */
    method ReencryptAccessKeys(aead: Aead, oldKey: Bytes, newKey: Bytes) returns (count: Option<nat>)
      requires aead.Correct()
      modifies this
      ensures count.Some? ==>
                && count.value == |Active(old(tables).keys)|
                && KeysRotated(aead, oldKey, newKey, old(tables).keys, tables.keys, Active(old(tables).keys))
                && tables == old(tables).(keys := tables.keys)
      // It fails just when a statement fails or a row does not decrypt.
      ensures count.None? <==> failures > old(failures) || !KeysDecrypt(aead, oldKey, old(tables).keys)
    {
      var up := Available();
      hide Decrypt, Encrypt, First, Aead.Correct, KeysRotated;
      if !up {
        return None;
      }
      var ids := ActiveKeyIds();
      assert First(ids, 0) == {} by { FirstNone(ids); }
      NoKeyYet(aead, oldKey, newKey, tables.keys);
      for i := 0 to |ids|
        invariant failures == old(failures)
        invariant forall j :: 0 <= j < i ==>
                    ids[j] in old(tables).keys && Decrypt(aead, oldKey, old(tables).keys[ids[j]].secretEnc).Some?
        invariant tables == old(tables).(keys := tables.keys)
        invariant KeysRotated(aead, oldKey, newKey, old(tables).keys, tables.keys, First(ids, i))
      {
        var id := ids[i];
        assert id in ids;
        FirstStep(ids, i);
        NotDoneYet(ids, i);
        KeyStep(aead, oldKey, newKey, old(tables).keys, tables.keys, First(ids, i), id, []);
        var plain := Decrypt(aead, oldKey, tables.keys[id].secretEnc);
        if plain.None? {
          return None;
        }
        var nonce := DrawNonce();
        if nonce.None? {
          return None;
        }
        var newEnc := Encrypt(aead, newKey, nonce.value, plain.value);
        DecryptUndoesEncrypt(aead, newKey, nonce.value, plain.value);
        KeyStep(aead, oldKey, newKey, old(tables).keys, tables.keys, First(ids, i), id, newEnc);
        up := Available();
        if !up {
          return None;
        }
        tables := tables.(keys := tables.keys[id := tables.keys[id].(secretEnc := newEnc)]);
      }
      FirstAreAll(ids, Active(old(tables).keys));
      count := Some(|ids|);
    }
  }

  class Cluster {
    var db: Db
    /** Statements and nonce draws that have failed, and commits reported as failed. */
    ghost var failures: nat
    ghost var failedCommits: nat

    /** Decrypts some store with the old key before anything is touched. */
    method SanityProbe(aead: Aead, oldKey: Bytes) returns (ok: bool)
      modifies this`failures
      ensures failures >= old(failures) && (ok ==> failures == old(failures))
      ensures !ok && failures == old(failures) ==> !StoresDecrypt(aead, oldKey, db.stores)
      ensures ok ==> db.stores == map[]
                     || exists s :: s in db.stores && Decrypt(aead, oldKey, db.stores[s].configEnc).Some?
    {
      ok := *;
      if !ok {
        failures := failures + 1;
        return;
      }
      if db.stores != map[] {
        assert exists s :: s in db.stores.Keys;
        var s :| s in db.stores;
        ok := Decrypt(aead, oldKey, db.stores[s].configEnc).Some?;
      }
    }

    /** A commit reported as failed may have taken effect. */
    method Commit(tx: Tx) returns (ok: bool)
      modifies this`db, this`failedCommits
      ensures ok ==> db == tx.tables && failedCommits == old(failedCommits)
      ensures !ok ==> db in {old(db), tx.tables} && failedCommits == old(failedCommits) + 1
    {
      ok := *;
      var applied: bool := *;
      if ok || applied {
        db := tx.tables;
      }
      failedCommits := failedCommits + if ok then 0 else 1;
    }

    /** All or nothing: the tables change only by a commit, and then every secret
        is under the new key what it was under the old one. */
    method Rotate(aead: Aead, oldKey: Bytes, newKey: Bytes, dryRun: bool) returns (outcome: Outcome)
      requires aead.Correct()
      modifies this
      ensures db == old(db) || (!dryRun && Rotated(aead, oldKey, newKey, old(db), db))
      ensures outcome.Committed? ==> Rotated(aead, oldKey, newKey, old(db), db) && AllDecrypt(aead, newKey, db)
      ensures !outcome.Committed? && failedCommits == old(failedCommits) ==> db == old(db)
      // It fails just when a statement or the commit fails or a row does not decrypt.
      ensures outcome.Failed? <==> failures > old(failures) || failedCommits > old(failedCommits)
                                   || !AllDecrypt(aead, oldKey, old(db))
      ensures !outcome.Failed? ==> (outcome.DryRun? <==> dryRun)
      ensures !outcome.Failed? ==> outcome.stores == |old(db).stores| && outcome.keys == |Active(old(db).keys)|
    {
      hide StoresDecrypt, KeysDecrypt;
      var ok := SanityProbe(aead, oldKey);
      if !ok {
        return Failed;
      }
      var tx := new Tx(db);
      var storeCount := tx.ReencryptStores(aead, oldKey, newKey);
      if storeCount.None? {
        failures := failures + tx.failures;
        return Failed;
      }
      var keyCount := tx.ReencryptAccessKeys(aead, oldKey, newKey);
      failures := failures + tx.failures;
      if keyCount.None? {
        return Failed;
      }
      RotatedDecrypts(aead, oldKey, newKey, db, tx.tables);
      if dryRun {
        return DryRun(storeCount.value, keyCount.value);
      }
      ok := Commit(tx);
      outcome := if ok then Committed(storeCount.value, keyCount.value) else Failed;
    }
  }
}
