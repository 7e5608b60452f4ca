/** One upstream client per store (internal/backend/factory.go), one call at a
    time. */
module ClientPool {
  import opened Strings
  import opened Strconv
  import opened Models
  import opened Crypto

  /** A client, known by the backend type and decrypted config it was built from. */
  datatype Client = Client(backendType: string, config: Bytes)

  /** The client a store's row calls for, if its config decrypts. */
  function ClientFor(aead: Aead, key: Bytes, backendType: string, configEnc: Bytes): Option<Client> {
    match Decrypt(aead, key, configEnc)
    case None => None
    case Some(config) => Some(Client(backendType, config))
  }

  /** In terms of the cipher: the client has the row's type and the config that
      the row's bytes open to, a nonce with the sealed text behind it. */
  lemma ClientForIff(aead: Aead, key: Bytes, backendType: string, configEnc: Bytes, c: Client)
    ensures ClientFor(aead, key, backendType, configEnc) == Some(c)
            <==> && c.backendType == backendType && |configEnc| >= 28
                 && aead.open(key, configEnc[..12], configEnc[12..]) == Some(c.config)
  {
    OpensIff(aead, key, configEnc, c.config);
  }

  class Pool {
    var backends: map<Id, Client>
    /** Clients that could not be built from their decrypted config. */
    ghost var refusals: nat
    const aead: Aead
    const cryptoKey: Bytes

    constructor (aead: Aead, cryptoKey: Bytes)
      ensures this.aead == aead && this.cryptoKey == cryptoKey && backends == map[] && refusals == 0
    {
      this.aead := aead;
      this.cryptoKey := cryptoKey;
      backends := map[];
      refusals := 0;
    }

    /** `backend.New`: builds a client unless the config does not suit the type. */
    method New(backendType: string, config: Bytes) returns (b: Option<Client>)
      modifies this`refusals
      ensures b.Some? ==> b.value == Client(backendType, config)
      ensures refusals == old(refusals) + if b.Some? then 0 else 1
    {
      var parses: bool := *;
      b := if parses then Some(Client(backendType, config)) else None;
      refusals := refusals + if parses then 0 else 1;
    }

    method Get(rb: ResolvedBucket) returns (b: Option<Client>)
      modifies this
      ensures b.Some? ==> rb.storeId in backends && backends[rb.storeId] == b.value
      ensures rb.storeId in old(backends) ==> b == Some(old(backends)[rb.storeId]) && backends == old(backends)
      ensures b.None? ==> backends == old(backends)
      ensures rb.storeId !in old(backends) && b.Some? ==>
                b == ClientFor(aead, cryptoKey, rb.backendType, rb.configEnc)
                && backends == old(backends)[rb.storeId := b.value]
      // In terms of the cipher, and refused for a reason only.
      ensures rb.storeId !in old(backends) && b.Some? ==>
                && b.value.backendType == rb.backendType && |rb.configEnc| >= 28
                && aead.open(cryptoKey, rb.configEnc[..12], rb.configEnc[12..]) == Some(b.value.config)
      ensures refusals >= old(refusals)
      ensures b.None? <==> && rb.storeId !in old(backends)
                           && (refusals > old(refusals) || |rb.configEnc| < 28
                               || aead.open(cryptoKey, rb.configEnc[..12], rb.configEnc[12..]).None?)
    {
      if rb.storeId in backends {
        return Some(backends[rb.storeId]);
      }
      var configJSON := Decrypt(aead, cryptoKey, rb.configEnc);
      if configJSON.None? {
        return None;
      }
      b := New(rb.backendType, configJSON.value);
      if b.None? {
        return None;
      }
      // Another call may have filled the slot while this one built.
      if rb.storeId !in backends {
        backends := backends[rb.storeId := b.value];
      }
      b := Some(backends[rb.storeId]);
    }

    method Invalidate(storeId: Id)
      modifies this
      ensures backends == old(backends) - {storeId} && refusals == old(refusals)
    {
      backends := backends - {storeId};
    }
  }
}
