/** The framing of encrypted values (internal/auth/crypto.go) over any
    authenticated cipher. */
module Crypto {
  import opened Strings
  import opened Strconv

  const NONCE_SIZE: nat := 12
  const TAG_SIZE: nat := 16

  /** An authenticated cipher: `seal` and `open` take key, nonce and text. */
  datatype Aead = Aead(
    seal: (Bytes, Bytes, Bytes) -> Bytes,
    open: (Bytes, Bytes, Bytes) -> Option<Bytes>)
  {
    ghost predicate Correct() {
      forall k, n, p :: open(k, n, seal(k, n, p)) == Some(p) && |seal(k, n, p)| == |p| + TAG_SIZE
    }
  }

  /** [12-byte nonce][ciphertext and tag], the nonce drawn by the caller. */
  function Encrypt(aead: Aead, key: Bytes, nonce: Bytes, plaintext: Bytes): Bytes {
    nonce + aead.seal(key, nonce, plaintext)
  }

  function Decrypt(aead: Aead, key: Bytes, ciphertext: Bytes): Option<Bytes> {
    if |ciphertext| < NONCE_SIZE + TAG_SIZE then None
    else aead.open(key, ciphertext[..NONCE_SIZE], ciphertext[NONCE_SIZE..])
  }

  lemma DecryptUndoesEncrypt(aead: Aead, key: Bytes, nonce: Bytes, plaintext: Bytes)
    requires aead.Correct() && |nonce| == NONCE_SIZE
    ensures Decrypt(aead, key, Encrypt(aead, key, nonce, plaintext)) == Some(plaintext)
  {
    var c := Encrypt(aead, key, nonce, plaintext);
    assert c[..NONCE_SIZE] == nonce && c[NONCE_SIZE..] == aead.seal(key, nonce, plaintext);
  }

  /** Stored bytes are read as twelve of nonce and the sealed text behind them,
      and nothing shorter than an empty text with its tag is read at all. */
  lemma NonceComesFirst(aead: Aead, key: Bytes, nonce: Bytes, text: Bytes)
    requires |nonce| == 12
    ensures |text| >= 16 ==> Decrypt(aead, key, nonce + text) == aead.open(key, nonce, text)
    ensures |text| < 16 ==> Decrypt(aead, key, nonce + text) == None
    ensures Encrypt(aead, key, nonce, text) == nonce + aead.seal(key, nonce, text)
  {
    assert (nonce + text)[..12] == nonce && (nonce + text)[12..] == text;
  }

  /** `stored` opens to `plaintext`, nonce first. */
  lemma OpensIff(aead: Aead, key: Bytes, stored: Bytes, plaintext: Bytes)
    ensures Decrypt(aead, key, stored) == Some(plaintext)
            <==> |stored| >= 28 && aead.open(key, stored[..12], stored[12..]) == Some(plaintext)
    ensures |stored| < 28 ==> Decrypt(aead, key, stored) == None
  {
    if |stored| >= 28 {
      assert stored == stored[..12] + stored[12..];
      NonceComesFirst(aead, key, stored[..12], stored[12..]);
    }
  }
}
