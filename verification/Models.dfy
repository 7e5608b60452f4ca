/** The values the gateway resolves a bucket to (internal/registry/models.go). */
module Models {
  import opened Strings

  type Id = nat

  /** Everything a request handler needs to talk to the upstream. */
  datatype ResolvedBucket = ResolvedBucket(
    storeId: Id,
    tenantId: Id,
    backendType: string,
    configEnc: Bytes,
    gatewayBucket: string,
    backendBucket: string,
    backendPrefix: string,
    presignedMode: string,
    allowedOrigins: seq<string>)
  {
    function PrefixKey(key: string): (r: string)
      ensures r == if backendPrefix == "" then key else backendPrefix + "/" + key
    {
      AddPrefix(backendPrefix, key)
    }

    function StripPrefix(backendKey: string): (r: string)
      ensures backendPrefix == "" ==> r == backendKey
      ensures backendPrefix != "" && backendPrefix + "/" <= backendKey ==> backendPrefix + "/" + r == backendKey
      ensures backendPrefix != "" && !(backendPrefix + "/" <= backendKey) ==> r == backendKey
    {
      DropPrefix(backendPrefix, backendKey)
    }
  }

  function AddPrefix(prefix: string, key: string): string {
    if prefix == "" then key
    else if key == "" then prefix + "/"
    else prefix + "/" + key
  }

  function DropPrefix(prefix: string, backendKey: string): string {
    if prefix == "" then backendKey else TrimPrefix(backendKey, prefix + "/")
  }

  /** Splits a backend_bucket value into a bucket name and a key prefix. */
  function ParseBackendBucket(raw: string): (r: (string, string))
    ensures '/' !in r.0
    ensures '/' in raw ==> raw == r.0 + "/" + r.1
    ensures '/' !in raw ==> r == (raw, "")
  {
    var i := IndexByte(raw, '/');
    if i >= 0 then
      assert raw[i] in raw;
      (raw[..i], raw[i + 1..])
    else
      (raw, "")
  }

  /** What `AddPrefix` puts in front of a key. */
  function Root(prefix: string): string {
    if prefix == "" then "" else prefix + "/"
  }

  lemma AddPrefixIsRoot(prefix: string, key: string)
    ensures AddPrefix(prefix, key) == Root(prefix) + key
  {
  }

  lemma DropPrefixCutsRoot(prefix: string, key: string)
    ensures DropPrefix(prefix, Root(prefix) + key) == key
  {
  }

  /** Translation there and back is the identity, on every gateway key and on
      every backend key under the prefix. */
  lemma TranslationRoundTrip(prefix: string, key: string, backendKey: string)
    requires Root(prefix) <= backendKey
    ensures DropPrefix(prefix, AddPrefix(prefix, key)) == key
    ensures AddPrefix(prefix, DropPrefix(prefix, backendKey)) == backendKey
  {
    AddPrefixIsRoot(prefix, key);
    DropPrefixCutsRoot(prefix, key);
    assert backendKey == Root(prefix) + backendKey[|Root(prefix)|..];
    AddPrefixIsRoot(prefix, DropPrefix(prefix, backendKey));
  }

  /** Translation keeps the order of keys and the prefix relation. */
  lemma TranslationKeepsOrder(prefix: string, a: string, b: string)
    ensures Less(AddPrefix(prefix, a), AddPrefix(prefix, b)) <==> Less(a, b)
    ensures AddPrefix(prefix, a) == AddPrefix(prefix, b) <==> a == b
    ensures AddPrefix(prefix, a) <= AddPrefix(prefix, b) <==> a <= b
  {
    var r := Root(prefix);
    AddPrefixIsRoot(prefix, a);
    AddPrefixIsRoot(prefix, b);
    LessUnderPrefix(r, a, b);
    assert (r + a)[|r|..] == a && (r + b)[|r|..] == b;
    if a <= b { assert (r + b)[..|r + a|] == r + a; }
    if r + a <= r + b { assert b[..|a|] == (r + b)[|r|..|r + a|]; }
  }

  lemma DocumentedMapping()
    ensures ParseBackendBucket("prod-uploads-eu/team-alpha/uploads") == ("prod-uploads-eu", "team-alpha/uploads")
  {
    hide ParseBackendBucket;
    ParseReadsBack("prod-uploads-eu", "team-alpha/uploads");
    assert "prod-uploads-eu" + "/" + "team-alpha/uploads" == "prod-uploads-eu/team-alpha/uploads";
  }

  /** The examples of the gateway's documentation. */
  lemma DocumentedKeys()
    ensures AddPrefix("team-alpha/uploads", "photo.jpg") == "team-alpha/uploads/photo.jpg"
    ensures AddPrefix("team-alpha/uploads", "") == "team-alpha/uploads/"
    ensures AddPrefix("team-alpha/uploads", "2024/") == "team-alpha/uploads/2024/"
    ensures DropPrefix("team-alpha/uploads", "team-alpha/uploads/photo.jpg") == "photo.jpg"
  {
    DropPrefixCutsRoot("team-alpha/uploads", "photo.jpg");
    assert Root("team-alpha/uploads") + "photo.jpg" == "team-alpha/uploads/photo.jpg";
  }

  /** A mapping value is read back as the bucket and prefix it was written as. */
  lemma ParseReadsBack(bucket: string, prefix: string)
    requires '/' !in bucket
    ensures ParseBackendBucket(bucket) == (bucket, "")
    ensures ParseBackendBucket(bucket + "/" + prefix) == (bucket, prefix)
  {
    var raw := bucket + "/" + prefix;
    assert raw[|bucket|] == '/';
    var (b, p) := ParseBackendBucket(raw);
    assert b + ['/'] + p == bucket + ['/'] + prefix;
    FirstCutUnique(b, p, bucket, prefix, '/');
  }
}
