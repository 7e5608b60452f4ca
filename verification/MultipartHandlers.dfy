/** The multipart handlers (internal/api/s3/multipart.go) over the tracking table
    (internal/registry/postgres.go) and either backend. Every request is one step
    of the machines of module Multipart, so what holds of all their histories
    holds of the handlers. */
module MultipartHandlers {
  import opened Strings
  import opened Strconv
  import opened Models
  import opened Compose
  import opened Multipart

  // ---------------------------------------------------------------------------
  // The tracking table
  // ---------------------------------------------------------------------------

  class UploadTable {
    var records: map<string, Record>
    /** Statements without an answer. */
    ghost var failures: nat

    method Available() returns (up: bool)
      modifies this`failures
      ensures failures == old(failures) + if up then 0 else 1
    {
      up := *;
      failures := failures + if up then 0 else 1;
    }

    method CreateMultipartUpload(gw: string, r: Record) returns (ok: bool)
      modifies this
      ensures ok ==> gw !in old(records) && records == old(records)[gw := r]
      ensures !ok ==> records == old(records)
      ensures failures >= old(failures)
      ensures ok <==> failures == old(failures) && gw !in old(records)
    {
      ok := Available();
      ok := ok && gw !in records;
      if ok {
        records := records[gw := r];
      }
    }

    method GetMultipartUpload(gw: string) returns (r: Option<Record>)
      modifies this`failures
      ensures r.Some? ==> gw in records && r.value == records[gw]
      ensures failures >= old(failures)
      ensures r.Some? <==> failures == old(failures) && gw in records
    {
      var up := Available();
      r := if up && gw in records then Some(records[gw]) else None;
    }

    method DeleteMultipartUpload(gw: string) returns (ok: bool)
      modifies this
      ensures records == if ok then old(records) - {gw} else old(records)
      ensures failures == old(failures) + if ok then 0 else 1
    {
      ok := Available();
      if ok {
        records := records - {gw};
      }
    }

    /** The record, if it was made for this bucket and key. */
    method FindUpload(gw: string, bucket: string, key: string) returns (r: Option<Record>)
      modifies this`failures
      ensures r.Some? ==> gw in records && r.value == records[gw] == Record(r.value.backendId, bucket, key)
      ensures failures >= old(failures)
      ensures r.Some? <==> failures == old(failures)
                           && gw in records && records[gw].bucket == bucket && records[gw].key == key
    {
      r := GetMultipartUpload(gw);
      if r.Some? && !(r.value.bucket == bucket && r.value.key == key) {
        r := None;
      }
    }
  }

  /** `resolveBucket`: it may fail, and the request then ends. */
  class Resolver {
    ghost var failures: nat

    method ResolveBucket() returns (ok: bool)
      modifies this`failures
      ensures failures == old(failures) + if ok then 0 else 1
    {
      ok := *;
      failures := failures + if ok then 0 else 1;
    }
  }

  function PartNumber(partNumber: string): Option<int> {
    match ParseInt(partNumber, 10)
    case Some(n) => if ValidNumber(n) then Some(n) else None
    case None => None
  }

  /** A part number is a decimal numeral from 1 to 10000. */
  lemma PartNumberIff(partNumber: string, n: int)
    ensures PartNumber(partNumber) == Some(n) <==> ParseInt(partNumber, 10) == Some(n) && 1 <= n <= 10000
    ensures PartNumber(Itoa(1)) == Some(1) && PartNumber(Itoa(10000)) == Some(10000)
    ensures PartNumber(Itoa(0)) == PartNumber(Itoa(10001)) == None
  {
    hide Itoa, ParseInt;
    forall m: nat | m <= 10001 ensures ParseInt(Itoa(m), 10) == Some(m) {
      ParseFormatted(m);
      assert FormatInt(m) == Itoa(m);
    }
  }

  // What a request that is not refused adds to the history: one event of its own.

  ghost predicate CreateOnly(did: seq<Event>, bucket: Bucket, key: string, gw: string, recorded: bool) {
    |did| == 1 && did[0].Create? && did[0].bucket == bucket && did[0].key == key && did[0].gw == gw
    && did[0].recorded == recorded
  }

  ghost predicate UploadOnly(did: seq<Event>, gw: string, bucket: Bucket, key: string, number: int, body: Bytes) {
    |did| == 1 && did[0].Upload? && did[0].body <= body
    && did[0] == Upload(gw, bucket, key, number, did[0].body, true)
  }

  ghost predicate CompleteOnly(did: seq<Event>, gw: string, bucket: Bucket, key: string, numbers: seq<int>) {
    |did| == 1 && did[0].Complete? && did[0].gw == gw && did[0].bucket == bucket && did[0].key == key
    && did[0].numbers == numbers
  }

  ghost predicate AbortOnly(did: seq<Event>, gw: string, bucket: Bucket, key: string) {
    |did| == 1 && did[0].Abort? && did[0].gw == gw && did[0].bucket == bucket && did[0].key == key
  }

  // ---------------------------------------------------------------------------
  // On GCS
  // ---------------------------------------------------------------------------

  lemma UnderPrefixIsNoUserKey(id: string, k: string)
    requires PartPrefix(id) <= k
    ensures !UserKey(k)
  {
    assert k[..11] == PartPrefix(id)[..11] == "_sgw_parts/";
  }

  lemma RemovedAreUnder(objects: Objects, id: string, removed: set<string>)
    requires forall k :: k in removed ==> PartPrefix(id) <= k
    ensures WithoutParts(objects, id, removed) == objects - removed
  {
    hide PartPrefix;
    assert (set k | k in removed && PartPrefix(id) <= k) == removed;
  }

  lemma PartIsPast(keys: set<string>, clock: nat, id: string, n: int)
    requires NotFuture(keys, clock)
    ensures NotFuture(keys + {PartKey(id, n)}, clock)
  {
    hide PartKey;
    forall i: nat, t: nat ensures TmpKey(i, t) != PartKey(id, n) { TmpIsNoPart(i, t, id, n); }
  }

  lemma UserKeysArePast(keys: set<string>, clock: nat)
    requires forall k :: k in keys ==> UserKey(k)
    ensures NotFuture(keys, clock)
  {
    forall i: nat, t: nat ensures TmpKey(i, t) !in keys { assert "_sgw_tmp/" <= TmpKey(i, t); }
  }

  /** What the compose tree leaves is what the GCS step says. */
  lemma TreeMeetsStep(before: Objects, after: Objects, partKeys: seq<string>, dest: string, ok: bool,
                      leaked: set<string>, from: nat, to: nat) returns (left: Objects)
    requires Assembled(before, after, partKeys, dest, ok, leaked)
    requires leaked !! before.Keys && AllMade(leaked, from, to) && UserKey(dest)
    ensures ok ==> AllPresent(before, partKeys)
    ensures after == GcsCompleted(before, partKeys, dest, ok, left)
  {
    hide Concat;
    left := map k | k in leaked :: after[k];
    forall k | k in leaked ensures "_sgw_tmp/" <= k {
      var i: nat, t: nat :| from < t <= to && k == TmpKey(i, t);
    }
    assert dest !in leaked;
    assert NewTmpOnly(before, left) == left;
    SplitOff(before, after, partKeys, dest, ok, leaked, left);
  }

  lemma SplitOff(before: Objects, after: Objects, partKeys: seq<string>, dest: string, ok: bool,
                 leaked: set<string>, left: Objects)
    requires Assembled(before, after, partKeys, dest, ok, leaked)
    requires leaked !! before.Keys && dest !in leaked && left == map k | k in leaked :: after[k]
    ensures after == (if ok then before[dest := Concat(before, partKeys)] else before) + left
  {
    hide Concat;
  }

  class GcsGateway {
    const table: UploadTable
    const be: GcsBucket
    const resolver: Resolver
    /** The bucket at first, and what the requests since have done. */
    ghost const start: Objects
    ghost var history: seq<Event>

    ghost function Machine(): Gcs
      reads this
    {
      GcsRun(start, history)
    }

    ghost predicate Valid()
      reads this, table, be
    {
      && Unstaged(start) && (forall e :: e in history ==> InDomain(e))
      && table.records == Machine().t.records
      && be.objects == Machine().objects && Elements(be.pending) <= Machine().pending
      && NotFuture(be.objects.Keys, be.clock)
      && (forall time :: time in Machine().t.usedTimes ==> time <= be.clock)
    }

    constructor (table: UploadTable, be: GcsBucket, resolver: Resolver)
      requires table.records == map[] && be.pending == [] && Unstaged(be.objects)
      ensures this.table == table && this.be == be && this.resolver == resolver && Valid() && history == []
    {
      this.table := table;
      this.be := be;
      this.resolver := resolver;
      start := be.objects;
      history := [];
      new;
      UserKeysArePast(be.objects.Keys, be.clock);
    }

    method CreateMultipartUpload(bucket: Bucket, key: string, gw: string)
      returns (r: Option<string>, ghost did: seq<Event>)
      requires Valid() && gw !in Machine().t.usedIds
      modifies this`history, table, resolver, be`clock, be`objects, be`failedDeletes, be`failedRequests
      ensures Valid() && history == old(history) + did
      ensures resolver.failures >= old(resolver.failures) && table.failures >= old(table.failures)
      // Refused only without a key, or by a failure.
      ensures r.None? ==> key == "" || resolver.failures > old(resolver.failures)
                          || table.failures > old(table.failures) || gw in old(table.records)
      ensures r.Some? ==> r.value == gw && Accepts(Machine().t, gw, bucket, key)
      ensures r.None? ==> table.records == old(table.records)
      ensures did == [] || (CreateOnly(did, bucket, key, gw, r.Some?) && Creates(old(Machine()).t, did[0]))
      ensures r.Some? ==> did != []
    {
      hide GcsRun, NotFuture, GcsUploadId, BackendKey, PartPrefix, WithoutParts;
      if key == "" {
        return None, [];
      }
      var resolved := resolver.ResolveBucket();
      if !resolved {
        return None, [];
      }
      var id, t := be.CreateMultipartUpload(BackendKey(bucket, key));
      var recorded := table.CreateMultipartUpload(gw, Record(id, bucket.name, key));
      ghost var removed: set<string> := {};
      if !recorded {
        var _, found, _ := be.AbortMultipartUpload(id);
        removed := found;
        RemovedAreUnder(old(be.objects), id, removed);
      }
      PastStaysPast(old(be.objects).Keys, old(be.clock), be.objects.Keys, be.clock);
      ghost var e := Create(bucket, key, gw, t, recorded, removed, {});
      GcsRunStep(start, history, e);
      history, did := history + [e], [e];
      r := if recorded then Some(gw) else None;
    }

    method UploadPart(gw: string, bucket: Bucket, key: string, partNumber: string, body: Bytes)
      returns (ok: bool, ghost did: seq<Event>)
      requires Valid()
      modifies this`history, table`failures, resolver, be`objects, be`failedRequests
      ensures Valid() && history == old(history) + did
      ensures resolver.failures >= old(resolver.failures) && table.failures >= old(table.failures)
      // Refused only for the number, without a record, or by a failure.
      ensures !ok ==> PartNumber(partNumber).None?
                      || !(gw in old(table.records) && old(table.records)[gw].bucket == bucket.name
                              && old(table.records)[gw].key == key)
                      || resolver.failures > old(resolver.failures) || table.failures > old(table.failures)
                      || be.failedRequests > old(be.failedRequests)
      ensures did == [] || (PartNumber(partNumber).Some? && Accepts(old(Machine()).t, gw, bucket, key)
                            && UploadOnly(did, gw, bucket, key, PartNumber(partNumber).value, body))
      ensures Machine().t.received == if did == [] then old(Machine()).t.received else
                old(Machine()).t.received[(gw, PartNumber(partNumber).value) := did[0].body]
      ensures ok ==> did != [] && did[0].body == body
                     && Received(Machine().t, gw, PartNumber(partNumber).value) == Some(body)
    {
      hide GcsRun, NotFuture, BackendKey, PartKey;
      var number := PartNumber(partNumber);
      if number.None? {
        return false, [];
      }
      var mu := table.FindUpload(gw, bucket.name, key);
      if mu.None? {
        return false, [];
      }
      var resolved := resolver.ResolveBucket();
      if !resolved {
        return false, [];
      }
      ghost var stored;
      did := [];
      ok, stored := be.UploadPart(mu.value.backendId, number.value, body);
      if stored.Some? {
        PartIsPast(old(be.objects).Keys, be.clock, mu.value.backendId, number.value);
        assert be.objects.Keys == old(be.objects).Keys + {PartKey(mu.value.backendId, number.value)};
        ghost var e := Upload(gw, bucket, key, number.value, stored.value, true);
        GcsRunStep(start, history, e);
        history, did := history + [e], [e];
      }
    }

    /** After any history, success means the object is the last bytes stored for
        each listed part of this upload, in listed order. */
    method CompleteMultipartUpload(gw: string, bucket: Bucket, key: string, numbers: seq<int>)
      returns (ok: bool, ghost did: seq<Event>)
      requires Valid() && UserKey(BackendKey(bucket, key))
      modifies this`history, table, resolver, be
      ensures Valid() && history == old(history) + did
      ensures resolver.failures >= old(resolver.failures) && table.failures >= old(table.failures)
      // Refused only without a record, for a part that is not there, or by a failure.
      ensures !ok ==> !(gw in old(table.records) && old(table.records)[gw].bucket == bucket.name
                              && old(table.records)[gw].key == key)
                      || resolver.failures > old(resolver.failures) || table.failures > old(table.failures)
                      || be.failedComposes > old(be.failedComposes) || be.failedRequests > old(be.failedRequests)
                      || !AllPresent(old(be.objects), PartKeys(old(table.records)[gw].backendId, numbers))
      ensures did == [] || (Accepts(old(Machine()).t, gw, bucket, key) && CompleteOnly(did, gw, bucket, key, numbers))
      ensures Machine().t.received == old(Machine()).t.received
      // The record stays unless the object is reported complete, and may stay then.
      ensures !ok ==> table.records == old(table.records)
      ensures ok ==> did != [] && table.records in {old(table.records), old(table.records) - {gw}}
      ensures ok ==> Accepts(old(Machine().t), gw, bucket, key) && AllReceived(old(Machine().t), gw, numbers)
                     && BackendKey(bucket, key) in be.objects
                     && be.objects[BackendKey(bucket, key)] == Assembly(old(Machine().t), gw, numbers)
      ensures forall k :: UserKey(k) && k != BackendKey(bucket, key) ==>
                (k in be.objects <==> k in old(be.objects))
                && (k in be.objects && k in old(be.objects) ==> be.objects[k] == old(be.objects)[k])
    {
      hide GcsRun, NotFuture, BackendKey, PartKey, GcsCompleted, PartKeys, Assembled, AllMade;
      var dest := BackendKey(bucket, key);
      var mu := table.FindUpload(gw, bucket.name, key);
      if mu.None? {
        return false, [];
      }
      var resolved := resolver.ResolveBucket();
      if !resolved {
        return false, [];
      }
      UserKeysArePast({dest}, be.clock);
      ghost var before, from := be.objects, be.clock;
      ghost var composed, leaked;
      ok, composed, leaked := be.CompleteMultipartUpload(mu.value.backendId, numbers, dest);
      ghost var left := TreeMeetsStep(before, be.objects, PartKeys(mu.value.backendId, numbers), dest,
                                      composed, leaked, from, be.clock);
      ghost var forgotten := false;
      if ok {
        var deleted := table.DeleteMultipartUpload(gw);
        forgotten := deleted;
      }
      ghost var e := Complete(gw, bucket, key, numbers, composed, forgotten, left, None, {});
      GcsRunStep(start, history, e);
      GcsCompletionIsRight(start, history, e);
      history, did := history + [e], [e];
    }

    method AbortMultipartUpload(gw: string, bucket: Bucket, key: string)
      returns (ok: bool, ghost did: seq<Event>, ghost swept: bool)
      requires Valid()
      modifies this`history, table, resolver, be`objects, be`failedDeletes, be`failedRequests
      ensures Valid() && history == old(history) + did
      ensures resolver.failures >= old(resolver.failures) && table.failures >= old(table.failures)
      // Refused only without a record, or by a failure.
      ensures !ok ==> !(gw in old(table.records) && old(table.records)[gw].bucket == bucket.name
                              && old(table.records)[gw].key == key)
                      || resolver.failures > old(resolver.failures) || table.failures > old(table.failures)
      ensures forall k :: UserKey(k) ==>
                (k in be.objects <==> k in old(be.objects))
                && (k in be.objects && k in old(be.objects) ==> be.objects[k] == old(be.objects)[k])
      ensures did == [] || (Accepts(old(Machine()).t, gw, bucket, key) && AbortOnly(did, gw, bucket, key))
      ensures Machine().t.received == old(Machine()).t.received
      ensures if ok then table.records in {old(table.records), old(table.records) - {gw}}
              else table.records == old(table.records)
      ensures ok <==> did != []
      // Staged parts go only of uploads whose ID is this one's or continues it, and then all of
      // them when neither listing nor a delete fails.
      ensures did == [] ==> be.objects == old(be.objects)
      ensures forall id, n :: PartKey(id, n) in old(be.objects) && PartKey(id, n) !in be.objects ==>
                gw in old(table.records) && Reaches(old(table.records)[gw].backendId, id)
      ensures swept ==> ok && gw in old(table.records)
                        && forall id, n :: Reaches(old(table.records)[gw].backendId, id)
                                           ==> PartKey(id, n) !in be.objects
    {
      hide GcsRun, NotFuture, WithoutParts, PartPrefix, PartKey, Reaches;
      swept := false;
      var mu := table.FindUpload(gw, bucket.name, key);
      if mu.None? {
        return false, [], false;
      }
      var resolved := resolver.ResolveBucket();
      if !resolved {
        return false, [], false;
      }
      var done, removed, _ := be.AbortMultipartUpload(mu.value.backendId);
      forall id, n ensures PartPrefix(mu.value.backendId) <= PartKey(id, n) <==> Reaches(mu.value.backendId, id) {
        PartPrefixReachesIff(mu.value.backendId, id, n);
      }
      forall k | k in removed ensures !UserKey(k) { UnderPrefixIsNoUserKey(mu.value.backendId, k); }
      swept := done && be.failedDeletes == old(be.failedDeletes);
      RemovedAreUnder(old(be.objects), mu.value.backendId, removed);
      PastStaysPast(old(be.objects).Keys, be.clock, be.objects.Keys, be.clock);
      var deleted := table.DeleteMultipartUpload(gw);
      ghost var e := Abort(gw, bucket, key, removed, {}, deleted);
      GcsRunStep(start, history, e);
      history, did := history + [e], [e];
      ok := true;
    }

    /** The background deletion of a part of a completed upload, if it succeeds. */
    method DeletePending(i: nat) returns (ghost did: seq<Event>)
      requires Valid() && i < |be.pending|
      modifies this`history, be`objects, be`failedDeletes
      ensures Valid() && history == old(history) + did
      ensures be.failedDeletes >= old(be.failedDeletes)
      ensures did == [] <==> be.failedDeletes > old(be.failedDeletes)
      ensures did == [] || did == [Sweep(be.pending[i])]
      ensures forall k :: UserKey(k) ==>
                (k in be.objects <==> k in old(be.objects))
                && (k in be.objects && k in old(be.objects) ==> be.objects[k] == old(be.objects)[k])
    {
      hide GcsRun, NotFuture;
      var ok := be.DeletePending(i);
      did := [];
      if ok {
        ghost var k := be.pending[i];
        assert k in Elements(be.pending);
        PendingIsStaged(start, history);
        PastStaysPast(old(be.objects).Keys, be.clock, be.objects.Keys, be.clock);
        GcsRunStep(start, history, Sweep(k));
        history, did := history + [Sweep(k)], [Sweep(k)];
      }
    }
  }

  // ---------------------------------------------------------------------------
  // On the local backend
  // ---------------------------------------------------------------------------

  /** The first `n` listed parts, and the beginning of the next. */
  ghost predicate PartlyCopied(parts: map<(string, int), Bytes>, id: string, numbers: seq<int>, data: Bytes) {
    exists n: nat, cut: Bytes ::
      && n <= |numbers| && PartsPresent(parts, id, numbers[..n])
      && data == ConcatParts(parts, id, numbers[..n]) + cut
      && (cut == [] || (n < |numbers| && (id, numbers[n]) in parts && cut <= parts[(id, numbers[n])]))
  }

  class LocalBackend {
    var objects: Objects
    var parts: map<(string, int), Bytes>
    /** Calls of the file system that failed. */
    ghost var failures: nat

    method Available() returns (up: bool)
      modifies this`failures
      ensures failures == old(failures) + if up then 0 else 1
    {
      up := *;
      failures := failures + if up then 0 else 1;
    }

    method CreateMultipartUpload(key: string, now: nat) returns (uploadId: Option<string>)
      modifies this`failures
      ensures uploadId.Some? ==> uploadId.value == LocalUploadId(key, now)
      ensures failures == old(failures) + if uploadId.Some? then 0 else 1
    {
      var made := Available();
      uploadId := if made then Some(LocalUploadId(key, now)) else None;
    }

    /** Writes a part over what was there, as far as it can be read. */
    method UploadPart(uploadId: string, number: int, body: Bytes) returns (ok: bool, ghost stored: Option<Bytes>)
      modifies this`parts, this`failures
      ensures failures >= old(failures) && (ok <==> failures == old(failures))
      ensures ok ==> stored == Some(body)
      ensures stored.Some? ==> stored.value <= body && parts == old(parts)[(uploadId, number) := stored.value]
      ensures stored.None? ==> parts == old(parts)
    {
      var openable := Available();
      stored := None;
      if !openable {
        return false, None;
      }
      var copied: nat :| copied <= |body|;
      parts := parts[(uploadId, number) := body[..copied]];
      assert copied == |body| ==> body[..copied] == body;
      ok, stored := copied == |body|, Some(body[..copied]);
      failures := failures + if ok then 0 else 1;
    }

    /** Creates the object and appends the listed parts to it, one by one. The
        object is truncated before the first part is opened, and keeps what was
        copied when a part fails: a failure loses the old object exactly when
        the new one has been created. */
    method CompleteMultipartUpload(uploadId: string, numbers: seq<int>, key: string)
      returns (ok: bool, ghost created: bool, ghost cleaned: set<int>)
      modifies this
      ensures ok ==> created && PartsPresent(old(parts), uploadId, numbers)
                     && objects == old(objects)[key := ConcatParts(old(parts), uploadId, numbers)]
                     && parts == WithoutNumbers(old(parts), uploadId, cleaned)
      ensures !ok ==> parts == old(parts)
      ensures failures >= old(failures)
      ensures !ok ==> failures > old(failures) || !PartsPresent(old(parts), uploadId, numbers)
      ensures !created ==> objects == old(objects)
      ensures !ok && created ==> key in objects && objects == old(objects)[key := objects[key]]
                                 && PartlyCopied(parts, uploadId, numbers, objects[key])
    {
      hide ConcatParts;
      cleaned := {};
      created := false;
      ok := Available();
      if !ok {
        return;
      }
      objects, created := objects[key := []], true;
      NoParts(parts, uploadId, numbers);
      for i := 0 to |numbers|
        invariant failures == old(failures)
        invariant parts == old(parts) && PartsPresent(parts, uploadId, numbers[..i])
        invariant objects == old(objects)[key := ConcatParts(parts, uploadId, numbers[..i])]
      {
        var opens := Available();
        if !opens || (uploadId, numbers[i]) !in parts {
          CutShort(parts, uploadId, numbers, i, []);
          return false, true, {};
        }
        var part := parts[(uploadId, numbers[i])];
        var copied: nat :| copied <= |part|;
        if copied < |part| {
          CutShort(parts, uploadId, numbers, i, part[..copied]);
          objects := objects[key := objects[key] + part[..copied]];
          failures := failures + 1;
          return false, true, {};
        }
        OnePartMore(parts, uploadId, numbers, i);
        objects := objects[key := objects[key] + part];
      }
      assert numbers[..|numbers|] == numbers;
      var _, gone := RemoveAll(uploadId);
      cleaned := gone;
    }

    /** Removes the upload's directory, or some of the parts in it. */
    method RemoveAll(uploadId: string) returns (ok: bool, ghost cleaned: set<int>)
      modifies this`parts, this`failures
      ensures failures >= old(failures) && (ok <==> failures == old(failures))
      ensures parts == WithoutNumbers(old(parts), uploadId, cleaned)
      ensures ok ==> forall p :: p in parts ==> p.0 != uploadId
    {
      cleaned := {};
      var left := set p | p in parts && p.0 == uploadId;
      while left != {}
        invariant failures == old(failures)
        invariant parts == WithoutNumbers(old(parts), uploadId, cleaned)
        invariant forall p :: p in parts && p.0 == uploadId <==> p in left
      {
        var up := Available();
        if !up {
          return false, cleaned;
        }
        var p :| p in left;
        left := left - {p};
        parts := parts - {p};
        cleaned := cleaned + {p.1};
      }
      ok := true;
    }

    method AbortMultipartUpload(uploadId: string) returns (ok: bool, ghost cleaned: set<int>)
      modifies this`parts, this`failures
      ensures failures >= old(failures) && (ok <==> failures == old(failures))
      ensures parts == WithoutNumbers(old(parts), uploadId, cleaned)
      ensures ok ==> forall p :: p in parts ==> p.0 != uploadId
    {
      ok, cleaned := RemoveAll(uploadId);
    }
  }

  /** With the first listed part missing nothing can have been copied. */
  lemma FirstPartMissing(parts: map<(string, int), Bytes>, id: string, numbers: seq<int>, data: Bytes)
    requires numbers != [] && (id, numbers[0]) !in parts && PartlyCopied(parts, id, numbers, data)
    ensures data == []
  {
    var n: nat, cut: Bytes :|
      && n <= |numbers| && PartsPresent(parts, id, numbers[..n])
      && data == ConcatParts(parts, id, numbers[..n]) + cut
      && (cut == [] || (n < |numbers| && (id, numbers[n]) in parts && cut <= parts[(id, numbers[n])]));
    assert n == 0;
  }

  /** A completion that lists a part never uploaded, over an existing object: GCS
      keeps the object, and the local backend, once it has created the new one,
      has nothing left of it. */
  lemma MissingPartLosesObject(upstream: bool) returns (events: seq<Event>, e: Event)
    ensures var b := Bucket("b", "");
            && events == [Put(b, "k", "old"), Create(b, "k", "g", 1, true, {}, {})]
            && e == Complete("g", b, "k", [1], upstream, false, map[], Some([]), {})
    ensures var l := LocalRun(map[], events);
            && Accepts(l.t, "g", Bucket("b", ""), "k")
            && PartlyCopied(l.parts, l.t.records["g"].backendId, [1], [])
    ensures var after := GcsStep(GcsRun(map[], events), e).objects;
            "k" in after && after["k"] == "old"
    ensures var after := LocalStep(LocalRun(map[], events), e).objects;
            "k" in after && after["k"] == []
  {
    hide PartKey, GcsUploadId, LocalUploadId;
    var b := Bucket("b", "");
    var e0, e1 := Put(b, "k", "old"), Create(b, "k", "g", 1, true, {}, {});
    events, e := [e0, e1], Complete("g", b, "k", [1], upstream, false, map[], Some([]), {});
    assert [] + [e0] == [e0] && [e0] + [e1] == events;
    GcsRunStep(map[], [], e0);
    GcsRunStep(map[], [e0], e1);
    LocalRunStep(map[], [], e0);
    LocalRunStep(map[], [e0], e1);
    var l := LocalRun(map[], events);
    assert l.parts == map[];
    NoParts(l.parts, l.t.records["g"].backendId, [1]);
    CutShort(l.parts, l.t.records["g"].backendId, [1], 0, []);
    var id := GcsRun(map[], events).t.records["g"].backendId;
    OnePartKey(id);
  }

  lemma OnePartKey(id: string)
    ensures PartKey(id, 1) in PartKeys(id, [1]) && PartKey(id, 1) != "k"
  {
    hide Pad5;
    assert PartKeys(id, [1])[0] == PartKey(id, 1);
    assert |PartKey(id, 1)| > 1;
  }

  lemma NoParts(parts: map<(string, int), Bytes>, id: string, numbers: seq<int>)
    ensures ConcatParts(parts, id, numbers[..0]) == []
  {
  }

  lemma CutShort(parts: map<(string, int), Bytes>, id: string, numbers: seq<int>, i: nat, cut: Bytes)
    requires i < |numbers| && PartsPresent(parts, id, numbers[..i])
    requires cut == [] || ((id, numbers[i]) in parts && cut <= parts[(id, numbers[i])])
    ensures PartlyCopied(parts, id, numbers, ConcatParts(parts, id, numbers[..i]) + cut)
    ensures ConcatParts(parts, id, numbers[..i]) + [] == ConcatParts(parts, id, numbers[..i])
  {
    hide ConcatParts;
  }

  lemma OnePartMore(parts: map<(string, int), Bytes>, id: string, numbers: seq<int>, i: nat)
    requires i < |numbers| && PartsPresent(parts, id, numbers[..i]) && (id, numbers[i]) in parts
    ensures PartsPresent(parts, id, numbers[..i + 1])
    ensures ConcatParts(parts, id, numbers[..i + 1])
            == ConcatParts(parts, id, numbers[..i]) + parts[(id, numbers[i])]
  {
    assert numbers[..i + 1][..i] == numbers[..i];
  }

  class LocalGateway {
    const table: UploadTable
    const be: LocalBackend
    const resolver: Resolver
    ghost const start: Objects
    ghost var history: seq<Event>

    ghost function Machine(): Local
      reads this
    {
      LocalRun(start, history)
    }

    ghost predicate Valid()
      reads this, table, be
    {
      && table.records == Machine().t.records
      && be.objects == Machine().objects && be.parts == Machine().parts
    }

    constructor (table: UploadTable, be: LocalBackend, resolver: Resolver)
      requires table.records == map[] && be.parts == map[]
      ensures this.table == table && this.be == be && this.resolver == resolver && Valid() && history == []
    {
      this.table := table;
      this.be := be;
      this.resolver := resolver;
      start := be.objects;
      history := [];
    }

    /** `now` is a clock reading no upload has had. */
    method CreateMultipartUpload(bucket: Bucket, key: string, gw: string, now: nat)
      returns (r: Option<string>, ghost did: seq<Event>)
      requires Valid() && gw !in Machine().t.usedIds && now !in Machine().t.usedTimes
      modifies this`history, table, resolver, be`parts, be`failures
      ensures Valid() && history == old(history) + did
      ensures resolver.failures >= old(resolver.failures) && table.failures >= old(table.failures)
      // Refused only without a key, or by a failure.
      ensures r.None? ==> key == "" || resolver.failures > old(resolver.failures)
                          || table.failures > old(table.failures)
                          || be.failures > old(be.failures) || gw in old(table.records)
      ensures r.Some? ==> r.value == gw && Accepts(Machine().t, gw, bucket, key)
      ensures r.None? ==> table.records == old(table.records)
      ensures did == [] || (CreateOnly(did, bucket, key, gw, r.Some?) && Creates(old(Machine()).t, did[0]))
      ensures r.Some? ==> did != []
    {
      hide LocalRun, LocalUploadId, BackendKey, WithoutNumbers;
      if key == "" {
        return None, [];
      }
      var resolved := resolver.ResolveBucket();
      if !resolved {
        return None, [];
      }
      var id := be.CreateMultipartUpload(BackendKey(bucket, key), now);
      if id.None? {
        return None, [];
      }
      var recorded := table.CreateMultipartUpload(gw, Record(id.value, bucket.name, key));
      ghost var cleaned: set<int> := {};
      if !recorded {
        var _, gone := be.AbortMultipartUpload(id.value);
        cleaned := gone;
      }
      ghost var e := Create(bucket, key, gw, now, recorded, {}, cleaned);
      LocalRunStep(start, history, e);
      history, did := history + [e], [e];
      r := if recorded then Some(gw) else None;
    }

    method UploadPart(gw: string, bucket: Bucket, key: string, partNumber: string, body: Bytes)
      returns (ok: bool, ghost did: seq<Event>)
      requires Valid()
      modifies this`history, table`failures, resolver, be`parts, be`failures
      ensures Valid() && history == old(history) + did
      ensures resolver.failures >= old(resolver.failures) && table.failures >= old(table.failures)
      // Refused only for the number, without a record, or by a failure.
      ensures !ok ==> PartNumber(partNumber).None?
                      || !(gw in old(table.records) && old(table.records)[gw].bucket == bucket.name
                              && old(table.records)[gw].key == key)
                      || resolver.failures > old(resolver.failures) || table.failures > old(table.failures)
                      || be.failures > old(be.failures)
      ensures did == [] || (PartNumber(partNumber).Some? && Accepts(old(Machine()).t, gw, bucket, key)
                            && UploadOnly(did, gw, bucket, key, PartNumber(partNumber).value, body))
      ensures Machine().t.received == if did == [] then old(Machine()).t.received else
                old(Machine()).t.received[(gw, PartNumber(partNumber).value) := did[0].body]
      ensures ok ==> did != [] && did[0].body == body
                     && Received(Machine().t, gw, PartNumber(partNumber).value) == Some(body)
    {
      hide LocalRun;
      var number := PartNumber(partNumber);
      if number.None? {
        return false, [];
      }
      var mu := table.FindUpload(gw, bucket.name, key);
      if mu.None? {
        return false, [];
      }
      var resolved := resolver.ResolveBucket();
      if !resolved {
        return false, [];
      }
      ghost var stored;
      did := [];
      ok, stored := be.UploadPart(mu.value.backendId, number.value, body);
      if stored.Some? {
        ghost var e := Upload(gw, bucket, key, number.value, stored.value, true);
        LocalRunStep(start, history, e);
        history, did := history + [e], [e];
      }
    }

    method CompleteMultipartUpload(gw: string, bucket: Bucket, key: string, numbers: seq<int>)
      returns (ok: bool, ghost did: seq<Event>, ghost created: bool)
      requires Valid()
      modifies this`history, table, resolver, be
      ensures Valid() && history == old(history) + did
      ensures resolver.failures >= old(resolver.failures) && table.failures >= old(table.failures)
      // Refused only without a record, for a part that is not there, or by a failure.
      ensures !ok ==> !(gw in old(table.records) && old(table.records)[gw].bucket == bucket.name
                              && old(table.records)[gw].key == key)
                      || resolver.failures > old(resolver.failures) || table.failures > old(table.failures)
                      || be.failures > old(be.failures)
                      || !PartsPresent(old(be.parts), old(table.records)[gw].backendId, numbers)
      ensures did == [] || (Accepts(old(Machine()).t, gw, bucket, key) && CompleteOnly(did, gw, bucket, key, numbers))
      ensures Machine().t.received == old(Machine()).t.received
      // The record stays unless the object is reported complete, and may stay then.
      ensures !ok ==> table.records == old(table.records)
      ensures ok ==> did != [] && table.records in {old(table.records), old(table.records) - {gw}}
      ensures ok ==> Accepts(old(Machine().t), gw, bucket, key) && AllReceived(old(Machine().t), gw, numbers)
                     && BackendKey(bucket, key) in be.objects
                     && be.objects[BackendKey(bucket, key)] == Assembly(old(Machine().t), gw, numbers)
      // A failure leaves the old object, or a beginning of the new one.
      ensures !created ==> be.objects == old(be.objects)
      ensures !ok && created ==>
                did != [] && did[0].partial.Some? && BackendKey(bucket, key) in be.objects
                && be.objects[BackendKey(bucket, key)] == did[0].partial.value
                && PartlyCopied(be.parts, old(table.records)[gw].backendId, numbers, did[0].partial.value)
      ensures forall k :: k != BackendKey(bucket, key) ==>
                (k in be.objects <==> k in old(be.objects))
                && (k in be.objects && k in old(be.objects) ==> be.objects[k] == old(be.objects)[k])
    {
      hide LocalRun, BackendKey, ConcatParts, WithoutNumbers, PartlyCopied;
      var dest := BackendKey(bucket, key);
      var mu := table.FindUpload(gw, bucket.name, key);
      if mu.None? {
        return false, [], false;
      }
      var resolved := resolver.ResolveBucket();
      if !resolved {
        return false, [], false;
      }
      ghost var cleaned: set<int>;
      ok, created, cleaned := be.CompleteMultipartUpload(mu.value.backendId, numbers, dest);
      ghost var partial := if !ok && created then Some(be.objects[dest]) else None;
      ghost var forgotten := false;
      if ok {
        var deleted := table.DeleteMultipartUpload(gw);
        forgotten := deleted;
      }
      ghost var e := Complete(gw, bucket, key, numbers, ok, forgotten, map[], partial, cleaned);
      LocalRunStep(start, history, e);
      LocalCompletionIsRight(start, history, e);
      history, did := history + [e], [e];
    }

    method AbortMultipartUpload(gw: string, bucket: Bucket, key: string)
      returns (ok: bool, ghost did: seq<Event>)
      requires Valid()
      modifies this`history, table, resolver, be`parts, be`failures
      ensures Valid() && history == old(history) + did
      ensures resolver.failures >= old(resolver.failures) && table.failures >= old(table.failures)
      // Refused only without a record, or by a failure.
      ensures !ok ==> !(gw in old(table.records) && old(table.records)[gw].bucket == bucket.name
                              && old(table.records)[gw].key == key)
                      || resolver.failures > old(resolver.failures) || table.failures > old(table.failures)
      ensures did == [] || (Accepts(old(Machine()).t, gw, bucket, key) && AbortOnly(did, gw, bucket, key))
      ensures Machine().t.received == old(Machine()).t.received
      ensures if ok then table.records in {old(table.records), old(table.records) - {gw}}
              else table.records == old(table.records)
      ensures ok <==> did != []
    {
      hide LocalRun, WithoutNumbers;
      var mu := table.FindUpload(gw, bucket.name, key);
      if mu.None? {
        return false, [];
      }
      var resolved := resolver.ResolveBucket();
      if !resolved {
        return false, [];
      }
      var _, cleaned := be.AbortMultipartUpload(mu.value.backendId);
      var deleted := table.DeleteMultipartUpload(gw);
      ghost var e := Abort(gw, bucket, key, {}, cleaned, deleted);
      LocalRunStep(start, history, e);
      history, did := history + [e], [e];
      ok := true;
    }
  }
}
