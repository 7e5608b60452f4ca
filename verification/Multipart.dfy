/** The multipart protocol over both backends (internal/api/s3/multipart.go,
    internal/backend/gcs.go, internal/backend/local.go): any interleaving of
    uploads, deletions still under way, aborts and plain writes. */
module Multipart {
  import opened Strings
  import opened Strconv
  import opened Models
  import opened Compose

  /** A gateway bucket as a request finds it resolved; all of them share one backend
      bucket. The prefix may differ from one request to the next. */
  datatype Bucket = Bucket(name: string, prefix: string)

  function BackendKey(bucket: Bucket, key: string): string {
    AddPrefix(bucket.prefix, key)
  }

  // ---------------------------------------------------------------------------
  // Requests
  // ---------------------------------------------------------------------------

  /** A request, with what the environment does to it: the gateway upload ID and
      clock reading drawn, whether each upstream call and database statement
      succeeds, and what failed ones leave behind. */
  datatype Event =
    | Create(bucket: Bucket, key: string, gw: string, time: nat,
             recorded: bool, removed: set<string>, cleaned: set<int>)
    | Upload(gw: string, bucket: Bucket, key: string, number: int, body: Bytes, stored: bool)
    | Complete(gw: string, bucket: Bucket, key: string, numbers: seq<int>, upstream: bool, forgotten: bool,
               leaked: Objects, partial: Option<Bytes>, cleaned: set<int>)
    | Abort(gw: string, bucket: Bucket, key: string, removed: set<string>, cleaned: set<int>, forgotten: bool)
    | Sweep(staged: string)
    | Put(bucket: Bucket, key: string, body: Bytes)
    | Delete(bucket: Bucket, key: string)

  // ---------------------------------------------------------------------------
  // Tracking records
  // ---------------------------------------------------------------------------

  datatype Record = Record(backendId: string, bucket: string, key: string)

  /** The tracking table, the IDs and clock readings drawn so far, and for each
      upload and part number the bytes last stored. */
  datatype Tracking = Tracking(
    records: map<string, Record>,
    usedIds: set<string>,
    usedTimes: set<nat>,
    received: map<(string, int), Bytes>)

  /** The upload is known, and for this bucket and key. */
  predicate Accepts(t: Tracking, gw: string, bucket: Bucket, key: string) {
    gw in t.records && t.records[gw].bucket == bucket.name && t.records[gw].key == key
  }

  predicate ValidNumber(n: int) {
    1 <= n <= 10000
  }

  predicate Creates(t: Tracking, e: Event)
    requires e.Create?
  {
    e.key != "" && e.gw !in t.usedIds && e.time !in t.usedTimes
  }

  /** The IDs are drawn for good, whether or not the record can be written. */
  function Created(t: Tracking, e: Event, backendId: string): Tracking
    requires e.Create?
  {
    t.(records := if e.recorded then t.records[e.gw := Record(backendId, e.bucket.name, e.key)] else t.records,
       usedIds := t.usedIds + {e.gw}, usedTimes := t.usedTimes + {e.time})
  }

  function Forget(t: Tracking, gw: string, forgotten: bool): Tracking {
    if forgotten then t.(records := t.records - {gw}) else t
  }

  function Receive(t: Tracking, gw: string, number: int, body: Bytes): Tracking {
    t.(received := t.received[(gw, number) := body])
  }

  // ---------------------------------------------------------------------------
  // Upload IDs
  // ---------------------------------------------------------------------------

  function Dashed(key: string): (r: string)
    ensures |r| == |key|
  {
    seq(|key|, i requires 0 <= i < |key| => if key[i] == '/' then '-' else key[i])
  }

  function LocalUploadId(backendKey: string, time: nat): string {
    Dashed(backendKey) + "-" + Itoa(time)
  }

  lemma LocalUploadIdExample()
    ensures LocalUploadId("dir/k", 7) == "dir-k-7"
  {
    assert Dashed("dir/k") == "dir-k";
  }

  /** Below the parts directory: the upload's own directory, and in it the part. */
  function LocalPartName(uploadId: string, number: int): string {
    uploadId + "/" + Pad5(number)
  }

  /** An upload ID is one directory name, and file names tell upload and number
      apart: a part can be kept by the pair of them. */
  lemma LocalPartNamesTellApart(k: string, t: nat, u: string, m: int, v: string, n: int)
    ensures '/' !in LocalUploadId(k, t) && LocalUploadId(k, t) !in {"", ".", ".."}
    ensures LocalPartName(u, m) == LocalPartName(v, n) <==> u == v && m == n
  {
    hide Itoa, Pad5;
    var id, digits := LocalUploadId(k, t), Itoa(t);
    assert id[|id| - 1] == digits[|digits| - 1] && digits[|digits| - 1] in digits;
    if LocalPartName(u, m) == LocalPartName(v, n) {
      Pad5Value(m);
      Pad5Value(n);
      LastCutUnique(u, Pad5(m), v, Pad5(n), '/');
    }
  }

  /** Different clock readings make different upload IDs, on either backend. */
  lemma UploadIdsDiffer(k: string, s: nat, l: string, t: nat)
    requires s != t
    ensures GcsUploadId(k, s) != GcsUploadId(l, t)
    ensures LocalUploadId(k, s) != LocalUploadId(l, t)
  {
    if GcsUploadId(k, s) == GcsUploadId(l, t) {
      LastCutUnique(k, Itoa(s), l, Itoa(t), '/');
      ItoaInjective(s, t);
    }
    if LocalUploadId(k, s) == LocalUploadId(l, t) {
      LastCutUnique(Dashed(k), Itoa(s), Dashed(l), Itoa(t), '-');
      ItoaInjective(s, t);
    }
  }

  // ---------------------------------------------------------------------------
  // The GCS backend
  // ---------------------------------------------------------------------------

  datatype Gcs = Gcs(t: Tracking, objects: Objects, pending: set<string>)

  /** A key outside the two staging name spaces. */
  predicate UserKey(k: string) {
    !("_sgw_parts/" <= k) && !("_sgw_tmp/" <= k)
  }

  function NewTmpOnly(objects: Objects, leaked: Objects): Objects {
    map k | k in leaked && "_sgw_tmp/" <= k && k !in objects :: leaked[k]
  }

  /** An abort deletes what it finds staged under the ID, and gets to. */
  function WithoutParts(objects: Objects, id: string, removed: set<string>): Objects {
    objects - (set k | k in removed && PartPrefix(id) <= k)
  }

  function GcsCompleted(objects: Objects, partKeys: seq<string>, dest: string, ok: bool, leaked: Objects): Objects
    requires ok ==> AllPresent(objects, partKeys)
  {
    (if ok then objects[dest := Concat(objects, partKeys)] else objects) + NewTmpOnly(objects, leaked)
  }

  predicate GcsSucceeds(s: Gcs, e: Event)
    requires e.Complete?
  {
    && Accepts(s.t, e.gw, e.bucket, e.key)
    && e.upstream && AllPresent(s.objects, PartKeys(s.t.records[e.gw].backendId, e.numbers))
  }

  function GcsStep(s: Gcs, e: Event): Gcs {
    match e
    case Create(bucket, key, gw, time, recorded, removed, _) =>
      if !Creates(s.t, e) then s
      else
        var id := GcsUploadId(BackendKey(bucket, key), time);
        s.(t := Created(s.t, e, id), objects := if recorded then s.objects else WithoutParts(s.objects, id, removed))
    case Upload(gw, bucket, key, number, body, stored) =>
      if Accepts(s.t, gw, bucket, key) && ValidNumber(number) && stored then
        s.(objects := s.objects[PartKey(s.t.records[gw].backendId, number) := body],
           t := Receive(s.t, gw, number, body))
      else s
    case Complete(gw, bucket, key, numbers, _, forgotten, leaked, _, _) =>
      if !Accepts(s.t, gw, bucket, key) then s
      else
        var partKeys := PartKeys(s.t.records[gw].backendId, numbers);
        var ok := GcsSucceeds(s, e);
        Gcs(Forget(s.t, gw, ok && forgotten),
            GcsCompleted(s.objects, partKeys, BackendKey(bucket, key), ok, leaked),
            s.pending + if ok then Elements(partKeys) else {})
    case Abort(gw, bucket, key, removed, _, forgotten) =>
      if !Accepts(s.t, gw, bucket, key) then s
      else
        s.(objects := WithoutParts(s.objects, s.t.records[gw].backendId, removed), t := Forget(s.t, gw, forgotten))
    case Sweep(k) =>
      if k in s.pending then s.(objects := s.objects - {k}) else s
    case Put(bucket, key, body) => s.(objects := s.objects[BackendKey(bucket, key) := body])
    case Delete(bucket, key) => s.(objects := s.objects - {BackendKey(bucket, key)})
  }

  // ---------------------------------------------------------------------------
  // The local backend
  // ---------------------------------------------------------------------------

  /** Parts are files in a directory of their own, by upload ID and number. */
  datatype Local = Local(t: Tracking, objects: Objects, parts: map<(string, int), Bytes>)

  predicate PartsPresent(parts: map<(string, int), Bytes>, id: string, numbers: seq<int>) {
    forall i :: 0 <= i < |numbers| ==> (id, numbers[i]) in parts
  }

  function ConcatParts(parts: map<(string, int), Bytes>, id: string, numbers: seq<int>): Bytes
    requires PartsPresent(parts, id, numbers)
  {
    if numbers == [] then []
    else ConcatParts(parts, id, numbers[..|numbers| - 1]) + parts[(id, numbers[|numbers| - 1])]
  }

  /** Removing an upload's directory deletes its parts, or those it gets to. */
  function WithoutNumbers(parts: map<(string, int), Bytes>, id: string, cleaned: set<int>)
    : map<(string, int), Bytes>
  {
    map p | p in parts && !(p.0 == id && p.1 in cleaned) :: parts[p]
  }

  predicate LocalSucceeds(s: Local, e: Event)
    requires e.Complete?
  {
    && Accepts(s.t, e.gw, e.bucket, e.key)
    && e.upstream && PartsPresent(s.parts, s.t.records[e.gw].backendId, e.numbers)
  }

  function LocalStep(s: Local, e: Event): Local {
    match e
    case Create(bucket, key, gw, time, recorded, _, cleaned) =>
      if !Creates(s.t, e) then s
      else
        var id := LocalUploadId(BackendKey(bucket, key), time);
        s.(t := Created(s.t, e, id), parts := if recorded then s.parts else WithoutNumbers(s.parts, id, cleaned))
    case Upload(gw, bucket, key, number, body, stored) =>
      if Accepts(s.t, gw, bucket, key) && ValidNumber(number) && stored then
        s.(parts := s.parts[(s.t.records[gw].backendId, number) := body], t := Receive(s.t, gw, number, body))
      else s
    case Complete(gw, bucket, key, numbers, _, forgotten, _, partial, cleaned) =>
      if !Accepts(s.t, gw, bucket, key) then s
      else
        var id, dest := s.t.records[gw].backendId, BackendKey(bucket, key);
        if LocalSucceeds(s, e) then
          Local(Forget(s.t, gw, forgotten), s.objects[dest := ConcatParts(s.parts, id, numbers)],
                WithoutNumbers(s.parts, id, cleaned))
        else if partial.Some? then
          s.(objects := s.objects[dest := partial.value])
        else s
    case Abort(gw, bucket, key, _, cleaned, forgotten) =>
      if !Accepts(s.t, gw, bucket, key) then s
      else
        s.(parts := WithoutNumbers(s.parts, s.t.records[gw].backendId, cleaned),
           t := Forget(s.t, gw, forgotten))
    case Sweep(_) => s
    case Put(bucket, key, body) => s.(objects := s.objects[BackendKey(bucket, key) := body])
    case Delete(bucket, key) => s.(objects := s.objects - {BackendKey(bucket, key)})
  }

  // ---------------------------------------------------------------------------
  // What a completed upload has to be
  // ---------------------------------------------------------------------------

  predicate AllReceived(t: Tracking, gw: string, numbers: seq<int>) {
    forall i :: 0 <= i < |numbers| ==> (gw, numbers[i]) in t.received
  }

  /** The bytes last stored for each listed part of the upload, in listed order. */
  function Assembly(t: Tracking, gw: string, numbers: seq<int>): Bytes
    requires AllReceived(t, gw, numbers)
  {
    if numbers == [] then []
    else Assembly(t, gw, numbers[..|numbers| - 1]) + t.received[(gw, numbers[|numbers| - 1])]
  }

  /** One listed part is its bytes, and parts listed later stand behind. */
  lemma {:induction false} AssemblySplit(t: Tracking, gw: string, a: seq<int>, b: seq<int>)
    requires AllReceived(t, gw, a + b)
    ensures AllReceived(t, gw, a) && AllReceived(t, gw, b)
    ensures Assembly(t, gw, a + b) == Assembly(t, gw, a) + Assembly(t, gw, b)
    ensures |b| == 1 ==> Assembly(t, gw, b) == t.received[(gw, b[0])]
  {
    forall i | 0 <= i < |a| ensures a[i] == (a + b)[i] {}
    forall i | 0 <= i < |b| ensures b[i] == (a + b)[|a| + i] {}
    if b == [] {
      assert a + b == a;
    } else {
      var n := |b| - 1;
      assert (a + b)[..|a| + n] == a + b[..n];
      AssemblySplit(t, gw, a, b[..n]);
    }
  }

  // ---------------------------------------------------------------------------
  // Invariants
  // ---------------------------------------------------------------------------

  /** No two uploads share a backend ID, and none has one still to be drawn. */
  ghost predicate IdsApart(t: Tracking, id: (string, nat) -> string) {
    && t.records.Keys <= t.usedIds
    && (forall g, h | g in t.records && h in t.records :: t.records[g].backendId == t.records[h].backendId ==> g == h)
    && (forall g, key: string, time: nat | g in t.records && time !in t.usedTimes
          :: t.records[g].backendId != id(key, time))
  }

  /** A staged part is what was last received for it. Parts may be missing: swept,
      aborted, or never sent. */
  ghost predicate GcsStaged(s: Gcs) {
    forall gw, n :: gw in s.t.records && PartKey(s.t.records[gw].backendId, n) in s.objects
      ==> (gw, n) in s.t.received && s.objects[PartKey(s.t.records[gw].backendId, n)] == s.t.received[(gw, n)]
  }

  /** No part is staged under an ID the clock has yet to give. */
  ghost predicate GcsFresh(s: Gcs) {
    forall key: string, time: nat, n: int :: time !in s.t.usedTimes ==> PartKey(GcsUploadId(key, time), n) !in s.objects
  }

  ghost predicate GcsInv(s: Gcs) {
    IdsApart(s.t, GcsUploadId) && GcsStaged(s) && GcsFresh(s)
  }

  ghost predicate LocalStaged(s: Local) {
    forall gw, n :: gw in s.t.records ==> LocalPartIsRight(s, gw, n)
  }

  ghost predicate LocalPartIsRight(s: Local, gw: string, n: int)
    requires gw in s.t.records
  {
    (s.t.records[gw].backendId, n) in s.parts
    ==> (gw, n) in s.t.received && s.parts[(s.t.records[gw].backendId, n)] == s.t.received[(gw, n)]
  }

  ghost predicate LocalFresh(s: Local) {
    forall key: string, time: nat, n: int :: time !in s.t.usedTimes ==> (LocalUploadId(key, time), n) !in s.parts
  }

  ghost predicate LocalInv(s: Local) {
    IdsApart(s.t, LocalUploadId) && LocalStaged(s) && LocalFresh(s)
  }

  /** Objects of the request's own key stay out of the staging name spaces. */
  predicate InDomain(e: Event) {
    match e
    case Create(_, _, _, _, _, _, _) => true
    case Upload(_, bucket, key, _, _, _) => true
    case Complete(_, bucket, key, _, _, _, _, _, _) => UserKey(BackendKey(bucket, key))
    case Abort(_, _, _, _, _, _) => true
    case Sweep(_) => true
    case Put(bucket, key, _) => UserKey(BackendKey(bucket, key))
    case Delete(bucket, key) => UserKey(BackendKey(bucket, key))
  }

  lemma PartKeyIsStaging(id: string, n: int)
    ensures !UserKey(PartKey(id, n)) && !("_sgw_tmp/" <= PartKey(id, n))
  {
    hide Pad5;
    assert PartKey(id, n)[..11] == "_sgw_parts/";
    assert PartKey(id, n)[5] != "_sgw_tmp/"[5];
  }

  lemma NewIdIsApart(t: Tracking, id: (string, nat) -> string, e: Event)
    requires e.Create? && Creates(t, e) && IdsApart(t, id)
    requires forall k, s, l, u :: s != u ==> id(k, s) != id(l, u)
    ensures IdsApart(Created(t, e, id(BackendKey(e.bucket, e.key), e.time)), id)
  {
  }

  /** Steps of the GCS machine keep what is staged right. */
  lemma GcsInvStep(s: Gcs, e: Event)
    requires GcsInv(s) && InDomain(e)
    ensures GcsInv(GcsStep(s, e))
  {
    hide PartKey, GcsUploadId, BackendKey, Accepts, Concat;
    match e
    case Create(_, _, _, _, _, _, _) => GcsCreateKeeps(s, e);
    case Upload(_, _, _, _, _, _) => GcsUploadKeeps(s, e);
    case Complete(_, _, _, _, _, _, _, _, _) => GcsCompleteKeeps(s, e);
    case Abort(_, _, _, _, _, _) =>
    case Sweep(_) =>
    case Put(bucket, key, _) => UserKeyIsNoPart(BackendKey(bucket, key));
    case Delete(_, _) =>
  }

  lemma UserKeyIsNoPart(k: string)
    requires UserKey(k)
    ensures forall id, n :: PartKey(id, n) != k
  {
    forall id, n ensures PartKey(id, n) != k { PartKeyIsStaging(id, n); }
  }

  lemma GcsCreateKeeps(s: Gcs, e: Event)
    requires GcsInv(s) && e.Create?
    ensures GcsInv(GcsStep(s, e))
  {
    hide PartKey, GcsUploadId, BackendKey;
    if Creates(s.t, e) {
      forall k, i, l, j | i != j ensures GcsUploadId(k, i) != GcsUploadId(l, j) { UploadIdsDiffer(k, i, l, j); }
      NewIdIsApart(s.t, GcsUploadId, e);
    }
  }

  lemma GcsUploadKeeps(s: Gcs, e: Event)
    requires GcsInv(s) && e.Upload?
    ensures GcsInv(GcsStep(s, e))
  {
    hide PartKey, GcsUploadId;
    if Accepts(s.t, e.gw, e.bucket, e.key) && ValidNumber(e.number) && e.stored {
      var id := s.t.records[e.gw].backendId;
      forall v, n | PartKey(v, n) == PartKey(id, e.number) ensures v == id && n == e.number {
        PartKeyInjective(v, n, id, e.number);
      }
    }
  }

  lemma GcsCompleteKeeps(s: Gcs, e: Event)
    requires GcsInv(s) && InDomain(e) && e.Complete?
    ensures GcsInv(GcsStep(s, e))
  {
    hide PartKey, GcsUploadId, Concat, BackendKey, GcsSucceeds;
    UserKeyIsNoPart(BackendKey(e.bucket, e.key));
    forall id, n ensures PartKey(id, n) !in NewTmpOnly(s.objects, e.leaked) { PartKeyIsStaging(id, n); }
  }

  lemma LocalInvStep(s: Local, e: Event)
    requires LocalInv(s)
    ensures LocalInv(LocalStep(s, e))
  {
    hide LocalUploadId, BackendKey, ConcatParts;
    if e.Create? && Creates(s.t, e) {
      forall k, i, l, j | i != j ensures LocalUploadId(k, i) != LocalUploadId(l, j) { UploadIdsDiffer(k, i, l, j); }
      NewIdIsApart(s.t, LocalUploadId, e);
    }
    var s' := LocalStep(s, e);
    forall gw, n | gw in s'.t.records ensures LocalPartIsRight(s', gw, n) {
      if gw in s.t.records { assert LocalPartIsRight(s, gw, n); }
    }
  }

  // ---------------------------------------------------------------------------
  // Whole histories
  // ---------------------------------------------------------------------------

  function NoTracking(): Tracking {
    Tracking(map[], {}, {}, map[])
  }

  function GcsRun(objects: Objects, events: seq<Event>): Gcs {
    if events == [] then Gcs(NoTracking(), objects, {})
    else GcsStep(GcsRun(objects, events[..|events| - 1]), events[|events| - 1])
  }

  function LocalRun(objects: Objects, events: seq<Event>): Local {
    if events == [] then Local(NoTracking(), objects, map[])
    else LocalStep(LocalRun(objects, events[..|events| - 1]), events[|events| - 1])
  }

  lemma GcsRunStep(start: Objects, history: seq<Event>, e: Event)
    ensures GcsRun(start, history + [e]) == GcsStep(GcsRun(start, history), e)
  {
    assert (history + [e])[..|history|] == history;
  }

  lemma LocalRunStep(start: Objects, history: seq<Event>, e: Event)
    ensures LocalRun(start, history + [e]) == LocalStep(LocalRun(start, history), e)
  {
    assert (history + [e])[..|history|] == history;
  }

  /** A bucket that starts without staged parts. */
  ghost predicate Unstaged(objects: Objects) {
    forall k :: k in objects ==> UserKey(k)
  }

  lemma {:induction false} GcsInvHolds(objects: Objects, events: seq<Event>)
    requires Unstaged(objects) && forall e :: e in events ==> InDomain(e)
    ensures GcsInv(GcsRun(objects, events))
  {
    hide GcsInv, GcsStep, InDomain;
    if events == [] {
      GcsInvStart(objects);
    } else {
      var n := |events| - 1;
      GcsInvHolds(objects, events[..n]);
      assert events[n] in events;
      GcsInvStep(GcsRun(objects, events[..n]), events[n]);
    }
  }

  /** What is handed to background deletion is never a user object. */
  lemma {:induction false} PendingIsStaged(objects: Objects, events: seq<Event>)
    ensures forall k :: k in GcsRun(objects, events).pending ==> !UserKey(k)
  {
    hide UserKey;
    if events != [] {
      var n := |events| - 1;
      PendingIsStaged(objects, events[..n]);
      PendingStep(GcsRun(objects, events[..n]), events[n]);
    }
  }

  lemma PendingStep(s: Gcs, e: Event)
    ensures forall k :: k in GcsStep(s, e).pending ==> k in s.pending || !UserKey(k)
  {
    hide PartKey, UserKey, GcsCompleted, GcsSucceeds;
    forall id, n ensures !UserKey(PartKey(id, n)) { PartKeyIsStaging(id, n); }
  }

  lemma GcsInvStart(objects: Objects)
    requires Unstaged(objects)
    ensures GcsInv(Gcs(NoTracking(), objects, {}))
  {
    forall id, n ensures PartKey(id, n) !in objects { PartKeyIsStaging(id, n); }
  }

  lemma {:induction false} LocalInvHolds(objects: Objects, events: seq<Event>)
    ensures LocalInv(LocalRun(objects, events))
  {
    hide LocalInv, LocalStep;
    if events == [] {
      LocalInvStart(objects);
    } else {
      var n := |events| - 1;
      LocalInvHolds(objects, events[..n]);
      LocalInvStep(LocalRun(objects, events[..n]), events[n]);
    }
  }

  lemma LocalInvStart(objects: Objects)
    ensures LocalInv(Local(NoTracking(), objects, map[]))
  {
  }

  // ---------------------------------------------------------------------------
  // Completion
  // ---------------------------------------------------------------------------

  lemma {:induction false} GcsConcatIsAssembly(s: Gcs, gw: string, numbers: seq<int>)
    requires GcsStaged(s) && gw in s.t.records
    requires AllPresent(s.objects, PartKeys(s.t.records[gw].backendId, numbers))
    ensures AllReceived(s.t, gw, numbers)
    ensures Concat(s.objects, PartKeys(s.t.records[gw].backendId, numbers)) == Assembly(s.t, gw, numbers)
  {
    hide PartKey;
    var id := s.t.records[gw].backendId;
    var keys := PartKeys(id, numbers);
    forall i | 0 <= i < |numbers| ensures (gw, numbers[i]) in s.t.received {
      assert keys[i] == PartKey(id, numbers[i]) && keys[i] in keys;
    }
    if numbers != [] {
      var n := |numbers| - 1;
      assert PartKeys(id, numbers[..n]) == keys[..n];
      GcsConcatIsAssembly(s, gw, numbers[..n]);
      assert keys[n] in keys;
    }
  }

  lemma {:induction false} LocalConcatIsAssembly(s: Local, gw: string, numbers: seq<int>)
    requires LocalStaged(s) && gw in s.t.records
    requires PartsPresent(s.parts, s.t.records[gw].backendId, numbers)
    ensures AllReceived(s.t, gw, numbers)
    ensures ConcatParts(s.parts, s.t.records[gw].backendId, numbers) == Assembly(s.t, gw, numbers)
  {
    forall i | 0 <= i < |numbers| ensures (gw, numbers[i]) in s.t.received {
      assert LocalPartIsRight(s, gw, numbers[i]);
    }
    if numbers != [] {
      var n := |numbers| - 1;
      LocalConcatIsAssembly(s, gw, numbers[..n]);
      assert LocalPartIsRight(s, gw, numbers[n]);
    }
  }

  /** After any history, a completion that succeeds on GCS makes the object the
      last bytes stored for each listed part of that very upload, in listed
      order, and touches no other user object; one that fails touches none. */
  lemma GcsCompletionIsRight(objects: Objects, events: seq<Event>, e: Event)
    requires Unstaged(objects) && forall x :: x in events ==> InDomain(x)
    requires e.Complete? && InDomain(e)
    ensures var s, dest := GcsRun(objects, events), BackendKey(e.bucket, e.key);
            var after := GcsStep(s, e).objects;
            && (GcsSucceeds(s, e) ==>
                  AllReceived(s.t, e.gw, e.numbers) && dest in after
                  && after[dest] == Assembly(s.t, e.gw, e.numbers))
            && (forall k :: UserKey(k) && (k != dest || !GcsSucceeds(s, e)) ==>
                  (k in after <==> k in s.objects) && (k in after && k in s.objects ==> after[k] == s.objects[k]))
  {
    hide GcsRun, BackendKey, PartKey;
    GcsInvHolds(objects, events);
    var s := GcsRun(objects, events);
    if GcsSucceeds(s, e) { GcsConcatIsAssembly(s, e.gw, e.numbers); }
  }

  /** The same on the local backend, but a failed completion may leave a partial
      object under its own key. */
  lemma LocalCompletionIsRight(objects: Objects, events: seq<Event>, e: Event)
    requires e.Complete?
    ensures var s, dest := LocalRun(objects, events), BackendKey(e.bucket, e.key);
            var after := LocalStep(s, e).objects;
            && (LocalSucceeds(s, e) ==>
                  AllReceived(s.t, e.gw, e.numbers) && dest in after
                  && after[dest] == Assembly(s.t, e.gw, e.numbers))
            && (forall k :: k != dest ==>
                  (k in after <==> k in s.objects) && (k in after && k in s.objects ==> after[k] == s.objects[k]))
  {
    hide LocalRun, BackendKey;
    LocalInvHolds(objects, events);
    var s := LocalRun(objects, events);
    if LocalSucceeds(s, e) { LocalConcatIsAssembly(s, e.gw, e.numbers); }
  }

  // ---------------------------------------------------------------------------
  // The two backends side by side
  // ---------------------------------------------------------------------------

  /** Where both backends still track an upload they have received the same. */
  ghost predicate Agree(g: Tracking, l: Tracking) {
    && g.usedIds == l.usedIds && g.usedTimes == l.usedTimes
    && g.records.Keys <= g.usedIds && l.records.Keys <= l.usedIds
    && (forall gw :: gw in g.records && gw in l.records ==>
          g.records[gw].bucket == l.records[gw].bucket && g.records[gw].key == l.records[gw].key)
    && (forall gw, n :: (gw, n) in g.received || (gw, n) in l.received ==> gw in g.usedIds)
    && (forall gw, n :: gw in g.records && gw in l.records ==> SameReceived(g, l, gw, n))
  }

  ghost predicate SameReceived(g: Tracking, l: Tracking, gw: string, n: int) {
    && ((gw, n) in g.received <==> (gw, n) in l.received)
    && ((gw, n) in g.received && (gw, n) in l.received ==> g.received[(gw, n)] == l.received[(gw, n)])
  }

  /** What an event does to the tracking, given the ID drawn and whether a
      completion succeeded. */
  function Track(t: Tracking, e: Event, id: string, ok: bool): Tracking {
    match e
    case Create(_, _, _, _, _, _, _) => if Creates(t, e) then Created(t, e, id) else t
    case Upload(gw, bucket, key, number, body, stored) =>
      if Accepts(t, gw, bucket, key) && ValidNumber(number) && stored then Receive(t, gw, number, body) else t
    case Complete(gw, bucket, key, _, _, forgotten, _, _, _) =>
      if Accepts(t, gw, bucket, key) then Forget(t, gw, ok && forgotten) else t
    case Abort(gw, bucket, key, _, _, forgotten) =>
      if Accepts(t, gw, bucket, key) then Forget(t, gw, forgotten) else t
    case _ => t
  }

  function DrawnId(e: Event, id: (string, nat) -> string): string {
    if e.Create? then id(BackendKey(e.bucket, e.key), e.time) else ""
  }

  lemma GcsTracks(s: Gcs, e: Event)
    ensures GcsStep(s, e).t == Track(s.t, e, DrawnId(e, GcsUploadId), e.Complete? && GcsSucceeds(s, e))
  {
    hide BackendKey, GcsUploadId, GcsCompleted, PartKey, GcsSucceeds, Concat;
  }

  lemma LocalTracks(s: Local, e: Event)
    ensures LocalStep(s, e).t == Track(s.t, e, DrawnId(e, LocalUploadId), e.Complete? && LocalSucceeds(s, e))
  {
    hide BackendKey, LocalUploadId, ConcatParts, WithoutNumbers;
  }

  lemma AgreeTrack(g: Tracking, l: Tracking, e: Event, idG: string, idL: string, okG: bool, okL: bool)
    requires Agree(g, l)
    ensures Agree(Track(g, e, idG, okG), Track(l, e, idL, okL))
  {
    hide Agree, BackendKey;
    match e
    case Create(_, _, _, _, _, _, _) =>
      if Creates(g, e) && Creates(l, e) { AgreeCreated(g, l, e, idG, idL); }
      SameDraws(g, l, e);
    case Upload(gw, bucket, key, number, body, stored) =>
      AgreeReceived(g, l, gw, bucket, key, number, body);
    case Complete(gw, _, _, _, _, _, _, _, _) => AgreeForgotten(g, l, gw);
    case Abort(gw, _, _, _, _, _) => AgreeForgotten(g, l, gw);
    case _ =>
  }

  lemma SameDraws(g: Tracking, l: Tracking, e: Event)
    requires Agree(g, l) && e.Create?
    ensures Creates(g, e) <==> Creates(l, e)
  {
  }

  lemma AgreeCreated(g: Tracking, l: Tracking, e: Event, idG: string, idL: string)
    requires Agree(g, l) && e.Create? && Creates(g, e) && Creates(l, e)
    ensures Agree(Created(g, e, idG), Created(l, e, idL))
  {
    var g', l' := Created(g, e, idG), Created(l, e, idL);
    forall gw, n | gw in g'.records && gw in l'.records ensures SameReceived(g', l', gw, n) {
      if gw in g.records && gw in l.records { assert SameReceived(g, l, gw, n); }
    }
  }

  /** An upload accepted by one side only is of an upload the other has forgotten. */
  lemma AgreeReceived(g: Tracking, l: Tracking, gw: string, bucket: Bucket, key: string, number: int, body: Bytes)
    requires Agree(g, l)
    ensures var g', l' := Receive(g, gw, number, body), Receive(l, gw, number, body);
            && (Accepts(g, gw, bucket, key) && Accepts(l, gw, bucket, key) ==> Agree(g', l'))
            && (Accepts(g, gw, bucket, key) && !Accepts(l, gw, bucket, key) ==> Agree(g', l))
            && (!Accepts(g, gw, bucket, key) && Accepts(l, gw, bucket, key) ==> Agree(g, l'))
  {
    var g', l' := Receive(g, gw, number, body), Receive(l, gw, number, body);
    forall x, n | x in g.records && x in l.records ensures SameReceived(g', l', x, n) {
      assert SameReceived(g, l, x, n);
    }
    forall x, n | x in g.records && x in l.records && x != gw
      ensures SameReceived(g', l, x, n) && SameReceived(g, l', x, n)
    {
      assert SameReceived(g, l, x, n);
    }
  }

  lemma AgreeForgotten(g: Tracking, l: Tracking, gw: string)
    requires Agree(g, l)
    ensures var g', l' := Forget(g, gw, true), Forget(l, gw, true);
            Agree(g', l) && Agree(g, l') && Agree(g', l')
  {
    var g', l' := Forget(g, gw, true), Forget(l, gw, true);
    forall x, n | x in g.records && x in l.records && x != gw
      ensures SameReceived(g', l, x, n) && SameReceived(g, l', x, n) && SameReceived(g', l', x, n)
    {
      assert SameReceived(g, l, x, n);
    }
  }

  lemma AgreeStep(g: Gcs, l: Local, e: Event)
    requires Agree(g.t, l.t)
    ensures Agree(GcsStep(g, e).t, LocalStep(l, e).t)
  {
    hide Agree, Track, GcsStep, LocalStep;
    GcsTracks(g, e);
    LocalTracks(l, e);
    AgreeTrack(g.t, l.t, e, DrawnId(e, GcsUploadId), DrawnId(e, LocalUploadId),
               e.Complete? && GcsSucceeds(g, e), e.Complete? && LocalSucceeds(l, e));
  }

  lemma {:induction false} AgreeHolds(objects: Objects, events: seq<Event>)
    ensures Agree(GcsRun(objects, events).t, LocalRun(objects, events).t)
  {
    hide Agree, GcsStep, LocalStep;
    if events == [] {
      AgreeStart();
    } else {
      var n := |events| - 1;
      AgreeHolds(objects, events[..n]);
      AgreeStep(GcsRun(objects, events[..n]), LocalRun(objects, events[..n]), events[n]);
    }
  }

  lemma AgreeStart()
    ensures Agree(NoTracking(), NoTracking())
  {
  }

  lemma {:induction false} SameAssembly(g: Tracking, l: Tracking, gw: string, numbers: seq<int>)
    requires Agree(g, l) && gw in g.records && gw in l.records
    requires AllReceived(g, gw, numbers) && AllReceived(l, gw, numbers)
    ensures Assembly(g, gw, numbers) == Assembly(l, gw, numbers)
  {
    if numbers != [] {
      var n := |numbers| - 1;
      SameAssembly(g, l, gw, numbers[..n]);
      assert SameReceived(g, l, gw, numbers[n]);
    }
  }

  /** One history on both backends: a completion that succeeds on both builds the
      same object. */
  lemma BackendsBuildTheSame(objects: Objects, events: seq<Event>, e: Event)
    requires Unstaged(objects) && forall x :: x in events ==> InDomain(x)
    requires e.Complete? && InDomain(e)
    requires GcsSucceeds(GcsRun(objects, events), e) && LocalSucceeds(LocalRun(objects, events), e)
    ensures var dest := BackendKey(e.bucket, e.key);
            var g, l := GcsStep(GcsRun(objects, events), e).objects, LocalStep(LocalRun(objects, events), e).objects;
            dest in g && dest in l && g[dest] == l[dest]
  {
    hide GcsRun, LocalRun, GcsStep, LocalStep, BackendKey;
    GcsCompletionIsRight(objects, events, e);
    LocalCompletionIsRight(objects, events, e);
    AgreeHolds(objects, events);
    var g, l := GcsRun(objects, events).t, LocalRun(objects, events).t;
    SuccessMeansTracked(objects, events, e);
    SameAssembly(g, l, e.gw, e.numbers);
  }

  lemma SuccessMeansTracked(objects: Objects, events: seq<Event>, e: Event)
    requires e.Complete?
    ensures GcsSucceeds(GcsRun(objects, events), e) ==> e.gw in GcsRun(objects, events).t.records
    ensures LocalSucceeds(LocalRun(objects, events), e) ==> e.gw in LocalRun(objects, events).t.records
  {
  }

  // ---------------------------------------------------------------------------
  // The received bytes, read off the history
  // ---------------------------------------------------------------------------

  /** The body of the last stored upload of the part, back to the creation. */
  function LastStored(events: seq<Event>, gw: string, r: Record, number: int): Option<Bytes> {
    if events == [] then None
    else
      var n := |events| - 1;
      match events[n]
      case Create(_, key, g, _, _, _, _) =>
        if g == gw && key != "" then None else LastStored(events[..n], gw, r, number)
      case Upload(g, bucket, key, m, body, stored) =>
        if g == gw && bucket.name == r.bucket && key == r.key && m == number && stored then Some(body)
        else LastStored(events[..n], gw, r, number)
      case _ => LastStored(events[..n], gw, r, number)
  }

  /** IDs and clock readings are drawn once. */
  ghost predicate DrawnOnce(events: seq<Event>) {
    forall i, j | 0 <= i < j < |events| && events[i].Create? && events[j].Create?
      :: events[i].gw != events[j].gw && events[i].time != events[j].time
  }

  ghost predicate Drew(events: seq<Event>, gw: string) {
    exists i :: 0 <= i < |events| && events[i].Create? && events[i].gw == gw
  }

  lemma DrewLater(events: seq<Event>, e: Event, gw: string)
    ensures Drew(events, gw) || (e.Create? && e.gw == gw) ==> Drew(events + [e], gw)
  {
    if Drew(events, gw) {
      var i :| 0 <= i < |events| && events[i].Create? && events[i].gw == gw;
      assert (events + [e])[i] == events[i];
    }
    assert (events + [e])[|events|] == e;
  }

  lemma TrackKeepsUsed(t: Tracking, e: Event, id: string, ok: bool)
    requires t.records.Keys <= t.usedIds && forall gw, n :: (gw, n) in t.received ==> gw in t.usedIds
    ensures var t' := Track(t, e, id, ok);
            && t'.records.Keys <= t'.usedIds && (forall gw, n :: (gw, n) in t'.received ==> gw in t'.usedIds)
            && (forall gw :: gw in t'.usedIds ==> gw in t.usedIds || (e.Create? && e.gw == gw))
  {
  }

  /** What a history makes of the tracking, given how upload IDs are made and
      which completions succeed. */
  function TrackRun(events: seq<Event>, id: (string, nat) -> string, oks: seq<bool>): Tracking
    requires |oks| == |events|
  {
    if events == [] then NoTracking()
    else
      var n := |events| - 1;
      Track(TrackRun(events[..n], id, oks[..n]), events[n], DrawnId(events[n], id), oks[n])
  }

  function GcsOutcomes(objects: Objects, events: seq<Event>): (oks: seq<bool>)
    ensures |oks| == |events|
  {
    if events == [] then []
    else
      var n := |events| - 1;
      GcsOutcomes(objects, events[..n]) + [events[n].Complete? && GcsSucceeds(GcsRun(objects, events[..n]), events[n])]
  }

  function LocalOutcomes(objects: Objects, events: seq<Event>): (oks: seq<bool>)
    ensures |oks| == |events|
  {
    if events == [] then []
    else
      var n := |events| - 1;
      LocalOutcomes(objects, events[..n])
      + [events[n].Complete? && LocalSucceeds(LocalRun(objects, events[..n]), events[n])]
  }

  lemma {:induction false} GcsRunTracks(objects: Objects, events: seq<Event>)
    ensures GcsRun(objects, events).t == TrackRun(events, GcsUploadId, GcsOutcomes(objects, events))
  {
    hide GcsStep, Track, GcsSucceeds;
    if events != [] {
      var n := |events| - 1;
      GcsRunTracks(objects, events[..n]);
      GcsTracks(GcsRun(objects, events[..n]), events[n]);
      assert GcsOutcomes(objects, events)[..n] == GcsOutcomes(objects, events[..n]);
    }
  }

  lemma {:induction false} LocalRunTracks(objects: Objects, events: seq<Event>)
    ensures LocalRun(objects, events).t == TrackRun(events, LocalUploadId, LocalOutcomes(objects, events))
  {
    hide LocalStep, Track, LocalSucceeds;
    if events != [] {
      var n := |events| - 1;
      LocalRunTracks(objects, events[..n]);
      LocalTracks(LocalRun(objects, events[..n]), events[n]);
      assert LocalOutcomes(objects, events)[..n] == LocalOutcomes(objects, events[..n]);
    }
  }

  lemma {:induction false} DrawnBefore(events: seq<Event>, id: (string, nat) -> string, oks: seq<bool>)
    requires |oks| == |events|
    ensures var t := TrackRun(events, id, oks);
            && (forall gw :: gw in t.usedIds ==> Drew(events, gw))
            && t.records.Keys <= t.usedIds && (forall gw, n :: (gw, n) in t.received ==> gw in t.usedIds)
  {
    hide Track, Drew;
    if events != [] {
      var n := |events| - 1;
      DrawnBefore(events[..n], id, oks[..n]);
      TrackKeepsUsed(TrackRun(events[..n], id, oks[..n]), events[n], DrawnId(events[n], id), oks[n]);
      assert events == events[..n] + [events[n]];
      forall gw { DrewLater(events[..n], events[n], gw); }
    }
  }

  lemma NotDrawnAgain(events: seq<Event>, e: Event, gw: string)
    requires DrawnOnce(events + [e])
    requires Drew(events, gw)
    ensures !(e.Create? && e.gw == gw) && DrawnOnce(events)
  {
    forall i, j | 0 <= i < j < |events| && events[i].Create? && events[j].Create?
      ensures events[i].gw != events[j].gw && events[i].time != events[j].time
    {
      assert (events + [e])[i] == events[i] && (events + [e])[j] == events[j];
    }
    var i :| 0 <= i < |events| && events[i].Create? && events[i].gw == gw;
    assert (events + [e])[i] == events[i] && (events + [e])[|events|] == e;
  }

  /** What an event does to the received bytes of an upload already tracked. */
  lemma TrackedOn(t: Tracking, e: Event, id: string, ok: bool, gw: string, number: int)
    requires gw in t.records && t.records.Keys <= t.usedIds && ValidNumber(number)
    ensures var t' := Track(t, e, id, ok);
            gw in t'.records ==>
              && t'.records[gw] == t.records[gw]
              && Received(t', gw, number)
                 == if e.Upload? && e.gw == gw && e.bucket.name == t.records[gw].bucket && e.key == t.records[gw].key
                       && e.number == number && e.stored
                    then Some(e.body) else Received(t, gw, number)
  {
  }

  /** And of an upload the event creates. */
  lemma TrackedNew(t: Tracking, e: Event, id: string, ok: bool, gw: string, number: int)
    requires gw !in t.records && gw in Track(t, e, id, ok).records
    requires (gw, number) in t.received ==> gw in t.usedIds
    ensures e.Create? && e.gw == gw && e.key != "" && Received(Track(t, e, id, ok), gw, number) == None
  {
  }

  function Received(t: Tracking, gw: string, number: int): Option<Bytes> {
    if (gw, number) in t.received then Some(t.received[(gw, number)]) else None
  }

  lemma {:induction false} LastStoredIsReceived(events: seq<Event>, id: (string, nat) -> string, oks: seq<bool>,
                                                gw: string, number: int)
    requires |oks| == |events| && DrawnOnce(events)
    requires gw in TrackRun(events, id, oks).records && ValidNumber(number)
    ensures var t := TrackRun(events, id, oks);
            LastStored(events, gw, t.records[gw], number) == Received(t, gw, number)
  {
    hide Track, Received, ValidNumber, BackendKey, DrawnOnce, Drew;
    if events == [] { return; }
    var n := |events| - 1;
    var t, e := TrackRun(events[..n], id, oks[..n]), events[n];
    DrawnBefore(events[..n], id, oks[..n]);
    if gw in t.records {
      assert events == events[..n] + [e];
      assert Drew(events[..n], gw);
      NotDrawnAgain(events[..n], e, gw);
      TrackedOn(t, e, DrawnId(e, id), oks[n], gw, number);
      LastStoredIsReceived(events[..n], id, oks[..n], gw, number);
    } else {
      TrackedNew(t, e, DrawnId(e, id), oks[n], gw, number);
    }
  }

  /** What either backend's machine keeps as received is what the history says:
      the last body stored for the part since its upload was created. */
  lemma ReceivedIsLastStored(objects: Objects, events: seq<Event>, gw: string, number: int)
    requires DrawnOnce(events) && ValidNumber(number)
    ensures var t := GcsRun(objects, events).t;
            gw in t.records ==> LastStored(events, gw, t.records[gw], number) == Received(t, gw, number)
    ensures var t := LocalRun(objects, events).t;
            gw in t.records ==> LastStored(events, gw, t.records[gw], number) == Received(t, gw, number)
  {
    hide GcsRun, LocalRun, TrackRun, DrawnOnce, LastStored, Received;
    GcsRunTracks(objects, events);
    LocalRunTracks(objects, events);
    var oks := GcsOutcomes(objects, events);
    if gw in TrackRun(events, GcsUploadId, oks).records {
      LastStoredIsReceived(events, GcsUploadId, oks, gw, number);
    }
    oks := LocalOutcomes(objects, events);
    if gw in TrackRun(events, LocalUploadId, oks).records {
      LastStoredIsReceived(events, LocalUploadId, oks, gw, number);
    }
  }
}
