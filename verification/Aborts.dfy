/** Which staged parts an abort reaches: on GCS (internal/backend/gcs.go) those of
    every upload whose key continues the aborted one's key and time, on the local
    backend (internal/backend/local.go) its own alone. */
module Aborts {
  import opened Strings
  import opened Strconv
  import opened Models
  import opened Compose
  import opened Multipart

  /** Backend key `l` is the upload ID made of `k` and `s`, or lies below it. */
  predicate Continues(k: string, s: nat, l: string) {
    Reaches(GcsUploadId(k, s), l)
  }

  /** One upload ID reaches another, made at another time, if and only if the other
      upload's key continues its key and time. */
  lemma UploadIdReachesIff(k: string, s: nat, l: string, t: nat)
    requires s != t
    ensures Reaches(GcsUploadId(k, s), GcsUploadId(l, t)) <==> Continues(k, s, l)
    ensures Continues(k, s, l) <==> l == k + "/" + Itoa(s) || k + "/" + Itoa(s) + "/" <= l
  {
    UploadIdsDiffer(k, s, l, t);
    forall c | c in Itoa(t) ensures c != '/' {}
    SlashPrefixIff(GcsUploadId(k, s), l, Itoa(t));
  }

  // ---------------------------------------------------------------------------
  // What a tracked upload's ID is made of
  // ---------------------------------------------------------------------------

  ghost predicate CreatedAs(c: Event, gw: string, r: Record) {
    && c.Create? && c.gw == gw && c.recorded
    && r == Record(GcsUploadId(BackendKey(c.bucket, c.key), c.time), c.bucket.name, c.key)
  }

  lemma RecordStep(s: Gcs, e: Event, gw: string)
    requires gw in GcsStep(s, e).t.records
    ensures (gw in s.t.records && GcsStep(s, e).t.records[gw] == s.t.records[gw])
            || (CreatedAs(e, gw, GcsStep(s, e).t.records[gw]) && Creates(s.t, e))
  {
    hide BackendKey, GcsUploadId, GcsCompleted, GcsSucceeds, PartKey, WithoutParts;
  }

  /** Every tracked upload was created by an event of the history. */
  lemma {:induction false} CreatedBy(objects: Objects, events: seq<Event>, gw: string) returns (c: Event)
    requires gw in GcsRun(objects, events).t.records
    ensures c in events && CreatedAs(c, gw, GcsRun(objects, events).t.records[gw])
    ensures c.time in GcsRun(objects, events).t.usedTimes
  {
    hide GcsStep, CreatedAs, Creates;
    if events != [] {
      var n := |events| - 1;
      var s, e := GcsRun(objects, events[..n]), events[n];
      RecordStep(s, e, gw);
      TimesStay(s, e);
      if gw in s.t.records && GcsStep(s, e).t.records[gw] == s.t.records[gw] {
        c := CreatedBy(objects, events[..n], gw);
      } else {
        c := e;
        DrawnTime(s, e, gw);
      }
    }
  }

  lemma TimesStay(s: Gcs, e: Event)
    ensures s.t.usedTimes <= GcsStep(s, e).t.usedTimes
  {
    hide BackendKey, GcsUploadId, GcsCompleted, GcsSucceeds, PartKey, WithoutParts;
  }

  lemma DrawnTime(s: Gcs, e: Event, gw: string)
    requires gw in GcsStep(s, e).t.records && CreatedAs(e, gw, GcsStep(s, e).t.records[gw]) && Creates(s.t, e)
    ensures e.time in GcsStep(s, e).t.usedTimes
  {
  }

  // ---------------------------------------------------------------------------
  // On GCS
  // ---------------------------------------------------------------------------

  /** Some abort of the upload, whatever it gets to, takes this object away. */
  ghost predicate CanLose(s: Gcs, gw: string, bucket: Bucket, key: string, k: string) {
    exists removed, forgotten :: Loses(s, Abort(gw, bucket, key, removed, {}, forgotten), k)
  }

  ghost predicate Loses(s: Gcs, e: Event, k: string) {
    k in s.objects && k !in GcsStep(s, e).objects
  }

  lemma CanLoseIff(s: Gcs, gw: string, bucket: Bucket, key: string, id: string, n: int)
    requires Accepts(s.t, gw, bucket, key) && PartKey(id, n) in s.objects
    ensures CanLose(s, gw, bucket, key, PartKey(id, n)) <==> Reaches(s.t.records[gw].backendId, id)
  {
    hide PartKey, PartPrefix, Reaches;
    PartPrefixReachesIff(s.t.records[gw].backendId, id, n);
    var e := Abort(gw, bucket, key, {PartKey(id, n)}, {}, true);
    if Reaches(s.t.records[gw].backendId, id) { assert Loses(s, e, PartKey(id, n)); }
  }

  /** The clean-up after a creation that cannot be recorded reaches as far. */
  lemma UnrecordedReachesIff(s: Gcs, e: Event, id: string, n: int)
    requires e.Create? && Creates(s.t, e) && PartKey(id, n) in s.objects
    ensures (exists removed: set<string> :: Loses(s, e.(recorded := false, removed := removed), PartKey(id, n)))
            <==> Reaches(GcsUploadId(BackendKey(e.bucket, e.key), e.time), id)
  {
    hide PartKey, PartPrefix, Reaches, GcsUploadId, BackendKey;
    var own := GcsUploadId(BackendKey(e.bucket, e.key), e.time);
    PartPrefixReachesIff(own, id, n);
    var removed := {PartKey(id, n)};
    if Reaches(own, id) { assert Loses(s, e.(recorded := false, removed := removed), PartKey(id, n)); }
  }

  /** After any history, an abort of one tracked upload can take away a staged part
      of another if and only if the other was created under a key that continues
      the first one's key and time. */
  lemma AbortReachesOtherIff(objects: Objects, events: seq<Event>, g: string, bucket: Bucket, key: string,
                             h: string, n: int) returns (c: Event, d: Event)
    requires Unstaged(objects) && forall e :: e in events ==> InDomain(e)
    requires Accepts(GcsRun(objects, events).t, g, bucket, key)
    requires h in GcsRun(objects, events).t.records && h != g
    requires PartKey(GcsRun(objects, events).t.records[h].backendId, n) in GcsRun(objects, events).objects
    ensures var s := GcsRun(objects, events);
            && c in events && CreatedAs(c, g, s.t.records[g]) && d in events && CreatedAs(d, h, s.t.records[h])
            && (CanLose(s, g, bucket, key, PartKey(s.t.records[h].backendId, n))
                <==> Continues(BackendKey(c.bucket, c.key), c.time, BackendKey(d.bucket, d.key)))
  {
    hide GcsRun, BackendKey, PartKey, GcsUploadId, CanLose, Reaches, Continues;
    var s := GcsRun(objects, events);
    c := CreatedBy(objects, events, g);
    d := CreatedBy(objects, events, h);
    CanLoseIff(s, g, bucket, key, s.t.records[h].backendId, n);
    DifferentTimes(objects, events, c, g, d, h);
    UploadIdReachesIff(BackendKey(c.bucket, c.key), c.time, BackendKey(d.bucket, d.key), d.time);
  }

  /** Times are drawn once, so two tracked uploads have different ones. */
  lemma {:induction false} DifferentTimes(objects: Objects, events: seq<Event>,
                                          c: Event, g: string, d: Event, h: string)
    requires g != h && g in GcsRun(objects, events).t.records && h in GcsRun(objects, events).t.records
    requires CreatedAs(c, g, GcsRun(objects, events).t.records[g])
    requires CreatedAs(d, h, GcsRun(objects, events).t.records[h])
    ensures c.time != d.time
  {
    hide GcsStep, BackendKey, GcsUploadId;
    var n := |events| - 1;
    var s, e := GcsRun(objects, events[..n]), events[n];
    RecordStep(s, e, g);
    RecordStep(s, e, h);
    if g in s.t.records && GcsStep(s, e).t.records[g] == s.t.records[g] {
      UsedTime(objects, events[..n], c, g);
      if h in s.t.records && GcsStep(s, e).t.records[h] == s.t.records[h] {
        DifferentTimes(objects, events[..n], c, g, d, h);
      } else {
        SameTime(d, e, h, GcsStep(s, e).t.records[h]);
      }
    } else {
      SameTime(c, e, g, GcsStep(s, e).t.records[g]);
      UsedTime(objects, events[..n], d, h);
    }
  }

  /** An upload ID determines the time in it. */
  lemma SameTime(c: Event, e: Event, gw: string, r: Record)
    requires CreatedAs(c, gw, r) && CreatedAs(e, gw, r)
    ensures c.time == e.time
  {
    if c.time != e.time {
      UploadIdsDiffer(BackendKey(c.bucket, c.key), c.time, BackendKey(e.bucket, e.key), e.time);
    }
  }

  lemma UsedTime(objects: Objects, events: seq<Event>, c: Event, gw: string)
    requires gw in GcsRun(objects, events).t.records && CreatedAs(c, gw, GcsRun(objects, events).t.records[gw])
    ensures c.time in GcsRun(objects, events).t.usedTimes
  {
    hide GcsRun;
    var d := CreatedBy(objects, events, gw);
    SameTime(c, d, gw, GcsRun(objects, events).t.records[gw]);
  }

  /** Key "a" is created at reading 1, key "a/1" at reading 2, and a part of the
      second is stored. */
  lemma ThreeRequests() returns (before: seq<Event>)
    ensures var b := Bucket("b", "");
            before == [Create(b, "a", "g", 1, true, {}, {}), Create(b, "a/1", "h", 2, true, {}, {}),
                       Upload("h", b, "a/1", 1, "x", true)]
    ensures GcsRun(map[], before).objects == map[PartKey("a/1/2", 1) := "x"]
    ensures GcsRun(map[], before).t.records
            == map["g" := Record("a/1", "b", "a"), "h" := Record("a/1/2", "b", "a/1")]
  {
    hide PartKey;
    var b := Bucket("b", "");
    var e0, e1 := Create(b, "a", "g", 1, true, {}, {}), Create(b, "a/1", "h", 2, true, {}, {});
    var e2 := Upload("h", b, "a/1", 1, "x", true);
    before := [e0, e1, e2];
    assert GcsUploadId("a", 1) == "a/1" && GcsUploadId("a/1", 2) == "a/1/2";
    assert [] + [e0] == [e0] && [e0] + [e1] == [e0, e1] && [e0, e1] + [e2] == before;
    GcsRunStep(map[], [], e0);
    GcsRunStep(map[], [e0], e1);
    GcsRunStep(map[], [e0, e1], e2);
    assert GcsRun(map[], [e0, e1]).t.records["h"] == Record("a/1/2", "b", "a/1");
  }

  /** And the abort of the first, the fourth request, takes the second one's part
      away. The second is still tracked, and cannot complete with that part. */
  lemma AbortTakesOthersPart() returns (before: seq<Event>, abort: Event)
    ensures abort == Abort("g", Bucket("b", ""), "a", {PartKey("a/1/2", 1)}, {}, true)
    ensures forall e :: e in before + [abort] ==> InDomain(e)
    ensures var s, t := GcsRun(map[], before), GcsRun(map[], before + [abort]);
            && Accepts(s.t, "g", Bucket("b", ""), "a")
            && "h" in s.t.records && s.t.records["h"] == Record("a/1/2", "b", "a/1")
            && PartKey("a/1/2", 1) in s.objects && PartKey("a/1/2", 1) !in t.objects
            && "h" in t.t.records && t.t.records["h"].backendId == "a/1/2"
            && (forall e: Event :: e.Complete? && e.gw == "h" && e.numbers == [1] ==> !GcsSucceeds(t, e))
  {
    hide GcsRun, PartKey, PartPrefix, Reaches;
    before := ThreeRequests();
    abort := Abort("g", Bucket("b", ""), "a", {PartKey("a/1/2", 1)}, {}, true);
    GcsRunStep(map[], before, abort);
    PartPrefixReachesIff("a/1", "a/1/2", 1);
    SelfContinues("a/1", "2");
    assert "a/1" + "/" + "2" == "a/1/2";
    PartKeysOfOne("a/1/2", 1);
  }

  lemma SelfContinues(u: string, rest: string)
    ensures Reaches(u, u + "/" + rest)
  {
    assert (u + "/" + rest)[..|u| + 1] == u + "/";
  }

  lemma PartKeysOfOne(id: string, n: int)
    ensures PartKeys(id, [n]) == [PartKey(id, n)] && PartKey(id, n) in PartKeys(id, [n])
  {
    hide PartKey;
  }

  // ---------------------------------------------------------------------------
  // On the local backend
  // ---------------------------------------------------------------------------

  /** There an abort takes away parts of its own upload only. */
  lemma LocalAbortIsIsolated(objects: Objects, events: seq<Event>, e: Event, h: string, n: int)
    requires e.Abort? && h != e.gw && h in LocalRun(objects, events).t.records
    ensures var s := LocalRun(objects, events);
            var part := (s.t.records[h].backendId, n);
            var after := LocalStep(s, e).parts;
            (part in after <==> part in s.parts) && (part in after ==> after[part] == s.parts[part])
  {
    hide LocalRun;
    LocalInvHolds(objects, events);
  }
}
