/** How old a cached answer can be (internal/registry/cache.go) when readers,
    writers, evictions and expiry interleave in any way, and evictions may be
    lost. A reader's database query and its cache write are separate steps. */
module Staleness {
  import opened Strings
  import opened Strconv
  import opened Models
  import opened Database
  import opened CachedRegistry

  datatype Item = KeyItem(accessKey: string) | BucketItem(bucket: string)

  /** What the cache holds for an item. */
  datatype Held = NotFound | KeyHeld(key: CachedKey) | BucketHeld(bucket: CachedBucket)

  /** The database's answer for an item, as the cache would hold it. */
  ghost function Projection(db: Db, item: Item): Held
    requires Consistent(db)
  {
    match item
    case KeyItem(k) =>
      (match FindKey(db, k) case None => NotFound case Some(row) => KeyHeld(ProjectKey(row)))
    case BucketItem(b) =>
      (match FindBucket(db, b) case None => NotFound case Some(rb) => BucketHeld(ProjectBucket(rb)))
  }

  /** What the cache holds, field by field, is a row's; "not found" means that no
      row is there. */
  lemma HeldIsRow(db: Db, k: string, b: string)
    requires Consistent(db)
    ensures var held := Projection(db, KeyItem(k));
            && (held.KeyHeld? ==>
                  exists id | id in db.keys :: var row, c := db.keys[id], held.key;
                    && row.accessKey == k && !row.revoked
                    && c.tenantId == row.tenantId && c.secretEnc == row.secretEnc && c.readonly == row.readonly
                    && c.createdSeconds == row.createdAt / 1_000_000_000)
            && (!held.KeyHeld? ==>
                  held.NotFound? && forall id :: id in db.keys && db.keys[id].accessKey == k ==> db.keys[id].revoked)
    ensures var held := Projection(db, BucketItem(b));
            && (held.BucketHeld? ==>
                  exists id | id in db.mappings :: var m, c := db.mappings[id], held.bucket;
                    && m.gatewayBucket == b && c.storeId == m.storeId && m.storeId in db.stores
                    && c.backendBucket == ParseBackendBucket(m.backendBucket).0
                    && var store := db.stores[m.storeId];
                       && c.tenantId == store.tenantId && c.backendType == store.backendType
                       && c.configEnc == store.configEnc && c.presignedMode == store.presignedMode
                       && c.allowedOrigins == store.allowedOrigins)
            && (!held.BucketHeld? ==>
                  held.NotFound? && forall id :: id in db.mappings ==> db.mappings[id].gatewayBucket != b)
  {
    hide ParseBackendBucket;
    FoundMapping(db, b);
    if id :| ActiveKey(db, id, k) {
      FindKeyIs(db, id);
    } else {
      assert forall id :: id in db.keys && db.keys[id].accessKey == k && !db.keys[id].revoked ==> ActiveKey(db, id, k);
    }
  }

  /** A moment of a run: its time and the tables then. */
  datatype Instant = Instant(time: nat, db: Db)

  /** A read under way: its answer and the instant it was given. */
  datatype Read = Read(item: Item, held: Held, readAt: nat)

  /** An entry, with the instant its answer was read and the time it was set. */
  datatype Slot = Slot(held: Held, expires: Option<nat>, readAt: nat, setAt: nat)

  datatype State = State(history: seq<Instant>, cache: map<Item, Slot>, readers: map<nat, Read>)
  {
    ghost predicate WellFormed() {
      && history != []
      && (forall i :: 0 <= i < |history| ==> Consistent(history[i].db))
      && (forall i, j :: 0 <= i <= j < |history| ==> history[i].time <= history[j].time)
    }

    function Now(): Instant
      requires history != []
    {
      history[|history| - 1]
    }

    predicate LiveAt(item: Item)
      requires history != []
    {
      item in cache && (cache[item].expires.None? || Now().time < cache[item].expires.value)
    }
  }

  function Duration(ttl: int, held: Held): int {
    if held.NotFound? then NEGATIVE_TTL else ttl
  }

  function ExpiryAt(time: nat, d: int): Option<nat> {
    if d <= 0 then None else Some(time + d)
  }

  datatype Step =
    | Tick(d: nat)
    | Write(db: Db)
    | Query(reader: nat, item: Item)
    | Set(reader: nat)
    | GiveUp(reader: nat)
    | Evict(item: Item)

  ghost predicate Init(s: State) {
    s.WellFormed() && |s.history| == 1 && s.cache == map[] && s.readers == map[]
  }

  /** One step of a run. A lost eviction is no step; an expired entry is not live
      and may be evicted at any time. */
  ghost predicate Next(ttl: int, s: State, step: Step, t: State)
    requires s.WellFormed()
  {
    match step
    case Tick(d) =>
      t == s.(history := s.history + [Instant(s.Now().time + d, s.Now().db)])
    case Write(db) =>
      Consistent(db) && t == s.(history := s.history + [Instant(s.Now().time, db)])
    case Query(r, item) =>
      && r !in s.readers
      && t == s.(readers := s.readers[r := Read(item, Projection(s.Now().db, item), |s.history| - 1)])
    case Set(r) =>
      && r in s.readers
      && var read := s.readers[r];
         var now := s.Now().time;
         var slot := Slot(read.held, ExpiryAt(now, Duration(ttl, read.held)), read.readAt, now);
         t == s.(cache := s.cache[read.item := slot], readers := s.readers - {r})
    case GiveUp(r) =>
      t == s.(readers := s.readers - {r})
    case Evict(item) =>
      t == s.(cache := s.cache - {item})
  }

  ghost predicate IsRun(ttl: int, states: seq<State>, steps: seq<Step>) {
    && |states| == |steps| + 1
    && Init(states[0])
    && (forall i :: 0 <= i < |states| ==> states[i].WellFormed())
    && (forall i :: 0 <= i < |steps| ==> Next(ttl, states[i], steps[i], states[i + 1]))
  }

  /** Steps lead from well-formed states to well-formed states, so a run's states
      being so restricts nothing. */
  lemma NextKeepsWellFormed(ttl: int, s: State, step: Step, t: State)
    requires s.WellFormed() && Next(ttl, s, step, t)
    ensures t.WellFormed()
  {
    hide Consistent, Projection;
    var n := |s.history|;
    assert forall i :: 0 <= i < n ==> t.history[i] == s.history[i];
    assert forall i :: 0 <= i < n ==> s.history[i].time <= s.history[n - 1].time;
  }

  // ---------------------------------------------------------------------------
  // The invariant
  // ---------------------------------------------------------------------------

  /** An answer is what the tables said at the instant it was read. */
  ghost predicate AnsweredAt(s: State, item: Item, held: Held, readAt: nat)
    requires s.WellFormed()
  {
    readAt < |s.history| && held == Projection(s.history[readAt].db, item)
  }

  ghost predicate Inv(ttl: int, s: State)
    requires s.WellFormed()
  {
    && (forall r :: r in s.readers ==>
          AnsweredAt(s, s.readers[r].item, s.readers[r].held, s.readers[r].readAt))
    && (forall item :: item in s.cache ==> SlotRight(ttl, s, item, s.cache[item]))
  }

  lemma LaterStillAnswered(s: State, t: State, item: Item, held: Held, readAt: nat)
    requires s.WellFormed() && t.WellFormed() && s.history <= t.history
    requires AnsweredAt(s, item, held, readAt)
    ensures AnsweredAt(t, item, held, readAt) && t.history[readAt] == s.history[readAt]
    ensures s.Now().time <= t.Now().time
  {
    assert t.history[|s.history| - 1] == s.Now();
  }

  ghost predicate SlotRight(ttl: int, s: State, item: Item, slot: Slot)
    requires s.WellFormed()
  {
    && AnsweredAt(s, item, slot.held, slot.readAt)
    && s.history[slot.readAt].time <= slot.setAt <= s.Now().time
    && slot.expires == ExpiryAt(slot.setAt, Duration(ttl, slot.held))
  }

  lemma SlotLater(ttl: int, s: State, t: State, item: Item, slot: Slot)
    requires s.WellFormed() && t.WellFormed() && s.history <= t.history && SlotRight(ttl, s, item, slot)
    ensures SlotRight(ttl, t, item, slot)
  {
    hide Projection, Consistent;
    LaterStillAnswered(s, t, item, slot.held, slot.readAt);
  }

  lemma InvStep(ttl: int, s: State, step: Step, t: State)
    requires s.WellFormed() && t.WellFormed() && Inv(ttl, s) && Next(ttl, s, step, t)
    ensures Inv(ttl, t)
  {
    hide Projection, Consistent, SlotRight, AnsweredAt;
    assert s.history <= t.history;
    forall r | r in t.readers
      ensures AnsweredAt(t, t.readers[r].item, t.readers[r].held, t.readers[r].readAt)
    {
      var read := t.readers[r];
      if r in s.readers && s.readers[r] == read {
        LaterStillAnswered(s, t, read.item, read.held, read.readAt);
      } else {
        AnsweredNow(t, read.item, read.held, read.readAt);
      }
    }
    forall item | item in t.cache ensures SlotRight(ttl, t, item, t.cache[item]) {
      var slot := t.cache[item];
      if !(item in s.cache && s.cache[item] == slot) {
        var read := s.readers[step.reader];
        SetNow(ttl, s, read.item, read.held, read.readAt, slot);
      }
      SlotLater(ttl, s, t, item, slot);
    }
  }

  lemma AnsweredNow(s: State, item: Item, held: Held, readAt: nat)
    requires s.WellFormed() && readAt == |s.history| - 1 && held == Projection(s.Now().db, item)
    ensures AnsweredAt(s, item, held, readAt)
  {
  }

  lemma SetNow(ttl: int, s: State, item: Item, held: Held, readAt: nat, slot: Slot)
    requires s.WellFormed() && AnsweredAt(s, item, held, readAt)
    requires slot == Slot(held, ExpiryAt(s.Now().time, Duration(ttl, held)), readAt, s.Now().time)
    ensures SlotRight(ttl, s, item, slot)
  {
    hide Projection, Consistent;
  }

  lemma RunParts(ttl: int, states: seq<State>, steps: seq<Step>, i: nat)
    requires IsRun(ttl, states, steps) && i < |states|
    ensures states[i].WellFormed()
    ensures i > 0 ==> states[i - 1].WellFormed() && Next(ttl, states[i - 1], steps[i - 1], states[i])
    ensures i == 0 ==> Inv(ttl, states[i])
  {
    hide Next;
  }

  lemma {:induction false} InvHolds(ttl: int, states: seq<State>, steps: seq<Step>, i: nat)
    requires IsRun(ttl, states, steps) && i < |states|
    ensures Inv(ttl, states[i])
  {
    hide Inv, Next, State.WellFormed;
    RunParts(ttl, states, steps, i);
    if i > 0 {
      InvHolds(ttl, states, steps, i - 1);
      InvStep(ttl, states[i - 1], steps[i - 1], states[i]);
    }
  }

  // ---------------------------------------------------------------------------
  // The bound
  // ---------------------------------------------------------------------------

  /** The reader's own delay between its query and its cache write. */
  function Gap(s: State, item: Item): int
    requires item in s.cache && s.cache[item].readAt < |s.history|
  {
    s.cache[item].setAt - s.history[s.cache[item].readAt].time
  }

  /** The entry is what the tables said at an instant no longer ago than its
      duration and its reader's delay. */
  ghost predicate RecentAnswer(ttl: int, s: State, item: Item)
    requires s.WellFormed() && item in s.cache && s.cache[item].readAt < |s.history|
  {
    exists i: nat :: AnsweredAt(s, item, s.cache[item].held, i)
                && s.Now().time - s.history[i].time <= Duration(ttl, s.cache[item].held) + Gap(s, item)
  }

  /** With a positive ttl, at every point of every run, every live entry is a
      recent answer. */
  lemma BoundedStaleness(ttl: int, states: seq<State>, steps: seq<Step>, i: nat, item: Item)
    requires ttl > 0 && IsRun(ttl, states, steps) && i < |states|
    requires states[i].LiveAt(item)
    ensures states[i].cache[item].readAt < |states[i].history|
    ensures RecentAnswer(ttl, states[i], item)
    // The answer was given at one instant and set at a later time, no more than
    // 30 seconds ago if it is "not found" and no more than ttl if not.
    ensures var s, slot := states[i], states[i].cache[item];
            && slot.held == Projection(s.history[slot.readAt].db, item)
            && s.history[slot.readAt].time <= slot.setAt <= s.history[|s.history| - 1].time
            && s.history[|s.history| - 1].time - slot.setAt < if slot.held.NotFound? then 30_000_000_000 else ttl
  {
    hide Projection;
    InvHolds(ttl, states, steps, i);
    var s := states[i];
    assert SlotRight(ttl, s, item, s.cache[item]);
    assert AnsweredAt(s, item, s.cache[item].held, s.cache[item].readAt);
  }

  /** An access key that no table has held since instant `gone` is refused once
      ttl and the reader's delay have passed: no live entry vouches for it. */
  lemma RevokedKeyDies(ttl: int, states: seq<State>, steps: seq<Step>, i: nat, accessKey: string, gone: nat)
    requires ttl > 0 && IsRun(ttl, states, steps) && i < |states|
    requires gone < |states[i].history|
    requires forall k :: gone <= k < |states[i].history|
                         ==> Projection(states[i].history[k].db, KeyItem(accessKey)) == NotFound
    requires states[i].LiveAt(KeyItem(accessKey)) && !states[i].cache[KeyItem(accessKey)].held.NotFound?
    ensures var s, item := states[i], KeyItem(accessKey);
            s.cache[item].readAt < gone
            && s.Now().time < s.history[gone].time + ttl + Gap(s, item)
  {
    hide Projection;
    InvHolds(ttl, states, steps, i);
    var s, item := states[i], KeyItem(accessKey);
    assert SlotRight(ttl, s, item, s.cache[item]);
    assert AnsweredAt(s, item, s.cache[item].held, s.cache[item].readAt);
  }

  // ---------------------------------------------------------------------------
  // Without a positive ttl there is no bound
  // ---------------------------------------------------------------------------

  ghost predicate AlwaysRecent(ttl: int) {
    forall states: seq<State>, steps: seq<Step>, item: Item |
      IsRun(ttl, states, steps) && states[|steps|].LiveAt(item)
      :: states[|steps|].cache[item].readAt < |states[|steps|].history|
         && RecentAnswer(ttl, states[|steps|], item)
  }

  lemma TakeStep(ttl: int, states: seq<State>, steps: seq<Step>, step: Step, t: State)
    requires IsRun(ttl, states, steps) && t.WellFormed() && Next(ttl, states[|steps|], step, t)
    ensures IsRun(ttl, states + [t], steps + [step])
  {
    hide Next, Init;
  }

  /** The states of a run without expiry: a key is cached, revoked, and its
      eviction lost. */
  function Revocation(db: Db, db': Db, held: Held, n: nat): State {
    var item := KeyItem("k");
    var history := [Instant(0, db)] + (if n >= 3 then [Instant(0, db')] else [])
                                    + (if n >= 4 then [Instant(1, db')] else []);
    State(history,
          if n >= 2 then map[item := Slot(held, None, 0, 0)] else map[],
          if n == 1 then map[0 := Read(item, held, 0)] else map[])
  }

  lemma RevocationSteps(ttl: int, db: Db, db': Db, held: Held)
    requires ttl <= 0
    requires Consistent(db) && Consistent(db')
    requires held.KeyHeld? && Projection(db, KeyItem("k")) == held && Projection(db', KeyItem("k")) == NotFound
    ensures forall n: nat :: Revocation(db, db', held, n).WellFormed()
    ensures var s := (n: nat) => Revocation(db, db', held, n);
            && Init(s(0)) && Next(ttl, s(0), Query(0, KeyItem("k")), s(1))
            && Next(ttl, s(1), Set(0), s(2)) && Next(ttl, s(2), Write(db'), s(3)) && Next(ttl, s(3), Tick(1), s(4))
            && s(4).LiveAt(KeyItem("k")) && s(4).cache[KeyItem("k")].readAt < |s(4).history|
            && !RecentAnswer(ttl, s(4), KeyItem("k"))
  {
    hide Projection, Consistent;
    var s1 := Revocation(db, db', held, 1);
    assert s1.readers - {0} == map[];
    assert Revocation(db, db', held, 3).history == [Instant(0, db), Instant(0, db')];
    assert Revocation(db, db', held, 4).history == [Instant(0, db), Instant(0, db'), Instant(1, db')];
  }

  lemma NeverExpires(ttl: int) returns (states: seq<State>, steps: seq<Step>)
    requires ttl <= 0
    ensures IsRun(ttl, states, steps)
    ensures states[|steps|].LiveAt(KeyItem("k"))
    ensures states[|steps|].cache[KeyItem("k")].readAt < |states[|steps|].history|
    ensures !RecentAnswer(ttl, states[|steps|], KeyItem("k"))
  {
    hide IsRun, Next, Init, RecentAnswer, Revocation, Consistent, State.WellFormed;
    var row := AccessKeyRow(1, 1, "k", [], false, 0, false);
    var db, db' := Db(map[1 := row], map[], map[]), Db(map[], map[], map[]);
    var item, held := KeyItem("k"), KeyHeld(ProjectKey(row));
    OneKeyThenNone(row, db, db');
    RevocationSteps(ttl, db, db', held);
    states, steps := [Revocation(db, db', held, 0)], [];
    StartOfRun(ttl, states[0]);
    TakeStep(ttl, states, steps, Query(0, item), Revocation(db, db', held, 1));
    states, steps := states + [Revocation(db, db', held, 1)], steps + [Query(0, item)];
    TakeStep(ttl, states, steps, Set(0), Revocation(db, db', held, 2));
    states, steps := states + [Revocation(db, db', held, 2)], steps + [Set(0)];
    TakeStep(ttl, states, steps, Write(db'), Revocation(db, db', held, 3));
    states, steps := states + [Revocation(db, db', held, 3)], steps + [Write(db')];
    TakeStep(ttl, states, steps, Tick(1), Revocation(db, db', held, 4));
    states, steps := states + [Revocation(db, db', held, 4)], steps + [Tick(1)];
  }

  lemma StartOfRun(ttl: int, s: State)
    requires Init(s)
    ensures IsRun(ttl, [s], [])
  {
  }

  lemma OneKeyThenNone(row: AccessKeyRow, db: Db, db': Db)
    requires row.id == 1 && row.accessKey == "k" && !row.revoked
    requires db == Db(map[1 := row], map[], map[]) && db' == Db(map[], map[], map[])
    ensures Consistent(db) && Consistent(db')
    ensures Projection(db, KeyItem("k")) == KeyHeld(ProjectKey(row))
    ensures Projection(db', KeyItem("k")) == NotFound
  {
    FindKeyIs(db, 1);
  }

  /** Staleness is bounded in every run if and only if the ttl is positive: Redis
      keeps an entry set with no duration, or a negative one, for ever. */
  lemma BoundedIffTtlPositive(ttl: int)
    ensures AlwaysRecent(ttl) <==> ttl > 0
  {
    if ttl > 0 {
      forall states: seq<State>, steps: seq<Step>, item: Item |
        IsRun(ttl, states, steps) && states[|steps|].LiveAt(item)
        ensures states[|steps|].cache[item].readAt < |states[|steps|].history|
                && RecentAnswer(ttl, states[|steps|], item)
      {
        BoundedStaleness(ttl, states, steps, |steps|, item);
      }
    } else {
      var states, steps := NeverExpires(ttl);
    }
  }
}
