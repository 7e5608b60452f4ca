/** Google Cloud Storage assembly of any number of objects with a compose call
    limited to 32 sources (internal/backend/gcs.go). */
module Compose {
  import opened Strings
  import opened Strconv

  type Objects = map<string, Bytes>

  const COMPOSE_LIMIT: nat := 32

  /** The name of an intermediate object: source index and clock reading. */
  function TmpKey(i: nat, t: nat): string {
    "_sgw_tmp/" + Itoa(i) + "-" + Itoa(t)
  }

  /** No key of `keys` is a temporary name the clock has yet to reach. */
  ghost predicate NotFuture(keys: set<string>, clock: nat) {
    forall i: nat, t: nat {:trigger TmpKey(i, t)} :: t > clock ==> TmpKey(i, t) !in keys
  }

  /** `k` is a temporary name made in the clock interval `(from, to]`. */
  ghost predicate MadeBetween(k: string, from: nat, to: nat) {
    exists i: nat, t: nat {:trigger TmpKey(i, t)} :: from < t <= to && k == TmpKey(i, t)
  }

  predicate AllPresent(objects: Objects, keys: seq<string>) {
    forall k :: k in keys ==> k in objects
  }

  /** The contents of `keys`, one after the other. */
  function Concat(objects: Objects, keys: seq<string>): Bytes
    requires AllPresent(objects, keys)
  {
    if keys == [] then [] else Concat(objects, keys[..|keys| - 1]) + objects[keys[|keys| - 1]]
  }

  function Elements(keys: seq<string>): set<string> {
    set k | k in keys
  }

  function Min(a: nat, b: nat): nat {
    if a < b then a else b
  }

  // ---------------------------------------------------------------------------
  // Cost of a tree over n sources
  // ---------------------------------------------------------------------------

  function Chunks(n: nat): (m: nat)
    ensures 32 * m >= n > 32 * (m - 1)
    ensures n > COMPOSE_LIMIT ==> 2 <= m < n
  {
    (n + 31) / 32
  }

  lemma ChunksCounted(n: nat, m: nat)
    requires 32 * m < n + 32
    ensures m <= Chunks(n)
    ensures n <= 32 * m ==> m == Chunks(n)
  {
  }

  function Calls(n: nat): nat {
    if n <= COMPOSE_LIMIT then 1 else Chunks(n) + Calls(Chunks(n))
  }

  function Levels(n: nat): nat {
    if n <= COMPOSE_LIMIT then 1 else 1 + Levels(Chunks(n))
  }

  function Pow32(e: nat): nat {
    if e == 0 then 1 else 32 * Pow32(e - 1)
  }

  /** The number of calls is at most (n-1)/31 plus one for each level. */
  lemma {:induction false} CallsBound(n: nat)
    requires n >= 1
    ensures 31 * Calls(n) <= n - 1 + 31 * Levels(n)
  {
    if n > COMPOSE_LIMIT { CallsBound(Chunks(n)); }
  }

  /** The number of levels is the logarithm of n to base 32, rounded up. */
  lemma {:induction false} LevelsAreLogarithm(n: nat)
    requires n >= 2
    ensures Levels(n) >= 1 && Pow32(Levels(n) - 1) < n <= Pow32(Levels(n))
  {
    if n <= COMPOSE_LIMIT {
      assert Pow32(1) == 32 * Pow32(0);
    } else {
      LevelsAreLogarithm(Chunks(n));
    }
  }

  /** One call up to 32 sources, and three for 33. */
  lemma CallsExamples()
    ensures Calls(1) == Calls(32) == 1 && Calls(33) == 3 && Calls(1024) == 33 && Calls(1025) == 36
  {
    assert Chunks(33) == 2 && Chunks(1024) == 32 && Chunks(1025) == 33;
    assert Calls(33) == 2 + Calls(2);
  }

  // ---------------------------------------------------------------------------
  // Names
  // ---------------------------------------------------------------------------

  lemma TmpKeyInjective(i: nat, t: nat, i': nat, t': nat)
    requires TmpKey(i, t) == TmpKey(i', t')
    ensures i == i' && t == t'
  {
    var p := "_sgw_tmp/";
    assert TmpKey(i, t)[|p|..] == Itoa(i) + ['-'] + Itoa(t);
    assert TmpKey(i', t')[|p|..] == Itoa(i') + ['-'] + Itoa(t');
    FirstCutUnique(Itoa(i), Itoa(t), Itoa(i'), Itoa(t'), '-');
    ItoaInjective(i, i');
    ItoaInjective(t, t');
  }

  function GcsUploadId(backendKey: string, time: nat): string {
    backendKey + "/" + Itoa(time)
  }

  function PartPrefix(uploadId: string): string {
    "_sgw_parts/" + uploadId + "/"
  }

  /** The name of a staged part. */
  function PartKey(uploadId: string, number: int): string {
    PartPrefix(uploadId) + Pad5(number)
  }

  /** Part names tell upload and number apart, though upload IDs contain slashes. */
  lemma PartKeyInjective(u: string, m: int, v: string, n: int)
    requires PartKey(u, m) == PartKey(v, n)
    ensures u == v && m == n
  {
    hide Pad5;
    var p := "_sgw_parts/";
    assert PartKey(u, m)[|p|..] == u + ['/'] + Pad5(m);
    assert PartKey(v, n)[|p|..] == v + ['/'] + Pad5(n);
    Pad5Value(m);
    Pad5Value(n);
    LastCutUnique(u, Pad5(m), v, Pad5(n), '/');
  }

  /** The names of what is staged for part 3 of an upload of "dir/k" begun at time
      7, and of an object composed of the sources from the 32nd on. */
  lemma StagingNames()
    ensures GcsUploadId("dir/k", 7) == "dir/k/7"
    ensures PartPrefix("dir/k/7") == "_sgw_parts/dir/k/7/" && PartKey("dir/k/7", 3) == "_sgw_parts/dir/k/7/00003"
    ensures TmpKey(32, 9) == "_sgw_tmp/32-9"
  {
    assert Itoa(32) == Itoa(3) + Itoa(2);
  }

  /** `v` is `u`, or continues it behind a slash. */
  predicate Reaches(u: string, v: string) {
    u == v || u + "/" <= v
  }

  lemma SlashPrefixIff(u: string, v: string, d: string)
    requires '/' !in d
    ensures u + "/" <= v + "/" + d <==> Reaches(u, v)
  {
    var s := v + "/" + d;
    assert forall k :: 0 <= k < |d| ==> d[k] in d && s[|v| + 1 + k] == d[k];
    if u + "/" <= s {
      assert s[|u|] == '/' && s[..|u|] == u;
      assert |u| <= |v|;
      if |u| < |v| {
        assert v[..|u| + 1] == s[..|u| + 1] == u + "/";
      } else {
        assert s[..|v|] == v;
      }
    }
    if u + "/" <= v { assert s[..|u| + 1] == v[..|u| + 1]; }
  }

  /** The part prefix of an upload covers a part of another if and only if the
      other's ID is its own or continues it. */
  lemma PartPrefixReachesIff(u: string, v: string, n: int)
    ensures PartPrefix(u) <= PartKey(v, n) <==> Reaches(u, v)
  {
    hide Pad5, Reaches;
    Pad5Value(n);
    SlashPrefixIff(u, v, Pad5(n));
    var p := "_sgw_parts/";
    assert PartPrefix(u) == p + (u + "/") && PartKey(v, n) == p + (v + "/" + Pad5(n));
    CommonPrefix(p, u + "/", v + "/" + Pad5(n));
  }

  lemma CommonPrefix(p: string, a: string, b: string)
    ensures p + a <= p + b <==> a <= b
  {
    assert (p + b)[|p|..] == b;
    if p + a <= p + b { assert (p + b)[|p|..|p + a|] == a == b[..|a|]; }
    if a <= b { assert (p + b)[..|p + a|] == p + b[..|a|]; }
  }

  lemma PartKeysAreNotFuture(keys: set<string>, clock: nat)
    requires forall k :: k in keys ==> exists u, n :: k == PartKey(u, n)
    ensures NotFuture(keys, clock)
  {
    forall i: nat, t: nat | t > clock ensures TmpKey(i, t) !in keys {
      forall u, n ensures TmpKey(i, t) != PartKey(u, n) { TmpIsNoPart(i, t, u, n); }
    }
  }

  lemma TmpIsNoPart(i: nat, t: nat, u: string, n: int)
    ensures TmpKey(i, t) != PartKey(u, n)
  {
    hide Itoa, Pad5;
    assert TmpKey(i, t)[5] == 't';
    assert PartKey(u, n)[5] == 'p';
  }

  /** A name made now is not one made before, nor one still to come. */
  lemma MadeIsPast(i: nat, t: nat, clock: nat)
    requires t <= clock
    ensures NotFuture({TmpKey(i, t)}, clock)
  {
    forall i': nat, t': nat | t' > clock ensures TmpKey(i', t') != TmpKey(i, t) {
      if TmpKey(i', t') == TmpKey(i, t) { TmpKeyInjective(i', t', i, t); }
    }
  }

  lemma MadeKeysArePast(keys: set<string>, from: nat, clock: nat)
    requires AllMade(keys, from, clock)
    ensures NotFuture(keys, clock)
  {
    forall i': nat, t': nat | t' > clock ensures TmpKey(i', t') !in keys {
      if TmpKey(i', t') in keys {
        var i: nat, t: nat :| from < t <= clock && TmpKey(i', t') == TmpKey(i, t);
        TmpKeyInjective(i', t', i, t);
      }
    }
  }

  // ---------------------------------------------------------------------------
  // Concatenation
  // ---------------------------------------------------------------------------

  lemma {:induction false} ConcatSplit(objects: Objects, a: seq<string>, b: seq<string>)
    requires AllPresent(objects, a) && AllPresent(objects, b)
    ensures AllPresent(objects, a + b)
    ensures Concat(objects, a + b) == Concat(objects, a) + Concat(objects, b)
  {
    if b == [] {
      assert a + b == a;
    } else {
      ConcatSplit(objects, a, b[..|b| - 1]);
      assert (a + b)[..|a + b| - 1] == a + b[..|b| - 1];
    }
  }

  lemma ConcatOne(objects: Objects, k: string)
    requires k in objects
    ensures Concat(objects, [k]) == objects[k]
  {
    assert [k][..0] == [];
  }

  lemma {:induction false} ConcatFrame(before: Objects, after: Objects, keys: seq<string>)
    requires AllPresent(before, keys)
    requires forall k :: k in keys ==> k in after && after[k] == before[k]
    ensures Concat(after, keys) == Concat(before, keys)
  {
    if keys != [] { ConcatFrame(before, after, keys[..|keys| - 1]); }
  }

  // ---------------------------------------------------------------------------
  // The assembly
  // ---------------------------------------------------------------------------

  /** What a call leaves behind: `dest` assembled if it was made and untouched if
      not, every other old key untouched, and nothing new but `leaked`. */
  ghost predicate Assembled(before: Objects, after: Objects, sources: seq<string>, dest: string,
                            made: bool, leaked: set<string>)
  {
    && after.Keys == before.Keys + leaked + (if made then {dest} else {})
    && (forall k :: k in before && (k != dest || !made) ==> after[k] == before[k])
    && (made ==> AllPresent(before, sources) && after[dest] == Concat(before, sources))
  }

  /** The intermediates stand for the first `done` sources. */
  ghost predicate Staged(before: Objects, now: Objects, sources: seq<string>, done: nat,
                         intermediates: seq<string>)
    requires done <= |sources|
  {
    && now.Keys == before.Keys + Elements(intermediates)
    && (forall k :: k in before ==> now[k] == before[k])
    && (forall k :: k in intermediates ==> k !in before)
    && AllPresent(before, sources[..done])
    && Concat(now, intermediates) == Concat(before, sources[..done])
  }

  ghost predicate AllMade(keys: set<string>, from: nat, to: nat) {
    forall k :: k in keys ==> MadeBetween(k, from, to)
  }

  lemma MadeLater(keys: set<string>, from: nat, mid: nat, tmp: string, i: nat, t: nat)
    requires AllMade(keys, from, mid) && from <= mid < t && tmp == TmpKey(i, t)
    ensures AllMade(keys + {tmp}, from, t)
  {
    forall k | k in keys ensures MadeBetween(k, from, t) {
      var i': nat, t': nat :| from < t' <= mid && k == TmpKey(i', t');
    }
    assert MadeBetween(tmp, from, t);
  }

  /** A source named before the staging began is no intermediate. */
  lemma SourcesAreOld(keys: set<string>, made: set<string>, from: nat, to: nat)
    requires NotFuture(keys, from) && AllMade(made, from, to)
    ensures keys !! made
  {
    forall k | k in made ensures k !in keys {
      var i: nat, t: nat :| from < t <= to && k == TmpKey(i, t);
    }
  }

  lemma ElementsStep(keys: seq<string>, k: string)
    ensures Elements(keys + [k]) == Elements(keys) + {k}
  {
  }

  lemma StagedStep(before: Objects, now: Objects, after: Objects, sources: seq<string>, done: nat, end: nat,
                   intermediates: seq<string>, tmp: string)
    requires done <= end <= |sources|
    requires Staged(before, now, sources, done, intermediates)
    requires Elements(sources) !! Elements(intermediates)
    requires tmp !in now
    requires AllPresent(now, sources[done..end])
    requires after == now[tmp := Concat(now, sources[done..end])]
    ensures Staged(before, after, sources, end, intermediates + [tmp])
  {
    var parts := sources[done..end];
    forall k | k in parts ensures k in before && now[k] == before[k] {
      assert k in Elements(sources);
    }
    ConcatFrame(before, now, parts);
    assert sources[..end] == sources[..done] + parts;
    ConcatSplit(before, sources[..done], parts);
    ConcatFrame(now, after, intermediates);
    assert (intermediates + [tmp])[..|intermediates|] == intermediates;
    ElementsStep(intermediates, tmp);
  }

  /** The state of one level of the tree, `done` sources on. */
  ghost predicate Level(before: Objects, now: Objects, sources: seq<string>, done: nat,
                        intermediates: seq<string>, from: nat, clock: nat)
    requires done <= |sources|
  {
    && from <= clock
    && NotFuture(now.Keys, clock)
    && AllMade(Elements(intermediates), from, clock)
    && Staged(before, now, sources, done, intermediates)
  }

  lemma SlicePresent(before: Objects, now: Objects, sources: seq<string>, done: nat, end: nat,
                     intermediates: seq<string>)
    requires done <= end <= |sources|
    requires Staged(before, now, sources, done, intermediates)
    ensures AllPresent(before, sources) ==> AllPresent(now, sources[done..end])
  {
  }

  lemma LevelStart(before: Objects, sources: seq<string>, clock: nat)
    requires NotFuture(before.Keys, clock)
    ensures Level(before, before, sources, 0, [], clock, clock)
  {
  }

  lemma LevelParts(before: Objects, now: Objects, sources: seq<string>, intermediates: seq<string>,
                   from: nat, clock: nat)
    requires Level(before, now, sources, |sources|, intermediates, from, clock)
    ensures AllMade(Elements(intermediates), from, clock)
    ensures Staged(before, now, sources, |sources|, intermediates)
  {
  }

  /** A single compose is an assembly that leaves nothing behind. */
  lemma DirectIsAssembly(before: Objects, after: Objects, sources: seq<string>, dest: string, made: bool, clock: nat)
    requires NotFuture(before.Keys, clock) && NotFuture({dest}, clock)
    requires made ==> AllPresent(before, sources) && after == before[dest := Concat(before, sources)]
    requires !made ==> after == before
    ensures Assembled(before, after, sources, dest, made, {}) && AllMade({}, clock, clock)
    ensures NotFuture(after.Keys, clock)
  {
  }

  lemma DestIsNoIntermediate(dest: string, intermediates: seq<string>, from: nat, to: nat)
    requires NotFuture({dest}, from) && AllMade(Elements(intermediates), from, to)
    ensures dest !in intermediates
  {
    SourcesAreOld({dest}, Elements(intermediates), from, to);
    assert dest in intermediates ==> dest in Elements(intermediates);
  }

  lemma MadeTogether(a: set<string>, b: set<string>, from: nat, to: nat)
    requires AllMade(a, from, to) && AllMade(b, from, to)
    ensures AllMade(a + b, from, to)
  {
  }

  lemma LevelClock(before: Objects, now: Objects, sources: seq<string>, intermediates: seq<string>,
                   from: nat, clock: nat)
    requires Level(before, now, sources, |sources|, intermediates, from, clock)
    ensures from <= clock && NotFuture(now.Keys, clock)
  {
  }

  lemma LevelStep(before: Objects, now: Objects, after: Objects, sources: seq<string>, done: nat, end: nat,
                  intermediates: seq<string>, tmp: string, from: nat, mid: nat, t: nat)
    requires done <= end <= |sources|
    requires Level(before, now, sources, done, intermediates, from, mid)
    requires NotFuture(Elements(sources), from)
    requires t > mid && tmp == TmpKey(done, t)
    requires AllPresent(now, sources[done..end])
    requires after == now[tmp := Concat(now, sources[done..end])]
    ensures Level(before, after, sources, end, intermediates + [tmp], from, t)
  {
    SourcesAreOld(Elements(sources), Elements(intermediates), from, mid);
    StagedStep(before, now, after, sources, done, end, intermediates, tmp);
    MadeLater(Elements(intermediates), from, mid, tmp, done, t);
    MadeIsPast(done, t, t);
    ElementsStep(intermediates, tmp);
  }

  /** A failure at this level: the intermediates go, but for the stuck ones. */
  lemma LevelFailed(before: Objects, now: Objects, after: Objects, sources: seq<string>, done: nat,
                    intermediates: seq<string>, dest: string, stuck: set<string>)
    requires done <= |sources|
    requires Staged(before, now, sources, done, intermediates)
    requires stuck <= Elements(intermediates) && after == now - (Elements(intermediates) - stuck)
    ensures Assembled(before, after, sources, dest, false, stuck)
    ensures stuck !! before.Keys && after.Keys <= now.Keys
  {
  }

  /** The level above has run over the intermediates, and they are deleted. */
  lemma LevelDone(before: Objects, now: Objects, tree: Objects, after: Objects, sources: seq<string>,
                  intermediates: seq<string>, dest: string, ok: bool, inner: set<string>, stuck: set<string>)
    requires Staged(before, now, sources, |sources|, intermediates)
    requires Assembled(now, tree, intermediates, dest, ok, inner)
    requires inner !! now.Keys && dest !in intermediates
    requires stuck <= Elements(intermediates) && after == tree - (Elements(intermediates) - stuck)
    ensures Assembled(before, after, sources, dest, ok, inner + stuck)
    ensures inner + stuck !! before.Keys && after.Keys <= tree.Keys
  {
    assert sources[..|sources|] == sources;
  }

  lemma AllKeptIsIntermediate(staged: seq<string>, intermediates: seq<string>, failed: set<string>)
    requires intermediates <= staged && failed <= Elements(intermediates)
    ensures var gone := Elements(intermediates) - failed;
            Elements(staged) - (Elements(staged) - gone) == gone
    ensures staged == intermediates && failed == {} ==> Elements(staged) - (Elements(intermediates) - failed) == {}
  {
  }

  lemma PastStaysPast(keys: set<string>, clock: nat, keys': set<string>, clock': nat)
    requires NotFuture(keys, clock) && keys' <= keys && clock <= clock'
    ensures NotFuture(keys', clock')
  {
  }

  lemma MadeWider(keys: set<string>, from: nat, to: nat, keys': set<string>, from': nat, to': nat)
    requires AllMade(keys, from, to) && keys' <= keys && from' <= from && to <= to'
    ensures AllMade(keys', from', to')
  {
    forall k | k in keys' ensures MadeBetween(k, from', to') {
      var i: nat, t: nat :| from < t <= to && k == TmpKey(i, t);
    }
  }

  // ---------------------------------------------------------------------------
  // How many objects are left behind
  // ---------------------------------------------------------------------------

  /** How many deletes have been refused, and how many replies lost. */
  datatype Faults = Faults(deletes: nat, replies: nat)

  /** There are no more keys than faults between the two readings. */
  ghost predicate FaultEach(keys: set<string>, before: Faults, after: Faults) {
    |keys| <= (after.deletes - before.deletes) + (after.replies - before.replies)
  }

  lemma FaultsCounted(keys: set<string>, before: Faults, after: Faults)
    requires FaultEach(keys, before, after)
    ensures |keys| <= (after.deletes - before.deletes) + (after.replies - before.replies)
  {
  }

  lemma NoLeak(before: Faults, after: Faults)
    requires before.deletes <= after.deletes && before.replies <= after.replies
    ensures FaultEach({}, before, after)
  {
  }

  lemma {:induction false} NoLarger(s: set<string>, t: set<string>)
    requires s <= t
    ensures |s| <= |t|
  {
    if k :| k in s { NoLarger(s - {k}, t - {k}); }
  }

  lemma FaultFewer(keys: set<string>, fewer: set<string>, before: Faults, after: Faults)
    requires FaultEach(keys, before, after) && fewer <= keys
    ensures FaultEach(fewer, before, after)
  {
    NoLarger(fewer, keys);
  }

  /** One more key and one more fault. */
  lemma FaultMore(keys: set<string>, k: string, before: Faults, mid: Faults, after: Faults)
    requires FaultEach(keys, before, mid)
    requires after.deletes == mid.deletes + 1 && after.replies == mid.replies
    ensures FaultEach(keys + {k}, before, after)
  {
  }

  lemma FaultsAddUp(a: set<string>, b: set<string>, before: Faults, mid: Faults, after: Faults)
    requires FaultEach(a, before, mid) && FaultEach(b, mid, after)
    ensures FaultEach(a + b, before, after)
  {
  }

  /** What a level that is given up leaves: the keys that were not deleted, and
      the object whose reply was lost. */
  lemma AbandonedAre(staged: seq<string>, intermediates: seq<string>, failed: set<string>, lost: bool,
                     before: Faults, mid: Faults, after: Faults)
    requires staged == intermediates || (lost && |staged| == |intermediates| + 1 && intermediates <= staged)
    requires mid.deletes == before.deletes && mid.replies == before.replies + if lost then 1 else 0
    requires FaultEach(failed, mid, after)
    ensures FaultEach(Elements(staged) - (Elements(intermediates) - failed), before, after)
  {
    var leaked := Elements(staged) - (Elements(intermediates) - failed);
    if staged == intermediates {
      NoLarger(leaked, failed);
    } else {
      var last := staged[|intermediates|];
      assert staged == intermediates + [last];
      ElementsStep(intermediates, last);
      NoLarger(leaked, failed + {last});
    }
  }

  /** `now` is `before` without the keys, but for the ones that failed. */
  ghost predicate Deleted(before: Objects, now: Objects, keys: seq<string>, failed: set<string>) {
    failed <= Elements(keys) && now == before - (Elements(keys) - failed)
  }

  lemma NothingDeleted(before: Objects)
    ensures Deleted(before, before, [], {})
  {
  }

  lemma AllDeleted(before: Objects, now: Objects, keys: seq<string>, failed: set<string>, from: Faults, to: Faults)
    requires Deleted(before, now, keys, failed) && FaultEach(failed, from, to)
    ensures failed <= Elements(keys) && now == before - (Elements(keys) - failed)
    ensures |failed| <= (to.deletes - from.deletes) + (to.replies - from.replies)
  {
  }

  lemma DeletedStep(before: Objects, now: Objects, keys: seq<string>, failed: set<string>, k: string)
    requires Deleted(before, now, keys, failed)
    ensures Deleted(before, now - {k}, keys + [k], failed - {k})
    ensures k in now ==> Deleted(before, now, keys + [k], failed + {k})
    ensures k !in now ==> Deleted(before, now, keys + [k], failed)
  {
    ElementsStep(keys, k);
  }

  /** The end of a level: what is left behind are the objects the level above has
      left, and the intermediates that were not deleted. */
  lemma LevelCleared(before: Objects, now: Objects, tree: Objects, after: Objects, sources: seq<string>,
                     intermediates: seq<string>, dest: string, made: bool, inner: set<string>, stuck: set<string>,
                     from: nat, mid: nat, clock: nat, start: Faults, above: Faults, end: Faults)
    requires Staged(before, now, sources, |sources|, intermediates)
    requires Assembled(now, tree, intermediates, dest, made, inner)
    requires inner !! now.Keys && dest !in intermediates
    requires stuck <= Elements(intermediates) && after == tree - (Elements(intermediates) - stuck)
    requires AllMade(inner, mid, clock) && AllMade(Elements(intermediates), from, mid) && from <= mid <= clock
    requires NotFuture(tree.Keys, clock)
    requires FaultEach(inner, start, above) && FaultEach(stuck, above, end)
    ensures Assembled(before, after, sources, dest, made, inner + stuck)
    ensures inner + stuck !! before.Keys && AllMade(inner + stuck, from, clock)
    ensures NotFuture(after.Keys, clock)
    ensures FaultEach(inner + stuck, start, end)
    ensures |inner + stuck| <= (end.deletes - start.deletes) + (end.replies - start.replies)
  {
    hide Assembled, AllMade, NotFuture, Staged, FaultEach;
    LevelDone(before, now, tree, after, sources, intermediates, dest, made, inner, stuck);
    MadeWider(inner, mid, clock, inner, from, clock);
    MadeWider(Elements(intermediates), from, mid, stuck, from, clock);
    MadeTogether(inner, stuck, from, clock);
    PastStaysPast(tree.Keys, clock, after.Keys, clock);
    FaultsAddUp(inner, stuck, start, above, end);
    FaultsCounted(inner + stuck, start, end);
  }

  /** Of the keys to go, `removed` are gone and `stuck` refused, and `left` to come. */
  ghost predicate Sweep(before: Objects, now: Objects, all: set<string>,
                        removed: set<string>, stuck: set<string>, left: set<string>)
  {
    && all == removed + stuck + left && removed !! stuck && removed !! left && stuck !! left
    && all <= before.Keys && now == before - removed
  }

  lemma SweepStart(before: Objects, all: set<string>)
    requires all <= before.Keys
    ensures Sweep(before, before, all, {}, {}, all)
  {
  }

  lemma SweepStep(before: Objects, now: Objects, all: set<string>,
                  removed: set<string>, stuck: set<string>, left: set<string>, k: string)
    requires Sweep(before, now, all, removed, stuck, left) && k in left
    ensures k in now
    ensures Sweep(before, now - {k}, all, removed + {k}, stuck, left - {k})
    ensures Sweep(before, now, all, removed, stuck + {k}, left - {k})
  {
  }

  lemma SweepEnd(before: Objects, now: Objects, all: set<string>,
                 removed: set<string>, stuck: set<string>, left: set<string>, from: Faults, to: Faults)
    requires Sweep(before, now, all, removed, stuck, left) && FaultEach(stuck, from, to)
    ensures now == before - removed && removed <= all && removed !! stuck
    ensures left == {} ==> removed + stuck == all
    ensures left == {} && stuck == {} ==> removed == all
    ensures |stuck| <= (to.deletes - from.deletes) + (to.replies - from.replies)
  {
  }

  class GcsBucket {
    var objects: Objects
    var clock: nat
    /** Compose calls made, and the composes and deletes the service refused. */
    ghost var composeCalls: nat
    ghost var failedComposes: nat
    /** Composes reported as failed that have been done. */
    ghost var lostReplies: nat
    ghost var failedDeletes: nat
    /** Writes and listings the service refused. */
    ghost var failedRequests: nat
    /** Keys handed to background deletion. */
    var pending: seq<string>

    /** `time.Now().UnixNano()`: strictly later at each reading. */
    method Now() returns (t: nat)
      modifies this`clock
      ensures t == clock > old(clock)
    {
      var elapsed :| elapsed >= 0;
      clock := clock + 1 + elapsed;
      t := clock;
    }

    /** One compose request. It may fail for any reason, and may have been done
        though it is reported as failed. */
    method ComposeDirect(sources: seq<string>, dest: string) returns (ok: bool, ghost made: bool)
      requires |sources| <= 32
      modifies this`objects, this`composeCalls, this`failedComposes, this`lostReplies
      ensures composeCalls == old(composeCalls) + 1
      ensures made ==> AllPresent(old(objects), sources)
                       && objects == old(objects)[dest := Concat(old(objects), sources)]
      ensures !made ==> objects == old(objects)
      ensures ok ==> made
      ensures lostReplies == old(lostReplies) + if made && !ok then 1 else 0
      ensures failedComposes >= old(failedComposes)
      ensures AllPresent(old(objects), sources) && failedComposes == old(failedComposes) ==> ok
    {
      composeCalls := composeCalls + 1;
      var carriedOut: bool := *;
      var replied: bool := *;
      made := carriedOut && AllPresent(objects, sources);
      ok := carriedOut && replied && AllPresent(objects, sources);
      if !carriedOut || !replied {
        failedComposes := failedComposes + 1;
      }
      lostReplies := lostReplies + if made && !ok then 1 else 0;
      if carriedOut && AllPresent(objects, sources) {
        objects := objects[dest := Concat(objects, sources)];
      }
    }

    /** One delete request; that the object was not there does not count. */
    method DeleteKey(k: string) returns (ghost stayed: bool)
      modifies this`objects, this`failedDeletes
      ensures objects == if stayed then old(objects) else old(objects) - {k}
      ensures stayed ==> k in objects
      ensures failedDeletes == old(failedDeletes) + if stayed then 1 else 0
    {
      var upstream: bool := *;
      stayed := !upstream && k in objects;
      failedDeletes := failedDeletes + if stayed then 1 else 0;
      if upstream {
        objects := objects - {k};
      }
    }

    /** Deletes `keys`, passing over failures; `failed` are the ones that stayed,
        each for a delete of its own that was refused. */
    method DeleteKeys(keys: seq<string>) returns (ghost failed: set<string>)
      modifies this`objects, this`failedDeletes
      ensures failed <= Elements(keys)
      ensures objects == old(objects) - (Elements(keys) - failed)
      ensures failedDeletes >= old(failedDeletes)
      ensures |failed| <= failedDeletes - old(failedDeletes)
      ensures FaultEach(failed, Faults(old(failedDeletes), old(lostReplies)), Faults(failedDeletes, lostReplies))
      ensures failedDeletes == old(failedDeletes) ==> failed == {}
    {
      hide Deleted, FaultEach;
      failed := {};
      ghost var start := Faults(failedDeletes, lostReplies);
      NothingDeleted(objects);
      NoLeak(Faults(failedDeletes, lostReplies), Faults(failedDeletes, lostReplies));
      for n := 0 to |keys|
        invariant Deleted(old(objects), objects, keys[..n], failed)
        invariant failedDeletes >= old(failedDeletes) && FaultEach(failed, start, Faults(failedDeletes, lostReplies))
      {
        DeletedStep(old(objects), objects, keys[..n], failed, keys[n]);
        assert keys[..n + 1] == keys[..n] + [keys[n]];
        ghost var before := Faults(failedDeletes, lostReplies);
        ghost var stayed := DeleteKey(keys[n]);
        if stayed {
          FaultMore(failed, keys[n], start, before, Faults(failedDeletes, lostReplies));
          failed := failed + {keys[n]};
        } else {
          FaultFewer(failed, failed - {keys[n]}, start, Faults(failedDeletes, lostReplies));
          failed := failed - {keys[n]};
        }
      }
      assert keys[..|keys|] == keys;
      AllDeleted(old(objects), objects, keys, failed, start, Faults(failedDeletes, lostReplies));
    }

    /** Composes the sources from `i` to `end` into a temporary object, the next
        intermediate of its level. */
    method ComposeChunk(sources: seq<string>, i: nat, end: nat,
                        ghost before: Objects, ghost intermediates: seq<string>, ghost from: nat)
      returns (ok: bool, tmpKey: string, ghost made: bool)
      requires i <= end <= |sources| && end - i <= COMPOSE_LIMIT
      requires Level(before, objects, sources, i, intermediates, from, clock)
      requires NotFuture(Elements(sources), from)
      modifies this`objects, this`clock, this`composeCalls, this`failedComposes, this`lostReplies
      ensures made ==> Level(before, objects, sources, end, intermediates + [tmpKey], from, clock)
      ensures !made ==> objects == old(objects) && clock >= old(clock)
      ensures ok ==> made
      ensures lostReplies == old(lostReplies) + if made && !ok then 1 else 0
      ensures composeCalls == old(composeCalls) + 1
      ensures failedComposes >= old(failedComposes)
      ensures AllPresent(before, sources) && failedComposes == old(failedComposes) ==> ok
    {
      SlicePresent(before, objects, sources, i, end, intermediates);
      var t := Now();
      tmpKey := TmpKey(i, t);
      ok, made := ComposeDirect(sources[i..end], tmpKey);
      if made {
        LevelStep(before, old(objects), objects, sources, i, end, intermediates, tmpKey, from, old(clock), t);
      }
    }

    /** Gives a level up: its intermediates are deleted. `staged` has one object
        more if the compose that failed has made it. */
    method AbandonLevel(sources: seq<string>, ghost done: nat, intermediates: seq<string>, ghost staged: seq<string>,
                        ghost dest: string, ghost before: Objects, ghost from: nat, ghost mid: nat,
                        ghost lost: bool, ghost faults: Faults)
      returns (ghost leaked: set<string>)
      requires done <= |sources| 
      requires staged == intermediates || (lost && |staged| == |intermediates| + 1 && intermediates <= staged)
      requires Level(before, objects, sources, done, staged, from, mid) && mid <= clock
      requires faults.deletes == failedDeletes && lostReplies == faults.replies + if lost then 1 else 0
      modifies this`objects, this`failedDeletes
      ensures Assembled(before, objects, sources, dest, false, leaked)
      ensures leaked !! before.Keys && AllMade(leaked, from, clock)
      ensures failedDeletes >= old(failedDeletes)
      ensures failedDeletes == old(failedDeletes) && staged == intermediates ==> leaked == {}
      ensures FaultEach(leaked, faults, Faults(failedDeletes, lostReplies))
      ensures from <= clock && NotFuture(objects.Keys, clock)
    {
      hide FaultEach;
      ghost var failed := DeleteKeys(intermediates);
      leaked := Elements(staged) - (Elements(intermediates) - failed);
      AllKeptIsIntermediate(staged, intermediates, failed);
      AbandonedAre(staged, intermediates, failed, lost,
                   faults, Faults(old(failedDeletes), lostReplies), Faults(failedDeletes, lostReplies));
      LevelFailed(before, old(objects), objects, sources, done, staged, dest, leaked);
      MadeWider(Elements(staged), from, mid, leaked, from, clock);
      PastStaysPast(old(objects).Keys, mid, objects.Keys, clock);
    }

    /** Composes `sources` 32 at a time into temporary objects, or, when a
        request fails, deletes the ones it knows of. */
    method ComposeLevel(sources: seq<string>, ghost dest: string)
      returns (ok: bool, intermediates: seq<string>, ghost leaked: set<string>)
      requires |sources| > COMPOSE_LIMIT
      requires NotFuture(objects.Keys, clock) && NotFuture(Elements(sources), clock)
      modifies this`objects, this`clock, this`composeCalls, this`failedComposes, this`lostReplies, this`failedDeletes
      ensures clock >= old(clock) && NotFuture(objects.Keys, clock)
      ensures ok ==> Level(old(objects), objects, sources, |sources|, intermediates, old(clock), clock)
      ensures failedComposes >= old(failedComposes) && lostReplies >= old(lostReplies)
      ensures AllPresent(old(objects), sources) && failedComposes == old(failedComposes) ==> ok
      ensures ok ==> |intermediates| == Chunks(|sources|)
      ensures ok ==> composeCalls == old(composeCalls) + |intermediates| && failedDeletes == old(failedDeletes)
      ensures ok ==> lostReplies == old(lostReplies)
      ensures !ok ==> Assembled(old(objects), objects, sources, dest, false, leaked)
      ensures !ok ==> leaked !! old(objects).Keys && AllMade(leaked, old(clock), clock)
      ensures failedDeletes >= old(failedDeletes)
      ensures failedDeletes == old(failedDeletes) && lostReplies == old(lostReplies) ==> leaked == {}
      ensures FaultEach(leaked, Faults(old(failedDeletes), old(lostReplies)), Faults(failedDeletes, lostReplies))
      ensures |leaked| <= (failedDeletes - old(failedDeletes)) + (lostReplies - old(lostReplies))
      ensures !ok ==> composeCalls <= old(composeCalls) + Chunks(|sources|)
    {
      hide Level, FaultEach;
      NoLeak(Faults(failedDeletes, lostReplies), Faults(failedDeletes, lostReplies));
      leaked := {};
      intermediates := [];
      ok := true;
      var i := 0;
      LevelStart(objects, sources, clock);
      while i < |sources|
        invariant ok && i == 32 * |intermediates| && i < |sources| + COMPOSE_LIMIT
        invariant Level(old(objects), objects, sources, Min(i, |sources|), intermediates, old(clock), clock)
        invariant composeCalls == old(composeCalls) + |intermediates|
        invariant failedDeletes == old(failedDeletes) && lostReplies == old(lostReplies)
        invariant failedComposes >= old(failedComposes)
      {
        var end := i + COMPOSE_LIMIT;
        if end > |sources| {
          end := |sources|;
        }
        ghost var mid := clock;
        var tmpKey;
        ghost var made;
        ok, tmpKey, made := ComposeChunk(sources, i, end, old(objects), intermediates, old(clock));
        ChunksCounted(|sources|, |intermediates| + 1);
        if !ok {
          leaked := AbandonLevel(sources, if made then end else i, intermediates,
                                 if made then intermediates + [tmpKey] else intermediates,
                                 dest, old(objects), old(clock), if made then clock else mid,
                                 made, Faults(old(failedDeletes), old(lostReplies)));
          FaultsCounted(leaked, Faults(old(failedDeletes), old(lostReplies)), Faults(failedDeletes, lostReplies));
          return;
        }
        intermediates := intermediates + [tmpKey];
        i := i + COMPOSE_LIMIT;
      }
      ChunksCounted(|sources|, |intermediates|);
      LevelClock(old(objects), objects, sources, intermediates, old(clock), clock);
    }

    /** Composes any number of sources into `dest`, through a tree of temporary
        objects when there are more than 32. `dest` is made exactly when the last
        compose is done, reported or not. */
    method ComposeTree(sources: seq<string>, dest: string)
      returns (ok: bool, ghost made: bool, ghost leaked: set<string>)
      requires NotFuture(objects.Keys, clock)
      requires NotFuture(Elements(sources), clock) && NotFuture({dest}, clock)
      modifies this`objects, this`clock, this`composeCalls, this`failedComposes, this`lostReplies, this`failedDeletes
      ensures Assembled(old(objects), objects, sources, dest, made, leaked)
      ensures leaked !! old(objects).Keys && AllMade(leaked, old(clock), clock)
      ensures failedDeletes >= old(failedDeletes) && lostReplies >= old(lostReplies)
      ensures failedDeletes == old(failedDeletes) && lostReplies == old(lostReplies) ==> leaked == {}
      ensures FaultEach(leaked, Faults(old(failedDeletes), old(lostReplies)), Faults(failedDeletes, lostReplies))
      ensures |leaked| <= (failedDeletes - old(failedDeletes)) + (lostReplies - old(lostReplies))
      ensures ok ==> made && lostReplies == old(lostReplies)
      ensures made && !ok ==> lostReplies > old(lostReplies)
      ensures failedComposes >= old(failedComposes)
      ensures AllPresent(old(objects), sources) && failedComposes == old(failedComposes) ==> ok
      ensures clock >= old(clock) && NotFuture(objects.Keys, clock)
      ensures composeCalls <= old(composeCalls) + Calls(|sources|)
      ensures ok ==> composeCalls == old(composeCalls) + Calls(|sources|)
      decreases |sources|
    {
      hide Assembled, AllMade, NotFuture, Level, Staged, FaultEach;
      leaked, made := {}, false;
      if |sources| <= COMPOSE_LIMIT {
        ok, made := ComposeDirect(sources, dest);
        DirectIsAssembly(old(objects), objects, sources, dest, made, clock);
        NoLeak(Faults(old(failedDeletes), old(lostReplies)), Faults(failedDeletes, lostReplies));
        return;
      }
      var intermediates;
      ok, intermediates, leaked := ComposeLevel(sources, dest);
      if !ok {
        return;
      }
      ghost var mid, now := clock, objects;
      LevelParts(old(objects), now, sources, intermediates, old(clock), mid);
      MadeKeysArePast(Elements(intermediates), old(clock), mid);
      DestIsNoIntermediate(dest, intermediates, old(clock), mid);
      PastStaysPast({dest}, old(clock), {dest}, mid);
      ok, made, leaked := ComposeTree(intermediates, dest);
      ghost var tree, inner := objects, leaked;
      ghost var faults := Faults(failedDeletes, lostReplies);
      ghost var stuck := DeleteKeys(intermediates);
      leaked := inner + stuck;
      LevelCleared(old(objects), now, tree, objects, sources, intermediates, dest, made, inner, stuck,
                   old(clock), mid, clock,
                   Faults(old(failedDeletes), old(lostReplies)), faults, Faults(failedDeletes, lostReplies));
    }

    /** No upstream call: the upload ID is made of the key and the time. */
    method CreateMultipartUpload(key: string) returns (uploadId: string, ghost t: nat)
      modifies this`clock
      ensures t == clock > old(clock) && uploadId == GcsUploadId(key, t)
    {
      var now := Now();
      uploadId, t := GcsUploadId(key, now), now;
    }

    /** Writes a part. A write that fails may have stored what it had read, and one
        that succeeds may be reported as failed. */
    method UploadPart(uploadId: string, number: int, body: Bytes) returns (ok: bool, ghost stored: Option<Bytes>)
      modifies this`objects, this`failedRequests
      ensures ok ==> stored == Some(body)
      ensures stored.Some? ==> stored.value <= body
                               && objects == old(objects)[PartKey(uploadId, number) := stored.value]
      ensures stored.None? ==> objects == old(objects)
      ensures failedRequests >= old(failedRequests) && (ok <==> failedRequests == old(failedRequests))
    {
      var read: nat :| read <= |body|;
      var closed: bool := *;
      if closed {
        objects := objects[PartKey(uploadId, number) := body[..read]];
      }
      stored := if closed then Some(body[..read]) else None;
      assert read == |body| ==> body[..read] == body;
      var attrs: bool := *;
      ok := closed && read == |body| && attrs;
      if read < |body| || !closed || !attrs {
        failedRequests := failedRequests + 1;
      }
    }

    /** Assembles the listed parts into `key` and leaves them to be deleted. The
        object can be there although an error is reported. */
    method CompleteMultipartUpload(uploadId: string, numbers: seq<int>, key: string)
      returns (ok: bool, ghost composed: bool, ghost leaked: set<string>)
      requires NotFuture(objects.Keys, clock) && NotFuture({key}, clock)
      modifies this
      ensures NotFuture(objects.Keys, clock) && clock >= old(clock)
      ensures Assembled(old(objects), objects, PartKeys(uploadId, numbers), key, composed, leaked)
      ensures leaked !! old(objects).Keys && AllMade(leaked, old(clock), clock)
      // No more is left behind than deletes were refused and replies lost.
      ensures failedDeletes >= old(failedDeletes) && lostReplies >= old(lostReplies)
      ensures |leaked| <= (failedDeletes - old(failedDeletes)) + (lostReplies - old(lostReplies))
      // Parts are only given up for an object that is there.
      ensures pending == old(pending) || (composed && pending == old(pending) + PartKeys(uploadId, numbers))
      ensures ok || (composed && lostReplies == old(lostReplies))
              ==> pending == old(pending) + PartKeys(uploadId, numbers)
      ensures AllPresent(old(objects), PartKeys(uploadId, numbers)) && failedComposes == old(failedComposes)
              ==> composed
      ensures ok ==> composed
      // Reported as failed only when a compose was, or the answer to it got lost.
      ensures failedComposes >= old(failedComposes) && failedRequests >= old(failedRequests)
      ensures AllPresent(old(objects), PartKeys(uploadId, numbers)) && !ok
              ==> failedComposes > old(failedComposes) || failedRequests > old(failedRequests)
    {
      hide Assembled, AllMade, NotFuture, PartKey;
      var partKeys: seq<string> := [];
      for i := 0 to |numbers|
        invariant partKeys == PartKeys(uploadId, numbers[..i])
      {
        partKeys := partKeys + [PartKey(uploadId, numbers[i])];
      }
      assert numbers[..|numbers|] == numbers;
      assert forall k :: k in Elements(partKeys) ==> exists u, n :: k == PartKey(u, n);
      PartKeysAreNotFuture(Elements(partKeys), clock);
      ok, composed, leaked := ComposeTree(partKeys, key);
      if ok {
        pending := pending + partKeys;
        var attrs: bool := *;
        failedRequests := failedRequests + if attrs then 0 else 1;
        ok := attrs;
      }
    }

    /** Background deletion of a part of a completed upload; it may fail. */
    method DeletePending(i: nat) returns (ok: bool)
      requires i < |pending|
      modifies this`objects, this`failedDeletes
      ensures objects == if ok then old(objects) - {pending[i]} else old(objects)
      ensures failedDeletes == old(failedDeletes) + if ok then 0 else 1
    {
      ok := *;
      failedDeletes := failedDeletes + if ok then 0 else 1;
      if ok {
        objects := objects - {pending[i]};
      }
    }

    /** Lists what is staged under the upload ID and deletes it one by one, until
        the listing fails; failed deletes are ignored. */
    method AbortMultipartUpload(uploadId: string)
      returns (ok: bool, ghost removed: set<string>, ghost stuck: set<string>)
      modifies this`objects, this`failedDeletes, this`failedRequests
      ensures objects == old(objects) - removed
      ensures forall k :: k in removed ==> PartPrefix(uploadId) <= k
      // Of what is listed only that stays whose own delete is refused.
      ensures removed !! stuck && |stuck| <= failedDeletes - old(failedDeletes)
      ensures ok ==> removed + stuck == set k | k in old(objects) && PartPrefix(uploadId) <= k
      ensures failedDeletes >= old(failedDeletes) && failedRequests >= old(failedRequests)
      ensures ok <==> failedRequests == old(failedRequests)
      ensures ok && failedDeletes == old(failedDeletes) ==> forall k :: k in objects ==> !(PartPrefix(uploadId) <= k)
    {
      hide PartPrefix, Sweep, FaultEach;
      removed, stuck := {}, {};
      var left := set k | k in objects && PartPrefix(uploadId) <= k;
      ghost var staged := left;
      SweepStart(objects, staged);
      NoLeak(Faults(failedDeletes, 0), Faults(failedDeletes, 0));
      while left != {}
        invariant Sweep(old(objects), objects, staged, removed, stuck, left)
        invariant failedDeletes >= old(failedDeletes) && failedRequests == old(failedRequests)
        invariant FaultEach(stuck, Faults(old(failedDeletes), 0), Faults(failedDeletes, 0))
      {
        var listed: bool := *;
        if !listed {
          failedRequests := failedRequests + 1;
          break;
        }
        var k :| k in left;
        SweepStep(old(objects), objects, staged, removed, stuck, left, k);
        ghost var before := Faults(failedDeletes, 0);
        ghost var stayed := DeleteKey(k);
        if stayed {
          FaultMore(stuck, k, Faults(old(failedDeletes), 0), before, Faults(failedDeletes, 0));
          stuck := stuck + {k};
        } else {
          removed := removed + {k};
        }
        left := left - {k};
      }
      SweepEnd(old(objects), objects, staged, removed, stuck, left,
               Faults(old(failedDeletes), 0), Faults(failedDeletes, 0));
      // The end of the listing is an answer that can fail, too.
      var finished: bool := *;
      if left == {} && !finished {
        failedRequests := failedRequests + 1;
      }
      ok := left == {} && finished;
    }
  }

  function PartKeys(uploadId: string, numbers: seq<int>): seq<string> {
    seq(|numbers|, i requires 0 <= i < |numbers| => PartKey(uploadId, numbers[i]))
  }
}
