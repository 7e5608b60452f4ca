/** Multipart uploads on GCS (internal/api/s3/multipart.go, internal/backend/gcs.go)
    when requests overlap: looking the record up, storing a part, reading each part
    for the compose and publishing the object are steps of their own, and steps of
    different requests interleave in any way. */
module MultipartSteps {
  import opened Strings
  import opened Strconv
  import opened Compose
  import opened Multipart

  /** For each upload and part number the bytes last stored. */
  type Stored = map<(string, int), Bytes>

  /** A request that has looked its record up. A completion reads its parts in
      order; `at` says at which instants. */
  datatype Request =
    | Storing(gw: string, id: string, number: int)
    | Completing(gw: string, id: string, dest: string, numbers: seq<int>, pieces: seq<Bytes>, at: seq<nat>, since: nat)
    | Published(gw: string, dest: string, numbers: seq<int>, pieces: seq<Bytes>, at: seq<nat>, since: nat, until: nat)

  /** `ids` has every upload ever created, `tracked` those with a record. Each write
      of a part makes a new instant; the last of `history` is now. */
  datatype State = State(
    objects: Objects,
    ids: map<string, string>,
    tracked: set<string>,
    usedTimes: set<nat>,
    history: seq<Stored>,
    requests: map<nat, Request>)
  {
    function Now(): Stored
      requires history != []
    {
      history[|history| - 1]
    }
  }

  /** `Write` and `Remove` are everything else that happens to the bucket: puts and
      deletes, temporary objects, the sweeps of aborts and the background deletes. */
  datatype Step =
    | Create(gw: string, backendKey: string, time: nat)
    | StartUpload(request: nat, gw: string, number: int)
    | Store(request: nat, body: Bytes)
    | StartComplete(request: nat, gw: string, dest: string, numbers: seq<int>)
    | ReadPart(request: nat)
    | Publish(request: nat)
    | Forget(gw: string)
    | GiveUp(request: nat)
    | Write(k: string, body: Bytes)
    | Remove(k: string)

  function Joined(pieces: seq<Bytes>): Bytes {
    if pieces == [] then [] else Joined(pieces[..|pieces| - 1]) + pieces[|pieces| - 1]
  }

  ghost predicate Init(s: State) {
    s.ids == map[] && s.tracked == {} && s.usedTimes == {} && s.history == [map[]] && s.requests == map[]
    && Unstaged(s.objects)
  }

  function Apply(s: State, step: Step): (t: Option<State>)
    requires s.history != []
    ensures t.Some? ==> t.value.history != []
  {
    var now := |s.history| - 1;
    match step
    case Create(gw, backendKey, time) =>
      if gw in s.ids || time in s.usedTimes then None
      else Some(s.(ids := s.ids[gw := GcsUploadId(backendKey, time)], tracked := s.tracked + {gw},
                   usedTimes := s.usedTimes + {time}))
    case StartUpload(r, gw, number) =>
      if r in s.requests || gw !in s.tracked || gw !in s.ids || !ValidNumber(number) then None
      else Some(s.(requests := s.requests[r := Storing(gw, s.ids[gw], number)]))
    case Store(r, body) =>
      if r !in s.requests || !s.requests[r].Storing? then None
      else
        var q := s.requests[r];
        Some(s.(objects := s.objects[PartKey(q.id, q.number) := body],
                history := s.history + [s.Now()[(q.gw, q.number) := body]], requests := s.requests - {r}))
    case StartComplete(r, gw, dest, numbers) =>
      if r in s.requests || gw !in s.tracked || gw !in s.ids || !UserKey(dest) then None
      else Some(s.(requests := s.requests[r := Completing(gw, s.ids[gw], dest, numbers, [], [], now)]))
    case ReadPart(r) =>
      if r !in s.requests || !s.requests[r].Completing? then None
      else
        var q := s.requests[r];
        if |q.pieces| >= |q.numbers| || PartKey(q.id, q.numbers[|q.pieces|]) !in s.objects then None
        else
          var piece := s.objects[PartKey(q.id, q.numbers[|q.pieces|])];
          Some(s.(requests := s.requests[r := Completing(q.gw, q.id, q.dest, q.numbers, q.pieces + [piece],
                                                         q.at + [now], q.since)]))
    case Publish(r) =>
      if r !in s.requests || !s.requests[r].Completing? then None
      else
        var q := s.requests[r];
        if |q.pieces| != |q.numbers| then None
        else Some(s.(objects := s.objects[q.dest := Joined(q.pieces)],
                     requests := s.requests[r := Published(q.gw, q.dest, q.numbers, q.pieces, q.at, q.since, now)]))
    case Forget(gw) => Some(s.(tracked := s.tracked - {gw}))
    case GiveUp(r) => Some(s.(requests := s.requests - {r}))
    case Write(k, body) =>
      if "_sgw_parts/" <= k then None else Some(s.(objects := s.objects[k := body]))
    case Remove(k) => Some(s.(objects := s.objects - {k}))
  }

  ghost predicate Reachable(s: State, n: nat)
    decreases n
  {
    if n == 0 then Init(s)
    else exists r: State, step: Step :: r.history != [] && Reachable(r, n - 1) && Apply(r, step) == Some(s)
  }

  // ---------------------------------------------------------------------------
  // The invariant
  // ---------------------------------------------------------------------------

  ghost predicate IdsApart(s: State) {
    && s.tracked <= s.ids.Keys
    && (forall g, h | g in s.ids && h in s.ids :: s.ids[g] == s.ids[h] ==> g == h)
    && (forall g, key: string, time: nat | g in s.ids && time !in s.usedTimes :: s.ids[g] != GcsUploadId(key, time))
  }

  /** What is staged is what was last stored, and under IDs already drawn. */
  ghost predicate StagedRight(s: State)
    requires s.history != []
  {
    && (forall g, n :: g in s.ids && PartKey(s.ids[g], n) in s.objects
          ==> (g, n) in s.Now() && s.objects[PartKey(s.ids[g], n)] == s.Now()[(g, n)])
    && (forall key: string, time: nat, n: int :: time !in s.usedTimes
          ==> PartKey(GcsUploadId(key, time), n) !in s.objects)
  }

  /** Each piece is what was last stored for its part of this upload at the instant
      it was read, and the instants do not go back and lie within the request. */
  ghost predicate PiecesRight(history: seq<Stored>, gw: string, numbers: seq<int>, pieces: seq<Bytes>, at: seq<nat>,
                              since: nat, until: nat)
  {
    && |pieces| == |at| <= |numbers| && since <= until < |history|
    && (forall k :: 0 <= k < |pieces| ==>
          since <= at[k] <= until && (gw, numbers[k]) in history[at[k]]
          && history[at[k]][(gw, numbers[k])] == pieces[k])
    && (forall j, k :: 0 <= j < k < |at| ==> at[j] <= at[k])
  }

  ghost predicate RequestRight(s: State, q: Request)
    requires s.history != []
  {
    match q
    case Storing(gw, id, _) => gw in s.ids && s.ids[gw] == id
    case Completing(gw, id, dest, numbers, pieces, at, since) =>
      gw in s.ids && s.ids[gw] == id && UserKey(dest)
      && PiecesRight(s.history, gw, numbers, pieces, at, since, |s.history| - 1)
    case Published(gw, _, numbers, pieces, at, since, until) =>
      |pieces| == |numbers| && PiecesRight(s.history, gw, numbers, pieces, at, since, until)
  }

  ghost predicate Inv(s: State) {
    && s.history != [] && IdsApart(s) && StagedRight(s)
    && (forall r :: r in s.requests ==> RequestRight(s, s.requests[r]))
  }

  lemma PiecesLater(history: seq<Stored>, more: seq<Stored>, gw: string, numbers: seq<int>, pieces: seq<Bytes>,
                    at: seq<nat>, since: nat, until: nat, until': nat)
    requires PiecesRight(history, gw, numbers, pieces, at, since, until)
    requires history <= more && until <= until' && (until' == until || until' < |more|)
    ensures PiecesRight(more, gw, numbers, pieces, at, since, until')
  {
    forall k | 0 <= k < |pieces| ensures more[at[k]] == history[at[k]] {}
  }

  /** A request the step does not touch stays right. */
  lemma RequestLater(s: State, t: State, q: Request)
    requires s.history != [] && t.history != [] && RequestRight(s, q)
    requires s.history <= t.history && forall g :: g in s.ids ==> g in t.ids && t.ids[g] == s.ids[g]
    ensures RequestRight(t, q)
  {
    hide PiecesRight;
    match q
    case Storing(_, _, _) =>
    case Completing(gw, id, dest, numbers, pieces, at, since) =>
      PiecesLater(s.history, t.history, gw, numbers, pieces, at, since, |s.history| - 1, |t.history| - 1);
    case Published(gw, _, numbers, pieces, at, since, until) =>
      PiecesLater(s.history, t.history, gw, numbers, pieces, at, since, until, until);
  }

  lemma OnePieceMore(history: seq<Stored>, gw: string, numbers: seq<int>, pieces: seq<Bytes>, at: seq<nat>,
                     since: nat, piece: Bytes)
    requires history != [] && PiecesRight(history, gw, numbers, pieces, at, since, |history| - 1)
    requires |pieces| < |numbers| && (gw, numbers[|pieces|]) in history[|history| - 1]
    requires history[|history| - 1][(gw, numbers[|pieces|])] == piece
    ensures PiecesRight(history, gw, numbers, pieces + [piece], at + [|history| - 1], since, |history| - 1)
  {
  }

  lemma CreateKeeps(s: State, step: Step, t: State)
    requires Inv(s) && step.Create? && Apply(s, step) == Some(t)
    ensures IdsApart(t) && StagedRight(t)
  {
    hide PartKey, GcsUploadId, RequestRight;
    forall k, i, l, j | i != j ensures GcsUploadId(k, i) != GcsUploadId(l, j) { UploadIdsDiffer(k, i, l, j); }
  }

  lemma StoreKeeps(s: State, step: Step, t: State)
    requires Inv(s) && step.Store? && Apply(s, step) == Some(t)
    ensures IdsApart(t) && StagedRight(t)
  {
    hide PartKey, GcsUploadId;
    var q := s.requests[step.request];
    assert RequestRight(s, q);
    forall v, n | PartKey(v, n) == PartKey(q.id, q.number) ensures v == q.id && n == q.number {
      PartKeyInjective(v, n, q.id, q.number);
    }
  }

  lemma OthersKeep(s: State, step: Step, t: State)
    requires Inv(s) && !step.Create? && !step.Store? && Apply(s, step) == Some(t)
    ensures IdsApart(t) && StagedRight(t)
  {
    hide PartKey, GcsUploadId, Joined, PiecesRight;
    forall id, n ensures !UserKey(PartKey(id, n)) && "_sgw_parts/" <= PartKey(id, n) {
      PartKeyIsStaging(id, n);
      StartsWithParts(id, n);
    }
    if step.Publish? { assert RequestRight(s, s.requests[step.request]); }
  }

  lemma StartsWithParts(id: string, n: int)
    ensures "_sgw_parts/" <= PartKey(id, n)
  {
    hide Pad5;
    assert PartKey(id, n)[..11] == "_sgw_parts/";
  }

  lemma NewRequestRight(s: State, step: Step, t: State, r: nat)
    requires Inv(s) && Apply(s, step) == Some(t)
    requires r in t.requests && !(r in s.requests && s.requests[r] == t.requests[r])
    ensures RequestRight(t, t.requests[r])
  {
    hide PartKey, GcsUploadId, Joined, UserKey;
    if step.ReadPart? || step.Publish? {
      var q := s.requests[r];
      assert RequestRight(s, q);
      if step.ReadPart? {
        var piece := s.objects[PartKey(q.id, q.numbers[|q.pieces|])];
        OnePieceMore(s.history, q.gw, q.numbers, q.pieces, q.at, q.since, piece);
      }
    }
  }

  lemma InvStep(s: State, step: Step, t: State)
    requires Inv(s) && Apply(s, step) == Some(t)
    ensures Inv(t)
  {
    hide IdsApart, StagedRight, RequestRight, PartKey, GcsUploadId, Joined;
    if step.Create? {
      CreateKeeps(s, step, t);
    } else if step.Store? {
      StoreKeeps(s, step, t);
    } else {
      OthersKeep(s, step, t);
    }
    forall r | r in t.requests ensures RequestRight(t, t.requests[r]) {
      if r in s.requests && s.requests[r] == t.requests[r] {
        RequestLater(s, t, s.requests[r]);
      } else {
        NewRequestRight(s, step, t, r);
      }
    }
  }

  lemma InvStart(s: State)
    requires Init(s)
    ensures Inv(s)
  {
    hide PartKey;
    forall id, n ensures PartKey(id, n) !in s.objects { PartKeyIsStaging(id, n); }
  }

  lemma {:induction false} InvHolds(s: State, n: nat)
    requires Reachable(s, n)
    ensures Inv(s)
    decreases n
  {
    hide Inv, Apply;
    if n == 0 {
      InvStart(s);
    } else {
      var r: State, step: Step :| r.history != [] && Reachable(r, n - 1) && Apply(r, step) == Some(s);
      InvHolds(r, n - 1);
      InvStep(r, step, s);
    }
  }

  // ---------------------------------------------------------------------------
  // Completions
  // ---------------------------------------------------------------------------

  /** In every interleaving a completion publishes, in listed order, bytes that were
      the last stored for each listed part of this very upload at an instant
      between its start and its end, the instants never going back. */
  lemma PublishedPiecesAreRight(s: State, n: nat, r: nat, t: State)
    requires Reachable(s, n) && s.history != [] && Apply(s, Publish(r)) == Some(t)
    ensures r in s.requests && s.requests[r].Completing?
    ensures var q := s.requests[r];
            && q.dest in t.objects && t.objects[q.dest] == Joined(q.pieces) && |q.pieces| == |q.numbers|
            && PiecesRight(s.history, q.gw, q.numbers, q.pieces, q.at, q.since, |s.history| - 1)
            && (forall k :: k != q.dest ==>
                  (k in t.objects <==> k in s.objects)
                  && (k in t.objects && k in s.objects ==> t.objects[k] == s.objects[k]))
  {
    hide Reachable, Joined, PiecesRight;
    InvHolds(s, n);
    assert RequestRight(s, s.requests[r]);
  }

  /** All listed parts as they stood at one instant. */
  ghost predicate AllStored(stored: Stored, gw: string, numbers: seq<int>) {
    forall k :: 0 <= k < |numbers| ==> (gw, numbers[k]) in stored
  }

  ghost function AssemblyOf(stored: Stored, gw: string, numbers: seq<int>): Bytes
    requires AllStored(stored, gw, numbers)
  {
    if numbers == [] then []
    else AssemblyOf(stored, gw, numbers[..|numbers| - 1]) + stored[(gw, numbers[|numbers| - 1])]
  }

  /** Pieces are joined in order. */
  lemma {:induction false} JoinedSplit(a: seq<Bytes>, b: seq<Bytes>)
    ensures Joined(a + b) == Joined(a) + Joined(b)
    ensures |b| == 1 ==> Joined(b) == b[0]
  {
    if b == [] {
      assert a + b == a;
    } else {
      var n := |b| - 1;
      assert (a + b)[..|a| + n] == a + b[..n];
      JoinedSplit(a, b[..n]);
    }
  }

  lemma {:induction false} JoinedIsAssembly(stored: Stored, gw: string, numbers: seq<int>, pieces: seq<Bytes>)
    requires |pieces| == |numbers| && AllStored(stored, gw, numbers)
    requires forall k :: 0 <= k < |pieces| ==> stored[(gw, numbers[k])] == pieces[k]
    ensures Joined(pieces) == AssemblyOf(stored, gw, numbers)
  {
    if numbers != [] {
      var n := |numbers| - 1;
      JoinedIsAssembly(stored, gw, numbers[..n], pieces[..n]);
    }
  }

  /** If what is stored for the listed parts is the same at all instants at which a
      part was read, the object is the assembly of the upload at that instant: as
      when one compose reads them all, or nothing is stored meanwhile. */
  lemma QuietCompletionIsAssembly(s: State, n: nat, r: nat, t: State, stored: Stored)
    requires Reachable(s, n) && s.history != [] && Apply(s, Publish(r)) == Some(t)
    requires r in s.requests && s.requests[r].Completing?
    requires forall i, k :: i in s.requests[r].at && 0 <= k < |s.requests[r].numbers| && i < |s.history| ==>
               var part := (s.requests[r].gw, s.requests[r].numbers[k]);
               (part in s.history[i] <==> part in stored)
               && (part in s.history[i] && part in stored ==> s.history[i][part] == stored[part])
    ensures var q := s.requests[r];
            && AllStored(stored, q.gw, q.numbers) && q.dest in t.objects
            && t.objects[q.dest] == AssemblyOf(stored, q.gw, q.numbers)
  {
    hide Reachable, Apply, Joined, AssemblyOf;
    PublishedPiecesAreRight(s, n, r, t);
    var q := s.requests[r];
    forall k | 0 <= k < |q.numbers|
      ensures (q.gw, q.numbers[k]) in stored && stored[(q.gw, q.numbers[k])] == q.pieces[k]
    {
      assert q.at[k] in q.at;
    }
    JoinedIsAssembly(stored, q.gw, q.numbers, q.pieces);
  }
}
