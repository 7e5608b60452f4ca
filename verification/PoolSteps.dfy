/** The client pool (internal/backend/factory.go) under concurrent calls: every
    lock-protected section is one step, and steps of different calls interleave
    in any way. */
module PoolSteps {
  import opened Strconv
  import opened Models

  /** A client: the config it was built from, and which build made it. */
  datatype Client = Client(config: string, build: nat)

  type Slots = map<Id, Client>

  /** Where a call of `Get` stands. `since` is the instant of the call. */
  datatype Call =
    | Called(store: Id, config: string, since: nat)
    | Missed(store: Id, config: string, since: nat)
    | Built(store: Id, client: Client, since: nat)
    | Returned(store: Id, client: Client, since: nat, until: nat)

  /** `history[i]` is the pool's map at instant i, the last one being now;
      `configs` are the configs the database holds. */
  datatype State = State(history: seq<Slots>, calls: map<nat, Call>, builds: nat, configs: map<Id, string>)
  {
    function Now(): Slots
      requires history != []
    {
      history[|history| - 1]
    }
  }

  datatype Step =
    | Start(call: nat, store: Id, config: string)
    | ReadLocked(call: nat)
    | Build(call: nat, parses: bool)
    | Install(call: nat)
    | Update(store: Id, config: string)
    | Invalidate(store: Id)

  ghost predicate Init(s: State) {
    s.history == [map[]] && s.calls == map[] && s.builds == 0
  }

  /** The result of a step, if the step can be taken. */
  function Apply(s: State, step: Step): (t: Option<State>)
    requires s.history != []
    ensures t.Some? ==> t.value.history != []
  {
    var i := |s.history| - 1;
    match step
    case Start(c, store, config) =>
      // The caller brings the config that the registry, cached or not, answered.
      if c in s.calls then None
      else Some(s.(calls := s.calls[c := Called(store, config, i)]))
    case ReadLocked(c) =>
      if c !in s.calls || !s.calls[c].Called? then None
      else
        var call := s.calls[c];
        if call.store in s.Now() then
          Some(s.(calls := s.calls[c := Returned(call.store, s.Now()[call.store], call.since, i)]))
        else
          Some(s.(calls := s.calls[c := Missed(call.store, call.config, call.since)]))
    case Build(c, parses) =>
      if c !in s.calls || !s.calls[c].Missed? then None
      else if !parses then Some(s.(calls := s.calls - {c}))
      else
        var call := s.calls[c];
        Some(s.(calls := s.calls[c := Built(call.store, Client(call.config, s.builds), call.since)],
                builds := s.builds + 1))
    case Install(c) =>
      if c !in s.calls || !s.calls[c].Built? then None
      else
        var call := s.calls[c];
        if call.store in s.Now() then
          // Another call has filled the slot meanwhile.
          Some(s.(calls := s.calls[c := Returned(call.store, s.Now()[call.store], call.since, i)]))
        else
          Some(s.(history := s.history + [s.Now()[call.store := call.client]],
                  calls := s.calls[c := Returned(call.store, call.client, call.since, i + 1)]))
    case Update(store, config) =>
      Some(s.(configs := s.configs[store := config]))
    case Invalidate(store) =>
      Some(s.(history := s.history + [s.Now() - {store}]))
  }

  ghost predicate Reachable(s: State, n: nat)
    decreases n
  {
    if n == 0 then Init(s)
    else exists r: State, step: Step :: r.history != [] && Reachable(r, n - 1) && Apply(r, step) == Some(s)
  }

  // ---------------------------------------------------------------------------
  // Linearizability
  // ---------------------------------------------------------------------------

  /** The client was in the slot at an instant of the call. */
  ghost predicate InSlotDuring(history: seq<Slots>, store: Id, client: Client, since: nat, until: nat) {
    exists i: nat :: since <= i <= until && i < |history| && store in history[i] && history[i][store] == client
  }

  ghost predicate CallsConsistent(s: State) {
    forall c :: c in s.calls ==>
      && s.calls[c].since < |s.history|
      && (s.calls[c].Returned? ==>
            InSlotDuring(s.history, s.calls[c].store, s.calls[c].client, s.calls[c].since, s.calls[c].until))
  }

  /** Between two instants a slot only fills, empties or stays. */
  ghost predicate SlotMoves(history: seq<Slots>) {
    forall i, j :: 0 <= i && j == i + 1 && j < |history| ==> SlotsStep(history[i], history[j])
  }

  ghost predicate SlotsStep(a: Slots, b: Slots) {
    forall store :: store in a && store in b ==> a[store] == b[store]
  }

  ghost predicate Inv(s: State) {
    s.history != [] && CallsConsistent(s) && SlotMoves(s.history)
  }

  lemma InSlotLater(history: seq<Slots>, more: Slots, store: Id, client: Client, since: nat, until: nat)
    requires InSlotDuring(history, store, client, since, until)
    ensures InSlotDuring(history + [more], store, client, since, until)
  {
    var i: nat :| since <= i <= until && i < |history| && store in history[i] && history[i][store] == client;
    assert (history + [more])[i] == history[i];
  }

  lemma InvStep(s: State, step: Step, t: State)
    requires Inv(s) && Apply(s, step) == Some(t)
    ensures Inv(t)
  {
    var i := |s.history| - 1;
    assert t.history == s.history || t.history == s.history + [t.Now()];
    forall c | c in t.calls
      ensures t.calls[c].since < |t.history|
      ensures t.calls[c].Returned? ==>
                InSlotDuring(t.history, t.calls[c].store, t.calls[c].client, t.calls[c].since, t.calls[c].until)
    {
      if c in s.calls && t.calls[c] == s.calls[c] {
        if t.calls[c].Returned? && t.history != s.history {
          InSlotLater(s.history, t.Now(), t.calls[c].store, t.calls[c].client, t.calls[c].since, t.calls[c].until);
        }
      } else if t.calls[c].Returned? {
        assert t.history[t.calls[c].until] == t.Now();
      }
    }
  }

  lemma {:induction false} InvHolds(s: State, n: nat)
    requires Reachable(s, n)
    ensures Inv(s)
    decreases n
  {
    if n > 0 {
      var r: State, step: Step :| r.history != [] && Reachable(r, n - 1) && Apply(r, step) == Some(s);
      InvHolds(r, n - 1);
      InvStep(r, step, s);
    }
  }

  /** Every call that returns a client returns one that was in the slot at some
      instant between its start and its return. */
  lemma GetIsLinearizable(s: State, n: nat, c: nat)
    requires Reachable(s, n) && c in s.calls && s.calls[c].Returned?
    ensures InSlotDuring(s.history, s.calls[c].store, s.calls[c].client, s.calls[c].since, s.calls[c].until)
  {
    InvHolds(s, n);
  }

  /** A slot never passes from one client to another: between two instants with
      different clients there is one at which it was empty, hence an
      invalidation. */
  lemma {:induction false} ClientsAreSeparated(history: seq<Slots>, store: Id, i: nat, j: nat) returns (k: nat)
    requires SlotMoves(history) && i < j < |history|
    requires store in history[i] && store in history[j] && history[i][store] != history[j][store]
    ensures i < k < j && store !in history[k]
    decreases j - i
  {
    assert SlotsStep(history[i], history[i + 1]);
    if store !in history[i + 1] {
      k := i + 1;
    } else {
      k := ClientsAreSeparated(history, store, i + 1, j);
    }
  }

  /** Two calls that were served different clients: the store was invalidated
      after the earlier one began and before the later one returned. */
  lemma DifferentClientsMeanInvalidation(s: State, n: nat, c: nat, d: nat) returns (k: nat)
    requires Reachable(s, n) && c in s.calls && d in s.calls
    requires s.calls[c].Returned? && s.calls[d].Returned? && s.calls[c].store == s.calls[d].store
    requires s.calls[c].client != s.calls[d].client
    ensures k < |s.history| && s.calls[c].store !in s.history[k]
    ensures s.calls[c].since < k < s.calls[d].until || s.calls[d].since < k < s.calls[c].until
  {
    hide Reachable, SlotsStep;
    InvHolds(s, n);
    var x, y := s.calls[c], s.calls[d];
    var i: nat :| x.since <= i <= x.until && i < |s.history| && x.store in s.history[i]
                  && s.history[i][x.store] == x.client;
    var j: nat :| y.since <= j <= y.until && j < |s.history| && y.store in s.history[j]
                  && s.history[j][y.store] == y.client;
    if i < j {
      k := ClientsAreSeparated(s.history, x.store, i, j);
    } else {
      k := ClientsAreSeparated(s.history, x.store, j, i);
    }
  }

  // ---------------------------------------------------------------------------
  // When lookups can leave a client for an old config
  // ---------------------------------------------------------------------------

  /** The state after the steps, if they can be taken. */
  function After(s: State, steps: seq<Step>): (t: Option<State>)
    requires s.history != []
    ensures t.Some? ==> t.value.history != []
    decreases |steps|
  {
    if steps == [] then Some(s)
    else
      match Apply(s, steps[0])
      case None => None
      case Some(r) => After(r, steps[1..])
  }

  /** A step of some `Get`; one for this store starts with a config in `answers`. */
  predicate IsLookup(step: Step, store: Id, answers: set<string>) {
    && !step.Update? && !step.Invalidate?
    && (step.Start? && step.store == store ==> step.config in answers)
  }

  ghost predicate AllLookups(steps: seq<Step>, store: Id, answers: set<string>) {
    forall step :: step in steps ==> IsLookup(step, store, answers)
  }

  /** The slot holds a client for another config than the database. */
  predicate Stale(s: State, store: Id)
    requires s.history != [] && store in s.configs
  {
    store in s.Now() && s.Now()[store].config != s.configs[store]
  }

  /** The config a call that has not returned will install, if it installs one. */
  function Carried(call: Call): string
    requires !call.Returned?
  {
    if call.Built? then call.client.config else call.config
  }

  predicate Brings(s: State, c: nat, store: Id, config: string) {
    c in s.calls && !s.calls[c].Returned? && s.calls[c].store == store && Carried(s.calls[c]) == config
  }

  /** A call under way, or an answer calls to come can bring, is out of date. */
  ghost predicate OldConfigAbout(s: State, store: Id, answers: set<string>)
    requires store in s.configs
  {
    || (exists c, config :: Brings(s, c, store, config) && config != s.configs[store])
    || (exists config :: config in answers && config != s.configs[store])
  }

  /** Lookups alone, bringing these answers, can leave a stale slot. */
  ghost predicate CanEndStale(s: State, store: Id, answers: set<string>)
    requires s.history != [] && store in s.configs
  {
    exists steps :: AllLookups(steps, store, answers) && EndsStale(s, steps, store)
  }

  ghost predicate EndsStale(s: State, steps: seq<Step>, store: Id)
    requires s.history != []
  {
    && After(s, steps).Some? && store in After(s, steps).value.configs
    && Stale(After(s, steps).value, store)
  }

  /** Every client the slot can come to hold is for the current config. */
  ghost predicate Fresh(s: State, store: Id)
    requires s.history != [] && store in s.configs
  {
    !Stale(s, store)
    && (store !in s.Now() ==> forall c, config :: Brings(s, c, store, config) ==> config == s.configs[store])
  }

  lemma LookupKeepsFresh(s: State, step: Step, t: State, store: Id, answers: set<string>)
    requires s.history != [] && store in s.configs && Fresh(s, store)
    requires store !in s.Now() ==> forall config :: config in answers ==> config == s.configs[store]
    requires IsLookup(step, store, answers) && Apply(s, step) == Some(t)
    ensures t.configs == s.configs && Fresh(t, store) && (store in s.Now() ==> store in t.Now())
  {
    if store !in s.Now() {
      forall c, config | Brings(t, c, store, config) ensures config == s.configs[store] {
        if c in s.calls && !s.calls[c].Returned? { assert Brings(s, c, s.calls[c].store, Carried(s.calls[c])); }
      }
      if step.Install? { assert Brings(s, step.call, s.calls[step.call].store, Carried(s.calls[step.call])); }
    }
  }

  lemma {:induction false} LookupsKeepFresh(s: State, steps: seq<Step>, store: Id, answers: set<string>)
    requires s.history != [] && store in s.configs && Fresh(s, store)
    requires store !in s.Now() ==> forall config :: config in answers ==> config == s.configs[store]
    requires AllLookups(steps, store, answers)
    ensures !EndsStale(s, steps, store)
    decreases |steps|
  {
    hide Apply, Fresh, IsLookup;
    if steps == [] {
      FreshIsNotStale(s, store);
    } else if Apply(s, steps[0]).Some? {
      var r := Apply(s, steps[0]).value;
      LookupKeepsFresh(s, steps[0], r, store, answers);
      LookupsKeepFresh(r, steps[1..], store, answers);
    }
  }

  lemma FreshIsNotStale(s: State, store: Id)
    requires s.history != [] && store in s.configs && Fresh(s, store)
    ensures !Stale(s, store)
  {
  }

  /** A slot once filled stays as it is under lookups: a stale one stays stale. */
  lemma NothingToDo(s: State, store: Id, answers: set<string>)
    requires s.history != [] && store in s.configs && Stale(s, store)
    ensures CanEndStale(s, store, answers)
  {
    assert AllLookups([], store, answers) && EndsStale(s, [], store);
  }

  lemma AfterStep(s: State, step: Step, r: State, steps: seq<Step>)
    requires s.history != [] && Apply(s, step) == Some(r) && r.history != []
    ensures After(s, [step] + steps) == After(r, steps)
  {
    assert ([step] + steps)[1..] == steps;
  }

  /** A call under way can be the one that fills an empty slot. */
  lemma CallCanFill(s: State, c: nat, store: Id, config: string, answers: set<string>) returns (steps: seq<Step>)
    requires s.history != [] && store !in s.Now() && Brings(s, c, store, config)
    ensures AllLookups(steps, store, answers) && After(s, steps).Some?
    ensures var t := After(s, steps).value;
            t.configs == s.configs && store in t.Now() && t.Now()[store].config == config
    decreases if s.calls[c].Called? then 2 else if s.calls[c].Missed? then 1 else 0
  {
    var step := if s.calls[c].Called? then ReadLocked(c) else if s.calls[c].Missed? then Build(c, true) else Install(c);
    var r := Apply(s, step).value;
    if step.Install? {
      steps := [];
    } else {
      steps := CallCanFill(r, c, store, config, answers);
    }
    AfterStep(s, step, r, steps);
    steps := [step] + steps;
  }

  lemma {:induction false} UnusedCall(calls: set<nat>) returns (c: nat)
    ensures forall d :: d in calls ==> d < c
    decreases calls
  {
    c := 0;
    if calls != {} {
      var d :| d in calls;
      var e := UnusedCall(calls - {d});
      c := if d < e then e else d + 1;
      assert forall x :: x in calls ==> x == d || x in calls - {d};
    }
  }

  lemma OldConfigCanFill(s: State, store: Id, answers: set<string>)
    requires s.history != [] && store in s.configs && store !in s.Now() && OldConfigAbout(s, store, answers)
    ensures CanEndStale(s, store, answers)
  {
    hide Apply, After;
    if c, config :| Brings(s, c, store, config) && config != s.configs[store] {
      var steps := CallCanFill(s, c, store, config, answers);
      assert EndsStale(s, steps, store);
    } else {
      var config :| config in answers && config != s.configs[store];
      var c := UnusedCall(s.calls.Keys);
      var r := Started(s, c, store, config);
      var steps := CallCanFill(r, c, store, config, answers);
      AfterStep(s, Start(c, store, config), r, steps);
      assert EndsStale(s, [Start(c, store, config)] + steps, store);
      assert AllLookups([Start(c, store, config)] + steps, store, answers);
    }
  }

  lemma Started(s: State, c: nat, store: Id, config: string) returns (r: State)
    requires s.history != [] && c !in s.calls
    ensures Apply(s, Start(c, store, config)) == Some(r)
    ensures r.history == s.history && r.configs == s.configs && Brings(r, c, store, config)
  {
    r := Apply(s, Start(c, store, config)).value;
  }

  /** From any state, lookups that bring the given answers can leave a client for
      another config than the database's if and only if one is there already, or
      the slot is empty and a call under way, or an answer, is out of date. */
  lemma StaleClientIff(s: State, store: Id, answers: set<string>)
    requires s.history != [] && store in s.configs
    ensures CanEndStale(s, store, answers)
            <==> Stale(s, store) || (store !in s.Now() && OldConfigAbout(s, store, answers))
  {
    if Stale(s, store) {
      NothingToDo(s, store, answers);
    } else if store !in s.Now() && OldConfigAbout(s, store, answers) {
      OldConfigCanFill(s, store, answers);
    } else {
      forall steps | AllLookups(steps, store, answers) ensures !EndsStale(s, steps, store) {
        LookupsKeepFresh(s, steps, store, answers);
      }
    }
  }

  // ---------------------------------------------------------------------------
  // Two runs that keep an old client
  // ---------------------------------------------------------------------------

  lemma Reach(r: State, n: nat, step: Step, s: State)
    requires r.history != [] && Reachable(r, n) && Apply(r, step) == Some(s)
    ensures Reachable(s, n + 1)
  {
  }

  lemma ReachStart(s: State)
    requires Init(s)
    ensures Reachable(s, 0)
  {
  }

  /** A call that brings the old config past an update and its invalidation
      installs an old client, and it stays there with nothing left to remove it. */
  lemma OverlapKeepsOldClient() returns (s: State)
    ensures exists n :: Reachable(s, n)
    ensures s.history != [] && 0 in s.Now() && 0 in s.configs
    ensures s.Now()[0].config == "old" && s.configs[0] == "new"
    ensures forall c :: c in s.calls ==> s.calls[c].Returned?
  {
    hide Reachable;
    var s0 := State([map[]], map[], 0, map[0 := "old"]);
    ReachStart(s0);
    var s1 := Apply(s0, Start(0, 0, "old")).value;
    Reach(s0, 0, Start(0, 0, "old"), s1);
    var s2 := Apply(s1, ReadLocked(0)).value;
    Reach(s1, 1, ReadLocked(0), s2);
    var s3 := Apply(s2, Build(0, true)).value;
    Reach(s2, 2, Build(0, true), s3);
    var s4 := Apply(s3, Update(0, "new")).value;
    Reach(s3, 3, Update(0, "new"), s4);
    var s5 := Apply(s4, Invalidate(0)).value;
    Reach(s4, 4, Invalidate(0), s5);
    s := Apply(s5, Install(0)).value;
    Reach(s5, 5, Install(0), s);
  }

  /** A call that begins after the update, with an answer the registry had cached
      before it, does the same. */
  lemma CachedAnswerKeepsOldClient() returns (s: State)
    ensures exists n :: Reachable(s, n)
    ensures s.history != [] && 0 in s.Now() && 0 in s.configs
    ensures s.Now()[0].config == "old" && s.configs[0] == "new"
    ensures forall c :: c in s.calls ==> s.calls[c].Returned? && s.calls[c].since > 0
  {
    hide Reachable;
    var s0 := State([map[]], map[], 0, map[0 := "old"]);
    ReachStart(s0);
    var s1 := Apply(s0, Update(0, "new")).value;
    Reach(s0, 0, Update(0, "new"), s1);
    var s2 := Apply(s1, Invalidate(0)).value;
    Reach(s1, 1, Invalidate(0), s2);
    var s3 := Apply(s2, Start(0, 0, "old")).value;
    Reach(s2, 2, Start(0, 0, "old"), s3);
    var s4 := Apply(s3, ReadLocked(0)).value;
    Reach(s3, 3, ReadLocked(0), s4);
    var s5 := Apply(s4, Build(0, true)).value;
    Reach(s4, 4, Build(0, true), s5);
    s := Apply(s5, Install(0)).value;
    Reach(s5, 5, Install(0), s);
  }
}
