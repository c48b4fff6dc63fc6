/** Particular runs of the one-tier cache: the race that leaves an old product cached, and how old a
    product a read can be answered with. */
module LookAsideRuns {
  import opened Wrappers
  import opened StoreHistory
  import opened LookAside

  // ---------------------------------------------------------------- prompt runs

  /** Sets are timely, and time does not pass the deadline of one that is pending. */
  predicate Prompt(s: State, w: nat, e: Event)
    requires Enabled(s, e)
  {
    && Timely(s, w, e)
    && (e.Tick? ==> forall id :: id in s.tasks ==> !Overdue(s.tasks[id], w, s.clock + e.ticks))
  }

  predicate Overdue(t: Task, w: nat, now: nat) {
    t.SetSent? && now > t.fetchedAt + w
  }

  predicate PromptRun(s: State, ttl: nat, w: nat, run: seq<Event>)
    decreases |run|
  {
    run != [] && Enabled(s, run[0]) ==>
      Prompt(s, w, run[0]) && PromptRun(Apply(s, ttl, run[0]), ttl, w, run[1..])
  }

  /** The run goes from `s` to `s'`, and no set is late in it. */
  ghost predicate Leads(s: State, ttl: nat, w: nat, run: seq<Event>, s': State) {
    After(s, ttl, run) == Some(s') && PromptRun(s, ttl, w, run)
  }

  ghost predicate PromptReachable(s: State, ttl: nat, w: nat) {
    exists run :: Leads(INITIAL, ttl, w, run, s)
  }

  lemma {:induction false} PromptRunIsTimely(s: State, ttl: nat, w: nat, run: seq<Event>)
    requires PromptRun(s, ttl, w, run)
    ensures TimelyRun(s, ttl, w, run)
    decreases |run|
  {
    if run != [] && Enabled(s, run[0]) { PromptRunIsTimely(Apply(s, ttl, run[0]), ttl, w, run[1..]); }
  }

  /** Prompt runs are among those the staleness bound speaks of. */
  lemma PromptIsTimely(s: State, ttl: nat, w: nat)
    requires PromptReachable(s, ttl, w)
    ensures TimelyReachable(s, ttl, w) && Reachable(s, ttl)
  {
    var run :| Leads(INITIAL, ttl, w, run, s);
    PromptRunIsTimely(INITIAL, ttl, w, run);
  }

  lemma {:induction false} LeadsOn(s: State, ttl: nat, w: nat, run: seq<Event>, t: State, e: Event)
    requires Leads(s, ttl, w, run, t) && Enabled(t, e) && Prompt(t, w, e)
    ensures Leads(s, ttl, w, run + [e], Apply(t, ttl, e))
    decreases |run|
  {
    if run == [] {
      assert run + [e] == [e] && [e][1..] == [];
    } else {
      LeadsOn(Apply(s, ttl, run[0]), ttl, w, run[1..], t, e);
      assert (run + [e])[1..] == run[1..] + [e];
    }
  }

  lemma ReachNext(s: State, ttl: nat, w: nat, e: Event, s': State)
    requires PromptReachable(s, ttl, w) && Enabled(s, e) && Prompt(s, w, e) && s' == Apply(s, ttl, e)
    ensures PromptReachable(s', ttl, w)
  {
    var run :| Leads(INITIAL, ttl, w, run, s);
    LeadsOn(INITIAL, ttl, w, run, s, e);
  }

  ghost predicate AllAnswered(s: State) {
    forall id :: id in s.tasks ==> s.tasks[id].Answered?
  }

  // ---------------------------------------------------------------- the race

  /** A product has been created, and a read that missed has fetched it. */
  function Fetching(p: Product): State {
    State(0, [Version("", 0, map[]), Version(p.id, 0, map[p.id := p])], map[],
          map[0 := Answered(Found(p), FromStore(0), 1), 1 := SetSent(p.id, p, 1, 0)],
          map[0 := Origin(Create(p), 0, 0), 1 := Origin(Get(p.id), 1, 0)], {}, 0, 1)
  }

  /** Then the product has been updated and its cache entry deleted. */
  function Updated(p: Product, patch: Patch): State {
    var s, q := Fetching(p), Patched(p, patch);
    s.(versions := s.versions + [Version(p.id, 0, map[p.id := q])],
       tasks := s.tasks[2 := Answered(Found(q), FromStore(1), 2)],
       origins := s.origins[2 := Origin(Update(p.id, patch), 1, 0)],
       invalidated := {p.id})
  }

  /** And `w` after its fetch the read's set has executed and the read has been answered. */
  function Raced(p: Product, patch: Patch, w: nat): State {
    var s := Updated(p, patch);
    s.(clock := w, cache := map[p.id := Entry(p, 1, 0, 2, w)],
       tasks := s.tasks[1 := Answered(Found(p), FromStore(1), 2)])
  }

  lemma ReachCreated(ttl: nat, w: nat, p: Product) returns (s: State)
    ensures PromptReachable(s, ttl, w)
    ensures s == State(0, Fetching(p).versions, map[], map[0 := Answered(Found(p), FromStore(0), 1)],
                       map[0 := Origin(Create(p), 0, 0)], {}, 0, 0)
  {
    assert Leads(INITIAL, ttl, w, [], INITIAL);
    s := Apply(INITIAL, ttl, Start(0, Create(p)));
    ReachNext(INITIAL, ttl, w, Start(0, Create(p)), s);
  }

  lemma ReachFetching(ttl: nat, w: nat, p: Product)
    ensures PromptReachable(Fetching(p), ttl, w)
  {
    var s := ReachCreated(ttl, w, p);
    var at := s.(origins := s.origins[1 := Origin(Get(p.id), 1, 0)]);
    var sent, done := Move(at, 1, GetSent(p.id)), Move(at, 1, GetDone(p.id, None, 0));
    ReachNext(s, ttl, w, Start(1, Get(p.id)), sent);
    ReachNext(sent, ttl, w, ExecGet(1), done);
    ReachNext(done, ttl, w, ResumeGet(1), Fetching(p));
  }

  /** The update has saved; its delete is outstanding. */
  lemma ReachSaved(ttl: nat, w: nat, p: Product, patch: Patch)
    ensures PromptReachable(Move(Updated(p, patch), 2, DeleteSent(p.id, 1, Patched(p, patch))), ttl, w)
  {
    var q := Patched(p, patch);
    ReachFetching(ttl, w, p);
    assert map[p.id := p][p.id := q] == map[p.id := q];
    var s := Apply(Fetching(p), ttl, Start(2, Update(p.id, patch)));
    ReachNext(Fetching(p), ttl, w, Start(2, Update(p.id, patch)), s);
    assert s.tasks == Updated(p, patch).tasks[2 := DeleteSent(p.id, 1, q)];
    assert s == Move(Updated(p, patch), 2, DeleteSent(p.id, 1, q));
  }

  lemma ReachUpdated(ttl: nat, w: nat, p: Product, patch: Patch)
    ensures PromptReachable(Updated(p, patch), ttl, w)
  {
    var q, end := Patched(p, patch), Updated(p, patch);
    var s, t := Move(end, 2, DeleteSent(p.id, 1, q)), Move(end, 2, DeleteDone(p.id, 1, q));
    ReachSaved(ttl, w, p, patch);
    assert s.cache - {p.id} == s.cache;
    ReachNext(s, ttl, w, ExecDelete(2), t);
    assert t.tasks[2 := Answered(Found(q), FromStore(1), 2)] == end.tasks;
    ReachNext(t, ttl, w, ResumeDelete(2), end);
  }

  lemma ReachRaced(ttl: nat, w: nat, p: Product, patch: Patch)
    ensures PromptReachable(Raced(p, patch, w), ttl, w)
  {
    var s, end := Updated(p, patch), Raced(p, patch, w);
    ReachUpdated(ttl, w, p, patch);
    var late := s.(clock := w);
    ReachNext(s, ttl, w, Tick(w), late);
    var t := Move(late.(cache := end.cache), 1, SetDone(p.id, p, 1));
    ReachNext(late, ttl, w, ExecSet(1), t);
    ReachNext(t, ttl, w, ResumeSet(1), end);
  }

  /** A read that fetched before an update and writes back after its delete leaves the old product in the
      cache although every request has been answered, and even if the set follows its fetch at once. */
  lemma RaceLeavesStaleEntry(ttl: nat, w: nat, p: Product, patch: Patch)
    requires Patched(p, patch) != p
    ensures var s := Raced(p, patch, w);
      PromptReachable(s, ttl, w) && Stale(s, p.id) && AllAnswered(s)
  {
    ReachRaced(ttl, w, p, patch);
  }

  /** From there on every read until the entry expires is answered with the product as it was before the
      update, which the store replaced at time 0. */
  lemma StaleUntilExpiry(ttl: nat, w: nat, p: Product, patch: Patch, d: nat) returns (s: State)
    requires Patched(p, patch) != p && d < ttl
    ensures Leads(Raced(p, patch, w), ttl, w, [Tick(d), Start(3, Get(p.id)), ExecGet(3), ResumeGet(3)], s)
    ensures PromptReachable(s, ttl, w) && AllAnswered(s)
    ensures 3 in s.tasks && s.tasks[3].reply == Found(p) && ServedByCache(s.tasks[3])
    ensures var g := s.tasks[3].source.sighting; g.key == p.id && g.entry.value == p && g.at == w + d
    ensures forall at: nat :: HeldAt(s.versions, p.id, p, at) ==> at == 0
  {
    var s0, k := Raced(p, patch, w), p.id;
    RaceLeavesStaleEntry(ttl, w, p, patch);
    var s1 := s0.(clock := w + d);
    assert Leads(s0, ttl, w, [], s0);
    LeadsOn(s0, ttl, w, [], s0, Tick(d));
    ReachNext(s0, ttl, w, Tick(d), s1);
    s := ReadHits(s0, ttl, w, [Tick(d)], s1, k);
    assert [] + [Tick(d)] == [Tick(d)];
    assert s.tasks[3].source.sighting.entry.value == p;
  }

  /** A read that finds an unexpired entry. */
  lemma ReadHits(s0: State, ttl: nat, w: nat, run: seq<Event>, s: State, k: string) returns (s': State)
    requires PromptReachable(s, ttl, w) && Leads(s0, ttl, w, run, s) && AllAnswered(s) && 3 !in s.tasks
    requires k in s.cache && s.clock < s.cache[k].setAt + ttl
    ensures Leads(s0, ttl, w, run + [Start(3, Get(k)), ExecGet(3), ResumeGet(3)], s')
    ensures PromptReachable(s', ttl, w) && AllAnswered(s') && s'.versions == s.versions && 3 in s'.tasks
    ensures s'.tasks[3] == Answered(Found(s.cache[k].value), FromCache(Sighting(k, s.cache[k], s.clock)), Current(s))
  {
    var at := s.(origins := s.origins[3 := Origin(Get(k), Current(s), s.clock)]);
    var sent := Move(at, 3, GetSent(k));
    ReachNext(s, ttl, w, Start(3, Get(k)), sent);
    LeadsOn(s0, ttl, w, run, s, Start(3, Get(k)));
    var done := Move(at, 3, GetDone(k, Some(s.cache[k]), s.clock));
    ReachNext(sent, ttl, w, ExecGet(3), done);
    LeadsOn(s0, ttl, w, run + [Start(3, Get(k))], sent, ExecGet(3));
    s' := Apply(done, ttl, ResumeGet(3));
    ReachNext(done, ttl, w, ResumeGet(3), s');
    LeadsOn(s0, ttl, w, run + [Start(3, Get(k))] + [ExecGet(3)], done, ResumeGet(3));
    assert run + [Start(3, Get(k))] + [ExecGet(3)] + [ResumeGet(3)]
        == run + [Start(3, Get(k)), ExecGet(3), ResumeGet(3)];
  }

  // ---------------------------------------------------------------- the worst age

  /** What the request was answered with is at most `b` older than its reading. */
  ghost predicate NoOlder(s: State, t: Task, b: nat) {
    ServedByCache(t) ==>
      var g := t.source.sighting;
      exists at: nat :: at <= g.at <= at + b && HeldAt(s.versions, g.key, g.entry.value, at)
  }

  /** In no run with timely sets is a read answered with anything more than `b` old. */
  ghost predicate AgeBounded(ttl: nat, w: nat, b: nat) {
    forall s, id :: TimelyReachable(s, ttl, w) && id in s.tasks ==> NoOlder(s, s.tasks[id], b)
  }

  /** The worst age is ttl + w - 1, no less; with ttl 0 nothing is ever served from the cache. */
  lemma WorstAgeExactly(ttl: nat, w: nat, b: nat)
    ensures AgeBounded(ttl, w, b) <==> ttl == 0 || ttl + w - 1 <= b
  {
    if ttl == 0 || ttl + w - 1 <= b {
      forall s, id | TimelyReachable(s, ttl, w) && id in s.tasks
        ensures NoOlder(s, s.tasks[id], b)
      {
        if ServedByCache(s.tasks[id]) {
          var run :| After(INITIAL, ttl, run) == Some(s) && TimelyRun(INITIAL, ttl, w, run);
          RepliesWereTrue(s, ttl, id);
          BoundedStaleness(s, ttl, w, id);
        }
      }
    } else {
      var p, patch := Product("", "", 0.0, ""), Patch(None, Some(1.0), None);
      var s := StaleUntilExpiry(ttl, w, p, patch, ttl - 1);
      PromptIsTimely(s, ttl, w);
      assert !NoOlder(s, s.tasks[3], b);
    }
  }
}
