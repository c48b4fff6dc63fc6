/** Particular runs of the two-tier cache. They show that the staleness bound is reached, how long L1
    really keeps a copy, and that deleting from the fast tier first can leave a stale copy behind. */
module LayeredRuns {
  import opened Wrappers
  import opened StoreHistory
  import opened ProductService
  import opened Layered

  // ---------------------------------------------------------------- prompt runs

  /** A set or promotion that should have executed by now. */
  predicate Overdue(t: Task, w: nat, now: nat) {
    match t
    case Setting(_, _, _, fetchedAt, waiting) => waiting != {} && now > fetchedAt + w
    case Promoting(g) => now > g.at + w
    case _ => false
  }

  /** Sets and promotions are timely, and time does not pass the deadline of one that is pending. */
  predicate Prompt(s: State, w: nat, e: Event)
    requires Enabled(s, e)
  {
    && Timely(s, w, e)
    && (e.Tick? ==> forall id :: id in s.tasks ==> !Overdue(s.tasks[id], w, s.clock + e.ticks))
  }

  predicate PromptRun(s: State, cfg: Config, w: nat, run: seq<Event>)
    decreases |run|
  {
    run != [] && Enabled(s, run[0]) ==>
      Prompt(s, w, run[0]) && PromptRun(Apply(s, cfg, run[0]), cfg, w, run[1..])
  }

  /** The run goes from `s` to `s'`, and nothing is late in it. */
  ghost predicate Leads(s: State, cfg: Config, w: nat, run: seq<Event>, s': State) {
    After(s, cfg, run) == Some(s') && PromptRun(s, cfg, w, run)
  }

  ghost predicate PromptReachable(s: State, cfg: Config, w: nat) {
    exists run :: Leads(INITIAL, cfg, w, run, s)
  }

  lemma {:induction false} PromptRunIsTimely(s: State, cfg: Config, w: nat, run: seq<Event>)
    requires PromptRun(s, cfg, w, run)
    ensures TimelyRun(s, cfg, w, run)
    decreases |run|
  {
    if run != [] && Enabled(s, run[0]) { PromptRunIsTimely(Apply(s, cfg, run[0]), cfg, w, run[1..]); }
  }

  /** Prompt runs are among those the staleness bound speaks of. */
  lemma PromptIsTimely(s: State, cfg: Config, w: nat)
    requires PromptReachable(s, cfg, w)
    ensures TimelyReachable(s, cfg, w) && Reachable(s, cfg)
  {
    var run :| Leads(INITIAL, cfg, w, run, s);
    PromptRunIsTimely(INITIAL, cfg, w, run);
  }

  lemma {:induction false} LeadsOn(s: State, cfg: Config, w: nat, run: seq<Event>, t: State, e: Event)
    requires Leads(s, cfg, w, run, t) && Enabled(t, e) && Prompt(t, w, e)
    ensures Leads(s, cfg, w, run + [e], Apply(t, cfg, e))
    decreases |run|
  {
    if run == [] {
      assert run + [e] == [e] && [e][1..] == [];
    } else {
      LeadsOn(Apply(s, cfg, run[0]), cfg, w, run[1..], t, e);
      assert (run + [e])[1..] == run[1..] + [e];
    }
  }

  lemma ReachNext(s: State, cfg: Config, w: nat, e: Event, s': State)
    requires PromptReachable(s, cfg, w) && Enabled(s, e) && Prompt(s, w, e) && s' == Apply(s, cfg, e)
    ensures PromptReachable(s', cfg, w)
  {
    var run :| Leads(INITIAL, cfg, w, run, s);
    LeadsOn(INITIAL, cfg, w, run, s, e);
  }

  /** Reachability carries over a run. */
  lemma {:induction false} ReachAlong(s: State, cfg: Config, w: nat, run: seq<Event>, s': State)
    requires PromptReachable(s, cfg, w) && Leads(s, cfg, w, run, s')
    ensures PromptReachable(s', cfg, w)
    decreases |run|
  {
    if run != [] {
      var next := Apply(s, cfg, run[0]);
      ReachNext(s, cfg, w, run[0], next);
      ReachAlong(next, cfg, w, run[1..], s');
    }
  }

  // ---------------------------------------------------------------- whole requests

  /** A write that runs to its answer undisturbed. */
  ghost function AfterWrite(s: State, id: nat, r: Request): State {
    var reply := StoreOnly(Store(s), r).1;
    s.(versions := Written(s, r),
       l1 := s.l1 - {KeyOf(r)},
       l2 := s.l2 - {KeyOf(r)},
       tasks := s.tasks[id := Answered(reply, FromStore(Current(s)), |s.versions|)],
       origins := s.origins[id := Origin(r, Current(s), s.clock)])
  }

  lemma ReachWrite(s: State, cfg: Config, w: nat, id: nat, r: Request)
    requires PromptReachable(s, cfg, w) && id !in s.tasks && !r.Get? && Accepted(StoreOnly(Store(s), r).1)
    ensures PromptReachable(AfterWrite(s, id, r), cfg, w)
  {
    var key, reply := KeyOf(r), StoreOnly(Store(s), r).1;
    StoreShape(s, cfg, id, r);
    var s1 := Apply(s, cfg, Start(id, r));
    ReachNext(s, cfg, w, Start(id, r), s1);
    assert s1.tasks[id] == Deleting(key, Current(s), reply, BOTH);
    ReachDeleted(s1, cfg, w, id);
    var s' := s1.(l1 := s1.l1 - {key}, l2 := s1.l2 - {key},
                  tasks := s1.tasks[id := Answered(reply, FromStore(Current(s)), Current(s1))]);
    assert s'.tasks == s.tasks[id := Answered(reply, FromStore(Current(s)), |s.versions|)];
    assert s' == AfterWrite(s, id, r);
  }

  lemma ReachDeleted(s: State, cfg: Config, w: nat, id: nat)
    requires PromptReachable(s, cfg, w) && id in s.tasks && s.tasks[id].Deleting? && s.tasks[id].waiting == BOTH
    ensures var t := s.tasks[id];
      PromptReachable(s.(l1 := s.l1 - {t.key}, l2 := s.l2 - {t.key},
                         tasks := s.tasks[id := Answered(t.reply, FromStore(t.base), Current(s))]), cfg, w)
  {
    var t := s.tasks[id];
    assert BOTH - {L1} == {L2} && {L2} - {L2} == {};
    var one := Move(s.(l1 := s.l1 - {t.key}), id, Deleting(t.key, t.base, t.reply, {L2}));
    ReachNext(s, cfg, w, ExecDelete(id, L1), one);
    var none := Move(one.(l2 := s.l2 - {t.key}), id, Deleting(t.key, t.base, t.reply, {}));
    ReachNext(one, cfg, w, ExecDelete(id, L2), none);
    var done := Apply(none, cfg, ResumeDelete(id));
    ReachNext(none, cfg, w, ResumeDelete(id), done);
    assert done.tasks == s.tasks[id := Answered(t.reply, FromStore(t.base), Current(s))];
  }

  /** A read that missed in both tiers and has fetched. */
  function AfterMiss(s: State, id: nat, key: string): State
    requires key in Store(s)
  {
    s.(misses := s.misses + 1,
       tasks := s.tasks[id := Setting(key, Store(s)[key], Current(s), s.clock, BOTH)],
       origins := s.origins[id := Origin(Get(key), Current(s), s.clock)])
  }

  lemma ReachMiss(s: State, cfg: Config, w: nat, id: nat, key: string)
    requires PromptReachable(s, cfg, w) && id !in s.tasks
    requires key !in s.l1 && key !in s.l2 && key in Store(s)
    ensures PromptReachable(AfterMiss(s, id, key), cfg, w)
  {
    var at := s.(origins := s.origins[id := Origin(Get(key), Current(s), s.clock)]);
    assert s.l1 - {key} == s.l1;
    ReachNext(s, cfg, w, Start(id, Get(key)), Move(at, id, GetSent(key)));
    ReachNext(Move(at, id, GetSent(key)), cfg, w, ExecGet(id), Move(at, id, GetDone(key, None)));
    ReachNext(Move(at, id, GetDone(key, None)), cfg, w, ResumeGet(id), AfterMiss(s, id, key));
  }

  // ---------------------------------------------------------------- a product created and read

  /** A product has been created, and a read that missed has fetched it. */
  function Filling(p: Product): State {
    var k := p.id;
    State(0, [Version("", 0, map[]), Version(k, 0, map[k := p])], map[], map[],
          map[0 := Answered(Found(p), FromStore(0), 1), 1 := Setting(k, p, 1, 0, BOTH)],
          map[0 := Origin(Create(p), 0, 0), 1 := Origin(Get(k), 1, 0)], 0, 1)
  }

  lemma ReachFilling(cfg: Config, w: nat, p: Product)
    ensures PromptReachable(Filling(p), cfg, w)
  {
    assert Leads(INITIAL, cfg, w, [], INITIAL);
    ReachWrite(INITIAL, cfg, w, 0, Create(p));
    var s := AfterWrite(INITIAL, 0, Create(p));
    assert s.l1 == map[] && s.l2 == map[] && s.versions == Filling(p).versions;
    ReachMiss(s, cfg, w, 1, p.id);
    assert AfterMiss(s, 1, p.id) == Filling(p);
  }

  /** The read's copy in a tier, set at time 0. */
  function Copy(p: Product): Entry {
    Entry(p, 1, 0, Direct, 1, 0)
  }

  /** The read has also set both tiers and been answered. */
  function Cached(p: Product): State {
    var k := p.id;
    Filling(p).(l1 := map[k := Copy(p)], l2 := map[k := Copy(p)],
                tasks := map[0 := Answered(Found(p), FromStore(0), 1), 1 := Answered(Found(p), FromStore(1), 1)])
  }

  lemma ReachCached(cfg: Config, w: nat, p: Product)
    ensures PromptReachable(Cached(p), cfg, w)
  {
    var s, k := Filling(p), p.id;
    ReachFilling(cfg, w, p);
    assert BOTH - {L1} == {L2} && {L2} - {L2} == {};
    var one := Move(s.(l1 := map[k := Copy(p)]), 1, Setting(k, p, 1, 0, {L2}));
    ReachNext(s, cfg, w, ExecSet(1, L1), one);
    var two := Move(one.(l2 := map[k := Copy(p)]), 1, Setting(k, p, 1, 0, {}));
    ReachNext(one, cfg, w, ExecSet(1, L2), two);
    ReachNext(two, cfg, w, ResumeSet(1), Cached(p));
  }

  // ---------------------------------------------------------------- how long L1 keeps a copy

  /** If the request was answered from L1, the copy was there for no longer than the promotion ttl. */
  predicate ShortLived(cfg: Config, t: Task) {
    ServedByCache(t) && t.source.sighting.tier == L1 ==>
      t.source.sighting.at <= t.source.sighting.entry.setAt + cfg.promote
  }

  /** L1 serves no copy for longer than the promotion ttl, in any run. */
  ghost predicate L1IsShortLived(cfg: Config) {
    forall s, id :: Reachable(s, cfg) && id in s.tasks ==> ShortLived(cfg, s.tasks[id])
  }

  /** A read is answered from an L1 copy of age `ttl`. */
  lemma L1ServesForTtl(cfg: Config, w: nat, p: Product) returns (s: State)
    ensures PromptReachable(s, cfg, w) && 2 in s.tasks && ServedByCache(s.tasks[2])
    ensures s.tasks[2].source.sighting.tier == L1
    ensures s.tasks[2].source.sighting.at == s.tasks[2].source.sighting.entry.setAt + cfg.ttl
  {
    ReachCached(cfg, w, p);
    var aged := Cached(p).(clock := cfg.ttl);
    ReachNext(Cached(p), cfg, w, Tick(cfg.ttl), aged);
    s := Apply(aged, cfg, Start(2, Get(p.id)));
    ReachNext(aged, cfg, w, Start(2, Get(p.id)), s);
  }

  /** The documented short life of L1 copies holds exactly when the layer's default ttl, which a
      write-through set passes to L1 as well, is no longer than the promotion ttl. */
  lemma L1LifetimeExactly(cfg: Config)
    ensures L1IsShortLived(cfg) <==> cfg.ttl <= cfg.promote
  {
    if cfg.ttl <= cfg.promote {
      forall s, id | Reachable(s, cfg) && id in s.tasks
        ensures ShortLived(cfg, s.tasks[id])
      {
        if s.tasks[id].Answered? { RepliesWereTrue(s, cfg, id); }
      }
    } else {
      var s := L1ServesForTtl(cfg, 0, Product("", "", 0.0));
      PromptIsTimely(s, cfg, 0);
      assert !ShortLived(cfg, s.tasks[2]);
    }
  }

  // ---------------------------------------------------------------- the staleness bound is reached

  /** The read has set L1 only; then the product is replaced and deleted from both tiers, and `w` later
      the read's L2 set executes and the read is answered. */
  function Overtaken(p: Product, q: Product, w: nat): State {
    var k := p.id;
    State(w, [Version("", 0, map[]), Version(k, 0, map[k := p]), Version(k, 0, map[k := q])],
          map[], map[k := Entry(p, 1, 0, Direct, 2, w)],
          map[0 := Answered(Found(p), FromStore(0), 1), 1 := Answered(Found(p), FromStore(1), 2),
              2 := Answered(Found(q), FromStore(1), 2)],
          map[0 := Origin(Create(p), 0, 0), 1 := Origin(Get(k), 1, 0),
              2 := Origin(Update(k, q.name, q.price), 1, 0)], 0, 1)
  }

  lemma ReachReplaced(cfg: Config, w: nat, p: Product, q: Product)
    requires q.id == p.id
    ensures PromptReachable(Overtaken(p, q, w).(clock := 0, l2 := map[],
              tasks := Overtaken(p, q, w).tasks[1 := Setting(p.id, p, 1, 0, {L2})]), cfg, w)
  {
    var k := p.id;
    ReachFilling(cfg, w, p);
    assert BOTH - {L1} == {L2};
    var one := Move(Filling(p).(l1 := map[k := Copy(p)]), 1, Setting(k, p, 1, 0, {L2}));
    ReachNext(Filling(p), cfg, w, ExecSet(1, L1), one);
    ReachWrite(one, cfg, w, 2, Update(k, q.name, q.price));
    var s := AfterWrite(one, 2, Update(k, q.name, q.price));
    assert map[k := p][k := q] == map[k := q];
    assert s.versions == Overtaken(p, q, w).versions;
    assert s.l1 == map[] && s.l2 == map[];
    assert s.tasks == Overtaken(p, q, w).tasks[1 := Setting(k, p, 1, 0, {L2})];
  }

  lemma ReachOvertaken(cfg: Config, w: nat, p: Product, q: Product)
    requires q.id == p.id
    ensures PromptReachable(Overtaken(p, q, w), cfg, w)
  {
    var k, end := p.id, Overtaken(p, q, w);
    var s := end.(clock := 0, l2 := map[], tasks := end.tasks[1 := Setting(k, p, 1, 0, {L2})]);
    ReachReplaced(cfg, w, p, q);
    var late := s.(clock := w);
    ReachNext(s, cfg, w, Tick(w), late);
    assert {L2} - {L2} == {};
    var set2 := Move(late.(l2 := end.l2), 1, Setting(k, p, 1, 0, {}));
    ReachNext(late, cfg, w, ExecSet(1, L2), set2);
    assert set2.tasks[1 := Answered(Found(p), FromStore(1), 2)] == end.tasks;
    ReachNext(set2, cfg, w, ResumeSet(1), end);
  }

  ghost predicate AllAnswered(s: State) {
    forall id :: id in s.tasks ==> s.tasks[id].Answered?
  }

  /** The bound of BoundedStaleness is reached, short of one tick, for every ttl, promote and w, by a
      prompt run in which every request is answered: the late set lands in L2, a read promotes it just
      before it expires there, and a read just before the L1 copy expires still answers with the product
      replaced at time 0. */
  lemma BoundIsReached(cfg: Config, w: nat, p: Product, q: Product) returns (s: State)
    requires cfg.ttl > 0 && q.id == p.id && q != p
    ensures PromptReachable(s, cfg, w) && AllAnswered(s)
    ensures 4 in s.tasks && s.tasks[4].reply == Found(p) && ServedByCache(s.tasks[4])
    ensures var g := s.tasks[4].source.sighting;
      && g.key == p.id && g.entry.value == p && g.entry.via.Promoted?
      && g.at == StalenessBound(cfg, w, g.entry.via) - 1
    ensures forall at: nat :: HeldAt(s.versions, p.id, p, at) ==> at == 0
  {
    ReachOvertaken(cfg, w, p, q);
    var late := Overtaken(p, q, w);
    var g := Sighting(p.id, L2, late.l2[p.id], w + cfg.ttl - 1);
    s := ReachPromoting(cfg, w, late, g);
    s := ReachPromoted(cfg, w, s, g);
    s := ReachSecondLease(cfg, w, s, g);
    assert s.versions == late.versions;
  }

  lemma ReachPromoting(cfg: Config, w: nat, s: State, g: Sighting) returns (s': State)
    requires PromptReachable(s, cfg, w) && AllAnswered(s) && cfg.ttl > 0 && 3 !in s.tasks
    requires s.l1 == map[] && s.l2 == map[g.key := g.entry] && s.clock == g.entry.setAt
    requires g.tier == L2 && g.at == g.entry.setAt + cfg.ttl - 1
    ensures s' == s.(clock := g.at, tasks := s.tasks[3 := Promoting(g)],
                     origins := s.origins[3 := Origin(Get(g.key), Current(s), g.at)])
    ensures PromptReachable(s', cfg, w)
  {
    var t := s.(clock := g.at);
    ReachNext(s, cfg, w, Tick(cfg.ttl - 1), t);
    s' := ReachSighted(cfg, w, t, 3, g);
  }

  /** A read misses in L1, finds the entry in L2 and is about to promote it. */
  lemma LeadsSighted(s0: State, cfg: Config, w: nat, run: seq<Event>, s: State, id: nat, g: Sighting)
    returns (s': State)
    requires Leads(s0, cfg, w, run, s) && id !in s.tasks && g.key !in s.l1
    requires g.key in s.l2 && g.tier == L2 && g.at == s.clock
    requires s.l2[g.key] == g.entry && Live(cfg, L2, g.entry, s.clock)
    ensures s' == s.(tasks := s.tasks[id := Promoting(g)],
                     origins := s.origins[id := Origin(Get(g.key), Current(s), s.clock)])
    ensures Leads(s0, cfg, w, run + [Start(id, Get(g.key)), ExecGet(id), ResumeGet(id)], s')
  {
    var t := s.(origins := s.origins[id := Origin(Get(g.key), Current(s), s.clock)]);
    assert s.l1 - {g.key} == s.l1;
    var one, two := Start(id, Get(g.key)), ExecGet(id);
    var sent, done := Move(t, id, GetSent(g.key)), Move(t, id, GetDone(g.key, Some(g)));
    LeadsOn(s0, cfg, w, run, s, one);
    assert Apply(s, cfg, one) == sent;
    LeadsOn(s0, cfg, w, run + [one], sent, two);
    assert Apply(sent, cfg, two) == done;
    LeadsOn(s0, cfg, w, run + [one] + [two], done, ResumeGet(id));
    s' := Move(t, id, Promoting(g));
    assert Apply(done, cfg, ResumeGet(id)) == s';
    assert run + [one] + [two] + [ResumeGet(id)] == run + [one, two, ResumeGet(id)];
  }

  lemma ReachSighted(cfg: Config, w: nat, s: State, id: nat, g: Sighting) returns (s': State)
    requires PromptReachable(s, cfg, w) && id !in s.tasks && g.key !in s.l1
    requires g.key in s.l2 && g.tier == L2 && g.at == s.clock
    requires s.l2[g.key] == g.entry && Live(cfg, L2, g.entry, s.clock)
    ensures s' == s.(tasks := s.tasks[id := Promoting(g)],
                     origins := s.origins[id := Origin(Get(g.key), Current(s), s.clock)])
    ensures PromptReachable(s', cfg, w)
  {
    assert Leads(s, cfg, w, [], s);
    s' := LeadsSighted(s, cfg, w, [], s, id, g);
    ReachAlong(s, cfg, w, [] + [Start(id, Get(g.key)), ExecGet(id), ResumeGet(id)], s');
  }

  lemma ReachPromoted(cfg: Config, w: nat, s: State, g: Sighting) returns (s': State)
    requires PromptReachable(s, cfg, w) && s.l1 == map[] && s.clock == g.at
    requires 3 in s.tasks && s.tasks[3] == Promoting(g)
    requires forall id :: id in s.tasks && id != 3 ==> s.tasks[id].Answered?
    ensures PromptReachable(s', cfg, w) && AllAnswered(s') && s'.versions == s.versions && s'.tasks.Keys == s.tasks.Keys
    ensures s'.clock == g.at + w && s'.l1 == map[g.key := Copied(s', g)]
  {
    var t := s.(clock := s.clock + w);
    ReachNext(s, cfg, w, Tick(w), t);
    var u := Move(t.(l1 := map[g.key := Copied(t, g)]), 3, PromoteDone(g));
    ReachNext(t, cfg, w, ExecPromote(3), u);
    s' := Answer(u.(hits := u.hits + 1), 3, Found(g.entry.value), FromCache(g));
    ReachNext(u, cfg, w, ResumePromote(3), s');
  }

  lemma ReachSecondLease(cfg: Config, w: nat, s: State, g: Sighting) returns (s': State)
    requires PromptReachable(s, cfg, w) && AllAnswered(s) && 4 !in s.tasks
    requires s.clock == g.at + w && s.l1 == map[g.key := Copied(s, g)]
    ensures PromptReachable(s', cfg, w) && AllAnswered(s') && s'.versions == s.versions
    ensures 4 in s'.tasks && s'.tasks[4].reply == Found(g.entry.value) && ServedByCache(s'.tasks[4])
    ensures var seen := s'.tasks[4].source.sighting;
      && seen.key == g.key && seen.entry.value == g.entry.value && seen.entry.via.Promoted?
      && seen.at == g.at + w + cfg.promote
  {
    var v := s.(clock := s.clock + cfg.promote);
    ReachNext(s, cfg, w, Tick(cfg.promote), v);
    s' := Apply(v, cfg, Start(4, Get(g.key)));
    ReachNext(v, cfg, w, Start(4, Get(g.key)), s');
  }

  /** A direct L1 copy set `w` after a fetch that the update has overtaken is served until it is ttl + w
      old. */
  lemma DirectBoundIsReached(cfg: Config, w: nat, p: Product, q: Product) returns (s: State)
    requires q.id == p.id && q != p
    ensures PromptReachable(s, cfg, w) && AllAnswered(s)
    ensures 3 in s.tasks && s.tasks[3].reply == Found(p) && ServedByCache(s.tasks[3])
    ensures var g := s.tasks[3].source.sighting;
      g.key == p.id && g.entry.value == p && g.tier == L1 && g.entry.via.Direct? && g.at == cfg.ttl + w
    ensures forall at: nat :: HeldAt(s.versions, p.id, p, at) ==> at == 0
  {
    ReachLateInBoth(cfg, w, p, q);
    var late := LateInBoth(p, q, w);
    var aged := late.(clock := w + cfg.ttl);
    ReachNext(late, cfg, w, Tick(cfg.ttl), aged);
    s := Apply(aged, cfg, Start(3, Get(p.id)));
    ReachNext(aged, cfg, w, Start(3, Get(p.id)), s);
    assert s.versions == late.versions;
  }

  /** As in Overtaken, except that both sets of the read are late. */
  function LateInBoth(p: Product, q: Product, w: nat): State {
    Overtaken(p, q, w).(l1 := map[p.id := Entry(p, 1, 0, Direct, 2, w)])
  }

  lemma ReachLateInBoth(cfg: Config, w: nat, p: Product, q: Product)
    requires q.id == p.id
    ensures PromptReachable(LateInBoth(p, q, w), cfg, w)
  {
    var k, end := p.id, LateInBoth(p, q, w);
    ReachFilling(cfg, w, p);
    ReachWrite(Filling(p), cfg, w, 2, Update(k, q.name, q.price));
    var s := AfterWrite(Filling(p), 2, Update(k, q.name, q.price));
    assert map[k := p][k := q] == map[k := q];
    assert s.versions == end.versions && s.l1 == map[] && s.l2 == map[];
    assert s.tasks == end.tasks[1 := Setting(k, p, 1, 0, BOTH)];
    var late := s.(clock := w);
    ReachNext(s, cfg, w, Tick(w), late);
    ReachLateSets(cfg, w, p, q, late);
  }

  lemma ReachLateSets(cfg: Config, w: nat, p: Product, q: Product, s: State)
    requires q.id == p.id && PromptReachable(s, cfg, w)
    requires s == LateInBoth(p, q, w).(l1 := map[], l2 := map[],
                    tasks := LateInBoth(p, q, w).tasks[1 := Setting(p.id, p, 1, 0, BOTH)])
    ensures PromptReachable(LateInBoth(p, q, w), cfg, w)
  {
    var k, end := p.id, LateInBoth(p, q, w);
    assert BOTH - {L1} == {L2} && {L2} - {L2} == {};
    var one := Move(s.(l1 := end.l1), 1, Setting(k, p, 1, 0, {L2}));
    ReachNext(s, cfg, w, ExecSet(1, L1), one);
    var two := Move(one.(l2 := end.l2), 1, Setting(k, p, 1, 0, {}));
    ReachNext(one, cfg, w, ExecSet(1, L2), two);
    assert two.tasks[1 := Answered(Found(p), FromStore(1), 2)] == end.tasks;
    ReachNext(two, cfg, w, ResumeSet(1), end);
  }

  /** With ttl 0 there is no bound: the late set never expires in L2, and a read at any later time is
      answered with the product replaced at time 0. */
  lemma ZeroTtlServesForever(cfg: Config, w: nat, p: Product, q: Product, age: nat) returns (s: State)
    requires cfg.ttl == 0 && q.id == p.id && q != p
    ensures PromptReachable(s, cfg, w) && AllAnswered(s)
    ensures 3 in s.tasks && s.tasks[3].reply == Found(p) && ServedByCache(s.tasks[3])
    ensures var g := s.tasks[3].source.sighting; g.key == p.id && g.entry.value == p && g.at == w + age
    ensures forall at: nat :: HeldAt(s.versions, p.id, p, at) ==> at == 0
  {
    ReachOvertaken(cfg, w, p, q);
    var late := Overtaken(p, q, w);
    var aged := late.(clock := w + age);
    ReachNext(late, cfg, w, Tick(age), aged);
    var g := Sighting(p.id, L2, late.l2[p.id], w + age);
    var read := ReachSighted(cfg, w, aged, 3, g);
    s := ReachAnsweredAtOnce(cfg, w, read, g);
    assert s.versions == late.versions;
  }

  lemma ReachAnsweredAtOnce(cfg: Config, w: nat, s: State, g: Sighting) returns (s': State)
    requires PromptReachable(s, cfg, w) && s.clock == g.at
    requires 3 in s.tasks && s.tasks[3] == Promoting(g)
    requires forall id :: id in s.tasks && id != 3 ==> s.tasks[id].Answered?
    ensures PromptReachable(s', cfg, w) && AllAnswered(s') && s'.versions == s.versions
    ensures 3 in s'.tasks && s'.tasks[3] == Answered(Found(g.entry.value), FromCache(g), Current(s))
  {
    var u := Move(s.(l1 := s.l1[g.key := Copied(s, g)]), 3, PromoteDone(g));
    ReachNext(s, cfg, w, ExecPromote(3), u);
    s' := Answer(u.(hits := u.hits + 1), 3, Found(g.entry.value), FromCache(g));
    ReachNext(u, cfg, w, ResumePromote(3), s');
  }

  // ---------------------------------------------------------------- the worst age

  /** What the request was answered with is at most `b` older than its reading. */
  ghost predicate NoOlder(s: State, t: Task, b: nat) {
    ServedByCache(t) ==>
      var g := t.source.sighting;
      exists at: nat :: at <= g.at <= at + b && HeldAt(s.versions, g.key, g.entry.value, at)
  }

  /** In no run with timely sets and promotions is a read answered with anything more than `b` old. */
  ghost predicate AgeBounded(cfg: Config, w: nat, b: nat) {
    forall s, id :: TimelyReachable(s, cfg, w) && id in s.tasks ==> NoOlder(s, s.tasks[id], b)
  }

  /** The worst age for a positive ttl. The second term is that of promoted copies; a direct copy in L1,
      which expires one tick later, is worse only if promotion adds nothing. */
  function WorstAge(cfg: Config, w: nat): int {
    if cfg.promote + w == 0 then cfg.ttl else cfg.ttl + cfg.promote + 2 * w - 1
  }

  /** The age of what reads are answered with is bounded exactly for a positive ttl, and then by the worst
      age and nothing less. */
  lemma WorstAgeExactly(cfg: Config, w: nat, b: nat)
    ensures AgeBounded(cfg, w, b) <==> cfg.ttl > 0 && WorstAge(cfg, w) <= b
  {
    var p, q := Product("", "", 0.0), Product("", "", 1.0);
    if cfg.ttl > 0 && WorstAge(cfg, w) <= b {
      forall s, id | TimelyReachable(s, cfg, w) && id in s.tasks
        ensures NoOlder(s, s.tasks[id], b)
      {
        if ServedByCache(s.tasks[id]) { BoundedStaleness(s, cfg, w, id); }
      }
    } else if cfg.ttl == 0 {
      var s := ZeroTtlServesForever(cfg, w, p, q, b + 1);
      TooOld(cfg, w, b, s, 3, p);
    } else if cfg.promote + w == 0 {
      var s := DirectBoundIsReached(cfg, w, p, q);
      TooOld(cfg, w, b, s, 3, p);
    } else {
      var s := BoundIsReached(cfg, w, p, q);
      TooOld(cfg, w, b, s, 4, p);
    }
  }

  lemma TooOld(cfg: Config, w: nat, b: nat, s: State, id: nat, p: Product)
    requires PromptReachable(s, cfg, w) && id in s.tasks && ServedByCache(s.tasks[id])
    requires var g := s.tasks[id].source.sighting; g.key == p.id && g.entry.value == p && g.at > b
    requires forall at: nat :: HeldAt(s.versions, p.id, p, at) ==> at == 0
    ensures !AgeBounded(cfg, w, b)
  {
    PromptIsTimely(s, cfg, w);
    assert !NoOlder(s, s.tasks[id], b);
  }

  // ---------------------------------------------------------------- fast tier first

  /** A write that clears the fast tier, a read that then finds the old product in the slow tier, and only
      then the delete there. */
  function FastTierFirst(q: Product): seq<Event> {
    [Start(2, Update(q.id, q.name, q.price)), ExecDelete(2, L1)] +
    [Start(3, Get(q.id)), ExecGet(3), ResumeGet(3)] +
    [ExecDelete(2, L2), ResumeDelete(2), ExecPromote(3), ResumePromote(3)]
  }

  /** Deleting from the fast tier first, as the cache does, is not safe even with nothing in flight: from a
      state in which every request is answered, the run above ends with every request answered again, both
      deletes done, and L1 serving the old product. */
  lemma FastTierFirstRevives(cfg: Config, p: Product, q: Product) returns (before: State, s: State)
    requires q.id == p.id && q != p
    ensures PromptReachable(before, cfg, 0) && AllAnswered(before) && Store(before) == map[p.id := p]
    ensures Leads(before, cfg, 0, FastTierFirst(q), s)
    ensures AllAnswered(s) && Store(s) == map[p.id := q]
    ensures Stale(s, L1, p.id) && s.l1[p.id].value == p && Lookup(s, cfg, L1, p.id).Some?
  {
    var k := p.id;
    before := Cached(p);
    ReachCached(cfg, 0, p);
    var half, run := LeadsHalfDeleted(cfg, p, q);
    var g := Sighting(k, L2, Copy(p), 0);
    var read := LeadsSighted(before, cfg, 0, run, half, 3, g);
    run := run + [Start(3, Get(k)), ExecGet(3), ResumeGet(3)];
    var cleared := LeadsCleared(before, cfg, run, read, k, q);
    run := run + [ExecDelete(2, L2), ResumeDelete(2)];
    s := LeadsRevived(before, cfg, run, cleared, g);
    assert run + [ExecPromote(3), ResumePromote(3)] == FastTierFirst(q);
  }

  /** The slow tier is cleared, and the write is answered. */
  lemma LeadsCleared(s0: State, cfg: Config, run: seq<Event>, s: State, key: string, q: Product)
    returns (s': State)
    requires Leads(s0, cfg, 0, run, s) && 2 in s.tasks && s.tasks[2] == Deleting(key, 1, Found(q), {L2})
    ensures Leads(s0, cfg, 0, run + [ExecDelete(2, L2), ResumeDelete(2)], s')
    ensures s' == s.(l2 := s.l2 - {key}, tasks := s.tasks[2 := Answered(Found(q), FromStore(1), Current(s))])
  {
    assert {L2} - {L2} == {};
    var gone := Move(s.(l2 := s.l2 - {key}), 2, Deleting(key, 1, Found(q), {}));
    LeadsOn(s0, cfg, 0, run, s, ExecDelete(2, L2));
    assert Apply(s, cfg, ExecDelete(2, L2)) == gone;
    LeadsOn(s0, cfg, 0, run + [ExecDelete(2, L2)], gone, ResumeDelete(2));
    s' := Apply(gone, cfg, ResumeDelete(2));
    assert run + [ExecDelete(2, L2)] + [ResumeDelete(2)] == run + [ExecDelete(2, L2), ResumeDelete(2)];
  }

  /** The read copies what it had found to the fast tier, and is answered. */
  lemma LeadsRevived(s0: State, cfg: Config, run: seq<Event>, s: State, g: Sighting) returns (s': State)
    requires Leads(s0, cfg, 0, run, s) && s.clock == g.at && 3 in s.tasks && s.tasks[3] == Promoting(g)
    requires forall id :: id in s.tasks && id != 3 ==> s.tasks[id].Answered?
    ensures Leads(s0, cfg, 0, run + [ExecPromote(3), ResumePromote(3)], s')
    ensures AllAnswered(s') && s'.versions == s.versions && s'.clock == s.clock
    ensures g.key in s'.l1 && s'.l1[g.key] == Copied(s, g)
  {
    var copied := Move(s.(l1 := s.l1[g.key := Copied(s, g)]), 3, PromoteDone(g));
    LeadsOn(s0, cfg, 0, run, s, ExecPromote(3));
    assert Apply(s, cfg, ExecPromote(3)) == copied;
    LeadsOn(s0, cfg, 0, run + [ExecPromote(3)], copied, ResumePromote(3));
    s' := Apply(copied, cfg, ResumePromote(3));
    assert run + [ExecPromote(3)] + [ResumePromote(3)] == run + [ExecPromote(3), ResumePromote(3)];
  }

  /** The product is replaced and so far deleted from L1 only. */
  lemma LeadsHalfDeleted(cfg: Config, p: Product, q: Product) returns (s: State, run: seq<Event>)
    requires q.id == p.id
    ensures run == [Start(2, Update(q.id, q.name, q.price)), ExecDelete(2, L1)]
    ensures Leads(Cached(p), cfg, 0, run, s)
    ensures s == Cached(p).(versions := Cached(p).versions + [Version(p.id, 0, map[p.id := q])], l1 := map[],
                            tasks := Cached(p).tasks[2 := Deleting(p.id, 1, Found(q), {L2})],
                            origins := Cached(p).origins[2 := Origin(Update(p.id, q.name, q.price), 1, 0)])
  {
    var k, r := p.id, Update(p.id, q.name, q.price);
    StoreShape(Cached(p), cfg, 2, r);
    assert map[k := p][k := q] == map[k := q];
    var started := Apply(Cached(p), cfg, Start(2, r));
    assert Leads(Cached(p), cfg, 0, [], Cached(p));
    LeadsOn(Cached(p), cfg, 0, [], Cached(p), Start(2, r));
    assert BOTH - {L1} == {L2};
    s := Move(started.(l1 := map[]), 2, Deleting(k, 1, Found(q), {L2}));
    assert started.l1 - {k} == map[];
    LeadsOn(Cached(p), cfg, 0, [] + [Start(2, r)], started, ExecDelete(2, L1));
    run := [] + [Start(2, r)] + [ExecDelete(2, L1)];
  }
}
