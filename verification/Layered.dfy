/** The two-tier cache of examples/13 as a step system: an in-process L1 in front of a shared L2, in
    front of the store.

    `InMemoryCache` and `ProductStore` coroutines never suspend, so an L1 lookup happens in the step
    that starts the read. An L2 call executes at the server in a step of its own. `LayeredCache`
    promotes, sets and deletes through `asyncio.gather`, which schedules one task per tier: each
    tier's effect is a separate step, and the two come in either order. */
module Layered {
  import opened Wrappers
  import opened StoreHistory
  import opened ProductService

  /** The store's history; it always holds at least the start-up version. */
  type Versions = vs: seq<Version<string, Product>> | |vs| > 0 witness [Version("", 0, map[])]

  /** `ttl` is the layer's default, passed to both tiers on a set; `promote` applies to L1 copies
      made from an L2 hit. */
  datatype Config = Config(ttl: nat, promote: nat)

  datatype Via = Direct | Promoted(l2SetAt: nat, readAt: nat)

  /** A cached product with the history of how it got there; only `via` and `setAt` are ever tested,
      by the expiry rules. */
  datatype Entry = Entry(value: Product, fetchedVersion: nat, fetchedAt: nat, via: Via, setVersion: nat, setAt: nat)

  datatype Tier = L1 | L2

  /** A read found `entry` in `tier` when the clock read `at`. */
  datatype Sighting = Sighting(key: string, tier: Tier, entry: Entry, at: nat)

  /** When a request came in: the store version and the clock reading of that moment. */
  datatype Origin = Origin(request: Request, version: nat, at: nat)

  /** What an answer rests on: a version of the store, or an entry found in a tier. */
  datatype Source = FromStore(version: nat) | FromCache(sighting: Sighting)

  /** Where a request stands. A write read version `base` and made the one after it; `waiting` are the
      tiers whose part of a set or delete is still to execute. `ended` is the version current when the
      request was answered. Origins, sources and ends are history that no step inspects. */
  datatype Task =
    | GetSent(key: string)
    | GetDone(key: string, raw: Option<Sighting>)
    | Promoting(sighting: Sighting)
    | PromoteDone(sighting: Sighting)
    | Setting(key: string, value: Product, fetchedVersion: nat, fetchedAt: nat, waiting: set<Tier>)
    | Deleting(key: string, base: nat, reply: Reply, waiting: set<Tier>)
    | Answered(reply: Reply, source: Source, ended: nat)

  datatype State = State(
    clock: nat,
    versions: Versions,
    l1: map<string, Entry>,
    l2: map<string, Entry>,
    tasks: map<nat, Task>,
    origins: map<nat, Origin>,
    hits: nat,
    misses: nat)

  datatype Event =
    | Tick(ticks: nat)
    | Drop(tier: Tier, key: string)
    | Start(id: nat, request: Request)
    | ExecGet(id: nat)
    | ResumeGet(id: nat)
    | ExecPromote(id: nat)
    | ResumePromote(id: nat)
    | ExecSet(id: nat, tier: Tier)
    | ResumeSet(id: nat)
    | ExecDelete(id: nat, tier: Tier)
    | ResumeDelete(id: nat)

  const BOTH: set<Tier> := {L1, L2}
  const INITIAL := State(0, [Version("", 0, map[])], map[], map[], map[], map[], 0, 0)

  // ---------------------------------------------------------------- the handlers, step by step

  function Current(s: State): nat {
    |s.versions| - 1
  }

  function Store(s: State): map<string, Product> {
    s.versions[Current(s)].data
  }

  function Cache(s: State, tier: Tier): map<string, Entry> {
    if tier == L1 then s.l1 else s.l2
  }

  function WithCache(s: State, tier: Tier, m: map<string, Entry>): State {
    if tier == L1 then s.(l1 := m) else s.(l2 := m)
  }

  /** L1 expires an entry when its age exceeds its own ttl; L2 at its deadline, a zero ttl meaning
      that it never expires there. */
  predicate Live(cfg: Config, tier: Tier, e: Entry, now: nat) {
    match tier
    case L1 => now <= e.setAt + (if e.via.Direct? then cfg.ttl else cfg.promote)
    case L2 => cfg.ttl == 0 || now < e.setAt + cfg.ttl
  }

  function Lookup(s: State, cfg: Config, tier: Tier, key: string): Option<Sighting> {
    var m := Cache(s, tier);
    if key in m && Live(cfg, tier, m[key], s.clock) then Some(Sighting(key, tier, m[key], s.clock)) else None
  }

  predicate Enabled(s: State, e: Event) {
    match e
    case Tick(_) => true
    case Drop(tier, key) => key in Cache(s, tier)
    case Start(id, _) => id !in s.tasks
    case ExecGet(id) => id in s.tasks && s.tasks[id].GetSent?
    case ResumeGet(id) => id in s.tasks && s.tasks[id].GetDone?
    case ExecPromote(id) => id in s.tasks && s.tasks[id].Promoting?
    case ResumePromote(id) => id in s.tasks && s.tasks[id].PromoteDone?
    case ExecSet(id, tier) => id in s.tasks && s.tasks[id].Setting? && tier in s.tasks[id].waiting
    case ResumeSet(id) => id in s.tasks && s.tasks[id].Setting? && s.tasks[id].waiting == {}
    case ExecDelete(id, tier) => id in s.tasks && s.tasks[id].Deleting? && tier in s.tasks[id].waiting
    case ResumeDelete(id) => id in s.tasks && s.tasks[id].Deleting? && s.tasks[id].waiting == {}
  }

  function Move(s: State, id: nat, t: Task): State {
    s.(tasks := s.tasks[id := t])
  }

  function Answer(s: State, id: nat, reply: Reply, source: Source): State {
    Move(s, id, Answered(reply, source, Current(s)))
  }

  /** A write to the store, followed by the invalidation of both tiers. */
  function Write(s: State, id: nat, key: string, data: map<string, Product>, reply: Reply): State {
    Move(s.(versions := s.versions + [Version(key, s.clock, data)]), id, Deleting(key, Current(s), reply, BOTH))
  }

  function Apply(s: State, cfg: Config, e: Event): State
    requires Enabled(s, e)
  {
    match e
    case Tick(ticks) => s.(clock := s.clock + ticks)
    case Drop(tier, key) => WithCache(s, tier, Cache(s, tier) - {key})
    case Start(id, request) =>
      Begin(s.(origins := s.origins[id := Origin(request, Current(s), s.clock)]), cfg, id, request)
    case ExecGet(id) => Move(s, id, GetDone(s.tasks[id].key, Lookup(s, cfg, L2, s.tasks[id].key)))
    case ResumeGet(id) =>
      var t := s.tasks[id];
      if t.raw.Some? then Move(s, id, Promoting(t.raw.value))
      else if t.key !in Store(s) then Answer(s.(misses := s.misses + 1), id, NotFound, FromStore(Current(s)))
      else Move(s.(misses := s.misses + 1), id, Setting(t.key, Store(s)[t.key], Current(s), s.clock, BOTH))
    case ExecPromote(id) =>
      var g := s.tasks[id].sighting;
      Move(s.(l1 := s.l1[g.key := Copied(s, g)]), id, PromoteDone(g))
    case ResumePromote(id) =>
      var g := s.tasks[id].sighting;
      Answer(s.(hits := s.hits + 1), id, Found(g.entry.value), FromCache(g))
    case ExecSet(id, tier) =>
      var t := s.tasks[id];
      var entry := Entry(t.value, t.fetchedVersion, t.fetchedAt, Direct, Current(s), s.clock);
      Move(WithCache(s, tier, Cache(s, tier)[t.key := entry]), id,
           Setting(t.key, t.value, t.fetchedVersion, t.fetchedAt, t.waiting - {tier}))
    case ResumeSet(id) => Answer(s, id, Found(s.tasks[id].value), FromStore(s.tasks[id].fetchedVersion))
    case ExecDelete(id, tier) =>
      var t := s.tasks[id];
      Move(WithCache(s, tier, Cache(s, tier) - {t.key}), id,
           Deleting(t.key, t.base, t.reply, t.waiting - {tier}))
    case ResumeDelete(id) => Answer(s, id, s.tasks[id].reply, FromStore(s.tasks[id].base))
  }

  /** A handler up to the first cache call it waits for. */
  function Begin(s: State, cfg: Config, id: nat, request: Request): State {
    match request
    case Get(key) =>
      var hit := Lookup(s, cfg, L1, key);
      if hit.Some? then Answer(s.(hits := s.hits + 1), id, Found(hit.value.entry.value), FromCache(hit.value))
      else Move(s.(l1 := s.l1 - {key}), id, GetSent(key))
    case Create(body) =>
      if body.id in Store(s) then Answer(s, id, Conflict, FromStore(Current(s)))
      else Write(s, id, body.id, Store(s)[body.id := body], Found(body))
    case Update(key, name, price) =>
      if key !in Store(s) then Answer(s, id, NotFound, FromStore(Current(s)))
      else
        var updated := Product(key, name, price);
        Write(s, id, key, Store(s)[key := updated], Found(updated))
    case Delete(key) =>
      if key !in Store(s) then Answer(s, id, NotFound, FromStore(Current(s)))
      else Write(s, id, key, Store(s) - {key}, Deleted)
  }

  /** The L1 copy of a sighted L2 entry. */
  function Copied(s: State, g: Sighting): Entry {
    Entry(g.entry.value, g.entry.fetchedVersion, g.entry.fetchedAt, Promoted(g.entry.setAt, g.at), Current(s), s.clock)
  }

  /** The state a run of events leads to, if each of them can be taken in turn. */
  function After(s: State, cfg: Config, run: seq<Event>): Option<State>
    decreases |run|
  {
    if run == [] then Some(s)
    else if Enabled(s, run[0]) then After(Apply(s, cfg, run[0]), cfg, run[1..])
    else None
  }

  // ---------------------------------------------------------------- the service without a cache

  predicate Saves(o: Origin, reply: Reply) {
    !o.request.Get? && (reply.Found? || reply.Deleted?)
  }

  /** The store-only service, taking the request at version `f`, would have given this reply. A write is
      taken at the version it found on arrival, and the next version is its own. */
  ghost predicate ServedAt(vs: Versions, o: Origin, reply: Reply, f: nat) {
    && o.version <= f < |vs|
    && reply == StoreOnly(vs[f].data, o.request).1
    && (!o.request.Get? ==> f == o.version)
    && (Saves(o, reply) ==> f + 1 < |vs| && vs[f + 1].data == StoreOnly(vs[f].data, o.request).0)
  }

  // ---------------------------------------------------------------- what every step keeps

  ghost predicate EntrySound(s: State, key: string, e: Entry) {
    && Fetched(s.versions, key, e.value, e.fetchedVersion, e.fetchedAt)
    && e.fetchedVersion <= e.setVersion < |s.versions|
    && e.fetchedAt <= e.setAt <= s.clock
  }

  /** A read that came in at `o` found the entry. */
  ghost predicate SightingSound(s: State, cfg: Config, o: Origin, g: Sighting) {
    && o.request == Get(g.key)
    && EntrySound(s, g.key, g.entry)
    && (g.tier == L2 ==> g.entry.via.Direct?)
    && g.entry.setAt <= g.at <= s.clock && o.at <= g.at
    && Live(cfg, g.tier, g.entry, g.at)
  }

  ghost predicate TaskSound(s: State, cfg: Config, o: Origin, t: Task) {
    match t
    case GetSent(key) => o.request == Get(key)
    case GetDone(key, raw) =>
      o.request == Get(key) && (raw.Some? ==> SightingSound(s, cfg, o, raw.value) && raw.value.tier == L2)
    case Promoting(g) => SightingSound(s, cfg, o, g) && g.tier == L2
    case PromoteDone(g) => SightingSound(s, cfg, o, g) && g.tier == L2
    case Setting(key, value, version, at, _) =>
      o.request == Get(key) && o.version <= version && Fetched(s.versions, key, value, version, at) && at <= s.clock
    case Deleting(key, base, reply, _) =>
      && Saves(o, reply) && ServedAt(s.versions, o, reply, base)
      && s.versions[base + 1].key == key
    case Answered(reply, FromStore(f), ended) =>
      ServedAt(s.versions, o, reply, f) && (if Saves(o, reply) then f + 1 else f) <= ended < |s.versions|
    case Answered(reply, FromCache(g), ended) =>
      reply == Found(g.entry.value) && SightingSound(s, cfg, o, g) && o.version <= ended < |s.versions|
  }

  ghost predicate RequestSound(s: State, cfg: Config, id: nat)
    requires id in s.tasks
  {
    && id in s.origins
    && s.origins[id].version < |s.versions|
    && s.origins[id].at <= s.clock
    && TaskSound(s, cfg, s.origins[id], s.tasks[id])
  }

  /** The write of version `version` has not yet deleted the key from the tier. */
  ghost predicate DeletePending(s: State, tier: Tier, key: string, version: nat) {
    exists id :: id in s.tasks && IsPending(s.tasks[id], tier, key, version)
  }

  ghost predicate IsPending(t: Task, tier: Tier, key: string, version: nat) {
    t.Deleting? && t.key == key && t.base + 1 == version && tier in t.waiting
  }

  /** Every write to the key that came after the entry was set still has its delete outstanding. */
  ghost predicate Covered(s: State, tier: Tier, key: string, e: Entry) {
    forall t :: e.setVersion < t < |s.versions| && s.versions[t].key == key ==> DeletePending(s, tier, key, t)
  }

  ghost predicate TierSound(s: State, tier: Tier) {
    forall k :: k in Cache(s, tier) ==>
      && EntrySound(s, k, Cache(s, tier)[k])
      && Covered(s, tier, k, Cache(s, tier)[k])
      && (tier == L2 ==> Cache(s, tier)[k].via.Direct?)
  }

  ghost predicate Inv(s: State, cfg: Config) {
    && Chain(s.versions)
    && s.versions[|s.versions| - 1].since <= s.clock
    && TierSound(s, L1)
    && TierSound(s, L2)
    && (forall id :: id in s.tasks ==> RequestSound(s, cfg, id))
  }

  /** A tier keeps its entries sound when only sound fresh entries are added and a pending delete
      disappears only together with the entry it was for. */
  lemma QuietTier(s: State, tier: Tier, s': State)
    requires TierSound(s, tier)
    requires s'.versions == s.versions && s.clock <= s'.clock
    requires forall k :: k in Cache(s', tier) ==>
      || (k in Cache(s, tier) && Cache(s', tier)[k] == Cache(s, tier)[k])
      || (&& EntrySound(s', k, Cache(s', tier)[k])
          && Cache(s', tier)[k].setVersion == |s.versions| - 1
          && (tier == L2 ==> Cache(s', tier)[k].via.Direct?))
    requires forall id :: id in s.tasks && s.tasks[id].Deleting? && tier in s.tasks[id].waiting ==>
      || (id in s'.tasks && IsPending(s'.tasks[id], tier, s.tasks[id].key, s.tasks[id].base + 1))
      || s.tasks[id].key !in Cache(s', tier)
    ensures TierSound(s', tier)
  {
    forall k | k in Cache(s', tier)
      ensures EntrySound(s', k, Cache(s', tier)[k]) && Covered(s', tier, k, Cache(s', tier)[k])
    {
      var e := Cache(s', tier)[k];
      if k in Cache(s, tier) && e == Cache(s, tier)[k] {
        assert EntrySound(s, k, e) && Covered(s, tier, k, e);
        forall t | e.setVersion < t < |s'.versions| && s'.versions[t].key == k
          ensures DeletePending(s', tier, k, t)
        {
          assert DeletePending(s, tier, k, t);
          var id :| id in s.tasks && IsPending(s.tasks[id], tier, k, t);
        }
      }
    }
  }

  /** Writing one fresh entry, or none, while a task with no delete to do moves on. */
  lemma PutTier(s: State, tier: Tier, id: nat, key: string, s': State)
    requires TierSound(s, tier) && id in s.tasks && !s.tasks[id].Deleting?
    requires s'.versions == s.versions && s.clock <= s'.clock
    requires id in s'.tasks && s'.tasks == s.tasks[id := s'.tasks[id]]
    requires
      || Cache(s', tier) == Cache(s, tier)
      || (key in Cache(s', tier) && Cache(s', tier) == Cache(s, tier)[key := Cache(s', tier)[key]])
    requires Cache(s', tier) != Cache(s, tier) ==>
      var e := Cache(s', tier)[key];
      EntrySound(s', key, e) && e.setVersion == |s.versions| - 1 && (tier == L2 ==> e.via.Direct?)
    ensures TierSound(s', tier)
  {
    QuietTier(s, tier, s');
  }

  lemma RequestStaysSound(s: State, cfg: Config, s': State, id: nat)
    requires id in s.tasks && RequestSound(s, cfg, id) && s'.versions == s.versions && s.clock <= s'.clock
    requires id in s'.tasks && s'.tasks[id] == s.tasks[id] && id in s'.origins && s'.origins[id] == s.origins[id]
    ensures RequestSound(s', cfg, id)
  {
  }

  /** Request `id` starts or moves on, and no other. */
  ghost predicate Moves(s: State, id: nat, s': State) {
    && id in s'.tasks && s'.tasks == s.tasks[id := s'.tasks[id]]
    && id in s'.origins && s'.origins == s.origins[id := s'.origins[id]]
  }

  ghost predicate Stays(s: State, s': State) {
    s'.tasks == s.tasks && s'.origins == s.origins
  }

  /** A step that leaves the store alone and moves at most request `id`. */
  lemma QuietStep(s: State, cfg: Config, id: nat, s': State)
    requires Inv(s, cfg)
    requires s'.versions == s.versions && s.clock <= s'.clock
    requires TierSound(s', L1) && TierSound(s', L2)
    requires Stays(s, s') || (Moves(s, id, s') && RequestSound(s', cfg, id))
    ensures Inv(s', cfg)
  {
    forall i | i in s'.tasks
      ensures RequestSound(s', cfg, i)
    {
      if i != id || Stays(s, s') {
        assert RequestSound(s, cfg, i);
        RequestStaysSound(s, cfg, s', i);
      }
    }
  }

  lemma WriteTier(s: State, tier: Tier, id: nat, v: Version<string, Product>, s': State)
    requires TierSound(s, tier) && id !in s.tasks
    requires s.versions[Current(s)].since <= s.clock == s'.clock == v.since && s'.versions == s.versions + [v]
    requires Moves(s, id, s') && Cache(s', tier) == Cache(s, tier)
    requires IsPending(s'.tasks[id], tier, v.key, |s.versions|)
    ensures TierSound(s', tier)
  {
    forall k | k in Cache(s', tier)
      ensures EntrySound(s', k, Cache(s', tier)[k]) && Covered(s', tier, k, Cache(s', tier)[k])
      ensures tier == L2 ==> Cache(s', tier)[k].via.Direct?
    {
      var e := Cache(s, tier)[k];
      assert EntrySound(s, k, e) && Covered(s, tier, k, e);
      forall t | e.setVersion < t < |s'.versions| && s'.versions[t].key == k
        ensures DeletePending(s', tier, k, t)
      {
        if t < |s.versions| {
          assert DeletePending(s, tier, k, t);
          var i :| i in s.tasks && IsPending(s.tasks[i], tier, k, t);
          assert s'.tasks[i] == s.tasks[i];
        } else {
          assert IsPending(s'.tasks[id], tier, k, t);
        }
      }
    }
  }

  /** What is known of a request survives a write. */
  lemma RequestAfterWrite(s: State, cfg: Config, s': State, v: Version<string, Product>, id: nat)
    requires s'.versions == s.versions + [v] && s'.clock == s.clock == v.since
    requires s.versions[Current(s)].since <= s.clock
    requires id in s.tasks && RequestSound(s, cfg, id)
    requires id in s'.tasks && s'.tasks[id] == s.tasks[id] && id in s'.origins && s'.origins[id] == s.origins[id]
    ensures RequestSound(s', cfg, id)
  {
  }

  lemma WriteStep(s: State, cfg: Config, id: nat, v: Version<string, Product>, s': State)
    requires Inv(s, cfg) && id !in s.tasks
    requires s'.versions == s.versions + [v] && s'.clock == s.clock == v.since && s'.l1 == s.l1 && s'.l2 == s.l2
    requires SameExcept(Store(s), v.data, v.key)
    requires Moves(s, id, s') && RequestSound(s', cfg, id)
    requires s'.tasks[id].Deleting? && s'.tasks[id].key == v.key
    requires s'.tasks[id].base == Current(s) && s'.tasks[id].waiting == BOTH
    ensures Inv(s', cfg)
  {
    Extend(s.versions, v);
    WriteTier(s, L1, id, v, s');
    WriteTier(s, L2, id, v, s');
    forall i | i in s'.tasks
      ensures RequestSound(s', cfg, i)
    {
      if i != id {
        assert RequestSound(s, cfg, i);
        RequestAfterWrite(s, cfg, s', v, i);
      }
    }
  }

  /** A step that at most drops entries and moves one request that has no delete outstanding. */
  lemma TouchStep(s: State, cfg: Config, id: nat, s': State)
    requires Inv(s, cfg)
    requires s'.versions == s.versions && s.clock <= s'.clock
    requires forall k :: k in s'.l1 ==> k in s.l1 && s'.l1[k] == s.l1[k]
    requires forall k :: k in s'.l2 ==> k in s.l2 && s'.l2[k] == s.l2[k]
    requires id in s.tasks && !Stays(s, s') ==> !s.tasks[id].Deleting? || s.tasks[id].waiting == {}
    requires Stays(s, s') || (Moves(s, id, s') && RequestSound(s', cfg, id))
    ensures Inv(s', cfg)
  {
    QuietTier(s, L1, s');
    QuietTier(s, L2, s');
    QuietStep(s, cfg, id, s');
  }

  lemma StartGetStep(s: State, cfg: Config, id: nat, key: string)
    requires Inv(s, cfg) && Enabled(s, Start(id, Get(key)))
    ensures Inv(Apply(s, cfg, Start(id, Get(key))), cfg)
  {
    var s' := Apply(s, cfg, Start(id, Get(key)));
    StartGetTask(s, cfg, id, key);
    TouchStep(s, cfg, id, s');
  }

  lemma StartGetTask(s: State, cfg: Config, id: nat, key: string)
    requires TierSound(s, L1) && Enabled(s, Start(id, Get(key)))
    ensures RequestSound(Apply(s, cfg, Start(id, Get(key))), cfg, id)
  {
    if key in s.l1 { assert EntrySound(s, key, Cache(s, L1)[key]); }
  }

  lemma ExecGetStep(s: State, cfg: Config, id: nat)
    requires Inv(s, cfg) && Enabled(s, ExecGet(id))
    ensures Inv(Apply(s, cfg, ExecGet(id)), cfg)
  {
    var s' := Apply(s, cfg, ExecGet(id));
    var key := s.tasks[id].key;
    assert RequestSound(s', cfg, id) by {
      assert RequestSound(s, cfg, id);
      assert key in s.l2 ==> EntrySound(s, key, Cache(s, L2)[key]);
    }
    TouchStep(s, cfg, id, s');
  }

  lemma ResumeGetStep(s: State, cfg: Config, id: nat)
    requires Inv(s, cfg) && Enabled(s, ResumeGet(id))
    ensures Inv(Apply(s, cfg, ResumeGet(id)), cfg)
  {
    var s' := Apply(s, cfg, ResumeGet(id));
    ResumeGetTask(s, cfg, id);
    TouchStep(s, cfg, id, s');
  }

  lemma ResumeGetTask(s: State, cfg: Config, id: nat)
    requires Enabled(s, ResumeGet(id)) && RequestSound(s, cfg, id) && s.versions[Current(s)].since <= s.clock
    ensures RequestSound(Apply(s, cfg, ResumeGet(id)), cfg, id)
  {
  }

  lemma ExecPromoteStep(s: State, cfg: Config, id: nat)
    requires Inv(s, cfg) && Enabled(s, ExecPromote(id))
    ensures Inv(Apply(s, cfg, ExecPromote(id)), cfg)
  {
    var s' := Apply(s, cfg, ExecPromote(id));
    var key := s.tasks[id].sighting.key;
    assert RequestSound(s', cfg, id) && EntrySound(s', key, Copied(s, s.tasks[id].sighting)) by {
      assert RequestSound(s, cfg, id);
    }
    PutTier(s, L1, id, key, s');
    PutTier(s, L2, id, key, s');
    QuietStep(s, cfg, id, s');
  }

  lemma ExecSetStep(s: State, cfg: Config, id: nat, tier: Tier)
    requires Inv(s, cfg) && Enabled(s, ExecSet(id, tier))
    ensures Inv(Apply(s, cfg, ExecSet(id, tier)), cfg)
  {
    var s' := Apply(s, cfg, ExecSet(id, tier));
    ExecSetTask(s, cfg, id, tier);
    ExecSetTier(s, cfg, id, tier, L1);
    ExecSetTier(s, cfg, id, tier, L2);
    QuietStep(s, cfg, id, s');
  }

  lemma ExecSetTier(s: State, cfg: Config, id: nat, tier: Tier, other: Tier)
    requires TierSound(s, other) && Enabled(s, ExecSet(id, tier)) && RequestSound(s, cfg, id)
    ensures TierSound(Apply(s, cfg, ExecSet(id, tier)), other)
  {
    ExecSetTask(s, cfg, id, tier);
    PutTier(s, other, id, s.tasks[id].key, Apply(s, cfg, ExecSet(id, tier)));
  }

  lemma ExecSetTask(s: State, cfg: Config, id: nat, tier: Tier)
    requires Enabled(s, ExecSet(id, tier)) && RequestSound(s, cfg, id)
    ensures var s' := Apply(s, cfg, ExecSet(id, tier));
      RequestSound(s', cfg, id) && EntrySound(s', s.tasks[id].key, Cache(s', tier)[s.tasks[id].key])
  {
  }

  lemma ExecDeleteStep(s: State, cfg: Config, id: nat, tier: Tier)
    requires Inv(s, cfg) && Enabled(s, ExecDelete(id, tier))
    ensures Inv(Apply(s, cfg, ExecDelete(id, tier)), cfg)
  {
    var s' := Apply(s, cfg, ExecDelete(id, tier));
    ExecDeleteTask(s, cfg, id, tier);
    ExecDeleteTier(s, cfg, id, tier, L1);
    ExecDeleteTier(s, cfg, id, tier, L2);
    QuietStep(s, cfg, id, s');
  }

  lemma ExecDeleteTier(s: State, cfg: Config, id: nat, tier: Tier, other: Tier)
    requires TierSound(s, other) && Enabled(s, ExecDelete(id, tier))
    ensures TierSound(Apply(s, cfg, ExecDelete(id, tier)), other)
  {
    QuietTier(s, other, Apply(s, cfg, ExecDelete(id, tier)));
  }

  lemma ExecDeleteTask(s: State, cfg: Config, id: nat, tier: Tier)
    requires Enabled(s, ExecDelete(id, tier)) && RequestSound(s, cfg, id)
    ensures RequestSound(Apply(s, cfg, ExecDelete(id, tier)), cfg, id)
  {
  }

  lemma AnswerStep(s: State, cfg: Config, e: Event)
    requires Inv(s, cfg) && Enabled(s, e)
    requires e.ResumePromote? || e.ResumeSet? || e.ResumeDelete?
    ensures Inv(Apply(s, cfg, e), cfg)
  {
    var s' := Apply(s, cfg, e);
    AnswerTask(s, cfg, e);
    TouchStep(s, cfg, e.id, s');
  }

  lemma AnswerTask(s: State, cfg: Config, e: Event)
    requires Enabled(s, e) && (e.ResumePromote? || e.ResumeSet? || e.ResumeDelete?) && RequestSound(s, cfg, e.id)
    ensures RequestSound(Apply(s, cfg, e), cfg, e.id)
  {
  }

  ghost predicate Accepted(reply: Reply) {
    reply.Found? || reply.Deleted?
  }

  lemma StoreStep(s: State, cfg: Config, id: nat, request: Request)
    requires Inv(s, cfg) && Enabled(s, Start(id, request)) && !request.Get?
    ensures Inv(Apply(s, cfg, Start(id, request)), cfg)
  {
    var s' := Apply(s, cfg, Start(id, request));
    var (data, reply) := StoreOnly(Store(s), request);
    StoreShape(s, cfg, id, request);
    StoreTask(s, cfg, id, request, s');
    if Accepted(reply) {
      WriteStep(s, cfg, id, Version(KeyOf(request), s.clock, data), s');
    } else {
      TouchStep(s, cfg, id, s');
    }
  }

  /** The store as a write request leaves it on arrival. */
  ghost function Written(s: State, r: Request): Versions {
    var (data, reply) := StoreOnly(Store(s), r);
    if Accepted(reply) then s.versions + [Version(KeyOf(r), s.clock, data)] else s.versions
  }

  /** What a write request has come to when it first waits, or is refused at once. */
  ghost function Arrived(s: State, r: Request): Task {
    var reply := StoreOnly(Store(s), r).1;
    if Accepted(reply) then Deleting(KeyOf(r), Current(s), reply, BOTH)
    else Answered(reply, FromStore(Current(s)), Current(s))
  }

  lemma StoreShape(s: State, cfg: Config, id: nat, request: Request)
    requires Enabled(s, Start(id, request)) && !request.Get?
    ensures Apply(s, cfg, Start(id, request)) ==
      s.(versions := Written(s, request),
         tasks := s.tasks[id := Arrived(s, request)],
         origins := s.origins[id := Origin(request, Current(s), s.clock)])
    ensures SameExcept(Store(s), StoreOnly(Store(s), request).0, KeyOf(request))
  {
  }

  lemma StoreTask(s: State, cfg: Config, id: nat, request: Request, s': State)
    requires !request.Get? && s'.versions == Written(s, request) && s'.clock == s.clock
    requires id in s'.tasks && s'.tasks[id] == Arrived(s, request)
    requires id in s'.origins && s'.origins[id] == Origin(request, Current(s), s.clock)
    ensures RequestSound(s', cfg, id)
  {
    assert s'.versions[Current(s)] == s.versions[Current(s)];
  }

  lemma InvStep(s: State, cfg: Config, e: Event)
    requires Inv(s, cfg) && Enabled(s, e)
    ensures Inv(Apply(s, cfg, e), cfg)
  {
    if e.Start? {
      if e.request.Get? { StartGetStep(s, cfg, e.id, e.request.key); } else { StoreStep(s, cfg, e.id, e.request); }
    } else if e.Tick? || e.Drop? {
      EnvironmentStep(s, cfg, e);
    } else {
      HandlerStep(s, cfg, e);
    }
  }

  lemma EnvironmentStep(s: State, cfg: Config, e: Event)
    requires Inv(s, cfg) && Enabled(s, e) && (e.Tick? || e.Drop?)
    ensures Inv(Apply(s, cfg, e), cfg)
  {
    TouchStep(s, cfg, 0, Apply(s, cfg, e));
  }

  lemma HandlerStep(s: State, cfg: Config, e: Event)
    requires Inv(s, cfg) && Enabled(s, e) && !e.Start? && !e.Tick? && !e.Drop?
    ensures Inv(Apply(s, cfg, e), cfg)
  {
    match e
    case ExecGet(id) => ExecGetStep(s, cfg, id);
    case ResumeGet(id) => ResumeGetStep(s, cfg, id);
    case ExecPromote(id) => ExecPromoteStep(s, cfg, id);
    case ExecSet(id, tier) => ExecSetStep(s, cfg, id, tier);
    case ExecDelete(id, tier) => ExecDeleteStep(s, cfg, id, tier);
    case ResumePromote(_) => AnswerStep(s, cfg, e);
    case ResumeSet(_) => AnswerStep(s, cfg, e);
    case ResumeDelete(_) => AnswerStep(s, cfg, e);
  }

  lemma {:induction false} InvAlways(s: State, cfg: Config, run: seq<Event>)
    requires Inv(s, cfg) && After(s, cfg, run).Some?
    ensures Inv(After(s, cfg, run).value, cfg)
    decreases |run|
  {
    if run != [] {
      InvStep(s, cfg, run[0]);
      InvAlways(Apply(s, cfg, run[0]), cfg, run[1..]);
    }
  }

  // ---------------------------------------------------------------- where staleness comes from

  ghost predicate Reachable(s: State, cfg: Config) {
    exists run :: After(INITIAL, cfg, run) == Some(s)
  }

  ghost predicate Stale(s: State, tier: Tier, key: string) {
    key in Cache(s, tier) && (key !in Store(s) || Store(s)[key] != Cache(s, tier)[key].value)
  }

  /** The entry's value was fetched before some write of the key and put into the tier after it. */
  ghost predicate RacedPast(s: State, tier: Tier, key: string) {
    && key in Cache(s, tier)
    && Cache(s, tier)[key].setVersion < |s.versions|
    && WrittenIn(s.versions, key, Cache(s, tier)[key].fetchedVersion, Cache(s, tier)[key].setVersion)
  }

  /** A write of the key has happened since and has not yet deleted it from this tier. */
  ghost predicate DeleteOutstanding(s: State, tier: Tier, key: string) {
    key in Cache(s, tier) && exists t :: Cache(s, tier)[key].setVersion < t && DeletePending(s, tier, key, t)
  }

  /** In every interleaving and in either tier, a cached value that differs from the store's, or whose
      product is gone, has one of two causes. */
  lemma StaleEntryHasCause(s: State, cfg: Config, tier: Tier, key: string)
    requires Reachable(s, cfg) && Stale(s, tier, key)
    ensures DeleteOutstanding(s, tier, key) || RacedPast(s, tier, key)
  {
    var run :| After(INITIAL, cfg, run) == Some(s);
    InvAlways(INITIAL, cfg, run);
    assert TierSound(s, tier);
    StaleCause(s, tier, key, Cache(s, tier)[key]);
  }

  lemma StaleCause(s: State, tier: Tier, key: string, e: Entry)
    requires Chain(s.versions) && Stale(s, tier, key) && e == Cache(s, tier)[key]
    requires EntrySound(s, key, e) && Covered(s, tier, key, e)
    ensures DeleteOutstanding(s, tier, key) || RacedPast(s, tier, key)
  {
    Overwritten(s.versions, key, e.value, e.fetchedVersion);
    var t :| e.fetchedVersion < t <= Current(s) && s.versions[t].key == key;
    if e.setVersion < t { assert DeletePending(s, tier, key, t); }
  }

  /** However requests interleave, each is answered as the store-only service would answer it at a version
      current between its arrival and its answer, a write at its arrival, its own version being the next;
      or it is a read served by an entry found in a tier since its arrival, unexpired there and with a
      value fetched from the store. */
  lemma RepliesWereTrue(s: State, cfg: Config, id: nat)
    requires Reachable(s, cfg) && id in s.tasks && s.tasks[id].Answered?
    ensures id in s.origins
    ensures var o, t := s.origins[id], s.tasks[id];
      && o.version <= t.ended < |s.versions|
      && if t.source.FromStore?
         then exists f: nat ::
           ServedAt(s.versions, o, t.reply, f) && f <= t.ended && (Saves(o, t.reply) ==> f < t.ended)
         else
           var g := t.source.sighting;
           && o.request == Get(g.key) && t.reply == Found(g.entry.value) && o.at <= g.at
           && Live(cfg, g.tier, g.entry, g.at)
           && HeldAt(s.versions, g.key, g.entry.value, g.entry.fetchedAt)
  {
    var run :| After(INITIAL, cfg, run) == Some(s);
    InvAlways(INITIAL, cfg, run);
    assert RequestSound(s, cfg, id);
    var t := s.tasks[id];
    if t.source.FromCache? { assert EntrySound(s, t.source.sighting.key, t.source.sighting.entry); }
  }

  // ---------------------------------------------------------------- what one step touches

  predicate Environment(e: Event) {
    e.Tick? || e.Drop?
  }

  /** A handler's step moves its own request only; the environment moves none. */
  lemma StepMoves(s: State, cfg: Config, e: Event)
    requires Enabled(s, e)
    ensures Environment(e) ==> Stays(s, Apply(s, cfg, e))
    ensures !Environment(e) ==> e.id in Apply(s, cfg, e).tasks
    ensures !Environment(e) ==> Apply(s, cfg, e).tasks == s.tasks[e.id := Apply(s, cfg, e).tasks[e.id]]
    ensures !e.Start? ==> Apply(s, cfg, e).origins == s.origins
  {
    if e.Start? { StartMoves(s, cfg, e.id, e.request); }
  }

  lemma StartMoves(s: State, cfg: Config, id: nat, request: Request)
    requires Enabled(s, Start(id, request))
    ensures var s' := Apply(s, cfg, Start(id, request)); id in s'.tasks && s'.tasks == s.tasks[id := s'.tasks[id]]
  {
  }

  /** An entry in a tier after a step was there before, or it is what a set or promotion puts there. */
  lemma StepTier(s: State, cfg: Config, e: Event, tier: Tier, k: string)
    requires Enabled(s, e) && k in Cache(Apply(s, cfg, e), tier)
    ensures var x := Cache(Apply(s, cfg, e), tier)[k];
      || (k in Cache(s, tier) && x == Cache(s, tier)[k])
      || (&& e == ExecSet(e.id, tier) && k == s.tasks[e.id].key && tier in s.tasks[e.id].waiting
          && var t := s.tasks[e.id];
             x == Entry(t.value, t.fetchedVersion, t.fetchedAt, Direct, Current(s), s.clock))
      || (&& e.ExecPromote? && tier == L1 && k == s.tasks[e.id].sighting.key
          && x == Copied(s, s.tasks[e.id].sighting))
  {
  }

  /** What can happen at any moment: time passes, an entry is lost, a request comes in, and every request
      that is not answered yet goes on, in any tier whose part of it is outstanding. */
  lemma NothingIsStuck(s: State, ticks: nat, tier: Tier, key: string, id: nat, request: Request)
    ensures Enabled(s, Tick(ticks))
    ensures key in Cache(s, tier) ==> Enabled(s, Drop(tier, key))
    ensures id !in s.tasks ==> Enabled(s, Start(id, request))
    ensures id in s.tasks && s.tasks[id].Setting? && tier in s.tasks[id].waiting ==> Enabled(s, ExecSet(id, tier))
    ensures id in s.tasks && s.tasks[id].Deleting? && tier in s.tasks[id].waiting ==> Enabled(s, ExecDelete(id, tier))
    ensures id in s.tasks && !s.tasks[id].Answered? ==> exists e :: Enabled(s, e) && !Environment(e) && e.id == id
  {
    if id in s.tasks {
      match s.tasks[id]
      case GetSent(_) => assert Enabled(s, ExecGet(id));
      case GetDone(_, _) => assert Enabled(s, ResumeGet(id));
      case Promoting(_) => assert Enabled(s, ExecPromote(id));
      case PromoteDone(_) => assert Enabled(s, ResumePromote(id));
      case Setting(_, _, _, _, waiting) =>
        if t :| t in waiting { assert Enabled(s, ExecSet(id, t)); } else { assert Enabled(s, ResumeSet(id)); }
      case Deleting(_, _, _, waiting) =>
        if t :| t in waiting { assert Enabled(s, ExecDelete(id, t)); } else { assert Enabled(s, ResumeDelete(id)); }
      case Answered(_, _, _) => {}
    }
  }

  function EntryAt(s: State, tier: Tier, k: string): Option<Entry> {
    if k in Cache(s, tier) then Some(Cache(s, tier)[k]) else None
  }

  /** Every step leaves both tiers alone but for one key: a set puts what its read had fetched into one tier,
      a promotion a copy of what was found in L2 into L1, a delete or a loss takes the entry out of one tier,
      and a read that misses in L1 takes an expired entry out of it. */
  lemma StepTouchesOneKey(s: State, cfg: Config, e: Event, tier: Tier, k: string)
    requires Enabled(s, e)
    ensures EntryAt(Apply(s, cfg, e), tier, k) ==
      if e == Drop(tier, k) || (e.ExecDelete? && e.tier == tier && s.tasks[e.id].key == k) then None
      else if e.ExecSet? && e.tier == tier && s.tasks[e.id].key == k
      then
        var t := s.tasks[e.id];
        Some(Entry(t.value, t.fetchedVersion, t.fetchedAt, Direct, |s.versions| - 1, s.clock))
      else if e.ExecPromote? && tier == L1 && s.tasks[e.id].sighting.key == k
      then
        var g := s.tasks[e.id].sighting;
        Some(Entry(g.entry.value, g.entry.fetchedVersion, g.entry.fetchedAt, Promoted(g.entry.setAt, g.at),
                   |s.versions| - 1, s.clock))
      else if e.Start? && e.request == Get(k) && tier == L1 && Lookup(s, cfg, L1, k).None? then None
      else EntryAt(s, tier, k)
  {
    if e.Start? { StartTouchesOneKey(s, cfg, e.id, e.request, tier, k); }
  }

  lemma StartTouchesOneKey(s: State, cfg: Config, id: nat, request: Request, tier: Tier, k: string)
    requires Enabled(s, Start(id, request))
    ensures EntryAt(Apply(s, cfg, Start(id, request)), tier, k) ==
      if request == Get(k) && tier == L1 && Lookup(s, cfg, L1, k).None? then None else EntryAt(s, tier, k)
  {
    if !request.Get? { StoreShape(s, cfg, id, request); }
  }

  /** Only a tick moves the clock, and only a write that is accepted on arrival adds a version, namely what
      the store-only service makes of the store. */
  lemma StepHistory(s: State, cfg: Config, e: Event)
    requires Enabled(s, e)
    ensures Apply(s, cfg, e).clock == s.clock + if e.Tick? then e.ticks else 0
    ensures Apply(s, cfg, e).versions == s.versions +
      if e.Start? && !e.request.Get? && Accepted(StoreOnly(Store(s), e.request).1)
      then [Version(KeyOf(e.request), s.clock, StoreOnly(Store(s), e.request).0)] else []
  {
    if e.Start? && !e.request.Get? { StoreShape(s, cfg, e.id, e.request); }
  }

  // ---------------------------------------------------------------- what the counters count

  /** The requests answered from a tier. */
  function Hits(s: State): set<nat> {
    set id | id in s.tasks && ServedByCache(s.tasks[id])
  }

  predicate ServedByCache(t: Task) {
    t.Answered? && t.source.FromCache?
  }

  /** The reads that went on to the store. */
  function Misses(s: State): set<nat> {
    set id | id in s.tasks && id in s.origins && WentToStore(s.origins[id].request, s.tasks[id])
  }

  predicate WentToStore(r: Request, t: Task) {
    t.Setting? || (r.Get? && t.Answered? && t.source.FromStore?)
  }

  ghost predicate Counted(s: State) {
    s.hits == |Hits(s)| && s.misses == |Misses(s)|
  }

  /** How the two counts move when one request does. */
  lemma MovedCount(s: State, id: nat, s': State)
    requires Moves(s, id, s') && id !in Hits(s)
    requires id in Misses(s) ==> WentToStore(s'.origins[id].request, s'.tasks[id])
    ensures |Hits(s')| == |Hits(s)| + if ServedByCache(s'.tasks[id]) then 1 else 0
    ensures |Misses(s')| == |Misses(s)| +
      if WentToStore(s'.origins[id].request, s'.tasks[id]) && id !in Misses(s) then 1 else 0
  {
    var hit, miss := ServedByCache(s'.tasks[id]), WentToStore(s'.origins[id].request, s'.tasks[id]);
    forall i
      ensures i in Hits(s') <==> i in Hits(s) || (hit && i == id)
      ensures i in Misses(s') <==> i in Misses(s) || (miss && i == id)
    {
      if i != id { assert i in s'.tasks <==> i in s.tasks; }
    }
    OneMore(Hits(s), Hits(s'), id, hit);
    OneMore(Misses(s), Misses(s'), id, miss);
  }

  lemma CountStart(s: State, cfg: Config, id: nat, request: Request)
    requires Enabled(s, Start(id, request)) && Counted(s)
    ensures Counted(Apply(s, cfg, Start(id, request)))
  {
    var s' := Apply(s, cfg, Start(id, request));
    if request.Get? {
      MovedCount(s, id, s');
    } else {
      StoreShape(s, cfg, id, request);
      MovedCount(s, id, s');
    }
  }

  lemma CountResume(s: State, cfg: Config, e: Event)
    requires Enabled(s, e) && Counted(s) && (e.ResumeGet? || e.ResumePromote?)
    requires e.id in s.origins && TaskSound(s, cfg, s.origins[e.id], s.tasks[e.id])
    ensures Counted(Apply(s, cfg, e))
  {
    StepMoves(s, cfg, e);
    MovedCount(s, e.id, Apply(s, cfg, e));
  }

  lemma CountOther(s: State, cfg: Config, e: Event)
    requires Enabled(s, e) && Counted(s) && !Environment(e) && !e.Start? && !e.ResumeGet? && !e.ResumePromote?
    requires e.id in s.origins && TaskSound(s, cfg, s.origins[e.id], s.tasks[e.id])
    ensures Counted(Apply(s, cfg, e))
  {
    StepMoves(s, cfg, e);
    MovedCount(s, e.id, Apply(s, cfg, e));
  }

  lemma CountStep(s: State, cfg: Config, e: Event)
    requires Inv(s, cfg) && Enabled(s, e) && Counted(s)
    ensures Counted(Apply(s, cfg, e))
  {
    var s' := Apply(s, cfg, e);
    if Environment(e) {
      assert Hits(s') == Hits(s) && Misses(s') == Misses(s);
    } else if e.Start? {
      CountStart(s, cfg, e.id, e.request);
    } else {
      assert RequestSound(s, cfg, e.id);
      if e.ResumeGet? || e.ResumePromote? { CountResume(s, cfg, e); } else { CountOther(s, cfg, e); }
    }
  }

  lemma {:induction false} CountAlways(s: State, cfg: Config, run: seq<Event>)
    requires Inv(s, cfg) && Counted(s) && After(s, cfg, run).Some?
    ensures Counted(After(s, cfg, run).value)
    decreases |run|
  {
    if run != [] {
      InvStep(s, cfg, run[0]);
      CountStep(s, cfg, run[0]);
      CountAlways(Apply(s, cfg, run[0]), cfg, run[1..]);
    }
  }

  /** However the requests interleave, `hits` is the number of requests answered from a tier and `misses`
      the number of reads that went on to the store. */
  lemma CountersCount(s: State, cfg: Config)
    requires Reachable(s, cfg)
    ensures s.hits == |Hits(s)| && s.misses == |Misses(s)|
  {
    var run :| After(INITIAL, cfg, run) == Some(s);
    assert Hits(INITIAL) == {} && Misses(INITIAL) == {};
    CountAlways(INITIAL, cfg, run);
  }

  // ---------------------------------------------------------------- how stale a read can be

  /** A set executes within `w` of the fetch it writes back, a promotion within `w` of the L2 read. */
  predicate Timely(s: State, w: nat, e: Event)
    requires Enabled(s, e)
  {
    match e
    case ExecSet(id, _) => s.clock <= s.tasks[id].fetchedAt + w
    case ExecPromote(id) => s.clock <= s.tasks[id].sighting.at + w
    case _ => true
  }

  predicate TimelyRun(s: State, cfg: Config, w: nat, run: seq<Event>)
    decreases |run|
  {
    run != [] && Enabled(s, run[0]) ==>
      Timely(s, w, run[0]) && TimelyRun(Apply(s, cfg, run[0]), cfg, w, run[1..])
  }

  ghost predicate TimelyReachable(s: State, cfg: Config, w: nat) {
    exists run :: After(INITIAL, cfg, run) == Some(s) && TimelyRun(INITIAL, cfg, w, run)
  }

  ghost predicate EntryTimely(cfg: Config, w: nat, e: Entry) {
    match e.via
    case Direct => e.setAt <= e.fetchedAt + w
    case Promoted(l2SetAt, readAt) =>
      && l2SetAt <= e.fetchedAt + w
      && (cfg.ttl == 0 || readAt < l2SetAt + cfg.ttl)
      && e.setAt <= readAt + w
  }

  /** What a read has found in a tier. */
  function InHand(t: Task): Option<Sighting> {
    match t
    case GetDone(_, raw) => raw
    case Promoting(g) => Some(g)
    case PromoteDone(g) => Some(g)
    case Answered(_, FromCache(g), _) => Some(g)
    case _ => None
  }

  ghost predicate TaskTimely(cfg: Config, w: nat, t: Task) {
    InHand(t).Some? ==> EntryTimely(cfg, w, InHand(t).value.entry)
  }

  ghost predicate AllTimely(s: State, cfg: Config, w: nat) {
    && (forall k :: k in s.l1 ==> EntryTimely(cfg, w, s.l1[k]))
    && (forall k :: k in s.l2 ==> EntryTimely(cfg, w, s.l2[k]))
    && (forall id :: id in s.tasks ==> TaskTimely(cfg, w, s.tasks[id]))
  }

  lemma TimelyEntries(s: State, cfg: Config, w: nat, e: Event, tier: Tier)
    requires Inv(s, cfg) && AllTimely(s, cfg, w) && Enabled(s, e) && Timely(s, w, e)
    ensures var m := Cache(Apply(s, cfg, e), tier); forall k :: k in m ==> EntryTimely(cfg, w, m[k])
  {
    var m := Cache(Apply(s, cfg, e), tier);
    forall k | k in m
      ensures EntryTimely(cfg, w, m[k])
    {
      StepTier(s, cfg, e, tier, k);
      if e.ExecPromote? { assert RequestSound(s, cfg, e.id) && TaskTimely(cfg, w, s.tasks[e.id]); }
    }
  }

  /** What a read has in hand it had before, or it has just found it in a tier, unexpired. */
  lemma InHandComesFrom(s: State, cfg: Config, e: Event, id: nat)
    requires Enabled(s, e) && id in Apply(s, cfg, e).tasks && InHand(Apply(s, cfg, e).tasks[id]).Some?
    ensures var g := InHand(Apply(s, cfg, e).tasks[id]).value;
      || (id in s.tasks && InHand(s.tasks[id]) == Some(g))
      || (g.key in Cache(s, g.tier) && Lookup(s, cfg, g.tier, g.key) == Some(g))
  {
    StepMoves(s, cfg, e);
    if !Environment(e) && id == e.id { InHandOf(s, cfg, e); }
  }

  lemma InHandOf(s: State, cfg: Config, e: Event)
    requires Enabled(s, e) && !Environment(e)
    requires e.id in Apply(s, cfg, e).tasks && InHand(Apply(s, cfg, e).tasks[e.id]).Some?
    ensures var g := InHand(Apply(s, cfg, e).tasks[e.id]).value;
      || (e.id in s.tasks && InHand(s.tasks[e.id]) == Some(g))
      || (g.key in Cache(s, g.tier) && Lookup(s, cfg, g.tier, g.key) == Some(g))
  {
    if e.Start? {
      InHandOfStart(s, cfg, e.id, e.request);
    } else if e.ExecGet? {
      assert InHand(Apply(s, cfg, e).tasks[e.id]) == Lookup(s, cfg, L2, s.tasks[e.id].key);
    } else {
      InHandIsKept(s, cfg, e);
    }
  }

  lemma InHandOfStart(s: State, cfg: Config, id: nat, request: Request)
    requires Enabled(s, Start(id, request)) && InHand(Apply(s, cfg, Start(id, request)).tasks[id]).Some?
    ensures var g := InHand(Apply(s, cfg, Start(id, request)).tasks[id]).value;
      g.tier == L1 && g.key in s.l1 && Lookup(s, cfg, L1, g.key) == Some(g)
  {
  }

  lemma InHandIsKept(s: State, cfg: Config, e: Event)
    requires Enabled(s, e) && !Environment(e) && !e.Start? && !e.ExecGet?
    requires e.id in Apply(s, cfg, e).tasks && InHand(Apply(s, cfg, e).tasks[e.id]).Some?
    ensures e.id in s.tasks && InHand(s.tasks[e.id]) == InHand(Apply(s, cfg, e).tasks[e.id])
  {
  }

  lemma TimelyTask(s: State, cfg: Config, w: nat, e: Event, id: nat)
    requires AllTimely(s, cfg, w) && Enabled(s, e) && id in Apply(s, cfg, e).tasks
    ensures TaskTimely(cfg, w, Apply(s, cfg, e).tasks[id])
  {
    if InHand(Apply(s, cfg, e).tasks[id]).Some? {
      InHandComesFrom(s, cfg, e, id);
      assert id in s.tasks ==> TaskTimely(cfg, w, s.tasks[id]);
    }
  }

  lemma {:induction false} TimelyStep(s: State, cfg: Config, w: nat, e: Event)
    requires Inv(s, cfg) && AllTimely(s, cfg, w) && Enabled(s, e) && Timely(s, w, e)
    ensures AllTimely(Apply(s, cfg, e), cfg, w)
  {
    var s' := Apply(s, cfg, e);
    TimelyEntries(s, cfg, w, e, L1);
    TimelyEntries(s, cfg, w, e, L2);
    assert s'.l1 == Cache(s', L1) && s'.l2 == Cache(s', L2);
    forall id | id in s'.tasks
      ensures TaskTimely(cfg, w, s'.tasks[id])
    {
      TimelyTask(s, cfg, w, e, id);
    }
  }

  lemma {:induction false} TimelyAlways(s: State, cfg: Config, w: nat, run: seq<Event>)
    requires Inv(s, cfg) && AllTimely(s, cfg, w)
    requires After(s, cfg, run).Some? && TimelyRun(s, cfg, w, run)
    ensures Inv(After(s, cfg, run).value, cfg) && AllTimely(After(s, cfg, run).value, cfg, w)
    decreases |run|
  {
    if run != [] {
      TimelyStep(s, cfg, w, run[0]);
      InvStep(s, cfg, run[0]);
      TimelyAlways(Apply(s, cfg, run[0]), cfg, w, run[1..]);
    }
  }

  /** How long ago the store may last have held what a read finds. */
  function StalenessBound(cfg: Config, w: nat, via: Via): nat {
    if via.Direct? then cfg.ttl + w else cfg.ttl + cfg.promote + 2 * w
  }

  /** Bounded staleness with two tiers. A copy written back by a read is at most ttl + w old when it
      is seen; a copy promoted from L2 gets a second lease, so the bound grows by promote + w. With ttl 0
      entries never expire in L2, and only direct L1 copies are bounded. */
  lemma BoundedStaleness(s: State, cfg: Config, w: nat, id: nat)
    requires TimelyReachable(s, cfg, w) && id in s.tasks && ServedByCache(s.tasks[id])
    ensures var g := s.tasks[id].source.sighting;
      && s.tasks[id].reply == Found(g.entry.value)
      && exists at: nat ::
        && HeldAt(s.versions, g.key, g.entry.value, at) && at <= g.at
        && (g.tier == L1 && g.entry.via.Direct? ==> g.at <= at + cfg.ttl + w)
        && (cfg.ttl > 0 && (g.entry.via.Promoted? || g.tier == L2) ==>
              g.at < at + StalenessBound(cfg, w, g.entry.via))
  {
    var run :| After(INITIAL, cfg, run) == Some(s) && TimelyRun(INITIAL, cfg, w, run);
    TimelyAlways(INITIAL, cfg, w, run);
    var g := s.tasks[id].source.sighting;
    assert RequestSound(s, cfg, id) && TaskTimely(cfg, w, s.tasks[id]);
    assert HeldAt(s.versions, g.key, g.entry.value, g.entry.fetchedAt);
  }

  // ---------------------------------------------------------------- when an invalidation sticks

  ghost predicate TierNotOlder(s: State, tier: Tier, key: string, v: nat) {
    key in Cache(s, tier) ==> v <= Cache(s, tier)[key].fetchedVersion
  }

  /** The version behind the value that a task may still put into a tier under the key. */
  function Carries(t: Task, key: string): Option<nat> {
    match t
    case GetDone(_, Some(g)) => if g.key == key then Some(g.entry.fetchedVersion) else None
    case Promoting(g) => if g.key == key then Some(g.entry.fetchedVersion) else None
    case Setting(k, _, version, _, waiting) => if k == key && waiting != {} then Some(version) else None
    case _ => None
  }

  ghost predicate TaskNotOlder(t: Task, key: string, v: nat) {
    Carries(t, key).Some? ==> v <= Carries(t, key).value
  }

  /** Nothing in flight for the key was fetched before version `v`. */
  ghost predicate TasksNotOlder(s: State, key: string, v: nat) {
    v < |s.versions| && forall id :: id in s.tasks ==> TaskNotOlder(s.tasks[id], key, v)
  }

  /** The slow tier and everything in flight are clear of what is older than `v`; L1 may not be. */
  ghost predicate BehindClear(s: State, key: string, v: nat) {
    TierNotOlder(s, L2, key, v) && TasksNotOlder(s, key, v)
  }

  ghost predicate NoneOlder(s: State, key: string, v: nat) {
    TierNotOlder(s, L1, key, v) && BehindClear(s, key, v)
  }

  lemma TaskStep(s: State, cfg: Config, e: Event, key: string, v: nat, id: nat)
    requires Enabled(s, e) && BehindClear(s, key, v) && id in Apply(s, cfg, e).tasks
    ensures TaskNotOlder(Apply(s, cfg, e).tasks[id], key, v)
  {
    StepMoves(s, cfg, e);
    if !Environment(e) && id == e.id { MovedTask(s, cfg, e, key, v); }
    else { assert TaskNotOlder(s.tasks[id], key, v); }
  }

  lemma MovedTask(s: State, cfg: Config, e: Event, key: string, v: nat)
    requires Enabled(s, e) && BehindClear(s, key, v) && !Environment(e) && e.id in Apply(s, cfg, e).tasks
    ensures TaskNotOlder(Apply(s, cfg, e).tasks[e.id], key, v)
  {
    if e.Start? {
      StartCarriesNothing(s, cfg, e.id, e.request, key);
    } else {
      assert TaskNotOlder(s.tasks[e.id], key, v);
      MovedOn(s, cfg, e, key, v);
    }
  }

  lemma StartCarriesNothing(s: State, cfg: Config, id: nat, request: Request, key: string)
    requires Enabled(s, Start(id, request))
    ensures Carries(Apply(s, cfg, Start(id, request)).tasks[id], key).None?
  {
  }

  lemma MovedOn(s: State, cfg: Config, e: Event, key: string, v: nat)
    requires Enabled(s, e) && !Environment(e) && !e.Start? && e.id in s.tasks
    requires TaskNotOlder(s.tasks[e.id], key, v) && TierNotOlder(s, L2, key, v) && v < |s.versions|
    ensures TaskNotOlder(Apply(s, cfg, e).tasks[e.id], key, v)
  {
  }

  /** L1 is only ever filled from behind, so what is clear behind it stays clear whatever L1 holds; and
      if L1 is clear too, it stays so. */
  lemma ClearStep(s: State, cfg: Config, e: Event, key: string, v: nat)
    requires Enabled(s, e) && BehindClear(s, key, v)
    ensures BehindClear(Apply(s, cfg, e), key, v)
    ensures TierNotOlder(s, L1, key, v) ==> TierNotOlder(Apply(s, cfg, e), L1, key, v)
  {
    var s' := Apply(s, cfg, e);
    HistoryGrows(s, cfg, e);
    forall id | id in s'.tasks
      ensures TaskNotOlder(s'.tasks[id], key, v)
    {
      TaskStep(s, cfg, e, key, v, id);
    }
    if TierNotOlder(s, L1, key, v) { TierStep(s, cfg, e, key, v, L1); }
    TierStep(s, cfg, e, key, v, L2);
  }

  lemma HistoryGrows(s: State, cfg: Config, e: Event)
    requires Enabled(s, e)
    ensures |s.versions| <= |Apply(s, cfg, e).versions|
  {
  }

  lemma TierStep(s: State, cfg: Config, e: Event, key: string, v: nat, tier: Tier)
    requires Enabled(s, e) && TasksNotOlder(s, key, v) && TierNotOlder(s, tier, key, v)
    ensures TierNotOlder(Apply(s, cfg, e), tier, key, v)
  {
    if key in Cache(Apply(s, cfg, e), tier) {
      StepTier(s, cfg, e, tier, key);
      if e.ExecSet? || e.ExecPromote? { assert TaskNotOlder(s.tasks[e.id], key, v); }
    }
  }

  lemma {:induction false} ClearAlways(s: State, cfg: Config, run: seq<Event>, key: string, v: nat)
    requires After(s, cfg, run).Some? && BehindClear(s, key, v)
    ensures BehindClear(After(s, cfg, run).value, key, v)
    ensures TierNotOlder(s, L1, key, v) ==> TierNotOlder(After(s, cfg, run).value, L1, key, v)
    decreases |run|
  {
    if run != [] {
      ClearStep(s, cfg, run[0], key, v);
      ClearAlways(Apply(s, cfg, run[0]), cfg, run[1..], key, v);
    }
  }

  /** Reads that started after `before` have found nothing older than `v`. */
  ghost predicate NewReadsFresh(s: State, before: set<nat>, key: string, v: nat) {
    forall id :: id in s.tasks && id !in before ==> FoundFresh(s.tasks[id], key, v)
  }

  ghost predicate FoundFresh(t: Task, key: string, v: nat) {
    InHand(t).Some? && InHand(t).value.key == key ==> v <= InHand(t).value.entry.fetchedVersion
  }

  /** Once nothing older than `v` is cached or in flight, no continuation of the run brings it back, and
      no read that starts later finds it. */
  lemma {:induction false} InvalidationSticks(
    s: State, cfg: Config, run: seq<Event>, before: set<nat>, key: string, v: nat)
    requires After(s, cfg, run).Some? && NoneOlder(s, key, v) && NewReadsFresh(s, before, key, v)
    ensures NoneOlder(After(s, cfg, run).value, key, v) && NewReadsFresh(After(s, cfg, run).value, before, key, v)
    decreases |run|
  {
    if run != [] {
      var s' := Apply(s, cfg, run[0]);
      ClearStep(s, cfg, run[0], key, v);
      forall id | id in s'.tasks && id !in before
        ensures FoundFresh(s'.tasks[id], key, v)
      {
        if InHand(s'.tasks[id]).Some? {
          InHandComesFrom(s, cfg, run[0], id);
          assert id in s.tasks ==> FoundFresh(s.tasks[id], key, v);
        }
      }
      InvalidationSticks(s', cfg, run[1..], before, key, v);
    }
  }

  function Other(tier: Tier): Tier {
    if tier == L1 then L2 else L1
  }

  /** A write's delete in one tier completes its invalidation exactly when the other tier and everything
      in flight hold nothing older than what was written. */
  lemma DeleteLeavesNoneOlder(s: State, cfg: Config, id: nat, tier: Tier)
    requires Reachable(s, cfg) && Enabled(s, ExecDelete(id, tier))
    ensures var key, v := s.tasks[id].key, s.tasks[id].base + 1;
      NoneOlder(Apply(s, cfg, ExecDelete(id, tier)), key, v) <==>
        TierNotOlder(s, Other(tier), key, v) && TasksNotOlder(s, key, v)
  {
    var run :| After(INITIAL, cfg, run) == Some(s);
    InvAlways(INITIAL, cfg, run);
    assert RequestSound(s, cfg, id);
    DeleteClears(s, cfg, id, tier, s.tasks[id].key, s.tasks[id].base + 1);
  }

  lemma DeleteClears(s: State, cfg: Config, id: nat, tier: Tier, key: string, v: nat)
    requires Enabled(s, ExecDelete(id, tier)) && key == s.tasks[id].key
    ensures var s' := Apply(s, cfg, ExecDelete(id, tier));
      && TierNotOlder(s', tier, key, v)
      && (TierNotOlder(s', Other(tier), key, v) <==> TierNotOlder(s, Other(tier), key, v))
      && (TasksNotOlder(s', key, v) <==> TasksNotOlder(s, key, v))
  {
    var s' := Apply(s, cfg, ExecDelete(id, tier));
    StepMoves(s, cfg, ExecDelete(id, tier));
    assert s'.tasks[id].Deleting?;
    assert forall i :: i in s.tasks ==> Carries(s'.tasks[i], key) == Carries(s.tasks[i], key);
  }

  lemma DeleteKeptStep(s: State, cfg: Config, e: Event, id: nat)
    requires Enabled(s, e) && id in s.tasks && (s.tasks[id].Deleting? || s.tasks[id].Answered?)
    ensures var t := Apply(s, cfg, e).tasks;
      && id in t && (t[id].Deleting? || t[id].Answered?)
      && (t[id].Deleting? ==> s.tasks[id].Deleting? && t[id].key == s.tasks[id].key && t[id].base == s.tasks[id].base)
  {
    StepMoves(s, cfg, e);
  }

  /** A delete in progress stays the same delete until it is answered. */
  lemma {:induction false} DeleteKept(s: State, cfg: Config, run: seq<Event>, id: nat)
    requires id in s.tasks && After(s, cfg, run).Some? && (s.tasks[id].Deleting? || s.tasks[id].Answered?)
    ensures var t := After(s, cfg, run).value.tasks;
      && id in t && (t[id].Deleting? || t[id].Answered?)
      && (t[id].Deleting? ==> s.tasks[id].Deleting? && t[id].key == s.tasks[id].key && t[id].base == s.tasks[id].base)
    decreases |run|
  {
    if run != [] {
      var s' := Apply(s, cfg, run[0]);
      StepMoves(s, cfg, run[0]);
      DeleteKeptStep(s, cfg, run[0], id);
      DeleteKept(s', cfg, run[1..], id);
    }
  }

  /** Deleting from the slow tier first is safe: if nothing older is in flight when L2 is cleared, then
      whatever happens before L1 is cleared too, the invalidation is complete. */
  lemma SlowTierFirstSticks(s: State, cfg: Config, id: nat, run: seq<Event>, s': State)
    requires Enabled(s, ExecDelete(id, L2)) && TasksNotOlder(s, s.tasks[id].key, s.tasks[id].base + 1)
    requires After(Apply(s, cfg, ExecDelete(id, L2)), cfg, run) == Some(s') && Enabled(s', ExecDelete(id, L1))
    ensures NoneOlder(Apply(s', cfg, ExecDelete(id, L1)), s.tasks[id].key, s.tasks[id].base + 1)
  {
    var key, v := s.tasks[id].key, s.tasks[id].base + 1;
    var cleared := Apply(s, cfg, ExecDelete(id, L2));
    DeleteClears(s, cfg, id, L2, key, v);
    ClearAlways(cleared, cfg, run, key, v);
    DeleteKept(cleared, cfg, run, id);
    DeleteClears(s', cfg, id, L1, key, v);
  }
}
