/** Look-aside caching of examples/12 as a step system.

    `ProductStore` coroutines never suspend, so a handler runs from one cache call to the next in
    one step; each cache call (get, set, delete) then executes at the server in a step of its own,
    and its coroutine resumes in another. Steps of different requests interleave freely, the cache
    may drop any entry at any time, and the clock may advance between any two steps. */
module LookAside {
  import opened Wrappers
  import opened StoreHistory

  datatype Product = Product(id: string, name: string, price: real, description: string)

  datatype Patch = Patch(name: Option<string>, price: Option<real>, description: Option<string>)

  /** The store's history; it always holds at least the start-up version. */
  type Versions = vs: seq<Version<string, Product>> | |vs| > 0 witness [Version("", 0, map[])]

  /** A cached product. Besides the value it records which store version the writing read had
      fetched and when, and which version was current, and what the clock read, when the entry was
      written. No step ever inspects these four except the expiry test on `setAt`. */
  datatype Entry = Entry(value: Product, fetchedVersion: nat, fetchedAt: nat, setVersion: nat, setAt: nat)

  datatype Request = Get(key: string) | Create(body: Product) | Update(key: string, patch: Patch)

  datatype Reply = Found(product: Product) | NotFound | Conflict

  /** When a request came in: the store version and the clock reading of that moment. */
  datatype Origin = Origin(request: Request, version: nat, at: nat)

  /** A cache get found the entry when the clock read `at`. */
  datatype Sighting = Sighting(key: string, entry: Entry, at: nat)

  /** What an answer rests on: a version of the store, or an entry found in the cache. */
  datatype Source = FromStore(version: nat) | FromCache(sighting: Sighting)

  /** Where a request stands. An update read version `base` and saved the one after it. `ended` is the
      version current when the request was answered. Like the origins, sources and ends are history
      that no step inspects. */
  datatype Task =
    | GetSent(key: string)
    | GetDone(key: string, raw: Option<Entry>, observedAt: nat)
    | SetSent(key: string, value: Product, fetchedVersion: nat, fetchedAt: nat)
    | SetDone(key: string, value: Product, fetchedVersion: nat)
    | DeleteSent(key: string, base: nat, updated: Product)
    | DeleteDone(key: string, base: nat, updated: Product)
    | Answered(reply: Reply, source: Source, ended: nat)

  datatype State = State(
    clock: nat,
    versions: Versions,
    cache: map<string, Entry>,
    tasks: map<nat, Task>,
    origins: map<nat, Origin>,
    invalidated: set<string>,
    hits: nat,
    misses: nat)

  datatype Event =
    | Tick(ticks: nat)
    | Drop(key: string)
    | Start(id: nat, request: Request)
    | ExecGet(id: nat)
    | ResumeGet(id: nat)
    | ExecSet(id: nat)
    | ResumeSet(id: nat)
    | ExecDelete(id: nat)
    | ResumeDelete(id: nat)

  const INITIAL := State(0, [Version("", 0, map[])], map[], map[], map[], {}, 0, 0)

  // ---------------------------------------------------------------- the handlers, step by step

  function Current(s: State): nat {
    |s.versions| - 1
  }

  function Store(s: State): map<string, Product> {
    s.versions[Current(s)].data
  }

  /** `ProductStore.save`: the product goes under its own id, and the history gains a version. */
  function Save(s: State, p: Product): Versions {
    s.versions + [Version(p.id, s.clock, Store(s)[p.id := p])]
  }

  /** The updated product: given fields are taken, the others stay. */
  function Patched(p: Product, patch: Patch): (r: Product)
    ensures r.id == p.id
    ensures (patch.name.Some? ==> r.name == patch.name.value) && (patch.name.None? ==> r.name == p.name)
    ensures (patch.price.Some? ==> r.price == patch.price.value) && (patch.price.None? ==> r.price == p.price)
    ensures patch.description.Some? ==> r.description == patch.description.value
    ensures patch.description.None? ==> r.description == p.description
  {
    Product(
      p.id,
      if patch.name.Some? then patch.name.value else p.name,
      if patch.price.Some? then patch.price.value else p.price,
      if patch.description.Some? then patch.description.value else p.description)
  }

  predicate Enabled(s: State, e: Event) {
    match e
    case Tick(_) => true
    case Drop(key) => key in s.cache
    case Start(id, _) => id !in s.tasks
    case ExecGet(id) => id in s.tasks && s.tasks[id].GetSent?
    case ResumeGet(id) => id in s.tasks && s.tasks[id].GetDone?
    case ExecSet(id) => id in s.tasks && s.tasks[id].SetSent?
    case ResumeSet(id) => id in s.tasks && s.tasks[id].SetDone?
    case ExecDelete(id) => id in s.tasks && s.tasks[id].DeleteSent?
    case ResumeDelete(id) => id in s.tasks && s.tasks[id].DeleteDone?
  }

  /** `TaggedStrategy.should_invalidate`, given the tags it is told the entry carries. */
  predicate ShouldInvalidate(tags: set<string>, invalidated: set<string>) {
    tags * invalidated != {}
  }

  /** What a get finds: an unexpired entry, or nothing. `RedisCache.get` consults the strategy with
      empty metadata, so it names no tags. */
  function Lookup(s: State, ttl: nat, key: string): Option<Entry> {
    if ShouldInvalidate({}, s.invalidated) then None
    else if key in s.cache && s.clock < s.cache[key].setAt + ttl then Some(s.cache[key])
    else None
  }

  /** Contrary to the layer's comments, invalidating a tag evicts nothing: no get depends on which tags
      are invalidated, and the delete alone removes the entry. */
  lemma TagInvalidationIsInert(s: State, ttl: nat, key: string, tags: set<string>)
    ensures Lookup(s.(invalidated := tags), ttl, key) == Lookup(s, ttl, key)
    ensures Lookup(s, ttl, key).None? <==> key !in s.cache || s.clock >= s.cache[key].setAt + ttl
  {
  }

  function Move(s: State, id: nat, t: Task): State {
    s.(tasks := s.tasks[id := t])
  }

  function Answer(s: State, id: nat, reply: Reply, source: Source): State {
    Move(s, id, Answered(reply, source, Current(s)))
  }

  function Apply(s: State, ttl: nat, e: Event): State
    requires Enabled(s, e)
  {
    match e
    case Tick(ticks) => s.(clock := s.clock + ticks)
    case Drop(key) => s.(cache := s.cache - {key})
    case Start(id, request) =>
      Begin(s.(origins := s.origins[id := Origin(request, Current(s), s.clock)]), id, request)
    case ExecGet(id) =>
      var key := s.tasks[id].key;
      Move(s, id, GetDone(key, Lookup(s, ttl, key), s.clock))
    case ResumeGet(id) => Resume(s, id, s.tasks[id])
    case ExecSet(id) =>
      var t := s.tasks[id];
      var entry := Entry(t.value, t.fetchedVersion, t.fetchedAt, Current(s), s.clock);
      Move(s.(cache := s.cache[t.key := entry]), id, SetDone(t.key, t.value, t.fetchedVersion))
    case ResumeSet(id) => Answer(s, id, Found(s.tasks[id].value), FromStore(s.tasks[id].fetchedVersion))
    case ExecDelete(id) =>
      var t := s.tasks[id];
      Move(s.(cache := s.cache - {t.key}), id, DeleteDone(t.key, t.base, t.updated))
    case ResumeDelete(id) => Answer(s, id, Found(s.tasks[id].updated), FromStore(s.tasks[id].base))
  }

  /** A handler up to its first cache call. */
  function Begin(s: State, id: nat, request: Request): State {
    match request
    case Get(key) => Move(s, id, GetSent(key))
    case Create(body) =>
      if body.id in Store(s) then Answer(s, id, Conflict, FromStore(Current(s)))
      else Answer(s.(versions := Save(s, body)), id, Found(body), FromStore(Current(s)))
    case Update(key, patch) =>
      if key !in Store(s) then Answer(s, id, NotFound, FromStore(Current(s)))
      else
        var updated := Patched(Store(s)[key], patch);
        Move(s.(versions := Save(s, updated), invalidated := s.invalidated + {key}), id,
             DeleteSent(key, Current(s), updated))
  }

  /** `get_product` after its cache get returned: count, and on a miss fetch and send the set. */
  function Resume(s: State, id: nat, t: Task): State
    requires t.GetDone?
  {
    if t.raw.Some? then
      Answer(s.(hits := s.hits + 1), id, Found(t.raw.value.value),
             FromCache(Sighting(t.key, t.raw.value, t.observedAt)))
    else if t.key !in Store(s) then
      Answer(s.(misses := s.misses + 1), id, NotFound, FromStore(Current(s)))
    else
      Move(s.(misses := s.misses + 1), id, SetSent(t.key, Store(s)[t.key], Current(s), s.clock))
  }

  /** The state a run of events leads to, if each of them can be taken in turn. */
  function After(s: State, ttl: nat, run: seq<Event>): Option<State>
    decreases |run|
  {
    if run == [] then Some(s)
    else if Enabled(s, run[0]) then After(Apply(s, ttl, run[0]), ttl, run[1..])
    else None
  }

  // ---------------------------------------------------------------- the service without a cache

  /** What a service that has only the store does with a request: the store afterwards and the reply. */
  function StoreOnly(data: map<string, Product>, r: Request): (map<string, Product>, Reply) {
    match r
    case Get(key) => (data, if key in data then Found(data[key]) else NotFound)
    case Create(body) => if body.id in data then (data, Conflict) else (data[body.id := body], Found(body))
    case Update(key, patch) =>
      if key !in data then (data, NotFound)
      else (data[key := Patched(data[key], patch)], Found(Patched(data[key], patch)))
  }

  /** The store-only service, taking the request at version `f`, would have given this reply. A write is
      taken at the version it found on arrival, and the next version is its own. */
  ghost predicate ServedAt(vs: Versions, o: Origin, reply: Reply, f: nat) {
    && o.version <= f < |vs|
    && reply == StoreOnly(vs[f].data, o.request).1
    && (!o.request.Get? ==> f == o.version)
    && (Saves(o, reply) ==> f + 1 < |vs| && vs[f + 1].data == StoreOnly(vs[f].data, o.request).0)
  }

  predicate Saves(o: Origin, reply: Reply) {
    !o.request.Get? && reply.Found?
  }

  // ---------------------------------------------------------------- what every step keeps

  ghost predicate EntrySound(s: State, key: string, e: Entry) {
    && Fetched(s.versions, key, e.value, e.fetchedVersion, e.fetchedAt)
    && e.fetchedVersion <= e.setVersion < |s.versions|
    && e.fetchedAt <= e.setAt <= s.clock
    && key in Store(s)
  }

  /** A read that came in at `o` found the entry in the cache when the clock read `at`. */
  ghost predicate HitSound(s: State, ttl: nat, o: Origin, e: Entry, at: nat) {
    && o.request.Get?
    && EntrySound(s, o.request.key, e)
    && e.setAt <= at < e.setAt + ttl
    && o.at <= at <= s.clock
  }

  ghost predicate TaskSound(s: State, ttl: nat, o: Origin, t: Task) {
    match t
    case GetSent(key) => o.request == Get(key)
    case GetDone(key, raw, at) => o.request == Get(key) && (raw.Some? ==> HitSound(s, ttl, o, raw.value, at))
    case SetSent(key, value, version, at) =>
      && o.request == Get(key) && o.version <= version
      && Fetched(s.versions, key, value, version, at) && at <= s.clock && key in Store(s)
    case SetDone(key, value, version) =>
      o.request == Get(key) && o.version <= version && StoredIn(s.versions, version, key, value)
    case DeleteSent(key, base, updated) =>
      UpdateSound(s, o, key, base, updated) && s.versions[base + 1].key == key
    case DeleteDone(key, base, updated) => UpdateSound(s, o, key, base, updated)
    case Answered(reply, FromStore(f), ended) =>
      ServedAt(s.versions, o, reply, f) && (if Saves(o, reply) then f + 1 else f) <= ended < |s.versions|
    case Answered(reply, FromCache(g), ended) =>
      && reply == Found(g.entry.value) && o.request == Get(g.key) && HitSound(s, ttl, o, g.entry, g.at)
      && o.version <= ended < |s.versions|
  }

  ghost predicate UpdateSound(s: State, o: Origin, key: string, base: nat, updated: Product) {
    && o.request.Update? && o.request.key == key
    && base + 1 < |s.versions|
    && ServedAt(s.versions, o, Found(updated), base)
  }

  ghost predicate RequestSound(s: State, ttl: nat, id: nat)
    requires id in s.tasks
  {
    && id in s.origins
    && s.origins[id].version < |s.versions|
    && s.origins[id].at <= s.clock
    && TaskSound(s, ttl, s.origins[id], s.tasks[id])
  }

  /** Some update has saved version `version` of `key` and its cache delete has not executed yet. */
  ghost predicate DeletePending(s: State, key: string, version: nat) {
    exists id :: id in s.tasks && IsPending(s.tasks[id], key, version)
  }

  ghost predicate IsPending(t: Task, key: string, version: nat) {
    t.DeleteSent? && t.key == key && t.base + 1 == version
  }

  /** Every write to the key that came after the entry was set still has its delete outstanding. */
  ghost predicate Covered(s: State, key: string, e: Entry) {
    forall t :: e.setVersion < t < |s.versions| && s.versions[t].key == key ==> DeletePending(s, key, t)
  }

  ghost predicate WellKeyed(s: State) {
    forall k :: k in Store(s) ==> Store(s)[k].id == k
  }

  ghost predicate Inv(s: State, ttl: nat) {
    && Chain(s.versions)
    && s.versions[Current(s)].since <= s.clock
    && WellKeyed(s)
    && (forall k :: k in s.cache ==> EntrySound(s, k, s.cache[k]) && Covered(s, k, s.cache[k]))
    && (forall id :: id in s.tasks ==> RequestSound(s, ttl, id))
  }

  /** A step that writes nothing to the store: what it must respect to keep the invariant. */
  lemma QuietStep(s: State, ttl: nat, s': State)
    requires Inv(s, ttl)
    requires s'.versions == s.versions && s.clock <= s'.clock
    requires forall k :: k in s'.cache ==>
      || (k in s.cache && s'.cache[k] == s.cache[k])
      || (EntrySound(s', k, s'.cache[k]) && s'.cache[k].setVersion == Current(s))
    requires forall id :: id in s.tasks && s.tasks[id].DeleteSent? ==>
      (id in s'.tasks && s'.tasks[id] == s.tasks[id]) || s.tasks[id].key !in s'.cache
    requires forall id :: id in s'.tasks ==>
      || (&& id in s.tasks && s'.tasks[id] == s.tasks[id]
          && id in s.origins && id in s'.origins && s'.origins[id] == s.origins[id])
      || RequestSound(s', ttl, id)
    ensures Inv(s', ttl)
  {
    assert Store(s') == Store(s);
    forall k | k in s'.cache
      ensures EntrySound(s', k, s'.cache[k]) && Covered(s', k, s'.cache[k])
    {
      if k in s.cache && s'.cache[k] == s.cache[k] { EntryStaysSound(s, s', k); }
    }
    forall id | id in s'.tasks
      ensures RequestSound(s', ttl, id)
    {
      if id in s.tasks && s'.tasks[id] == s.tasks[id] && id in s.origins && s'.origins[id] == s.origins[id] {
        assert RequestSound(s, ttl, id);
        RequestStaysSound(s, ttl, s', id);
      }
    }
  }

  lemma EntryStaysSound(s: State, s': State, k: string)
    requires s'.versions == s.versions && s.clock <= s'.clock && k in s'.cache
    requires k in s.cache && EntrySound(s, k, s.cache[k]) && Covered(s, k, s.cache[k])
    requires forall id :: id in s.tasks && s.tasks[id].DeleteSent? ==>
      (id in s'.tasks && s'.tasks[id] == s.tasks[id]) || s.tasks[id].key !in s'.cache
    ensures EntrySound(s', k, s.cache[k]) && Covered(s', k, s.cache[k])
  {
    forall t | s.cache[k].setVersion < t < |s'.versions| && s'.versions[t].key == k
      ensures DeletePending(s', k, t)
    {
      assert DeletePending(s, k, t);
      var id :| id in s.tasks && IsPending(s.tasks[id], k, t);
      assert s'.tasks[id] == s.tasks[id];
    }
  }

  lemma RequestStaysSound(s: State, ttl: nat, s': State, id: nat)
    requires id in s.tasks && RequestSound(s, ttl, id) && s'.versions == s.versions && s.clock <= s'.clock
    requires id in s'.tasks && s'.tasks[id] == s.tasks[id] && id in s'.origins && s'.origins[id] == s.origins[id]
    ensures RequestSound(s', ttl, id)
  {
  }

  /** A step that only moves one task on, or starts one, no delete of it being outstanding. */
  lemma MoveStep(s: State, ttl: nat, id: nat, o: Origin, t: Task, s': State)
    requires Inv(s, ttl)
    requires id in s.tasks ==> id in s.origins && o == s.origins[id] && !s.tasks[id].DeleteSent?
    requires TaskSound(s, ttl, o, t) && o.version < |s.versions| && o.at <= s.clock
    requires s'.versions == s.versions && s'.clock == s.clock && s'.cache == s.cache
    requires s'.origins == s.origins[id := o] && s'.tasks == s.tasks[id := t]
    ensures Inv(s', ttl)
  {
    assert RequestSound(s', ttl, id) by { assert TaskSound(s', ttl, o, t); }
    assert forall i :: i in s.tasks ==> RequestSound(s, ttl, i);
    QuietStep(s, ttl, s');
  }

  /** What is known of a request survives a save. */
  lemma RequestAfterSave(s: State, ttl: nat, s': State, p: Product, id: nat)
    requires s'.versions == Save(s, p) && s'.clock == s.clock && s.versions[Current(s)].since <= s.clock
    requires id in s.tasks && RequestSound(s, ttl, id)
    requires id in s'.tasks && s'.tasks[id] == s.tasks[id] && id in s'.origins && s'.origins[id] == s.origins[id]
    ensures RequestSound(s', ttl, id)
  {
  }

  /** Entries stay covered by a save that leaves a pending delete wherever an entry exists. */
  lemma EntryAfterSave(s: State, s': State, p: Product, id: nat, k: string)
    requires s'.versions == Save(s, p) && s'.clock == s.clock && s.versions[Current(s)].since <= s.clock
    requires k in s.cache && EntrySound(s, k, s.cache[k]) && Covered(s, k, s.cache[k])
    requires id !in s.tasks && id in s'.tasks && s'.tasks == s.tasks[id := s'.tasks[id]]
    requires k == p.id ==> IsPending(s'.tasks[id], k, |s.versions|)
    ensures EntrySound(s', k, s.cache[k]) && Covered(s', k, s.cache[k])
  {
    forall v | s.cache[k].setVersion < v < |s'.versions| && s'.versions[v].key == k
      ensures DeletePending(s', k, v)
    {
      if v < |s.versions| {
        assert DeletePending(s, k, v);
        var i :| i in s.tasks && IsPending(s.tasks[i], k, v);
        assert s'.tasks[i] == s.tasks[i];
      } else {
        assert IsPending(s'.tasks[id], k, v);
      }
    }
  }

  /** A request that saves `p` on arrival. */
  lemma SaveStep(s: State, ttl: nat, p: Product, id: nat, o: Origin, t: Task, s': State)
    requires Inv(s, ttl) && id !in s.tasks
    requires o.version == Current(s) && o.at == s.clock
    requires s'.versions == Save(s, p) && s'.clock == s.clock && s'.cache == s.cache
    requires s'.origins == s.origins[id := o] && s'.tasks == s.tasks[id := t]
    requires TaskSound(s', ttl, o, t)
    requires p.id in s.cache ==> IsPending(t, p.id, |s.versions|)
    ensures Inv(s', ttl)
  {
    Extend(s.versions, s'.versions[|s.versions|]);
    forall k | k in s'.cache
      ensures EntrySound(s', k, s'.cache[k]) && Covered(s', k, s'.cache[k])
    {
      EntryAfterSave(s, s', p, id, k);
    }
    forall i | i in s'.tasks
      ensures RequestSound(s', ttl, i)
    {
      if i != id {
        assert RequestSound(s, ttl, i);
        RequestAfterSave(s, ttl, s', p, i);
      }
    }
  }

  /** The product a request saves on arrival. */
  function ToSave(data: map<string, Product>, r: Request): Option<Product> {
    match r
    case Get(_) => None
    case Create(body) => if body.id in data then None else Some(body)
    case Update(key, patch) => if key in data then Some(Patched(data[key], patch)) else None
  }

  lemma StartStep(s: State, ttl: nat, id: nat, request: Request)
    requires Inv(s, ttl) && Enabled(s, Start(id, request))
    ensures Inv(Apply(s, ttl, Start(id, request)), ttl)
  {
    var o := Origin(request, Current(s), s.clock);
    var s' := Apply(s, ttl, Start(id, request));
    var saved := ToSave(Store(s), request);
    if saved.None? {
      MoveStep(s, ttl, id, o, s'.tasks[id], s');
    } else {
      SaveTask(s, ttl, id, request);
      SaveStep(s, ttl, saved.value, id, o, s'.tasks[id], s');
    }
  }

  lemma SaveTask(s: State, ttl: nat, id: nat, request: Request)
    requires Inv(s, ttl) && Enabled(s, Start(id, request)) && ToSave(Store(s), request).Some?
    ensures var s' := Apply(s, ttl, Start(id, request));
      var p := ToSave(Store(s), request).value;
      && s'.versions == Save(s, p)
      && TaskSound(s', ttl, Origin(request, Current(s), s.clock), s'.tasks[id])
      && (p.id in s.cache ==> IsPending(s'.tasks[id], p.id, |s.versions|))
  {
    var p := ToSave(Store(s), request).value;
    var vs := Save(s, p);
    assert vs[|s.versions|] == Version(p.id, s.clock, Store(s)[p.id := p]) && vs[Current(s)] == s.versions[Current(s)];
    if request.Update? { assert p.id == request.key; }
    else { assert p.id in s.cache ==> EntrySound(s, p.id, s.cache[p.id]); }
  }

  lemma InvStep(s: State, ttl: nat, e: Event)
    requires Inv(s, ttl) && Enabled(s, e)
    ensures Inv(Apply(s, ttl, e), ttl)
  {
    match e
    case Start(id, request) => StartStep(s, ttl, id, request);
    case ExecGet(id) => ReadStep(s, ttl, e, id);
    case ResumeGet(id) => ReadStep(s, ttl, e, id);
    case ResumeSet(id) => ReadStep(s, ttl, e, id);
    case ResumeDelete(id) => ReadStep(s, ttl, e, id);
    case ExecSet(id) => ExecSetStep(s, ttl, id);
    case ExecDelete(id) => ExecDeleteStep(s, ttl, id);
    case Tick(_) => QuietFrame(s, ttl, e);
    case Drop(_) => QuietFrame(s, ttl, e);
  }

  lemma QuietFrame(s: State, ttl: nat, e: Event)
    requires Inv(s, ttl) && Enabled(s, e) && (e.Tick? || e.Drop?)
    ensures Inv(Apply(s, ttl, e), ttl)
  {
    assert forall i :: i in s.tasks ==> RequestSound(s, ttl, i);
    QuietStep(s, ttl, Apply(s, ttl, e));
  }

  /** The steps that touch neither store nor cache and move one task. */
  lemma ReadStep(s: State, ttl: nat, e: Event, id: nat)
    requires Inv(s, ttl) && Enabled(s, e)
    requires e == ExecGet(id) || e == ResumeGet(id) || e == ResumeSet(id) || e == ResumeDelete(id)
    ensures Inv(Apply(s, ttl, e), ttl)
  {
    var s' := Apply(s, ttl, e);
    assert RequestSound(s, ttl, id);
    assert s'.origins == s.origins[id := s.origins[id]];
    ReadTask(s, ttl, e, id);
    MoveStep(s, ttl, id, s.origins[id], s'.tasks[id], s');
  }

  lemma ReadTask(s: State, ttl: nat, e: Event, id: nat)
    requires Inv(s, ttl) && Enabled(s, e)
    requires e == ExecGet(id) || e == ResumeGet(id) || e == ResumeSet(id) || e == ResumeDelete(id)
    ensures id in s.origins && TaskSound(s, ttl, s.origins[id], Apply(s, ttl, e).tasks[id])
  {
    assert RequestSound(s, ttl, id);
    if e.ExecGet? && s.tasks[id].key in s.cache { assert EntrySound(s, s.tasks[id].key, s.cache[s.tasks[id].key]); }
  }

  lemma ExecDeleteStep(s: State, ttl: nat, id: nat)
    requires Inv(s, ttl) && Enabled(s, ExecDelete(id))
    ensures Inv(Apply(s, ttl, ExecDelete(id)), ttl)
  {
    var s' := Apply(s, ttl, ExecDelete(id));
    assert forall i :: i in s.tasks ==> RequestSound(s, ttl, i);
    assert RequestSound(s', ttl, id);
    QuietStep(s, ttl, s');
  }

  lemma ExecSetStep(s: State, ttl: nat, id: nat)
    requires Inv(s, ttl) && Enabled(s, ExecSet(id))
    ensures Inv(Apply(s, ttl, ExecSet(id)), ttl)
  {
    var s' := Apply(s, ttl, ExecSet(id));
    assert forall i :: i in s.tasks ==> RequestSound(s, ttl, i);
    assert RequestSound(s, ttl, id) && RequestSound(s', ttl, id);
    assert EntrySound(s', s.tasks[id].key, s'.cache[s.tasks[id].key]);
    QuietStep(s, ttl, s');
  }

  lemma {:induction false} InvAlways(s: State, ttl: nat, run: seq<Event>)
    requires Inv(s, ttl) && After(s, ttl, run).Some?
    ensures Inv(After(s, ttl, run).value, ttl)
    decreases |run|
  {
    if run != [] {
      InvStep(s, ttl, run[0]);
      InvAlways(Apply(s, ttl, run[0]), ttl, run[1..]);
    }
  }

  /** Some run from the cold start leads to `s`. */
  ghost predicate Reachable(s: State, ttl: nat) {
    exists run :: After(INITIAL, ttl, run) == Some(s)
  }

  lemma ReachableInv(s: State, ttl: nat)
    requires Reachable(s, ttl)
    ensures Inv(s, ttl)
  {
    var run :| After(INITIAL, ttl, run) == Some(s);
    InvAlways(INITIAL, ttl, run);
  }

  // ---------------------------------------------------------------- what one step touches

  function EntryAt(s: State, k: string): Option<Entry> {
    if k in s.cache then Some(s.cache[k]) else None
  }

  /** What can happen at any moment: time passes, an entry is lost, a request comes in, and every request
      that is not answered yet goes on. */
  lemma NothingIsStuck(s: State, ticks: nat, key: string, id: nat, request: Request)
    ensures Enabled(s, Tick(ticks))
    ensures key in s.cache ==> Enabled(s, Drop(key))
    ensures id !in s.tasks ==> Enabled(s, Start(id, request))
    ensures id in s.tasks && !s.tasks[id].Answered? ==>
      exists e :: Enabled(s, e) && !e.Tick? && !e.Drop? && e.id == id
  {
    if id in s.tasks {
      match s.tasks[id]
      case GetSent(_) => assert Enabled(s, ExecGet(id));
      case GetDone(_, _, _) => assert Enabled(s, ResumeGet(id));
      case SetSent(_, _, _, _) => assert Enabled(s, ExecSet(id));
      case SetDone(_, _, _) => assert Enabled(s, ResumeSet(id));
      case DeleteSent(_, _, _) => assert Enabled(s, ExecDelete(id));
      case DeleteDone(_, _, _) => assert Enabled(s, ResumeDelete(id));
      case Answered(_, _, _) => {}
    }
  }

  /** Every step leaves the cache alone but for one key: a set puts what its read had fetched there, a
      delete or a loss takes the entry away. */
  lemma StepTouchesOneKey(s: State, ttl: nat, e: Event, k: string)
    requires Enabled(s, e)
    ensures EntryAt(Apply(s, ttl, e), k) ==
      if e == Drop(k) || (e.ExecDelete? && s.tasks[e.id].key == k) then None
      else if e.ExecSet? && s.tasks[e.id].key == k
      then var t := s.tasks[e.id]; Some(Entry(t.value, t.fetchedVersion, t.fetchedAt, |s.versions| - 1, s.clock))
      else EntryAt(s, k)
  {
  }

  /** Only a tick moves the clock, and only a request that saves on arrival adds a version. */
  lemma StepHistory(s: State, ttl: nat, e: Event)
    requires Enabled(s, e)
    ensures Apply(s, ttl, e).clock == s.clock + if e.Tick? then e.ticks else 0
    ensures !e.Start? || ToSave(Store(s), e.request).None? ==> Apply(s, ttl, e).versions == s.versions
    ensures e.Start? && ToSave(Store(s), e.request).Some? ==>
      var p := ToSave(Store(s), e.request).value;
      Apply(s, ttl, e).versions == s.versions + [Version(p.id, s.clock, Store(s)[p.id := p])]
  {
  }

  /** No step touches another's request. */
  lemma StepTouchesOneRequest(s: State, ttl: nat, e: Event, id: nat)
    requires Enabled(s, e) && id in s.tasks && (e.Tick? || e.Drop? || e.id != id)
    ensures id in Apply(s, ttl, e).tasks && Apply(s, ttl, e).tasks[id] == s.tasks[id]
    ensures id in s.origins ==> id in Apply(s, ttl, e).origins && Apply(s, ttl, e).origins[id] == s.origins[id]
  {
    if e.Start? { StartTouchesOneRequest(s, ttl, e.id, e.request, id); }
  }

  lemma StartTouchesOneRequest(s: State, ttl: nat, started: nat, request: Request, id: nat)
    requires Enabled(s, Start(started, request)) && id in s.tasks
    ensures var s' := Apply(s, ttl, Start(started, request));
      && id in s'.tasks && s'.tasks[id] == s.tasks[id]
      && (id in s.origins ==> id in s'.origins && s'.origins[id] == s.origins[id])
  {
  }

  // ---------------------------------------------------------------- where staleness comes from

  ghost predicate Stale(s: State, key: string) {
    key in s.cache && (key !in Store(s) || Store(s)[key] != s.cache[key].value)
  }

  /** The read that wrote the entry fetched before some save of the key and wrote after it. */
  ghost predicate RacedPast(s: State, key: string) {
    && key in s.cache
    && s.cache[key].setVersion < |s.versions|
    && WrittenIn(s.versions, key, s.cache[key].fetchedVersion, s.cache[key].setVersion)
  }

  /** An update of the key has saved since the entry was written and not yet deleted it. */
  ghost predicate DeleteOutstanding(s: State, key: string) {
    key in s.cache && exists t :: s.cache[key].setVersion < t && DeletePending(s, key, t)
  }

  /** In every interleaving, a cached value that differs from the store's has one of two causes. */
  lemma StaleEntryHasCause(s: State, ttl: nat, key: string)
    requires Reachable(s, ttl) && Stale(s, key)
    ensures DeleteOutstanding(s, key) || RacedPast(s, key)
  {
    ReachableInv(s, ttl);
    var e := s.cache[key];
    var last := |s.versions| - 1;
    assert EntrySound(s, key, e) && Covered(s, key, e);
    Overwritten(s.versions, key, e.value, e.fetchedVersion);
    var t :| e.fetchedVersion < t <= last && s.versions[t].key == key;
    if e.setVersion < t { assert DeletePending(s, key, t); }
  }

  /** No cached value was ever absent from the store's history. */
  lemma CachedValuesWereStored(s: State, ttl: nat, key: string)
    requires Reachable(s, ttl) && key in s.cache
    ensures exists at: nat :: at <= s.clock && HeldAt(s.versions, key, s.cache[key].value, at)
  {
    ReachableInv(s, ttl);
    assert EntrySound(s, key, s.cache[key]);
    assert HeldAt(s.versions, key, s.cache[key].value, s.cache[key].fetchedAt);
  }

  /** However requests interleave, each is answered as the store-only service would answer it at a version
      current between its arrival and its answer, a write at its arrival, its own version being the next;
      or it is a read served by a cache entry found since its arrival, with a value fetched from the store
      and written less than `ttl` before. */
  lemma RepliesWereTrue(s: State, ttl: nat, id: nat)
    requires Reachable(s, ttl) && id in s.tasks && s.tasks[id].Answered?
    ensures id in s.origins
    ensures var o, t := s.origins[id], s.tasks[id];
      && o.version <= t.ended < |s.versions|
      && if t.source.FromStore?
         then exists f: nat ::
           ServedAt(s.versions, o, t.reply, f) && f <= t.ended && (Saves(o, t.reply) ==> f < t.ended)
         else
           var g := t.source.sighting;
           && o.request == Get(g.key) && t.reply == Found(g.entry.value) && o.at <= g.at
           && g.entry.setAt <= g.at < g.entry.setAt + ttl
           && HeldAt(s.versions, g.key, g.entry.value, g.entry.fetchedAt)
  {
    ReachableInv(s, ttl);
    assert RequestSound(s, ttl, id);
    var t := s.tasks[id];
    if t.source.FromCache? { assert EntrySound(s, t.source.sighting.key, t.source.sighting.entry); }
  }

  /** What an answered write was answered and did, in the products' own terms. An update takes the fields
      that are given and keeps the others as they were on its arrival; it or a create of a new product makes
      the next version, which differs in that product only. A refused write is refused for what the store
      held on its arrival. */
  lemma WritesWereDone(s: State, ttl: nat, id: nat)
    requires Reachable(s, ttl) && id in s.tasks && s.tasks[id].Answered?
    ensures id in s.origins && s.origins[id].version < |s.versions|
    ensures var o, reply := s.origins[id], s.tasks[id].reply;
      var before := s.versions[o.version].data;
      match o.request
      case Get(_) => true
      case Create(body) =>
        if body.id in before then reply == Conflict
        else reply == Found(body) && NextHolds(s.versions, o.version, body.id, body)
      case Update(key, patch) =>
        if key !in before then reply == NotFound
        else reply.Found? && IsUpdateOf(reply.product, before[key], patch)
             && NextHolds(s.versions, o.version, key, reply.product)
  {
    RepliesWereTrue(s, ttl, id);
  }

  ghost predicate IsUpdateOf(p: Product, was: Product, patch: Patch) {
    && p.id == was.id
    && p.name == (if patch.name.Some? then patch.name.value else was.name)
    && p.price == (if patch.price.Some? then patch.price.value else was.price)
    && p.description == (if patch.description.Some? then patch.description.value else was.description)
  }

  /** The version after `f` holds the product under the key and is otherwise the same. */
  ghost predicate NextHolds(vs: Versions, f: nat, key: string, p: Product) {
    f + 1 < |vs| && vs[f + 1].data == vs[f].data[key := p]
  }

  /** The requests answered from the cache. */
  function Hits(s: State): set<nat> {
    set id | id in s.tasks && ServedByCache(s.tasks[id])
  }

  predicate ServedByCache(t: Task) {
    t.Answered? && t.source.FromCache?
  }

  /** The reads that went on to the store. */
  function Misses(s: State): set<nat> {
    set id | id in s.tasks && id in s.origins && WentToStore(s.origins[id].request, s.tasks[id])
  }

  predicate WentToStore(r: Request, t: Task) {
    t.SetSent? || t.SetDone? || (r.Get? && t.Answered? && t.source.FromStore?)
  }

  ghost predicate Counted(s: State) {
    s.hits == |Hits(s)| && s.misses == |Misses(s)|
  }

  /** How the two counts move when one task does. */
  lemma MovedCount(s: State, s': State, id: nat)
    requires id in s'.tasks && s'.tasks == s.tasks[id := s'.tasks[id]]
    requires id in s'.origins && s'.origins == s.origins[id := s'.origins[id]]
    requires id !in Hits(s)
    requires id in Misses(s) ==> WentToStore(s'.origins[id].request, s'.tasks[id])
    ensures |Hits(s')| == |Hits(s)| + if ServedByCache(s'.tasks[id]) then 1 else 0
    ensures |Misses(s')| == |Misses(s)| +
      if WentToStore(s'.origins[id].request, s'.tasks[id]) && id !in Misses(s) then 1 else 0
  {
    var hit, miss := ServedByCache(s'.tasks[id]), WentToStore(s'.origins[id].request, s'.tasks[id]);
    forall i
      ensures i in Hits(s') <==> i in Hits(s) || (hit && i == id)
      ensures i in Misses(s') <==> i in Misses(s) || (miss && i == id)
    {
      if i != id { assert i in s'.tasks <==> i in s.tasks; }
    }
    OneMore(Hits(s), Hits(s'), id, hit);
    OneMore(Misses(s), Misses(s'), id, miss);
  }

  lemma CountResume(s: State, ttl: nat, id: nat)
    requires Inv(s, ttl) && Enabled(s, ResumeGet(id)) && Counted(s)
    ensures Counted(Apply(s, ttl, ResumeGet(id)))
  {
    assert RequestSound(s, ttl, id);
    MovedCount(s, Apply(s, ttl, ResumeGet(id)), id);
  }

  lemma CountStart(s: State, ttl: nat, id: nat, request: Request)
    requires Enabled(s, Start(id, request)) && Counted(s)
    ensures Counted(Apply(s, ttl, Start(id, request)))
  {
    MovedCount(s, Apply(s, ttl, Start(id, request)), id);
  }

  lemma CountStep(s: State, ttl: nat, e: Event)
    requires Inv(s, ttl) && Enabled(s, e) && Counted(s)
    ensures Counted(Apply(s, ttl, e))
  {
    var s' := Apply(s, ttl, e);
    match e
    case Tick(_) => assert Hits(s') == Hits(s) && Misses(s') == Misses(s);
    case Drop(_) => assert Hits(s') == Hits(s) && Misses(s') == Misses(s);
    case Start(id, request) => CountStart(s, ttl, id, request);
    case ResumeGet(id) => CountResume(s, ttl, id);
    case _ =>
      assert RequestSound(s, ttl, e.id);
      CountOther(s, ttl, e);
  }

  lemma CountOther(s: State, ttl: nat, e: Event)
    requires Enabled(s, e) && Counted(s) && !e.Tick? && !e.Drop? && !e.Start? && !e.ResumeGet?
    requires e.id in s.origins && TaskSound(s, ttl, s.origins[e.id], s.tasks[e.id])
    ensures Counted(Apply(s, ttl, e))
  {
    MovedCount(s, Apply(s, ttl, e), e.id);
  }

  lemma {:induction false} CountAlways(s: State, ttl: nat, run: seq<Event>)
    requires Inv(s, ttl) && Counted(s) && After(s, ttl, run).Some?
    ensures Counted(After(s, ttl, run).value)
    decreases |run|
  {
    if run != [] {
      InvStep(s, ttl, run[0]);
      CountStep(s, ttl, run[0]);
      CountAlways(Apply(s, ttl, run[0]), ttl, run[1..]);
    }
  }

  /** However the requests interleave, `hits` is the number of requests answered from the cache and
      `misses` the number of reads that went on to the store. */
  lemma CountersCount(s: State, ttl: nat)
    requires Reachable(s, ttl)
    ensures s.hits == |Hits(s)| && s.misses == |Misses(s)|
  {
    var run :| After(INITIAL, ttl, run) == Some(s);
    assert Hits(INITIAL) == {} && Misses(INITIAL) == {};
    CountAlways(INITIAL, ttl, run);
  }

  // ---------------------------------------------------------------- how stale a read can be

  /** A set executes within `w` of the fetch it writes back. */
  predicate Timely(s: State, w: nat, e: Event)
    requires Enabled(s, e)
  {
    e.ExecSet? ==> s.clock <= s.tasks[e.id].fetchedAt + w
  }

  predicate TimelyRun(s: State, ttl: nat, w: nat, run: seq<Event>)
    decreases |run|
  {
    run != [] && Enabled(s, run[0]) ==>
      Timely(s, w, run[0]) && TimelyRun(Apply(s, ttl, run[0]), ttl, w, run[1..])
  }

  ghost predicate TimelyReachable(s: State, ttl: nat, w: nat) {
    exists run :: After(INITIAL, ttl, run) == Some(s) && TimelyRun(INITIAL, ttl, w, run)
  }

  /** What a read has found, before and after it is answered. */
  function Seen(t: Task): Option<Sighting> {
    match t
    case GetDone(key, Some(e), at) => Some(Sighting(key, e, at))
    case Answered(_, FromCache(g), _) => Some(g)
    case _ => None
  }

  ghost predicate AllTimely(s: State, w: nat) {
    && (forall k :: k in s.cache ==> EntryTimely(s.cache[k], w))
    && (forall id :: id in s.tasks ==> TaskTimely(s.tasks[id], w))
  }

  ghost predicate EntryTimely(e: Entry, w: nat) {
    e.setAt <= e.fetchedAt + w
  }

  ghost predicate TaskTimely(t: Task, w: nat) {
    Seen(t).Some? ==> EntryTimely(Seen(t).value.entry, w)
  }

  lemma TimelyStep(s: State, ttl: nat, w: nat, e: Event)
    requires AllTimely(s, w) && Enabled(s, e) && Timely(s, w, e)
    ensures AllTimely(Apply(s, ttl, e), w)
  {
    var s' := Apply(s, ttl, e);
    forall id | id in s'.tasks
      ensures TaskTimely(s'.tasks[id], w)
    {
      if id in s.tasks { assert TaskTimely(s.tasks[id], w); }
    }
  }

  lemma {:induction false} TimelyAlways(s: State, ttl: nat, w: nat, run: seq<Event>)
    requires AllTimely(s, w) && After(s, ttl, run).Some? && TimelyRun(s, ttl, w, run)
    ensures AllTimely(After(s, ttl, run).value, w)
    decreases |run|
  {
    if run != [] {
      TimelyStep(s, ttl, w, run[0]);
      TimelyAlways(Apply(s, ttl, run[0]), ttl, w, run[1..]);
    }
  }

  /** Bounded staleness: whatever a read gets out of the cache, and is then answered with, was the
      store's value for that key at an instant less than ttl + w before the read observed it. */
  lemma BoundedStaleness(s: State, ttl: nat, w: nat, id: nat)
    requires TimelyReachable(s, ttl, w) && id in s.tasks && Seen(s.tasks[id]).Some?
    ensures var g := Seen(s.tasks[id]).value;
      && id in s.origins && s.origins[id].request == Get(g.key) && s.origins[id].at <= g.at
      && (s.tasks[id].Answered? ==> s.tasks[id].reply == Found(g.entry.value))
      && exists held: nat :: held <= g.at < held + ttl + w && HeldAt(s.versions, g.key, g.entry.value, held)
  {
    var run :| After(INITIAL, ttl, run) == Some(s) && TimelyRun(INITIAL, ttl, w, run);
    InvAlways(INITIAL, ttl, run);
    TimelyAlways(INITIAL, ttl, w, run);
    var g := Seen(s.tasks[id]).value;
    assert RequestSound(s, ttl, id) && TaskTimely(s.tasks[id], w);
    assert HitSound(s, ttl, s.origins[id], g.entry, g.at);
    assert HeldAt(s.versions, g.key, g.entry.value, g.entry.fetchedAt);
  }

  // ---------------------------------------------------------------- when an invalidation sticks

  /** Nothing cached or in flight for the key was fetched before version `v`. */
  ghost predicate NoneOlder(s: State, key: string, v: nat) {
    && v < |s.versions|
    && (key in s.cache ==> v <= s.cache[key].fetchedVersion)
    && (forall id :: id in s.tasks ==> TaskNotOlder(s.tasks[id], key, v))
  }

  ghost predicate TaskNotOlder(t: Task, key: string, v: nat) {
    && (t.SetSent? && t.key == key ==> v <= t.fetchedVersion)
    && (t.GetDone? && t.key == key && t.raw.Some? ==> v <= t.raw.value.fetchedVersion)
  }

  lemma NoneOlderStep(s: State, ttl: nat, e: Event, key: string, v: nat)
    requires Enabled(s, e) && NoneOlder(s, key, v)
    ensures NoneOlder(Apply(s, ttl, e), key, v)
  {
    var s' := Apply(s, ttl, e);
    forall id | id in s'.tasks
      ensures TaskNotOlder(s'.tasks[id], key, v)
    {
      if id in s.tasks { assert TaskNotOlder(s.tasks[id], key, v); }
    }
  }

  /** Reads that started after `before` have found nothing older than `v`. */
  ghost predicate NewReadsFresh(s: State, before: set<nat>, key: string, v: nat) {
    forall id :: id in s.tasks && id !in before ==> FoundFresh(s.tasks[id], key, v)
  }

  ghost predicate FoundFresh(t: Task, key: string, v: nat) {
    Seen(t).Some? && Seen(t).value.key == key ==> v <= Seen(t).value.entry.fetchedVersion
  }

  lemma FreshStep(s: State, ttl: nat, e: Event, before: set<nat>, key: string, v: nat)
    requires Enabled(s, e) && NoneOlder(s, key, v) && NewReadsFresh(s, before, key, v)
    ensures NewReadsFresh(Apply(s, ttl, e), before, key, v)
  {
    var s' := Apply(s, ttl, e);
    forall id | id in s'.tasks && id !in before
      ensures FoundFresh(s'.tasks[id], key, v)
    {
      if id in s.tasks { assert FoundFresh(s.tasks[id], key, v); }
    }
  }

  /** Once nothing older than `v` is cached or in flight, no continuation of the run brings it back, and no
      read that starts later finds it, or is answered with it. */
  lemma {:induction false} InvalidationSticks(
    s: State, ttl: nat, run: seq<Event>, before: set<nat>, key: string, v: nat)
    requires After(s, ttl, run).Some? && NoneOlder(s, key, v) && NewReadsFresh(s, before, key, v)
    ensures NoneOlder(After(s, ttl, run).value, key, v) && NewReadsFresh(After(s, ttl, run).value, before, key, v)
    decreases |run|
  {
    if run != [] {
      NoneOlderStep(s, ttl, run[0], key, v);
      FreshStep(s, ttl, run[0], before, key, v);
      InvalidationSticks(Apply(s, ttl, run[0]), ttl, run[1..], before, key, v);
    }
  }

  /** The delete of an update leaves nothing older than that update's version exactly when no read of the
      key is in flight with an older value. */
  lemma DeleteLeavesNoneOlder(s: State, ttl: nat, id: nat)
    requires Reachable(s, ttl) && Enabled(s, ExecDelete(id))
    ensures var key, v := s.tasks[id].key, s.tasks[id].base + 1;
      NoneOlder(Apply(s, ttl, ExecDelete(id)), key, v) <==>
        forall i :: i in s.tasks ==> TaskNotOlder(s.tasks[i], key, v)
  {
    ReachableInv(s, ttl);
    assert RequestSound(s, ttl, id);
    var s' := Apply(s, ttl, ExecDelete(id));
    assert forall i :: i in s.tasks && i != id ==> i in s'.tasks && s'.tasks[i] == s.tasks[i];
  }
}
