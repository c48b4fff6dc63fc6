/** The product service of examples/13 as it runs one request at a time: store, layered cache,
    look-aside layer and handlers, with the cache free to lose entries between requests. */
module Catalog {
  import opened Wrappers
  import opened ProductService

  // ---------------------------------------------------------------- LayeredCache

  datatype Entry = Entry(value: Product, setAt: nat, ttl: nat)

  /** One cache tier. An in-process tier serves an entry up to and including its ttl; a Memcached tier
      until its deadline, a zero ttl meaning no expiry. */
  datatype Tier = Tier(entries: map<string, Entry>, inProcess: bool)

  predicate Live(t: Tier, key: string, now: nat) {
    && key in t.entries
    && var e := t.entries[key];
       if t.inProcess then now <= e.setAt + e.ttl else e.ttl == 0 || now < e.setAt + e.ttl
  }

  /** The first tier that still serves the key, or the number of tiers if none does. */
  function FirstLive(tiers: seq<Tier>, key: string, now: nat): (i: nat)
    ensures i <= |tiers|
    ensures i < |tiers| ==> Live(tiers[i], key, now)
    ensures forall j :: 0 <= j < i ==> !Live(tiers[j], key, now)
  {
    if tiers == [] || Live(tiers[0], key, now) then 0 else 1 + FirstLive(tiers[1..], key, now)
  }

  function Put(t: Tier, key: string, e: Entry): Tier {
    t.(entries := t.entries[key := e])
  }

  function Without(t: Tier, key: string): Tier {
    t.(entries := t.entries - {key})
  }

  /** The tiers after a get that found the key first in tier `i`: every faster tier has lost its
      expired entry and, if there was a hit, received a copy; the others are as before. */
  function Promoted(tiers: seq<Tier>, i: nat, key: string, now: nat, ttl: nat): (r: seq<Tier>)
    requires i <= |tiers|
    ensures |r| == |tiers|
  {
    seq(|tiers|, j requires 0 <= j < |tiers| =>
      if j >= i then tiers[j]
      else if i == |tiers| || key !in tiers[i].entries then Without(tiers[j], key)
      else Put(tiers[j], key, Entry(tiers[i].entries[key].value, now, ttl)))
  }

  class LayeredCache {
    var tiers: seq<Tier>
    const promoteTtl: nat

    constructor (tiers: seq<Tier>, promoteTtl: nat)
      ensures this.tiers == tiers && this.promoteTtl == promoteTtl
    {
      this.tiers := tiers;
      this.promoteTtl := promoteTtl;
    }

    /** Walks the tiers from fastest to slowest and promotes what it finds. */
    method Get(key: string, now: nat) returns (value: Option<Product>)
      modifies this
      ensures var i := FirstLive(old(tiers), key, now);
        && (value.Some? <==> i < |old(tiers)|)
        && (value.Some? ==> value.value == old(tiers)[i].entries[key].value)
        && tiers == Promoted(old(tiers), i, key, now, promoteTtl)
    {
      ghost var was := tiers;
      var i := 0;
      while i < |tiers| && !Live(tiers[i], key, now)
        invariant 0 <= i <= |tiers| == |was|
        invariant forall j :: 0 <= j < i ==> !Live(was[j], key, now) && tiers[j] == Without(was[j], key)
        invariant forall j :: i <= j < |was| ==> tiers[j] == was[j]
      {
        tiers := tiers[i := Without(tiers[i], key)];
        i := i + 1;
      }
      FirstLiveIs(was, key, now, i);
      if i == |tiers| {
        assert tiers == Promoted(was, i, key, now, promoteTtl);
        return None;
      }
      value := Some(tiers[i].entries[key].value);
      var j := 0;
      while j < i
        invariant 0 <= j <= i < |tiers| == |was|
        invariant forall k :: 0 <= k < j ==> tiers[k] == Put(was[k], key, Entry(value.value, now, promoteTtl))
        invariant forall k :: j <= k < i ==> tiers[k] == Without(was[k], key)
        invariant forall k :: i <= k < |was| ==> tiers[k] == was[k]
      {
        assert Without(was[j], key).entries[key := Entry(value.value, now, promoteTtl)]
            == was[j].entries[key := Entry(value.value, now, promoteTtl)];
        tiers := tiers[j := Put(tiers[j], key, Entry(value.value, now, promoteTtl))];
        j := j + 1;
      }
      assert tiers == Promoted(was, i, key, now, promoteTtl);
    }

    /** Write-through. */
    method Set(key: string, value: Product, now: nat, ttl: nat)
      modifies this
      ensures |tiers| == |old(tiers)|
      ensures forall j :: 0 <= j < |tiers| ==> tiers[j] == Put(old(tiers)[j], key, Entry(value, now, ttl))
    {
      var j := 0;
      while j < |tiers|
        invariant 0 <= j <= |tiers| == |old(tiers)|
        invariant forall k :: 0 <= k < j ==> tiers[k] == Put(old(tiers)[k], key, Entry(value, now, ttl))
        invariant forall k :: j <= k < |tiers| ==> tiers[k] == old(tiers)[k]
      {
        tiers := tiers[j := Put(tiers[j], key, Entry(value, now, ttl))];
        j := j + 1;
      }
    }

    method Delete(key: string)
      modifies this
      ensures |tiers| == |old(tiers)|
      ensures forall j :: 0 <= j < |tiers| ==> tiers[j] == Without(old(tiers)[j], key)
    {
      var j := 0;
      while j < |tiers|
        invariant 0 <= j <= |tiers| == |old(tiers)|
        invariant forall k :: 0 <= k < j ==> tiers[k] == Without(old(tiers)[k], key)
        invariant forall k :: j <= k < |tiers| ==> tiers[k] == old(tiers)[k]
      {
        tiers := tiers[j := Without(tiers[j], key)];
        j := j + 1;
      }
    }

    /** The environment: a tier may lose an entry at any moment. */
    method Lose(tier: nat, key: string)
      modifies this
      ensures tiers == if tier < |old(tiers)| then old(tiers)[tier := Without(old(tiers)[tier], key)] else old(tiers)
    {
      if tier < |tiers| { tiers := tiers[tier := Without(tiers[tier], key)]; }
    }
  }

  lemma FirstLiveIs(tiers: seq<Tier>, key: string, now: nat, i: nat)
    requires i <= |tiers| && (i < |tiers| ==> Live(tiers[i], key, now))
    requires forall j :: 0 <= j < i ==> !Live(tiers[j], key, now)
    ensures FirstLive(tiers, key, now) == i
  {
    assert FirstLive(tiers, key, now) <= |tiers|;
  }

  /** The tiers differ in no entry but those under the key. */
  ghost predicate SameButFor(was: seq<Tier>, tiers: seq<Tier>, key: string) {
    |tiers| == |was| && forall j :: 0 <= j < |was| ==> TierSameButFor(was[j], tiers[j], key)
  }

  ghost predicate TierSameButFor(was: Tier, t: Tier, key: string) {
    && t.inProcess == was.inProcess
    && forall k :: k != key ==>
         (k in t.entries <==> k in was.entries) && (k in was.entries ==> t.entries[k] == was.entries[k])
  }

  /** Setting, deleting and promoting a key each touch that key only. A set puts the entry there, a delete
      leaves none, and a promotion puts the found value, with the promotion ttl, into exactly the faster
      tiers. */
  lemma OneKeyOnly(tiers: seq<Tier>, key: string, e: Entry, now: nat, ttl: nat)
    ensures forall t :: t in tiers ==>
      && TierSameButFor(t, Put(t, key, e), key) && key in Put(t, key, e).entries && Put(t, key, e).entries[key] == e
      && TierSameButFor(t, Without(t, key), key) && key !in Without(t, key).entries
    ensures var i := FirstLive(tiers, key, now);
      var after := Promoted(tiers, i, key, now, ttl);
      && SameButFor(tiers, after, key)
      && forall j :: 0 <= j < |tiers| ==>
           if j >= i then after[j] == tiers[j]
           else if i == |tiers| then key !in after[j].entries
           else key in after[j].entries && after[j].entries[key] == Entry(tiers[i].entries[key].value, now, ttl)
  {
  }

  /** An entry set now with a ttl is served for that long: in process up to and including the last moment, by
      Memcached short of it, and for ever with ttl 0. */
  lemma ServedForTtl(t: Tier, key: string, value: Product, now: nat, ttl: nat, d: nat)
    ensures Live(Put(t, key, Entry(value, now, ttl)), key, now + d) <==>
      if t.inProcess then d <= ttl else d < ttl || ttl == 0
    ensures !Live(Without(t, key), key, now)
  {
  }

  /** Promotion is invisible: a second get at the same instant answers as the first did. */
  lemma PromotionIsInvisible(tiers: seq<Tier>, key: string, now: nat, ttl: nat)
    ensures var i := FirstLive(tiers, key, now);
      var after := Promoted(tiers, i, key, now, ttl);
      var j := FirstLive(after, key, now);
      && (i < |tiers| <==> j < |after|)
      && (i < |tiers| ==> after[j].entries[key].value == tiers[i].entries[key].value)
  {
    var i := FirstLive(tiers, key, now);
    var after := Promoted(tiers, i, key, now, ttl);
    var j := FirstLive(after, key, now);
    if i < |tiers| {
      assert after[i] == tiers[i] && Live(after[i], key, now);
    } else {
      forall k | 0 <= k < |after|
        ensures !Live(after[k], key, now)
      {
        assert after[k] == Without(tiers[k], key);
      }
    }
  }

  // ---------------------------------------------------------------- ProductStore

  class ProductStore {
    var data: map<string, Product>

    constructor (initial: map<string, Product>)
      ensures data == initial
    {
      data := initial;
    }

    method Get(id: string) returns (p: Option<Product>)
      ensures p == Find(data, id)
    {
      p := if id in data then Some(data[id]) else None;
    }

    method Save(p: Product)
      modifies this
      ensures data == old(data)[p.id := p]
    {
      data := data[p.id := p];
    }

    method Delete(id: string) returns (existed: bool)
      modifies this
      ensures existed <==> id in old(data)
      ensures data == old(data) - {id}
    {
      existed := id in data;
      data := data - {id};
    }
  }

  function Find(data: map<string, Product>, id: string): Option<Product> {
    if id in data then Some(data[id]) else None
  }

  // ---------------------------------------------------------------- runs of the service without a cache

  /** A request, or the loss of an entry in some tier. */
  datatype Event = Ask(request: Request) | Lose(tier: nat, key: string)

  datatype Timed = Timed(now: nat, event: Event)

  /** Store and replies after a run, if there were only the store. */
  function StoreOnlyRun(data: map<string, Product>, run: seq<Timed>): (map<string, Product>, seq<Reply>)
    decreases |run|
  {
    if run == [] then (data, [])
    else
      var (d, replies) := StoreOnlyRun(data, run[..|run| - 1]);
      match run[|run| - 1].event
      case Ask(request) => var (d', reply) := StoreOnly(d, request); (d', replies + [reply])
      case Lose(_, _) => (d, replies)
  }

  function Reads(run: seq<Timed>): nat
    decreases |run|
  {
    if run == [] then 0
    else
      var last := run[|run| - 1].event;
      Reads(run[..|run| - 1]) + if last.Ask? && last.request.Get? then 1 else 0
  }

  // ---------------------------------------------------------------- cache layer and handlers

  function CacheKey(id: string): string {
    "product:" + id
  }

  lemma CacheKeyInjective(a: string, b: string)
    requires CacheKey(a) == CacheKey(b)
    ensures a == b
  {
    assert a == CacheKey(a)[8..] && b == CacheKey(b)[8..];
  }

  /** Every entry, expired or not, holds what the store holds. */
  ghost predicate Coherent(tiers: seq<Tier>, data: map<string, Product>) {
    forall j, id :: 0 <= j < |tiers| && CacheKey(id) in tiers[j].entries ==>
      id in data && tiers[j].entries[CacheKey(id)].value == data[id]
  }

  class Service {
    const store: ProductStore
    const cache: LayeredCache
    const defaultTtl: nat
    var hits: nat
    var misses: nat

    ghost predicate Valid()
      reads this, store, cache
    {
      Coherent(cache.tiers, store.data)
    }

    constructor (store: ProductStore, cache: LayeredCache, defaultTtl: nat)
      requires Coherent(cache.tiers, store.data)
      ensures Valid() && this.store == store && this.cache == cache && hits == 0 && misses == 0
    {
      this.store := store;
      this.cache := cache;
      this.defaultTtl := defaultTtl;
      hits := 0;
      misses := 0;
    }

    method GetProduct(id: string, now: nat) returns (p: Option<Product>)
      requires Valid()
      modifies this, cache
      ensures Valid()
      ensures p == Find(store.data, id)
      ensures hits + misses == old(hits) + old(misses) + 1 && hits >= old(hits) && misses >= old(misses)
      ensures hits > old(hits) <==> FirstLive(old(cache.tiers), CacheKey(id), now) < |old(cache.tiers)|
      ensures StillAbsent(old(cache.tiers), cache.tiers, CacheKey(id))
    {
      ghost var was := cache.tiers;
      p := cache.Get(CacheKey(id), now);
      PromotionKeepsCoherent(was, store.data, id, now, cache.promoteTtl);
      if p.Some? {
        hits := hits + 1;
        return;
      }
      misses := misses + 1;
      p := store.Get(id);
      if p.None? { return; }
      ghost var missed := cache.tiers;
      cache.Set(CacheKey(id), p.value, now, defaultTtl);
      forall j, other | 0 <= j < |cache.tiers| && CacheKey(other) in cache.tiers[j].entries
        ensures other in store.data && cache.tiers[j].entries[CacheKey(other)].value == store.data[other]
      {
        if CacheKey(other) == CacheKey(id) { CacheKeyInjective(other, id); }
        else { assert CacheKey(other) in missed[j].entries; }
      }
    }

    method InvalidateProduct(id: string)
      modifies cache
      ensures |cache.tiers| == |old(cache.tiers)|
      ensures forall j :: 0 <= j < |cache.tiers| ==> cache.tiers[j] == Without(old(cache.tiers)[j], CacheKey(id))
    {
      cache.Delete(CacheKey(id));
    }

    /** One request. The reply and the store are those of the cache-less service, whatever the cache
        holds and has lost. A write leaves its product in no tier, and no request brings an entry for any
        product but its own. */
    method Handle(r: Request, now: nat) returns (reply: Reply)
      requires Valid()
      modifies this, store, cache
      ensures Valid()
      ensures (store.data, reply) == StoreOnly(old(store.data), r)
      ensures hits + misses == old(hits) + old(misses) + if r.Get? then 1 else 0
      ensures hits >= old(hits) && misses >= old(misses)
      ensures r.Get? ==>
        (hits > old(hits) <==> FirstLive(old(cache.tiers), CacheKey(r.key), now) < |old(cache.tiers)|)
      ensures !r.Get? && (reply.Found? || reply.Deleted?) ==> Absent(cache.tiers, CacheKey(KeyOf(r)))
      ensures StillAbsent(old(cache.tiers), cache.tiers, CacheKey(KeyOf(r)))
    {
      ghost var was := cache.tiers;
      ghost var before := store.data;
      match r {
        case Create(body) =>
          var existing := store.Get(body.id);
          if existing.Some? { return Conflict; }
          store.Save(body);
          InvalidateProduct(body.id);
          InvalidationKeepsCoherent(was, cache.tiers, before, store.data, body.id);
          return Found(body);
        case Get(id) =>
          var p := GetProduct(id, now);
          reply := if p.Some? then Found(p.value) else NotFound;
        case Update(id, name, price) =>
          var existing := store.Get(id);
          if existing.None? { return NotFound; }
          store.Save(Product(id, name, price));
          InvalidateProduct(id);
          InvalidationKeepsCoherent(was, cache.tiers, before, store.data, id);
          return Found(Product(id, name, price));
        case Delete(id) =>
          var existed := store.Delete(id);
          if !existed {
            assert before - {id} == before;
            return NotFound;
          }
          InvalidateProduct(id);
          InvalidationKeepsCoherent(was, cache.tiers, before, store.data, id);
          return Deleted;
      }
    }

    /** Sequential refinement: over any run of requests and losses the service answers exactly as the
        store alone would, and its counters add up to the number of reads. A product that no event of the
        run asks for and no tier holds is in no tier afterwards either. */
    method Serve(run: seq<Timed>) returns (replies: seq<Reply>)
      requires Valid()
      modifies this, store, cache
      ensures Valid()
      ensures (store.data, replies) == StoreOnlyRun(old(store.data), run)
      ensures hits + misses == old(hits) + old(misses) + Reads(run)
      ensures forall id :: Spares(run, id) && Absent(old(cache.tiers), CacheKey(id)) ==>
        Absent(cache.tiers, CacheKey(id))
    {
      replies := [];
      var n := 0;
      while n < |run|
        invariant 0 <= n <= |run| && Valid()
        invariant (store.data, replies) == StoreOnlyRun(old(store.data), run[..n])
        invariant hits + misses == old(hits) + old(misses) + Reads(run[..n])
        invariant forall id :: Spares(run, id) && Absent(old(cache.tiers), CacheKey(id)) ==>
          Absent(cache.tiers, CacheKey(id))
      {
        assert run[..n + 1][..n] == run[..n];
        ghost var was := cache.tiers;
        match run[n].event {
          case Ask(request) =>
            var reply := Handle(request, run[n].now);
            replies := replies + [reply];
            forall id | Spares(run, id) && Absent(was, CacheKey(id))
              ensures Absent(cache.tiers, CacheKey(id))
            {
              if CacheKey(KeyOf(request)) == CacheKey(id) { CacheKeyInjective(KeyOf(request), id); }
            }
          case Lose(tier, key) =>
            cache.Lose(tier, key);
            LossKeepsCoherent(was, tier, key, store.data);
        }
        n := n + 1;
      }
      assert run[..n] == run;
    }

    /** A create warms nothing: whenever the first read of the product comes, after any requests for other
        products and any losses, it is a miss. */
    method CreateThenRead(body: Product, now: nat, between: seq<Timed>, later: nat)
      returns (created: Reply, read: Reply, replies: seq<Reply>, missed: bool)
      requires Valid() && Spares(between, body.id)
      modifies this, store, cache
      ensures Valid()
      ensures created == Found(body) <==> body.id !in old(store.data)
      ensures created == Found(body) ==> read == Found(body) && missed
      ensures hits + misses == old(hits) + old(misses) + Reads(between) + 1
    {
      created := Handle(Create(body), now);
      ghost var data := store.data;
      replies := Serve(between);
      SparedStays(data, between, body.id);
      var before := misses;
      ghost var tiers := cache.tiers;
      assert created == Found(body) ==>
        forall j :: 0 <= j < |tiers| ==> !Live(tiers[j], CacheKey(body.id), later);
      read := Handle(Get(body.id), later);
      missed := misses == before + 1;
    }
  }

  /** No tier has an entry, expired or not, under the key. */
  ghost predicate Absent(tiers: seq<Tier>, key: string) {
    forall j :: 0 <= j < |tiers| ==> key !in tiers[j].entries
  }

  /** Whatever was in no tier before, except possibly `key`, is in none now. */
  ghost predicate StillAbsent(was: seq<Tier>, tiers: seq<Tier>, key: string) {
    forall k :: k != key && Absent(was, k) ==> Absent(tiers, k)
  }

  /** No request of the run is about the product. */
  predicate Spares(run: seq<Timed>, id: string) {
    forall i :: 0 <= i < |run| && run[i].event.Ask? ==> KeyOf(run[i].event.request) != id
  }

  lemma {:induction false} SparedStays(data: map<string, Product>, run: seq<Timed>, id: string)
    requires Spares(run, id)
    ensures Find(StoreOnlyRun(data, run).0, id) == Find(data, id)
    decreases |run|
  {
    if run != [] { SparedStays(data, run[..|run| - 1], id); }
  }

  /** Coherence survives a get: a promoted copy is a copy of a coherent entry. */
  lemma PromotionKeepsCoherent(tiers: seq<Tier>, data: map<string, Product>, id: string, now: nat, ttl: nat)
    requires Coherent(tiers, data)
    ensures Coherent(Promoted(tiers, FirstLive(tiers, CacheKey(id), now), CacheKey(id), now, ttl), data)
  {
    var i := FirstLive(tiers, CacheKey(id), now);
    var after := Promoted(tiers, i, CacheKey(id), now, ttl);
    forall j, other | 0 <= j < |after| && CacheKey(other) in after[j].entries
      ensures other in data && after[j].entries[CacheKey(other)].value == data[other]
    {
      if CacheKey(other) == CacheKey(id) { CacheKeyInjective(other, id); }
      else { assert CacheKey(other) in tiers[j].entries; }
    }
  }

  /** A write to one product keeps coherence once that product's key is deleted from every tier. */
  lemma InvalidationKeepsCoherent(
    was: seq<Tier>, tiers: seq<Tier>, before: map<string, Product>, data: map<string, Product>, id: string)
    requires Coherent(was, before) && |tiers| == |was|
    requires forall j :: 0 <= j < |tiers| ==> tiers[j] == Without(was[j], CacheKey(id))
    requires forall k :: k != id ==> (k in before <==> k in data) && (k in before ==> before[k] == data[k])
    ensures Coherent(tiers, data)
  {
    forall j, other | 0 <= j < |tiers| && CacheKey(other) in tiers[j].entries
      ensures other in data && tiers[j].entries[CacheKey(other)].value == data[other]
    {
      assert CacheKey(other) in was[j].entries && other != id;
    }
  }

  lemma LossKeepsCoherent(tiers: seq<Tier>, tier: nat, key: string, data: map<string, Product>)
    requires Coherent(tiers, data)
    ensures tier < |tiers| ==> Coherent(tiers[tier := Without(tiers[tier], key)], data)
  {
  }
}
