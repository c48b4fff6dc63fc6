/** The product service of examples/13 with nothing but its store: what any cached form of it is measured
    against. */
module ProductService {

  datatype Product = Product(id: string, name: string, price: real)

  datatype Request =
    | Get(key: string)
    | Create(body: Product)
    | Update(key: string, name: string, price: real)
    | Delete(key: string)

  datatype Reply = Found(product: Product) | NotFound | Conflict | Deleted

  /** What a service that has only the store does with a request: the store afterwards and the reply. */
  function StoreOnly(data: map<string, Product>, r: Request): (map<string, Product>, Reply) {
    match r
    case Get(key) => (data, if key in data then Found(data[key]) else NotFound)
    case Create(body) => if body.id in data then (data, Conflict) else (data[body.id := body], Found(body))
    case Update(key, name, price) =>
      if key !in data then (data, NotFound)
      else (data[key := Product(key, name, price)], Found(Product(key, name, price)))
    case Delete(key) => if key !in data then (data, NotFound) else (data - {key}, Deleted)
  }

  /** The product a request is about. */
  function KeyOf(r: Request): string {
    if r.Create? then r.body.id else r.key
  }

  // ---------------------------------------------------------------- read after write

  /** The store after a run of requests. */
  function AfterAll(data: map<string, Product>, run: seq<Request>): map<string, Product>
    decreases |run|
  {
    if run == [] then data else AfterAll(StoreOnly(data, run[0]).0, run[1..])
  }

  /** What a read of the product is answered after a run of requests. */
  function ReadAfter(data: map<string, Product>, run: seq<Request>, key: string): Reply {
    StoreOnly(AfterAll(data, run), Get(key)).1
  }

  /** No request of the run writes the product. */
  predicate OnlyReads(run: seq<Request>, key: string) {
    forall i :: 0 <= i < |run| ==> run[i].Get? || KeyOf(run[i]) != key
  }

  lemma {:induction false} UnwrittenReads(data: map<string, Product>, run: seq<Request>, key: string)
    requires OnlyReads(run, key)
    ensures ReadAfter(data, run, key) == ReadAfter(data, [], key)
    decreases |run|
  {
    if run != [] {
      var next := StoreOnly(data, run[0]).0;
      assert key in next <==> key in data;
      assert key in data ==> next[key] == data[key];
      assert OnlyReads(run[1..], key) by {
        assert forall i :: 0 <= i < |run[1..]| ==> run[1..][i] == run[i + 1];
      }
      UnwrittenReads(next, run[1..], key);
    }
  }

  /** After a write, and any requests that do not write the same product, a read gives what was written: the
      created product, the updated name and price, or nothing. A refused write leaves the store as it was:
      create of a product that exists, update and delete of one that does not. */
  lemma ReadAfterWrite(data: map<string, Product>, write: Request, run: seq<Request>)
    requires !write.Get? && OnlyReads(run, KeyOf(write))
    ensures var (after, reply) := StoreOnly(data, write);
      var read := ReadAfter(after, run, KeyOf(write));
      match write
      case Create(body) =>
        if body.id in data then reply == Conflict && after == data && read == Found(data[body.id])
        else reply == read == Found(body)
      case Update(key, name, price) =>
        if key in data then reply == read == Found(Product(key, name, price))
        else reply == read == NotFound && after == data
      case Delete(key) =>
        && read == NotFound
        && if key in data then reply == Deleted else reply == NotFound && after == data
  {
    UnwrittenReads(StoreOnly(data, write).0, run, KeyOf(write));
  }
}
