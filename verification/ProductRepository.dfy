/** The in-memory product repository of examples/01: an insertion-ordered dictionary behind the CRUD
    service, with partial updates. */
module ProductRepository {
  import opened Wrappers
  import opened Paging

  type Pk = nat

  datatype Product = Product(
    pk: Option<Pk>,
    name: string,
    description: string,
    price: real,
    inStock: bool,
    createdAt: Option<nat>,
    updatedAt: Option<nat>)

  // ---------------------------------------------------------------- partial updates

  /** An update payload; a missing field means no change. */
  datatype Patch = Patch(name: Option<string>, description: Option<string>, price: Option<real>, inStock: Option<bool>)

  const EMPTY_PATCH := Patch(None, None, None, None)

  function Or<T>(a: Option<T>, otherwise: T): T {
    if a.Some? then a.value else otherwise
  }

  /** `apply_update`: key and times are carried over. */
  function Patched(p: Product, patch: Patch): (r: Product)
    ensures r.pk == p.pk && r.createdAt == p.createdAt && r.updatedAt == p.updatedAt
    ensures (patch.name.Some? ==> r.name == patch.name.value) && (patch.name.None? ==> r.name == p.name)
    ensures patch.description.Some? ==> r.description == patch.description.value
    ensures patch.description.None? ==> r.description == p.description
    ensures (patch.price.Some? ==> r.price == patch.price.value) && (patch.price.None? ==> r.price == p.price)
    ensures patch.inStock.Some? ==> r.inStock == patch.inStock.value
    ensures patch.inStock.None? ==> r.inStock == p.inStock
  {
    p.(name := Or(patch.name, p.name),
       description := Or(patch.description, p.description),
       price := Or(patch.price, p.price),
       inStock := Or(patch.inStock, p.inStock))
  }

  function Over<T>(a: Option<T>, b: Option<T>): Option<T> {
    if b.Some? then b else a
  }

  /** The patch that does `a` and then `b`: where both speak, `b` wins. */
  function Merge(a: Patch, b: Patch): Patch {
    Patch(Over(a.name, b.name), Over(a.description, b.description), Over(a.price, b.price), Over(a.inStock, b.inStock))
  }

  function PatchedBy(p: Product, patches: seq<Patch>): Product
    decreases |patches|
  {
    if patches == [] then p else PatchedBy(Patched(p, patches[0]), patches[1..])
  }

  function MergeAll(patches: seq<Patch>): Patch {
    if patches == [] then EMPTY_PATCH else Merge(patches[0], MergeAll(patches[1..]))
  }

  /** Patches act as a monoid: any sequence of them does what their right-biased merge does, none at
      all doing nothing. */
  lemma {:induction false} PatchesMerge(p: Product, patches: seq<Patch>)
    ensures PatchedBy(p, patches) == Patched(p, MergeAll(patches))
    decreases |patches|
  {
    if patches != [] { PatchesMerge(Patched(p, patches[0]), patches[1..]); }
  }

  // ---------------------------------------------------------------- the dictionary

  /** One dictionary item. */
  datatype Row = Row(key: Pk, value: Product)

  function Keys(rows: seq<Row>): (ks: seq<Pk>)
    ensures |ks| == |rows|
  {
    seq(|rows|, i requires 0 <= i < |rows| => rows[i].key)
  }

  predicate Has(rows: seq<Row>, key: Pk) {
    exists i :: 0 <= i < |rows| && rows[i].key == key
  }

  /** Where the key stands, or the number of rows if it is absent. */
  function Position(rows: seq<Row>, key: Pk): (i: nat)
    ensures i <= |rows|
    ensures i < |rows| ==> rows[i].key == key
    ensures forall k :: 0 <= k < i ==> rows[k].key != key
  {
    if rows == [] || rows[0].key == key then 0 else 1 + Position(rows[1..], key)
  }

  /** Assignment to a key: an existing one keeps its place, a new one goes to the end. */
  function Put(rows: seq<Row>, key: Pk, value: Product): seq<Row> {
    var i := Position(rows, key);
    if i < |rows| then rows[i := Row(key, value)] else rows + [Row(key, value)]
  }

  /** Removal of a key closes the gap. */
  function Without(rows: seq<Row>, key: Pk): seq<Row> {
    var i := Position(rows, key);
    if i < |rows| then rows[..i] + rows[i + 1..] else rows
  }

  /** What saving makes of a product: a first save assigns key and creation time. */
  function Stamped(p: Product, uuid: Pk, now: nat): (r: Product)
    ensures r.pk == (if p.pk.None? then Some(uuid) else p.pk) && r.updatedAt == Some(now)
    ensures r.createdAt == if p.pk.None? then Some(now) else p.createdAt
    ensures r.name == p.name && r.description == p.description && r.price == p.price && r.inStock == p.inStock
  {
    if p.pk.None? then p.(pk := Some(uuid), createdAt := Some(now), updatedAt := Some(now))
    else p.(updatedAt := Some(now))
  }

  /** The rows after saving a list of entities one by one, with the UUIDs the generator hands out and the
      clock readings of the saves. */
  function SavedAll(rows: seq<Row>, entities: seq<Product>, uuids: seq<Pk>, nows: seq<nat>): seq<Row>
    requires |uuids| == |nows| == |entities|
    decreases |entities|
  {
    if entities == [] then rows
    else
      var n := |entities| - 1;
      var saved := Stamped(entities[n], uuids[n], nows[n]);
      Put(SavedAll(rows, entities[..n], uuids[..n], nows[..n]), saved.pk.value, saved)
  }

  class Repository {
    var rows: seq<Row>

    constructor ()
      ensures rows == []
    {
      rows := [];
    }

    method FindById(pk: Pk) returns (p: Option<Product>)
      ensures p == Found(rows, pk)
    {
      var i := 0;
      while i < |rows| && rows[i].key != pk
        invariant 0 <= i <= |rows|
        invariant forall k :: 0 <= k < i ==> rows[k].key != pk
      {
        i := i + 1;
      }
      assert Position(rows, pk) == i;
      p := if i < |rows| then Some(rows[i].value) else None;
    }

    method Save(entity: Product, uuid: Pk, now: nat) returns (saved: Product)
      modifies this
      ensures saved == Stamped(entity, uuid, now)
      ensures rows == Put(old(rows), saved.pk.value, saved)
      ensures Found(rows, saved.pk.value) == Some(saved)
      ensures forall k :: k != saved.pk.value ==> Found(rows, k) == Found(old(rows), k)
      ensures Keys(rows) == Keys(old(rows)) + if Has(old(rows), saved.pk.value) then [] else [saved.pk.value]
    {
      saved := entity;
      if saved.pk.None? { saved := saved.(pk := Some(uuid), createdAt := Some(now)); }
      saved := saved.(updatedAt := Some(now));
      PutExactly(rows, saved.pk.value, saved);
      rows := Put(rows, saved.pk.value, saved);
    }

    /** Refuses an entity that was never saved. */
    method Delete(entity: Product) returns (ok: bool)
      modifies this
      ensures ok <==> entity.pk.Some?
      ensures rows == if entity.pk.Some? then Without(old(rows), entity.pk.value) else old(rows)
      ensures ok ==> Keys(rows) == Erased(Keys(old(rows)), entity.pk.value)
      ensures ok ==> forall k :: k != entity.pk.value ==> Found(rows, k) == Found(old(rows), k)
    {
      ok := entity.pk.Some?;
      if ok {
        WithoutKeys(rows, entity.pk.value);
        WithoutKeepsOthers(rows, entity.pk.value);
        rows := Without(rows, entity.pk.value);
      }
    }

    method SaveMany(entities: seq<Product>, uuids: seq<Pk>, nows: seq<nat>) returns (saved: seq<Product>)
      requires |uuids| == |nows| == |entities|
      modifies this
      ensures rows == SavedAll(old(rows), entities, uuids, nows)
      ensures |saved| == |entities|
      ensures forall i :: 0 <= i < |saved| ==> saved[i] == Stamped(entities[i], uuids[i], nows[i])
    {
      saved := [];
      var i := 0;
      while i < |entities|
        invariant 0 <= i <= |entities| && |saved| == i
        invariant rows == SavedAll(old(rows), entities[..i], uuids[..i], nows[..i])
        invariant forall k :: 0 <= k < i ==> saved[k] == Stamped(entities[k], uuids[k], nows[k])
      {
        assert entities[..i + 1][..i] == entities[..i] && uuids[..i + 1][..i] == uuids[..i];
        assert nows[..i + 1][..i] == nows[..i];
        var s := Save(entities[i], uuids[i], nows[i]);
        saved := saved + [s];
        i := i + 1;
      }
      assert entities[..i] == entities && uuids[..i] == uuids && nows[..i] == nows;
    }

    /** What the CRUD service does with the repository for one request. */
    method Perform(c: Call)
      modifies this
      ensures rows == Step(old(rows), c)
    {
      match c.op {
        case Insert(draft) =>
          var saved := Save(draft.(pk := None), c.uuid, c.now);
        case Update(pk, patch) =>
          var found := FindById(pk);
          if found.None? { return; }
          var saved := Save(Patched(found.value, patch), c.uuid, c.now);
        case Remove(pk) =>
          var found := FindById(pk);
          if found.None? { return; }
          var ok := Delete(found.value);
      }
    }

    /** `items[offset : offset + limit]`, which is the same as offset first and limit after. */
    method FindByQuery(offset: nat, limit: Option<nat>) returns (page: seq<Row>)
      ensures page == Page(rows, offset, limit)
    {
      var from := Min(offset, |rows|);
      if limit.Some? {
        page := rows[from..Min(offset + limit.value, |rows|)];
      } else {
        page := rows[from..];
      }
    }
  }

  function Found(rows: seq<Row>, pk: Pk): Option<Product> {
    var i := Position(rows, pk);
    if i < |rows| then Some(rows[i].value) else None
  }

  // ---------------------------------------------------------------- runs

  datatype Op = Insert(draft: Product) | Update(pk: Pk, patch: Patch) | Remove(pk: Pk)

  /** An operation with the next UUID and the clock. */
  datatype Call = Call(op: Op, uuid: Pk, now: nat)

  /** Insert saves an assembled, unsaved entity; update is find, patch, save; remove is find, delete. */
  function Step(rows: seq<Row>, c: Call): seq<Row> {
    match c.op
    case Insert(draft) =>
      var p := Stamped(draft.(pk := None), c.uuid, c.now);
      Put(rows, p.pk.value, p)
    case Update(pk, patch) =>
      var found := Found(rows, pk);
      if found.None? then rows
      else
        var p := Stamped(Patched(found.value, patch), c.uuid, c.now);
        Put(rows, p.pk.value, p)
    case Remove(pk) =>
      var found := Found(rows, pk);
      if found.None? || found.value.pk.None? then rows else Without(rows, found.value.pk.value)
  }

  function After(rows: seq<Row>, run: seq<Call>): seq<Row>
    decreases |run|
  {
    if run == [] then rows else After(Step(rows, run[0]), run[1..])
  }

  /** Every inserted key is new and the clock does not run backwards. */
  predicate Proper(rows: seq<Row>, now: nat, run: seq<Call>)
    decreases |run|
  {
    run != [] ==>
      && now <= run[0].now
      && (run[0].op.Insert? ==> !Has(rows, run[0].uuid))
      && Proper(Step(rows, run[0]), run[0].now, run[1..])
  }

  ghost predicate RowOk(r: Row, now: nat) {
    && r.value.pk == Some(r.key)
    && r.value.createdAt.Some? && r.value.updatedAt.Some?
    && r.value.createdAt.value <= r.value.updatedAt.value <= now
  }

  ghost predicate Inv(rows: seq<Row>, now: nat) {
    && (forall i, j :: 0 <= i < j < |rows| ==> rows[i].key != rows[j].key)
    && (forall i :: 0 <= i < |rows| ==> RowOk(rows[i], now))
  }

  lemma PutInv(rows: seq<Row>, key: Pk, p: Product, now: nat, later: nat)
    requires Inv(rows, now) && now <= later && RowOk(Row(key, p), later)
    ensures Inv(Put(rows, key, p), later)
  {
  }

  lemma WithoutInv(rows: seq<Row>, key: Pk, now: nat, later: nat)
    requires Inv(rows, now) && now <= later
    ensures Inv(Without(rows, key), later)
  {
  }

  lemma StepInv(rows: seq<Row>, c: Call, now: nat)
    requires Inv(rows, now) && now <= c.now
    requires c.op.Insert? ==> !Has(rows, c.uuid)
    ensures Inv(Step(rows, c), c.now)
  {
    match c.op
    case Insert(draft) => PutInv(rows, c.uuid, Stamped(draft.(pk := None), c.uuid, c.now), now, c.now);
    case Update(pk, patch) =>
      var i := Position(rows, pk);
      if i < |rows| {
        assert RowOk(rows[i], now);
        PutInv(rows, pk, Stamped(Patched(rows[i].value, patch), c.uuid, c.now), now, c.now);
      }
    case Remove(pk) => WithoutInv(rows, pk, now, c.now);
  }

  /** How the sequence of keys moves: an insert appends, an update leaves it alone, a removal takes the
      key out and closes the gap. */
  lemma StepKeys(rows: seq<Row>, c: Call, now: nat)
    requires Inv(rows, now)
    requires c.op.Insert? ==> !Has(rows, c.uuid)
    ensures c.op.Insert? ==> Keys(Step(rows, c)) == Keys(rows) + [c.uuid]
    ensures c.op.Update? ==> Keys(Step(rows, c)) == Keys(rows)
    ensures c.op.Remove? ==> Keys(Step(rows, c)) == Erased(Keys(rows), c.op.pk)
  {
    if c.op.Remove? { WithoutKeys(rows, c.op.pk); }
  }

  /** Removal takes one key out of the sequence of keys and closes the gap. */
  lemma WithoutKeys(rows: seq<Row>, key: Pk)
    ensures Keys(Without(rows, key)) == Erased(Keys(rows), key)
  {
    ErasedAt(Keys(rows), key, Position(rows, key));
  }

  lemma {:induction false} PositionIs(rows: seq<Row>, key: Pk, i: nat)
    requires i <= |rows| && (i < |rows| ==> rows[i].key == key) && forall k :: 0 <= k < i ==> rows[k].key != key
    ensures Position(rows, key) == i
  {
  }

  /** Assignment puts the product under its key and leaves the other keys alone; a new key goes last. */
  lemma PutExactly(rows: seq<Row>, key: Pk, p: Product)
    ensures Found(Put(rows, key, p), key) == Some(p)
    ensures forall k :: k != key ==> Found(Put(rows, key, p), k) == Found(rows, k)
    ensures Keys(Put(rows, key, p)) == Keys(rows) + if Has(rows, key) then [] else [key]
  {
    var i, more := Position(rows, key), Put(rows, key, p);
    PositionIs(more, key, i);
    forall k | k != key
      ensures Found(more, k) == Found(rows, k)
    {
      var j := Position(rows, k);
      PositionIs(more, k, if j < |rows| then j else |more|);
    }
  }

  /** What each operation leaves, in the products' own terms. */
  lemma StepMeans(rows: seq<Row>, c: Call, now: nat)
    requires Inv(rows, now)
    ensures var rows' := Step(rows, c);
      match c.op
      case Insert(d) =>
        && Found(rows', c.uuid)
             == Some(Product(Some(c.uuid), d.name, d.description, d.price, d.inStock, Some(c.now), Some(c.now)))
        && forall k :: k != c.uuid ==> Found(rows', k) == Found(rows, k)
      case Update(pk, patch) =>
        var was := Found(rows, pk);
        && (was.None? ==> rows' == rows)
        && (was.Some? ==> Found(rows', pk).Some? && IsUpdateOf(Found(rows', pk).value, was.value, patch, c.now))
        && forall k :: k != pk ==> Found(rows', k) == Found(rows, k)
      case Remove(pk) => Found(rows', pk) == None && forall k :: k != pk ==> Found(rows', k) == Found(rows, k)
  {
    match c.op
    case Insert(d) => PutExactly(rows, c.uuid, Stamped(d.(pk := None), c.uuid, c.now));
    case Update(pk, patch) =>
      var i := Position(rows, pk);
      if i < |rows| {
        assert RowOk(rows[i], now);
        PutExactly(rows, pk, Stamped(Patched(rows[i].value, patch), c.uuid, c.now));
      }
    case Remove(pk) =>
      var i := Position(rows, pk);
      if i < |rows| {
        assert RowOk(rows[i], now);
        WithoutKeepsOthers(rows, pk);
        PositionIs(Without(rows, pk), pk, |rows| - 1);
      }
  }

  /** `p` is `was` with each given field taken, each missing one kept, and a new update time. */
  ghost predicate IsUpdateOf(p: Product, was: Product, patch: Patch, now: nat) {
    && p.pk == was.pk && p.createdAt == was.createdAt && p.updatedAt == Some(now)
    && p.name == (if patch.name.Some? then patch.name.value else was.name)
    && p.description == (if patch.description.Some? then patch.description.value else was.description)
    && p.price == (if patch.price.Some? then patch.price.value else was.price)
    && p.inStock == (if patch.inStock.Some? then patch.inStock.value else was.inStock)
  }

  /** What is under the other keys stays. */
  lemma WithoutKeepsOthers(rows: seq<Row>, key: Pk)
    ensures forall k :: k != key ==> Found(Without(rows, key), k) == Found(rows, k)
  {
    var i, left := Position(rows, key), Without(rows, key);
    forall k | k != key
      ensures Found(left, k) == Found(rows, k)
    {
      var j := Position(rows, k);
      PositionIs(left, k, if i < |rows| && i < j then j - 1 else j);
    }
  }

  function Erased(ks: seq<Pk>, key: Pk): seq<Pk> {
    if ks == [] then []
    else if ks[0] == key then ks[1..]
    else [ks[0]] + Erased(ks[1..], key)
  }

  lemma {:induction false} ErasedAt(ks: seq<Pk>, key: Pk, i: nat)
    requires i <= |ks| && (i < |ks| ==> ks[i] == key) && forall k :: 0 <= k < i ==> ks[k] != key
    ensures Erased(ks, key) == if i < |ks| then ks[..i] + ks[i + 1..] else ks
    decreases |ks|
  {
    if i > 0 {
      ErasedAt(ks[1..], key, i - 1);
      assert ks == [ks[0]] + ks[1..];
    }
  }

  lemma StepKeepsCreation(rows: seq<Row>, c: Call, now: nat, key: Pk)
    requires Inv(rows, now) && Found(rows, key).Some? && Found(Step(rows, c), key).Some?
    requires c.op.Insert? ==> !Has(rows, c.uuid)
    ensures Found(Step(rows, c), key).value.createdAt == Found(rows, key).value.createdAt
  {
  }

  /** The key is there at the start of the run and after each of its calls. */
  predicate Remains(rows: seq<Row>, run: seq<Call>, key: Pk)
    decreases |run|
  {
    Found(rows, key).Some? && (run != [] ==> Remains(Step(rows, run[0]), run[1..], key))
  }

  /** Creation time is write-once: for as long as a product stays, no run of calls changes it. */
  lemma {:induction false} CreationStands(rows: seq<Row>, run: seq<Call>, now: nat, key: Pk)
    requires Inv(rows, now) && Proper(rows, now, run) && Remains(rows, run, key)
    ensures Found(After(rows, run), key).Some?
    ensures Found(After(rows, run), key).value.createdAt == Found(rows, key).value.createdAt
    decreases |run|
  {
    if run != [] {
      var next := Step(rows, run[0]);
      assert Inv(next, run[0].now) by { StepInv(rows, run[0], now); }
      assert Remains(next, run[1..], key);
      CreationStands(next, run[1..], run[0].now, key);
      assert Found(next, key).value.createdAt == Found(rows, key).value.createdAt by {
        StepKeepsCreation(rows, run[0], now, key);
      }
    }
  }

  /** Over any proper run: every product sits under its own key, keys are distinct, and each product was
      created no later than it was last updated. */
  lemma {:induction false} RunInv(rows: seq<Row>, run: seq<Call>, now: nat)
    requires Inv(rows, now) && Proper(rows, now, run)
    ensures Inv(After(rows, run), if run == [] then now else run[|run| - 1].now)
    decreases |run|
  {
    if run != [] {
      var next := Step(rows, run[0]);
      assert Inv(next, run[0].now) by { StepInv(rows, run[0], now); }
      RunInv(next, run[1..], run[0].now);
      assert |run| > 1 ==> run[1..][|run| - 2] == run[|run| - 1];
    }
  }
}
