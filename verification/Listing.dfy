/** `list_products` of examples/11: optimise, filter, sort, paginate. */
module Listing {
  import opened Wrappers
  import opened Values
  import opened Filter
  import opened Paging
  import opened Sort
  import opened SortDirective

  datatype ListError = ComparisonRaised | UnknownSortField

  // ---------------------------------------------------------------- filtering a list

  function Test(lower: Lower, n: Node, p: Product): Outcome {
    Compile(lower, n)(Attributes(p))
  }

  function Matches(lower: Lower, n: Node): Product -> bool {
    p => Test(lower, n, p) == Outcome.True
  }

  /** The comprehension of `apply_filter`: item by item, giving up at the first that raises. */
  function FilterItems(lower: Lower, n: Node, items: seq<Product>): Result<seq<Product>, ListError>
    decreases |items|
  {
    if items == [] then Success([])
    else
      var kept := FilterItems(lower, n, items[..|items| - 1]);
      if kept.Failure? then kept
      else
        match Test(lower, n, items[|items| - 1])
        case Raises => Failure(ComparisonRaised)
        case True => Success(kept.value + [items[|items| - 1]])
        case False => kept
  }

  function ApplyFilter(lower: Lower, node: Option<Node>, items: seq<Product>): Result<seq<Product>, ListError> {
    if node.None? then Success(items) else FilterItems(lower, node.value, items)
  }

  /** Filtering keeps the matching items in order, and fails exactly when some item makes it raise. */
  lemma {:induction false} FilterItemsMeaning(lower: Lower, n: Node, items: seq<Product>)
    ensures FilterItems(lower, n, items).Failure? <==> exists p :: p in items && Test(lower, n, p) == Raises
    ensures FilterItems(lower, n, items).Success? ==>
      FilterItems(lower, n, items).value == Keep(items, Matches(lower, n))
    decreases |items|
  {
    if items != [] {
      var init, last := items[..|items| - 1], items[|items| - 1];
      FilterItemsMeaning(lower, n, init);
      assert items == init + [last];
    }
  }

  /** The result type has one error for raising comparisons, so equal conditions give equal results. */
  lemma {:induction false} FilterFailsOneWay(lower: Lower, n: Node, items: seq<Product>)
    ensures FilterItems(lower, n, items).Failure? ==> FilterItems(lower, n, items) == Failure(ComparisonRaised)
    decreases |items|
  {
    if items != [] { FilterFailsOneWay(lower, n, items[..|items| - 1]); }
  }

  // ---------------------------------------------------------------- the endpoint

  /** What the endpoint answers, for a parsed filter. */
  function Listed(lower: Lower, catalogue: seq<Product>, node: Option<Node>, sort: Option<string>,
                  limit: Option<nat>, offset: nat): Result<seq<Product>, ListError>
  {
    var filtered := ApplyFilter(lower, node, catalogue);
    var fields := Parsed(sort);
    if filtered.Failure? then filtered
    else if filtered.value != [] && exists d :: d in fields && !Known(d.field) then Failure(UnknownSortField)
    else Success(Page(Passes(filtered.value, fields), offset, limit))
  }

  /** `list_products` itself: the filter is optimised first, and the filtered copy is sorted in place. */
  method ListProducts(lower: Lower, catalogue: seq<Product>, node: Option<Node>, sort: Option<string>,
                      limit: Option<nat>, offset: nat) returns (r: Result<seq<Product>, ListError>)
    ensures r == Listed(lower, catalogue, node, sort, limit, offset)
  {
    var optimized := if node.None? then None else Some(Optimize(node.value));
    OptimizerKeepsResults(lower, node, catalogue);
    var filtered := ApplyFilter(lower, optimized, catalogue);
    if filtered.Failure? { return filtered; }
    var fields := ParseSort(sort);
    var items := new Product[|filtered.value|](i requires 0 <= i < |filtered.value| => filtered.value[i]);
    assert items[..] == filtered.value;
    if fields != [] {
      var ok := ApplySort(items, fields);
      if !ok { return Failure(UnknownSortField); }
    }
    var paginated := items[Min(offset, items.Length)..];
    if limit.Some? { paginated := paginated[..Min(limit.value, |paginated|)]; }
    r := Success(paginated);
  }

  /** Running the optimiser first changes neither the products found nor whether the filter raises. */
  lemma OptimizerKeepsResults(lower: Lower, node: Option<Node>, items: seq<Product>)
    ensures node.Some? ==> ApplyFilter(lower, Some(Optimize(node.value)), items) == ApplyFilter(lower, node, items)
  {
    if node.Some? { OptimizerKeepsItems(lower, node.value, items); }
  }

  lemma {:induction false} OptimizerKeepsItems(lower: Lower, n: Node, items: seq<Product>)
    ensures FilterItems(lower, Optimize(n), items) == FilterItems(lower, n, items)
    decreases |items|
  {
    if items != [] {
      OptimizerKeepsItems(lower, n, items[..|items| - 1]);
      OptimizePreservesMeaning(lower, n, Attributes(items[|items| - 1]));
    }
  }

  /** Filtering a sorted catalogue finds the sorted result of filtering it unsorted. */
  lemma FilterOfSorted(lower: Lower, node: Option<Node>, catalogue: seq<Product>, ds: seq<SortField>)
    ensures var plain := ApplyFilter(lower, node, catalogue);
      ApplyFilter(lower, node, Passes(catalogue, ds)) ==
        if plain.Failure? then plain else Success(Passes(plain.value, ds))
  {
    if node.Some? {
      var n := node.value;
      var sorted := Passes(catalogue, ds);
      PassesAreOneStableSort(catalogue, ds, sorted);
      forall p
        ensures p in sorted <==> p in catalogue
      {
        assert p in sorted <==> p in multiset(sorted);
        assert p in catalogue <==> p in multiset(catalogue);
      }
      FilterItemsMeaning(lower, n, catalogue);
      FilterItemsMeaning(lower, n, sorted);
      FilterFailsOneWay(lower, n, catalogue);
      FilterFailsOneWay(lower, n, sorted);
      SortCommutesWithFilter(catalogue, Matches(lower, n), ds);
    }
  }

  /** Sorting a list that the same directives already sorted changes nothing. */
  lemma SortIsIdempotent(s: seq<Product>, ds: seq<SortField>)
    ensures Passes(Passes(s, ds), ds) == Passes(s, ds)
  {
    PassesSortStably(s, ds);
    PassesAreOneStableSort(Passes(s, ds), ds, Passes(s, ds));
  }

  /** The endpoint gives the same answer, error or page, over a catalogue kept sorted. */
  lemma PresortedCatalogue(lower: Lower, catalogue: seq<Product>, node: Option<Node>, sort: Option<string>,
                           limit: Option<nat>, offset: nat)
    ensures Listed(lower, Passes(catalogue, Parsed(sort)), node, sort, limit, offset)
         == Listed(lower, catalogue, node, sort, limit, offset)
  {
    var ds := Parsed(sort);
    FilterOfSorted(lower, node, catalogue, ds);
    var plain := ApplyFilter(lower, node, catalogue);
    if plain.Success? {
      SortIsIdempotent(plain.value, ds);
      PassesAreOneStableSort(plain.value, ds, []);
      assert |multiset(Passes(plain.value, ds))| == |multiset(plain.value)|;
    }
  }

  // ---------------------------------------------------------------- what the endpoint answers

  /** The product belongs in the answer: there is no filter, or it is classically true of the product. */
  ghost predicate Wanted(lower: Lower, node: Option<Node>, p: Product) {
    node.None? || Holds(lower, node.value, ByName(p))
  }

  /** A product's fields under the names that filters use. */
  function ByName(p: Product): Obj {
    map["id" := Int(p.id), "name" := Str(p.name), "price" := Float(p.price), "category" := Str(p.category),
        "in_stock" := Bool(p.inStock)]
  }

  /** Evaluating the filter on the product raises. */
  ghost predicate Breaks(lower: Lower, node: Option<Node>, p: Product) {
    node.Some? && Compile(lower, node.value)(ByName(p)) == Raises
  }

  lemma {:induction false} KeepCounts(s: seq<Product>, keep: Product -> bool, x: Product)
    ensures multiset(Keep(s, keep))[x] == if keep(x) then multiset(s)[x] else 0
    decreases |s|
  {
    if s != [] {
      var init, last := s[..|s| - 1], s[|s| - 1];
      KeepCounts(init, keep, x);
      assert s == init + [last];
      CountSnoc(init, last, x);
      CountSnoc(Keep(init, keep), last, x);
    }
  }

  /** Filtering fails exactly when some product makes the filter raise; otherwise every wanted product is
      there as often as in the catalogue, and no other. */
  lemma ApplyFilterExactly(lower: Lower, node: Option<Node>, catalogue: seq<Product>)
    ensures var r := ApplyFilter(lower, node, catalogue);
      && (r.Failure? <==> exists p :: p in catalogue && Breaks(lower, node, p))
      && (r.Success? ==> forall x: Product ::
            multiset(r.value)[x] == if Wanted(lower, node, x) then multiset(catalogue)[x] else 0)
  {
    if node.Some? {
      var n := node.value;
      FilterItemsMeaning(lower, n, catalogue);
      assert forall p :: Attributes(p) == ByName(p);
      var r := ApplyFilter(lower, node, catalogue);
      if r.Success? {
        forall x: Product
          ensures multiset(r.value)[x] == if Wanted(lower, node, x) then multiset(catalogue)[x] else 0
        {
          KeepCounts(catalogue, Matches(lower, n), x);
          CompiledMeaning(lower, n, ByName(x));
          assert x in catalogue <==> multiset(catalogue)[x] > 0;
        }
      }
    }
  }

  /** When the endpoint answers with an error: the filter raises on a product, or else products are wanted
      and a sort field is unknown. */
  lemma ListedErrors(lower: Lower, catalogue: seq<Product>, node: Option<Node>, sort: Option<string>,
                     limit: Option<nat>, offset: nat)
    ensures var r := Listed(lower, catalogue, node, sort, limit, offset);
      && (r == Failure(ComparisonRaised) <==> exists p :: p in catalogue && Breaks(lower, node, p))
      && (r == Failure(UnknownSortField) <==>
            && (forall p :: p in catalogue ==> !Breaks(lower, node, p))
            && (exists p :: p in catalogue && Wanted(lower, node, p))
            && (exists d :: d in Parsed(sort) && !Known(d.field)))
  {
    ApplyFilterExactly(lower, node, catalogue);
    if node.Some? { FilterFailsOneWay(lower, node.value, catalogue); }
    var filtered := ApplyFilter(lower, node, catalogue);
    if filtered.Success? { SomeWanted(lower, node, catalogue, filtered.value); }
  }

  /** What the endpoint answers otherwise, in the catalogue's own terms: the requested page of a list that
      holds every wanted product as often as the catalogue does and no other, any two products standing in
      the direction of the first directive on which they differ. */
  lemma ListedMeans(lower: Lower, catalogue: seq<Product>, node: Option<Node>, sort: Option<string>,
                    limit: Option<nat>, offset: nat) returns (all: seq<Product>)
    requires Listed(lower, catalogue, node, sort, limit, offset).Success?
    ensures Listed(lower, catalogue, node, sort, limit, offset).value == Page(all, offset, limit)
    ensures forall x: Product :: multiset(all)[x] == if Wanted(lower, node, x) then multiset(catalogue)[x] else 0
    ensures InOrder(all, Parsed(sort))
  {
    ApplyFilterExactly(lower, node, catalogue);
    var found := ApplyFilter(lower, node, catalogue).value;
    all := Passes(found, Parsed(sort));
    PassesAreOneStableSort(found, Parsed(sort), all);
    AllInOrder(found, Parsed(sort));
  }

  ghost predicate InOrder(all: seq<Product>, ds: seq<SortField>) {
    forall i, j, k :: 0 <= i < j < |all| && 0 <= k < |ds| ==> RightWay(ds, k, all[i], all[j])
  }

  lemma AllInOrder(s: seq<Product>, ds: seq<SortField>)
    ensures InOrder(Passes(s, ds), ds)
  {
    forall i, j | 0 <= i < j < |Passes(s, ds)|
      ensures forall k :: 0 <= k < |ds| ==> RightWay(ds, k, Passes(s, ds)[i], Passes(s, ds)[j])
    {
      PassesInOrder(s, ds, i, j);
    }
  }

  lemma SomeWanted(lower: Lower, node: Option<Node>, catalogue: seq<Product>, found: seq<Product>)
    requires forall x: Product ::
      multiset(found)[x] == if Wanted(lower, node, x) then multiset(catalogue)[x] else 0
    ensures found != [] <==> exists p :: p in catalogue && Wanted(lower, node, p)
  {
    if found != [] {
      assert multiset(found)[found[0]] > 0;
      assert found[0] in multiset(catalogue);
    }
    if p :| p in catalogue && Wanted(lower, node, p) {
      assert multiset(catalogue)[p] > 0;
      assert p in multiset(found);
    }
  }
}
