/** Multi-key sorting of examples/11: repeated stable passes over the list, lowest priority first. */
module Sort {
  import opened Wrappers
  import opened Values

  datatype Product = Product(id: int, name: string, price: real, category: string, inStock: bool)

  datatype Order = ASC | DESC

  datatype SortField = SortField(field: string, order: Order)

  function Attributes(p: Product): map<string, Value> {
    map["id" := Int(p.id), "name" := Str(p.name), "price" := Float(p.price),
        "category" := Str(p.category), "in_stock" := Bool(p.inStock)]
  }

  predicate Known(field: string) {
    field == "id" || field == "name" || field == "price" || field == "category" || field == "in_stock"
  }

  // ---------------------------------------------------------------- the orders

  /** The key of `p` is not greater than that of `q`. */
  predicate NotAbove(field: string, p: Product, q: Product) {
    field in Attributes(p) && field in Attributes(q) ==>
      Less(Attributes(q)[field], Attributes(p)[field]) != Some(true)
  }

  /** `p` may stand before `q` as far as this directive is concerned. */
  predicate Before(d: SortField, p: Product, q: Product) {
    if d.order == ASC then NotAbove(d.field, p, q) else NotAbove(d.field, q, p)
  }

  /** Lexicographic order over the directives, the first one deciding first. */
  predicate Leq(ds: seq<SortField>, p: Product, q: Product)
    decreases |ds|
  {
    ds == [] || (Before(ds[0], p, q) && (Before(ds[0], q, p) ==> Leq(ds[1..], p, q)))
  }

  predicate Tied(ds: seq<SortField>, p: Product, q: Product) {
    Leq(ds, p, q) && Leq(ds, q, p)
  }

  /** Sorting never raises on the fields of a product: their keys can always be compared. */
  lemma KnownKeysCompare(field: string, p: Product, q: Product)
    ensures field in Attributes(p) <==> Known(field)
    ensures Known(field) ==> Less(Attributes(p)[field], Attributes(q)[field]).Some?
  {
  }

  lemma BeforeIsTotalPreorder(d: SortField, p: Product, q: Product, r: Product)
    ensures Before(d, p, p)
    ensures Before(d, p, q) || Before(d, q, p)
    ensures Before(d, p, q) && Before(d, q, r) ==> Before(d, p, r)
  {
    if Known(d.field) {
      var a, b, c := Attributes(p)[d.field], Attributes(q)[d.field], Attributes(r)[d.field];
      KnownKeysCompare(d.field, p, q);
      KnownKeysCompare(d.field, q, r);
      KnownKeysCompare(d.field, p, r);
      NotLessIsTotalPreorder(a, a, a);
      NotLessIsTotalPreorder(a, b, c);
      NotLessIsTotalPreorder(c, b, a);
      assert Less(b, a).Some? && Less(c, b).Some? && Less(c, a).Some? && Less(a, c).Some?;
    }
  }

  lemma {:induction false} LeqIsTotalPreorder(ds: seq<SortField>, p: Product, q: Product, r: Product)
    ensures Leq(ds, p, p)
    ensures Leq(ds, p, q) || Leq(ds, q, p)
    ensures Leq(ds, p, q) && Leq(ds, q, r) ==> Leq(ds, p, r)
    decreases |ds|
  {
    if ds != [] {
      BeforeIsTotalPreorder(ds[0], p, q, r);
      BeforeIsTotalPreorder(ds[0], r, p, q);
      BeforeIsTotalPreorder(ds[0], q, r, p);
      LeqIsTotalPreorder(ds[1..], p, q, r);
    }
  }

  lemma SingleLeq(d: SortField, p: Product, q: Product)
    ensures Leq([d], p, q) == Before(d, p, q)
  {
    assert Leq([d][1..], p, q);
  }

  lemma TiedSplits(ds: seq<SortField>, p: Product, q: Product)
    requires ds != []
    ensures Tied(ds, p, q) <==> Tied([ds[0]], p, q) && Tied(ds[1..], p, q)
  {
    SingleLeq(ds[0], p, q);
    SingleLeq(ds[0], q, p);
  }

  lemma StrictlyApart(ds: seq<SortField>, x: Product, y: Product, c: Product)
    requires !Leq(ds, y, x)
    ensures !(Tied(ds, x, c) && Tied(ds, y, c))
  {
    LeqIsTotalPreorder(ds, y, c, x);
  }

  // ---------------------------------------------------------------- what a stable sort is

  /** The products of `s` tied with `c`, in their order in `s`. */
  function Ties(s: seq<Product>, ds: seq<SortField>, c: Product): seq<Product>
    decreases |s|
  {
    if s == [] then []
    else Ties(s[..|s| - 1], ds, c) + if Tied(ds, s[|s| - 1], c) then [s[|s| - 1]] else []
  }

  ghost predicate Sorted(s: seq<Product>, ds: seq<SortField>) {
    forall i, j :: 0 <= i < j < |s| ==> Leq(ds, s[i], s[j])
  }

  /** `r` rearranges `s` without changing the order of tied products. */
  ghost predicate Stable(r: seq<Product>, s: seq<Product>, ds: seq<SortField>) {
    forall c :: Ties(r, ds, c) == Ties(s, ds, c)
  }

  lemma {:induction false} TiesConcat(a: seq<Product>, b: seq<Product>, ds: seq<SortField>, c: Product)
    ensures Ties(a + b, ds, c) == Ties(a, ds, c) + Ties(b, ds, c)
    decreases |b|
  {
    if b == [] {
      assert a + b == a;
    } else {
      var init := b[..|b| - 1];
      assert (a + b)[..|a + b| - 1] == a + init;
      TiesConcat(a, init, ds, c);
    }
  }

  lemma {:induction false} InTies(s: seq<Product>, ds: seq<SortField>, c: Product, x: Product)
    ensures x in Ties(s, ds, c) <==> x in s && Tied(ds, x, c)
    decreases |s|
  {
    if s != [] {
      var init := s[..|s| - 1];
      InTies(init, ds, c, x);
      assert s == init + [s[|s| - 1]];
    }
  }

  /** Keeping ties in order means, in particular, being a permutation. */
  lemma {:induction false} TiesCount(s: seq<Product>, ds: seq<SortField>, x: Product)
    ensures multiset(s)[x] == multiset(Ties(s, ds, x))[x]
    decreases |s|
  {
    if s != [] {
      var init, last := s[..|s| - 1], s[|s| - 1];
      TiesCount(init, ds, x);
      assert x == last ==> Tied(ds, last, x) by { LeqIsTotalPreorder(ds, x, x, x); }
      assert s == init + [last];
      CountSnoc(init, last, x);
      CountSnoc(Ties(init, ds, x), last, x);
    }
  }

  lemma CountSnoc(s: seq<Product>, last: Product, x: Product)
    ensures multiset(s + [last])[x] == multiset(s)[x] + if last == x then 1 else 0
  {
  }

  lemma StableIsPermutation(r: seq<Product>, s: seq<Product>, ds: seq<SortField>)
    requires Stable(r, s, ds)
    ensures multiset(r) == multiset(s)
  {
    forall x: Product
      ensures multiset(r)[x] == multiset(s)[x]
    {
      TiesCount(r, ds, x);
      TiesCount(s, ds, x);
      assert Ties(r, ds, x) == Ties(s, ds, x);
    }
  }

  lemma SortedPrefix(s: seq<Product>, ds: seq<SortField>)
    requires s != [] && Sorted(s, ds)
    ensures Sorted(s[..|s| - 1], ds)
    ensures forall x :: x in s ==> Leq(ds, x, s[|s| - 1])
  {
    LeqIsTotalPreorder(ds, s[|s| - 1], s[|s| - 1], s[|s| - 1]);
  }

  lemma SortedSnoc(s: seq<Product>, x: Product, ds: seq<SortField>)
    requires Sorted(s, ds) && forall y :: y in s ==> Leq(ds, y, x)
    ensures Sorted(s + [x], ds)
  {
  }

  /** Two sorted lists with the same ties end in the same product. */
  lemma SameLast(a: seq<Product>, b: seq<Product>, ds: seq<SortField>)
    requires a != [] && Sorted(a, ds) && Sorted(b, ds) && Stable(a, b, ds)
    ensures b != [] && a[|a| - 1] == b[|b| - 1]
  {
    var x := a[|a| - 1];
    LeqIsTotalPreorder(ds, x, x, x);
    InTies(a, ds, x, x);
    assert Ties(a, ds, x) == Ties(b, ds, x);
    InTies(b, ds, x, x);
    var y := b[|b| - 1];
    LeqIsTotalPreorder(ds, y, y, y);
    InTies(b, ds, y, y);
    assert Ties(a, ds, y) == Ties(b, ds, y);
    InTies(a, ds, y, y);
    SortedPrefix(a, ds);
    SortedPrefix(b, ds);
    assert Tied(ds, y, x);
    assert Ties(a, ds, x)[|Ties(a, ds, x)| - 1] == x && Ties(b, ds, x)[|Ties(b, ds, x)| - 1] == y;
  }

  lemma {:induction false} TiesWithoutLast(a: seq<Product>, b: seq<Product>, ds: seq<SortField>, c: Product)
    requires a != [] && b != [] && a[|a| - 1] == b[|b| - 1] && Ties(a, ds, c) == Ties(b, ds, c)
    ensures Ties(a[..|a| - 1], ds, c) == Ties(b[..|b| - 1], ds, c)
  {
    var t, u := Ties(a, ds, c), Ties(b, ds, c);
    if Tied(ds, a[|a| - 1], c) {
      assert Ties(a[..|a| - 1], ds, c) == t[..|t| - 1];
      assert Ties(b[..|b| - 1], ds, c) == u[..|u| - 1];
    } else {
      assert Ties(a[..|a| - 1], ds, c) == t && Ties(b[..|b| - 1], ds, c) == u;
    }
  }

  lemma NoTiesNoProducts(s: seq<Product>, ds: seq<SortField>)
    requires forall c :: Ties(s, ds, c) == []
    ensures s == []
  {
    if s != [] {
      LeqIsTotalPreorder(ds, s[0], s[0], s[0]);
      InTies(s, ds, s[0], s[0]);
    }
  }

  /** There is only one stable sort of a list. */
  lemma {:induction false} StableSortIsUnique(a: seq<Product>, b: seq<Product>, ds: seq<SortField>)
    requires Sorted(a, ds) && Sorted(b, ds) && Stable(a, b, ds)
    ensures a == b
    decreases |a|
  {
    if a == [] {
      forall c
        ensures Ties(b, ds, c) == []
      {
        assert Ties(a, ds, c) == Ties(b, ds, c);
      }
      NoTiesNoProducts(b, ds);
    } else {
      SameLast(a, b, ds);
      var a', b' := a[..|a| - 1], b[..|b| - 1];
      SortedPrefix(a, ds);
      SortedPrefix(b, ds);
      forall c
        ensures Ties(a', ds, c) == Ties(b', ds, c)
      {
        assert Ties(a, ds, c) == Ties(b, ds, c);
        TiesWithoutLast(a, b, ds, c);
      }
      StableSortIsUnique(a', b', ds);
      assert a == a' + [a[|a| - 1]] && b == b' + [b[|b| - 1]];
    }
  }

  // ---------------------------------------------------------------- computing it

  /** Puts `x` behind everything that may stand before it. */
  function Insert(s: seq<Product>, x: Product, ds: seq<SortField>): seq<Product>
    decreases |s|
  {
    if s == [] || Leq(ds, s[|s| - 1], x) then s + [x]
    else Insert(s[..|s| - 1], x, ds) + [s[|s| - 1]]
  }

  function StableSort(s: seq<Product>, ds: seq<SortField>): seq<Product>
    decreases |s|
  {
    if s == [] then [] else Insert(StableSort(s[..|s| - 1], ds), s[|s| - 1], ds)
  }

  lemma {:induction false} InsertElements(s: seq<Product>, x: Product, ds: seq<SortField>)
    ensures multiset(Insert(s, x, ds)) == multiset(s) + multiset{x}
    decreases |s|
  {
    if s != [] && !Leq(ds, s[|s| - 1], x) {
      InsertElements(s[..|s| - 1], x, ds);
      assert s == s[..|s| - 1] + [s[|s| - 1]];
    }
  }

  lemma {:induction false} InsertSorted(s: seq<Product>, x: Product, ds: seq<SortField>)
    requires Sorted(s, ds)
    ensures Sorted(Insert(s, x, ds), ds)
    decreases |s|
  {
    if s != [] {
      var last := s[|s| - 1];
      SortedPrefix(s, ds);
      if Leq(ds, last, x) {
        forall y | y in s
          ensures Leq(ds, y, x)
        {
          LeqIsTotalPreorder(ds, y, last, x);
        }
      } else {
        var r := Insert(s[..|s| - 1], x, ds);
        InsertSorted(s[..|s| - 1], x, ds);
        InsertElements(s[..|s| - 1], x, ds);
        LeqIsTotalPreorder(ds, x, last, last);
        forall i | 0 <= i < |r|
          ensures Leq(ds, r[i], last)
        {
          assert r[i] in multiset(r);
          assert r[i] == x || r[i] in s[..|s| - 1];
        }
      }
    }
  }

  lemma TiesSwap(ds: seq<SortField>, x: Product, y: Product, c: Product)
    requires !(Tied(ds, x, c) && Tied(ds, y, c))
    ensures Ties([x], ds, c) == [] || Ties([y], ds, c) == []
  {
    assert [x][..0] == [] && [y][..0] == [];
  }

  /** Neighbours that are not both tied with `c` may change places. */
  lemma SwapKeepsTies(init: seq<Product>, x: Product, y: Product, ds: seq<SortField>, c: Product)
    requires !(Tied(ds, x, c) && Tied(ds, y, c))
    ensures Ties(init + [x], ds, c) + Ties([y], ds, c) == Ties(init + [y], ds, c) + Ties([x], ds, c)
  {
    TiesConcat(init, [x], ds, c);
    TiesConcat(init, [y], ds, c);
    TiesSwap(ds, x, y, c);
    SwapEmpty(Ties(init, ds, c), Ties([x], ds, c), Ties([y], ds, c));
  }

  lemma SwapEmpty(a: seq<Product>, b: seq<Product>, c: seq<Product>)
    requires b == [] || c == []
    ensures a + b + c == a + c + b
  {
  }

  lemma {:induction false} InsertTies(s: seq<Product>, x: Product, ds: seq<SortField>, c: Product)
    ensures Ties(Insert(s, x, ds), ds, c) == Ties(s + [x], ds, c)
    decreases |s|
  {
    if s != [] && !Leq(ds, s[|s| - 1], x) {
      var init, last := s[..|s| - 1], s[|s| - 1];
      InsertTies(init, x, ds, c);
      InsertBeforeLast(init, last, x, ds, c);
      assert s == init + [last];
    }
  }

  lemma InsertBeforeLast(init: seq<Product>, last: Product, x: Product, ds: seq<SortField>, c: Product)
    requires !Leq(ds, last, x) && Ties(Insert(init, x, ds), ds, c) == Ties(init + [x], ds, c)
    ensures Ties(Insert(init, x, ds) + [last], ds, c) == Ties(init + [last] + [x], ds, c)
  {
    StrictlyApart(ds, x, last, c);
    TiesConcat(Insert(init, x, ds), [last], ds, c);
    SwapKeepsTies(init, x, last, ds, c);
    TiesConcat(init + [last], [x], ds, c);
  }

  lemma {:induction false} StableSortSorts(s: seq<Product>, ds: seq<SortField>)
    ensures Sorted(StableSort(s, ds), ds)
    decreases |s|
  {
    if s != [] {
      StableSortSorts(s[..|s| - 1], ds);
      InsertSorted(StableSort(s[..|s| - 1], ds), s[|s| - 1], ds);
    }
  }

  lemma {:induction false} StableSortKeepsTies(s: seq<Product>, ds: seq<SortField>, c: Product)
    ensures Ties(StableSort(s, ds), ds, c) == Ties(s, ds, c)
    decreases |s|
  {
    if s != [] {
      var init, last := s[..|s| - 1], s[|s| - 1];
      StableSortKeepsTies(init, ds, c);
      SnocKeepsTies(init, last, ds, c);
      assert s == init + [last];
    }
  }

  lemma SnocKeepsTies(init: seq<Product>, last: Product, ds: seq<SortField>, c: Product)
    requires Ties(StableSort(init, ds), ds, c) == Ties(init, ds, c)
    ensures Ties(StableSort(init + [last], ds), ds, c) == Ties(init + [last], ds, c)
  {
    assert (init + [last])[..|init|] == init;
    assert StableSort(init + [last], ds) == Insert(StableSort(init, ds), last, ds);
    InsertKeepsTies(StableSort(init, ds), init, last, ds, c);
  }

  lemma InsertKeepsTies(sorted: seq<Product>, init: seq<Product>, last: Product, ds: seq<SortField>, c: Product)
    requires Ties(sorted, ds, c) == Ties(init, ds, c)
    ensures Ties(Insert(sorted, last, ds), ds, c) == Ties(init + [last], ds, c)
  {
    InsertTies(sorted, last, ds, c);
    TiesConcat(sorted, [last], ds, c);
    TiesConcat(init, [last], ds, c);
  }

  lemma {:induction false} StableSortIsStable(s: seq<Product>, ds: seq<SortField>)
    ensures Sorted(StableSort(s, ds), ds) && Stable(StableSort(s, ds), s, ds)
  {
    StableSortSorts(s, ds);
    forall c
      ensures Ties(StableSort(s, ds), ds, c) == Ties(s, ds, c)
    {
      StableSortKeepsTies(s, ds, c);
    }
  }

  // ---------------------------------------------------------------- one pass per directive

  /** The passes of `_apply_sort`: the last directive first. */
  function Passes(s: seq<Product>, ds: seq<SortField>): seq<Product>
    decreases |ds|
  {
    if ds == [] then s else StableSort(Passes(s, ds[1..]), [ds[0]])
  }

  lemma {:induction false} TiesOfTies(s: seq<Product>, ds: seq<SortField>, c: Product)
    requires ds != []
    ensures Ties(s, ds, c) == Ties(Ties(s, [ds[0]], c), ds[1..], c)
    ensures Ties(s, ds, c) == Ties(Ties(s, ds[1..], c), [ds[0]], c)
    decreases |s|
  {
    if s != [] {
      var init, last := s[..|s| - 1], s[|s| - 1];
      TiesOfTies(init, ds, c);
      TiedSplits(ds, last, c);
      var one := if Tied([ds[0]], last, c) then [last] else [];
      TiesConcat(Ties(init, [ds[0]], c), one, ds[1..], c);
      var rest := if Tied(ds[1..], last, c) then [last] else [];
      TiesConcat(Ties(init, ds[1..], c), rest, [ds[0]], c);
      assert Ties([last], ds[1..], c) == rest && Ties([last], [ds[0]], c) == one;
    }
  }

  lemma {:induction false} TiesSorted(s: seq<Product>, ts: seq<SortField>, ds: seq<SortField>, c: Product)
    requires Sorted(s, ds)
    ensures Sorted(Ties(s, ts, c), ds)
    decreases |s|
  {
    if s != [] {
      var init := s[..|s| - 1];
      SortedPrefix(s, ds);
      TiesSorted(init, ts, ds, c);
      forall x | x in Ties(init, ts, c)
        ensures Leq(ds, x, s[|s| - 1])
      {
        InTies(init, ts, c, x);
      }
      SortedSnoc(Ties(init, ts, c), s[|s| - 1], ds);
    }
  }

  /** Tied products come in the same order in the list of ties as in the list. */
  lemma TiesOrder(s: seq<Product>, ds: seq<SortField>, i: nat, j: nat) returns (i': nat, j': nat)
    requires i < j < |s| && Tied(ds, s[i], s[j])
    ensures var t := Ties(s, ds, s[j]); i' < j' < |t| && t[i'] == s[i] && t[j'] == s[j]
  {
    var c := s[j];
    LeqIsTotalPreorder(ds, c, c, c);
    TiesConcat(s[..j], s[j..], ds, c);
    assert s == s[..j] + s[j..];
    InTies(s[..j], ds, c, s[i]);
    assert s[i] in s[..j];
    InTies(s[j..], ds, c, c);
    assert c == s[j..][0];
    i' :| 0 <= i' < |Ties(s[..j], ds, c)| && Ties(s[..j], ds, c)[i'] == s[i];
    var k :| 0 <= k < |Ties(s[j..], ds, c)| && Ties(s[j..], ds, c)[k] == c;
    j' := |Ties(s[..j], ds, c)| + k;
  }

  /** A stable pass on the leading directive refines the order the earlier passes made. */
  lemma PassSorts(t: seq<Product>, ds: seq<SortField>)
    requires ds != [] && Sorted(t, ds[1..])
    ensures Sorted(StableSort(t, [ds[0]]), ds)
  {
    var d := [ds[0]];
    var r := StableSort(t, d);
    StableSortSorts(t, d);
    forall i, j | 0 <= i < j < |r|
      ensures Leq(ds, r[i], r[j])
    {
      assert Leq(d, r[i], r[j]);
      if Before(ds[0], r[j], r[i]) {
        assert Tied(d, r[i], r[j]);
        var i', j' := TiesOrder(r, d, i, j);
        StableSortKeepsTies(t, d, r[j]);
        TiesSorted(t, d, ds[1..], r[j]);
        assert Leq(ds[1..], r[i], r[j]);
      }
    }
  }

  lemma PassStable(t: seq<Product>, s: seq<Product>, ds: seq<SortField>, c: Product)
    requires ds != [] && Ties(t, ds[1..], c) == Ties(s, ds[1..], c)
    ensures Ties(StableSort(t, [ds[0]]), ds, c) == Ties(s, ds, c)
  {
    TiesOfTies(StableSort(t, [ds[0]]), ds, c);
    StableSortKeepsTies(t, [ds[0]], c);
    TiesOfTies(t, ds, c);
    TiesOfTies(s, ds, c);
  }

  lemma {:induction false} PassesSortStably(s: seq<Product>, ds: seq<SortField>)
    ensures Sorted(Passes(s, ds), ds) && Stable(Passes(s, ds), s, ds)
    decreases |ds|
  {
    if ds != [] {
      var t := Passes(s, ds[1..]);
      PassesSortStably(s, ds[1..]);
      PassSorts(t, ds);
      forall c
        ensures Ties(Passes(s, ds), ds, c) == Ties(s, ds, c)
      {
        assert Ties(t, ds[1..], c) == Ties(s, ds[1..], c);
        PassStable(t, s, ds, c);
      }
    }
  }

  /** The passes, lowest priority first and each ascending or descending, do what one stable sort by the
      lexicographic order does, and no other arrangement is sorted and stable. */
  lemma {:induction false} PassesAreOneStableSort(s: seq<Product>, ds: seq<SortField>, r: seq<Product>)
    ensures Passes(s, ds) == StableSort(s, ds)
    ensures Sorted(r, ds) && Stable(r, s, ds) <==> r == Passes(s, ds)
    ensures multiset(Passes(s, ds)) == multiset(s)
  {
    var p := Passes(s, ds);
    PassesSortStably(s, ds);
    StableSortIsStable(s, ds);
    StableIsPermutation(p, s, ds);
    forall c
      ensures Ties(p, ds, c) == Ties(StableSort(s, ds), ds, c)
    {
      assert Ties(p, ds, c) == Ties(s, ds, c) == Ties(StableSort(s, ds), ds, c);
    }
    StableSortIsUnique(p, StableSort(s, ds), ds);
    if Sorted(r, ds) && Stable(r, s, ds) {
      forall c
        ensures Ties(r, ds, c) == Ties(p, ds, c)
      {
        assert Ties(r, ds, c) == Ties(s, ds, c) == Ties(p, ds, c);
      }
      StableSortIsUnique(r, p, ds);
    }
  }

  // ---------------------------------------------------------------- what the order is

  /** The products have the same value in the field. */
  predicate SameKey(field: string, p: Product, q: Product) {
    && (field == "id" ==> p.id == q.id)
    && (field == "name" ==> p.name == q.name)
    && (field == "price" ==> p.price == q.price)
    && (field == "category" ==> p.category == q.category)
    && (field == "in_stock" ==> p.inStock == q.inStock)
  }

  /** The value of `p` in the field is not above that of `q`: numbers by size, false before true, strings by
      the dictionary. */
  ghost predicate KeyUpTo(field: string, p: Product, q: Product) {
    && (field == "id" ==> p.id <= q.id)
    && (field == "name" ==> p.name == q.name || exists k: nat :: FallsBehindAt(p.name, q.name, k))
    && (field == "price" ==> p.price <= q.price)
    && (field == "category" ==> p.category == q.category || exists k: nat :: FallsBehindAt(p.category, q.category, k))
    && (field == "in_stock" ==> p.inStock ==> q.inStock)
  }

  lemma UpToExactly(a: string, b: string)
    ensures !StrLess(b, a) <==> a == b || exists k: nat :: FallsBehindAt(a, b, k)
  {
    StrLessExactly(a, b);
    StrLessTotal(a, b);
    StrLessAsymmetric(a, b);
  }

  lemma NotAboveExactly(field: string, p: Product, q: Product)
    ensures NotAbove(field, p, q) <==> KeyUpTo(field, p, q)
  {
    if field == "name" {
      UpToExactly(p.name, q.name);
    } else if field == "category" {
      UpToExactly(p.category, q.category);
    } else {
      KnownKeysCompare(field, p, q);
      KnownKeysCompare(field, q, p);
    }
  }

  /** ASC runs up and DESC runs down. */
  lemma BeforeExactly(field: string, p: Product, q: Product)
    ensures Before(SortField(field, ASC), p, q) <==> KeyUpTo(field, p, q)
    ensures Before(SortField(field, DESC), p, q) <==> KeyUpTo(field, q, p)
  {
    NotAboveExactly(field, p, q);
    NotAboveExactly(field, q, p);
  }

  lemma SameKeyExactly(field: string, p: Product, q: Product)
    ensures SameKey(field, p, q) <==> KeyUpTo(field, p, q) && KeyUpTo(field, q, p)
  {
    UpToExactly(p.name, q.name);
    UpToExactly(q.name, p.name);
    UpToExactly(p.category, q.category);
    UpToExactly(q.category, p.category);
    StrLessTotal(p.name, q.name);
    StrLessTotal(p.category, q.category);
  }

  /** As far as the directives before number `k` go, the products are alike. */
  ghost predicate SameBefore(ds: seq<SortField>, k: nat, p: Product, q: Product)
    requires k <= |ds|
  {
    forall m :: 0 <= m < k ==> SameKey(ds[m].field, p, q)
  }

  /** Directive number `k`, if it has a say, puts the products in its own direction. */
  ghost predicate RightWay(ds: seq<SortField>, k: nat, p: Product, q: Product)
    requires k < |ds|
  {
    SameBefore(ds, k, p, q) ==>
      if ds[k].order == ASC then KeyUpTo(ds[k].field, p, q) else KeyUpTo(ds[k].field, q, p)
  }

  lemma {:induction false} LeqExactly(ds: seq<SortField>, p: Product, q: Product)
    ensures Leq(ds, p, q) <==> forall k :: 0 <= k < |ds| ==> RightWay(ds, k, p, q)
    decreases |ds|
  {
    if ds != [] {
      var rest := ds[1..];
      BeforeExactly(ds[0].field, p, q);
      BeforeExactly(ds[0].field, q, p);
      SameKeyExactly(ds[0].field, p, q);
      LeqExactly(rest, p, q);
      assert RightWay(ds, 0, p, q) <==> Before(ds[0], p, q);
      forall k | 0 <= k < |rest|
        ensures SameKey(ds[0].field, p, q) ==> (RightWay(rest, k, p, q) <==> RightWay(ds, k + 1, p, q))
        ensures !SameKey(ds[0].field, p, q) ==> RightWay(ds, k + 1, p, q)
      {
        RestIsRightWay(ds, k, p, q);
      }
      assert forall k :: 1 <= k < |ds| ==> rest[k - 1] == ds[k];
      if forall k :: 0 <= k < |ds| ==> RightWay(ds, k, p, q) {
        assert Before(ds[0], p, q);
        forall k | 0 <= k < |rest| && SameKey(ds[0].field, p, q)
          ensures RightWay(rest, k, p, q)
        {
          assert RightWay(ds, k + 1, p, q);
        }
      }
      if Leq(ds, p, q) {
        forall k | 0 <= k < |ds|
          ensures RightWay(ds, k, p, q)
        {
          if k > 0 && SameKey(ds[0].field, p, q) { assert RightWay(rest, k - 1, p, q); }
        }
      }
    }
  }

  lemma RestIsRightWay(ds: seq<SortField>, k: nat, p: Product, q: Product)
    requires k + 1 < |ds|
    ensures SameKey(ds[0].field, p, q) ==> (RightWay(ds[1..], k, p, q) <==> RightWay(ds, k + 1, p, q))
    ensures !SameKey(ds[0].field, p, q) ==> RightWay(ds, k + 1, p, q)
  {
    assert forall m :: 0 <= m < k ==> ds[1..][m] == ds[m + 1];
    assert SameBefore(ds, k + 1, p, q) <==> SameKey(ds[0].field, p, q) && SameBefore(ds[1..], k, p, q) by {
      if SameKey(ds[0].field, p, q) && SameBefore(ds[1..], k, p, q) {
        forall m | 0 <= m < k + 1
          ensures SameKey(ds[m].field, p, q)
        {
          if m > 0 { assert SameKey(ds[1..][m - 1].field, p, q); }
        }
      }
      if SameBefore(ds, k + 1, p, q) {
        forall m | 0 <= m < k
          ensures SameKey(ds[1..][m].field, p, q)
        {
          assert SameKey(ds[m + 1].field, p, q);
        }
      }
    }
  }

  /** The sorted list, in the products' own terms: any two products are in the direction of the first
      directive on which they differ, and products that differ on none are tied. */
  lemma PassesInOrder(s: seq<Product>, ds: seq<SortField>, i: nat, j: nat)
    requires i < j < |Passes(s, ds)|
    ensures forall k :: 0 <= k < |ds| ==> RightWay(ds, k, Passes(s, ds)[i], Passes(s, ds)[j])
  {
    PassesSortStably(s, ds);
    LeqExactly(ds, Passes(s, ds)[i], Passes(s, ds)[j]);
  }

  /** Tied means alike in every field the directives name. */
  lemma TiedExactly(ds: seq<SortField>, p: Product, q: Product)
    ensures Tied(ds, p, q) <==> SameBefore(ds, |ds|, p, q)
  {
    LeqExactly(ds, p, q);
    LeqExactly(ds, q, p);
    if Tied(ds, p, q) {
      SameUpTo(ds, |ds|, p, q);
    }
    if SameBefore(ds, |ds|, p, q) {
      forall k | 0 <= k < |ds|
        ensures RightWay(ds, k, p, q) && RightWay(ds, k, q, p)
      {
        assert SameKey(ds[k].field, p, q);
        SameKeyExactly(ds[k].field, p, q);
      }
    }
  }

  lemma {:induction false} SameUpTo(ds: seq<SortField>, n: nat, p: Product, q: Product)
    requires n <= |ds|
    requires forall k :: 0 <= k < |ds| ==> RightWay(ds, k, p, q) && RightWay(ds, k, q, p)
    ensures SameBefore(ds, n, p, q)
  {
    if n > 0 {
      SameUpTo(ds, n - 1, p, q);
      assert RightWay(ds, n - 1, p, q) && RightWay(ds, n - 1, q, p);
      assert SameBefore(ds, n - 1, q, p);
      SameKeyExactly(ds[n - 1].field, p, q);
    }
  }

  /** One key, both ways, field by field. */
  lemma OneKeyOrder(s: seq<Product>, field: string, i: nat, j: nat)
    requires i < j < |s|
    ensures var up, down := Passes(s, [SortField(field, ASC)]), Passes(s, [SortField(field, DESC)]);
      && |up| == |down| == |s|
      && (field == "price" ==> up[i].price <= up[j].price && down[i].price >= down[j].price)
      && (field == "id" ==> up[i].id <= up[j].id && down[i].id >= down[j].id)
      && (field == "in_stock" ==> (up[i].inStock ==> up[j].inStock) && (down[j].inStock ==> down[i].inStock))
      && (field == "name" ==> KeyUpTo("name", up[i], up[j]) && KeyUpTo("name", down[j], down[i]))
      && (field == "category" ==> KeyUpTo("category", up[i], up[j]) && KeyUpTo("category", down[j], down[i]))
  {
    var a, d := [SortField(field, ASC)], [SortField(field, DESC)];
    StableSortLength(s, a);
    StableSortLength(s, d);
    assert Passes(s, a[1..]) == s && Passes(s, d[1..]) == s;
    PassesInOrder(s, a, i, j);
    PassesInOrder(s, d, i, j);
    assert RightWay(a, 0, Passes(s, a)[i], Passes(s, a)[j]) && RightWay(d, 0, Passes(s, d)[i], Passes(s, d)[j]);
  }

  // ---------------------------------------------------------------- sorting and filtering

  function Keep(s: seq<Product>, keep: Product -> bool): seq<Product>
    decreases |s|
  {
    if s == [] then []
    else Keep(s[..|s| - 1], keep) + if keep(s[|s| - 1]) then [s[|s| - 1]] else []
  }

  lemma {:induction false} InKeep(s: seq<Product>, keep: Product -> bool, x: Product)
    ensures x in Keep(s, keep) <==> x in s && keep(x)
    decreases |s|
  {
    if s != [] {
      InKeep(s[..|s| - 1], keep, x);
      assert s == s[..|s| - 1] + [s[|s| - 1]];
    }
  }

  lemma {:induction false} KeepConcat(a: seq<Product>, b: seq<Product>, keep: Product -> bool)
    ensures Keep(a + b, keep) == Keep(a, keep) + Keep(b, keep)
    decreases |b|
  {
    if b == [] {
      assert a + b == a;
    } else {
      assert (a + b)[..|a + b| - 1] == a + b[..|b| - 1];
      KeepConcat(a, b[..|b| - 1], keep);
    }
  }

  lemma {:induction false} KeepSorted(s: seq<Product>, keep: Product -> bool, ds: seq<SortField>)
    requires Sorted(s, ds)
    ensures Sorted(Keep(s, keep), ds)
    decreases |s|
  {
    if s != [] {
      var init := s[..|s| - 1];
      SortedPrefix(s, ds);
      KeepSorted(init, keep, ds);
      forall x | x in Keep(init, keep)
        ensures Leq(ds, x, s[|s| - 1])
      {
        InKeep(init, keep, x);
      }
      SortedSnoc(Keep(init, keep), s[|s| - 1], ds);
    }
  }

  lemma {:induction false} KeepTies(s: seq<Product>, keep: Product -> bool, ds: seq<SortField>, c: Product)
    ensures Ties(Keep(s, keep), ds, c) == Keep(Ties(s, ds, c), keep)
    decreases |s|
  {
    if s != [] {
      var init, last := s[..|s| - 1], s[|s| - 1];
      KeepTies(init, keep, ds, c);
      TiesConcat(Keep(init, keep), if keep(last) then [last] else [], ds, c);
      KeepConcat(Ties(init, ds, c), if Tied(ds, last, c) then [last] else [], keep);
      assert Ties([last], ds, c) == if Tied(ds, last, c) then [last] else [];
      assert Keep([last], keep) == if keep(last) then [last] else [];
    }
  }

  /** Filtering commutes with the multi-key sort. */
  lemma SortCommutesWithFilter(s: seq<Product>, keep: Product -> bool, ds: seq<SortField>)
    ensures Passes(Keep(s, keep), ds) == Keep(Passes(s, ds), keep)
  {
    var r := Keep(Passes(s, ds), keep);
    PassesSortStably(s, ds);
    KeepSorted(Passes(s, ds), keep, ds);
    forall c
      ensures Ties(r, ds, c) == Ties(Keep(s, keep), ds, c)
    {
      assert Ties(Passes(s, ds), ds, c) == Ties(s, ds, c);
      KeepTies(Passes(s, ds), keep, ds, c);
      KeepTies(s, keep, ds, c);
    }
    PassesAreOneStableSort(Keep(s, keep), ds, r);
  }

  // ---------------------------------------------------------------- sorting in place

  lemma {:induction false} InsertLength(s: seq<Product>, x: Product, ds: seq<SortField>)
    ensures |Insert(s, x, ds)| == |s| + 1
    decreases |s|
  {
    if s != [] && !Leq(ds, s[|s| - 1], x) { InsertLength(s[..|s| - 1], x, ds); }
  }

  lemma {:induction false} StableSortLength(s: seq<Product>, ds: seq<SortField>)
    ensures |StableSort(s, ds)| == |s|
    decreases |s|
  {
    if s != [] {
      StableSortLength(s[..|s| - 1], ds);
      InsertLength(StableSort(s[..|s| - 1], ds), s[|s| - 1], ds);
    }
  }

  /** The place of `x` is somewhere in `s[..j]`: the rest is already behind it. */
  ghost predicate Sinking(s: seq<Product>, x: Product, ds: seq<SortField>, j: nat) {
    j <= |s| && Insert(s, x, ds) == Insert(s[..j], x, ds) + s[j..]
  }

  lemma SinkStep(s: seq<Product>, x: Product, ds: seq<SortField>, j: nat)
    requires 0 < j && Sinking(s, x, ds, j) && !Leq(ds, s[j - 1], x)
    ensures Sinking(s, x, ds, j - 1)
  {
    assert s[..j][..j - 1] == s[..j - 1];
    assert [s[j - 1]] + s[j..] == s[j - 1..];
  }

  lemma SinkEnds(s: seq<Product>, x: Product, ds: seq<SortField>, j: nat)
    requires Sinking(s, x, ds, j) && (j == 0 || Leq(ds, s[j - 1], x))
    ensures Insert(s, x, ds) == s[..j] + [x] + s[j..]
  {
  }

  /** Makes room for `a[i]` among the products before it by shifting those that belong behind it. */
  method MakeRoom(a: array<Product>, i: nat, ds: seq<SortField>) returns (j: nat)
    requires i < a.Length
    modifies a
    ensures j <= i && Insert(old(a[..i]), old(a[i]), ds) == old(a[..j]) + [old(a[i])] + old(a[j..i])
    ensures forall k :: 0 <= k < a.Length ==> a[k] == if j < k <= i then old(a[k - 1]) else old(a[k])
  {
    ghost var s := a[..i];
    var x := a[i];
    j := i;
    assert s[..i] == s;
    while j > 0 && !Leq(ds, a[j - 1], x)
      invariant 0 <= j <= i && Sinking(s, x, ds, j)
      invariant forall k :: 0 <= k < a.Length ==> a[k] == if j < k <= i then old(a[k - 1]) else old(a[k])
    {
      SinkStep(s, x, ds, j);
      a[j] := a[j - 1];
      j := j - 1;
    }
    SinkEnds(s, x, ds, j);
    assert s[..j] == old(a[..j]) && s[j..] == old(a[j..i]);
  }

  /** Moves `a[i]` down to its place among the products before it. */
  method SinkInto(a: array<Product>, i: nat, ds: seq<SortField>)
    requires i < a.Length
    modifies a
    ensures a[..i + 1] == Insert(old(a[..i]), old(a[i]), ds)
    ensures a[i + 1..] == old(a[i + 1..])
  {
    var x := a[i];
    var j := MakeRoom(a, i, ds);
    a[j] := x;
    assert a[..i + 1] == old(a[..j]) + [x] + old(a[j..i]);
  }

  /** The list's own sort on one key, in place: only stability is promised of it. */
  method SortPass(a: array<Product>, d: SortField)
    modifies a
    ensures a[..] == StableSort(old(a[..]), [d])
  {
    ghost var was := a[..];
    var i := 0;
    while i < a.Length
      invariant 0 <= i <= a.Length
      invariant a[..i] == StableSort(was[..i], [d])
      invariant a[i..] == was[i..]
    {
      assert was[..i + 1][..i] == was[..i] && a[i] == was[i..][0] && a[i + 1..] == a[i..][1..];
      SinkInto(a, i, [d]);
      i := i + 1;
    }
    assert was[..i] == was && a[..i] == a[..];
  }

  /** The directives after the last one whose field products do not have; all of them if there is none. */
  function AfterLastUnknown(ds: seq<SortField>): (r: seq<SortField>)
    ensures forall d :: d in r ==> Known(d.field)
    ensures |r| <= |ds| && r == ds[|ds| - |r|..]
    ensures |r| < |ds| ==> !Known(ds[|ds| - |r| - 1].field)
    decreases |ds|
  {
    if ds == [] || !Known(ds[|ds| - 1].field) then []
    else AfterLastUnknown(ds[..|ds| - 1]) + [ds[|ds| - 1]]
  }

  /** `_apply_sort`: one pass per directive, last directive first. A directive whose field products do
      not have makes the pass raise, unless there is nothing to sort; the passes made before it stand. */
  method ApplySort(items: array<Product>, fields: seq<SortField>) returns (ok: bool)
    modifies items
    ensures ok <==> items.Length == 0 || forall d :: d in fields ==> Known(d.field)
    ensures ok ==> items[..] == Passes(old(items[..]), fields)
    ensures !ok ==> items[..] == Passes(old(items[..]), AfterLastUnknown(fields))
  {
    ghost var was := items[..];
    var n := |fields|;
    while n > 0
      invariant 0 <= n <= |fields|
      invariant items[..] == Passes(was, fields[n..])
      invariant items.Length == 0 || forall d :: d in fields[n..] ==> Known(d.field)
    {
      var d := fields[n - 1];
      if items.Length > 0 && !Known(d.field) {
        LastUnknownIs(fields, n);
        return false;
      }
      SortPass(items, d);
      OneMorePass(was, fields, n);
      n := n - 1;
    }
    ok := true;
    assert fields[0..] == fields;
  }

  /** The pass for directive `n - 1` comes on top of those for the later ones. */
  lemma OneMorePass(s: seq<Product>, ds: seq<SortField>, n: nat)
    requires 0 < n <= |ds|
    ensures Passes(s, ds[n - 1..]) == StableSort(Passes(s, ds[n..]), [ds[n - 1]])
    ensures forall d :: d in ds[n - 1..] <==> d == ds[n - 1] || d in ds[n..]
  {
    assert ds[n - 1..] == [ds[n - 1]] + ds[n..];
    assert ds[n - 1..][1..] == ds[n..];
  }

  lemma {:induction false} LastUnknownIs(ds: seq<SortField>, n: nat)
    requires 0 < n <= |ds| && !Known(ds[n - 1].field)
    requires forall d :: d in ds[n..] ==> Known(d.field)
    ensures AfterLastUnknown(ds) == ds[n..]
    decreases |ds|
  {
    if n < |ds| {
      var init := ds[..|ds| - 1];
      assert ds[|ds| - 1] in ds[n..];
      forall d | d in init[n..]
        ensures Known(d.field)
      {
        assert d in ds[n..];
      }
      LastUnknownIs(init, n);
    }
  }
}
