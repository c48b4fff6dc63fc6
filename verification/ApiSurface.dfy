/** The API snapshot diff of scripts/api_surface.py and the gate it makes: no breaking line. */
module ApiSurface {
  import opened Wrappers

  /** What a snapshot records of one exported name; an absent key reads as None. */
  datatype Entry = Entry(kind: Option<string>, signature: Option<string>, definedIn: Option<string>)

  type Exports = map<string, Entry>

  /** The packages of a snapshot. */
  type Snapshot = map<string, Exports>

  datatype Breaking =
    | RemovedPackage(package: string)
    | Removed(package: string, name: string)
    | ChangedKind(package: string, name: string, before: Option<string>, after: Option<string>)
    | ChangedSignature(package: string, name: string, before: Option<string>, after: Option<string>)

  datatype Note =
    | AddedPackage(package: string)
    | Added(package: string, name: string)
    | Moved(package: string, name: string, before: Option<string>, after: Option<string>)

  /** Both snapshots export the name from the package. */
  predicate InBoth(a: Snapshot, b: Snapshot, package: string, name: string) {
    package in a && package in b && name in a[package] && name in b[package]
  }

  predicate IsBreaking(a: Snapshot, b: Snapshot, f: Breaking) {
    match f
    case RemovedPackage(p) => p in a && p !in b
    case Removed(p, n) => p in a && p in b && n in a[p] && n !in b[p]
    case ChangedKind(p, n, x, y) => InBoth(a, b, p, n) && x == a[p][n].kind && y == b[p][n].kind && x != y
    case ChangedSignature(p, n, x, y) =>
      InBoth(a, b, p, n) && x == a[p][n].signature && y == b[p][n].signature && x != y
  }

  predicate IsNote(a: Snapshot, b: Snapshot, f: Note) {
    match f
    case AddedPackage(p) => p in b && p !in a
    case Added(p, n) => p in a && p in b && n in b[p] && n !in a[p]
    case Moved(p, n, x, y) => InBoth(a, b, p, n) && x == a[p][n].definedIn && y == b[p][n].definedIn && x != y
  }

  // ---------------------------------------------------------------- the diff

  /** The lines about one package that both snapshots have. */
  method DiffPackage(package: string, before: Exports, after: Exports)
    returns (breaking: seq<Breaking>, notes: seq<Note>)
    ensures forall f :: f in breaking <==>
      f.package == package && IsBreaking(map[package := before], map[package := after], f)
    ensures forall f :: f in notes <==> f.package == package && IsNote(map[package := before], map[package := after], f)
  {
    breaking, notes := [], [];
    var left := before.Keys + after.Keys;
    ghost var a, b := map[package := before], map[package := after];
    while left != {}
      invariant left <= before.Keys + after.Keys
      invariant forall f :: f in breaking <==>
        f.package == package && !f.RemovedPackage? && f.name !in left && IsBreaking(a, b, f)
      invariant forall f :: f in notes <==>
        f.package == package && !f.AddedPackage? && f.name !in left && IsNote(a, b, f)
      decreases left
    {
      var name :| name in left;
      left := left - {name};
      if name !in after {
        breaking := breaking + [Removed(package, name)];
      } else if name !in before {
        notes := notes + [Added(package, name)];
      } else {
        var old_, new_ := before[name], after[name];
        if old_.kind != new_.kind { breaking := breaking + [ChangedKind(package, name, old_.kind, new_.kind)]; }
        if old_.signature != new_.signature {
          breaking := breaking + [ChangedSignature(package, name, old_.signature, new_.signature)];
        }
        if old_.definedIn != new_.definedIn { notes := notes + [Moved(package, name, old_.definedIn, new_.definedIn)]; }
      }
    }
  }

  /** `diff_snapshots`. */
  method DiffSnapshots(committed: Snapshot, live: Snapshot) returns (breaking: seq<Breaking>, notes: seq<Note>)
    ensures forall f :: f in breaking <==> IsBreaking(committed, live, f)
    ensures forall f :: f in notes <==> IsNote(committed, live, f)
  {
    breaking, notes := [], [];
    var left := committed.Keys + live.Keys;
    while left != {}
      invariant left <= committed.Keys + live.Keys
      invariant forall f :: f in breaking <==> f.package !in left && IsBreaking(committed, live, f)
      invariant forall f :: f in notes <==> f.package !in left && IsNote(committed, live, f)
      decreases left
    {
      var package :| package in left;
      left := left - {package};
      if package !in live {
        breaking := breaking + [RemovedPackage(package)];
      } else if package !in committed {
        notes := notes + [AddedPackage(package)];
      } else {
        var bs, ns := DiffPackage(package, committed[package], live[package]);
        breaking := breaking + bs;
        notes := notes + ns;
      }
    }
  }

  // ---------------------------------------------------------------- the gate is a preorder

  /** The diff has no breaking line. */
  ghost predicate Passes(a: Snapshot, b: Snapshot) {
    forall f :: !IsBreaking(a, b, f)
  }

  ghost predicate NoNotes(a: Snapshot, b: Snapshot) {
    forall f :: !IsNote(a, b, f)
  }

  /** Everything `a` exports is still there in `b` with the same kind and signature. */
  ghost predicate Keeps(a: Snapshot, b: Snapshot) {
    forall p, n :: p in a && n in a[p] ==> KeepsName(a, b, p, n)
  }

  ghost predicate KeepsName(a: Snapshot, b: Snapshot, p: string, n: string)
    requires p in a && n in a[p]
  {
    p in b && n in b[p] && a[p][n].kind == b[p][n].kind && a[p][n].signature == b[p][n].signature
  }

  lemma PassesIsKeeps(a: Snapshot, b: Snapshot)
    ensures Passes(a, b) <==> a.Keys <= b.Keys && Keeps(a, b)
  {
    if Passes(a, b) {
      forall p | p in a
        ensures p in b
      {
        assert !IsBreaking(a, b, RemovedPackage(p));
      }
      forall p, n | p in a && n in a[p]
        ensures KeepsName(a, b, p, n)
      {
        assert !IsBreaking(a, b, Removed(p, n));
        if n in b[p] {
          assert !IsBreaking(a, b, ChangedKind(p, n, a[p][n].kind, b[p][n].kind));
          assert !IsBreaking(a, b, ChangedSignature(p, n, a[p][n].signature, b[p][n].signature));
        }
      }
    }
    if a.Keys <= b.Keys && Keeps(a, b) {
      forall f: Breaking
        ensures !IsBreaking(a, b, f)
      {
        if f.RemovedPackage? { assert f.package in a.Keys ==> f.package in b.Keys; }
        else if f.package in a && f.name in a[f.package] { assert KeepsName(a, b, f.package, f.name); }
      }
    }
  }

  lemma PassesReflexive(a: Snapshot)
    ensures Passes(a, a)
  {
  }

  lemma PassesTransitive(a: Snapshot, b: Snapshot, c: Snapshot)
    requires Passes(a, b) && Passes(b, c)
    ensures Passes(a, c)
  {
    PassesIsKeeps(a, b);
    PassesIsKeeps(b, c);
    forall p, n | p in a && n in a[p]
      ensures KeepsName(a, c, p, n)
    {
      assert KeepsName(a, b, p, n);
      assert KeepsName(b, c, p, n);
    }
    PassesIsKeeps(a, c);
  }

  /** Along a chain of releases that each pass the gate, the last passes it against the first. */
  lemma {:induction false} ChainPasses(releases: seq<Snapshot>)
    requires |releases| > 0 && forall i :: 0 < i < |releases| ==> Passes(releases[i - 1], releases[i])
    ensures Passes(releases[0], releases[|releases| - 1])
    decreases |releases|
  {
    if |releases| == 1 {
      PassesReflexive(releases[0]);
    } else {
      ChainPasses(releases[..|releases| - 1]);
      PassesTransitive(releases[0], releases[|releases| - 2], releases[|releases| - 1]);
    }
  }

  /** The same packages and names, each with the same kind and signature. */
  ghost predicate SameSurface(a: Snapshot, b: Snapshot) {
    && a.Keys == b.Keys
    && (forall p :: p in a && p in b ==> a[p].Keys == b[p].Keys)
    && Keeps(a, b)
  }

  /** Passing in both directions means the same surface, module moves aside. */
  lemma MutualPassIsSameSurface(a: Snapshot, b: Snapshot)
    ensures Passes(a, b) && Passes(b, a) <==> SameSurface(a, b)
  {
    PassesIsKeeps(a, b);
    PassesIsKeeps(b, a);
    if Passes(a, b) && Passes(b, a) {
      forall p | p in a && p in b
        ensures a[p].Keys == b[p].Keys
      {
        assert forall n :: n in a[p] ==> KeepsName(a, b, p, n);
        assert forall n :: n in b[p] ==> KeepsName(b, a, p, n);
      }
    }
    if SameSurface(a, b) {
      forall p, n | p in b && n in b[p]
        ensures KeepsName(b, a, p, n)
      {
        assert p in a.Keys && n in a[p].Keys;
        assert KeepsName(a, b, p, n);
      }
    }
  }

  /** The diff is silent exactly on equal snapshots. */
  lemma SilentIsEqual(a: Snapshot, b: Snapshot)
    ensures Passes(a, b) && NoNotes(a, b) <==> a == b
  {
    PassesIsKeeps(a, b);
    if Passes(a, b) && NoNotes(a, b) {
      forall p | p in b
        ensures p in a
      {
        assert !IsNote(a, b, AddedPackage(p));
      }
      forall p | p in a
        ensures a[p] == b[p]
      {
        SameExports(a, b, p);
      }
      assert a.Keys == b.Keys;
    }
  }

  lemma SameExports(a: Snapshot, b: Snapshot, p: string)
    requires Keeps(a, b) && NoNotes(a, b) && p in a && p in b
    ensures a[p] == b[p]
  {
    forall n | n in b[p]
      ensures n in a[p]
    {
      assert !IsNote(a, b, Added(p, n));
    }
    forall n | n in a[p]
      ensures n in b[p] && a[p][n] == b[p][n]
    {
      assert KeepsName(a, b, p, n);
      assert !IsNote(a, b, Moved(p, n, a[p][n].definedIn, b[p][n].definedIn));
    }
    assert a[p].Keys == b[p].Keys;
  }
}
