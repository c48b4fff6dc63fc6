/** Lockstep version bump of scripts/bump.py over a workspace of packages. */
module Bump {
  import opened Wrappers
  import opened Strings
  import opened Versions
  import opened Requirements

  datatype Extra = Extra(name: string, items: seq<string>)

  /** The `[project]` table of a pyproject.toml; `rest` stands for everything no operation looks at. */
  datatype Project = Project(
    version: Option<string>,
    dependencies: Option<seq<string>>,
    extras: Option<seq<Extra>>,
    rest: string)

  datatype Package = Package(name: string, project: Project)

  /** The packages in the order the workspace lists them. */
  type Workspace = seq<Package>

  /** `str(project.get("version"))`. */
  function VersionText(p: Project): string {
    if p.version.None? then "None" else p.version.value
  }

  function PinnedExtras(extras: seq<Extra>, major: string): (r: seq<Extra>)
    ensures |r| == |extras|
  {
    seq(|extras|, i requires 0 <= i < |extras| => Extra(extras[i].name, PinnedAll(extras[i].items, major)))
  }

  /** A project after `_apply_version`. */
  function Applied(p: Project, version: string): Project {
    var major := Major(version);
    Project(
      if VersionText(p) != version then Some(version) else p.version,
      if p.dependencies.None? then None else Some(PinnedAll(p.dependencies.value, major)),
      if p.extras.None? then None else Some(PinnedExtras(p.extras.value, major)),
      p.rest)
  }

  /** A parsed document, rewritten in place. */
  class Document {
    var project: Project

    constructor (project: Project)
      ensures this.project == project
    {
      this.project := project;
    }

    method ApplyVersion(version: string) returns (changed: bool)
      modifies this
      ensures project == Applied(old(project), version)
      ensures changed <==> project != old(project)
    {
      var major := Major(version);
      changed := false;
      if VersionText(project) != version {
        project := project.(version := Some(version));
        changed := true;
      }
      if project.dependencies.Some? {
        var pinned, c := PinSiblingStrings(project.dependencies.value, major);
        project := project.(dependencies := Some(pinned));
        changed := c || changed;
      }
      if project.extras.Some? {
        var c := PinExtras(major);
        changed := c || changed;
      }
    }

    method PinExtras(major: string) returns (changed: bool)
      requires project.extras.Some?
      modifies this
      ensures project == old(project).(extras := Some(PinnedExtras(old(project).extras.value, major)))
      ensures changed <==> project != old(project)
    {
      ghost var was := project.extras.value;
      changed := false;
      var i := 0;
      while i < |project.extras.value|
        invariant project.extras.Some? && project == old(project).(extras := project.extras)
        invariant 0 <= i <= |was| == |project.extras.value|
        invariant forall k :: 0 <= k < i ==>
          project.extras.value[k] == Extra(was[k].name, PinnedAll(was[k].items, major))
        invariant forall k :: i <= k < |was| ==> project.extras.value[k] == was[k]
        invariant changed <==> exists k :: 0 <= k < i && project.extras.value[k] != was[k]
      {
        var extra := project.extras.value[i];
        var pinned, c := PinSiblingStrings(extra.items, major);
        ghost var before := project.extras.value;
        project := project.(extras := Some(project.extras.value[i := Extra(extra.name, pinned)]));
        assert c <==> project.extras.value[i] != was[i];
        changed := c || changed;
        i := i + 1;
      }
      assert project.extras.value == PinnedExtras(was, major);
      assert !changed ==> project.extras.value == was;
    }
  }

  // ---------------------------------------------------------------- changing the workspace

  function AppliedTo(p: Package, version: string): Package {
    Package(p.name, Applied(p.project, version))
  }

  /** The workspace after `set_version`. */
  function SetVersion(ws: Workspace, version: string): (r: Workspace)
    ensures |r| == |ws|
  {
    seq(|ws|, i requires 0 <= i < |ws| => AppliedTo(ws[i], version))
  }

  /** `compute_changes`: the packages whose file would differ, with the new contents. */
  method ComputeChanges(ws: Workspace, version: string) returns (changes: seq<(nat, Project)>)
    ensures forall c :: c in changes <==>
      c.0 < |ws| && c.1 == Applied(ws[c.0].project, version) && c.1 != ws[c.0].project
    ensures changes == [] <==> SetVersion(ws, version) == ws
  {
    changes := [];
    var i := 0;
    while i < |ws|
      invariant 0 <= i <= |ws|
      invariant forall c :: c in changes <==>
        c.0 < i && c.1 == Applied(ws[c.0].project, version) && c.1 != ws[c.0].project
      invariant changes == [] <==> forall k :: 0 <= k < i ==> Applied(ws[k].project, version) == ws[k].project
    {
      var doc := new Document(ws[i].project);
      var changed := doc.ApplyVersion(version);
      if doc.project != ws[i].project { changes := changes + [(i, doc.project)]; }
      i := i + 1;
    }
    if changes == [] {
      assert SetVersion(ws, version) == ws;
    } else {
      assert exists k :: 0 <= k < |ws| && Applied(ws[k].project, version) != ws[k].project;
      var k :| 0 <= k < |ws| && Applied(ws[k].project, version) != ws[k].project;
      assert SetVersion(ws, version)[k] != ws[k];
    }
  }

  /** `set_version`: writes exactly the computed changes. */
  method WriteVersion(ws: Workspace, version: string) returns (after: Workspace, written: nat)
    ensures after == SetVersion(ws, version)
    ensures written == 0 <==> after == ws
  {
    var changes := ComputeChanges(ws, version);
    after := ws;
    var i := 0;
    while i < |changes|
      invariant 0 <= i <= |changes| && |after| == |ws|
      invariant forall k :: 0 <= k < |ws| ==> after[k] == ws[k] || after[k] == AppliedTo(ws[k], version)
      invariant forall j :: 0 <= j < i ==> after[changes[j].0] == AppliedTo(ws[changes[j].0], version)
    {
      var c := changes[i];
      assert c in changes;
      after := after[c.0 := Package(ws[c.0].name, c.1)];
      i := i + 1;
    }
    forall k | 0 <= k < |ws|
      ensures after[k] == AppliedTo(ws[k], version)
    {
      if Applied(ws[k].project, version) != ws[k].project {
        assert (k, Applied(ws[k].project, version)) in changes;
      }
    }
    written := |changes|;
  }

  // ---------------------------------------------------------------- checking the workspace

  function ExtraItems(extras: seq<Extra>): seq<string> {
    if extras == [] then [] else ExtraItems(extras[..|extras| - 1]) + extras[|extras| - 1].items
  }

  /** Every shipped requirement of a project, in the order the check reads them. */
  function Items(p: Project): seq<string> {
    (if p.dependencies.None? then [] else p.dependencies.value) +
    (if p.extras.None? then [] else ExtraItems(p.extras.value))
  }

  /** What the check records of a list of requirements: per sibling name, the last one read. */
  function Recorded(items: seq<string>): map<string, string> {
    if items == [] then map[]
    else
      var last := items[|items| - 1];
      var name := SiblingName(last);
      var before := Recorded(items[..|items| - 1]);
      if name.Some? then before[name.value := last] else before
  }

  /** All packages carry this version, and everything the check recorded is the canonical pin for it. */
  ghost predicate Coherent(ws: Workspace, version: string) {
    && (forall i :: 0 <= i < |ws| ==> VersionText(ws[i].project) == version)
    && (forall i :: 0 <= i < |ws| ==> PinsCanonical(Recorded(Items(ws[i].project)), version))
  }

  ghost predicate PinsCanonical(recorded: map<string, string>, version: string) {
    forall name :: name in recorded ==> recorded[name] == Canonical(name, Major(version))
  }

  /** Requirements read on top of those read before. */
  method ReadList(entry: map<string, string>, items: seq<string>, ghost before: seq<string>)
    returns (r: map<string, string>)
    requires entry == Recorded(before)
    ensures r == Recorded(before + items)
  {
    r := entry;
    assert before + items[..0] == before;
    var i := 0;
    while i < |items|
      invariant 0 <= i <= |items|
      invariant r == Recorded(before + items[..i])
    {
      var name := SiblingName(items[i]);
      assert (before + items[..i + 1])[..|before| + i] == before + items[..i];
      if name.Some? { r := r[name.value := items[i]]; }
      i := i + 1;
    }
    assert items[..i] == items;
  }

  method ReadExtras(entry: map<string, string>, extras: seq<Extra>, ghost before: seq<string>)
    returns (r: map<string, string>)
    requires entry == Recorded(before)
    ensures r == Recorded(before + ExtraItems(extras))
  {
    r := entry;
    assert before + ExtraItems(extras[..0]) == before;
    var i := 0;
    while i < |extras|
      invariant 0 <= i <= |extras|
      invariant r == Recorded(before + ExtraItems(extras[..i]))
    {
      r := ReadList(r, extras[i].items, before + ExtraItems(extras[..i]));
      assert extras[..i + 1][..i] == extras[..i];
      assert before + ExtraItems(extras[..i + 1]) == before + ExtraItems(extras[..i]) + extras[i].items;
      i := i + 1;
    }
    assert extras[..i] == extras;
  }

  /** The dependencies, then the extras one after the other. */
  method ReadPins(p: Project) returns (entry: map<string, string>)
    ensures entry == Recorded(Items(p))
  {
    entry := map[];
    ghost var read: seq<string> := [];
    if p.dependencies.Some? {
      entry := ReadList(entry, p.dependencies.value, read);
      read := p.dependencies.value;
      assert [] + read == read;
    }
    if p.extras.Some? {
      entry := ReadExtras(entry, p.extras.value, read);
    } else {
      assert Items(p) == read + [] == read;
    }
  }

  method AllCanonical(entry: map<string, string>, major: string) returns (ok: bool)
    ensures ok <==> forall name :: name in entry ==> entry[name] == Canonical(name, major)
  {
    ok := true;
    var left := entry.Keys;
    while left != {}
      invariant left <= entry.Keys
      invariant ok <==> forall name :: name in entry && name !in left ==> entry[name] == Canonical(name, major)
      decreases left
    {
      var name :| name in left;
      if entry[name] != Canonical(name, major) { ok := false; }
      left := left - {name};
    }
  }

  datatype CheckError = NoPackages

  method SameVersions(ws: Workspace, version: string) returns (ok: bool)
    ensures ok <==> forall i :: 0 <= i < |ws| ==> VersionText(ws[i].project) == version
  {
    var i := 0;
    while i < |ws|
      invariant 0 <= i <= |ws|
      invariant forall k :: 0 <= k < i ==> VersionText(ws[k].project) == version
    {
      if VersionText(ws[i].project) != version { return false; }
      i := i + 1;
    }
    ok := true;
  }

  /** `check_coherence`. With no package at all there is no version to take and the check raises. */
  method CheckCoherence(ws: Workspace) returns (r: Result<bool, CheckError>)
    ensures r.Failure? <==> ws == []
    ensures r.Success? ==> (r.value <==> Coherent(ws, VersionText(ws[0].project)))
  {
    if ws == [] { return Failure(NoPackages); }
    var version := VersionText(ws[0].project);
    var same := SameVersions(ws, version);
    if !same { return Success(false); }
    var ok := true;
    var i := 0;
    while i < |ws|
      invariant 0 <= i <= |ws|
      invariant ok <==> forall k :: 0 <= k < i ==> PinsCanonical(Recorded(Items(ws[k].project)), version)
    {
      var entry := ReadPins(ws[i].project);
      var good := AllCanonical(entry, Major(version));
      assert good <==> PinsCanonical(Recorded(Items(ws[i].project)), version);
      ok := ok && good;
      i := i + 1;
    }
    r := Success(ok);
  }

  // ---------------------------------------------------------------- rewriter and check agree

  /** Pinning an item list commutes with collecting the items of a project. */
  lemma {:induction false} ExtraItemsPinned(extras: seq<Extra>, major: string)
    ensures ExtraItems(PinnedExtras(extras, major)) == PinnedAll(ExtraItems(extras), major)
    decreases |extras|
  {
    if extras != [] {
      var init := extras[..|extras| - 1];
      ExtraItemsPinned(init, major);
      assert PinnedExtras(extras, major)[..|extras| - 1] == PinnedExtras(init, major);
    }
  }

  lemma ItemsApplied(p: Project, version: string)
    ensures Items(Applied(p, version)) == PinnedAll(Items(p), Major(version))
  {
    if p.extras.Some? { ExtraItemsPinned(p.extras.value, Major(version)); }
  }

  lemma {:induction false} RecordedIsLast(items: seq<string>, name: string)
    ensures name in Recorded(items) <==> exists i :: 0 <= i < |items| && SiblingName(items[i]) == Some(name)
    ensures name in Recorded(items) ==>
      Recorded(items)[name] in items && SiblingName(Recorded(items)[name]) == Some(name)
    decreases |items|
  {
    if items != [] {
      var init := items[..|items| - 1];
      RecordedIsLast(init, name);
      assert items == init + [items[|items| - 1]];
      assert forall i :: 0 <= i < |init| ==> init[i] == items[i];
    }
  }

  lemma PinnedIsCanonical(item: string, major: string)
    ensures SiblingName(Pinned(item, major)).Some? ==>
      Pinned(item, major) == Canonical(SiblingName(Pinned(item, major)).value, major)
  {
    if SiblingName(item).Some? {
      SiblingNameIsName(item);
      CanonicalIsSibling(SiblingName(item).value, major);
    }
  }

  /** Setting any version whatever, well-formed or not, makes the check succeed at that version. */
  lemma SetVersionIsCoherent(ws: Workspace, version: string)
    ensures Coherent(SetVersion(ws, version), version)
  {
    var after := SetVersion(ws, version);
    forall i | 0 <= i < |after|
      ensures PinsCanonical(Recorded(Items(after[i].project)), version)
    {
      ItemsApplied(ws[i].project, version);
      var items := Items(after[i].project);
      forall name | name in Recorded(items)
        ensures Recorded(items)[name] == Canonical(name, Major(version))
      {
        RecordedIsLast(items, name);
        var k :| 0 <= k < |items| && items[k] == Recorded(items)[name];
        PinnedIsCanonical(Items(ws[i].project)[k], Major(version));
      }
    }
  }

  lemma PinnedAllTwice(items: seq<string>, a: string, b: string)
    ensures PinnedAll(PinnedAll(items, a), b) == PinnedAll(items, b) <==>
      IsSpec(a) || a == b || forall i :: 0 <= i < |items| ==> SiblingName(items[i]).None?
  {
    forall i | 0 <= i < |items|
      ensures PinnedAll(PinnedAll(items, a), b)[i] == PinnedAll(items, b)[i] <==>
        SiblingName(items[i]).None? || IsSpec(a) || a == b
    {
      PinTwice(items[i], a, b);
    }
  }

  /** No shipped requirement of the workspace names a sibling. */
  ghost predicate NoSiblings(ws: Workspace) {
    forall i :: 0 <= i < |ws| ==> ProjectHasNone(ws[i].project)
  }

  ghost predicate ProjectHasNone(p: Project) {
    && (p.dependencies.Some? ==> NoneIn(p.dependencies.value))
    && (p.extras.Some? ==> forall k :: 0 <= k < |p.extras.value| ==> NoneIn(p.extras.value[k].items))
  }

  ghost predicate NoneIn(items: seq<string>) {
    forall i :: 0 <= i < |items| ==> SiblingName(items[i]).None?
  }

  lemma ExtrasTwice(extras: seq<Extra>, a: string, b: string)
    ensures PinnedExtras(PinnedExtras(extras, a), b) == PinnedExtras(extras, b) <==>
      IsSpec(a) || a == b || forall k :: 0 <= k < |extras| ==> NoneIn(extras[k].items)
  {
    var twice, once := PinnedExtras(PinnedExtras(extras, a), b), PinnedExtras(extras, b);
    forall k | 0 <= k < |extras|
      ensures twice[k] == once[k] <==> IsSpec(a) || a == b || NoneIn(extras[k].items)
    {
      PinnedAllTwice(extras[k].items, a, b);
    }
  }

  /** A missing version reads as the text None, so only setting that text can leave it missing. */
  ghost predicate VersionSettles(p: Project, v: string, w: string) {
    w != "None" || v == "None" || p.version.Some?
  }

  lemma AppliedTwice(p: Project, v: string, w: string)
    ensures Applied(Applied(p, v), w) == Applied(p, w) <==>
      && (IsSpec(Major(v)) || Major(v) == Major(w) || ProjectHasNone(p))
      && VersionSettles(p, v, w)
  {
    if p.dependencies.Some? { PinnedAllTwice(p.dependencies.value, Major(v), Major(w)); }
    if p.extras.Some? { ExtrasTwice(p.extras.value, Major(v), Major(w)); }
  }

  /** For any two texts: the last one set wins exactly when the earlier one had a major text that left the
      pins recognisable, or the same major text, or there was nothing to pin; and, where the last one is
      the text None, no version was missing or None was set before. */
  lemma LastVersionWinsExactly(ws: Workspace, v: string, w: string)
    ensures SetVersion(SetVersion(ws, v), w) == SetVersion(ws, w) <==>
      && (IsSpec(Major(v)) || Major(v) == Major(w) || NoSiblings(ws))
      && forall i :: 0 <= i < |ws| ==> VersionSettles(ws[i].project, v, w)
  {
    var twice, once := SetVersion(SetVersion(ws, v), w), SetVersion(ws, w);
    forall i | 0 <= i < |ws|
      ensures twice[i] == once[i] <==>
        && (IsSpec(Major(v)) || Major(v) == Major(w) || ProjectHasNone(ws[i].project))
        && VersionSettles(ws[i].project, v, w)
    {
      AppliedTwice(ws[i].project, v, w);
    }
  }

  lemma VersionIsNotNone(w: string)
    requires Parse(w).Some?
    ensures w != "None"
  {
    if w == "None" {
      SplitWhole("None", '.');
      assert false;
    }
  }

  /** A version that parses has a major text that leaves pins recognisable. */
  lemma ValidMajorIsSpec(v: string)
    requires Parse(v).Some?
    ensures IsSpec(Major(v))
  {
    NewlineAfterMajor(v);
    DigitsAreSpec(Major(v));
  }

  /** The newline a version may end in is not part of its major number. */
  lemma NewlineAfterMajor(v: string)
    requires Parse(v).Some?
    ensures AllDigits(Major(v)) && Major(v) == Split(WithoutNewline(v), '.')[0]
  {
    var w := WithoutNewline(v);
    if w != v {
      assert v == w + "\n";
      FirstPartOfLonger(w, "\n", '.');
    }
  }

  /** Setting the same version again writes nothing. */
  lemma SetVersionIsIdempotent(ws: Workspace, v: string)
    ensures SetVersion(SetVersion(ws, v), v) == SetVersion(ws, v)
  {
    forall i | 0 <= i < |ws|
      ensures SetVersion(SetVersion(ws, v), v)[i] == SetVersion(ws, v)[i]
    {
      var p := ws[i].project;
      if p.dependencies.Some? { PinnedAllTwice(p.dependencies.value, Major(v), Major(v)); }
      if p.extras.Some? { ExtrasTwice(p.extras.value, Major(v), Major(v)); }
    }
  }

  /** Whenever a project names a sibling more than once it does so with one and the same string. */
  ghost predicate NoShadowed(ws: Workspace) {
    forall i :: 0 <= i < |ws| ==> ItemsAgree(Items(ws[i].project))
  }

  ghost predicate ItemsAgree(items: seq<string>) {
    forall j, k :: 0 <= j < |items| && 0 <= k < |items| && SameSibling(items[j], items[k]) ==> items[j] == items[k]
  }

  predicate SameSibling(a: string, b: string) {
    SiblingName(a).Some? && SiblingName(a) == SiblingName(b)
  }

  lemma {:induction false} UnchangedItems(p: Project, version: string)
    ensures Applied(p, version) == p <==>
      VersionText(p) == version && PinnedAll(Items(p), Major(version)) == Items(p)
  {
    var major := Major(version);
    var deps := if p.dependencies.None? then [] else p.dependencies.value;
    var rest := if p.extras.None? then [] else ExtraItems(p.extras.value);
    ItemsApplied(p, version);
    PinnedConcat(deps, rest, major);
    if PinnedAll(Items(p), major) == Items(p) {
      assert PinnedAll(deps, major) == deps && PinnedAll(rest, major) == rest by {
        assert (deps + rest)[..|deps|] == deps && (deps + rest)[|deps|..] == rest;
        assert PinnedAll(deps + rest, major)[..|deps|] == PinnedAll(deps, major);
        assert PinnedAll(deps + rest, major)[|deps|..] == PinnedAll(rest, major);
      }
      if p.extras.Some? { UnchangedExtras(p.extras.value, major); }
    }
  }

  lemma PinnedConcat(a: seq<string>, b: seq<string>, major: string)
    ensures PinnedAll(a + b, major) == PinnedAll(a, major) + PinnedAll(b, major)
  {
  }

  lemma {:induction false} UnchangedExtras(extras: seq<Extra>, major: string)
    requires PinnedAll(ExtraItems(extras), major) == ExtraItems(extras)
    ensures PinnedExtras(extras, major) == extras
    decreases |extras|
  {
    if extras != [] {
      var init, last := extras[..|extras| - 1], extras[|extras| - 1];
      var a, b := ExtraItems(init), last.items;
      PinnedConcat(a, b, major);
      assert (a + b)[..|a|] == a && (a + b)[|a|..] == b;
      assert PinnedAll(a, major) == a && PinnedAll(b, major) == b;
      UnchangedExtras(init, major);
      assert PinnedExtras(extras, major)[..|extras| - 1] == PinnedExtras(init, major);
      assert extras == init + [last];
    }
  }

  /** For one project with all recorded pins canonical: nothing is left to pin exactly when repeated
      mentions of a sibling agree. */
  lemma PinsSettledExactly(items: seq<string>, version: string)
    requires PinsCanonical(Recorded(items), version)
    ensures PinnedAll(items, Major(version)) == items <==> ItemsAgree(items)
  {
    var major := Major(version);
    forall i | 0 <= i < |items|
      ensures SiblingName(items[i]).Some? ==>
        var name := SiblingName(items[i]).value;
        Canonical(name, major) in items && SiblingName(Canonical(name, major)) == Some(name)
    {
      if SiblingName(items[i]).Some? { RecordedIsLast(items, SiblingName(items[i]).value); }
    }
    if ItemsAgree(items) {
      forall i | 0 <= i < |items|
        ensures Pinned(items[i], major) == items[i]
      {
        if SiblingName(items[i]).Some? {
          var name := SiblingName(items[i]).value;
          var k :| 0 <= k < |items| && items[k] == Canonical(name, major);
        }
      }
    } else {
      var j, k :|
        0 <= j < |items| && 0 <= k < |items| && SameSibling(items[j], items[k]) && items[j] != items[k];
      assert PinnedAll(items, major)[j] == PinnedAll(items, major)[k];
    }
  }

  /** The check looks only at the last mention of each sibling. So after it succeeds, a set of the same
      version still has something to write exactly when some file names a sibling in two ways. */
  lemma CheckedMeansSettledExactly(ws: Workspace, version: string)
    requires Coherent(ws, version)
    ensures SetVersion(ws, version) == ws <==> NoShadowed(ws)
  {
    forall i | 0 <= i < |ws|
      ensures SetVersion(ws, version)[i] == ws[i] <==> ItemsAgree(Items(ws[i].project))
    {
      UnchangedItems(ws[i].project, version);
      PinsSettledExactly(Items(ws[i].project), version);
    }
  }

  /** Nothing is left to write exactly when the check passes and no file names a sibling in two ways. */
  lemma SettledExactly(ws: Workspace, version: string)
    ensures SetVersion(ws, version) == ws <==> Coherent(ws, version) && NoShadowed(ws)
  {
    if SetVersion(ws, version) == ws { SetVersionIsCoherent(ws, version); }
    if Coherent(ws, version) { CheckedMeansSettledExactly(ws, version); }
  }

  /** A project that requires a sibling first bare and then pinned. */
  function ShadowingProject(name: string, v: Semver): Project {
    Project(Some(Show(v)), Some([name, Canonical(name, Decimal(v.major))]), None, "")
  }

  /** The check passes although the first requirement is not pinned. */
  lemma ShadowedRequirementPasses(name: string, v: Semver)
    requires IsName(name)
    ensures var ws := [Package("varco_ws", ShadowingProject(name, v))];
      Coherent(ws, Show(v)) && SetVersion(ws, Show(v)) != ws
  {
    var ws := [Package("varco_ws", ShadowingProject(name, v))];
    var pin := Canonical(name, Decimal(v.major));
    ShowRoundTrip(v);
    DecimalRoundTrip(v.major);
    DigitsAreSpec(Decimal(v.major));
    CanonicalIsSibling(name, Decimal(v.major));
    BareNameIsSibling(name);
    var items := Items(ws[0].project);
    assert items == [name, pin] && items[..1] == [name] && [name][..0] == [];
    assert Recorded([name]) == map[name := name];
    assert Recorded(items) == map[name := pin];
    assert items[0] != items[1] && !ItemsAgree(items);
    CheckedMeansSettledExactly(ws, Show(v));
  }

  // ---------------------------------------------------------------- runs of bumps

  /** `--bump`: the first package's version is the baseline. */
  function BumpWorkspace(ws: Workspace, part: string): Result<Workspace, BumpError>
    requires ws != []
  {
    var target := BumpVersion(VersionText(ws[0].project), part);
    if target.Failure? then Failure(target.error) else Success(SetVersion(ws, target.value))
  }

  /** A workspace that stands at a version: nothing would be written for it. */
  ghost predicate StandsAt(ws: Workspace, v: Semver) {
    ws != [] && SetVersion(ws, Show(v)) == ws
  }

  ghost predicate SameRequirements(a: Project, b: Project) {
    a.dependencies == b.dependencies && a.extras == b.extras && a.rest == b.rest
  }

  /** No requirement string, and nothing else but versions, differs between the workspaces. */
  ghost predicate SameRequirementsAll(a: Workspace, b: Workspace) {
    |a| == |b| && forall i :: 0 <= i < |a| ==> SameRequirements(a[i].project, b[i].project)
  }

  lemma {:induction false} NoneInExtras(extras: seq<Extra>)
    ensures NoneIn(ExtraItems(extras)) <==> forall k :: 0 <= k < |extras| ==> NoneIn(extras[k].items)
    decreases |extras|
  {
    if extras != [] {
      var init, last := extras[..|extras| - 1], extras[|extras| - 1];
      NoneInExtras(init);
      NoneInConcat(ExtraItems(init), last.items);
      assert forall k :: 0 <= k < |init| ==> init[k] == extras[k];
    }
  }

  lemma NoneInConcat(a: seq<string>, b: seq<string>)
    ensures NoneIn(a + b) <==> NoneIn(a) && NoneIn(b)
  {
    if NoneIn(a + b) {
      assert forall i :: 0 <= i < |a| ==> a[i] == (a + b)[i];
      assert forall i :: 0 <= i < |b| ==> b[i] == (a + b)[|a| + i];
    }
  }

  lemma ProjectHasNoneItems(p: Project)
    ensures ProjectHasNone(p) <==> NoneIn(Items(p))
  {
    var deps := if p.dependencies.None? then [] else p.dependencies.value;
    var rest := if p.extras.None? then [] else ExtraItems(p.extras.value);
    NoneInConcat(deps, rest);
    if p.extras.Some? { NoneInExtras(p.extras.value); }
  }

  /** A list of requirements whose recorded pins are canonical for one version is left alone by pinning for
      another exactly when it names no sibling, or names each in one way only and the major texts agree. */
  lemma RepinnedExactly(items: seq<string>, version: string, target: string)
    requires PinsCanonical(Recorded(items), version)
    ensures PinnedAll(items, Major(target)) == items <==>
      NoneIn(items) || (ItemsAgree(items) && Major(version) == Major(target))
  {
    if Major(version) == Major(target) {
      PinsSettledExactly(items, version);
      assert NoneIn(items) ==> ItemsAgree(items);
    } else if !NoneIn(items) {
      var i :| 0 <= i < |items| && SiblingName(items[i]).Some?;
      var name := SiblingName(items[i]).value;
      RecordedIsLast(items, name);
      var k :| 0 <= k < |items| && items[k] == Recorded(items)[name];
      if Canonical(name, Major(target)) == items[k] { CanonicalInjective(name, Major(target), Major(version)); }
      assert PinnedAll(items, Major(target))[k] != items[k];
    }
  }

  /** Setting a version on a workspace that passes the check at another leaves all requirements alone
      exactly when there are no siblings, or none is named in two ways and the major texts agree. */
  lemma SetKeepsRequirementsExactly(ws: Workspace, version: string, target: string)
    requires Coherent(ws, version)
    ensures SameRequirementsAll(SetVersion(ws, target), ws) <==>
      NoSiblings(ws) || (NoShadowed(ws) && Major(version) == Major(target))
  {
    forall i | 0 <= i < |ws|
      ensures SameRequirements(SetVersion(ws, target)[i].project, ws[i].project) <==>
        ProjectHasNone(ws[i].project) || (ItemsAgree(Items(ws[i].project)) && Major(version) == Major(target))
    {
      var p := ws[i].project;
      var q := p.(version := Some(target));
      UnchangedItems(q, target);
      assert Items(q) == Items(p);
      RepinnedExactly(Items(p), version, target);
      ProjectHasNoneItems(p);
    }
    if NoSiblings(ws) { assert forall i :: 0 <= i < |ws| ==> ProjectHasNone(ws[i].project); }
    if SameRequirementsAll(SetVersion(ws, target), ws) && Major(version) == Major(target) {
      forall i | 0 <= i < |ws|
        ensures ItemsAgree(Items(ws[i].project))
      {
        ProjectHasNoneItems(ws[i].project);
      }
    }
  }

  /** The workspace after a run of bumps. */
  function BumpRun(ws: Workspace, parts: seq<string>): Result<Workspace, BumpError>
    requires ws != []
    decreases |parts|
  {
    if parts == [] then Success(ws)
    else
      var next := BumpWorkspace(ws, parts[0]);
      if next.Failure? then next else BumpRun(next.value, parts[1..])
  }

  lemma ParsedMajor(version: string)
    requires Parse(version).Some?
    ensures IsNumber(Major(version)) && Number(Major(version)) == Parse(version).value.major
  {
    NewlineAfterMajor(version);
  }

  /** A run of bumps comes to the same as setting the last version at once, whatever the workspace, as
      long as its baseline is a version. */
  lemma {:induction false} BumpRunIsOneSet(ws: Workspace, version: string, parts: seq<string>)
    requires ws != [] && VersionText(ws[0].project) == version && Parse(version).Some?
    requires parts != [] && BumpedBy(Parse(version).value, parts).Some?
    ensures BumpRun(ws, parts) == Success(SetVersion(ws, Show(BumpedBy(Parse(version).value, parts).value)))
    decreases |parts|
  {
    var next := Bumped(Parse(version).value, parts[0]).value;
    var text := Show(next);
    ShowRoundTrip(next);
    if |parts| == 1 {
      assert parts[1..] == [];
    } else {
      var ws' := SetVersion(ws, text);
      BumpRunIsOneSet(ws', text, parts[1..]);
      var last := Show(BumpedBy(next, parts[1..]).value);
      ShowRoundTrip(BumpedBy(next, parts[1..]).value);
      ValidMajorIsSpec(text);
      VersionIsNotNone(last);
      LastVersionWinsExactly(ws, text, last);
    }
  }

  /** From a workspace that passes the check, however its version is written and whatever it hides from
      the check, any run of bumps succeeds and ends in a workspace that stands at the bumped version. All
      requirement strings are then what they were exactly when there are no siblings, or the run has no
      major bump, no file names a sibling in two ways and the major number was written canonically. */
  lemma BumpRunStands(ws: Workspace, version: string, parts: seq<string>)
    requires ws != [] && Coherent(ws, version) && Parse(version).Some?
    requires parts != [] && BumpedBy(Parse(version).value, parts).Some?
    ensures BumpRun(ws, parts).Success?
    ensures var v := Parse(version).value;
      var w, after := BumpedBy(v, parts).value, BumpRun(ws, parts).value;
      && StandsAt(after, w) && Coherent(after, Show(w))
      && (SameRequirementsAll(after, ws) <==>
            NoSiblings(ws) || (NoShadowed(ws) && Major(version) == Decimal(v.major) && "major" !in parts))
  {
    var v := Parse(version).value;
    var w := BumpedBy(v, parts).value;
    BumpRunIsOneSet(ws, version, parts);
    SetVersionIsCoherent(ws, Show(w));
    SetVersionIsIdempotent(ws, Show(w));
    SetKeepsRequirementsExactly(ws, version, Show(w));
    ShowRoundTrip(w);
    ParsedMajor(version);
    DecimalRoundTrip(w.major);
    RunRaisesMajor(v, parts);
  }

  /** One bump of a workspace that passes the check. A minor or patch bump leaves every requirement alone
      exactly when there are no siblings, or no file names one in two ways and the major number is written
      canonically; a major bump only when there are no siblings. */
  lemma BumpOnce(ws: Workspace, version: string, part: string)
    requires ws != [] && Coherent(ws, version) && Parse(version).Some? && part in ["major", "minor", "patch"]
    ensures BumpWorkspace(ws, part).Success?
    ensures var v := Parse(version).value;
      var after := BumpWorkspace(ws, part).value;
      && |after| == |ws|
      && (forall i :: 0 <= i < |after| ==> VersionText(after[i].project) == NextText(v, part))
      && Coherent(after, NextText(v, part)) && SetVersion(after, NextText(v, part)) == after
      && (part != "major" ==>
            (SameRequirementsAll(after, ws) <==>
               NoSiblings(ws) || (NoShadowed(ws) && Major(version) == Decimal(v.major))))
      && (part == "major" ==> (SameRequirementsAll(after, ws) <==> NoSiblings(ws)))
  {
    var v := Parse(version).value;
    assert [part][1..] == [];
    assert BumpedBy(v, [part]) == Bumped(v, part);
    BumpRunStands(ws, version, [part]);
    var w := Bumped(v, part).value;
    ThreeParts(Decimal(w.major), Decimal(w.minor), Decimal(w.patch));
    assert Decimal(0) == "0";
    assert Show(w) == NextText(v, part);
  }

  /** The text of the bumped version. */
  function NextText(v: Semver, part: string): string {
    if part == "major" then Decimal(v.major + 1) + "." + "0" + "." + "0"
    else if part == "minor" then Decimal(v.major) + "." + Decimal(v.minor + 1) + "." + "0"
    else Decimal(v.major) + "." + Decimal(v.minor) + "." + Decimal(v.patch + 1)
  }

  /** The first failing input: a requirement that a later one hides from the check is rewritten. */
  lemma ShadowedRequirementIsRewritten(name: string, v: Semver, part: string)
    requires IsName(name) && (part == "minor" || part == "patch")
    ensures var ws := [Package("varco_ws", ShadowingProject(name, v))];
      && Coherent(ws, Show(v))
      && BumpWorkspace(ws, part).Success? && !SameRequirementsAll(BumpWorkspace(ws, part).value, ws)
  {
    var ws := [Package("varco_ws", ShadowingProject(name, v))];
    ShadowedRequirementPasses(name, v);
    CheckedMeansSettledExactly(ws, Show(v));
    ShowRoundTrip(v);
    BumpOnce(ws, Show(v), part);
    BareNameIsSibling(name);
    assert ws[0].project.dependencies.value[0] == name;
    assert !NoneIn(ws[0].project.dependencies.value);
    assert !ProjectHasNone(ws[0].project);
  }

  /** A version text with a leading zero, such as 03.1.0, and a pin that agrees with it. */
  function ZeroProject(name: string, v: Semver): Project {
    Project(Some("0" + Show(v)), Some([Canonical(name, "0" + Decimal(v.major))]), None, "")
  }

  lemma LeadingZeroSplits(s: string)
    ensures Split("0" + s, '.') == ["0" + Split(s, '.')[0]] + Split(s, '.')[1..]
  {
    assert ("0" + s)[1..] == s;
  }

  lemma {:induction false} LeadingZeroNumber(d: string)
    requires AllDigits(d)
    ensures AllDigits("0" + d) && Number("0" + d) == Number(d)
    decreases |d|
  {
    var z := "0" + d;
    if d == [] {
      assert z == "0" && z[..0] == [];
    } else {
      LeadingZeroNumber(d[..|d| - 1]);
      assert z[..|z| - 1] == "0" + d[..|d| - 1];
    }
  }

  lemma LeadingZeroParses(v: Semver)
    ensures Parse("0" + Show(v)) == Some(v) && Major("0" + Show(v)) == "0" + Decimal(v.major)
  {
    var text := "0" + Show(v);
    ShowSplits(v);
    LeadingZeroSplits(Show(v));
    DecimalRoundTrip(v.major);
    DecimalRoundTrip(v.minor);
    DecimalRoundTrip(v.patch);
    LeadingZeroNumber(Decimal(v.major));
    assert Show(v) != [] by { assert Split(Show(v), '.') != [""]; }
    assert text[|text| - 1] == Show(v)[|Show(v)| - 1];
    assert WithoutNewline(text) == text;
  }

  /** The second failing input: with a leading zero the pins pass the check, and a minor or patch bump
      rewrites them. */
  lemma LeadingZeroIsRewritten(name: string, v: Semver, part: string)
    requires IsName(name) && (part == "minor" || part == "patch")
    ensures var ws := [Package("varco_ws", ZeroProject(name, v))];
      && Coherent(ws, "0" + Show(v)) && NoShadowed(ws)
      && BumpWorkspace(ws, part).Success? && !SameRequirementsAll(BumpWorkspace(ws, part).value, ws)
  {
    var ws := [Package("varco_ws", ZeroProject(name, v))];
    var text, major := "0" + Show(v), "0" + Decimal(v.major);
    LeadingZeroParses(v);
    ValidMajorIsSpec(text);
    CanonicalIsSibling(name, major);
    ZeroIsCoherent(name, v);
    assert !NoneIn(ws[0].project.dependencies.value) && !ProjectHasNone(ws[0].project);
    assert |major| != |Decimal(v.major)|;
    BumpOnce(ws, text, part);
  }

  lemma ZeroIsCoherent(name: string, v: Semver)
    requires IsName(name)
    ensures var ws := [Package("varco_ws", ZeroProject(name, v))]; Coherent(ws, "0" + Show(v)) && NoShadowed(ws)
  {
    var items, pin := Items(ZeroProject(name, v)), Canonical(name, "0" + Decimal(v.major));
    LeadingZeroParses(v);
    ValidMajorIsSpec("0" + Show(v));
    CanonicalIsSibling(name, "0" + Decimal(v.major));
    assert items == [pin] && items[..0] == [];
    assert Recorded(items) == map[name := pin];
  }

  // ---------------------------------------------------------------- what the published pins accept

  /** Every sibling requirement of a workspace that stands at a version accepts, as it is written, exactly
      the versions with that major number. */
  lemma StandingPinsAdmitExactly(ws: Workspace, v: Semver, i: nat, k: nat, u: Semver)
    requires StandsAt(ws, v) && i < |ws| && k < |Items(ws[i].project)|
    requires SiblingName(Items(ws[i].project)[k]).Some?
    ensures Admits(Items(ws[i].project)[k], u) <==> u.major == v.major
  {
    var p := ws[i].project;
    var item := Items(p)[k];
    assert SetVersion(ws, Show(v))[i] == ws[i];
    ItemsApplied(p, Show(v));
    assert item == Pinned(item, Major(Show(v)));
    SiblingNameIsName(item);
    ShowRoundTrip(v);
    DecimalRoundTrip(v.major);
    CanonicalAdmitsExactly(SiblingName(item).value, Decimal(v.major), v, u);
  }

  /** The same of the requirements that a passing check has recorded. */
  lemma CheckedPinsAdmitExactly(ws: Workspace, version: string, i: nat, name: string, u: Semver)
    requires Coherent(ws, version) && Parse(version).Some? && i < |ws| && name in Recorded(Items(ws[i].project))
    ensures Admits(Recorded(Items(ws[i].project))[name], u) <==> u.major == Parse(version).value.major
  {
    RecordedIsLast(Items(ws[i].project), name);
    SiblingNameIsName(Recorded(Items(ws[i].project))[name]);
    ParsedMajor(version);
    CanonicalAdmitsExactly(name, Major(version), Parse(version).value, u);
  }

  /** The version after the first `n` bumps of a run. */
  function VersionAfter(version: string, parts: seq<string>, n: nat): Semver
    requires Parse(version).Some? && n <= |parts| && BumpedBy(Parse(version).value, parts[..n]).Some?
  {
    BumpedBy(Parse(version).value, parts[..n]).value
  }

  /** Along a run of bumps from a workspace that passes the check: a sibling requirement published after
      bump `i` accepts the version of bump `j`, earlier or later, exactly when no bump between the two was
      a major one. */
  lemma PublishedPinsExactly(ws: Workspace, version: string, parts: seq<string>, i: nat, j: nat, n: nat, k: nat)
    requires ws != [] && Coherent(ws, version) && Parse(version).Some?
    requires BumpedBy(Parse(version).value, parts).Some? && 0 < i <= |parts| && j <= |parts|
    ensures BumpedBy(Parse(version).value, parts[..i]).Some? && BumpedBy(Parse(version).value, parts[..j]).Some?
    ensures BumpRun(ws, parts[..i]).Success?
    ensures n < |BumpRun(ws, parts[..i]).value| ==>
      var items := Items(BumpRun(ws, parts[..i]).value[n].project);
      k < |items| && SiblingName(items[k]).Some? ==>
        (Admits(items[k], VersionAfter(version, parts, j)) <==>
           "major" !in if i <= j then parts[i..j] else parts[j..i])
  {
    var v := Parse(version).value;
    BumpedByPrefix(v, parts, i);
    BumpedByPrefix(v, parts, j);
    BumpRunStands(ws, version, parts[..i]);
    var after := BumpRun(ws, parts[..i]).value;
    if i < j { RunOfBumps(v, parts, i, j); }
    if j < i { RunOfBumps(v, parts, j, i); }
    if n < |after| && k < |Items(after[n].project)| && SiblingName(Items(after[n].project)[k]).Some? {
      StandingPinsAdmitExactly(after, VersionAfter(version, parts, i), n, k, VersionAfter(version, parts, j));
    }
  }
}
