/** Version numbers as scripts/bump.py reads, prints and bumps them, with SemVer precedence and the
    PEP 440 compatible-release rule that the sibling pins rely on. */
module Versions {
  import opened Wrappers
  import opened Strings

  // ---------------------------------------------------------------- decimal numbers

  predicate IsDigit(c: char) {
    '0' <= c <= '9'
  }

  predicate AllDigits(s: string) {
    forall i :: 0 <= i < |s| ==> IsDigit(s[i])
  }

  /** `str(n)`. */
  function Decimal(n: nat): string {
    var last := [('0' as int + n % 10) as char];
    if n < 10 then last else Decimal(n / 10) + last
  }

  /** `int(s)`; leading zeros are allowed. */
  function Number(s: string): nat
    requires AllDigits(s)
  {
    if s == [] then 0 else 10 * Number(s[..|s| - 1]) + (s[|s| - 1] as int - '0' as int)
  }

  lemma {:induction false} DecimalRoundTrip(n: nat)
    ensures Decimal(n) != [] && AllDigits(Decimal(n)) && Number(Decimal(n)) == n
    ensures |Decimal(n)| > 1 ==> Decimal(n)[0] != '0'
  {
    var d := Decimal(n);
    if n >= 10 {
      DecimalRoundTrip(n / 10);
      assert d[..|d| - 1] == Decimal(n / 10);
    } else {
      assert d[..0] == [];
    }
  }

  // ---------------------------------------------------------------- MAJOR.MINOR.PATCH

  datatype Semver = Semver(major: nat, minor: nat, patch: nat)

  predicate IsNumber(s: string) {
    s != [] && AllDigits(s)
  }

  /** A final newline is let through: `$` also matches in front of one. */
  function WithoutNewline(s: string): string {
    if s != [] && s[|s| - 1] == '\n' then s[..|s| - 1] else s
  }

  function Parse(s: string): Option<Semver> {
    var parts := Split(WithoutNewline(s), '.');
    if |parts| == 3 && IsNumber(parts[0]) && IsNumber(parts[1]) && IsNumber(parts[2])
    then Some(Semver(Number(parts[0]), Number(parts[1]), Number(parts[2])))
    else None
  }

  function Show(v: Semver): string {
    Join([Decimal(v.major), Decimal(v.minor), Decimal(v.patch)], '.')
  }

  /** `version.split(".")[0]`. */
  function Major(version: string): string {
    Split(version, '.')[0]
  }

  lemma {:induction false} JoinLastChar(parts: seq<string>, sep: char)
    requires |parts| > 0 && parts[|parts| - 1] != []
    ensures var j := Join(parts, sep); j != [] && j[|j| - 1] == parts[|parts| - 1][|parts[|parts| - 1]| - 1]
    decreases |parts|
  {
    if |parts| > 1 { JoinLastChar(parts[1..], sep); }
  }

  lemma ShowSplits(v: Semver)
    ensures Split(Show(v), '.') == [Decimal(v.major), Decimal(v.minor), Decimal(v.patch)]
    ensures WithoutNewline(Show(v)) == Show(v)
  {
    var parts := [Decimal(v.major), Decimal(v.minor), Decimal(v.patch)];
    DecimalRoundTrip(v.major);
    DecimalRoundTrip(v.minor);
    DecimalRoundTrip(v.patch);
    forall p | p in parts
      ensures '.' !in p
    {
      assert AllDigits(p);
    }
    SplitJoin(parts, '.');
    JoinLastChar(parts, '.');
    assert IsDigit(parts[2][|parts[2]| - 1]);
  }

  /** Printing and parsing a version gives it back. */
  lemma {:induction false} ShowRoundTrip(v: Semver)
    ensures Parse(Show(v)) == Some(v) && Major(Show(v)) == Decimal(v.major)
  {
    ShowSplits(v);
    DecimalRoundTrip(v.major);
    DecimalRoundTrip(v.minor);
    DecimalRoundTrip(v.patch);
  }

  // ---------------------------------------------------------------- bumping

  datatype BumpError = NotAVersion | NotAPart

  function Bumped(v: Semver, part: string): Option<Semver> {
    if part == "major" then Some(Semver(v.major + 1, 0, 0))
    else if part == "minor" then Some(Semver(v.major, v.minor + 1, 0))
    else if part == "patch" then Some(Semver(v.major, v.minor, v.patch + 1))
    else None
  }

  /** `bump_version`. */
  function BumpVersion(version: string, part: string): Result<string, BumpError> {
    var v := Parse(version);
    if v.None? then Failure(NotAVersion)
    else
      var w := Bumped(v.value, part);
      if w.None? then Failure(NotAPart) else Success(Show(w.value))
  }

  /** SemVer 2.0.0 item 11, for versions without pre-release part. */
  predicate Precedes(a: Semver, b: Semver) {
    || a.major < b.major
    || (a.major == b.major && a.minor < b.minor)
    || (a.major == b.major && a.minor == b.minor && a.patch < b.patch)
  }

  /** A bump succeeds exactly on a version and a part. A major bump raises the major number and resets the
      others, a minor bump raises the minor number and resets the patch number, a patch bump raises that. The
      result is higher, and the only versions it skips are later ones of the same major, or of the same
      minor. */
  lemma {:induction false} BumpIsNext(version: string, part: string)
    ensures Parse(version).None? ==> BumpVersion(version, part) == Failure(NotAVersion)
    ensures Parse(version).Some? && part !in ["major", "minor", "patch"] ==>
      BumpVersion(version, part) == Failure(NotAPart)
    ensures Parse(version).Some? && part in ["major", "minor", "patch"] ==>
      && BumpVersion(version, part).Success?
      && Parse(BumpVersion(version, part).value).Some?
      && var v, w := Parse(version).value, Parse(BumpVersion(version, part).value).value;
         && (part == "major" ==> w.major == v.major + 1 && w.minor == 0 && w.patch == 0)
         && (part == "minor" ==> w.major == v.major && w.minor == v.minor + 1 && w.patch == 0)
         && (part == "patch" ==> w.major == v.major && w.minor == v.minor && w.patch == v.patch + 1)
         && Precedes(v, w)
         && forall x :: Precedes(v, x) && Precedes(x, w) ==>
              x.major == v.major && (part == "major" || (part == "minor" && x.minor == v.minor))
  {
    var v := Parse(version);
    if v.Some? && Bumped(v.value, part).Some? { ShowRoundTrip(Bumped(v.value, part).value); }
  }

  /** Precedence is that of the major, then the minor, then the patch number. */
  lemma PrecedesExactly(a: Semver, b: Semver)
    ensures a.major != b.major ==> (Precedes(a, b) <==> a.major < b.major)
    ensures a.major == b.major && a.minor != b.minor ==> (Precedes(a, b) <==> a.minor < b.minor)
    ensures a.major == b.major && a.minor == b.minor ==> (Precedes(a, b) <==> a.patch < b.patch)
  {
  }

  /** Three numbers with dots between them. */
  ghost predicate Writes(s: string, x: string, y: string, z: string) {
    IsNumber(x) && IsNumber(y) && IsNumber(z) && s == x + "." + y + "." + z
  }

  lemma ThreeParts(x: string, y: string, z: string)
    ensures Join([x, y, z], '.') == x + "." + y + "." + z
  {
    assert [x, y, z][1..] == [y, z] && [y, z][1..] == [z];
    assert Join([z], '.') == z;
    assert Join([y, z], '.') == y + ['.'] + z;
    assert x + ['.'] + (y + ['.'] + z) == x + "." + y + "." + z;
  }

  /** The texts that are versions: three numbers with dots between them, and possibly one newline after. */
  lemma ParseExactly(s: string, v: Semver)
    ensures Parse(s) == Some(v) <==> exists x, y, z ::
      && (Writes(s, x, y, z) || (s != [] && s[|s| - 1] == '\n' && Writes(s[..|s| - 1], x, y, z)))
      && IsNumber(x) && IsNumber(y) && IsNumber(z)
      && v == Semver(Number(x), Number(y), Number(z))
  {
    var t := WithoutNewline(s);
    var parts := Split(t, '.');
    if Parse(s) == Some(v) {
      JoinSplit(t, '.');
      assert parts == [parts[0], parts[1], parts[2]];
      ThreeParts(parts[0], parts[1], parts[2]);
      assert Writes(t, parts[0], parts[1], parts[2]);
    }
    forall x, y, z | (Writes(s, x, y, z) || (s != [] && s[|s| - 1] == '\n' && Writes(s[..|s| - 1], x, y, z)))
                     && v == Semver(Number(x), Number(y), Number(z))
      ensures Parse(s) == Some(v)
    {
      if Writes(s, x, y, z) { WrittenParses(s, x, y, z); } else { WrittenParses(s[..|s| - 1], x, y, z); }
    }
  }

  lemma WrittenParses(t: string, x: string, y: string, z: string)
    requires Writes(t, x, y, z)
    ensures Split(t, '.') == [x, y, z] && WithoutNewline(t) == t
  {
    ThreeParts(x, y, z);
    assert '.' !in x && '.' !in y && '.' !in z;
    SplitJoin([x, y, z], '.');
    assert t[|t| - 1] == z[|z| - 1] && IsDigit(z[|z| - 1]);
  }

  // ---------------------------------------------------------------- compatible releases (PEP 440)

  /** A release number as PEP 440 compares it: missing components count as zero. */
  type Release = seq<nat>

  function At(r: Release, i: nat): nat {
    if i < |r| then r[i] else 0
  }

  /** `a >= b`, comparing from component `i` on. */
  predicate AtLeast(a: Release, b: Release, i: nat)
    decreases |a| + |b| - i
  {
    (i >= |a| && i >= |b|) || At(a, i) > At(b, i) || (At(a, i) == At(b, i) && AtLeast(a, b, i + 1))
  }

  /** `== prefix.*`. */
  predicate Matches(a: Release, prefix: Release) {
    forall i :: 0 <= i < |prefix| ==> At(a, i) == prefix[i]
  }

  /** `~= pin`: at least the pin, and equal to it up to its next to last component. */
  predicate Compatible(a: Release, pin: Release)
    requires |pin| >= 2
  {
    AtLeast(a, pin, 0) && Matches(a, pin[..|pin| - 1])
  }

  function ReleaseOf(v: Semver): Release {
    [v.major, v.minor, v.patch]
  }

  /** What `~=` accepts: with two numbers the same major and no smaller minor, with three the same major and
      minor and no smaller patch. */
  lemma CompatibleExactly(v: Semver, x: nat, y: nat, z: nat)
    ensures Compatible(ReleaseOf(v), [x, y]) <==> v.major == x && v.minor >= y
    ensures Compatible(ReleaseOf(v), [x, y, z]) <==> v.major == x && v.minor == y && v.patch >= z
  {
    var r, two, three := ReleaseOf(v), [x, y], [x, y, z];
    assert two[..1] == [x] && three[..2] == [x, y];
    assert Matches(r, [x]) <==> At(r, 0) == x;
    assert Matches(r, [x, y]) <==> At(r, 0) == x && At(r, 1) == y;
    assert AtLeast(r, two, 3) && AtLeast(r, three, 3);
    assert AtLeast(r, two, 2) && (AtLeast(r, three, 2) <==> v.patch >= z);
    assert AtLeast(r, two, 1) <==> v.minor >= y;
    assert AtLeast(r, three, 1) <==> v.minor > y || (v.minor == y && v.patch >= z);
  }

  /** A release number written with dots. */
  function ReadRelease(s: string): Option<Release> {
    ReadParts(Split(s, '.'))
  }

  function ReadParts(parts: seq<string>): Option<Release>
    decreases |parts|
  {
    if parts == [] then Some([])
    else
      var rest := ReadParts(parts[1..]);
      if IsNumber(parts[0]) && rest.Some? then Some([Number(parts[0])] + rest.value) else None
  }

  /** The release a canonical pin for this version names: its major number and a zero. */
  function PinOf(v: Semver): Release {
    [v.major, 0]
  }

  /** The text `MAJOR.0` names that release, however the major number is written. */
  lemma PinTextReads(v: Semver, major: string)
    requires IsNumber(major) && Number(major) == v.major
    ensures ReadRelease(major + ".0") == Some(PinOf(v))
  {
    assert major + ".0" == major + ['.'] + "0";
    assert '.' !in major;
    SplitFirst(major, '.', "0");
    SplitWhole("0", '.');
    assert IsDigit("0"[0]) && "0"[..0] == [] && Number("0") == 0;
    ReadOne("0");
    ReadMore(major, ["0"]);
    assert Split(major + ".0", '.') == [major] + ["0"];
    assert [v.major] + [0] == PinOf(v);
  }

  lemma ReadOne(d: string)
    requires IsNumber(d)
    ensures ReadParts([d]) == Some([Number(d)])
  {
    assert [d][1..] == [] && ReadParts([]) == Some([]);
    assert [Number(d)] + [] == [Number(d)];
  }

  lemma ReadMore(d: string, rest: seq<string>)
    requires IsNumber(d) && ReadParts(rest).Some?
    ensures ReadParts([d] + rest) == Some([Number(d)] + ReadParts(rest).value)
  {
    assert ([d] + rest)[1..] == rest;
  }

  /** A version satisfies the pin published with another exactly when their majors agree. */
  lemma PinAcceptsExactly(a: Semver, b: Semver)
    ensures Compatible(ReleaseOf(a), PinOf(b)) <==> a.major == b.major
  {
    CompatibleExactly(a, b.major, 0, 0);
  }

  /** The version after a run of bumps. */
  function BumpedBy(v: Semver, parts: seq<string>): Option<Semver>
    decreases |parts|
  {
    if parts == [] then Some(v)
    else
      var w := Bumped(v, parts[0]);
      if w.None? then None else BumpedBy(w.value, parts[1..])
  }

  lemma {:induction false} BumpedByConcat(v: Semver, a: seq<string>, b: seq<string>)
    requires BumpedBy(v, a).Some?
    ensures BumpedBy(v, a + b) == BumpedBy(BumpedBy(v, a).value, b)
    decreases |a|
  {
    if a == [] {
      assert a + b == b;
    } else {
      assert (a + b)[0] == a[0] && (a + b)[1..] == a[1..] + b;
      BumpedByConcat(Bumped(v, a[0]).value, a[1..], b);
    }
  }

  lemma {:induction false} BumpedByPrefix(v: Semver, parts: seq<string>, n: nat)
    requires BumpedBy(v, parts).Some? && n <= |parts|
    ensures BumpedBy(v, parts[..n]).Some?
    decreases n
  {
    if n > 0 {
      BumpedByPrefix(Bumped(v, parts[0]).value, parts[1..], n - 1);
      assert parts[..n][1..] == parts[1..][..n - 1];
    }
  }

  /** Along any run of bumps each version is higher than all before it, and any two versions satisfy each
      other's pin exactly when no bump between them was a major one. */
  lemma {:induction false} RunOfBumps(v: Semver, parts: seq<string>, i: nat, j: nat)
    requires BumpedBy(v, parts).Some? && i < j <= |parts|
    ensures BumpedBy(v, parts[..i]).Some? && BumpedBy(v, parts[..j]).Some?
    ensures var a, b := BumpedBy(v, parts[..i]).value, BumpedBy(v, parts[..j]).value;
      && Precedes(a, b)
      && (a.major == b.major <==> "major" !in parts[i..j])
      && (Compatible(ReleaseOf(b), PinOf(a)) <==> "major" !in parts[i..j])
      && (Compatible(ReleaseOf(a), PinOf(b)) <==> "major" !in parts[i..j])
  {
    BumpedByPrefix(v, parts, i);
    BumpedByPrefix(v, parts, j);
    assert parts[..j] == parts[..i] + parts[i..j];
    BumpedByConcat(v, parts[..i], parts[i..j]);
    var a, b := BumpedBy(v, parts[..i]).value, BumpedBy(v, parts[..j]).value;
    RunRaises(a, parts[i..j]);
    RunRaisesMajor(a, parts[i..j]);
    PinAcceptsExactly(b, a);
    PinAcceptsExactly(a, b);
  }

  lemma {:induction false} RunRaises(v: Semver, parts: seq<string>)
    requires BumpedBy(v, parts).Some?
    ensures if parts == [] then BumpedBy(v, parts).value == v else Precedes(v, BumpedBy(v, parts).value)
    decreases |parts|
  {
    if parts != [] { RunRaises(Bumped(v, parts[0]).value, parts[1..]); }
  }

  lemma {:induction false} RunRaisesMajor(v: Semver, parts: seq<string>)
    requires BumpedBy(v, parts).Some?
    ensures var w := BumpedBy(v, parts).value; w.major >= v.major && (w.major == v.major <==> "major" !in parts)
    decreases |parts|
  {
    if parts != [] {
      RunRaisesMajor(Bumped(v, parts[0]).value, parts[1..]);
      assert parts == [parts[0]] + parts[1..];
    }
  }
}
