/** Sibling requirement strings of scripts/bump.py: recognising them and rewriting their pins. */
module Requirements {
  import opened Wrappers
  import opened Strings
  import opened Versions

  // ---------------------------------------------------------------- the sibling pattern

  predicate IsNameStart(c: char) {
    'a' <= c <= 'z' || '0' <= c <= '9'
  }

  predicate IsNameChar(c: char) {
    IsNameStart(c) || c == '-'
  }

  /** The characters an existing specifier may consist of. The hyphen is not one of them. */
  predicate IsSpecChar(c: char) {
    c in "<>=!~,.*" || IsSpace(c) || IsDigit(c) || 'a' <= c <= 'z' || 'A' <= c <= 'Z'
  }

  /** The two character classes of the pattern, spelled out. */
  lemma PatternCharacters(c: char)
    ensures IsNameStart(c) <==> c in "abcdefghijklmnopqrstuvwxyz" || c in "0123456789"
    ensures IsNameChar(c) <==> IsNameStart(c) || c == '-'
    ensures IsSpecChar(c) <==>
      || c in "<>=!~,.*" || IsSpace(c) || c in "0123456789"
      || c in "abcdefghijklmnopqrstuvwxyz" || c in "ABCDEFGHIJKLMNOPQRSTUVWXYZ"
  {
    LowerCaseLetters(c);
    UpperCaseLetters(c);
    assert '0' <= c <= '9' <==> c in "0123456789";
  }

  lemma LowerCaseLetters(c: char)
    ensures 'a' <= c <= 'z' <==> c in "abcdefghijklmnopqrstuvwxyz"
  {
  }

  lemma UpperCaseLetters(c: char)
    ensures 'A' <= c <= 'Z' <==> c in "ABCDEFGHIJKLMNOPQRSTUVWXYZ"
  {
  }

  const PREFIX := "varco-"

  /** `varco-[a-z0-9][a-z0-9-]*`. */
  predicate IsName(s: string) {
    && PREFIX <= s && |s| > |PREFIX| && IsNameStart(s[|PREFIX|])
    && forall i :: |PREFIX| < i < |s| ==> IsNameChar(s[i])
  }

  predicate IsSpec(s: string) {
    forall i :: 0 <= i < |s| ==> IsSpecChar(s[i])
  }

  /** The pattern matches `s` with `name` as its first group. */
  predicate MatchesWith(s: string, name: string) {
    name <= s && IsName(name) && IsSpec(s[|name|..])
  }

  /** How far name characters go on from index `i`. */
  function NameEnd(s: string, i: nat): (e: nat)
    requires i <= |s|
    ensures i <= e <= |s|
    ensures forall k :: i <= k < e ==> IsNameChar(s[k])
    ensures e < |s| ==> !IsNameChar(s[e])
    decreases |s| - i
  {
    if i < |s| && IsNameChar(s[i]) then NameEnd(s, i + 1) else i
  }

  /** The first group of the match, which takes as many name characters as it can. */
  function SiblingName(s: string): Option<string> {
    if PREFIX <= s && |s| > |PREFIX| && IsNameStart(s[|PREFIX|]) && IsSpec(s[NameEnd(s, |PREFIX| + 1)..])
    then Some(s[..NameEnd(s, |PREFIX| + 1)])
    else None
  }

  /** Taking the longest name is all the pattern's backtracking comes to: it matches exactly when the
      longest name does, and then the longest name is the group. */
  lemma SiblingNameIsTheMatch(s: string, name: string)
    ensures MatchesWith(s, name) ==> SiblingName(s).Some? && name <= SiblingName(s).value
    ensures SiblingName(s).Some? ==> MatchesWith(s, SiblingName(s).value)
  {
    if MatchesWith(s, name) {
      var e := NameEnd(s, |PREFIX| + 1);
      assert forall i :: |PREFIX| < i < |name| ==> s[i] == name[i];
      assert |name| <= e;
      forall i | 0 <= i < |s[e..]|
        ensures IsSpecChar(s[e..][i])
      {
        assert s[e..][i] == s[|name|..][e - |name| + i];
      }
    }
    if SiblingName(s).Some? {
      var n := SiblingName(s).value;
      assert n[|PREFIX|] == s[|PREFIX|];
    }
  }

  // ---------------------------------------------------------------- pinning

  function Canonical(name: string, major: string): string {
    name + "~=" + major + ".0"
  }

  /** One requirement after pinning; what is not a sibling stays as it is. */
  function Pinned(item: string, major: string): string {
    var name := SiblingName(item);
    if name.None? then item else Canonical(name.value, major)
  }

  function PinnedAll(items: seq<string>, major: string): (r: seq<string>)
    ensures |r| == |items|
  {
    seq(|items|, i requires 0 <= i < |items| => Pinned(items[i], major))
  }

  /** `_pin_sibling_strings`: index by index, writing only what differs. */
  method PinSiblingStrings(items: seq<string>, major: string) returns (pinned: seq<string>, changed: bool)
    ensures pinned == PinnedAll(items, major)
    ensures changed <==> pinned != items
  {
    pinned := items;
    changed := false;
    var i := 0;
    while i < |items|
      invariant 0 <= i <= |items| == |pinned|
      invariant forall k :: 0 <= k < i ==> pinned[k] == Pinned(items[k], major)
      invariant forall k :: i <= k < |items| ==> pinned[k] == items[k]
      invariant changed <==> exists k :: 0 <= k < i && pinned[k] != items[k]
    {
      var current := pinned[i];
      var name := SiblingName(current);
      if name.Some? {
        var canonical := Canonical(name.value, major);
        if current != canonical {
          pinned := pinned[i := canonical];
          changed := true;
        }
      }
      i := i + 1;
    }
  }

  /** A canonical pin is recognised again, under the same name, exactly when the major text consists of
      specifier characters. */
  lemma CanonicalIsSibling(name: string, major: string)
    requires IsName(name)
    ensures SiblingName(Canonical(name, major)) == if IsSpec(major) then Some(name) else None
  {
    var s := Canonical(name, major);
    var e := NameEnd(s, |PREFIX| + 1);
    assert forall i :: 0 <= i < |name| ==> s[i] == name[i];
    assert s[|name|] == '~';
    assert e == |name|;
    assert s[..e] == name;
    var spec := s[e..];
    assert spec == "~=" + major + ".0";
    if IsSpec(major) {
      forall i | 0 <= i < |spec|
        ensures IsSpecChar(spec[i])
      {
        assert 2 <= i < 2 + |major| ==> spec[i] == major[i - 2];
      }
    } else {
      var i :| 0 <= i < |major| && !IsSpecChar(major[i]);
      assert spec[i + 2] == major[i];
    }
  }

  lemma SiblingNameIsName(s: string)
    ensures SiblingName(s).Some? ==> IsName(SiblingName(s).value)
  {
    SiblingNameIsTheMatch(s, "");
  }

  lemma BareNameIsSibling(name: string)
    requires IsName(name)
    ensures SiblingName(name) == Some(name)
  {
    assert name[|name|..] == [];
    SiblingNameIsTheMatch(name, name);
    assert NameEnd(name, |PREFIX| + 1) == |name| && name[..|name|] == name;
  }

  lemma CanonicalInjective(name: string, a: string, b: string)
    requires Canonical(name, a) == Canonical(name, b)
    ensures a == b
  {
    assert |a| == |b|;
    assert a == Canonical(name, a)[|name| + 2..|name| + 2 + |a|];
    assert b == Canonical(name, b)[|name| + 2..|name| + 2 + |b|];
  }

  /** Pinning twice: the same pin again changes nothing, and the later pin wins exactly when the earlier
      major text left the requirement recognisable (or was the same, or it was no sibling at all). */
  lemma PinTwice(item: string, a: string, b: string)
    ensures Pinned(Pinned(item, a), a) == Pinned(item, a)
    ensures Pinned(Pinned(item, a), b) == Pinned(item, b) <==> SiblingName(item).None? || IsSpec(a) || a == b
  {
    var name := SiblingName(item);
    if name.Some? {
      SiblingNameIsName(item);
      CanonicalIsSibling(name.value, a);
      if Canonical(name.value, a) == Canonical(name.value, b) { CanonicalInjective(name.value, a, b); }
    }
  }

  /** The release a requirement is pinned to with `~=`. */
  function PinnedTo(item: string): Option<Release> {
    var name := SiblingName(item);
    if name.Some? && "~=" <= item[|name.value|..] then ReadRelease(item[|name.value| + 2..]) else None
  }

  /** PEP 440: the requirement, as it is written, accepts the version. */
  predicate Admits(item: string, v: Semver) {
    PinnedTo(item).Some? && |PinnedTo(item).value| >= 2 && Compatible(ReleaseOf(v), PinnedTo(item).value)
  }

  /** The requirement text written for a version accepts exactly the versions with the same major number,
      however that number is written. */
  lemma CanonicalAdmitsExactly(name: string, major: string, v: Semver, u: Semver)
    requires IsName(name) && IsNumber(major) && Number(major) == v.major
    ensures PinnedTo(Canonical(name, major)) == Some(PinOf(v))
    ensures Admits(Canonical(name, major), u) <==> u.major == v.major
  {
    CanonicalPinnedTo(name, major, v);
    PinAcceptsExactly(u, v);
  }

  lemma CanonicalPinnedTo(name: string, major: string, v: Semver)
    requires IsName(name) && IsNumber(major) && Number(major) == v.major
    ensures PinnedTo(Canonical(name, major)) == Some(PinOf(v))
  {
    var item := Canonical(name, major);
    DigitsAreSpec(major);
    CanonicalIsSibling(name, major);
    assert item[|name|..] == "~=" + major + ".0" && item[|name| + 2..] == major + ".0";
    PinTextReads(v, major);
  }

  lemma DigitsAreSpec(s: string)
    requires AllDigits(s)
    ensures IsSpec(s)
  {
  }
}
