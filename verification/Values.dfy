/** The Python values that filters compare and sorts order: numbers (booleans count as 0 and 1),
    strings and None. */
module Values {
  import opened Wrappers

  datatype Value = Null | Bool(b: bool) | Int(i: int) | Float(r: real) | Str(s: string)

  predicate IsNumber(v: Value) {
    v.Bool? || v.Int? || v.Float?
  }

  function Number(v: Value): real
    requires IsNumber(v)
  {
    match v
    case Bool(b) => if b then 1.0 else 0.0
    case Int(i) => i as real
    case Float(r) => r
  }

  /** `a == b`, which never raises. */
  predicate Eq(a: Value, b: Value) {
    if IsNumber(a) && IsNumber(b) then Number(a) == Number(b) else a == b
  }

  /** Code-point order of strings. */
  predicate StrLess(a: string, b: string)
    decreases |a|
  {
    if b == [] then false
    else if a == [] then true
    else a[0] < b[0] || (a[0] == b[0] && StrLess(a[1..], b[1..]))
  }

  /** `a < b`, or None where the comparison raises: mixed kinds, and None on either side. */
  function Less(a: Value, b: Value): Option<bool> {
    if IsNumber(a) && IsNumber(b) then Some(Number(a) < Number(b))
    else if a.Str? && b.Str? then Some(StrLess(a.s, b.s))
    else None
  }

  lemma {:induction false} StrLessAsymmetric(a: string, b: string)
    ensures !(StrLess(a, b) && StrLess(b, a))
    decreases |a|
  {
    if a != [] && b != [] { StrLessAsymmetric(a[1..], b[1..]); }
  }

  lemma {:induction false} StrLessIrreflexive(a: string)
    ensures !StrLess(a, a)
  {
    if a != [] { StrLessIrreflexive(a[1..]); }
  }

  /** The strings agree up to `k`, where the first ends, or has the smaller code point. */
  ghost predicate FallsBehindAt(a: string, b: string, k: nat) {
    k <= |a| && k < |b| && a[..k] == b[..k] && (k == |a| || a[k] < b[k])
  }

  /** Dictionary order: `a` is a proper prefix of `b`, or has the smaller code point at the first place
      where they differ. */
  lemma {:induction false} StrLessExactly(a: string, b: string)
    ensures StrLess(a, b) <==> exists k: nat :: FallsBehindAt(a, b, k)
    decreases |a|
  {
    if a == [] || b == [] || a[0] != b[0] {
      assert StrLess(a, b) ==> FallsBehindAt(a, b, 0);
      assert forall k: nat :: FallsBehindAt(a, b, k) && k > 0 ==> a[..k][0] == b[..k][0];
    } else {
      StrLessExactly(a[1..], b[1..]);
      if k: nat :| FallsBehindAt(a[1..], b[1..], k) {
        assert a[..k + 1] == [a[0]] + a[1..][..k] && b[..k + 1] == [b[0]] + b[1..][..k];
        assert FallsBehindAt(a, b, k + 1);
      }
      if k: nat :| FallsBehindAt(a, b, k) {
        assert k > 0;
        assert a[1..][..k - 1] == a[..k][1..] && b[1..][..k - 1] == b[..k][1..];
        assert FallsBehindAt(a[1..], b[1..], k - 1);
      }
    }
  }

  lemma {:induction false} StrLessTotal(a: string, b: string)
    ensures a == b || StrLess(a, b) || StrLess(b, a)
    decreases |a|
  {
    if a != [] && b != [] {
      StrLessTotal(a[1..], b[1..]);
      assert a == [a[0]] + a[1..] && b == [b[0]] + b[1..];
    }
  }

  lemma {:induction false} StrLessTransitive(a: string, b: string, c: string)
    requires !StrLess(b, a) && !StrLess(c, b)
    ensures !StrLess(c, a)
    decreases |a|
  {
    if a != [] && b != [] && c != [] && a[0] == b[0] == c[0] { StrLessTransitive(a[1..], b[1..], c[1..]); }
  }

  /** `a <= b` fails to raise exactly where `a < b` does, and "not greater" is then a total preorder. */
  lemma NotLessIsTotalPreorder(a: Value, b: Value, c: Value)
    ensures Less(a, b).Some? <==> Less(b, a).Some?
    ensures Less(a, b).Some? ==> !(Less(a, b).value && Less(b, a).value)
    ensures Less(b, a) == Some(false) && Less(c, b) == Some(false) ==> Less(c, a) == Some(false)
  {
    if a.Str? && b.Str? { StrLessAsymmetric(a.s, b.s); }
    if a.Str? && b.Str? && c.Str? && !StrLess(b.s, a.s) && !StrLess(c.s, b.s) { StrLessTransitive(a.s, b.s, c.s); }
  }
}
