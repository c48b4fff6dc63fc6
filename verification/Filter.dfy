/** The query AST, the in-memory visitor of examples/11 that compiles it to predicates, and the
    optimiser that runs before it. */
module Filter {
  import opened Wrappers
  import opened Values

  /** A comparison's right-hand side: a scalar (or None) or a list. */
  datatype Operand = One(v: Value) | Many(vs: seq<Value>)

  /** An operator with its value. IN always carries a list and the null tests carry nothing, as the
      node's own construction check enforces. */
  datatype Test =
    | Equal(x: Operand)
    | NotEqual(x: Operand)
    | Greater(x: Operand)
    | Less(x: Operand)
    | GreaterEqual(x: Operand)
    | LessEqual(x: Operand)
    | Like(x: Operand)
    | In(vs: seq<Value>)
    | IsNull
    | IsNotNull

  datatype Node =
    | Comparison(field: string, test: Test)
    | And(left: Node, right: Node)
    | Or(left: Node, right: Node)
    | Not(child: Node)

  /** What evaluating a predicate can do. */
  datatype Outcome = True | False | Raises

  type Obj = map<string, Value>

  /** How the host renders a value in lower case: `str(x).lower()`. */
  type Lower = Operand -> string

  function OfBool(b: bool): Outcome {
    if b then True else False
  }

  // ---------------------------------------------------------------- the visitor

  /** A missing attribute reads as None. */
  function Attribute(o: Obj, field: string): Value {
    if field in o then o[field] else Null
  }

  predicate Substring(needle: string, hay: string) {
    needle <= hay || (hay != [] && Substring(needle, hay[1..]))
  }

  /** An ordering operator on a present value: raises on kinds that cannot be ordered. */
  function Ordered(less: Option<bool>, negate: bool): Outcome {
    match less
    case None => Raises
    case Some(b) => OfBool(b != negate)
  }

  /** The body of the comparison predicate. */
  function Evaluate(lower: Lower, actual: Value, test: Test): Outcome {
    match test
    case Equal(x) => OfBool(x.One? && Eq(actual, x.v))
    case NotEqual(x) => OfBool(!(x.One? && Eq(actual, x.v)))
    case Greater(x) =>
      if actual.Null? then False else if x.Many? then Raises else Ordered(Values.Less(x.v, actual), false)
    case Less(x) =>
      if actual.Null? then False else if x.Many? then Raises else Ordered(Values.Less(actual, x.v), false)
    case GreaterEqual(x) =>
      if actual.Null? then False else if x.Many? then Raises else Ordered(Values.Less(actual, x.v), true)
    case LessEqual(x) =>
      if actual.Null? then False else if x.Many? then Raises else Ordered(Values.Less(x.v, actual), true)
    case Like(x) => OfBool(x != One(Null) && Substring(lower(x), lower(One(actual))))
    case In(vs) => OfBool(exists v :: v in vs && Eq(actual, v))
    case IsNull => OfBool(actual.Null?)
    case IsNotNull => OfBool(!actual.Null?)
  }

  type Predicate = Obj -> Outcome

  function CombineAnd(left: Predicate, right: Predicate): Predicate {
    o => match left(o) case True => right(o) case other => other
  }

  function CombineOr(left: Predicate, right: Predicate): Predicate {
    o => match left(o) case False => right(o) case other => other
  }

  function CombineNot(inner: Predicate): Predicate {
    o => match inner(o) case True => False case False => True case Raises => Raises
  }

  /** The post-order walk that turns an AST into one predicate. */
  function Compile(lower: Lower, n: Node): Predicate {
    match n
    case Comparison(field, test) => o => Evaluate(lower, Attribute(o, field), test)
    case And(l, r) => CombineAnd(Compile(lower, l), Compile(lower, r))
    case Or(l, r) => CombineOr(Compile(lower, l), Compile(lower, r))
    case Not(c) => CombineNot(Compile(lower, c))
  }

  // ---------------------------------------------------------------- what a filter means

  /** The leaves an evaluation looks at, in order: those it reaches by going left to right and
      stopping as soon as the result is known or a leaf raises. */
  function Visited(lower: Lower, n: Node, o: Obj): seq<Node> {
    match n
    case Comparison(_, _) => [n]
    case And(l, r) => Visited(lower, l, o) + if Compile(lower, l)(o) == True then Visited(lower, r, o) else []
    case Or(l, r) => Visited(lower, l, o) + if Compile(lower, l)(o) == False then Visited(lower, r, o) else []
    case Not(c) => Visited(lower, c, o)
  }

  /** Classical truth, for objects on which no leaf raises. */
  predicate Holds(lower: Lower, n: Node, o: Obj) {
    match n
    case Comparison(field, test) => Evaluate(lower, Attribute(o, field), test) == True
    case And(l, r) => Holds(lower, l, o) && Holds(lower, r, o)
    case Or(l, r) => Holds(lower, l, o) || Holds(lower, r, o)
    case Not(c) => !Holds(lower, c, o)
  }

  /** The comparisons of an AST from left to right. */
  function Leaves(n: Node): (ls: seq<Node>)
    ensures |ls| > 0
  {
    match n
    case Comparison(_, _) => [n]
    case And(l, r) => Leaves(l) + Leaves(r)
    case Or(l, r) => Leaves(l) + Leaves(r)
    case Not(c) => Leaves(c)
  }

  predicate LeafRaises(lower: Lower, leaf: Node, o: Obj) {
    leaf.Comparison? && Evaluate(lower, Attribute(o, leaf.field), leaf.test) == Raises
  }

  /** The evaluation meets raising leaves only at its end, raises exactly if it meets one, and otherwise
      returns the classical truth value. */
  ghost predicate MeansRight(lower: Lower, n: Node, o: Obj) {
    var leaves, outcome := Visited(lower, n, o), Compile(lower, n)(o);
    && |leaves| > 0
    && (forall i :: 0 <= i < |leaves| - 1 ==> !LeafRaises(lower, leaves[i], o))
    && (outcome == Raises <==> LeafRaises(lower, leaves[|leaves| - 1], o))
    && (outcome != Raises ==> (outcome == True <==> Holds(lower, n, o)))
  }

  lemma AndMeansRight(lower: Lower, l: Node, r: Node, o: Obj)
    requires MeansRight(lower, l, o) && MeansRight(lower, r, o)
    ensures MeansRight(lower, And(l, r), o)
  {
    MeetsNone(lower, Visited(lower, l, o), Visited(lower, r, o), o);
  }

  lemma OrMeansRight(lower: Lower, l: Node, r: Node, o: Obj)
    requires MeansRight(lower, l, o) && MeansRight(lower, r, o)
    ensures MeansRight(lower, Or(l, r), o)
  {
    MeetsNone(lower, Visited(lower, l, o), Visited(lower, r, o), o);
  }

  /** Two stretches of leaves one after the other. */
  lemma MeetsNone(lower: Lower, a: seq<Node>, b: seq<Node>, o: Obj)
    requires |a| > 0 && |b| > 0 && (forall i :: 0 <= i < |a| - 1 ==> !LeafRaises(lower, a[i], o))
    requires forall i :: 0 <= i < |b| - 1 ==> !LeafRaises(lower, b[i], o)
    ensures !LeafRaises(lower, a[|a| - 1], o) ==>
      forall i :: 0 <= i < |a + b| - 1 ==> !LeafRaises(lower, (a + b)[i], o)
    ensures a + [] == a
  {
  }

  /** Compiled predicates mean what the AST says: an evaluation that meets no raising leaf returns the
      classical truth value, and one that raises does so at the last leaf it looked at, every leaf
      before that having been fine. */
  lemma {:induction false} CompiledMeaning(lower: Lower, n: Node, o: Obj)
    ensures MeansRight(lower, n, o)
  {
    match n
    case Comparison(_, _) => {}
    case And(l, r) => { CompiledMeaning(lower, l, o); CompiledMeaning(lower, r, o); AndMeansRight(lower, l, r, o); }
    case Or(l, r) => { CompiledMeaning(lower, l, o); CompiledMeaning(lower, r, o); OrMeansRight(lower, l, r, o); }
    case Not(c) => CompiledMeaning(lower, c, o);
  }

  // ---------------------------------------------------------------- the optimiser

  function Optimize(n: Node): Node {
    match n
    case Comparison(_, _) => n
    case And(l, r) =>
      var left := Optimize(l);
      var right := Optimize(r);
      if left.And? then And(left.left, And(left.right, right)) else And(left, right)
    case Or(l, r) => Or(Optimize(l), Optimize(r))
    case Not(c) =>
      var child := Optimize(c);
      if child.Not? then child.child else Not(child)
  }

  /** The two filters have the same outcome on the object and look at the same leaves in the same order. */
  predicate Alike(lower: Lower, m: Node, n: Node, o: Obj) {
    Compile(lower, m)(o) == Compile(lower, n)(o) && Visited(lower, m, o) == Visited(lower, n, o)
  }

  lemma AndAssociates(lower: Lower, a: Node, b: Node, c: Node, o: Obj)
    ensures Alike(lower, And(a, And(b, c)), And(And(a, b), c), o)
  {
  }

  lemma AlikeAnd(lower: Lower, l: Node, l': Node, r: Node, r': Node, o: Obj)
    requires Alike(lower, l, l', o) && Alike(lower, r, r', o)
    ensures Alike(lower, And(l, r), And(l', r'), o)
  {
  }

  /** On every object the optimised filter returns, or raises, what the original does, and it looks at
      the same leaves in the same order. */
  lemma {:induction false} OptimizePreservesMeaning(lower: Lower, n: Node, o: Obj)
    ensures Compile(lower, Optimize(n))(o) == Compile(lower, n)(o)
    ensures Visited(lower, Optimize(n), o) == Visited(lower, n, o)
  {
    match n
    case Comparison(_, _) => {}
    case And(l, r) => {
      OptimizePreservesMeaning(lower, l, o);
      OptimizePreservesMeaning(lower, r, o);
      var left, right := Optimize(l), Optimize(r);
      AlikeAnd(lower, left, l, right, r, o);
      if left.And? { AndAssociates(lower, left.left, left.right, right, o); }
    }
    case Or(l, r) => { OptimizePreservesMeaning(lower, l, o); OptimizePreservesMeaning(lower, r, o); }
    case Not(c) => OptimizePreservesMeaning(lower, c, o);
  }

  predicate NoDoubleNot(n: Node) {
    match n
    case Comparison(_, _) => true
    case And(l, r) => NoDoubleNot(l) && NoDoubleNot(r)
    case Or(l, r) => NoDoubleNot(l) && NoDoubleNot(r)
    case Not(c) => !c.Not? && NoDoubleNot(c)
  }

  /** Right-leaning normal form: no AND has an AND as its left operand. */
  predicate RightLeaning(n: Node) {
    match n
    case Comparison(_, _) => true
    case And(l, r) => !l.And? && RightLeaning(l) && RightLeaning(r)
    case Or(l, r) => RightLeaning(l) && RightLeaning(r)
    case Not(c) => RightLeaning(c)
  }

  /** One pass removes every double negation and keeps the comparisons in order. */
  lemma {:induction false} OptimizeShape(n: Node)
    ensures NoDoubleNot(Optimize(n))
    ensures Leaves(Optimize(n)) == Leaves(n)
  {
    match n
    case Comparison(_, _) => {}
    case And(l, r) => {
      OptimizeShape(l);
      OptimizeShape(r);
      var left := Optimize(l);
      if left.And? {
        assert Leaves(left.left) + (Leaves(left.right) + Leaves(Optimize(r))) == Leaves(left) + Leaves(Optimize(r));
      }
    }
    case Or(l, r) => { OptimizeShape(l); OptimizeShape(r); }
    case Not(c) => OptimizeShape(c);
  }

  /** How many conjuncts a node contributes to the AND chain it stands in. A pair of NOTs is looked
      through, since one pass removes it. */
  function Width(n: Node): nat {
    match n
    case And(l, r) => Width(l) + Width(r)
    case Not(Not(c)) => Width(c)
    case _ => 1
  }

  /** Every AND of the AST has a left operand of at most two conjuncts. */
  predicate ShortLefts(n: Node) {
    match n
    case Comparison(_, _) => true
    case And(l, r) => Width(l) <= 2 && ShortLefts(l) && ShortLefts(r)
    case Or(l, r) => ShortLefts(l) && ShortLefts(r)
    case Not(c) => ShortLefts(c)
  }

  lemma {:induction false} OptimizeThroughDoubleNot(c: Node)
    ensures Optimize(Not(Not(c))) == Optimize(c)
  {
    OptimizeShape(c);
  }

  lemma {:induction false} OptimizeKeepsWidth(n: Node)
    ensures Width(Optimize(n)) == Width(n)
    ensures Width(n) > 0
  {
    match n
    case Comparison(_, _) => {}
    case And(l, r) => { OptimizeKeepsWidth(l); OptimizeKeepsWidth(r); }
    case Or(_, _) => {}
    case Not(c) => {
      if c.Not? {
        OptimizeThroughDoubleNot(c.child);
        OptimizeKeepsWidth(c.child);
      } else {
        OptimizeShape(c);
      }
    }
  }

  /** The documented "right-leaning normal form" is what one pass produces exactly for ASTs in which no
      AND has more than two conjuncts on its left. */
  lemma {:induction false} RightLeaningExactly(n: Node)
    ensures RightLeaning(Optimize(n)) <==> ShortLefts(n)
  {
    match n
    case Comparison(_, _) => {}
    case And(l, r) => {
      RightLeaningExactly(l);
      RightLeaningExactly(r);
      OptimizeKeepsWidth(l);
      OptimizeShape(l);
      ChainWidth(Optimize(l));
    }
    case Or(l, r) => { RightLeaningExactly(l); RightLeaningExactly(r); }
    case Not(c) => RightLeaningExactly(c);
  }

  /** Without double negations only ANDs are wider than one. */
  lemma ChainWidth(n: Node)
    requires NoDoubleNot(n)
    ensures Width(n) >= 1 && (Width(n) > 1 <==> n.And?)
    ensures n.And? ==> (Width(n) == 2 <==> !n.left.And? && !n.right.And?)
  {
  }

  /** Four conjuncts chained to the left defeat it. */
  lemma {:induction false} LeftChainOfFour(a: Node, b: Node, c: Node, d: Node)
    requires a.Comparison? && b.Comparison? && c.Comparison? && d.Comparison?
    ensures Optimize(And(And(And(a, b), c), d)) == And(a, And(And(b, c), d))
    ensures !RightLeaning(And(a, And(And(b, c), d)))
  {
    assert Optimize(And(a, b)) == And(a, b);
    assert Optimize(And(And(a, b), c)) == And(a, And(b, c));
  }

  /** The optimiser leaves an AST alone exactly when it is in normal form, so a second pass changes
      something exactly when the first fell short. */
  lemma {:induction false} FixedPointExactly(n: Node)
    ensures Optimize(n) == n <==> RightLeaning(n) && NoDoubleNot(n)
  {
    OptimizeShape(n);
    if NoDoubleNot(n) {
      match n
      case Comparison(_, _) => {}
      case And(l, r) => {
        FixedPointExactly(l);
        FixedPointExactly(r);
        OptimizeShape(l);
        if l.And? {
          assert |Leaves(Optimize(l).left)| < |Leaves(l)|;
        }
      }
      case Or(l, r) => { FixedPointExactly(l); FixedPointExactly(r); }
      case Not(c) => FixedPointExactly(c);
    }
  }

  // ---------------------------------------------------------------- repeated passes

  /** The optimiser run `k` times. */
  function Repeated(n: Node, k: nat): Node {
    if k == 0 then n else Optimize(Repeated(n, k - 1))
  }

  /** The most conjuncts that any AND of the AST has on its left; 0 if there is no AND. */
  function MaxLeft(n: Node): nat {
    match n
    case Comparison(_, _) => 0
    case And(l, r) => Max(Width(l), Max(MaxLeft(l), MaxLeft(r)))
    case Or(l, r) => Max(MaxLeft(l), MaxLeft(r))
    case Not(c) => MaxLeft(c)
  }

  function Max(a: nat, b: nat): nat {
    if a < b then b else a
  }

  /** What a pass makes of that number. */
  function Shortened(m: nat): nat {
    if m <= 1 then m else if m == 2 then 1 else m - 1
  }

  /** After a pass the first operand of an AND chain stands alone. */
  lemma {:induction false} HeadStandsAlone(n: Node)
    ensures Optimize(n).And? ==> Width(Optimize(n).left) == 1 && !Optimize(n).left.And?
  {
    match n
    case Comparison(_, _) => {}
    case And(l, r) => {
      HeadStandsAlone(l);
      OptimizeShape(l);
      ChainWidth(Optimize(l));
    }
    case Or(_, _) => {}
    case Not(c) => {
      if c.Not? {
        OptimizeThroughDoubleNot(c.child);
        HeadStandsAlone(c.child);
      } else {
        OptimizeShape(c);
        HeadOfNot(c);
      }
    }
  }

  /** Only a pair of NOTs can turn into an AND. */
  lemma HeadOfNot(c: Node)
    requires !c.Not?
    ensures !Optimize(Not(c)).And?
  {
  }

  lemma {:induction false} LeftSpineShortens(l: Node, r: Node)
    requires MaxLeft(Optimize(l)) == Shortened(MaxLeft(l)) && MaxLeft(Optimize(r)) == Shortened(MaxLeft(r))
    ensures MaxLeft(Optimize(And(l, r))) == Shortened(MaxLeft(And(l, r)))
  {
    var left, right := Optimize(l), Optimize(r);
    HeadStandsAlone(l);
    OptimizeKeepsWidth(l);
    OptimizeShape(l);
    ChainWidth(left);
    if left.And? {
      ChainWidth(left.left);
      assert MaxLeft(left) == Max(1, Max(MaxLeft(left.left), MaxLeft(left.right)));
      assert Width(left.right) == Width(l) - 1;
    }
  }

  /** One pass takes exactly one conjunct off the longest left operand. */
  lemma {:induction false} PassShortens(n: Node)
    ensures MaxLeft(Optimize(n)) == Shortened(MaxLeft(n))
  {
    match n
    case Comparison(_, _) => {}
    case And(l, r) => { PassShortens(l); PassShortens(r); LeftSpineShortens(l, r); }
    case Or(l, r) => { PassShortens(l); PassShortens(r); }
    case Not(c) => PassShortens(c);
  }

  lemma {:induction false} RightLeaningIsShort(n: Node)
    requires NoDoubleNot(n)
    ensures RightLeaning(n) <==> MaxLeft(n) <= 1
  {
    match n
    case Comparison(_, _) => {}
    case And(l, r) => { RightLeaningIsShort(l); RightLeaningIsShort(r); ChainWidth(l); }
    case Or(l, r) => { RightLeaningIsShort(l); RightLeaningIsShort(r); }
    case Not(c) => RightLeaningIsShort(c);
  }

  lemma {:induction false} PassesShape(n: Node, k: nat)
    ensures Leaves(Repeated(n, k)) == Leaves(n)
    ensures k > 0 ==> NoDoubleNot(Repeated(n, k))
    ensures MaxLeft(Repeated(n, k)) <= 1 <==> MaxLeft(n) <= k + 1
    ensures MaxLeft(n) > k + 1 ==> MaxLeft(Repeated(n, k)) == MaxLeft(n) - k
  {
    if k > 0 {
      PassesShape(n, k - 1);
      OptimizeShape(Repeated(n, k - 1));
      PassShortens(Repeated(n, k - 1));
    }
  }

  /** How many passes it takes: after `k` of them the AST is in the documented form exactly when no AND of
      the original had more than k + 1 conjuncts on its left, and then further passes change nothing. */
  lemma PassesNeededExactly(n: Node, k: nat)
    requires k > 0
    ensures RightLeaning(Repeated(n, k)) <==> MaxLeft(n) <= k + 1
    ensures NoDoubleNot(Repeated(n, k)) && Leaves(Repeated(n, k)) == Leaves(n)
    ensures Repeated(n, k + 1) == Repeated(n, k) <==> MaxLeft(n) <= k + 1
  {
    PassesShape(n, k);
    RightLeaningIsShort(Repeated(n, k));
    FixedPointExactly(Repeated(n, k));
  }

  /** Repeated passes always get there: as many as there are comparisons are enough. */
  lemma {:induction false} EnoughPasses(n: Node)
    ensures RightLeaning(Repeated(n, |Leaves(n)|)) && NoDoubleNot(Repeated(n, |Leaves(n)|))
  {
    WidthBounds(n);
    PassesNeededExactly(n, |Leaves(n)|);
  }

  lemma {:induction false} WidthBounds(n: Node)
    ensures Width(n) <= |Leaves(n)| && MaxLeft(n) < |Leaves(n)|
  {
    match n
    case Comparison(_, _) => {}
    case And(l, r) => { WidthBounds(l); WidthBounds(r); }
    case Or(l, r) => { WidthBounds(l); WidthBounds(r); }
    case Not(c) => { WidthBounds(c); if c.Not? { WidthBounds(c.child); } }
  }

  /** And they keep the meaning. */
  lemma {:induction false} PassesPreserveMeaning(lower: Lower, n: Node, k: nat, o: Obj)
    ensures Alike(lower, Repeated(n, k), n, o)
  {
    if k > 0 {
      PassesPreserveMeaning(lower, n, k - 1, o);
      OptimizePreservesMeaning(lower, Repeated(n, k - 1), o);
    }
  }

  // ---------------------------------------------------------------- equivalences between filters

  /** The OR-chain of equality tests. */
  function AnyEqual(field: string, vs: seq<Value>): Node
    requires |vs| > 0
    decreases |vs|
  {
    if |vs| == 1 then Comparison(field, Equal(One(vs[0])))
    else Or(Comparison(field, Equal(One(vs[0]))), AnyEqual(field, vs[1..]))
  }

  /** IN over a list is the OR-chain of its equalities; over an empty list it is false. */
  lemma {:induction false} InIsAnyEqual(lower: Lower, field: string, vs: seq<Value>, o: Obj)
    ensures vs == [] ==> Compile(lower, Comparison(field, In(vs)))(o) == False
    ensures vs != [] ==> Compile(lower, Comparison(field, In(vs)))(o) == Compile(lower, AnyEqual(field, vs))(o)
    decreases |vs|
  {
    if |vs| > 1 {
      InIsAnyEqual(lower, field, vs[1..], o);
      assert forall v :: v in vs <==> v == vs[0] || v in vs[1..];
    }
  }

  /** NOT(=) is != on every object; NOT(>) is <= and NOT(<) is >= exactly where the field is not null. */
  lemma NegationDuality(lower: Lower, field: string, x: Operand, o: Obj)
    ensures Compile(lower, Not(Comparison(field, Equal(x))))(o) == Compile(lower, Comparison(field, NotEqual(x)))(o)
    ensures Compile(lower, Not(Comparison(field, Greater(x))))(o) == Compile(lower, Comparison(field, LessEqual(x)))(o)
            <==> Attribute(o, field) != Null
    ensures Compile(lower, Not(Comparison(field, Less(x))))(o) == Compile(lower, Comparison(field, GreaterEqual(x)))(o)
            <==> Attribute(o, field) != Null
  {
  }

  /** The outcome of one test of a field. */
  function Tested(lower: Lower, field: string, test: Test, o: Obj): Outcome {
    Compile(lower, Comparison(field, test))(o)
  }

  /** On a present field and a scalar the six comparisons agree with one another: either the two kinds
      cannot be ordered and all four order tests raise, or exactly one of <, = and > is true and the
      inclusive tests are the disjunctions their names say. */
  lemma OrderLaws(lower: Lower, field: string, v: Value, o: Obj)
    requires Attribute(o, field) != Null
    ensures
      var actual := Attribute(o, field);
      var lt := Tested(lower, field, Less(One(v)), o);
      var eq := Tested(lower, field, Equal(One(v)), o);
      var gt := Tested(lower, field, Greater(One(v)), o);
      var le := Tested(lower, field, LessEqual(One(v)), o);
      var ge := Tested(lower, field, GreaterEqual(One(v)), o);
      if (IsNumber(actual) && IsNumber(v)) || (actual.Str? && v.Str?) then
        && ((lt == True && eq == gt == False) || (eq == True && lt == gt == False) || (gt == True && lt == eq == False))
        && le == OfBool(lt == True || eq == True)
        && ge == OfBool(gt == True || eq == True)
      else lt == gt == le == ge == Raises && eq == False
  {
    var actual := Attribute(o, field);
    if actual.Str? && v.Str? {
      StrLessAsymmetric(actual.s, v.s);
      StrLessTotal(actual.s, v.s);
      StrLessIrreflexive(v.s);
    }
  }

  /** What the comparisons say of numbers of any kind, booleans counting as 0 and 1. */
  lemma NumberTests(lower: Lower, field: string, o: Obj, v: Value, x: real, y: real)
    requires IsReal(Attribute(o, field), x) && IsReal(v, y)
    ensures Tested(lower, field, Greater(One(v)), o) == OfBool(x > y)
    ensures Tested(lower, field, Less(One(v)), o) == OfBool(x < y)
    ensures Tested(lower, field, GreaterEqual(One(v)), o) == OfBool(x >= y)
    ensures Tested(lower, field, LessEqual(One(v)), o) == OfBool(x <= y)
    ensures Tested(lower, field, Equal(One(v)), o) == OfBool(x == y)
    ensures Tested(lower, field, NotEqual(One(v)), o) == OfBool(x != y)
  {
  }

  /** The value is this number. */
  ghost predicate IsReal(v: Value, x: real) {
    || v == Float(x)
    || (exists i: int :: v == Int(i) && i as real == x)
    || (v == Bool(false) && x == 0.0)
    || (v == Bool(true) && x == 1.0)
  }

  /** What the comparisons say of strings: dictionary order by code points. */
  lemma StringTests(lower: Lower, field: string, o: Obj, a: string, b: string)
    requires Attribute(o, field) == Str(a)
    ensures Tested(lower, field, Less(One(Str(b))), o) == True <==> exists k: nat :: FallsBehindAt(a, b, k)
    ensures Tested(lower, field, Greater(One(Str(b))), o) == True <==> exists k: nat :: FallsBehindAt(b, a, k)
    ensures Tested(lower, field, LessEqual(One(Str(b))), o) == True <==>
      a == b || exists k: nat :: FallsBehindAt(a, b, k)
    ensures Tested(lower, field, GreaterEqual(One(Str(b))), o) == True <==>
      a == b || exists k: nat :: FallsBehindAt(b, a, k)
    ensures Tested(lower, field, Equal(One(Str(b))), o) == OfBool(a == b)
    ensures Tested(lower, field, NotEqual(One(Str(b))), o) == OfBool(a != b)
  {
    StrLessExactly(a, b);
    StrLessExactly(b, a);
    OrderLaws(lower, field, Str(b), o);
  }

  /** Null tests, equality with None, and the order tests on what is not there. */
  lemma NullTests(lower: Lower, field: string, o: Obj, x: Operand)
    ensures Tested(lower, field, IsNull, o) == OfBool(field !in o || o[field] == Null)
    ensures Tested(lower, field, IsNotNull, o) == OfBool(field in o && o[field] != Null)
    ensures Tested(lower, field, Equal(One(Null)), o) == OfBool(field !in o || o[field] == Null)
    ensures field !in o || o[field] == Null ==>
      && Tested(lower, field, Greater(x), o) == Tested(lower, field, Less(x), o) == False
      && Tested(lower, field, GreaterEqual(x), o) == Tested(lower, field, LessEqual(x), o) == False
  {
  }

  /** A list as the right-hand side of anything but IN equals nothing and cannot be ordered. */
  lemma ListOperandTests(lower: Lower, field: string, o: Obj, vs: seq<Value>)
    ensures Tested(lower, field, Equal(Many(vs)), o) == False
    ensures Tested(lower, field, NotEqual(Many(vs)), o) == True
    ensures field in o && o[field] != Null ==>
      && Tested(lower, field, Greater(Many(vs)), o) == Tested(lower, field, Less(Many(vs)), o) == Raises
      && Tested(lower, field, GreaterEqual(Many(vs)), o) == Tested(lower, field, LessEqual(Many(vs)), o) == Raises
  {
  }

  /** LIKE finds its pattern exactly when the lower-cased text is something, the pattern, something. */
  lemma LikeExactly(lower: Lower, field: string, x: Operand, o: Obj)
    ensures Tested(lower, field, Like(x), o) == True <==>
      x != One(Null) && exists before, after :: lower(One(Attribute(o, field))) == before + lower(x) + after
    ensures Tested(lower, field, Like(x), o) != Raises
  {
    SubstringExactly(lower(x), lower(One(Attribute(o, field))));
  }

  lemma {:induction false} SubstringExactly(needle: string, hay: string)
    ensures Substring(needle, hay) <==> exists before, after :: hay == before + needle + after
    decreases |hay|
  {
    if needle <= hay {
      assert hay == [] + needle + hay[|needle|..];
    } else if Substring(needle, hay) {
      SubstringExactly(needle, hay[1..]);
      var before, after :| hay[1..] == before + needle + after;
      assert hay == ([hay[0]] + before) + needle + after;
    }
    forall before: string, after: string | hay == before + needle + after ensures Substring(needle, hay) {
      SubstringAfter(before, needle, after);
    }
  }

  lemma {:induction false} SubstringAfter(before: string, needle: string, after: string)
    ensures Substring(needle, before + needle + after)
    decreases |before|
  {
    var hay := before + needle + after;
    if before == [] {
      assert needle <= hay;
    } else {
      SubstringAfter(before[1..], needle, after);
      assert hay[1..] == before[1..] + needle + after;
    }
  }
}
