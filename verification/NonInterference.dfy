/** Two-run non-interference of the document service: what a caller sees depends only on that
    caller's own documents and requests. */
module NonInterference {
  import opened Wrappers
  import opened Documents

  type User = Option<string>

  ghost predicate Mine(s: Store, pk: Pk, u: User) {
    pk in s && s[pk].owner == u
  }

  /** Both stores hold the same documents of `u`. */
  ghost predicate Agree(a: Store, b: Store, u: User) {
    forall pk :: AgreeAt(a, b, u, pk)
  }

  ghost predicate AgreeAt(a: Store, b: Store, u: User, pk: Pk) {
    (Mine(a, pk, u) <==> Mine(b, pk, u)) && (Mine(a, pk, u) && Mine(b, pk, u) ==> a[pk] == b[pk])
  }

  /** The call uses an admin's right to change or remove somebody else's document. */
  predicate Overrides(c: Call) {
    && c.ctx.IsAdmin()
    && (c.request.Update? || c.request.Delete?)
    && Authorized(c.ctx, ActionOf(c.request))
  }

  /** `u` never acts as an admin, and nobody else overrides ownership. */
  predicate Undisturbed(c: Call, u: User) {
    if c.ctx.userId == u then !c.ctx.IsAdmin() else !Overrides(c)
  }

  /** The calls `u` made. */
  function Purge(run: seq<Call>, u: User): seq<Call>
    decreases |run|
  {
    if run == [] then []
    else if run[0].ctx.userId == u then [run[0]] + Purge(run[1..], u)
    else Purge(run[1..], u)
  }

  /** The responses `u` got. */
  function Observed(s: Store, run: seq<Call>, u: User): seq<Response>
    decreases |run|
  {
    if run == [] then []
    else
      var (s', r) := Step(s, run[0]);
      if run[0].ctx.userId == u then [r] + Observed(s', run[1..], u) else Observed(s', run[1..], u)
  }

  /** Another caller's document and a missing one are indistinguishable: same response, and neither
      store changes. */
  lemma ForeignLooksMissing(s: Store, c: Call)
    requires !c.request.Create? && c.request.pk in s
    requires !c.ctx.IsAdmin() && s[c.request.pk].owner != c.ctx.userId
    ensures Step(s, c).1 == Step(s - {c.request.pk}, c).1
    ensures Step(s, c).0 == s && Step(s - {c.request.pk}, c).0 == s - {c.request.pk}
  {
  }

  /** A caller's own call: equal views give equal responses and stay equal. */
  lemma OwnStep(a: Store, b: Store, c: Call)
    requires Keyed(a) && Keyed(b) && !c.ctx.IsAdmin()
    requires Agree(a, b, c.ctx.userId) && FreshCall(a, c) && FreshCall(b, c)
    ensures Step(a, c).1 == Step(b, c).1
    ensures Agree(Step(a, c).0, Step(b, c).0, c.ctx.userId)
  {
    var u := c.ctx.userId;
    if !c.request.Create? { assert AgreeAt(a, b, u, c.request.pk); }
    forall pk
      ensures AgreeAt(Step(a, c).0, Step(b, c).0, u, pk)
    {
      assert AgreeAt(a, b, u, pk);
    }
  }

  /** Somebody else's call leaves the view of `u` alone, unless it overrides ownership. */
  lemma ForeignStep(s: Store, c: Call, u: User)
    requires Keyed(s) && FreshCall(s, c) && c.ctx.userId != u && !Overrides(c)
    ensures Agree(s, Step(s, c).0, u)
  {
  }

  lemma AgreeTransitive(a: Store, b: Store, c: Store, u: User)
    requires Agree(a, b, u) && Agree(b, c, u)
    ensures Agree(a, c, u)
  {
    forall pk
      ensures AgreeAt(a, c, u, pk)
    {
      assert AgreeAt(a, b, u, pk) && AgreeAt(b, c, u, pk);
    }
  }

  lemma AgreeSymmetric(a: Store, b: Store, u: User)
    requires Agree(a, b, u)
    ensures Agree(b, a, u)
  {
    forall pk
      ensures AgreeAt(b, a, u, pk)
    {
      assert AgreeAt(a, b, u, pk);
    }
  }

  ghost predicate AllUndisturbed(run: seq<Call>, u: User) {
    forall i :: 0 <= i < |run| ==> Undisturbed(run[i], u)
  }

  /** Non-interference. Take any user, any two stores with the same documents of that user and any two
      runs in which that user makes the same calls, however the calls of others differ and interleave.
      The user gets the same responses in both, and both still hold the same documents of the user. */
  lemma {:induction false} SameViewSameResponses(a: Store, b: Store, runA: seq<Call>, runB: seq<Call>, u: User)
    requires Keyed(a) && Keyed(b) && Agree(a, b, u)
    requires Purge(runA, u) == Purge(runB, u)
    requires AllUndisturbed(runA, u) && AllUndisturbed(runB, u)
    requires FreshRun(a, runA) && FreshRun(b, runB)
    ensures Observed(a, runA, u) == Observed(b, runB, u)
    ensures Agree(After(a, runA), After(b, runB), u)
    decreases |runA| + |runB|
  {
    if runA != [] && runA[0].ctx.userId != u {
      SkipForeign(a, b, runA, runB, u);
    } else if runB != [] && runB[0].ctx.userId != u {
      AgreeSymmetric(a, b, u);
      SkipForeign(b, a, runB, runA, u);
      AgreeSymmetric(After(b, runB), After(a, runA), u);
    } else if runA != [] && runB != [] {
      assert Purge(runA, u)[0] == runA[0] && Purge(runB, u)[0] == runB[0];
      assert Purge(runA, u)[1..] == Purge(runA[1..], u) && Purge(runB, u)[1..] == Purge(runB[1..], u);
      assert Undisturbed(runA[0], u);
      OwnStep(a, b, runA[0]);
      StepKeyed(a, runA[0]);
      StepKeyed(b, runB[0]);
      SameViewSameResponses(Step(a, runA[0]).0, Step(b, runB[0]).0, runA[1..], runB[1..], u);
    }
  }

  lemma {:induction false} SkipForeign(a: Store, b: Store, runA: seq<Call>, runB: seq<Call>, u: User)
    requires Keyed(a) && Keyed(b) && Agree(a, b, u)
    requires Purge(runA, u) == Purge(runB, u)
    requires AllUndisturbed(runA, u) && AllUndisturbed(runB, u)
    requires FreshRun(a, runA) && FreshRun(b, runB)
    requires runA != [] && runA[0].ctx.userId != u
    ensures Observed(a, runA, u) == Observed(b, runB, u)
    ensures Agree(After(a, runA), After(b, runB), u)
    decreases |runA| + |runB|, 0
  {
    var a' := Step(a, runA[0]).0;
    assert Undisturbed(runA[0], u);
    ForeignStep(a, runA[0], u);
    AgreeSymmetric(a, a', u);
    AgreeTransitive(a', a, b, u);
    StepKeyed(a, runA[0]);
    SameViewSameResponses(a', b, runA[1..], runB, u);
  }

  /** The exclusion of overriding admins cannot be dropped: a delete by another caller changes the view
      of `u` exactly when it overrides ownership of a document of `u`. */
  lemma DeleteDisturbsExactly(s: Store, c: Call, u: User)
    requires Keyed(s) && c.request.Delete? && c.ctx.userId != u
    ensures !Agree(s, Step(s, c).0, u) <==> Overrides(c) && Mine(s, c.request.pk, u)
  {
    var s' := Step(s, c).0;
    if Overrides(c) && Mine(s, c.request.pk, u) {
      assert !AgreeAt(s, s', u, c.request.pk);
    } else {
      forall pk
        ensures AgreeAt(s, s', u, pk)
      {
      }
    }
  }

  /** An update gives the document something it does not have: a new time, title or content. */
  predicate Alters(c: Call, d: Document)
    requires c.request.Update?
  {
    || d.updatedAt != Some(c.now)
    || (c.request.newTitle.Some? && c.request.newTitle.value != d.title)
    || (c.request.newContent.Some? && c.request.newContent.value != d.content)
  }

  /** Likewise an update by another caller, as long as it alters anything. */
  lemma UpdateDisturbsExactly(s: Store, c: Call, u: User)
    requires Keyed(s) && c.request.Update? && c.ctx.userId != u
    ensures !Agree(s, Step(s, c).0, u) <==>
      Overrides(c) && Mine(s, c.request.pk, u) && Alters(c, s[c.request.pk])
  {
    var s', pk := Step(s, c).0, c.request.pk;
    if Overrides(c) && Mine(s, pk, u) && Alters(c, s[pk]) {
      assert s'[pk] != s[pk];
      assert !AgreeAt(s, s', u, pk);
    } else {
      forall k
        ensures AgreeAt(s, s', u, k)
      {
      }
    }
  }

  /** The service's comment that a document without an owner is hidden from every non-admin does not
      hold for anonymous callers: it is hidden exactly from those who have a user id. */
  lemma OwnerlessHiddenExactly(ctx: Context, d: Document)
    requires d.owner == None && !ctx.IsAdmin()
    ensures !Visible(ctx, d) <==> ctx.userId.Some?
  {
  }
}
