/** The document service of examples/06: grants, ownership and the in-memory repository behind it. */
module Documents {
  import opened Wrappers

  type Pk = nat

  datatype Action = CREATE | READ | UPDATE | DELETE | LIST

  datatype Grant = Grant(resource: string, actions: set<Action>)

  /** The caller, as the token describes it. No user id means an anonymous caller. */
  datatype Context = Context(userId: Option<string>, roles: set<string>, grants: seq<Grant>) {

    predicate IsAdmin() {
      "admin" in roles
    }

    predicate Can(action: Action, key: string) {
      exists g :: g in grants && (g.resource == "*" || g.resource == key) && action in g.actions
    }
  }

  datatype Document = Document(
    pk: Option<Pk>,
    title: string,
    content: string,
    owner: Option<string>,
    createdAt: Option<nat>,
    updatedAt: Option<nat>)

  datatype Request =
    | Create(title: string, content: string)
    | Read(pk: Pk)
    | Update(pk: Pk, newTitle: Option<string>, newContent: Option<string>)
    | Delete(pk: Pk)

  /** A request with what the environment supplies: the next UUID and the clock. */
  datatype Call = Call(ctx: Context, request: Request, uuid: Pk, now: nat)

  datatype Response = Body(document: Document) | NoContent | NotFound(id: Pk) | Forbidden | Failed

  type Store = map<Pk, Document>

  // ---------------------------------------------------------------- the rules, as functions

  /** One grant on the type covers every instance. */
  const RESOURCE_KEY := "documents"

  predicate Authorized(ctx: Context, action: Action) {
    ctx.Can(action, RESOURCE_KEY)
  }

  /** The ownership test made on a fetched document before grants are looked at. */
  predicate Visible(ctx: Context, d: Document) {
    ctx.IsAdmin() || d.owner == ctx.userId
  }

  /** What saving makes of an entity: a first save assigns the key and the creation time. */
  function Stamped(d: Document, uuid: Pk, now: nat): (r: Document)
    ensures r.pk.Some?
  {
    if d.pk.None? then d.(pk := Some(uuid), createdAt := Some(now), updatedAt := Some(now))
    else d.(updatedAt := Some(now))
  }

  function Patched(d: Document, title: Option<string>, content: Option<string>): (r: Document)
    ensures r.pk == d.pk && r.owner == d.owner && r.createdAt == d.createdAt && r.updatedAt == d.updatedAt
    ensures title.None? && content.None? ==> r == d
    ensures title.Some? ==> r.title == title.value
    ensures content.Some? ==> r.content == content.value
  {
    d.(title := if title.Some? then title.value else d.title,
       content := if content.Some? then content.value else d.content)
  }

  /** The assembled entity, before the service stamps its owner. */
  function Assembled(title: string, content: string): Document {
    Document(None, title, content, None, None, None)
  }

  function ActionOf(r: Request): Action {
    match r
    case Create(_, _) => CREATE
    case Read(_) => READ
    case Update(_, _, _) => UPDATE
    case Delete(_) => DELETE
  }

  /** The whole service: one call on a store. */
  function Step(s: Store, c: Call): (Store, Response) {
    if c.request.Create? then
      if !Authorized(c.ctx, CREATE) then (s, Forbidden)
      else
        var d := Stamped(Assembled(c.request.title, c.request.content).(owner := c.ctx.userId), c.uuid, c.now);
        (s[d.pk.value := d], Body(d))
    else
      var pk := c.request.pk;
      if pk !in s || !Visible(c.ctx, s[pk]) then (s, NotFound(pk))
      else if !Authorized(c.ctx, ActionOf(c.request)) then (s, Forbidden)
      else
        match c.request
        case Update(_, title, content) =>
          var d := Stamped(Patched(s[pk], title, content), c.uuid, c.now);
          (s[d.pk.value := d], Body(d))
        case Delete(_) => if s[pk].pk.None? then (s, Failed) else (s - {s[pk].pk.value}, NoContent)
        case _ => (s, Body(s[pk]))
  }

  // ---------------------------------------------------------------- what callers may rely on

  /** The caller is told that there is no such document. */
  ghost predicate Concealed(s: Store, ctx: Context, pk: Pk) {
    pk !in s || ("admin" !in ctx.roles && s[pk].owner != ctx.userId)
  }

  /** `d` is `was` with each given field taken, each missing one kept, and a new update time. */
  ghost predicate IsUpdateOf(d: Document, was: Document, title: Option<string>, content: Option<string>, now: nat) {
    && d.pk == was.pk && d.owner == was.owner && d.createdAt == was.createdAt && d.updatedAt == Some(now)
    && (title.Some? ==> d.title == title.value) && (title.None? ==> d.title == was.title)
    && (content.Some? ==> d.content == content.value) && (content.None? ==> d.content == was.content)
  }

  /** Grants add up one by one: a grant counts for an action exactly if it lists the action and is on
      documents or on everything; without grants nothing is authorized. */
  lemma GrantsDecide(ctx: Context, g: Grant, action: Action)
    ensures !Authorized(ctx.(grants := []), action)
    ensures Authorized(ctx.(grants := ctx.grants + [g]), action) <==>
      Authorized(ctx, action) || (action in g.actions && (g.resource == "documents" || g.resource == "*"))
  {
    var more := ctx.(grants := ctx.grants + [g]);
    assert forall x :: x in more.grants <==> x in ctx.grants || x == g;
  }

  /** What each request is answered and what it stores, in the documents' own terms. */
  lemma StepMeans(s: Store, c: Call)
    requires !c.request.Create? && c.request.pk in s ==> s[c.request.pk].pk == Some(c.request.pk)
    ensures var (s', r) := Step(s, c);
      match c.request
      case Create(title, content) =>
        var d := Document(Some(c.uuid), title, content, c.ctx.userId, Some(c.now), Some(c.now));
        if Authorized(c.ctx, CREATE) then r == Body(d) && s' == s[c.uuid := d] else r == Forbidden && s' == s
      case Read(pk) =>
        && s' == s
        && r == (if Concealed(s, c.ctx, pk) then NotFound(pk)
                 else if Authorized(c.ctx, READ) then Body(s[pk]) else Forbidden)
      case Update(pk, title, content) =>
        if Concealed(s, c.ctx, pk) then r == NotFound(pk) && s' == s
        else if Authorized(c.ctx, UPDATE)
        then r.Body? && s' == s[pk := r.document] && IsUpdateOf(r.document, s[pk], title, content, c.now)
        else r == Forbidden && s' == s
      case Delete(pk) =>
        if Concealed(s, c.ctx, pk) then r == NotFound(pk) && s' == s
        else if Authorized(c.ctx, DELETE) then r == NoContent && s' == s - {pk}
        else r == Forbidden && s' == s
  {
  }

  /** No call of the run updates or deletes the document. */
  predicate LeavesAlone(run: seq<Call>, pk: Pk) {
    forall i :: 0 <= i < |run| ==> run[i].request != Delete(pk) && !(run[i].request.Update? && run[i].request.pk == pk)
  }

  lemma {:induction false} LeftAlone(s: Store, run: seq<Call>, pk: Pk)
    requires Keyed(s) && FreshRun(s, run) && pk in s && LeavesAlone(run, pk)
    ensures pk in After(s, run) && After(s, run)[pk] == s[pk]
    decreases |run|
  {
    if run != [] {
      var next := Step(s, run[0]).0;
      assert pk in next && next[pk] == s[pk] by { StepLeavesAlone(s, run[0], pk); }
      assert Keyed(next) by { StepKeyed(s, run[0]); }
      assert LeavesAlone(run[1..], pk) by {
        assert forall i :: 0 <= i < |run[1..]| ==> run[1..][i] == run[i + 1];
      }
      LeftAlone(next, run[1..], pk);
    }
  }

  lemma StepLeavesAlone(s: Store, c: Call, pk: Pk)
    requires Keyed(s) && FreshCall(s, c) && pk in s && LeavesAlone([c], pk)
    ensures pk in Step(s, c).0 && Step(s, c).0[pk] == s[pk]
  {
    assert [c][0] == c;
  }

  /** What a granted create answered is what its owner reads later, as long as nobody updates or deletes it
      in between. */
  lemma CreatedReadsBack(s: Store, c: Call, between: seq<Call>, read: Call)
    requires Keyed(s) && FreshCall(s, c) && FreshRun(Step(s, c).0, between) && LeavesAlone(between, c.uuid)
    requires c.request.Create? && Authorized(c.ctx, CREATE)
    requires read.request == Read(c.uuid) && read.ctx.userId == c.ctx.userId && Authorized(read.ctx, READ)
    ensures var d := Document(Some(c.uuid), c.request.title, c.request.content, c.ctx.userId, Some(c.now), Some(c.now));
      Step(s, c).1 == Body(d) && Step(After(Step(s, c).0, between), read).1 == Body(d)
  {
    StepKeyed(s, c);
    LeftAlone(Step(s, c).0, between, c.uuid);
  }

  // ---------------------------------------------------------------- repository and service

  /** `InMemoryDocumentRepository`: one dictionary, changed in place. */
  class Repository {
    var store: Store

    constructor ()
      ensures store == map[]
    {
      store := map[];
    }

    method FindById(pk: Pk) returns (d: Option<Document>)
      ensures d == if pk in store then Some(store[pk]) else None
    {
      d := if pk in store then Some(store[pk]) else None;
    }

    method Save(entity: Document, uuid: Pk, now: nat) returns (saved: Document)
      modifies this
      ensures saved == Stamped(entity, uuid, now)
      ensures store == old(store)[saved.pk.value := saved]
    {
      saved := entity;
      if saved.pk.None? {
        saved := saved.(pk := Some(uuid), createdAt := Some(now));
      }
      saved := saved.(updatedAt := Some(now));
      store := store[saved.pk.value := saved];
    }

    /** Refuses an entity that was never saved. */
    method Delete(entity: Document) returns (ok: bool)
      modifies this
      ensures ok <==> entity.pk.Some?
      ensures store == if entity.pk.Some? then old(store) - {entity.pk.value} else old(store)
    {
      ok := entity.pk.Some?;
      if ok { store := store - {entity.pk.value}; }
    }
  }

  class Service {
    const repo: Repository

    constructor (repo: Repository)
      ensures this.repo == repo
    {
      this.repo := repo;
    }

    /** Grants first, then assemble, stamp the owner and save. */
    method CreateDocument(title: string, content: string, ctx: Context, uuid: Pk, now: nat) returns (r: Response)
      modifies repo
      ensures (repo.store, r) == Step(old(repo.store), Call(ctx, Create(title, content), uuid, now))
      ensures !Authorized(ctx, CREATE) ==> r == Forbidden && repo.store == old(repo.store)
      ensures Authorized(ctx, CREATE) ==>
        && r == Body(Document(Some(uuid), title, content, ctx.userId, Some(now), Some(now)))
        && repo.store == old(repo.store)[uuid := r.document]
    {
      if !Authorized(ctx, CREATE) { return Forbidden; }
      var entity := Assembled(title, content);
      entity := entity.(owner := ctx.userId);
      var saved := repo.Save(entity, uuid, now);
      r := Body(saved);
    }

    /** Fetch, check ownership, check grants: the common start of read, update and delete. */
    method FetchChecked(pk: Pk, ctx: Context, action: Action) returns (r: Result<Document, Response>)
      ensures r == if pk !in repo.store || !Visible(ctx, repo.store[pk]) then Failure(NotFound(pk))
                   else if !Authorized(ctx, action) then Failure(Forbidden)
                   else Success(repo.store[pk])
    {
      var entity := repo.FindById(pk);
      if entity.None? { return Failure(NotFound(pk)); }
      if !ctx.IsAdmin() && entity.value.owner != ctx.userId { return Failure(NotFound(pk)); }
      if !Authorized(ctx, action) { return Failure(Forbidden); }
      r := Success(entity.value);
    }

    method GetDocument(pk: Pk, ctx: Context, uuid: Pk, now: nat) returns (r: Response)
      ensures (repo.store, r) == Step(repo.store, Call(ctx, Read(pk), uuid, now))
      ensures Concealed(repo.store, ctx, pk) ==> r == NotFound(pk)
      ensures !Concealed(repo.store, ctx, pk) ==>
        r == if Authorized(ctx, READ) then Body(repo.store[pk]) else Forbidden
    {
      var entity := FetchChecked(pk, ctx, READ);
      r := if entity.Failure? then entity.error else Body(entity.value);
    }

    method UpdateDocument(
      pk: Pk, title: Option<string>, content: Option<string>, ctx: Context, uuid: Pk, now: nat)
      returns (r: Response)
      modifies repo
      ensures (repo.store, r) == Step(old(repo.store), Call(ctx, Update(pk, title, content), uuid, now))
      ensures Concealed(old(repo.store), ctx, pk) ==> r == NotFound(pk) && repo.store == old(repo.store)
      ensures !Concealed(old(repo.store), ctx, pk) && !Authorized(ctx, UPDATE) ==>
        r == Forbidden && repo.store == old(repo.store)
      ensures !Concealed(old(repo.store), ctx, pk) && Authorized(ctx, UPDATE) && old(repo.store)[pk].pk == Some(pk) ==>
        && r.Body? && repo.store == old(repo.store)[pk := r.document]
        && IsUpdateOf(r.document, old(repo.store)[pk], title, content, now)
    {
      var entity := FetchChecked(pk, ctx, UPDATE);
      if entity.Failure? { return entity.error; }
      var saved := repo.Save(Patched(entity.value, title, content), uuid, now);
      r := Body(saved);
    }

    method DeleteDocument(pk: Pk, ctx: Context, uuid: Pk, now: nat) returns (r: Response)
      modifies repo
      ensures (repo.store, r) == Step(old(repo.store), Call(ctx, Delete(pk), uuid, now))
      ensures Concealed(old(repo.store), ctx, pk) ==> r == NotFound(pk) && repo.store == old(repo.store)
      ensures !Concealed(old(repo.store), ctx, pk) && !Authorized(ctx, DELETE) ==>
        r == Forbidden && repo.store == old(repo.store)
      ensures !Concealed(old(repo.store), ctx, pk) && Authorized(ctx, DELETE) && old(repo.store)[pk].pk == Some(pk) ==>
        r == NoContent && repo.store == old(repo.store) - {pk}
    {
      var entity := FetchChecked(pk, ctx, DELETE);
      if entity.Failure? { return entity.error; }
      var ok := repo.Delete(entity.value);
      r := if ok then NoContent else Failed;
    }

    method Dispatch(c: Call) returns (r: Response)
      modifies repo
      ensures (repo.store, r) == Step(old(repo.store), c)
    {
      match c.request
      case Create(title, content) => r := CreateDocument(title, content, c.ctx, c.uuid, c.now);
      case Read(pk) => r := GetDocument(pk, c.ctx, c.uuid, c.now);
      case Update(pk, title, content) => r := UpdateDocument(pk, title, content, c.ctx, c.uuid, c.now);
      case Delete(pk) => r := DeleteDocument(pk, c.ctx, c.uuid, c.now);
    }

    /** A whole run of calls, answered one after the other. */
    method Serve(run: seq<Call>) returns (responses: seq<Response>)
      modifies repo
      ensures repo.store == After(old(repo.store), run)
      ensures responses == Answers(old(repo.store), run)
    {
      responses := [];
      ghost var start := repo.store;
      var n := 0;
      while n < |run|
        invariant 0 <= n <= |run|
        invariant After(start, run) == After(repo.store, run[n..])
        invariant Answers(start, run) == responses + Answers(repo.store, run[n..])
      {
        ghost var before := repo.store;
        var r := Dispatch(run[n]);
        assert run[n..][1..] == run[n + 1..];
        responses := responses + [r];
        n := n + 1;
      }
    }
  }

  function After(s: Store, run: seq<Call>): Store
    decreases |run|
  {
    if run == [] then s else After(Step(s, run[0]).0, run[1..])
  }

  function Answers(s: Store, run: seq<Call>): seq<Response>
    decreases |run|
  {
    if run == [] then [] else [Step(s, run[0]).1] + Answers(Step(s, run[0]).0, run[1..])
  }

  /** Every UUID handed to a create is unused at that moment. */
  predicate FreshRun(s: Store, run: seq<Call>)
    decreases |run|
  {
    run != [] ==> FreshCall(s, run[0]) && FreshRun(Step(s, run[0]).0, run[1..])
  }

  predicate FreshCall(s: Store, c: Call) {
    c.request.Create? ==> c.uuid !in s
  }

  // ---------------------------------------------------------------- what every call keeps

  /** Documents sit under their own key, with both times set and in order, none later than `now`. */
  ghost predicate WellFormed(s: Store, now: nat) {
    forall pk :: pk in s ==> DocumentOk(s[pk], pk, now)
  }

  ghost predicate DocumentOk(d: Document, pk: Pk, now: nat) {
    && d.pk == Some(pk)
    && d.createdAt.Some? && d.updatedAt.Some?
    && d.createdAt.value <= d.updatedAt.value <= now
  }

  /** The clock never runs backwards. */
  predicate Monotone(now: nat, run: seq<Call>)
    decreases |run|
  {
    run != [] ==> now <= run[0].now && Monotone(run[0].now, run[1..])
  }

  lemma StepWellFormed(s: Store, c: Call, now: nat)
    requires WellFormed(s, now) && now <= c.now
    ensures WellFormed(Step(s, c).0, c.now)
    ensures !Step(s, c).1.Failed?
  {
    if !c.request.Create? && c.request.pk in s { assert DocumentOk(s[c.request.pk], c.request.pk, now); }
  }

  /** The key of a stored document is the one it is stored under. */
  ghost predicate Keyed(s: Store) {
    forall pk :: pk in s ==> s[pk].pk == Some(pk)
  }

  lemma StepKeyed(s: Store, c: Call)
    requires Keyed(s)
    ensures Keyed(Step(s, c).0)
  {
  }

  /** Repository invariant over any run with a clock that does not go back: every document is under
      its own key and was created no later than last updated, and no call ever fails. */
  lemma {:induction false} RunWellFormed(s: Store, run: seq<Call>, now: nat)
    requires WellFormed(s, now) && Monotone(now, run)
    ensures WellFormed(After(s, run), if run == [] then now else run[|run| - 1].now)
    ensures forall i :: 0 <= i < |Answers(s, run)| ==> !Answers(s, run)[i].Failed?
    decreases |run|
  {
    if run != [] {
      StepWellFormed(s, run[0], now);
      RunWellFormed(Step(s, run[0]).0, run[1..], run[0].now);
    }
  }

  /** As long as a document exists, no call changes its owner or its creation time. */
  lemma StepKeepsOrigin(s: Store, c: Call, pk: Pk)
    requires Keyed(s) && FreshCall(s, c) && pk in s && pk in Step(s, c).0
    ensures Step(s, c).0[pk].owner == s[pk].owner && Step(s, c).0[pk].createdAt == s[pk].createdAt
  {
  }

  /** The document is there at the start of the run and after each of its calls. */
  predicate Remains(s: Store, run: seq<Call>, pk: Pk)
    decreases |run|
  {
    pk in s && (run != [] ==> Remains(Step(s, run[0]).0, run[1..], pk))
  }

  /** For as long as a document exists, no run of calls changes its owner or its creation time. */
  lemma {:induction false} OriginStands(s: Store, run: seq<Call>, pk: Pk)
    requires Keyed(s) && FreshRun(s, run) && Remains(s, run, pk)
    ensures pk in After(s, run)
    ensures After(s, run)[pk].owner == s[pk].owner && After(s, run)[pk].createdAt == s[pk].createdAt
    decreases |run|
  {
    if run != [] {
      var next := Step(s, run[0]).0;
      assert Keyed(next) by { StepKeyed(s, run[0]); }
      assert Remains(next, run[1..], pk);
      OriginStands(next, run[1..], pk);
      assert next[pk].owner == s[pk].owner && next[pk].createdAt == s[pk].createdAt by {
        StepKeepsOrigin(s, run[0], pk);
      }
    }
  }

  // ---------------------------------------------------------------- ownership over whole runs

  /** The store after the first `n` calls of a run that starts empty. */
  function StoreAt(run: seq<Call>, n: nat): Store
    requires n <= |run|
  {
    if n == 0 then map[] else Step(StoreAt(run, n - 1), run[n - 1]).0
  }

  ghost predicate FreshFromEmpty(run: seq<Call>) {
    forall n :: 0 <= n < |run| ==> FreshCall(StoreAt(run, n), run[n])
  }

  lemma {:induction false} StoreAtKeyed(run: seq<Call>, n: nat)
    requires n <= |run|
    ensures Keyed(StoreAt(run, n))
  {
    if n > 0 {
      StoreAtKeyed(run, n - 1);
      StepKeyed(StoreAt(run, n - 1), run[n - 1]);
    }
  }

  /** Call `j` created the document that is under `pk` after `n` calls. */
  ghost predicate CreatedBy(run: seq<Call>, j: nat, n: nat, pk: Pk)
    requires n <= |run|
  {
    && j < n
    && run[j].request.Create? && run[j].uuid == pk && Authorized(run[j].ctx, CREATE)
    && (forall m :: j < m <= n ==> OwnedThroughout(run, m, pk, run[j].ctx.userId))
  }

  ghost predicate OwnedThroughout(run: seq<Call>, m: nat, pk: Pk, owner: Option<string>)
    requires m <= |run|
  {
    pk in StoreAt(run, m) && StoreAt(run, m)[pk].owner == owner
  }

  lemma StepCreates(s: Store, c: Call, pk: Pk)
    requires Keyed(s) && pk !in s && pk in Step(s, c).0
    ensures c.request.Create? && c.uuid == pk && Authorized(c.ctx, CREATE)
    ensures Step(s, c).0[pk].owner == c.ctx.userId
  {
  }

  lemma CreationHappens(run: seq<Call>, n: nat, pk: Pk)
    requires n < |run| && pk !in StoreAt(run, n) && pk in StoreAt(run, n + 1)
    ensures CreatedBy(run, n, n + 1, pk)
  {
    StoreAtKeyed(run, n);
    StepCreates(StoreAt(run, n), run[n], pk);
    assert OwnedThroughout(run, n + 1, pk, run[n].ctx.userId);
  }

  lemma CreationStands(run: seq<Call>, j: nat, n: nat, pk: Pk)
    requires n < |run| && CreatedBy(run, j, n, pk)
    requires FreshCall(StoreAt(run, n), run[n]) && pk in StoreAt(run, n + 1)
    ensures CreatedBy(run, j, n + 1, pk)
  {
    StoreAtKeyed(run, n);
    assert OwnedThroughout(run, n, pk, run[j].ctx.userId);
    StepKeepsOrigin(StoreAt(run, n), run[n], pk);
    assert OwnedThroughout(run, n + 1, pk, run[j].ctx.userId);
  }

  /** In every run each stored document was created by a granted request, its owner is the subject of
      that request, and it has been that owner's ever since. */
  lemma {:induction false} OwnerIsCreator(run: seq<Call>, n: nat, pk: Pk)
    requires FreshFromEmpty(run) && n <= |run| && pk in StoreAt(run, n)
    ensures exists j: nat :: CreatedBy(run, j, n, pk)
  {
    if pk in StoreAt(run, n - 1) {
      OwnerIsCreator(run, n - 1, pk);
      var j: nat :| CreatedBy(run, j, n - 1, pk);
      assert FreshCall(StoreAt(run, n - 1), run[n - 1]);
      CreationStands(run, j, n - 1, pk);
    } else {
      CreationHappens(run, n - 1, pk);
    }
  }

  /** Every disappearance is a delete of that document, by its owner or an admin, with a delete grant. */
  lemma DisappearanceIsAuthorized(run: seq<Call>, n: nat, pk: Pk)
    requires n < |run| && pk in StoreAt(run, n) && pk !in StoreAt(run, n + 1)
    ensures run[n].request == Delete(pk) && Authorized(run[n].ctx, DELETE)
    ensures run[n].ctx.IsAdmin() || run[n].ctx.userId == StoreAt(run, n)[pk].owner
  {
    StoreAtKeyed(run, n);
  }
}
