/** Administration of benchmarks: create, update and delete. Each action
    first checks that the session is an administrator's (throwing
    `'Unauthorized'` otherwise); create and update read their fields from a
    form and refuse an empty title; every store failure is caught and
    reported as a message. */
module BenchmarkActions {
  import opened Common
  import opened Forms
  import opened Store
  import opened Auth

  const TitleRequired := "Title is required"
  const CreateFailed := "Failed to create benchmark"
  const UpdateFailed := "Failed to update benchmark"
  const DeleteFailed := "Failed to delete benchmark"

  /** The admin check throws; everything after it returns
      `{ success, error?, benchmarkId? }`. */
  datatype CrudResult =
    | Unauthorized
    | Failed(error: string)
    | Succeeded(benchmarkId: Option<Id>)

  /** The text fields of the benchmark form: the title as given, each
      optional field as null when absent or empty. */
  datatype BenchmarkFields = BenchmarkFields(
    title: string,
    description: Option<string>,
    requirementDoc: Option<string>,
    prototypeUrl: Option<string>,
    userStories: Option<string>)

  function ReadFields(form: FormData): (r: BenchmarkFields)
    ensures r.title == "" <==> !Truthy(Get(form, "title"))
    ensures Truthy(Get(form, "title")) ==> r.title == Get(form, "title").value
    ensures r.description.Some? <==> Truthy(Get(form, "description"))
    ensures r.description.Some? ==> r.description == Get(form, "description")
    ensures r.requirementDoc.Some? <==> Truthy(Get(form, "requirementDoc"))
    ensures r.requirementDoc.Some? ==> r.requirementDoc == Get(form, "requirementDoc")
    ensures r.prototypeUrl.Some? <==> Truthy(Get(form, "prototypeUrl"))
    ensures r.prototypeUrl.Some? ==> r.prototypeUrl == Get(form, "prototypeUrl")
    ensures r.userStories.Some? <==> Truthy(Get(form, "userStories"))
    ensures r.userStories.Some? ==> r.userStories == Get(form, "userStories")
  {
    BenchmarkFields(
      Field(form, "title"),
      NullIfEmpty(Field(form, "description")),
      NullIfEmpty(Field(form, "requirementDoc")),
      NullIfEmpty(Field(form, "prototypeUrl")),
      NullIfEmpty(Field(form, "userStories")))
  }

  /** The `isActive` checkbox: exactly the string `'true'` activates. */
  predicate ActiveFlag(form: FormData) {
    Get(form, "isActive") == Some("true")
  }

  /** Whether a benchmark may be removed: it exists and no submission refers
      to it (the relation restricts deletion of a referenced row). */
  predicate Deletable(t: Tables, id: Id) {
    id in t.benchmarks && forall s | s in t.submissions :: t.submissions[s].benchmarkId != id
  }

  /** `createBenchmark(formData)`: the row the store generates is given the
      id `newId` and the timestamp `now`. The row is active and owned by the
      signed-in administrator. */
  function Create(t: Tables, session: Option<Session>, form: FormData, newId: Id, now: int, fault: bool)
    : (r: (Tables, CrudResult))
    ensures r.1 == Unauthorized <==> !IsAdmin(session)
    ensures r.1 == Failed(TitleRequired) <==> IsAdmin(session) && ReadFields(form).title == ""
    ensures r.1 == Failed(CreateFailed) <==>
      IsAdmin(session) && ReadFields(form).title != "" && (fault || newId in t.benchmarks)
    ensures r.1.Succeeded? <==>
      IsAdmin(session) && ReadFields(form).title != "" && !fault && newId !in t.benchmarks
    ensures r.1.Succeeded? ==> r.1.benchmarkId == Some(newId)
    ensures !r.1.Succeeded? ==> r.0 == t
    ensures r.1.Succeeded? ==>
      && newId !in t.benchmarks
      && r.0 == t.(benchmarks := r.0.benchmarks)
      && r.0.benchmarks.Keys == t.benchmarks.Keys + {newId}
      && (forall b | b in t.benchmarks :: r.0.benchmarks[b] == t.benchmarks[b])
      && var row := r.0.benchmarks[newId];
      && row.id == newId && row.isActive && row.createdById == session.value.user.id
      && row.createdAt == now && row.title == ReadFields(form).title && row.title != ""
      && row.description == ReadFields(form).description
      && row.requirementDoc == ReadFields(form).requirementDoc
      && row.prototypeUrl == ReadFields(form).prototypeUrl
      && row.userStories == ReadFields(form).userStories
  {
    if !IsAdmin(session) then (t, Unauthorized)
    else
      var f := ReadFields(form);
      if f.title == "" then (t, Failed(TitleRequired))
      else if fault || newId in t.benchmarks then (t, Failed(CreateFailed))
      else
        var row := Benchmark(newId, f.title, f.description, f.requirementDoc, f.prototypeUrl,
                             f.userStories, true, session.value.user.id, now);
        (t.(benchmarks := t.benchmarks[newId := row]), Succeeded(Some(newId)))
  }

  /** `updateBenchmark(id, formData)`: every editable field is overwritten
      from the form, including `isActive`; the id, owner and creation time
      stay. */
  function Update(t: Tables, session: Option<Session>, id: Id, form: FormData, fault: bool)
    : (r: (Tables, CrudResult))
    ensures r.1 == Unauthorized <==> !IsAdmin(session)
    ensures r.1 == Failed(TitleRequired) <==> IsAdmin(session) && ReadFields(form).title == ""
    ensures r.1 == Failed(UpdateFailed) <==>
      IsAdmin(session) && ReadFields(form).title != "" && (fault || id !in t.benchmarks)
    ensures r.1.Succeeded? <==>
      IsAdmin(session) && ReadFields(form).title != "" && !fault && id in t.benchmarks
    ensures r.1.Succeeded? ==> r.1.benchmarkId.None?
    ensures !r.1.Succeeded? ==> r.0 == t
    ensures r.1.Succeeded? ==>
      && r.0 == t.(benchmarks := r.0.benchmarks)
      && r.0.benchmarks.Keys == t.benchmarks.Keys
      && (forall b | b in t.benchmarks && b != id :: r.0.benchmarks[b] == t.benchmarks[b])
      && var (old_, new_) := (t.benchmarks[id], r.0.benchmarks[id]);
      && new_.id == old_.id && new_.createdById == old_.createdById && new_.createdAt == old_.createdAt
      && new_.isActive == ActiveFlag(form)
      && new_.title == ReadFields(form).title
      && new_.description == ReadFields(form).description
      && new_.requirementDoc == ReadFields(form).requirementDoc
      && new_.prototypeUrl == ReadFields(form).prototypeUrl
      && new_.userStories == ReadFields(form).userStories
  {
    if !IsAdmin(session) then (t, Unauthorized)
    else
      var f := ReadFields(form);
      if f.title == "" then (t, Failed(TitleRequired))
      else if fault || id !in t.benchmarks then (t, Failed(UpdateFailed))
      else
        var row := t.benchmarks[id].(
          title := f.title, description := f.description, requirementDoc := f.requirementDoc,
          prototypeUrl := f.prototypeUrl, userStories := f.userStories, isActive := ActiveFlag(form));
        (t.(benchmarks := t.benchmarks[id := row]), Succeeded(None))
  }

  /** `deleteBenchmark(id)`. */
  function Delete(t: Tables, session: Option<Session>, id: Id, fault: bool): (r: (Tables, CrudResult))
    ensures r.1 == Unauthorized <==> !IsAdmin(session)
    ensures r.1 == Succeeded(None) <==> IsAdmin(session) && !fault && Deletable(t, id)
    ensures r.1.Failed? ==> r.1.error == DeleteFailed
    ensures !r.1.Succeeded? ==> r.0 == t
    ensures r.1.Succeeded? ==>
      && r.0 == t.(benchmarks := r.0.benchmarks)
      && r.0.benchmarks.Keys == t.benchmarks.Keys - {id}
      && (forall b | b in r.0.benchmarks :: r.0.benchmarks[b] == t.benchmarks[b])
  {
    if !IsAdmin(session) then (t, Unauthorized)
    else if fault || !Deletable(t, id) then (t, Failed(DeleteFailed))
    else (t.(benchmarks := t.benchmarks - {id}), Succeeded(None))
  }

  // ---------------------------------------------------------------------
  // Properties

  /** Each of the three keeps the store well formed: no submission is ever
      left pointing at a missing benchmark. */
  lemma CrudPreservesWellFormed(t: Tables, session: Option<Session>, form: FormData, id: Id, now: int, fault: bool)
    requires WellFormed(t)
    ensures WellFormed(Create(t, session, form, id, now, fault).0)
    ensures WellFormed(Update(t, session, id, form, fault).0)
    ensures WellFormed(Delete(t, session, id, fault).0)
  {
  }

  /** Creating a benchmark and then deleting it restores the store. */
  lemma {:induction false} DeleteUndoesCreate(t: Tables, session: Option<Session>, form: FormData, newId: Id, now: int)
    requires Linked(t)
    requires Create(t, session, form, newId, now, false).1.Succeeded?
    ensures var t1 := Create(t, session, form, newId, now, false).0;
      && Delete(t1, session, newId, false) == (t, Succeeded(None))
  {
    var t1 := Create(t, session, form, newId, now, false).0;
    assert forall s | s in t1.submissions :: t1.submissions[s].benchmarkId in t.benchmarks;
    assert t1.benchmarks - {newId} == t.benchmarks;
  }

  /** A benchmark that any submission refers to, of whatever status, cannot
      be deleted. */
  lemma ReferencedNotDeletable(t: Tables, session: Option<Session>, id: Id, s: Id, fault: bool)
    requires s in t.submissions && t.submissions[s].benchmarkId == id
    ensures !Delete(t, session, id, fault).1.Succeeded?
    ensures Delete(t, session, id, fault).0 == t
  {
  }

  /** Submitting the same form twice gives the same benchmark: the update
      depends on the form alone, not on the row it overwrites. */
  lemma {:induction false} UpdateIdempotent(t: Tables, session: Option<Session>, id: Id, form: FormData)
    ensures var t1 := Update(t, session, id, form, false).0;
      Update(t1, session, id, form, false).0 == t1
  {
    var t1 := Update(t, session, id, form, false).0;
    if Update(t, session, id, form, false).1.Succeeded? {
      var row := t1.benchmarks[id];
      var f := ReadFields(form);
      assert row.(title := f.title, description := f.description, requirementDoc := f.requirementDoc,
                  prototypeUrl := f.prototypeUrl, userStories := f.userStories,
                  isActive := ActiveFlag(form)) == row;
      assert t1.benchmarks[id := row] == t1.benchmarks;
    }
  }

  // ---------------------------------------------------------------------
  // The actions on the store

  method CreateBenchmark(db: Db, session: Option<Session>, form: FormData, newId: Id, now: int, fault: bool)
    returns (r: CrudResult)
    requires db.Valid()
    modifies db
    ensures db.Valid()
    ensures (db.State(), r) == Create(old(db.State()), session, form, newId, now, fault)
  {
    CrudPreservesWellFormed(db.State(), session, form, newId, now, fault);
    if !IsAdmin(session) {
      return Unauthorized;
    }
    var f := ReadFields(form);
    if f.title == "" {
      return Failed(TitleRequired);
    }
    if fault || newId in db.benchmarks {
      return Failed(CreateFailed);
    }
    var row := Benchmark(newId, f.title, f.description, f.requirementDoc, f.prototypeUrl,
                         f.userStories, true, session.value.user.id, now);
    db.benchmarks := db.benchmarks[newId := row];
    r := Succeeded(Some(newId));
  }

  method UpdateBenchmark(db: Db, session: Option<Session>, id: Id, form: FormData, fault: bool)
    returns (r: CrudResult)
    requires db.Valid()
    modifies db
    ensures db.Valid()
    ensures (db.State(), r) == Update(old(db.State()), session, id, form, fault)
  {
    ghost var expected := Update(db.State(), session, id, form, fault);
    CrudPreservesWellFormed(db.State(), session, form, id, 0, fault);
    if !IsAdmin(session) {
      r := Unauthorized;
      assert expected == (db.State(), r);
      return;
    }
    var f := ReadFields(form);
    var isActive := Get(form, "isActive") == Some("true");
    if f.title == "" {
      r := Failed(TitleRequired);
      assert expected == (db.State(), r);
      return;
    }
    if fault || id !in db.benchmarks {
      r := Failed(UpdateFailed);
      assert expected == (db.State(), r);
      return;
    }
    var row := db.benchmarks[id].(
      title := f.title, description := f.description, requirementDoc := f.requirementDoc,
      prototypeUrl := f.prototypeUrl, userStories := f.userStories, isActive := isActive);
    db.benchmarks := db.benchmarks[id := row];
    r := Succeeded(None);
    assert expected == (db.State(), r);
  }

  method DeleteBenchmark(db: Db, session: Option<Session>, id: Id, fault: bool) returns (r: CrudResult)
    requires db.Valid()
    modifies db
    ensures db.Valid()
    ensures (db.State(), r) == Delete(old(db.State()), session, id, fault)
  {
    CrudPreservesWellFormed(db.State(), session, [], id, 0, fault);
    if !IsAdmin(session) {
      return Unauthorized;
    }
    if fault || !Deletable(db.State(), id) {
      return Failed(DeleteFailed);
    }
    db.benchmarks := db.benchmarks - {id};
    r := Succeeded(None);
  }
}
