/** Moderation of submissions by an administrator: approving or rejecting one
    submission sets its status and nothing else. Both actions first check
    that the session belongs to an administrator and throw otherwise; an
    update of a submission that does not exist throws from the store. */
module ModerationActions {
  import opened Common
  import opened Store
  import opened Auth

  /** How an action that returns nothing ends: normally, by the
      `'Unauthorized'` error of the admin check, or by a store error. */
  datatype Outcome = Done | Unauthorized | StoreFailed

  /** The update `{ where: { id }, data: { status } }` together with the
      admin check in front of it. */
  function Moderate(t: Tables, session: Option<Session>, id: Id, status: Status, fault: bool): (r: (Tables, Outcome))
    ensures r.1 == Unauthorized <==> !IsAdmin(session)
    ensures r.1 == Done <==> IsAdmin(session) && !fault && id in t.submissions
    ensures r.1 != Done ==> r.0 == t
    ensures r.1 == Done ==>
      && r.0.benchmarks == t.benchmarks && r.0.likes == t.likes
      && r.0.submissions.Keys == t.submissions.Keys
      && r.0.submissions[id].status == status
      && r.0.submissions[id].(status := t.submissions[id].status) == t.submissions[id]
      && (forall other | other in t.submissions && other != id :: r.0.submissions[other] == t.submissions[other])
  {
    if !IsAdmin(session) then (t, Unauthorized)
    else if fault || id !in t.submissions then (t, StoreFailed)
    else (t.(submissions := t.submissions[id := t.submissions[id].(status := status)]), Done)
  }

  /** A status change keeps every reference and every like counter intact. */
  lemma ModeratePreservesWellFormed(t: Tables, session: Option<Session>, id: Id, status: Status, fault: bool)
    requires WellFormed(t)
    ensures WellFormed(Moderate(t, session, id, status, fault).0)
  {
    var t' := Moderate(t, session, id, status, fault).0;
    assert forall s | s in t'.submissions :: Likers(t'.likes, s) == Likers(t.likes, s);
  }

  /** Moderating twice with the same status changes nothing the second
      time, and of two successive decisions on a submission only the last
      one counts. */
  lemma {:induction false} ModerateLastWins(t: Tables, session: Option<Session>, id: Id, first: Status, second: Status)
    requires IsAdmin(session) && id in t.submissions
    ensures var once := Moderate(t, session, id, first, false).0;
      Moderate(once, session, id, second, false).0 == Moderate(t, session, id, second, false).0
    ensures var once := Moderate(t, session, id, first, false).0;
      Moderate(once, session, id, first, false).0 == once
  {
    var once := Moderate(t, session, id, first, false).0;
    assert once.submissions[id] == t.submissions[id].(status := first);
    assert once.submissions[id := once.submissions[id].(status := second)]
        == t.submissions[id := t.submissions[id].(status := second)];
    assert once.submissions[id := once.submissions[id].(status := first)] == once.submissions;
  }

  /** A session that is not an administrator's can never change a status. */
  lemma NonAdminCannotModerate(t: Tables, session: Option<Session>, id: Id, status: Status, fault: bool)
    requires session.Some? && session.value.user.role != ADMIN
    ensures Moderate(t, session, id, status, fault) == (t, Unauthorized)
  {
  }

  /** `approveSubmission(submissionId)`; `fault` stands for any failure of
      the store. */
  method ApproveSubmission(db: Db, session: Option<Session>, submissionId: Id, fault: bool) returns (r: Outcome)
    requires db.Valid()
    modifies db
    ensures db.Valid()
    ensures (db.State(), r) == Moderate(old(db.State()), session, submissionId, APPROVED, fault)
  {
    r := SetStatus(db, session, submissionId, APPROVED, fault);
  }

  /** `rejectSubmission(submissionId)`. */
  method RejectSubmission(db: Db, session: Option<Session>, submissionId: Id, fault: bool) returns (r: Outcome)
    requires db.Valid()
    modifies db
    ensures db.Valid()
    ensures (db.State(), r) == Moderate(old(db.State()), session, submissionId, REJECTED, fault)
  {
    r := SetStatus(db, session, submissionId, REJECTED, fault);
  }

  /** The shared body of the two actions: the admin check, then the update. */
  method SetStatus(db: Db, session: Option<Session>, id: Id, status: Status, fault: bool) returns (r: Outcome)
    requires db.Valid()
    modifies db
    ensures db.Valid()
    ensures (db.State(), r) == Moderate(old(db.State()), session, id, status, fault)
  {
    ModeratePreservesWellFormed(db.State(), session, id, status, fault);
    if !IsAdmin(session) {
      return Unauthorized;
    }
    if fault || id !in db.submissions {
      return StoreFailed;
    }
    db.submissions := db.submissions[id := db.submissions[id].(status := status)];
    r := Done;
  }
}
