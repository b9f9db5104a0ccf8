/** The submission reads: the public list of approved submissions, newest
    first, and one submission by id. The joined benchmark title and author
    name are not modelled. */
module SubmissionQueries {
  import opened Common
  import opened Store
  import opened Auth
  import opened Listing
  import opened LikeActions
  import opened ModerationActions
  import opened Forms
  import opened SubmitActions

  ghost function ApprovedCreated(t: Tables): map<Id, int> {
    map s | s in t.submissions && t.submissions[s].status == APPROVED :: t.submissions[s].createdAt
  }

  /** The ids a list of submissions shows. */
  function SubmissionIds(r: seq<Submission>): (ids: seq<Id>)
    ensures |ids| == |r| && forall i | 0 <= i < |r| :: ids[i] == r[i].id
  {
    seq(|r|, i requires 0 <= i < |r| => r[i].id)
  }

  /** `getAllSubmissions()`: every approved submission once, as stored,
      newest first; pending and rejected ones never appear. */
  ghost function GetAllSubmissions(t: Tables): (r: seq<Submission>)
    requires Linked(t)
    ensures NewestFirstOf(SubmissionIds(r), ApprovedCreated(t))
    ensures forall i | 0 <= i < |r| :: r[i].status == APPROVED && r[i] == t.submissions[r[i].id]
  {
    var ids := NewestFirst(ApprovedCreated(t));
    ApprovedIds(t, ids);
    RowIds(t, ids);
    RowsOf(t, ids)
  }

  /** Rows stored under their own ids show those ids. */
  lemma RowIds(t: Tables, ids: seq<Id>)
    requires forall i | 0 <= i < |ids| :: ids[i] in t.submissions && t.submissions[ids[i]].id == ids[i]
    ensures SubmissionIds(RowsOf(t, ids)) == ids
  {
  }

  /** The ids of a listing of the approved submissions name stored, approved
      rows. */
  lemma ApprovedIds(t: Tables, ids: seq<Id>)
    requires Linked(t) && NewestFirstOf(ids, ApprovedCreated(t))
    ensures forall i | 0 <= i < |ids| ::
      ids[i] in t.submissions && t.submissions[ids[i]].status == APPROVED && t.submissions[ids[i]].id == ids[i]
  {
    forall i | 0 <= i < |ids|
      ensures ids[i] in t.submissions && t.submissions[ids[i]].status == APPROVED && t.submissions[ids[i]].id == ids[i]
    {
      assert ids[i] in ApprovedCreated(t);
    }
  }

  /** `getSubmissionById(id)`: the stored row, of whatever status, or null. */
  function GetSubmissionById(t: Tables, id: Id): (r: Option<Submission>)
    ensures r.Some? <==> id in t.submissions
    ensures r.Some? ==> r.value == t.submissions[id]
  {
    if id in t.submissions then Some(t.submissions[id]) else None
  }

  /** A submission is on the public list exactly when it is approved, while
      any stored submission, approved or not, is found by its id: a pending
      or rejected submission can be read by whoever knows its id. */
  lemma ListedIffApproved(t: Tables, id: Id)
    requires Linked(t)
    ensures id in SubmissionIds(GetAllSubmissions(t)) <==> id in t.submissions && t.submissions[id].status == APPROVED
    ensures GetSubmissionById(t, id).Some? <==> id in t.submissions
  {
    assert id in ApprovedCreated(t) <==> id in t.submissions && t.submissions[id].status == APPROVED;
  }

  /** After an approval the submission is on the public list; after a
      rejection it is not. */
  lemma ModerationDecidesListing(t: Tables, session: Option<Session>, id: Id, status: Status)
    requires Linked(t)
    requires Moderate(t, session, id, status, false).1 == Done
    ensures var t' := Moderate(t, session, id, status, false).0;
      Linked(t') && (id in SubmissionIds(GetAllSubmissions(t')) <==> status == APPROVED)
  {
    var t' := Moderate(t, session, id, status, false).0;
    ListedIffApproved(t', id);
  }

  /** Liking or unliking never changes which submissions are public. */
  lemma ToggleKeepsListing(t: Tables, s: Id, f: string, id: Id)
    requires Linked(t)
    ensures var t' := Toggle(t, s, f).0;
      Linked(t') && (id in SubmissionIds(GetAllSubmissions(t')) <==> id in SubmissionIds(GetAllSubmissions(t)))
  {
    var t' := Toggle(t, s, f).0;
    if s in t.submissions {
      ToggleFrame(t, s, f);
    }
    assert Linked(t');
    assert id in t.submissions ==> t'.submissions[id].status == t.submissions[id].status;
    ListedIffApproved(t, id);
    ListedIffApproved(t', id);
  }

  /** A new submission waits for moderation: it can be read by its id, as
      PENDING, but the public list is the same as before. */
  lemma SubmittedIsNotListed(t: Tables, session: Option<Session>, form: FormData,
                             isUrl: string -> bool, isEmail: string -> bool, newId: Id, now: int)
    requires WellFormed(t)
    requires Submit(t, session, form, isUrl, isEmail, newId, now, false).1.Submitted?
    ensures var t' := Submit(t, session, form, isUrl, isEmail, newId, now, false).0;
      && Linked(t')
      && GetSubmissionById(t', newId).Some? && GetSubmissionById(t', newId).value.status == PENDING
      && (forall id :: id in SubmissionIds(GetAllSubmissions(t')) <==> id in SubmissionIds(GetAllSubmissions(t)))
  {
    var t' := Submit(t, session, form, isUrl, isEmail, newId, now, false).0;
    SubmitPreservesWellFormed(t, session, form, isUrl, isEmail, newId, now, false);
    forall id ensures id in SubmissionIds(GetAllSubmissions(t')) <==> id in SubmissionIds(GetAllSubmissions(t)) {
      ListedIffApproved(t, id);
      ListedIffApproved(t', id);
    }
  }
}
