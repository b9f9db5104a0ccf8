/** The benchmark reads: the public list (active benchmarks only), the admin
    list (every benchmark), and one benchmark with its submissions. Lists
    are newest first and carry the number of submissions of each benchmark,
    of whatever status. The joined creator name and image are not modelled. */
module BenchmarkQueries {
  import opened Common
  import opened Forms
  import opened Store
  import opened Auth
  import opened Listing
  import opened BenchmarkActions

  /** A benchmark row with `_count.submissions`. */
  datatype BenchmarkListing = BenchmarkListing(benchmark: Benchmark, submissionCount: nat)

  /** A benchmark with its submissions, newest first, and their count. */
  datatype BenchmarkDetail = BenchmarkDetail(benchmark: Benchmark, submissions: seq<Submission>, submissionCount: nat)

  /** The ids of the submissions made to benchmark `id`. */
  function SubmissionsOf(t: Tables, id: Id): set<Id> {
    set s | s in t.submissions && t.submissions[s].benchmarkId == id
  }

  function SubmissionCount(t: Tables, id: Id): nat {
    |SubmissionsOf(t, id)|
  }

  /** The listing rows for `ids`, in the order given. */
  function ListingsOf(t: Tables, ids: seq<Id>): (r: seq<BenchmarkListing>)
    requires forall i | 0 <= i < |ids| :: ids[i] in t.benchmarks
    ensures |r| == |ids|
    ensures forall i | 0 <= i < |r| ::
      r[i].benchmark == t.benchmarks[ids[i]] && r[i].submissionCount == SubmissionCount(t, ids[i])
  {
    seq(|ids|, i requires 0 <= i < |ids| => BenchmarkListing(t.benchmarks[ids[i]], SubmissionCount(t, ids[i])))
  }

  ghost function ActiveCreated(t: Tables): map<Id, int> {
    map id | id in t.benchmarks && t.benchmarks[id].isActive :: t.benchmarks[id].createdAt
  }

  ghost function AllCreated(t: Tables): map<Id, int> {
    map id | id in t.benchmarks :: t.benchmarks[id].createdAt
  }

  /** The ids a listing shows. */
  function ListedIds(r: seq<BenchmarkListing>): (ids: seq<Id>)
    ensures |ids| == |r| && forall i | 0 <= i < |r| :: ids[i] == r[i].benchmark.id
  {
    seq(|r|, i requires 0 <= i < |r| => r[i].benchmark.id)
  }

  /** What a listing of the benchmarks selected by `created` promises: each
      selected benchmark exactly once, as stored, with its submission count,
      newest first. */
  ghost predicate ListsNewestFirst(t: Tables, r: seq<BenchmarkListing>, created: map<Id, int>)
    requires forall id | id in created :: id in t.benchmarks
  {
    && NewestFirstOf(ListedIds(r), created)
    && (forall i | 0 <= i < |r| ::
          r[i].benchmark == t.benchmarks[r[i].benchmark.id]
          && r[i].submissionCount == SubmissionCount(t, r[i].benchmark.id))
  }

  /** `getBenchmarks()`: the active benchmarks, newest first. */
  ghost function GetBenchmarks(t: Tables): (r: seq<BenchmarkListing>)
    requires Linked(t)
    ensures ListsNewestFirst(t, r, ActiveCreated(t))
    ensures forall i | 0 <= i < |r| :: r[i].benchmark.isActive
  {
    var ids := NewestFirst(ActiveCreated(t));
    var r := ListingsOf(t, ids);
    assert ListedIds(r) == ids;
    r
  }

  /** `getAdminBenchmarks()`: every benchmark, active or not, newest first. */
  ghost function GetAdminBenchmarks(t: Tables): (r: seq<BenchmarkListing>)
    requires Linked(t)
    ensures ListsNewestFirst(t, r, AllCreated(t))
  {
    var ids := NewestFirst(AllCreated(t));
    var r := ListingsOf(t, ids);
    assert ListedIds(r) == ids;
    r
  }

  /** The submissions of benchmark `id`, newest first. */
  ghost function SubmissionsNewestFirst(t: Tables, id: Id): (r: seq<Id>)
    ensures NewestFirstOf(r, map s | s in SubmissionsOf(t, id) :: t.submissions[s].createdAt)
  {
    NewestFirst(map s | s in SubmissionsOf(t, id) :: t.submissions[s].createdAt)
  }

  /** `getBenchmarkById(id)`: null when there is no such benchmark, whether
      it is active or not; otherwise the benchmark with all its submissions,
      of every status, newest first. */
  ghost function GetBenchmarkById(t: Tables, id: Id): (r: Option<BenchmarkDetail>)
    ensures r.None? <==> id !in t.benchmarks
    ensures r.Some? ==>
      && r.value.benchmark == t.benchmarks[id]
      && r.value.submissionCount == SubmissionCount(t, id)
      && |r.value.submissions| == r.value.submissionCount
      && (forall s | s in SubmissionsOf(t, id) :: t.submissions[s] in r.value.submissions)
      && (forall i | 0 <= i < |r.value.submissions| ::
            r.value.submissions[i].benchmarkId == id && r.value.submissions[i] in t.submissions.Values)
      && (forall i, j | 0 <= i < j < |r.value.submissions| ::
            r.value.submissions[i].createdAt >= r.value.submissions[j].createdAt)
  {
    if id !in t.benchmarks then None
    else
      var ids := SubmissionsNewestFirst(t, id);
      DetailRows(t, id, ids);
      Some(BenchmarkDetail(t.benchmarks[id], RowsOf(t, ids), SubmissionCount(t, id)))
  }

  lemma DetailRows(t: Tables, id: Id, ids: seq<Id>)
    requires NewestFirstOf(ids, map s | s in SubmissionsOf(t, id) :: t.submissions[s].createdAt)
    ensures forall i | 0 <= i < |ids| :: ids[i] in t.submissions
    ensures var rows := RowsOf(t, ids);
      && |rows| == SubmissionCount(t, id)
      && (forall s | s in SubmissionsOf(t, id) :: t.submissions[s] in rows)
      && (forall i | 0 <= i < |rows| :: rows[i].benchmarkId == id && rows[i] in t.submissions.Values)
      && (forall i, j | 0 <= i < j < |rows| :: rows[i].createdAt >= rows[j].createdAt)
  {
    var created := map s | s in SubmissionsOf(t, id) :: t.submissions[s].createdAt;
    assert forall i | 0 <= i < |ids| :: ids[i] in SubmissionsOf(t, id);
    assert forall x :: x in ids <==> x in SubmissionsOf(t, id);
    DistinctLength(ids, SubmissionsOf(t, id));
    var rows := RowsOf(t, ids);
    forall s | s in SubmissionsOf(t, id) ensures t.submissions[s] in rows {
      var i :| 0 <= i < |ids| && ids[i] == s;
      assert rows[i] == t.submissions[s];
    }
    forall i, j | 0 <= i < j < |rows| ensures rows[i].createdAt >= rows[j].createdAt {
      assert created[ids[i]] >= created[ids[j]];
    }
  }

  /** A list of distinct elements that are exactly those of a set is as long
      as the set is large. */
  lemma {:induction false} DistinctLength(xs: seq<Id>, s: set<Id>)
    requires forall i, j | 0 <= i < j < |xs| :: xs[i] != xs[j]
    requires forall x :: x in xs <==> x in s
    ensures |xs| == |s|
    decreases |xs|
  {
    if xs != [] {
      var rest := xs[1..];
      assert forall x :: x in rest <==> x in s - {xs[0]} by {
        forall x ensures x in rest <==> x in s - {xs[0]} {
          if x in rest {
            var i :| 0 <= i < |rest| && rest[i] == x;
            assert xs[i + 1] == x;
          }
          if x in xs && x != xs[0] {
            var i :| 0 <= i < |xs| && xs[i] == x;
            assert rest[i - 1] == x;
          }
        }
      }
      assert forall i, j | 0 <= i < j < |rest| :: rest[i] != rest[j] by {
        forall i, j | 0 <= i < j < |rest| ensures rest[i] != rest[j] {
          assert rest[i] == xs[i + 1] && rest[j] == xs[j + 1];
        }
      }
      DistinctLength(rest, s - {xs[0]});
    } else {
      assert forall x :: x !in s;
    }
  }

  // ---------------------------------------------------------------------
  // How the actions show in the lists

  /** A benchmark just created is active, so it is on the public list, with
      no submissions. */
  lemma CreatedIsListed(t: Tables, session: Option<Session>, form: FormData, newId: Id, now: int)
    requires Linked(t)
    requires Create(t, session, form, newId, now, false).1.Succeeded?
    ensures var t' := Create(t, session, form, newId, now, false).0;
      Linked(t') && newId in ListedIds(GetBenchmarks(t')) && SubmissionCount(t', newId) == 0
  {
    var t' := Create(t, session, form, newId, now, false).0;
    assert newId in ActiveCreated(t');
    assert SubmissionsOf(t', newId) == {} by {
      assert forall s | s in t.submissions :: t.submissions[s].benchmarkId in t.benchmarks;
    }
  }

  /** An update whose `isActive` is not `'true'` takes the benchmark off the
      public list and leaves it on the admin list; one whose `isActive` is
      `'true'` puts it on both. */
  lemma UpdateSetsVisibility(t: Tables, session: Option<Session>, id: Id, form: FormData)
    requires Linked(t)
    requires Update(t, session, id, form, false).1.Succeeded?
    ensures var t' := Update(t, session, id, form, false).0;
      && Linked(t')
      && (id in ListedIds(GetBenchmarks(t')) <==> ActiveFlag(form))
      && id in ListedIds(GetAdminBenchmarks(t'))
  {
    var t' := Update(t, session, id, form, false).0;
    assert id in AllCreated(t');
    assert id in ActiveCreated(t') <==> ActiveFlag(form);
  }

  /** A deleted benchmark is on neither list and is not found by id. */
  lemma DeletedIsGone(t: Tables, session: Option<Session>, id: Id)
    requires Linked(t)
    requires Delete(t, session, id, false).1.Succeeded?
    ensures var t' := Delete(t, session, id, false).0;
      && Linked(t')
      && id !in ListedIds(GetAdminBenchmarks(t'))
      && id !in ListedIds(GetBenchmarks(t'))
      && GetBenchmarkById(t', id).None?
  {
    var t' := Delete(t, session, id, false).0;
    assert id !in AllCreated(t');
    assert id !in ActiveCreated(t');
  }

  /** A row is on a listing exactly when its benchmark is selected, shown
      as stored and with its count. */
  lemma {:induction false} OnListing(t: Tables, r: seq<BenchmarkListing>, created: map<Id, int>, b: BenchmarkListing)
    requires forall id | id in created :: id in t.benchmarks
    requires ListsNewestFirst(t, r, created)
    ensures b in r <==>
      b.benchmark.id in created && b == BenchmarkListing(t.benchmarks[b.benchmark.id], SubmissionCount(t, b.benchmark.id))
  {
    var ids := ListedIds(r);
    if b in r {
      var i :| 0 <= i < |r| && r[i] == b;
      assert ids[i] == b.benchmark.id;
    }
    if b.benchmark.id in created && b == BenchmarkListing(t.benchmarks[b.benchmark.id], SubmissionCount(t, b.benchmark.id)) {
      assert b.benchmark.id in ids;
      var i :| 0 <= i < |ids| && ids[i] == b.benchmark.id;
      assert r[i] == b;
    }
  }

  /** The public list is the admin list without the inactive benchmarks:
      the two show the same active benchmarks with the same counts. */
  lemma PublicIsActivePartOfAdmin(t: Tables, b: BenchmarkListing)
    requires Linked(t)
    ensures b in GetBenchmarks(t) <==> b in GetAdminBenchmarks(t) && b.benchmark.isActive
  {
    OnListing(t, GetBenchmarks(t), ActiveCreated(t), b);
    OnListing(t, GetAdminBenchmarks(t), AllCreated(t), b);
  }
}
