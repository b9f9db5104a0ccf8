/** The relational store the server actions write through, as in-memory
    tables: benchmarks and submissions keyed by id, and the Like rows keyed by
    their unique pair (submissionId, fingerprint). Timestamps are integers
    used only for ordering. */
module Store {
  import opened Common

  type Id = string

  datatype Status = PENDING | APPROVED | REJECTED

  datatype Benchmark = Benchmark(
    id: Id,
    title: string,
    description: Option<string>,
    requirementDoc: Option<string>,
    prototypeUrl: Option<string>,
    userStories: Option<string>,
    isActive: bool,
    createdById: Id,
    createdAt: int)

  datatype Submission = Submission(
    id: Id,
    benchmarkId: Id,
    userId: Id,
    status: Status,
    repoUrl: string,
    baseModel: string,
    codingTool: string,
    plugins: seq<string>,
    authorName: Option<string>,
    authorEmail: Option<string>,
    chatLogUrl: Option<string>,
    chatLogText: Option<string>,
    chatLogFiles: seq<string>,
    likeCount: int,
    createdAt: int)

  /** The unique key of a Like row: (submissionId, fingerprint). */
  type LikeKey = (Id, string)

  datatype Tables = Tables(
    benchmarks: map<Id, Benchmark>,
    submissions: map<Id, Submission>,
    likes: set<LikeKey>)

  /** The fingerprints that have liked submission `s`. */
  function Likers(likes: set<LikeKey>, s: Id): set<string>
  {
    set k | k in likes && k.0 == s :: k.1
  }

  /** The stored submission rows of `ids`, in the order given. */
  function RowsOf(t: Tables, ids: seq<Id>): (r: seq<Submission>)
    requires forall i | 0 <= i < |ids| :: ids[i] in t.submissions
    ensures |r| == |ids| && forall i | 0 <= i < |r| :: r[i] == t.submissions[ids[i]]
  {
    seq(|ids|, i requires 0 <= i < |ids| => t.submissions[ids[i]])
  }

  /** The denormalisation invariant: every stored `likeCount` is the number
      of Like rows of its submission. */
  ghost predicate CountsAgree(t: Tables) {
    forall id | id in t.submissions :: t.submissions[id].likeCount == |Likers(t.likes, id)|
  }

  /** Row ids match their keys and every reference points at a stored row. */
  ghost predicate Linked(t: Tables) {
    && (forall id | id in t.benchmarks :: t.benchmarks[id].id == id)
    && (forall id | id in t.submissions ::
          t.submissions[id].id == id && t.submissions[id].benchmarkId in t.benchmarks)
    && (forall k | k in t.likes :: k.0 in t.submissions)
  }

  ghost predicate WellFormed(t: Tables) {
    Linked(t) && CountsAgree(t)
  }

  /** Under the invariant no counter is ever negative. */
  lemma LikeCountNonNegative(t: Tables, id: Id)
    requires CountsAgree(t) && id in t.submissions
    ensures t.submissions[id].likeCount >= 0
  {
  }

  /** The store as one mutable object; every action that writes is a method
      that changes these three fields atomically or not at all. */
  class Db {
    var benchmarks: map<Id, Benchmark>
    var submissions: map<Id, Submission>
    var likes: set<LikeKey>

    function State(): Tables
      reads this
    {
      Tables(benchmarks, submissions, likes)
    }

    ghost predicate Valid()
      reads this
    {
      WellFormed(State())
    }

    constructor ()
      ensures Valid()
      ensures State() == Tables(map[], map[], {})
    {
      benchmarks := map[];
      submissions := map[];
      likes := {};
    }
  }
}
