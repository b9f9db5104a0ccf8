/** The like toggle: a Like row keyed by (submission, fingerprint) and the
    submission's denormalised `likeCount`, changed together in one
    transaction. The fingerprint is a hash of the requester's identity, IP
    address and user agent; the hash itself is a parameter. */
module LikeActions {
  import opened Common
  import opened Store

  // ---------------------------------------------------------------------
  // Fingerprint

  /** The request headers the fingerprint reads; a missing header is None. */
  datatype RequestHeaders = RequestHeaders(
    forwardedFor: Option<string>,
    realIp: Option<string>,
    userAgent: Option<string>)

  /** `x-forwarded-for || x-real-ip || 'unknown'`. */
  function ClientIp(h: RequestHeaders): (r: string)
    ensures r != ""
    ensures Truthy(h.forwardedFor) ==> r == h.forwardedFor.value
    ensures !Truthy(h.forwardedFor) && Truthy(h.realIp) ==> r == h.realIp.value
    ensures !Truthy(h.forwardedFor) && !Truthy(h.realIp) ==> r == "unknown"
  {
    Or(h.forwardedFor, Or(h.realIp, "unknown"))
  }

  function UserAgent(h: RequestHeaders): (r: string)
    ensures r != ""
    ensures Truthy(h.userAgent) ==> r == h.userAgent.value
    ensures !Truthy(h.userAgent) ==> r == "unknown"
  {
    Or(h.userAgent, "unknown")
  }

  /** The string that is hashed: `${userId}-${ip}-${ua}` when a user id is
      given, `${ip}-${ua}` otherwise. */
  function FingerprintSource(userId: Option<string>, h: RequestHeaders): string
  {
    if Truthy(userId) then userId.value + "-" + ClientIp(h) + "-" + UserAgent(h)
    else ClientIp(h) + "-" + UserAgent(h)
  }

  /** A signed-in requester's source is the anonymous source behind a
      `userId-` prefix; without a user id (or with an empty one) there is no
      prefix. */
  lemma FingerprintSourcePrefix(userId: Option<string>, h: RequestHeaders)
    ensures Truthy(userId) ==> FingerprintSource(userId, h) == userId.value + "-" + FingerprintSource(None, h)
    ensures !Truthy(userId) ==> FingerprintSource(userId, h) == FingerprintSource(None, h)
  {
  }

  /** `digest('hex').slice(0, 32)`. */
  function First32(s: string): (r: string)
    ensures |r| <= 32 && |r| <= |s| && r == s[..|r|]
    ensures |s| >= 32 ==> |r| == 32
    ensures |s| < 32 ==> r == s
  {
    if |s| <= 32 then s else s[..32]
  }

  /** `generateFingerprint(userId)`, with SHA-256-as-hex given as `hash`. */
  function Fingerprint(hash: string -> string, userId: Option<string>, h: RequestHeaders): (r: string)
    ensures |r| <= 32
    ensures var digest := hash(FingerprintSource(userId, h)); |r| <= |digest| && r == digest[..|r|]
    ensures var digest := hash(FingerprintSource(userId, h)); |r| == if |digest| < 32 then |digest| else 32
  {
    First32(hash(FingerprintSource(userId, h)))
  }

  // ---------------------------------------------------------------------
  // Toggle

  /** `{ success: true, liked }` or `{ success: false, error }`. */
  datatype LikeResult = Liked(liked: bool) | LikeFailed(error: string)

  const ToggleError := "Failed to toggle like"

  /** The two-statement transaction on the tables: remove the Like row and
      decrement, or create it and increment. The counter update targets
      `submissionId`; when no such submission exists the update fails and the
      transaction rolls back, so nothing changes. */
  function Toggle(t: Tables, s: Id, f: string): (r: (Tables, LikeResult))
    ensures r.1.Liked? <==> s in t.submissions
    ensures r.1.LikeFailed? ==> r.0 == t && r.1.error == ToggleError
    ensures r.1.Liked? ==> r.1.liked == ((s, f) !in t.likes) && r.1.liked == ((s, f) in r.0.likes)
    ensures forall k | k != (s, f) :: k in r.0.likes <==> k in t.likes
    ensures r.0.benchmarks == t.benchmarks
    ensures r.0.submissions.Keys == t.submissions.Keys
  {
    if s !in t.submissions then
      (t, LikeFailed(ToggleError))
    else
      var row := t.submissions[s];
      if (s, f) in t.likes then
        (t.(likes := t.likes - {(s, f)},
            submissions := t.submissions[s := row.(likeCount := row.likeCount - 1)]),
         Liked(false))
      else
        (t.(likes := t.likes + {(s, f)},
            submissions := t.submissions[s := row.(likeCount := row.likeCount + 1)]),
         Liked(true))
  }

  /** Only submission `s` changes, and only by one in its counter, upward
      exactly when the Like row was created. */
  lemma ToggleFrame(t: Tables, s: Id, f: string)
    requires s in t.submissions
    ensures var (t', res) := Toggle(t, s, f);
      && t'.submissions[s] == t.submissions[s].(likeCount := t'.submissions[s].likeCount)
      && t'.submissions[s].likeCount == t.submissions[s].likeCount + (if res.liked then 1 else -1)
      && (forall id | id in t.submissions && id != s :: t'.submissions[id] == t.submissions[id])
  {
  }

  lemma LikersInsert(likes: set<LikeKey>, s: Id, f: string, other: Id)
    requires (s, f) !in likes
    ensures Likers(likes + {(s, f)}, s) == Likers(likes, s) + {f}
    ensures f !in Likers(likes, s)
    ensures other != s ==> Likers(likes + {(s, f)}, other) == Likers(likes, other)
  {
  }

  lemma LikersRemove(likes: set<LikeKey>, s: Id, f: string, other: Id)
    requires (s, f) in likes
    ensures Likers(likes - {(s, f)}, s) == Likers(likes, s) - {f}
    ensures f in Likers(likes, s)
    ensures other != s ==> Likers(likes - {(s, f)}, other) == Likers(likes, other)
  {
    assert (s, f).0 == s && (s, f).1 == f;
  }

  /** The toggle keeps `likeCount` equal to the number of Like rows of every
      submission, and keeps every reference intact. */
  lemma {:induction false} TogglePreservesWellFormed(t: Tables, s: Id, f: string)
    requires WellFormed(t)
    ensures WellFormed(Toggle(t, s, f).0)
  {
    var t' := Toggle(t, s, f).0;
    if s in t.submissions {
      if (s, f) in t.likes {
        forall id | id in t'.submissions
          ensures t'.submissions[id].likeCount == |Likers(t'.likes, id)|
        {
          LikersRemove(t.likes, s, f, id);
          if id == s {
            assert |Likers(t.likes, s) - {f}| == |Likers(t.likes, s)| - 1;
          }
        }
      } else {
        forall id | id in t'.submissions
          ensures t'.submissions[id].likeCount == |Likers(t'.likes, id)|
        {
          LikersInsert(t.likes, s, f, id);
        }
      }
    }
  }

  /** Toggling twice with the same fingerprint restores the Like set and the
      counter: the pair is the identity on the tables. */
  lemma {:induction false} ToggleTwice(t: Tables, s: Id, f: string)
    ensures Toggle(Toggle(t, s, f).0, s, f).0 == t
    ensures Toggle(t, s, f).1.Liked? ==> Toggle(Toggle(t, s, f).0, s, f).1 == Liked(!Toggle(t, s, f).1.liked)
  {
    if s in t.submissions {
      var row := t.submissions[s];
      var t1 := Toggle(t, s, f).0;
      var t2 := Toggle(t1, s, f).0;
      if (s, f) in t.likes {
        assert t1.likes + {(s, f)} == t.likes;
      } else {
        assert t1.likes - {(s, f)} == t.likes;
      }
      assert t2.submissions[s] == row;
      assert t2.submissions == t.submissions;
    }
  }

  // ---------------------------------------------------------------------
  // Actions on the store

  /** `checkLiked(submissionId, userId)`: whether the requester's Like row
      exists; any store failure reads as false. */
  function CheckLiked(db: Db, hash: string -> string, s: Id, userId: Option<string>,
                      h: RequestHeaders, fault: bool): (r: bool)
    reads db
    ensures r ==> !fault
    ensures !fault ==> (r <==> Fingerprint(hash, userId, h) in Likers(db.likes, s))
  {
    !fault && (s, Fingerprint(hash, userId, h)) in db.likes
  }

  /** `toggleLike(submissionId, userId)`. `fault` stands for any failure of
      the store during the transaction; the transaction then rolls back. */
  method ToggleLike(db: Db, hash: string -> string, s: Id, userId: Option<string>,
                    h: RequestHeaders, fault: bool) returns (r: LikeResult)
    requires db.Valid()
    modifies db
    ensures db.Valid()
    ensures fault ==> r == LikeFailed(ToggleError) && db.State() == old(db.State())
    ensures !fault ==> (db.State(), r) == Toggle(old(db.State()), s, Fingerprint(hash, userId, h))
    ensures r.Liked? ==> r.liked == CheckLiked(db, hash, s, userId, h, false)
  {
    if fault {
      return LikeFailed(ToggleError);
    }
    var f := Fingerprint(hash, userId, h);
    TogglePreservesWellFormed(db.State(), s, f);
    if s !in db.submissions {
      return LikeFailed(ToggleError);
    }
    var row := db.submissions[s];
    if (s, f) in db.likes {
      db.likes := db.likes - {(s, f)};
      db.submissions := db.submissions[s := row.(likeCount := row.likeCount - 1)];
      r := Liked(false);
    } else {
      db.likes := db.likes + {(s, f)};
      db.submissions := db.submissions[s := row.(likeCount := row.likeCount + 1)];
      r := Liked(true);
    }
  }
}
