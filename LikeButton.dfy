/** The like button on a submission page: it flips its own state at once,
    sends the toggle, and flips back only if the toggle reports failure.
    While a toggle is in flight the button is disabled. */
module LikeButton {
  import opened Common
  import opened Store
  import opened LikeActions

  /** What the button shows, and the `newLiked` value of the toggle in
      flight, if any (`isPending` is `inFlight.Some?`). */
  datatype ButtonState = ButtonState(liked: bool, count: int, inFlight: Option<bool>)

  /** `handleClick`: the optimistic update. A disabled button ignores the click. */
  function Click(s: ButtonState): (r: ButtonState)
    ensures s.inFlight.Some? ==> r == s
    ensures s.inFlight.None? ==>
      && r.liked == !s.liked && r.inFlight == Some(r.liked)
      && r.count == s.count + (if r.liked then 1 else -1)
  {
    if s.inFlight.Some? then s
    else
      var newLiked := !s.liked;
      ButtonState(newLiked, if newLiked then s.count + 1 else s.count - 1, Some(newLiked))
  }

  /** The end of the transition: on success the optimistic state stays, on
      failure it is reverted; either way the button is enabled again. */
  function Settle(s: ButtonState, success: bool): (r: ButtonState)
    ensures r.inFlight.None?
    ensures s.inFlight.None? ==> r == s
    ensures s.inFlight.Some? && success ==> r == s.(inFlight := None)
    ensures s.inFlight.Some? && !success ==>
      && r.liked == !s.inFlight.value
      && r.count == s.count + (if s.inFlight.value then -1 else 1)
  {
    if s.inFlight.None? then s
    else
      var newLiked := s.inFlight.value;
      if success then s.(inFlight := None)
      else ButtonState(!newLiked, if newLiked then s.count - 1 else s.count + 1, None)
  }

  /** A failed toggle leaves the button exactly as it was before the click. */
  lemma FailedClickRestores(s: ButtonState)
    requires s.inFlight.None?
    ensures Settle(Click(s), false) == s
  {
  }

  /** Two successful clicks bring the button back to where it started. */
  lemma TwoClicksRestore(s: ButtonState)
    requires s.inFlight.None?
    ensures Settle(Click(Settle(Click(s), true)), true) == s
  {
  }

  /** The button trusts its own guess and never reads the `liked` value the
      server returns. So when it starts in agreement with the server (same
      liked flag for this requester's fingerprint, same count) and nobody
      else toggles in between, it stays in agreement after a click; and on
      failure the server did not change either. */
  lemma {:induction false} ClickAgreesWithServer(s: ButtonState, t: Tables, id: Id, f: string)
    requires s.inFlight.None? && id in t.submissions
    requires s.liked == ((id, f) in t.likes) && s.count == t.submissions[id].likeCount
    ensures var (t', res) := Toggle(t, id, f);
      var s' := Settle(Click(s), res.Liked?);
      && id in t'.submissions
      && s'.liked == ((id, f) in t'.likes)
      && s'.count == t'.submissions[id].likeCount
      && s'.liked == res.liked
  {
    ToggleFrame(t, id, f);
  }

  /** The button component: the three pieces of React state. */
  class Button {
    var liked: bool
    var count: int
    var inFlight: Option<bool>

    function State(): ButtonState
      reads this
    {
      ButtonState(liked, count, inFlight)
    }

    constructor (initialLiked: bool, initialCount: int)
      ensures State() == ButtonState(initialLiked, initialCount, None)
    {
      liked := initialLiked;
      count := initialCount;
      inFlight := None;
    }

    /** `onClick={handleClick}` with `disabled={isPending}`. */
    method HandleClick()
      modifies this
      ensures State() == Click(old(State()))
    {
      if inFlight.Some? {
        return;
      }
      var newLiked := !liked;
      liked := newLiked;
      count := if newLiked then count + 1 else count - 1;
      inFlight := Some(newLiked);
    }

    /** The transition's callback once `toggleLike` has answered. */
    method Complete(result: LikeResult)
      modifies this
      ensures State() == Settle(old(State()), result.Liked?)
    {
      if inFlight.None? {
        return;
      }
      var newLiked := inFlight.value;
      if !result.Liked? {
        liked := !newLiked;
        count := if newLiked then count - 1 else count + 1;
      }
      inFlight := None;
    }
  }
}
