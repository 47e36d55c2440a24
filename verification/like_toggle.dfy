/** The like control shared by the tweet card and the tweet page: the state
    is the pair (liked, count); a click calls the service first and changes
    the state only once the call has resolved, so a failed call changes
    nothing. There is no optimistic update and no rollback. */
module LikeToggle {
  import opened Outcomes
  import opened JsValues
  import opened Http
  import TweetService

  datatype LikeState = LikeState(liked: bool, count: int)

  /** `likes?.length || 0`. */
  function InitialCount(likes: Option<seq<Value>>): (n: nat)
    ensures likes.Some? ==> n == |likes.value|
    ensures likes.None? ==> n == 0
  {
    match likes
    case None => 0
    case Some(xs) => |xs|
  }

  /** `likes?.includes(who) || false`. */
  predicate InitiallyLiked(likes: Option<seq<Value>>, who: Value) {
    likes.Some? && Includes(likes.value, who)
  }

  /** The state a like list gives for a viewer. */
  function Initial(likes: Option<seq<Value>>, who: Value): (s: LikeState)
    ensures s.count == (if likes.Some? then |likes.value| else 0)
    ensures s.liked <==> likes.Some? && Includes(likes.value, who)
    ensures s.liked ==> s.count >= 1
    ensures s.count >= 0
  {
    LikeState(InitiallyLiked(likes, who), InitialCount(likes))
  }

  /** The likes of other users, as the counter shows them. */
  function Others(s: LikeState): int {
    s.count - (if s.liked then 1 else 0)
  }

  /** The call a click makes: unlike when liked, like otherwise. */
  function ClickRequest(api: string, tweetId: string, s: LikeState): (r: Request)
    ensures r.url == TweetService.LikesUrl(api, tweetId)
    ensures s.liked <==> r.verb == Delete
    ensures !s.liked <==> r.verb == Post
  {
    if s.liked then TweetService.UnlikeTweet(api, tweetId) else TweetService.LikeTweet(api, tweetId)
  }

  /** The state after a click once its call settled: on success `liked`
      flips and the count moves by one with it (down from liked, up from
      not liked); on failure nothing changes. */
  function Click(s: LikeState, response: Outcome<Value>): (r: LikeState)
    ensures response.Failed? ==> r == s
    ensures response.Ok? ==> r.liked == !s.liked && Others(r) == Others(s)
  {
    match response
    case Failed => s
    case Ok(_) =>
      if s.liked then LikeState(false, s.count - 1) else LikeState(true, s.count + 1)
  }

  /** Two successful clicks give back the original pair. */
  lemma ClickTwice(s: LikeState, first: Value, second: Value)
    ensures Click(Click(s, Ok(first)), Ok(second)) == s
  {
  }

  /** The state after a run of clicks, one settled call each. */
  function Clicks(s: LikeState, responses: seq<Outcome<Value>>): LikeState
    decreases |responses|
  {
    if responses == [] then s else Clicks(Click(s, responses[0]), responses[1..])
  }

  /** Along any run of clicks the likes of others stay what they were, and
      the state is the start state when an even number of the calls
      succeeded and its flip otherwise. */
  lemma {:induction false} ClicksKeepOthers(s: LikeState, responses: seq<Outcome<Value>>)
    ensures Others(Clicks(s, responses)) == Others(s)
    ensures Clicks(s, responses).liked == (s.liked != (Successes(responses) % 2 == 1))
    decreases |responses|
  {
    if responses != [] {
      ClicksKeepOthers(Click(s, responses[0]), responses[1..]);
      assert Successes(responses) == (if responses[0].Ok? then 1 else 0) + Successes(responses[1..]);
    }
  }

  function Successes(responses: seq<Outcome<Value>>): nat {
    if responses == [] then 0 else (if responses[0].Ok? then 1 else 0) + Successes(responses[1..])
  }

  /** From the state a like list gives, no run of clicks takes the count
      below zero, although the decrement itself has no clamp. */
  lemma CountStaysNonNegative(likes: Option<seq<Value>>, who: Value, responses: seq<Outcome<Value>>)
    ensures Clicks(Initial(likes, who), responses).count >= 0
  {
    ClicksKeepOthers(Initial(likes, who), responses);
  }

  /** The decrement is not clamped: a state that shows liked with a count of
      zero goes to -1 on a successful click. */
  lemma NoClamp(response: Value)
    ensures Click(LikeState(true, 0), Ok(response)) == LikeState(false, -1)
  {
  }
}
