/** The single-tweet page: loading the tweet with its replies, the like
    control (keyed on the viewer's `id` claim, where the card uses `sub`),
    and adding a reply. */
module TweetPage {
  import opened Outcomes
  import opened JsStrings
  import opened JsValues
  import opened Records
  import opened LikeToggle
  import AuthService
  import TweetService

  /** The page's state: the tweet (`None` while the page shows Loading),
      the like pair, the replies and the reply being typed. */
  datatype Page = Page(tweet: Option<Tweet>, like: LikeState, comments: seq<Tweet>, draft: string)

  const Initial: Page := Page(None, LikeState(false, 0), [], "")

  /** The effect that loads the page. `fetched` is the answer of
      `getTweetById` (its body may be `null`) and `replies` that of
      `getTweetReplies`. The effect stops at the first call that fails
      and at the first property read of a `null`: reading the length of a
      `null` reply list comes before any state is set; reading `likes` of
      a `null` tweet comes after `tweet` is set; and with a like list but
      no signed-in viewer, reading the viewer's id comes after the tweet,
      count and replies are set but before `liked` is. */
  function Load(p: Page, user: Option<AuthService.Claims>,
                fetched: Outcome<Option<Tweet>>, replies: Outcome<Option<seq<Tweet>>>): (r: Page)
    ensures fetched.Failed? || replies.Failed? ==> r == p
    ensures fetched.Ok? && replies.Ok? && replies.value.None? ==> r == p
    ensures fetched.Ok? && fetched.value.None? && replies.Ok? && replies.value.Some? ==> r == p.(tweet := None)
    ensures fetched.Ok? && fetched.value.Some? && replies.Ok? && replies.value.Some? ==>
              var t := fetched.value.value;
              && r.tweet == Some(t)
              && r.comments == replies.value.value
              && r.draft == p.draft
              && r.like.count == InitialCount(t.likes)
              && (t.likes.None? ==> !r.like.liked)
              && (t.likes.Some? && user.None? ==> r.like.liked == p.like.liked)
              && (t.likes.Some? && user.Some? ==> (r.like.liked <==> user.value.id in t.likes.value))
  {
    match (fetched, replies)
    case (Ok(Some(t)), Ok(Some(cs))) =>
      var count := InitialCount(t.likes);
      var liked :=
        if t.likes.None? then false
        else if user.None? then p.like.liked
        else Includes(t.likes.value, user.value.id);
      Page(Some(t), LikeState(liked, count), cs, p.draft)
    case (Ok(None), Ok(Some(_))) => p.(tweet := None)
    case _ => p
  }

  /** Loaded from the initial page, the like pair is the one the tweet's
      like list gives for the viewer's `id`, or, without a viewer, not
      liked with the list's length. */
  lemma LoadGivesInitialLike(user: Option<AuthService.Claims>, t: Tweet, cs: seq<Tweet>)
    ensures user.Some? ==> Load(Initial, user, Ok(Some(t)), Ok(Some(cs))).like == LikeToggle.Initial(t.likes, user.value.id)
    ensures user.None? ==> Load(Initial, user, Ok(Some(t)), Ok(Some(cs))).like == LikeState(false, InitialCount(t.likes))
  {
  }

  /** The page and the card agree on `liked` for a viewer whose `id` and
      `sub` claims are the same value, and can disagree otherwise. */
  lemma PageAndCardKeys(t: Tweet, cs: seq<Tweet>, c: AuthService.Claims)
    requires t.likes.Some?
    ensures Load(Initial, Some(c), Ok(Some(t)), Ok(Some(cs))).like.liked <==> c.id in t.likes.value
    ensures c.id == c.sub ==>
              Load(Initial, Some(c), Ok(Some(t)), Ok(Some(cs))).like == LikeToggle.Initial(t.likes, AuthService.SubOf(Some(c)))
  {
  }

  /** Whatever the page loaded from the initial state, no run of like
      clicks takes the count below zero. */
  lemma {:induction false} LoadedCountNeverNegative(user: Option<AuthService.Claims>,
        fetched: Outcome<Option<Tweet>>, replies: Outcome<Option<seq<Tweet>>>, responses: seq<Outcome<Value>>)
    ensures Clicks(Load(Initial, user, fetched, replies).like, responses).count >= 0
  {
    var s := Load(Initial, user, fetched, replies).like;
    assert Others(s) >= 0;
    ClicksKeepOthers(s, responses);
  }

  /** `handleLike` once its call settled; only the like pair moves. */
  function HandleLike(p: Page, response: Outcome<Value>): (r: Page)
    ensures r.tweet == p.tweet && r.comments == p.comments && r.draft == p.draft
    ensures response.Failed? ==> r == p
    ensures response.Ok? ==> r.like.liked == !p.like.liked && Others(r.like) == Others(p.like)
  {
    p.(like := Click(p.like, response))
  }

  /** The reply `handleAddComment` posts, if any: none for a draft of only
      white space, otherwise the draft as typed (untrimmed), with the page's
      tweet as its parent and no media. */
  function CommentPost(p: Page, tweetId: string): (r: Option<TweetService.TweetPost>)
    ensures r.None? <==> AllSpace(p.draft)
    ensures r.Some? ==> r.value.data.content == p.draft && r.value.data.parent == Some(tweetId)
    ensures r.Some? ==> r.value.data.mediaUrl == Null
  {
    if Trim(p.draft) == [] then None
    else Some(TweetService.CreateTweetReply(p.draft, tweetId, Null))
  }

  /** `handleAddComment` once its calls settled: `posted` is the answer of
      the reply post and `reloaded` that of the reply list fetched after
      it. A blank draft or a failed call changes nothing; otherwise the
      reply list is replaced by the reloaded one (an empty list when the
      body is `null`) and the draft is cleared. */
  function AddComment(p: Page, posted: Outcome<Value>, reloaded: Outcome<Option<seq<Tweet>>>): (r: Page)
    ensures AllSpace(p.draft) ==> r == p
    ensures posted.Failed? || reloaded.Failed? ==> r == p
    ensures !AllSpace(p.draft) && posted.Ok? && reloaded.Ok? ==>
              && r.tweet == p.tweet && r.like == p.like && r.draft == []
              && (reloaded.value.Some? ==> r.comments == reloaded.value.value)
              && (reloaded.value.None? ==> r.comments == [])
  {
    if Trim(p.draft) == [] then p
    else match (posted, reloaded)
      case (Ok(_), Ok(list)) =>
        p.(comments := if list.Some? then list.value else [], draft := [])
      case _ => p
  }

  /** After a reply went through, the page posts nothing more until a new
      draft is typed. */
  lemma AddCommentClearsDraft(p: Page, tweetId: string, posted: Value, reloaded: Option<seq<Tweet>>,
                              again: Outcome<Value>, reloadedAgain: Outcome<Option<seq<Tweet>>>)
    requires CommentPost(p, tweetId).Some?
    ensures var q := AddComment(p, Ok(posted), Ok(reloaded));
            CommentPost(q, tweetId) == None && AddComment(q, again, reloadedAgain) == q
  {
  }
}
