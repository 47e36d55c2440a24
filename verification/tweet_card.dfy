/** The tweet card: its like control (keyed on the viewer's `sub` claim), the
    split of the content into words and white space with hashtag words in
    bold, and the URL of an attached image. */
module TweetCard {
  import opened Outcomes
  import opened JsStrings
  import opened JsValues
  import opened Http
  import opened Records
  import opened LikeToggle
  import AuthService
  import opened RunSplit
  import UserService
  import TweetService

  /** The like state once the card's effect has run: the count from the
      like list, and liked when the list holds the viewer's `sub`. */
  function InitialLike(tweet: Tweet, user: Option<AuthService.Claims>): (s: LikeState)
    ensures s.count == InitialCount(tweet.likes)
    ensures s.liked <==> tweet.likes.Some? && AuthService.SubOf(user) in tweet.likes.value
  {
    Initial(tweet.likes, AuthService.SubOf(user))
  }

  /** A later run of the same effect, when the tweet's like list has changed:
      `liked` is derived again but the count, held since the card was
      created, is not. */
  function Resync(s: LikeState, tweet: Tweet, user: Option<AuthService.Claims>): (r: LikeState)
    ensures r.count == s.count
    ensures r.liked <==> InitialLike(tweet, user).liked
  {
    s.(liked := InitiallyLiked(tweet.likes, AuthService.SubOf(user)))
  }

  /** `handleLikeClick`: the request sent, and the state once it settled. */
  datatype LikeStep = LikeStep(request: Request, next: LikeState)

  function HandleLikeClick(api: string, tweet: Tweet, s: LikeState, response: Outcome<Value>): (r: LikeStep)
    ensures r.request.url == api + "/tweets/tweets/" + tweet.oid + "/likes"
    ensures r.request.verb == (if s.liked then Delete else Post)
    ensures response.Failed? ==> r.next == s
    ensures response.Ok? ==> r.next.liked == !s.liked
    ensures response.Ok? ==> r.next.count == (if s.liked then s.count - 1 else s.count + 1)
  {
    LikeStep(ClickRequest(api, tweet.oid, s), Click(s, response))
  }

  /** A re-derived `liked` can disagree with the held count; a click then
      takes the count below zero. */
  lemma ResyncThenUnlike(api: string, tweet: Tweet, sub: Value, response: Value)
    requires tweet.likes == Some([sub])
    ensures var user := Some(AuthService.Claims(sub, Undefined));
            var stale := LikeState(false, 0);
            HandleLikeClick(api, tweet, Resync(stale, tweet, user), Ok(response)).next.count == -1
  {
  }

  /** The image URL of a tweet with a truthy `media_url`. */
  function MediaImageUrl(api: string, tweet: Tweet): (r: Option<string>)
    ensures r.Some? <==> Truthy(tweet.mediaUrl)
    ensures r.Some? ==> r.value == UserService.PictureUrl(api, tweet.mediaUrl)
  {
    if Truthy(tweet.mediaUrl) then Some(api + "/user-images/" + ToStr(tweet.mediaUrl)) else None
  }

  /** `content.split(/(\s+)/)`. */
  function SplitKeepingSpace(content: string): (pieces: seq<string>)
    ensures IsRunSplit(content, pieces, IsSpace)
  {
    SplitShape(content, IsSpace);
    RunSplit.Split(content, IsSpace)
  }

  /** A rendered piece of content: its text and whether it is bold. */
  datatype Span = Span(text: string, bold: bool)

  /** The content as rendered: each piece of the split, bold exactly when
      it starts with `#`. */
  function RenderContent(content: string): (spans: seq<Span>)
    ensures Concat(Texts(spans)) == content
    ensures forall k :: 0 <= k < |spans| ==> (spans[k].bold <==> StartsWith(spans[k].text, "#"))
    ensures forall k :: 0 <= k < |spans| && spans[k].bold ==> k % 2 == 0 && NoSpace(spans[k].text)
    ensures forall k :: 0 <= k < |spans| && k % 2 == 1 ==> spans[k].text != [] && AllSpace(spans[k].text)
  {
    var pieces := SplitKeepingSpace(content);
    var spans := seq(|pieces|, k requires 0 <= k < |pieces| => Span(pieces[k], StartsWith(pieces[k], "#")));
    assert Texts(spans) == pieces;
    PieceKinds(content, pieces);
    spans
  }

  /** Words hold no white space; runs are non-empty white space and so never
      start with `#`. */
  lemma PieceKinds(content: string, pieces: seq<string>)
    requires IsRunSplit(content, pieces, IsSpace)
    ensures forall k :: 0 <= k < |pieces| && k % 2 == 0 ==> NoSpace(pieces[k])
    ensures forall k :: 0 <= k < |pieces| && k % 2 == 1 ==>
              pieces[k] != [] && AllSpace(pieces[k]) && !StartsWith(pieces[k], "#")
  {
    forall k | 0 <= k < |pieces| && k % 2 == 0 ensures NoSpace(pieces[k]) {
      assert NoneIn(pieces[k], IsSpace);
    }
    forall k | 0 <= k < |pieces| && k % 2 == 1
      ensures pieces[k] != [] && AllSpace(pieces[k]) && !StartsWith(pieces[k], "#")
    {
      assert AllIn(pieces[k], IsSpace);
      assert IsSpace(pieces[k][0]);
    }
  }

  function Texts(spans: seq<Span>): (texts: seq<string>)
    ensures |texts| == |spans|
    ensures forall k :: 0 <= k < |spans| ==> texts[k] == spans[k].text
  {
    seq(|spans|, k requires 0 <= k < |spans| => spans[k].text)
  }

  /** The avatar the card shows once the author's profile, fetched by the
      tweet's `user_id`, has answered: the blob URL of its picture when it
      has one; a failed call, a missing profile or a profile without a
      picture keep the current avatar. */
  function AvatarUrl(current: string, api: string, answer: Outcome<Option<Profile>>): (r: string)
    ensures answer.Ok? && answer.value.Some? && Truthy(answer.value.value.profilePictureUrl) ==>
              r == UserService.PictureUrl(api, answer.value.value.profilePictureUrl)
    ensures !(answer.Ok? && answer.value.Some? && Truthy(answer.value.value.profilePictureUrl)) ==> r == current
  {
    match answer
    case Ok(Some(p)) => if Truthy(p.profilePictureUrl) then UserService.PictureUrl(api, p.profilePictureUrl) else current
    case _ => current
  }

  /** The reply count the card shows once the tweet's replies answered: the
      number of replies, or the current count when the call fails or the
      answer has no list (reading its length throws). */
  function CommentCount(current: nat, answer: Outcome<Option<seq<Tweet>>>): (r: nat)
    ensures answer.Ok? && answer.value.Some? ==> r == |answer.value.value|
    ensures !(answer.Ok? && answer.value.Some?) ==> r == current
  {
    match answer
    case Ok(Some(replies)) => |replies|
    case _ => current
  }

  /** The two fetches of the card's effect: the author's profile, read
      under the users stem by the author's id, and the replies of the
      tweet, read from the URL a reply to it is posted to. */
  lemma EffectRequests(api: string, tweet: Tweet)
    ensures UserService.Splits(UserService.GetUserProfile(api, tweet.userId).url, api, "/users/users/", ToStr(tweet.userId))
    ensures TweetService.GetTweetReplies(tweet.oid) == TweetService.CreateTweetReply(tweet.content, tweet.oid, Null).request.(verb := Get)
  {
    UserService.UrlLayout(api, tweet.userId);
    UserService.SplitsJoin(api, "/users/users/", ToStr(tweet.userId));
  }
}
