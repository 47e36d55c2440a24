/** The tweet service: the bodies `createTweet` and `createTweetReply` post,
    the paths of the feed, tweet, reply and user-tweet reads, and the like
    requests. Relative paths are resolved by the HTTP client against
    `<api>/tweets`; the like URLs are absolute. */
module TweetService {
  import opened Outcomes
  import opened JsValues
  import opened TagScan
  import opened Http

  /** The JSON body of a new tweet or reply; `parent` is the `tweet_id`
      field, present on replies only. */
  datatype TweetData = TweetData(
    content: string,
    parent: Option<string>,
    likes: seq<Value>,
    hashtags: seq<string>,
    mentions: seq<string>,
    mediaUrl: Value)

  /** A POST of a tweet body to a path. */
  datatype TweetPost = TweetPost(request: Request, data: TweetData)

  /** `blob_name ? blob_name : null`: the blob name when it is truthy, null otherwise. */
  function MediaUrl(blob: Value): (r: Value)
    ensures Truthy(blob) ==> r == blob
    ensures !Truthy(blob) ==> r == Null
  {
    if Truthy(blob) then blob else Null
  }

  /** The body both builders share. */
  function Payload(content: string, parent: Option<string>, blob: Value): TweetData {
    TweetData(content, parent, [], ExtractHashtags(content), ExtractMentions(content), MediaUrl(blob))
  }

  /** `createTweet(content, blob_name)`. */
  function CreateTweet(content: string, blob: Value): TweetPost {
    TweetPost(Request(Post, "/tweets/"), Payload(content, None, blob))
  }

  /** `createTweetReply(content, parent_tweet_id, blob_name)`. */
  function CreateTweetReply(content: string, parentId: string, blob: Value): TweetPost {
    TweetPost(Request(Post, RepliesPath(parentId)), Payload(content, Some(parentId), blob))
  }

  /** The replies of a tweet: read by `getTweetReplies`, posted to by `createTweetReply`. */
  function RepliesPath(tweetId: string): string {
    "/tweets/" + tweetId + "/replies"
  }

  /** `getTweetReplies(tweet_id)`. */
  function GetTweetReplies(tweetId: string): Request {
    Request(Get, RepliesPath(tweetId))
  }

  /** `getTweetById(tweetId)`. */
  function GetTweetById(tweetId: string): Request {
    Request(Get, "/tweets/" + tweetId)
  }

  /** `getTweetsOfUser(user_id)`. */
  function GetTweetsOfUser(userId: Value): Request {
    Request(Get, "/users/" + ToStr(userId))
  }

  const FeedPath: string := "/tweets/"
  const CursorQuery: string := "/tweets/?cursor="

  /** The path `getTweets(cursor)` reads: with the cursor as a query
      parameter when the cursor is truthy, the bare feed path otherwise. */
  function TweetsPath(cursor: Value): (path: string)
    ensures Truthy(cursor) ==> path == CursorQuery + ToStr(cursor)
    ensures !Truthy(cursor) ==> path == FeedPath
  {
    if Truthy(cursor) then CursorQuery + ToStr(cursor) else FeedPath
  }

  /** `getTweets(cursor)`. */
  function GetTweets(cursor: Value): Request {
    Request(Get, TweetsPath(cursor))
  }

  /** The cursor a feed path carries, read back from the path. */
  function CursorOfPath(path: string): Option<string> {
    if |path| > |CursorQuery| && path[..|CursorQuery|] == CursorQuery then Some(path[|CursorQuery|..])
    else None
  }

  /** The like endpoint of a tweet, an absolute URL under `<api>/tweets`. */
  function LikesUrl(api: string, tweetId: string): string {
    api + "/tweets/tweets/" + tweetId + "/likes"
  }

  /** `likeTweet(tweetId)`. */
  function LikeTweet(api: string, tweetId: string): Request {
    Request(Post, LikesUrl(api, tweetId))
  }

  /** `unlikeTweet(tweetId)`. */
  function UnlikeTweet(api: string, tweetId: string): Request {
    Request(Delete, LikesUrl(api, tweetId))
  }

  /** A truthy value never prints as the empty string. */
  lemma TruthyPrintsNonEmpty(v: Value)
    requires Truthy(v)
    ensures ToStr(v) != []
  {
  }

  /** The feed path and the cursor are recovered from each other: a truthy
      cursor is carried verbatim in the query, and a falsy one leaves the
      bare feed path, which carries no cursor. */
  lemma CursorRoundTrip(cursor: Value)
    ensures Truthy(cursor) ==> CursorOfPath(TweetsPath(cursor)) == Some(ToStr(cursor))
    ensures !Truthy(cursor) ==> CursorOfPath(TweetsPath(cursor)) == None
  {
    if Truthy(cursor) {
      var p := TweetsPath(cursor);
      assert p[..|CursorQuery|] == CursorQuery;
      assert p[|CursorQuery|..] == ToStr(cursor);
    }
  }

  /** A reply is the tweet body of the same content and media plus the
      parent id, and it is posted to the path the replies are read from. */
  lemma ReplyIsTweetWithParent(content: string, parentId: string, blob: Value)
    ensures CreateTweetReply(content, parentId, blob).data
         == CreateTweet(content, blob).data.(parent := Some(parentId))
    ensures CreateTweetReply(content, parentId, blob).request.url == GetTweetReplies(parentId).url
    ensures CreateTweet(content, blob).data.parent == None
  {
  }

  /** A new tweet starts with no likes, its hashtags and mentions are those
      of its own content, and its media field is null or a truthy blob name. */
  lemma PayloadFacts(content: string, parent: Option<string>, blob: Value)
    ensures var d := Payload(content, parent, blob);
            && d.likes == []
            && d.hashtags == TagsFrom(content, '#', 0)
            && d.mentions == TagsFrom(content, '@', 0)
            && (d.mediaUrl == Null || (Truthy(d.mediaUrl) && d.mediaUrl == blob))
  {
    ExtractorsAreReference(content);
  }

  /** Liking and unliking address the same URL with different verbs. */
  lemma LikeAndUnlikeShareUrl(api: string, tweetId: string)
    ensures LikeTweet(api, tweetId).url == UnlikeTweet(api, tweetId).url
    ensures LikeTweet(api, tweetId).verb != UnlikeTweet(api, tweetId).verb
  {
  }
}
