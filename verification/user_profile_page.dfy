/** The profile page: loading a profile with its followers, the users it
    follows and its tweets, and flattening the follow records to ids. */
module UserProfilePage {
  import opened Outcomes
  import opened JsValues
  import opened Records
  import UserProfileCard

  /** The page's state: the assembled profile (`None` while the page shows
      Loading) and the error line. */
  datatype ProfilePage = ProfilePage(user: Option<UserView>, error: string)

  const Initial: ProfilePage := ProfilePage(None, "")

  const LoadError: string := "Failed to load user profile"

  /** Each record's `follower_id`, in order. */
  function FollowerIds(records: seq<FollowRecord>): (ids: seq<Value>)
    ensures |ids| == |records|
    ensures forall i :: 0 <= i < |records| ==> ids[i] == records[i].followerId
  {
    seq(|records|, i requires 0 <= i < |records| => records[i].followerId)
  }

  /** Each record's `following_id`, in order. */
  function FollowingIds(records: seq<FollowRecord>): (ids: seq<Value>)
    ensures |ids| == |records|
    ensures forall i :: 0 <= i < |records| ==> ids[i] == records[i].followingId
  {
    seq(|records|, i requires 0 <= i < |records| => records[i].followingId)
  }

  /** Flattening keeps the order of the records: it distributes over
      concatenation, and an id is in the result exactly when some record
      carries it. */
  lemma FlattenKeepsOrder(a: seq<FollowRecord>, b: seq<FollowRecord>, v: Value)
    ensures FollowerIds(a + b) == FollowerIds(a) + FollowerIds(b)
    ensures FollowingIds(a + b) == FollowingIds(a) + FollowingIds(b)
    ensures v in FollowerIds(a) <==> exists i :: 0 <= i < |a| && a[i].followerId == v
    ensures v in FollowingIds(a) <==> exists i :: 0 <= i < |a| && a[i].followingId == v
  {
    if v in FollowerIds(a) {
      var i :| 0 <= i < |a| && FollowerIds(a)[i] == v;
    }
    if v in FollowingIds(a) {
      var i :| 0 <= i < |a| && FollowingIds(a)[i] == v;
    }
  }

  /** `loadUserProfile` once its four calls settled, in the order the page
      makes them: the profile, the followers, the following and the tweets.
      A failed call, a missing profile or a missing follower or following
      list sets the error line and keeps the page as it was; otherwise the
      page shows the profile with the tweets as answered and the two lists
      flattened to ids. A success does not clear an earlier error. */
  function Load(p: ProfilePage, profile: Outcome<Option<Profile>>,
                followers: Outcome<Option<seq<FollowRecord>>>, following: Outcome<Option<seq<FollowRecord>>>,
                tweets: Outcome<Option<seq<Tweet>>>): (r: ProfilePage)
    ensures profile.Failed? || followers.Failed? || following.Failed? || tweets.Failed? ==> r == p.(error := LoadError)
    ensures (&& profile.Ok? && followers.Ok? && following.Ok? && tweets.Ok?
             && (profile.value.None? || followers.value.None? || following.value.None?))
              ==> r == p.(error := LoadError)
    ensures (&& profile.Ok? && followers.Ok? && following.Ok? && tweets.Ok?
             && profile.value.Some? && followers.value.Some? && following.value.Some?)
              ==>
                && r.error == p.error && r.user.Some?
                && r.user.value.profile == profile.value.value
                && r.user.value.tweets == tweets.value
                && r.user.value.followers == FollowerIds(followers.value.value)
                && r.user.value.following == FollowingIds(following.value.value)
  {
    match (profile, followers, following, tweets)
    case (Ok(Some(data)), Ok(Some(fs)), Ok(Some(gs)), Ok(ts)) =>
      p.(user := Some(UserView(data, ts, FollowerIds(fs), FollowingIds(gs))))
    case _ => p.(error := LoadError)
  }

  /** The page shows Loading until a profile is assembled. */
  predicate ShowsLoading(p: ProfilePage) {
    p.user.None?
  }

  /** The error line is rendered only under a loaded profile. */
  predicate ShowsError(p: ProfilePage) {
    p.user.Some? && p.error != ""
  }

  /** A first load that fails records the error but leaves the page on
      Loading, so the error is never seen. */
  lemma FailedFirstLoadStaysLoading(profile: Outcome<Option<Profile>>,
        followers: Outcome<Option<seq<FollowRecord>>>, following: Outcome<Option<seq<FollowRecord>>>,
        tweets: Outcome<Option<seq<Tweet>>>)
    requires Load(Initial, profile, followers, following, tweets).user.None?
    ensures Load(Initial, profile, followers, following, tweets).error == LoadError
    ensures ShowsLoading(Load(Initial, profile, followers, following, tweets))
    ensures !ShowsError(Load(Initial, profile, followers, following, tweets))
  {
  }

  /** The counts the card shows for a loaded profile are the numbers of
      follow records the two endpoints answered. */
  lemma CardCountsAreRecordCounts(profile: Profile, fs: seq<FollowRecord>, gs: seq<FollowRecord>, ts: Option<seq<Tweet>>)
    ensures var r := Load(Initial, Ok(Some(profile)), Ok(Some(fs)), Ok(Some(gs)), Ok(ts));
            r.user.Some? && UserProfileCard.Counts(r.user.value) == (|gs|, |fs|)
  {
  }
}
