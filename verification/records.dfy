/** The server records the pages read. Only the fields the modelled logic
    uses are kept; every field may be missing or of an unexpected type in
    the JSON, which `Value` expresses. */
module Records {
  import opened Outcomes
  import opened JsValues

  /** A tweet or reply: `_id['$oid']`, `user_id`, `tweet_content`, `likes`
      (absent, or a list of user ids) and `media_url`. */
  datatype Tweet = Tweet(
    oid: string,
    userId: Value,
    content: string,
    likes: Option<seq<Value>>,
    mediaUrl: Value)

  /** A file picked in a file input: its `name` and MIME `type`. */
  datatype File = File(name: Value, mimeType: string)

  /** A user profile: `id`, `username`, `email`, `first_name`,
      `last_name`, `date_of_birth` and `profile_picture_url`. */
  datatype Profile = Profile(
    id: Value,
    username: Value,
    email: Value,
    firstName: Value,
    lastName: Value,
    dateOfBirth: Value,
    profilePictureUrl: Value)

  /** A follow relation as the follower and following endpoints list it. */
  datatype FollowRecord = FollowRecord(followerId: Value, followingId: Value)

  /** The profile the profile page assembles and hands to the profile card:
      the profile with its tweets (absent when the answer had none) and the
      ids of its followers and of the users it follows. */
  datatype UserView = UserView(
    profile: Profile,
    tweets: Option<seq<Tweet>>,
    followers: seq<Value>,
    following: seq<Value>)
}
