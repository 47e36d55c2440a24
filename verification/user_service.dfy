/** The user service: the absolute URLs of the profile, follower, following,
    follow, unfollow, profile-picture and presigned-URL endpoints, all under
    `<api>/users`, and the picture URL under `<api>/user-images`. */
module UserService {
  import opened JsValues
  import opened Http

  const UsersPrefix: string := "/users"
  const ImagesPrefix: string := "/user-images"

  /** `getUserProfilePictureUrl(filename)`. */
  function PictureUrl(api: string, filename: Value): string {
    api + ImagesPrefix + "/" + ToStr(filename)
  }

  /** `getUserProfile(user_id)`. */
  function GetUserProfile(api: string, userId: Value): Request {
    Request(Get, api + UsersPrefix + "/users/" + ToStr(userId))
  }

  /** `getFollowers(user_id)`. */
  function GetFollowers(api: string, userId: Value): Request {
    Request(Get, api + UsersPrefix + "/followers/" + ToStr(userId))
  }

  /** `getFollowing(user_id)`. */
  function GetFollowing(api: string, userId: Value): Request {
    Request(Get, api + UsersPrefix + "/following/" + ToStr(userId))
  }

  /** `followUser(user_id)`: a POST to `follows`. */
  function FollowUser(api: string, userId: Value): Request {
    Request(Post, api + UsersPrefix + "/follows/" + ToStr(userId))
  }

  /** `unfollowUser(user_id)`: a DELETE to `follow`, a different path from
      the one `followUser` posts to. */
  function UnfollowUser(api: string, userId: Value): Request {
    Request(Delete, api + UsersPrefix + "/follow/" + ToStr(userId))
  }

  /** `setProfilePictureURL(filename)`. */
  function SetProfilePictureUrl(api: string, filename: Value): Request {
    Request(Post, api + UsersPrefix + "/profile_picture/" + ToStr(filename))
  }

  /** `get_presigned_url(filename)`. */
  function GetPresignedUrl(api: string, filename: Value): Request {
    Request(Get, api + UsersPrefix + "/get_presigned_url/" + ToStr(filename))
  }

  /** `url` reads as `base`, then `stem`, then `arg`, by position. */
  predicate Splits(url: string, base: string, stem: string, arg: string) {
    && |url| == |base| + |stem| + |arg|
    && url[..|base|] == base
    && url[|base|..|base| + |stem|] == stem
    && url[|base| + |stem|..] == arg
  }

  /** Each URL is the API base, the endpoint's whole fixed stem, then the
      argument as `String` prints it; with `SplitsJoin` the argument reads
      back from what follows the stem. */
  lemma UrlLayout(api: string, v: Value)
    ensures PictureUrl(api, v) == api + "/user-images/" + ToStr(v)
    ensures GetUserProfile(api, v).url == api + "/users/users/" + ToStr(v)
    ensures GetFollowers(api, v).url == api + "/users/followers/" + ToStr(v)
    ensures GetFollowing(api, v).url == api + "/users/following/" + ToStr(v)
    ensures FollowUser(api, v).url == api + "/users/follows/" + ToStr(v)
    ensures UnfollowUser(api, v).url == api + "/users/follow/" + ToStr(v)
    ensures SetProfilePictureUrl(api, v).url == api + "/users/profile_picture/" + ToStr(v)
    ensures GetPresignedUrl(api, v).url == api + "/users/get_presigned_url/" + ToStr(v)
  {
    PictureLayout(api, v);
    ProfileLayout(api, v);
    FollowersLayout(api, v);
    FollowingLayout(api, v);
    FollowLayout(api, v);
    UnfollowLayout(api, v);
    RecordPictureLayout(api, v);
    PresignLayout(api, v);
  }

  // One stem per lemma: each joins the prefix and path literals of one builder.

  lemma PictureLayout(api: string, v: Value)
    ensures PictureUrl(api, v) == api + "/user-images/" + ToStr(v)
  {
  }

  lemma ProfileLayout(api: string, v: Value)
    ensures GetUserProfile(api, v).url == api + "/users/users/" + ToStr(v)
  {
  }

  lemma FollowersLayout(api: string, v: Value)
    ensures GetFollowers(api, v).url == api + "/users/followers/" + ToStr(v)
  {
  }

  lemma FollowingLayout(api: string, v: Value)
    ensures GetFollowing(api, v).url == api + "/users/following/" + ToStr(v)
  {
  }

  lemma FollowLayout(api: string, v: Value)
    ensures FollowUser(api, v).url == api + "/users/follows/" + ToStr(v)
  {
  }

  lemma UnfollowLayout(api: string, v: Value)
    ensures UnfollowUser(api, v).url == api + "/users/follow/" + ToStr(v)
  {
  }

  lemma RecordPictureLayout(api: string, v: Value)
    ensures SetProfilePictureUrl(api, v).url == api + "/users/profile_picture/" + ToStr(v)
  {
  }

  lemma PresignLayout(api: string, v: Value)
    ensures GetPresignedUrl(api, v).url == api + "/users/get_presigned_url/" + ToStr(v)
  {
  }

  /** Three strings joined split back into themselves: a URL built from a
      base, a stem and an argument gives the argument back after the stem. */
  lemma SplitsJoin(base: string, stem: string, arg: string)
    ensures Splits(base + stem + arg, base, stem, arg)
  {
  }

  /** Following and unfollowing use different paths as well as different
      verbs, whatever the two ids. */
  lemma FollowPathsDiffer(api: string, a: Value, b: Value)
    ensures FollowUser(api, a).url != UnfollowUser(api, b).url
    ensures FollowUser(api, a).verb != UnfollowUser(api, b).verb
  {
    var f := FollowUser(api, a).url;
    var u := UnfollowUser(api, b).url;
    assert f[|api| + 13] == 's';
    assert u[|api| + 13] == '/';
  }

  /** The follower list, the following list and the profile of any two users
      are read from three different URLs. */
  lemma ReadPathsDiffer(api: string, a: Value, b: Value)
    ensures GetFollowers(api, a).url != GetFollowing(api, b).url
    ensures GetUserProfile(api, a).url != GetFollowers(api, b).url
    ensures GetUserProfile(api, a).url != GetFollowing(api, b).url
  {
    assert GetFollowers(api, a).url[|api| + 13] == 'e';
    assert GetFollowing(api, b).url[|api| + 13] == 'i';
    assert GetUserProfile(api, a).url[|api| + 7] == 'u';
    assert GetFollowers(api, b).url[|api| + 7] == 'f';
    assert GetFollowing(api, b).url[|api| + 7] == 'f';
  }
}
