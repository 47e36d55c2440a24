/** The profile card: whether the viewer follows the profile, the follow
    toggle, whether the profile is the viewer's own, and the counts. */
module UserProfileCard {
  import opened Outcomes
  import opened JsValues
  import opened Http
  import opened Records
  import AuthService
  import UserService

  /** The card's state: whether the viewer follows the profile, and the
      avatar URL (empty until the profile has a picture). */
  datatype Card = Card(following: bool, pictureUrl: string)

  const Initial: Card := Card(false, "")

  /** The id the card looks for among the followers: the viewer's `sub`
      read as a base-10 integer. */
  function ViewerId(user: Option<AuthService.Claims>): Value {
    ParseInt(AuthService.SubOf(user), Ten)
  }

  /** The effect run when the profile arrives. The follower list of an
      assembled profile is always present (an empty list is truthy), so
      `following` is always derived again; the avatar URL is set only when
      the profile has a picture. */
  function Sync(c: Card, api: string, view: UserView, user: Option<AuthService.Claims>): (r: Card)
    ensures r.following <==> ViewerId(user) in view.followers
    ensures Truthy(view.profile.profilePictureUrl) ==> r.pictureUrl == UserService.PictureUrl(api, view.profile.profilePictureUrl)
    ensures !Truthy(view.profile.profilePictureUrl) ==> r.pictureUrl == c.pictureUrl
  {
    var following := Includes(view.followers, ViewerId(user));
    if Truthy(view.profile.profilePictureUrl) then
      Card(following, UserService.PictureUrl(api, view.profile.profilePictureUrl))
    else
      c.(following := following)
  }

  /** A viewer whose `sub` is the decimal numeral of `n`, or the number
      `n` itself, follows the profile exactly when `n` is among its
      followers. */
  lemma FollowingByNumericSub(c: Card, api: string, view: UserView, n: int, id: Value)
    ensures Sync(c, api, view, Some(AuthService.Claims(Str(ToStr(Num(n))), id))).following <==> Num(n) in view.followers
    ensures Sync(c, api, view, Some(AuthService.Claims(Num(n), id))).following <==> Num(n) in view.followers
  {
    ParseIntOfToStr(n, Ten);
    assert ParseInt(Str(ToStr(Num(n))), Ten) == ParseInt(Num(n), Ten);
  }

  /** Without a viewer the id looked for is `NaN`, which no follower id
      read from JSON is; the card then shows not following. */
  lemma NoViewerNotFollowing(c: Card, api: string, view: UserView)
    requires NaN !in view.followers
    ensures !Sync(c, api, view, None).following
  {
    ParseIntOfNullish(Ten);
  }

  /** The call the toggle makes: unfollow the profile's id when following,
      follow it otherwise. */
  function ToggleRequest(api: string, view: UserView, c: Card): (r: Request)
    ensures c.following ==> r == UserService.UnfollowUser(api, view.profile.id) && r.verb == Delete
    ensures !c.following ==> r == UserService.FollowUser(api, view.profile.id) && r.verb == Post
  {
    if c.following then UserService.UnfollowUser(api, view.profile.id)
    else UserService.FollowUser(api, view.profile.id)
  }

  /** `handleFollowToggle` once its call settled: `following` flips on
      success and nothing changes on failure. */
  function Toggle(c: Card, response: Outcome<Value>): (r: Card)
    ensures r.pictureUrl == c.pictureUrl
    ensures response.Ok? ==> r.following == !c.following
    ensures response.Failed? ==> r == c
  {
    match response
    case Ok(_) => c.(following := !c.following)
    case Failed => c
  }

  /** What the toggle evidently intends, and what the card does when its
      effect does not run again after the toggle's render (as when it
      depends on the viewer's `sub` rather than on the claims object): two
      successful toggles give back the original card, and the second one
      undoes the first's request: follow then unfollow of the same id. */
  lemma ToggleTwice(api: string, view: UserView, c: Card, first: Value, second: Value)
    ensures Toggle(Toggle(c, Ok(first)), Ok(second)) == c
    ensures ToggleRequest(api, view, Toggle(c, Ok(first))).verb != ToggleRequest(api, view, c).verb
    ensures !c.following ==> ToggleRequest(api, view, Toggle(c, Ok(first))) == UserService.UnfollowUser(api, view.profile.id)
    ensures c.following ==> ToggleRequest(api, view, Toggle(c, Ok(first))) == UserService.FollowUser(api, view.profile.id)
  {
  }

  /** The card once a toggle settled and React is done, as the card is
      written. A successful toggle changes the state, so the card renders
      again; `getCurrentUser()` then parses the token into a new claims
      object, which is a changed dependency of the effect, so the effect
      runs again and derives `following` from the unchanged follower list.
      Without a viewer the dependency is `null` on every render, the effect
      does not run again, and the flip stays. */
  function ClickSettled(c: Card, api: string, view: UserView, user: Option<AuthService.Claims>, response: Outcome<Value>): (r: Card)
    ensures response.Failed? ==> r == c
    ensures response.Ok? && user.None? ==> r.following == !c.following && r.pictureUrl == c.pictureUrl
    ensures response.Ok? && user.Some? ==> (r.following <==> ViewerId(user) in view.followers)
  {
    var toggled := Toggle(c, response);
    if response.Ok? && user.Some? then Sync(toggled, api, view, user) else toggled
  }

  /** As written, a viewer's successful toggle is undone at once: the card
      shows what it showed before, and the next click sends the same
      request again instead of the opposite one. */
  lemma ToggleIsUndone(c: Card, api: string, view: UserView, user: Option<AuthService.Claims>, v: Value)
    requires user.Some?
    ensures var shown := Sync(c, api, view, user);
            var after := ClickSettled(shown, api, view, user, Ok(v));
            && after.following == shown.following
            && ToggleRequest(api, view, after) == ToggleRequest(api, view, shown)
  {
  }

  /** `currentUser?.sub == user.id`, with loose equality. The follow button
      shows exactly when this does not hold. */
  predicate IsOwnProfile(user: Option<AuthService.Claims>, view: UserView) {
    LooseEquals(AuthService.SubOf(user), view.profile.id)
  }

  /** A decimal `sub` claim matches a numeric profile id exactly when the
      numbers agree, and without a viewer only a profile with no id counts
      as one's own. */
  lemma OwnProfileByNumber(view: UserView, n: int, m: int, id: Value)
    ensures view.profile.id == Num(m) ==>
              (IsOwnProfile(Some(AuthService.Claims(Str(ToStr(Num(n))), id)), view) <==> n == m)
    ensures IsOwnProfile(None, view) <==> IsNullish(view.profile.id)
  {
    NumeralLooselyEqualsNumber(n, m);
  }

  /** The counts the card shows: following, then followers. */
  function Counts(view: UserView): (nat, nat) {
    (|view.following|, |view.followers|)
  }
}
