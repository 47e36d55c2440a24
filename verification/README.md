# Twitter-clone web client: a Dafny model of its logic

The client is a React application. It lets a user:

- read a feed of tweets and post tweets with an optional image;
- open a tweet with its replies and reply to it;
- like and unlike tweets;
- view a profile with its followers and follow or unfollow it;
- change their own profile picture on a settings page.

Under the view code there are small sequential rules: the text scans and request shapes of the service modules, the handling of the stored credential, the like and follow toggles, and the guards and data mapping of the pages. This project models those rules as pure functions and proves what they promise.

Conventions of the model:

- **JavaScript values.** A value that comes out of JSON or a claim is a `JsValues.Value`: undefined, null, a boolean, an integer, NaN or a string. The model gives it the language's truthiness, `||`, `includes` (SameValueZero), string conversion, `parseInt` and loose `==`.
- **Service calls.** Every call to the server is a parameter of type `Outcome<T>`: `Ok(answer)`, or `Failed` when the call throws. A page operation is a function from the state and the settled answers to the next state.
- **Requests.** The request a call makes is an `Http.Request`, a verb and a URL, so the URLs can be stated and compared.
- **Credential store.** The `localStorage` slot holding the credential is an `Option<string>`.
- **Token parsing.** Turning decoded token bytes into claims (UTF-8, `decodeURIComponent`, `JSON.parse`) is a function parameter. Everything before it is modelled: the segment split, the base64url alphabet mapping and `atob`.

The modules follow the source files:

- `TweetService`, `TagScan`: `src/services/tweets.js`
- `AuthService`, `Base64`: `src/services/auth.js`
- `UserService`: `src/services/users.js`
- `TweetCard`, `RunSplit`: `src/components/TweetCard.js`
- `UserProfileCard`: `src/components/UserProfileCard.js`
- `TweetPage`: `src/pages/Tweet.js`
- `HomePage`: `src/pages/Home.js`
- `UserProfilePage`: `src/pages/UserProfile.js`
- `SettingsPage`: `src/pages/Settings.js`
- shared by several files: `LikeToggle` (the like pair of the card and the tweet page) and `Upload` (the presigned-URL rewrite of the home and settings pages)
- language built-ins: `JsValues`, `JsStrings`, `Outcomes`, `Http`, `Records`

Two facts about the code shape the model:

- The home feed is always fetched without a cursor and replaced wholesale.
- Every toggle is pessimistic: the state changes only after the call has succeeded, and a failed call changes nothing.

## Model

| member | source | states |
|---|---|---|
| TagScan.Scan | src/services/tweets.js:69-71 | every extracted tag is non-empty and consists only of `[A-Za-z0-9_]` |
| TagScan.ScanIsReference | src/services/tweets.js:68-72 | the left-to-right, non-overlapping global match loop yields exactly one tag per sigil followed by a word character: the maximal word run after it, in order of occurrence |
| TagScan.ExtractorsAreReference | src/services/tweets.js:67-79 | `extractHashtags` is that reading with `#`, and `extractMentions` the same reading with `@` |
| TagScan.NoSigilNoTags | src/services/tweets.js:70-71 | content without the sigil yields the empty list, never null |
| TagScan.SingleTag | src/services/tweets.js:69-71 | a sigil, a maximal word run and a sigil-free rest yield exactly that run, without the sigil |
| TweetService.MediaUrl | src/services/tweets.js:32 | `media_url` is the blob name when it is truthy and null otherwise |
| TweetService.PayloadFacts | src/services/tweets.js:27-33 | a new tweet body has no likes, the hashtags and mentions of its own content, and a media field that is null or the truthy blob name |
| TweetService.ReplyIsTweetWithParent | src/services/tweets.js:41-56 | a reply body is the tweet body of the same content and media plus `tweet_id`; it is posted to the path the replies are read from |
| TweetService.TweetsPath | src/services/tweets.js:84 | the feed path is `/tweets/?cursor=<c>` for a truthy cursor and `/tweets/` otherwise |
| TweetService.CursorRoundTrip | src/services/tweets.js:84 | the cursor is carried verbatim in the path and read back from it; a falsy cursor leaves a path with no cursor |
| TweetService.LikeAndUnlikeShareUrl | src/services/tweets.js:112-128 | liking and unliking address the same URL with different verbs |
| AuthService.PayloadSegment | src/services/auth.js:53 | `split('.')[1]` exists exactly when the token contains a dot |
| AuthService.NoDotOneSegment | src/services/auth.js:53 | the split has a single piece exactly when there is no dot |
| AuthService.DecodeJwt | src/services/auth.js:51-64 | a token without a dot decodes to null, and no input makes decoding throw |
| AuthService.DecodeJwtOfEncoded | src/services/auth.js:51-59 | a compact token whose second segment is the base64url encoding of some bytes decodes to whatever those bytes parse to |
| AuthService.StripQuotes | src/services/auth.js:72 | a quoted token loses exactly its outer pair of quotes; any other token is unchanged |
| AuthService.StripQuotesOfQuoted | src/services/auth.js:72 | quoting a line-terminator-free string and stripping gives it back |
| AuthService.GetCurrentUser | src/services/auth.js:66-68 | with nothing stored, or the empty string, there is no current user |
| AuthService.Logout | src/services/auth.js:45-49 | after logout no parser can find a current user |
| AuthService.LoginThenLogout | src/services/auth.js:28-49 | after login with a well-formed token the current user is its parsed payload; after logout there is none |
| AuthService.Login | src/services/auth.js:33-35 | a truthy `jwt_token` is stored as it is; otherwise the store is unchanged |
| AuthService.Register | src/services/auth.js:17-18 | the serialized answer is stored when the answer carries a truthy token |
| AuthService.RegisterPayload | src/services/auth.js:7-14 | the register body carries the given username, email and password, with date of birth `1995-06-07`, first name `John` and last name `Doe` |
| AuthService.RegisterIgnoresDateOfBirth | src/services/auth.js:5-14 | the date of birth argument does not affect the body |
| Base64.ToStandardAlphabet | src/services/auth.js:54 | every `-` becomes `+` and every `_` becomes `/`; other characters are kept and the length is preserved |
| Base64.StandardOfUrl | src/services/auth.js:54 | mapping the base64url encoding (section 5 of RFC 4648) gives the standard encoding (section 4 of RFC 4648) of the same bytes |
| Base64.AtoBUnpadded | src/services/auth.js:55 | `atob` inverts the unpadded standard encoding |
| Base64.AtoBPadded | src/services/auth.js:55 | `atob` inverts the padded standard encoding |
| Base64.AtoB | src/services/auth.js:55 | input whose length after removing white space leaves 2 or 3 over a multiple of four, and that holds a non-alphabet character, makes `atob` throw |
| JsStrings.JoinSplit | src/services/auth.js:53 | joining the pieces of `split('.')` with dots gives back the token |
| JsStrings.SplitJoin | src/services/auth.js:53 | splitting a dot-join of dot-free segments gives back the segments |
| UserService.UrlLayout | src/services/users.js:27-93 | each URL is the API base, the endpoint's whole stem (`/users/users/`, `/users/followers/`, `/users/following/`, `/users/follows/`, `/users/follow/`, `/users/profile_picture/`, `/users/get_presigned_url/`, `/user-images/`), then the argument as printed |
| UserService.SplitsJoin | src/services/users.js:27-93 | a URL built from base, stem and argument splits back into those three by position, so the argument is what follows the stem |
| UserService.FollowPathsDiffer | src/services/users.js:53-69 | follow is a POST to `/follows/<id>` and unfollow a DELETE to `/follow/<id>`; their URLs never coincide |
| UserService.ReadPathsDiffer | src/services/users.js:27-51 | the profile, follower and following URLs never coincide |
| LikeToggle.Initial | src/components/TweetCard.js:29-37 | the initial count is the length of the like list, or 0 when it is absent; a liked initial state has a count of at least one |
| LikeToggle.ClickRequest | src/components/TweetCard.js:70-78 | a click unlikes when liked and likes otherwise, at the tweet's like URL |
| LikeToggle.Click | src/components/TweetCard.js:71-84 | a successful click flips `liked` and keeps the likes of others; a failed one changes nothing |
| LikeToggle.ClickTwice | src/components/TweetCard.js:71-81 | two successful clicks restore the original (liked, count) pair |
| LikeToggle.ClicksKeepOthers | src/components/TweetCard.js:67-85 | along any run of clicks the likes of others are constant, and `liked` has flipped once per successful call |
| LikeToggle.CountStaysNonNegative | src/components/TweetCard.js:29-37 | from the state a like list gives, no run of clicks takes the count below zero |
| LikeToggle.NoClamp | src/components/TweetCard.js:73 | the decrement has no lower clamp: liked with count 0 goes to -1 |
| TweetCard.InitialLike | src/components/TweetCard.js:29-37 | the count is the like list's length, and `liked` holds exactly when the list contains the viewer's `sub` |
| TweetCard.Resync | src/components/TweetCard.js:33-37 | a later run of the effect re-derives `liked` but keeps the held count |
| TweetCard.HandleLikeClick | src/components/TweetCard.js:67-85 | the like request goes to `<api>/tweets/tweets/<oid>/likes` with DELETE when liked and POST otherwise; on success the count moves by one with `liked`; on failure nothing changes |
| TweetCard.ResyncThenUnlike | src/components/TweetCard.js:29-37 | a re-derived `liked` with a stale count of zero leads to a count of -1 |
| TweetCard.MediaImageUrl | src/components/TweetCard.js:132-136 | an image is shown exactly when `media_url` is truthy, at the blob URL of that name |
| TweetCard.SplitKeepingSpace | src/components/TweetCard.js:122 | the pieces alternate text and non-empty white-space runs, and they concatenate to the content |
| RunSplit.SplitIsUnique | src/components/TweetCard.js:122 | the split is the only sequence of that alternating shape that concatenates to the content |
| TweetCard.RenderContent | src/components/TweetCard.js:122-128 | the rendered spans reproduce the content; a span is bold exactly when it starts with `#`; bold spans are words, never white space |
| TweetCard.AvatarUrl | src/components/TweetCard.js:40-44 | the avatar becomes the blob URL of the author's picture when the profile has one; otherwise it is kept |
| TweetCard.EffectRequests | src/components/TweetCard.js:40-53 | the effect reads the author's profile under `/users/users/` by the author's id, and the replies from the URL a reply to the tweet is posted to |
| TweetCard.CommentCount | src/components/TweetCard.js:52-53 | the reply count is the number of replies answered; a failure or a missing list keeps it |
| TweetPage.Load | src/pages/Tweet.js:37-58 | failed calls or a missing reply list change nothing. A loaded tweet sets the count to the like list's length, and `liked` to whether the list contains the viewer's `id`. `liked` is false without a list and unchanged without a viewer |
| TweetPage.LoadGivesInitialLike | src/pages/Tweet.js:46-48 | loaded from the initial page, the like pair is the one the like list gives for the viewer's `id` |
| TweetPage.PageAndCardKeys | src/pages/Tweet.js:48 | the page tests `id` where the card tests `sub`; the two agree when the claims coincide |
| TweetPage.LoadedCountNeverNegative | src/pages/Tweet.js:46-69 | whatever was loaded, no run of like clicks takes the count below zero |
| TweetPage.HandleLike | src/pages/Tweet.js:60-73 | a successful like flips `liked` and keeps the likes of others; a failure changes nothing; nothing else moves |
| TweetPage.CommentPost | src/pages/Tweet.js:76-81 | nothing is posted for a white-space-only draft; otherwise the untrimmed draft is posted as a reply to the page's tweet, with no media |
| TweetPage.AddComment | src/pages/Tweet.js:75-92 | a blank draft or a failed call changes nothing; success replaces the replies with the refetched list, or `[]` when it is null, and clears the draft |
| TweetPage.AddCommentClearsDraft | src/pages/Tweet.js:76-87 | after a reply went through, nothing more is posted until a new draft is typed |
| HomePage.OnMount | src/pages/Home.js:32-44 | a visitor without a session is sent to login; otherwise the feed is loaded from `/tweets/` |
| HomePage.LoadTweets | src/pages/Home.js:46-56 | a successful load replaces the feed with the answer; a failed one keeps it and sets `Failed to load tweets` |
| HomePage.LoadReplaces | src/pages/Home.js:51 | loads replace rather than merge: two loads leave only the second answer |
| HomePage.SelectImage | src/pages/Home.js:58-63 | the file input holds whatever was picked, or nothing; the pick becomes the selection exactly when its MIME type starts with `image/`, otherwise the previous selection is kept |
| HomePage.RemoveImage | src/pages/Home.js:65-70 | removing clears the selection and empties the file input, and nothing else |
| HomePage.UploadGoesToApiHost | src/pages/Home.js:80-92 | with an `http://` base, the submission's PUT goes to the base's host on port 80 instead of the store's host |
| HomePage.TweetToCreate | src/pages/Home.js:94-99 | the untrimmed draft is posted to `/tweets/` with no parent and no likes; the media is null without a selected image, and with one it is the blob name when truthy and null otherwise |
| HomePage.SubmitCalls | src/pages/Home.js:72-99 | a disabled form calls nothing; without an image only the tweet is posted; with one the presigned URL is asked for the selected file's name; once that answered, the file the input holds (not the selection) is PUT to the rewritten URL with its own MIME type, and nothing more is sent when the input is empty; the tweet with the blob name follows only once the transfer went through; the tweet is always the last call |
| HomePage.HandleNewTweet | src/pages/Home.js:72-113 | a disabled form is a no-op; a failure at any step, an empty file input at the upload included, sets `Failed to create tweet` and keeps draft, selection and input; success clears all three and reloads the feed |
| HomePage.ClearedAfterPost | src/pages/Home.js:72-111 | an enabled form is cleared only when its calls ended with the post of the typed draft, carrying the uploaded blob's name (or null when falsy) when an image was selected, after the PUT of the file the input held |
| HomePage.DisabledIffNoOp | src/pages/Home.js:194 | while the input still holds a file whenever an image is selected, the button is disabled exactly when submitting with every call succeeding does nothing |
| HomePage.SelectThenRemove | src/pages/Home.js:58-74 | picking an image enables the form; removing it from a blank draft disables it again |
| HomePage.SubmitDisables | src/pages/Home.js:84-107 | after a successful post the form is disabled; with an image selected but the input emptied, the submission fails with `Failed to create tweet` even when every call would succeed |
| Upload.RewritePresignedUrl | src/pages/Home.js:80 | only the first `minio:9000` is replaced by the API base minus its first seven characters plus `:80`; a URL without it is unchanged |
| Upload.RewriteWithHttpBase | src/pages/Settings.js:104 | with an `http://` base, the single occurrence of the store host becomes the base's host on port 80 |
| Upload.HttpsBaseKeepsSlash | src/pages/Home.js:80 | with an `https://` base the rewritten host keeps a leading `/` |
| UserProfileCard.Sync | src/components/UserProfileCard.js:21-33 | following holds exactly when the followers contain `parseInt(sub, 10)`; the avatar becomes the blob URL when the profile has a picture |
| UserProfileCard.FollowingByNumericSub | src/components/UserProfileCard.js:24-25 | a `sub` that is the number n, or its decimal numeral, follows exactly when n is a follower |
| UserProfileCard.NoViewerNotFollowing | src/components/UserProfileCard.js:24-25 | without a viewer the id looked for is NaN, so a JSON follower list never contains it |
| UserProfileCard.ToggleRequest | src/components/UserProfileCard.js:37-41 | the toggle unfollows when following and follows otherwise |
| UserProfileCard.Toggle | src/components/UserProfileCard.js:35-46 | following flips only on success; a failure changes nothing |
| UserProfileCard.ToggleTwice | src/components/UserProfileCard.js:35-46 | as the handler intends, and as the card behaves when its effect does not run again after the toggle: two successful toggles restore the card, and the second call undoes the first |
| UserProfileCard.ClickSettled | src/components/UserProfileCard.js:18-46 | as written: after a successful toggle by a viewer the effect runs again and `following` is whether the followers contain the viewer's id; without a viewer the flip stays; a failure changes nothing |
| UserProfileCard.ToggleIsUndone | src/components/UserProfileCard.js:18-46 | as written, a viewer's successful toggle leaves the card showing what it showed, and the next click sends the same request again |
| UserProfileCard.OwnProfileByNumber | src/components/UserProfileCard.js:49 | a decimal `sub` matches a numeric id exactly when the numbers agree; without a viewer only a profile without an id counts as one's own |
| UserProfilePage.FollowerIds | src/pages/UserProfile.js:36 | the followers become each record's `follower_id`, keeping length and order |
| UserProfilePage.FollowingIds | src/pages/UserProfile.js:37 | the following become each record's `following_id`, keeping length and order |
| UserProfilePage.FlattenKeepsOrder | src/pages/UserProfile.js:36-37 | flattening distributes over concatenation, and an id is listed exactly when some record carries it |
| UserProfilePage.Load | src/pages/UserProfile.js:24-43 | any failure sets `Failed to load user profile` and keeps the page. Otherwise the profile is shown with `tweets` exactly as answered and both lists flattened |
| UserProfilePage.FailedFirstLoadStaysLoading | src/pages/UserProfile.js:40-60 | a failed first load leaves the page on Loading, so its error is never rendered |
| UserProfilePage.CardCountsAreRecordCounts | src/pages/UserProfile.js:36-39 | the counts the card shows are the numbers of follow records answered |
| SettingsPage.ProfileIdToFetch | src/pages/Settings.js:46-49 | a profile is fetched only with a viewer whose `parseInt(sub)` is truthy, neither 0 nor NaN |
| SettingsPage.NumericSubIsFetched | src/pages/Settings.js:47-50 | a `sub` that is the number n, or its numeral, fetches profile n unless n is 0 |
| SettingsPage.MissingSubIsNotFetched | src/pages/Settings.js:47-49 | a missing `sub` fetches nothing |
| SettingsPage.OrBlank | src/pages/Settings.js:60-65 | a shown field is its source when truthy and `''` otherwise |
| SettingsPage.InfoOf | src/pages/Settings.js:55-66 | each field is defaulted to `''`; the picture is the blob URL of `profile_picture_url` when present and `''` otherwise |
| SettingsPage.InfoFieldsAreDefaulted | src/pages/Settings.js:59-66 | every shown field is truthy or `''` |
| SettingsPage.FetchUserInfo | src/pages/Settings.js:42-75 | without an id, on failure or with no profile the form is unchanged; otherwise it is filled from the profile |
| SettingsPage.UploadCalls | src/pages/Settings.js:86-124 | the page's own presign URL is the users service's `get_presigned_url` for the file's name; the PUT to the rewritten URL with the file's MIME type follows exactly when the answer was ok, and the call recording the blob name exactly when the transfer went through |
| SettingsPage.BeginUpload | src/pages/Settings.js:86-90 | no file is a no-op; a file raises the upload flag |
| SettingsPage.HandleFileChange | src/pages/Settings.js:86-135 | the picture becomes the blob URL of the blob name exactly when presign and upload went through, even if recording it fails; nothing else changes; the flag is down at the end |
| SettingsPage.ShownPictureIsRecorded | src/pages/Settings.js:110-124 | the form shows the new picture exactly when the blob name is sent to `/users/profile_picture/`; otherwise the form is unchanged |
| SettingsPage.UploadLifecycle | src/pages/Settings.js:90-134 | the flag goes up when a file is picked and down on every path, and only the picture can change |
| SettingsPage.UploadMatchesReload | src/pages/Settings.js:117-124 | the picture shown after the upload is the one a later profile load shows once the blob name was recorded |
| JsStrings.Trim | src/pages/Tweet.js:76 | `trim()` is empty exactly when the string is white space only |
| JsStrings.ReplaceFirst | src/pages/Home.js:80 | a string-pattern `replace` rewrites the first occurrence only and leaves a string without one unchanged |
| JsValues.ParseIntOfToStr | src/components/UserProfileCard.js:24 | `parseInt` of an integer's printed form, with either radix, gives the integer back |
| JsValues.ParseIntOfNullish | src/components/UserProfileCard.js:24 | `parseInt` of undefined or null is NaN |
| JsValues.NumeralLooselyEqualsNumber | src/components/UserProfileCard.js:49 | a decimal numeral loosely equals a number exactly when they denote the same integer |

## Findings

| source | as written | input that shows it | evidently intended | confidence | as-written member | corrected member |
|---|---|---|---|---|---|---|
| src/components/UserProfileCard.js:33 | the effect depends on `currentUser`, a claims object parsed anew on every render, so it runs again after the toggle's render and derives `following` from the unchanged follower list | a signed-in viewer not among the followers clicks Follow and the call succeeds: the card still shows Follow, and the next click posts `/users/follows/<id>` again | a successful toggle stays flipped until the profile reloads, so the next click unfollows (as with a dependency on the viewer's `sub`) | not executed | UserProfileCard.ToggleIsUndone | UserProfileCard.ToggleTwice |

## Left out

- Rendering, MUI layout, routing and navigation: no state rule depends on them, except the Loading guards, which are modelled.
- Hook scheduling and stale closures: the model runs one event at a time. Concurrent clicks and overlapping loads are left out.
- Authorization headers are not modelled: the request interceptors that add `Authorization: Bearer <stored>`, the settings page's copy of that header (read once when the module loads), and the `axios` default `Authorization` header that register and login set and logout deletes.
- The `axios` transport: how it joins a relative path to its base URL, its status handling and the error object thrown on failure. Relative paths are modelled as written.
- `fetch` in the home and settings uploads: an HTTP error status does not reject, so the upload fails in the model only when the transfer fails.
- UTF-8 decoding, `decodeURIComponent` and `JSON.parse` in token decoding: a function parameter, not modelled.
- Numbers are integers. Floating point is left out, along with fractional or exponent numerals; `StringToNumber` reads those as NaN.
- Strings are sequences of characters, not of UTF-16 code units.
- `$` substitution patterns in the replacement string of `replace` are left out. The replacements used (`'$1'` in the quote strip, and a host in the URL rewrite) are modelled directly.
- `encodeURIComponent` of the login query string is left out; the login request is not modelled, only the store update.
- `toLocaleString` date formatting: host- and locale-dependent.
- The settings page's file input: its handler reads the picked file from the change event, so the input's later contents play no part.
- The tweet page's author avatar (`/uploads/<profilePic>`): the model's tweet record omits `user`, because Tweet.js reads only `user?.profilePic` from it, and only for the avatar.
- `src/App.js`, `src/pages/SignUp.js` and `src/components/TweetCardSkeleton.js` are not part of this model.
- HomePage.LoadTweets: the feed answer is modelled as a list of tweets. A body without a `tweets` list, which would break rendering, is left out.
- TweetPage.Load: the page's tweet record keeps only the fields the logic reads.
- JsStrings.Trim: the contract states only when the result is empty, which is all the client's `!text.trim()` guards read; which characters `trim` keeps is left to its definition.
