/** The home page: the feed, the new-tweet form with its optional image,
    and the upload of that image through a presigned URL before the tweet
    is created. */
module HomePage {
  import opened Outcomes
  import opened JsStrings
  import opened JsValues
  import opened Http
  import opened Records
  import AuthService
  import TweetService
  import UserService
  import Upload

  /** The page's state: the feed, the draft, the error line, the selected
      image, and the file the file input holds (`files[0]`, absent when
      its list is empty). The two files differ when a later pick was not an
      image or was cancelled: the selection keeps the earlier image while
      the input holds the new pick or nothing. */
  datatype Home = Home(tweets: seq<Tweet>, draft: string, error: string, image: Option<File>, input: Option<File>)

  const Initial: Home := Home([], "", "", None, None)

  const LoadError: string := "Failed to load tweets"
  const CreateError: string := "Failed to create tweet"

  /** What the mount effect does: send a visitor with no session to the
      login page, otherwise load the feed. */
  datatype MountAction = ToLogin | LoadFeed(request: Request)

  function OnMount(user: Option<AuthService.Claims>): (r: MountAction)
    ensures r.ToLogin? <==> user.None?
    ensures r.LoadFeed? ==> r.request == TweetService.GetTweets(Undefined) && r.request.url == TweetService.FeedPath
  {
    if user.None? then ToLogin else LoadFeed(TweetService.GetTweets(Undefined))
  }

  /** `loadTweets` once its call settled: the feed is replaced wholesale by
      the answer; a failure keeps the feed and sets the error line. A
      success does not clear an earlier error. */
  function LoadTweets(h: Home, answer: Outcome<seq<Tweet>>): (r: Home)
    ensures r.draft == h.draft && r.image == h.image && r.input == h.input
    ensures answer.Ok? ==> r.tweets == answer.value && r.error == h.error
    ensures answer.Failed? ==> r.tweets == h.tweets && r.error == LoadError
  {
    match answer
    case Ok(feed) => h.(tweets := feed)
    case Failed => h.(error := LoadError)
  }

  /** Loading replaces the feed rather than merging into it: a second
      successful load leaves only its own answer. */
  lemma LoadReplaces(h: Home, first: seq<Tweet>, second: seq<Tweet>)
    ensures LoadTweets(LoadTweets(h, Ok(first)), Ok(second)) == LoadTweets(h, Ok(second))
  {
  }

  /** `handleImageSelect`, after the input's change event left `picked` as
      its first file: the input holds that pick whatever it is, and it
      becomes the selection when its MIME type starts with `image/`; any
      other pick, or none, keeps the earlier selection. */
  function SelectImage(h: Home, picked: Option<File>): (r: Home)
    ensures r.tweets == h.tweets && r.draft == h.draft && r.error == h.error
    ensures r.input == picked
    ensures picked.Some? && StartsWith(picked.value.mimeType, "image/") ==> r.image == picked
    ensures !(picked.Some? && StartsWith(picked.value.mimeType, "image/")) ==> r == h.(input := picked)
  {
    var held := h.(input := picked);
    if picked.Some? && StartsWith(picked.value.mimeType, "image/") then held.(image := picked) else held
  }

  /** `handleRemoveImage`: the selection is dropped and the input emptied. */
  function RemoveImage(h: Home): (r: Home)
    ensures r.image == None && r.input == None
    ensures r.tweets == h.tweets && r.draft == h.draft && r.error == h.error
  {
    h.(image := None, input := None)
  }

  /** The submit button is disabled when the draft is only white space and
      no image is selected. */
  predicate Disabled(h: Home) {
    Trim(h.draft) == [] && h.image.None?
  }

  /** The tweet the form creates: the draft as typed (untrimmed), with the
      uploaded blob's name as media when an image is selected and none
      otherwise. `presign` is the presigned-URL answer, present exactly
      when an image is selected. */
  function TweetToCreate(h: Home, presign: Option<Upload.PresignData>): (r: TweetService.TweetPost)
    requires presign.Some? <==> h.image.Some?
    ensures r.request == TweetService.CreateTweet(h.draft, Null).request
    ensures r.data.content == h.draft && r.data.parent == None && r.data.likes == []
    ensures r.data.mediaUrl == TweetService.MediaUrl(if h.image.Some? then presign.value.blobName else Null)
    ensures h.image.None? ==> r.data.mediaUrl == Null
    ensures h.image.Some? && Truthy(presign.value.blobName) ==> r.data.mediaUrl == presign.value.blobName
    ensures h.image.Some? && !Truthy(presign.value.blobName) ==> r.data.mediaUrl == Null
  {
    TweetService.PayloadFacts(h.draft, None, if presign.Some? then presign.value.blobName else Null);
    if presign.Some? then TweetService.CreateTweet(h.draft, presign.value.blobName)
    else TweetService.CreateTweet(h.draft, Null)
  }

  /** A call the submit handler makes: a request through the users
      service, the `PUT` of a file (whose MIME type is the request's
      `Content-Type`), or the creation of the tweet. */
  datatype Call = Send(request: Request) | PutFile(url: string, body: File) | PostTweet(post: TweetService.TweetPost)

  /** The calls `handleNewTweet` makes, in order, given how the presign
      and upload calls settle. With an image: the presigned-URL request
      named after the selected file; then, once it answered, the `PUT` to
      the rewritten URL of the file the input holds (with no file there,
      reading its type throws and nothing more is sent); then, once the
      transfer went through, the tweet with the blob name. Without an
      image: only the tweet. A disabled form makes no call. */
  function SubmitCalls(h: Home, api: string, presign: Outcome<Upload.PresignData>, put: Outcome<Value>): (calls: seq<Call>)
    ensures Disabled(h) ==> calls == []
    ensures !Disabled(h) && h.image.None? ==> calls == [PostTweet(TweetToCreate(h, None))]
    ensures !Disabled(h) && h.image.Some? ==>
              && 1 <= |calls| <= 3
              && calls[0] == Send(UserService.GetPresignedUrl(api, h.image.value.name))
              && (2 <= |calls| <==> presign.Ok? && h.input.Some?)
              && (|calls| == 3 <==> presign.Ok? && h.input.Some? && put.Ok?)
    ensures !Disabled(h) && h.image.Some? && presign.Ok? && h.input.Some? ==>
              calls[1] == PutFile(Upload.RewritePresignedUrl(presign.value.presignedUrl, api), h.input.value)
    ensures !Disabled(h) && h.image.Some? && presign.Ok? && h.input.Some? && put.Ok? ==>
              calls[2] == PostTweet(TweetToCreate(h, Some(presign.value)))
    ensures forall k :: 0 <= k < |calls| && calls[k].PostTweet? ==> k == |calls| - 1
  {
    if Disabled(h) then []
    else if h.image.None? then [PostTweet(TweetToCreate(h, None))]
    else
      var image := h.image.value;
      var ask := [Send(UserService.GetPresignedUrl(api, image.name))];
      match presign
      case Failed => ask
      case Ok(data) =>
        if h.input.None? then ask
        else
          var upload := ask + [PutFile(Upload.RewritePresignedUrl(data.presignedUrl, api), h.input.value)];
          if put.Failed? then upload else upload + [PostTweet(TweetToCreate(h, Some(data)))]
  }

  /** With an `http://` base, the upload goes to the base's host on port
      80 in place of the object store's internal host. */
  lemma UploadGoesToApiHost(h: Home, host: string, before: string, after: string, blob: Value, put: Outcome<Value>)
    requires h.image.Some? && h.input.Some?
    requires forall j: nat :: !OccursAt(before + Upload.InternalHost, Upload.InternalHost, j) || j == |before|
    ensures var presign := Upload.PresignData(before + Upload.InternalHost + after, blob);
            SubmitCalls(h, "http://" + host, Ok(presign), put)[1].url == before + host + ":80" + after
  {
    Upload.RewriteWithHttpBase(before, host, after);
  }

  /** `handleNewTweet` once its calls settled. `presign` answers the
      presigned-URL request and `put` the upload (both consulted only when
      an image is selected; the upload fails only when the transfer itself
      does, an HTTP error status counts as done), `created` answers the
      tweet creation and `reload` the feed load started after it. A
      disabled form changes nothing; a failure at any step, including an
      empty file input at the upload, sets the error line and keeps the
      draft, image and input; success clears all three and reloads the
      feed. */
  function HandleNewTweet(h: Home, presign: Outcome<Upload.PresignData>, put: Outcome<Value>,
                          created: Outcome<Value>, reload: Outcome<seq<Tweet>>): (r: Home)
    ensures Disabled(h) ==> r == h
    ensures !Disabled(h) && created.Failed? ==> r == h.(error := CreateError)
    ensures !Disabled(h) && h.image.Some? && (presign.Failed? || h.input.None? || put.Failed?) ==> r == h.(error := CreateError)
    ensures !Disabled(h) && created.Ok? && (h.image.Some? ==> presign.Ok? && h.input.Some? && put.Ok?) ==>
              && r.draft == [] && r.image == None && r.input == None
              && r == LoadTweets(h.(draft := [], image := None, input := None), reload)
  {
    if Disabled(h) then h
    else if h.image.Some? && (presign.Failed? || h.input.None? || put.Failed?) then h.(error := CreateError)
    else if created.Failed? then h.(error := CreateError)
    else LoadTweets(h.(draft := [], image := None, input := None), reload)
  }

  /** The form is cleared only after the tweet went out: when an enabled
      submission leaves no draft and no image, its calls end with the post
      of the typed draft, carrying the uploaded blob's name when an image
      was selected, after the `PUT` of the file the input held. */
  lemma ClearedAfterPost(h: Home, api: string, presign: Outcome<Upload.PresignData>, put: Outcome<Value>,
                         created: Outcome<Value>, reload: Outcome<seq<Tweet>>)
    ensures var r := HandleNewTweet(h, presign, put, created, reload);
            var calls := SubmitCalls(h, api, presign, put);
            !Disabled(h) && r.draft == [] && r.image.None? ==>
              && calls != []
              && calls[|calls| - 1].PostTweet?
              && calls[|calls| - 1].post.data.content == h.draft
              && (h.image.Some? ==>
                    && presign.Ok? && h.input.Some?
                    && calls[1] == PutFile(Upload.RewritePresignedUrl(presign.value.presignedUrl, api), h.input.value)
                    && calls[|calls| - 1].post.data.mediaUrl == TweetService.MediaUrl(presign.value.blobName))
  {
    var r := HandleNewTweet(h, presign, put, created, reload);
    if !Disabled(h) && r.draft == [] && r.image.None? {
      if h.image.None? {
        assert Trim([]) == [];
        assert h.draft != [];
      } else {
        assert presign.Ok? && h.input.Some? && put.Ok?;
      }
    }
  }

  /** With a selected image still in the file input, the form does
      something exactly when it is enabled: a disabled form is a no-op
      whatever the calls answer, and an enabled one whose calls all succeed
      changes the state. */
  lemma DisabledIffNoOp(h: Home, presign: Upload.PresignData, put: Value, created: Value, reload: Outcome<seq<Tweet>>)
    ensures (h.image.Some? ==> h.input.Some?) ==>
              (Disabled(h) <==> HandleNewTweet(h, Ok(presign), Ok(put), Ok(created), reload) == h)
  {
    if !Disabled(h) {
      var r := HandleNewTweet(h, Ok(presign), Ok(put), Ok(created), reload);
      if h.image.None? {
        assert Trim(h.draft) != [];
        assert h.draft != r.draft;
      }
    }
  }

  /** Picking an image enables the form, and removing it from a blank
      draft disables it again. */
  lemma SelectThenRemove(h: Home, image: File)
    requires StartsWith(image.mimeType, "image/")
    ensures !Disabled(SelectImage(h, Some(image)))
    ensures Trim(h.draft) == [] ==> Disabled(RemoveImage(SelectImage(h, Some(image))))
  {
  }

  /** After a successful submission the form is disabled until something
      new is typed or picked; one whose input lost the selected image fails
      even when every call would succeed. */
  lemma SubmitDisables(h: Home, presign: Upload.PresignData, put: Value, created: Value, reload: Outcome<seq<Tweet>>)
    requires !Disabled(h)
    ensures (h.image.Some? ==> h.input.Some?) ==> Disabled(HandleNewTweet(h, Ok(presign), Ok(put), Ok(created), reload))
    ensures h.image.Some? && h.input.None? ==>
              HandleNewTweet(h, Ok(presign), Ok(put), Ok(created), reload) == h.(error := CreateError)
  {
    if h.image.Some? ==> h.input.Some? {
      var r := HandleNewTweet(h, Ok(presign), Ok(put), Ok(created), reload);
      assert r.draft == [] && r.image.None?;
      assert Trim([]) == [];
    }
  }
}
