/** The settings page: loading the viewer's own profile into the form with
    empty-string defaults, and replacing the profile picture through a
    presigned upload. */
module SettingsPage {
  import opened Outcomes
  import opened JsValues
  import opened Http
  import opened Records
  import AuthService
  import UserService
  import Upload

  /** The form's fields, as shown. */
  datatype UserInfo = UserInfo(
    username: Value,
    email: Value,
    firstName: Value,
    lastName: Value,
    birthday: Value,
    profilePicUrl: Value)

  /** The page's state: the form and whether an upload is in progress. */
  datatype Settings = Settings(info: UserInfo, uploading: bool)

  const Blank: Value := Str("")

  const Initial: Settings := Settings(UserInfo(Blank, Blank, Blank, Blank, Blank, Blank), false)

  /** The id whose profile the page fetches: the viewer's `sub` read by
      `parseInt` with no radix, when a viewer exists and the number read is
      truthy (neither 0 nor `NaN`). */
  function ProfileIdToFetch(user: Option<AuthService.Claims>): (r: Option<int>)
    ensures user.None? ==> r.None?
    ensures user.Some? ==> (r.Some? <==> Truthy(ParseInt(user.value.sub, Unspecified)))
    ensures r.Some? ==> r.value != 0 && ParseInt(user.value.sub, Unspecified) == Num(r.value)
  {
    if user.None? then None
    else match ParseInt(user.value.sub, Unspecified)
      case Num(n) => if n != 0 then Some(n) else None
      case _ => None
  }

  /** A viewer whose `sub` is a number, or its decimal numeral, has that
      profile fetched unless the number is 0. */
  lemma NumericSubIsFetched(n: int, id: Value)
    ensures ProfileIdToFetch(Some(AuthService.Claims(Num(n), id))) == (if n != 0 then Some(n) else None)
    ensures ProfileIdToFetch(Some(AuthService.Claims(Str(ToStr(Num(n))), id))) == (if n != 0 then Some(n) else None)
  {
    ParseIntOfToStr(n, Unspecified);
    assert ParseInt(Str(ToStr(Num(n))), Unspecified) == ParseInt(Num(n), Unspecified);
  }

  /** A missing `sub` claim fetches nothing. */
  lemma MissingSubIsNotFetched(id: Value)
    ensures ProfileIdToFetch(Some(AuthService.Claims(Undefined, id))) == None
    ensures ProfileIdToFetch(Some(AuthService.Claims(Null, id))) == None
  {
    ParseIntOfNullish(Unspecified);
  }

  /** `source || ''`. */
  function OrBlank(source: Value): (shown: Value)
    ensures Truthy(source) ==> shown == source
    ensures !Truthy(source) ==> shown == Blank
  {
    Or(source, Blank)
  }

  /** The form filled from a fetched profile: each field is the profile's
      value when truthy and the empty string otherwise, and the picture is
      the blob URL of the profile's picture when it has one. */
  function InfoOf(api: string, p: Profile): (info: UserInfo)
    ensures info.username == OrBlank(p.username) && info.email == OrBlank(p.email)
    ensures info.firstName == OrBlank(p.firstName) && info.lastName == OrBlank(p.lastName)
    ensures info.birthday == OrBlank(p.dateOfBirth)
    ensures Truthy(p.profilePictureUrl) ==> info.profilePicUrl == Str(UserService.PictureUrl(api, p.profilePictureUrl))
    ensures !Truthy(p.profilePictureUrl) ==> info.profilePicUrl == Blank
  {
    var picture := if Truthy(p.profilePictureUrl) then Str(UserService.PictureUrl(api, p.profilePictureUrl)) else p.profilePictureUrl;
    assert Truthy(p.profilePictureUrl) ==> Truthy(picture);
    UserInfo(OrBlank(p.username), OrBlank(p.email), OrBlank(p.firstName), OrBlank(p.lastName),
             OrBlank(p.dateOfBirth), OrBlank(picture))
  }

  /** Every field of a form filled from a profile is truthy or the empty
      string, and the profile's truthy fields are shown as they are. */
  lemma InfoFieldsAreDefaulted(api: string, p: Profile)
    ensures var info := InfoOf(api, p);
            forall v :: v in [info.username, info.email, info.firstName, info.lastName, info.birthday, info.profilePicUrl] ==>
              Truthy(v) || v == Blank
    ensures var info := InfoOf(api, p);
            Truthy(p.username) && Truthy(p.email) ==> info.username == p.username && info.email == p.email
  {
  }

  /** The mount effect once its call settled: without an id to fetch, or
      when the call fails or answers no profile, the form is unchanged. */
  function FetchUserInfo(s: Settings, api: string, user: Option<AuthService.Claims>, answer: Outcome<Option<Profile>>): (r: Settings)
    ensures r.uploading == s.uploading
    ensures ProfileIdToFetch(user).None? || answer.Failed? ==> r == s
    ensures answer.Ok? && answer.value.None? ==> r == s
    ensures ProfileIdToFetch(user).Some? && answer.Ok? && answer.value.Some? ==> r.info == InfoOf(api, answer.value.value)
  {
    if ProfileIdToFetch(user).None? then s
    else match answer
      case Ok(Some(p)) => s.(info := InfoOf(api, p))
      case _ => s
  }

  /** The page spells out the path the users service builds from its prefix. */
  lemma PresignPathsAgree(api: string, name: string)
    ensures api + "/users/get_presigned_url/" + name == api + UserService.UsersPrefix + "/get_presigned_url/" + name
  {
    assert UserService.UsersPrefix + "/get_presigned_url/" == "/users/get_presigned_url/";
  }

  /** A call the upload handler makes: a request to the API, or the `PUT`
      of the file to the object store with its content type. */
  datatype Call = Send(request: Request) | PutFile(url: string, contentType: string)

  /** The calls `handleFileChange` makes for a picked file, in order, given
      how they settle: the presigned-URL request it spells out itself; when
      that answered ok, the `PUT` to the rewritten URL with the file's MIME
      type; once the transfer went through, the call recording the blob
      name on the profile. */
  function UploadCalls(api: string, file: File, presign: Outcome<Option<Upload.PresignData>>, put: Outcome<Value>): (calls: seq<Call>)
    ensures 1 <= |calls| <= 3
    ensures calls[0] == Send(UserService.GetPresignedUrl(api, file.name))
    ensures 2 <= |calls| <==> presign.Ok? && presign.value.Some?
    ensures |calls| == 3 <==> presign.Ok? && presign.value.Some? && put.Ok?
    ensures 2 <= |calls| ==> calls[1] == PutFile(Upload.RewritePresignedUrl(presign.value.value.presignedUrl, api), file.mimeType)
    ensures |calls| == 3 ==> calls[2] == Send(UserService.SetProfilePictureUrl(api, presign.value.value.blobName))
  {
    PresignPathsAgree(api, ToStr(file.name));
    var ask := [Send(Request(Get, api + "/users/get_presigned_url/" + ToStr(file.name)))];
    match presign
    case Ok(Some(data)) =>
      var upload := ask + [PutFile(Upload.RewritePresignedUrl(data.presignedUrl, api), file.mimeType)];
      if put.Failed? then upload else upload + [Send(UserService.SetProfilePictureUrl(api, data.blobName))]
    case _ => ask
  }

  /** The state once a file was picked and before any call settled. */
  function BeginUpload(s: Settings, file: Option<File>): (r: Settings)
    ensures file.None? ==> r == s
    ensures file.Some? ==> r.uploading && r.info == s.info
  {
    if file.None? then s else s.(uploading := true)
  }

  /** `handleFileChange` once its calls settled. `presign` answers the
      presigned-URL request: `Failed` when the request itself or the reading
      of its body fails, `Ok(None)` for an answer that is not ok. `put`
      answers the upload and `persist` the call recording the picture. The
      picture changes once the upload went through, to the blob URL of the
      blob name, and stays changed when recording it fails; no other field
      changes, and the page is not uploading at the end whatever happened. */
  function HandleFileChange(s: Settings, api: string, file: Option<File>, presign: Outcome<Option<Upload.PresignData>>,
                            put: Outcome<Value>, persist: Outcome<Value>): (r: Settings)
    ensures file.None? ==> r == s
    ensures file.Some? ==> !r.uploading
    ensures file.Some? && presign.Ok? && presign.value.Some? && put.Ok? ==>
              r.info == s.info.(profilePicUrl := Str(UserService.PictureUrl(api, presign.value.value.blobName)))
    ensures file.Some? && !(presign.Ok? && presign.value.Some? && put.Ok?) ==> r.info == s.info
  {
    if file.None? then s
    else
      var started := BeginUpload(s, file);
      var info :=
        match (presign, put)
        case (Ok(Some(data)), Ok(_)) => started.info.(profilePicUrl := Str(UserService.PictureUrl(api, data.blobName)))
        case _ => started.info;
      Settings(info, false)
  }

  /** The picture shown changes to the blob's URL exactly when the handler
      goes on to record that blob on the profile: the form and the server
      are told the same name. */
  lemma ShownPictureIsRecorded(s: Settings, api: string, file: File, presign: Outcome<Option<Upload.PresignData>>,
                               put: Outcome<Value>, persist: Outcome<Value>)
    ensures var calls := UploadCalls(api, file, presign, put);
            var r := HandleFileChange(s, api, Some(file), presign, put, persist);
            |calls| == 3 ==>
              && calls[2].request.url == api + "/users/profile_picture/" + ToStr(presign.value.value.blobName)
              && r.info.profilePicUrl == Str(UserService.PictureUrl(api, presign.value.value.blobName))
    ensures |UploadCalls(api, file, presign, put)| < 3 ==> HandleFileChange(s, api, Some(file), presign, put, persist).info == s.info
  {
    if |UploadCalls(api, file, presign, put)| == 3 {
      UserService.UrlLayout(api, presign.value.value.blobName);
    }
  }

  /** The upload flag goes up when a file is picked and is down again once
      every call has settled, on every path; a picked file changes at most
      the picture. */
  lemma UploadLifecycle(s: Settings, api: string, file: File, presign: Outcome<Option<Upload.PresignData>>,
                        put: Outcome<Value>, persist: Outcome<Value>)
    ensures BeginUpload(s, Some(file)).uploading
    ensures !HandleFileChange(s, api, Some(file), presign, put, persist).uploading
    ensures HandleFileChange(s, api, Some(file), presign, put, persist).info
              == s.info.(profilePicUrl := HandleFileChange(s, api, Some(file), presign, put, persist).info.profilePicUrl)
  {
  }

  /** The picture the form shows after an upload is the one a later load of
      the profile shows once the blob name was recorded. */
  lemma UploadMatchesReload(s: Settings, api: string, file: File, data: Upload.PresignData, put: Value, persist: Value, p: Profile)
    requires Truthy(data.blobName) && p.profilePictureUrl == data.blobName
    ensures HandleFileChange(s, api, Some(file), Ok(Some(data)), Ok(put), Ok(persist)).info.profilePicUrl
              == InfoOf(api, p).profilePicUrl
  {
  }
}
