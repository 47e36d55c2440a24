/** The presigned-upload step the home and settings pages share: the
    object-store URL the server signs names the store's internal host, and
    the page rewrites it to the host of the configured API base. */
module Upload {
  import opened JsStrings
  import opened JsValues

  /** The answer of `get_presigned_url`: the signed URL and the blob name
      the object is stored under. */
  datatype PresignData = PresignData(presignedUrl: string, blobName: Value)

  const InternalHost: string := "minio:9000"

  /** `API_URL.slice(7) + ":80"`: the API base without its first seven
      characters (the length of `http://`), then port 80. */
  function PublicHost(api: string): string {
    SliceFrom(api, 7) + ":80"
  }

  /** `url.replace("minio:9000", API_URL.slice(7) + ":80")`. */
  function RewritePresignedUrl(url: string, api: string): (r: string)
    ensures (forall j: nat :: !OccursAt(url, InternalHost, j)) ==> r == url
    ensures forall i: nat :: OccursAt(url, InternalHost, i) && (forall j: nat :: j < i ==> !OccursAt(url, InternalHost, j)) ==>
              r == url[..i] + PublicHost(api) + url[i + |InternalHost|..]
  {
    ReplaceFirst(url, InternalHost, PublicHost(api))
  }

  /** With an `http://` base, the internal host of a URL that names it once
      is replaced by the base's host on port 80. */
  lemma RewriteWithHttpBase(before: string, host: string, after: string)
    requires forall j: nat :: !OccursAt(before + InternalHost, InternalHost, j) || j == |before|
    ensures RewritePresignedUrl(before + InternalHost + after, "http://" + host) == before + host + ":80" + after
  {
    var url := before + InternalHost + after;
    var api := "http://" + host;
    assert SliceFrom(api, 7) == host;
    assert OccursAt(url, InternalHost, |before|) by {
      assert url[|before|..|before| + |InternalHost|] == InternalHost;
    }
    forall j: nat | j < |before| ensures !OccursAt(url, InternalHost, j) {
      assert !OccursAt(before + InternalHost, InternalHost, j);
      if j + |InternalHost| <= |url| {
        assert url[j..j + |InternalHost|] == (before + InternalHost)[j..j + |InternalHost|];
      }
    }
    assert url[..|before|] == before;
    assert url[|before| + |InternalHost|..] == after;
  }

  /** The rewrite assumes the base starts with `http://`: with `https://`
      the host keeps a leading slash. */
  lemma HttpsBaseKeepsSlash(host: string)
    ensures PublicHost("https://" + host) == "/" + host + ":80"
  {
    assert SliceFrom("https://" + host, 7) == "/" + host;
  }
}
