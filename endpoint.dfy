/**
 * The HTTP route `GET /{id}/{real}` (bin.js, `main`): resolve the Telegram
 * file id, fetch the file into the local cache, and serve it either as a
 * forced download (when the `dl` query parameter is truthy) or inline as
 * `video/mp4`.
 */
module Endpoint {
  import opened Common
  import T = Telegram
  import JsonString

  /** What `bot.getFile` resolves to: `file_id`, `fileLink` and the optional `file_path`. */
  datatype FileInfo = FileInfo(fileId: string, fileLink: string, filePath: Option<string>)

  datatype Header = Header(name: string, value: string)

  /** A failure the handler lets escape to the server. */
  datatype Failure = Api(apiError: T.ApiError) | FetchFailed(reason: string)

  /** The handler's outcome. */
  datatype Reply =
    | ServeFile(path: string, headers: seq<Header>, contentType: Option<string>)
    | NotFound                   // `throw boom.notFound()`: HTTP 404
    | Thrown(failure: Failure)   // rethrown unchanged

  /** Drops the trailing `/` characters of a path. */
  function TrimTrailingSlashes(p: string): (r: string)
    ensures |r| <= |p| && r == p[..|r|]
    ensures r == [] || r[|r| - 1] != '/'
    ensures forall i :: |r| <= i < |p| ==> p[i] == '/'
    ensures '/' !in p ==> r == p
  {
    if |p| > 0 && p[|p| - 1] == '/' then TrimTrailingSlashes(p[..|p| - 1]) else p
  }

  /** The part of a path after its last `/`. */
  function LastSegment(p: string): (r: string)
    ensures '/' !in r
    ensures |r| <= |p| && p[|p| - |r|..] == r
    ensures |r| < |p| ==> p[|p| - |r| - 1] == '/'
    ensures '/' !in p ==> r == p
  {
    if p == [] then []
    else if p[|p| - 1] == '/' then []
    else
      var init := p[..|p| - 1];
      assert '/' !in p ==> '/' !in init;
      LastSegment(init) + [p[|p| - 1]]
  }

  /**
   * `path.basename` on POSIX: the last portion of the path. Trailing
   * separators are dropped, and what follows the last remaining `/` is kept.
   */
  function Basename(p: string): (r: string)
    ensures '/' !in r
    ensures '/' !in p ==> r == p
  {
    LastSegment(TrimTrailingSlashes(p))
  }

  /**
   * The basename is the last portion of the path: it ends where only `/`
   * follows, and it starts at the beginning or right after a `/`.
   */
  lemma BasenameIsLastPortion(p: string)
    ensures var r := Basename(p); var e := |TrimTrailingSlashes(p)|;
      && |r| <= e <= |p| && r == p[e - |r|..e]
      && (e == 0 || p[e - 1] != '/')
      && (forall i :: e <= i < |p| ==> p[i] == '/')
      && (|r| == e || p[e - |r| - 1] == '/')
  {
    var q := TrimTrailingSlashes(p);
    var r := LastSegment(q);
    assert q == p[..|q|];
    assert q[|q| - |r|..] == p[|q| - |r|..|q|];
    if |r| < |q| {
      assert q[|q| - |r| - 1] == p[|q| - |r| - 1];
    }
  }

  /** `path.basename(file.file_path || '')`: the cache key handed to `core.fetch.web`. */
  function CacheName(filePath: Option<string>): (r: string)
    ensures '/' !in r
    ensures !Truthy(filePath) ==> r == ""
    ensures Truthy(filePath) ==> r == Basename(filePath.value)
  {
    Basename(if Truthy(filePath) then filePath.value else "")
  }

  const AttachmentPrefix: string := "attachment; filename="
  const VideoMp4: string := "video/mp4"

  /**
   * The headers of a forced download. The code sets a header literally named
   * `type` (not `content-type`); the content type itself is left to the file
   * handler.
   */
  function AttachmentHeaders(realName: string): (r: seq<Header>)
    ensures Header("type", "application/octet-stream") in r
    ensures forall i :: 0 <= i < |r| ==> r[i].name != "content-type"
  {
    [ Header("content-description", "File Transfer"),
      Header("type", "application/octet-stream"),
      Header("content-disposition", AttachmentPrefix + JsonString.Quote(realName)),
      Header("content-transfer-encoding", "binary") ]
  }

  /** The value of the first header with the given name. */
  function HeaderValue(hs: seq<Header>, name: string): Option<string>
  {
    if hs == [] then None
    else if hs[0].name == name then Some(hs[0].value)
    else HeaderValue(hs[1..], name)
  }

  lemma AttachmentHeaderLookup(realName: string)
    ensures HeaderValue(AttachmentHeaders(realName), "content-disposition")
      == Some(AttachmentPrefix + JsonString.Quote(realName))
    ensures HeaderValue(AttachmentHeaders(realName), "content-transfer-encoding") == Some("binary")
  {
    var hs := AttachmentHeaders(realName);
    var cd, cte := "content-disposition", "content-transfer-encoding";
    assert hs[0].name[9] != cd[9];
    assert hs[0].name != cte && hs[1].name != cd && hs[1].name != cte;
    assert hs[2].name == cd && hs[2].name != cte;
    assert hs[3].name == cte;
    assert hs[1..][1..] == hs[2..];
    assert hs[2..][1..] == hs[3..];
    assert HeaderValue(hs[3..], cte) == Some("binary");
    assert HeaderValue(hs[2..], cd) == Some(hs[2].value);
    assert HeaderValue(hs[2..], cte) == Some("binary");
    assert HeaderValue(hs[1..], cd) == Some(hs[2].value);
    assert HeaderValue(hs[1..], cte) == Some("binary");
  }

  /** `if (request.query.dl) … else h.file(…).type('video/mp4')`. */
  function Respond(localPath: string, realName: string, dl: Option<string>): (r: Reply)
    ensures r.ServeFile? && r.path == localPath
    ensures Truthy(dl) <==> HeaderValue(r.headers, "content-disposition").Some?
    ensures !Truthy(dl) <==> r.contentType == Some(VideoMp4)
  {
    if Truthy(dl) then
      AttachmentHeaderLookup(realName);
      ServeFile(localPath, AttachmentHeaders(realName), None)
    else ServeFile(localPath, [], Some(VideoMp4))
  }

  /** The `catch` of the `bot.getFile` call. */
  function ResolveFailure(e: T.ApiError): (r: Reply)
    ensures r == NotFound <==> e.errorCode == Some(400)
    ensures r != NotFound ==> r == Thrown(Api(e))
  {
    if e.errorCode == Some(400) then NotFound else Thrown(Api(e))
  }

  /**
   * The whole handler. `getFile` stands for the Bot API call and `fetchWeb`
   * for `core.fetch.web(fileLink, cacheName)`, which yields the local path.
   */
  function Download(id: string, realName: string, dl: Option<string>,
                    getFile: string -> Result<FileInfo, T.ApiError>,
                    fetchWeb: (string, string) -> Result<string, string>): (r: Reply)
    ensures r.ServeFile? <==>
      getFile(id).Ok? && fetchWeb(getFile(id).value.fileLink, CacheName(getFile(id).value.filePath)).Ok?
    ensures r.ServeFile? ==>
      r.path == fetchWeb(getFile(id).value.fileLink, CacheName(getFile(id).value.filePath)).value
    ensures r.Thrown? && r.failure.FetchFailed? ==>
      getFile(id).Ok? && fetchWeb(getFile(id).value.fileLink, CacheName(getFile(id).value.filePath))
        == Err(r.failure.reason)
  {
    match getFile(id)
    case Err(e) => ResolveFailure(e)
    case Ok(file) =>
      match fetchWeb(file.fileLink, CacheName(file.filePath))
      case Err(reason) => Thrown(FetchFailed(reason))
      case Ok(localPath) => Respond(localPath, realName, dl)
  }

  /** 404 exactly when the resolver rejects the id with `error_code` 400. */
  lemma NotFoundExactly(id: string, realName: string, dl: Option<string>,
                        getFile: string -> Result<FileInfo, T.ApiError>,
                        fetchWeb: (string, string) -> Result<string, string>)
    ensures Download(id, realName, dl, getFile, fetchWeb) == NotFound
      <==> getFile(id).Err? && getFile(id).error.errorCode == Some(400)
  {
  }

  /** Any other resolver error is rethrown as it came. */
  lemma OtherErrorsRethrown(id: string, realName: string, dl: Option<string>,
                            getFile: string -> Result<FileInfo, T.ApiError>,
                            fetchWeb: (string, string) -> Result<string, string>)
    requires getFile(id).Err? && getFile(id).error.errorCode != Some(400)
    ensures Download(id, realName, dl, getFile, fetchWeb) == Thrown(Api(getFile(id).error))
  {
  }

  /**
   * A truthy `dl` gives an attachment whose quoted file name denotes exactly
   * the `real` of the request path, with binary transfer encoding, and no
   * `video/mp4` type.
   */
  lemma AttachmentNamesReal(localPath: string, realName: string, dl: Option<string>)
    requires Truthy(dl)
    ensures var r := Respond(localPath, realName, dl);
      && r.contentType == None
      && HeaderValue(r.headers, "content-transfer-encoding") == Some("binary")
      && var v := HeaderValue(r.headers, "content-disposition");
      && v.Some? && |v.value| > |AttachmentPrefix|
      && v.value[..|AttachmentPrefix|] == AttachmentPrefix
      && JsonString.Unquote(v.value[|AttachmentPrefix|..]) == Some(realName)
  {
    var q := JsonString.Quote(realName);
    AttachmentHeaderLookup(realName);
    JsonString.QuoteUnquote(realName);
    assert (AttachmentPrefix + q)[|AttachmentPrefix|..] == q;
  }

  /** `dl=0` is the non-empty string "0", which JavaScript treats as true: it forces a download too. */
  lemma DlZeroForcesDownload(localPath: string, realName: string)
    ensures Respond(localPath, realName, Some("0")).contentType == None
    ensures Respond(localPath, realName, None).contentType == Some(VideoMp4)
  {
  }
}
