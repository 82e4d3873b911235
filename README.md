# tg-asticker2vid-bot in Dafny

A verified model of the decision and string logic of `bin.js`, the single
script of a Telegram bot that turns animated stickers into MP4 videos and
serves the converted files over HTTP. The model covers five pieces:

- **Payload** (`payload.dfy`): sniffing a fetched sticker buffer. It is plain
  Lottie JSON when its first byte is `{` (123), and anything else goes to
  `zlib.gunzip`.
- **Naming and links** (`naming.dfy`, `uri.dfy`, `json.dfy`):
  - the file name the video is sent under;
  - stripping one trailing `_` from the name Telegram reports back;
  - `encodeURI` as defined in the URI Handling Functions of ECMA-262, which
    is percent-encoding of UTF-8 bytes as in section 2.1 of RFC 3986, with
    upper-case hexadecimal digits;
  - the download link `<mainURL>/<id>/<name>?dl=1` and the follow-up message;
  - `JSON.stringify` of a string (QuoteJSONString of ECMA-262), which quotes
    the attachment file name.
- **Dispatch** (`router.dfy`): the direct `sticker`, `document`, `photo` and
  `text` bindings, and the `forward` handler's `switch (true)`.
- **Delivery endpoint** (`endpoint.dfy`): `GET /{id}/{real}`. A resolver
  error with `error_code` 400 becomes a 404 and any other error is
  rethrown. The cache name comes from POSIX `path.basename`. A truthy `dl`
  selects the attachment headers and otherwise the response is inline
  `video/mp4`.
- **Sticker pipeline** (`pipeline.dfy`): `handleSticker` and `postConvert` as
  methods of a `Session` class.
  - The session records a trace of steps:
    - acquiring and cleaning the temporary files `location`, `lottie` and
      `generated`;
    - writing the document;
    - the render;
    - the video send, the link message and the text reply.
  - It also records the set of files on disk.
  - Its invariant is that every file is acquired once and cleaned at most
    once, after its acquisition, and that the files on disk are exactly
    those acquired and not yet cleaned.
  - Each method is proved equal to a trace function of the foreign calls'
    outcomes (`World`). The order, count and leak properties are lemmas
    about that function.

Foreign code is represented as follows:

- `zlib.gunzip` and `emoji.getName` are uninterpreted function parameters.
- The Telegram calls (`core.fetch.tg`, `reply.video`, `bot.sendMessage`,
  `msg.reply.text`), the file-system read `fs.readFile` and `renderLottie`
  are outcomes in a `World` value:
  - success flags for the fetch, the render and the sends;
  - a `Result` for the file read;
  - the acknowledgement record returned by the video send.
- On the endpoint, `bot.getFile` and `core.fetch.web` are function
  parameters of `Endpoint.Download`.

Behaviour of bin.js worth noting:

- The `forward` switch tests sticker, document, text, photo in that order.
  A forwarded text gets the confused reply, while a direct `text` event is
  bound to a handler that does nothing.
- The non-animated branch still fetches `location` first and never cleans
  it.
- There is no `try`/`finally`, so every failure after an acquisition leaves
  its files on disk.
- The attachment response sets a header literally named `type`, not
  `content-type`.
- `dl=0` is the non-empty string `"0"`, which is truthy, so it also forces a
  download.

## Model

| member | source | states |
|---|---|---|
| Payload.Classify | bin.js:62 | a buffer is plain JSON exactly when it is non-empty and its first byte is 123; an empty buffer goes to gunzip |
| Payload.Decode | bin.js:61-64 | the document for the renderer is the buffer unchanged when it starts with `{`, and otherwise exactly what `gunzip` returns, failure included |
| Payload.GzipIsDecompressed | bin.js:62-64 | a buffer with the gzip magic bytes of section 2.3.1 of RFC 1952 is always sent to `gunzip` |
| Payload.LeadingSpaceGoesToGunzip | bin.js:62 | a buffer starting with a space is neither `{` nor gzip, and it still goes to `gunzip`: the test is a first-byte heuristic |
| Payload.DecodeRecoversDocument | bin.js:61-64 | if `gunzip` inverts a compressor whose output carries the gzip magic, then both the plain and the compressed form of a `{`-document decode to that document |
| Uri.EncodeURI | bin.js:41 | `encodeURI` output is at least as long as its input, contains only unreserved, reserved, `#`, `%` and hex characters, and never a space |
| Uri.UnescapeEncodeURI | bin.js:41 | percent-decoding `encodeURI(s)` gives exactly the UTF-8 bytes of `s` |
| Uri.EncodeURIIdentity | bin.js:41 | `encodeURI` leaves a string unchanged if and only if every character is in its unescaped set |
| JsonString.EscapeChar | bin.js:158 | one character's escape is 1 to 6 characters with no control character; it is the one-character string of the character itself exactly when that is not a control character, `"` or `\`, and otherwise a `\` escape |
| JsonString.Quote | bin.js:158 | `JSON.stringify` of a string is wrapped in double quotes and contains no control character |
| JsonString.QuoteUnquote | bin.js:158 | reading the quoted literal back as a JSON string gives exactly the original string |
| Naming.OutgoingFileName | bin.js:83 | the video file name always ends in `animated_sticker.mp4`; it is exactly that when the emoji is absent or empty, and otherwise `getName(emoji)` (or "undefined") followed by `_animated_sticker.mp4` |
| Naming.ReplaceFirstMatch | bin.js:38 | the search for `_$` from a position on cuts out exactly the final `_` when the string ends in `_` and the search has not passed it, and otherwise leaves the string unchanged |
| Naming.ReplaceFinalUnderscore | bin.js:38 | `replace(/_$/, '')` removes exactly the final `_` when there is one and changes nothing otherwise |
| Naming.StripTrailingUnderscore | bin.js:37-39 | when the name ends in `_`, exactly one `_` is dropped and appending `_` restores the name; otherwise the name is unchanged |
| Naming.StripExamples | bin.js:37-39 | "clip_" becomes "clip", "clip__" becomes "clip_", and "clip" stays "clip" |
| Naming.LinkName | bin.js:37-41 | the link's file-name segment contains no space, and percent-decoding it gives the UTF-8 of the name with one trailing `_` stripped |
| Naming.DownloadLinkParts | bin.js:43 | the link is `mainURL/id/` (the file id of the video send), then a segment that decodes to the stripped name, then `?dl=1` |
| Naming.DownloadLink | bin.js:43 | the template `${mainURL}/${id}/${fName}?dl=1` with the encoded, stripped name; its parts are stated by `Naming.DownloadLinkParts` |
| Naming.LinkMessage | bin.js:43-45 | the follow-up text: fixed introduction, download link, donation note; `Naming.LinkInMessage` locates the link in it |
| Naming.LinkInMessage | bin.js:43-45 | the follow-up message contains the download link right after its fixed introduction |
| Router.ForwardKind | bin.js:96-106 | the `switch (true)` of the forward handler; `Router.ForwardPicksFirstPresent` proves it selects the first kind present in the order sticker, document, text, photo |
| Router.KindAction | bin.js:97-105 | the case bodies: the sticker handler exactly for a sticker, no response exactly for the default case, the confused reply otherwise |
| Router.Dispatch | bin.js:91-107 | the sticker handler runs exactly for a `sticker` event or a forwarded message with a sticker; nothing happens exactly for a `text` event or a forwarded message carrying none of the four kinds |
| Router.PresentKinds | bin.js:96-104 | the kinds a message carries, in switch order, never include `None` |
| Router.ForwardPicksFirstPresent | bin.js:95-107 | a forwarded message is classified as the first kind it carries in the order sticker, document, text, photo, and as `None` when it carries none |
| Router.ForwardRespondsIffRecognised | bin.js:95-107 | a forwarded message gets an action exactly when it carries one of the four kinds |
| Router.ForwardStickerWins | bin.js:97-98 | a forwarded message with a sticker goes to the sticker handler whatever else it carries |
| Router.TextDirectVersusForwarded | bin.js:94-102 | the same non-empty text gets no response as a direct `text` event and gets the confused reply when forwarded |
| Router.DirectAgreesWithForward | bin.js:91-104 | direct and forwarded dispatch agree on stickers, on documents, and on photos that carry no text |
| Endpoint.TrimTrailingSlashes | bin.js:155 | the result is a prefix of the path that does not end in `/`, everything after it is `/`, and it is the path itself when it has no `/` |
| Endpoint.LastSegment | bin.js:155 | the result is a suffix of the path with no `/`, preceded in the path by a `/` unless it is the whole path |
| Endpoint.Basename | bin.js:155 | `path.basename` never contains `/` and leaves a bare name unchanged |
| Endpoint.BasenameIsLastPortion | bin.js:155 | the basename is the slice of the path that ends where only `/` follow and starts at the beginning or right after a `/` |
| Endpoint.CacheName | bin.js:155 | the cache key has no `/`, is empty when `file_path` is absent or empty, and is otherwise `path.basename(file_path)` |
| Endpoint.AttachmentHeaders | bin.js:158 | the forced-download headers include one literally named `type` with `application/octet-stream`, and none is named `content-type` |
| Endpoint.AttachmentHeaderLookup | bin.js:158 | the attachment headers carry `content-disposition: attachment; filename=` + the JSON-quoted name and `content-transfer-encoding: binary` |
| Endpoint.Respond | bin.js:157-160 | the response serves the fetched local file; it has a content-disposition header exactly when `dl` is truthy, and the type is `video/mp4` exactly when `dl` is not truthy |
| Endpoint.ResolveFailure | bin.js:147-152 | a resolver error becomes a 404 exactly when its `error_code` is 400, and is otherwise rethrown unchanged |
| Endpoint.Download | bin.js:143-161 | the handler serves a file exactly when `getFile` and `core.fetch.web` (keyed by the basename) both succeed, and then serves the fetched local path; a fetch failure happens only after a successful resolve and escapes unchanged |
| Endpoint.NotFoundExactly | bin.js:145-153 | the handler answers 404 if and only if `getFile` rejects the id with `error_code` 400 |
| Endpoint.OtherErrorsRethrown | bin.js:148-151 | any other `getFile` error escapes the handler as it came |
| Endpoint.AttachmentNamesReal | bin.js:157-158 | with a truthy `dl`, the disposition header is the attachment prefix followed by a JSON literal that denotes exactly `real`, the transfer encoding is binary, and no `video/mp4` type is set |
| Endpoint.DlZeroForcesDownload | bin.js:157 | `dl=0` forces the attachment, and an absent `dl` gives `video/mp4` |
| Pipeline.PostConvertTrace | bin.js:34-50 | the steps of `postConvert` for given outcomes of its foreign calls; characterised by `Pipeline.PostConvertShape` and by `Pipeline.Session.PostConvert`, which performs them |
| Pipeline.PostConvertOutcome | bin.js:34-50 | which send of `postConvert` failed, if any; `Pipeline.Session.PostConvert` returns it |
| Pipeline.StickerTrace | bin.js:55-87 | the steps of `handleSticker` for given outcomes of its foreign calls; characterised by the discipline, order, count and leak lemmas below and by `Pipeline.Session.HandleSticker`, which performs them |
| Pipeline.StickerOutcome | bin.js:55-87 | the outcome of `handleSticker`; `Pipeline.SuccessOrder`, `Pipeline.GunzipFailureStopsEarly`, `Pipeline.ReadFailureLeaks` and `Pipeline.SendFailureLeaks` state it per path |
| Pipeline.StickerTraceDisciplined | bin.js:55-87 | on every path each temporary file is acquired at most once and cleaned at most once, and only after its acquisition |
| Pipeline.PostConvertShape | bin.js:34-50 | `postConvert` always sends the video first; the link message built from the video acknowledgement follows exactly when that send succeeds; the two clean-ups come last exactly when the link message was sent too; nothing is sent or cleaned out of that order |
| Pipeline.SuccessTrace | bin.js:55-87 | when every foreign call succeeds, the steps are: fetch, clean the download, acquire the document and video files, write, render, send the video, send the link, clean both |
| Pipeline.SuccessOrder | bin.js:55-87 | on success the outcome is done; the download is cleaned before the render; the video is sent before the link message, which carries the text built from the video acknowledgement; both come before the clean-ups |
| Pipeline.SuccessCleansEachOnce | bin.js:58-69 | on success each of the three files is acquired exactly once and cleaned exactly once, and none is left on disk |
| Pipeline.SuccessSendsTwoMessages | bin.js:34-50 | on success exactly two messages are sent |
| Pipeline.DocumentForRenderer | bin.js:61-70 | the document written for the renderer is the buffer itself when it starts with `{`, and `gunzip(buffer)` otherwise |
| Pipeline.GunzipFailureStopsEarly | bin.js:61-69 | a `gunzip` failure ends the conversion with that error before any `core.tmp`; nothing is sent, and the download stays on disk |
| Pipeline.NotAnimatedReply | bin.js:58-85 | a non-animated sticker gets exactly one text reply; `lottie` and `generated` are never acquired; `location` is fetched and never cleaned |
| Pipeline.ReadFailureLeaks | bin.js:58-61 | a failed `fs.readFile` ends the conversion after the fetch alone: nothing is sent and the download stays on disk |
| Pipeline.RenderFailureLeaks | bin.js:68-80 | a failed render sends nothing and leaves the document and the video on disk |
| Pipeline.SendFailureLeaks | bin.js:35-49 | after a render, a rejected video send or link message ends the conversion with that failure, the clean-ups are never reached, and the document and the video stay on disk |
| Pipeline.RenderedOrder | bin.js:72-85 | after a render, step 6 is the video send; step 7 is the link message exactly when that send succeeded; steps 8 and 9 clean the document and the video exactly when the link message was sent too; no send or clean-up occurs elsewhere |
| Pipeline.UnrenderedSendsNoVideo | bin.js:58-80 | without a render neither a video nor a link message is sent, and the document and the video are never cleaned |
| Pipeline.SendsPrecedeCleanup | bin.js:34-50 | on every path each link message has a video send before it, each clean-up of the document or the video has a link message before it, every video send precedes every link message, and every link message precedes every clean-up of the document or the video |
| Pipeline.LinkText | bin.js:37-45 | the text built by reassigning `fName` step by step equals the link message of the video acknowledgement |
| Pipeline.Session.Allocate | bin.js:68-69 | acquiring a file appends its acquisition to the trace, adds it to the files on disk, and keeps the invariant |
| Pipeline.Session.Release | bin.js:65 | `cleanup()` on a file on disk appends its clean-up, removes it from disk, and keeps the invariant |
| Pipeline.Session.Perform | bin.js:70 | a step that creates or removes no file is appended and leaves the disk unchanged |
| Pipeline.Session.PostConvert | bin.js:34-50 | the trace grows by exactly the steps of `postConvert` for the given outcomes, and the outcome says which send failed, if any |
| Pipeline.Session.ShareLink | bin.js:37-49 | after the video acknowledgement, the link message is sent, and both files are cleaned only if that send succeeds |
| Pipeline.Session.Convert | bin.js:65-83 | from the fetched download, the trace becomes the render steps plus, after a successful render, the steps of `postConvert` |
| Pipeline.Session.HandleSticker | bin.js:55-87 | from an empty session, the trace and outcome are exactly those of `handleSticker` for the given outcomes of the foreign calls, and the invariant holds |

## Left out

- Telegram transport (`core.fetch.tg`, `reply.video`, `bot.sendMessage`,
  `msg.reply.text`, `msg.reply.file`, `bot.getFile`, event registration):
  these are networked foreign calls. They appear only as success flags and
  result records of a `World`, and the reply options (`asReply`,
  `webPreview`) are not modelled.
- `beConfused` (bin.js:52-54) is an action of the dispatcher. The file it
  sends is not modelled.
- `renderLottie` (bin.js:72-80) is a headless-browser call. It is a `Render`
  step with a success flag, and its style options are dropped.
- `zlib.gunzip` is an uninterpreted, possibly failing function. Its round
  trip with a compressor is a hypothesis of `Payload.DecodeRecoversDocument`,
  not a proved fact.
- `emoji.getName` is an uninterpreted lookup.
- `msg.track` (bin.js:82) is an analytics call, not modelled. Its rejection
  would end `handleSticker` between the render and `postConvert`, and the
  model has no step for that.
- `fs.writeFileSync` (bin.js:70) is taken to succeed. A synchronous throw
  there is not modelled.
- These are setup and I/O and are not modelled: the hapi server bootstrap,
  its plugins, Sentry, pino logging (`log.info`), the `/` redirect and the
  `HELLO` text.
- Temporary-file path uniqueness and the caching in `core.fetch.web`
  (bin.js:155) belong to `teleutils`, which is not part of this model.
  `fetchWeb` is a parameter.
- Concurrency: each `Session` is one conversion, so two conversions
  interleaving is not modelled.
- `request.query.dl` is an optional string. A repeated parameter, which hapi
  gives as an array and which is always truthy, is not modelled.
- How hapi/inert infers a content type for the attachment response is not
  modelled. The model records that no type is set.
- The video acknowledgement is assumed to carry `animation` with a
  `file_name`. A reply without them would throw while `postConvert`
  destructures it, and that path is not modelled.
- Clean-up on failure paths: the code has none, and the model proves the
  leaks instead (`Pipeline.ReadFailureLeaks`,
  `Pipeline.GunzipFailureStopsEarly`, `Pipeline.RenderFailureLeaks`,
  `Pipeline.SendFailureLeaks`).
- Uri.UnescapeEncodeURI: the round trip stops at the UTF-8 bytes. UTF-8
  decoding back to characters is not modelled.
- Uri.EncodeURI: the `URIError` `encodeURI` throws on a lone surrogate
  cannot arise, because Dafny characters are Unicode scalar values.
  `JsonString.Quote` likewise has no lone-surrogate case.
- Pipeline.Session.HandleSticker: it requires an empty session. A real
  process runs many conversions side by side, each with its own files.
