/**
 * The sticker path (bin.js `handleSticker` and `postConvert`) as a sequence
 * of observable steps: temporary files acquired and cleaned, the document
 * written, the render, and the messages sent. A `Session` is one conversion;
 * its `trace` records the steps in order and `onDisk` the temporary files
 * that exist. The foreign calls are given by a `World` of their outcomes.
 */
module Pipeline {
  import opened Common
  import T = Telegram
  import Payload
  import Naming
  import Uri

  /** The temporary files of one conversion: the fetched sticker, the Lottie document, the rendered video. */
  datatype Resource = Location | Lottie | Generated

  datatype Step =
    | Acquire(resource: Resource)                       // `core.fetch.tg` (location) or `core.tmp` (lottie, generated)
    | Cleanup(resource: Resource)                       // `<resource>.cleanup()`
    | WriteDocument(doc: seq<byte>)                     // `fs.writeFileSync(lottie.path, buffer)`
    | Render(width: int, height: int)                   // `renderLottie` from lottie to generated
    | SendVideo(source: Resource, fileName: string)     // `reply.video(output.path, opt)`
    | SendText(chatId: int, text: string, replyTo: int) // `bot.sendMessage(cid, text, { replyToMessage })`
    | ReplyText(text: string)                           // `msg.reply.text(text, { asReply: true })`

  predicate IsResourceStep(x: Step)
  {
    x.Acquire? || x.Cleanup?
  }

  predicate IsMessage(x: Step)
  {
    x.SendVideo? || x.SendText? || x.ReplyText?
  }

  /** The outcomes of the foreign calls of one conversion. */
  datatype World = World(
    fetched: bool,                                    // `core.fetch.tg(sticker)` resolves
    file: Result<seq<byte>, string>,                  // `fs.readFile(location.path)`
    gunzip: seq<byte> -> Result<seq<byte>, string>,   // `zlib.gunzip`
    rendered: bool,                                   // `renderLottie(...)` resolves
    videoAck: Result<T.VideoAck, string>,             // `reply.video(...)`
    linkSent: bool,                                   // `bot.sendMessage(...)` resolves
    replied: bool,                                    // `msg.reply.text(...)` resolves
    getName: string -> Option<string>,                // `emoji.getName`
    mainURL: string)                                  // `process.argv[3]`

  /** Where a conversion stopped; every failure is a rejected promise that nothing catches. */
  datatype Stage = FetchFailed | ReadFailed | GunzipFailed(reason: string) | RenderFailed
                 | VideoSendFailed | LinkSendFailed | ReplyFailed

  datatype Outcome = Done | Failed(stage: Stage)

  const NotAnimatedText: string := "This sticker isn't animated. There's no point in converting it into a video."

  // ----- Traces -----

  /** Whether a step may follow the steps `prev`: a file is acquired once, and cleaned once after it was acquired. */
  predicate Allowed(prev: seq<Step>, x: Step)
  {
    match x
    case Acquire(r) => Acquire(r) !in prev
    case Cleanup(r) => Acquire(r) in prev && Cleanup(r) !in prev
    case _ => true
  }

  /** Every step of the trace is allowed after the ones before it. */
  predicate Disciplined(t: seq<Step>)
  {
    t == [] || (Disciplined(t[..|t| - 1]) && Allowed(t[..|t| - 1], t[|t| - 1]))
  }

  /** The temporary files a trace leaves on disk. */
  function Live(t: seq<Step>): set<Resource>
  {
    if t == [] then {}
    else
      var prev := Live(t[..|t| - 1]);
      match t[|t| - 1]
      case Acquire(r) => prev + {r}
      case Cleanup(r) => prev - {r}
      case _ => prev
  }

  function Count(t: seq<Step>, x: Step): nat
  {
    if t == [] then 0 else Count(t[..|t| - 1], x) + (if t[|t| - 1] == x then 1 else 0)
  }

  /** The number of messages sent to the chat. */
  function Messages(t: seq<Step>): nat
  {
    if t == [] then 0 else Messages(t[..|t| - 1]) + (if IsMessage(t[|t| - 1]) then 1 else 0)
  }

  lemma {:induction false} CountAbsent(t: seq<Step>, x: Step)
    requires x !in t
    ensures Count(t, x) == 0
  {
    if t != [] {
      CountAbsent(t[..|t| - 1], x);
    }
  }

  /** In a disciplined trace a resource step occurs exactly once if it occurs at all. */
  lemma {:induction false} CountDisciplined(t: seq<Step>, x: Step)
    requires Disciplined(t) && IsResourceStep(x)
    ensures Count(t, x) == if x in t then 1 else 0
  {
    if t != [] {
      var prev := t[..|t| - 1];
      assert t == prev + [t[|t| - 1]];
      CountDisciplined(prev, x);
      if t[|t| - 1] == x {
        CountAbsent(prev, x);
      }
    }
  }

  /** A file is on disk exactly when it was acquired and not yet cleaned. */
  lemma {:induction false} LiveDisciplined(t: seq<Step>, r: Resource)
    requires Disciplined(t)
    ensures r in Live(t) <==> Acquire(r) in t && Cleanup(r) !in t
    ensures Acquire(r) !in t ==> Cleanup(r) !in t
  {
    if t != [] {
      var prev := t[..|t| - 1];
      assert t == prev + [t[|t| - 1]];
      LiveDisciplined(prev, r);
    }
  }

  // ----- What the code does, step by step -----

  /** The steps of `postConvert(input, output, reply, { fileName })`. */
  function PostConvertTrace(input: Resource, output: Resource, fileName: string, w: World): seq<Step>
  {
    match w.videoAck
    case Err(_) => [SendVideo(output, fileName)]
    case Ok(ack) =>
      var link := SendText(ack.chatId, Naming.LinkMessage(w.mainURL, ack.fileId, ack.fileName), ack.messageId);
      if w.linkSent then [SendVideo(output, fileName), link, Cleanup(input), Cleanup(output)]
      else [SendVideo(output, fileName), link]
  }

  function PostConvertOutcome(w: World): Outcome
  {
    if w.videoAck.Err? then Failed(VideoSendFailed)
    else if !w.linkSent then Failed(LinkSendFailed)
    else Done
  }

  /** The steps of an animated sticker up to the render: the download is cleaned before the new files exist. */
  function RenderSteps(s: T.Sticker, doc: seq<byte>): seq<Step>
  {
    [Acquire(Location), Cleanup(Location), Acquire(Lottie), Acquire(Generated), WriteDocument(doc), Render(s.width, s.height)]
  }

  /** The steps of `handleSticker`. */
  function StickerTrace(s: T.Sticker, w: World): seq<Step>
  {
    if !w.fetched then []
    else if !s.isAnimated then [Acquire(Location), ReplyText(NotAnimatedText)]
    else match w.file
      case Err(_) => [Acquire(Location)]
      case Ok(buf) =>
        match Payload.Decode(buf, w.gunzip)
        case Err(_) => [Acquire(Location)]
        case Ok(doc) =>
          RenderSteps(s, doc)
          + (if w.rendered then PostConvertTrace(Lottie, Generated, Naming.OutgoingFileName(s.emoji, w.getName), w)
             else [])
  }

  function StickerOutcome(s: T.Sticker, w: World): Outcome
  {
    if !w.fetched then Failed(FetchFailed)
    else if !s.isAnimated then (if w.replied then Done else Failed(ReplyFailed))
    else match w.file
      case Err(_) => Failed(ReadFailed)
      case Ok(buf) =>
        match Payload.Decode(buf, w.gunzip)
        case Err(e) => Failed(GunzipFailed(e))
        case Ok(_) => if !w.rendered then Failed(RenderFailed) else PostConvertOutcome(w)
  }

  // ----- Properties of the sticker path -----

  lemma MessagesSnoc(t: seq<Step>, x: Step)
    ensures Messages(t + [x]) == Messages(t) + if IsMessage(x) then 1 else 0
  {
    assert (t + [x])[..|t|] == t;
  }

  lemma LiveSnoc(t: seq<Step>, x: Step)
    ensures Live(t + [x]) ==
      if x.Acquire? then Live(t) + {x.resource} else if x.Cleanup? then Live(t) - {x.resource} else Live(t)
  {
    assert (t + [x])[..|t|] == t;
  }

  /** A trace without messages counts none. */
  lemma {:induction false} MessagesNone(t: seq<Step>)
    requires forall i :: 0 <= i < |t| ==> !IsMessage(t[i])
    ensures Messages(t) == 0
  {
    if t != [] {
      MessagesNone(t[..|t| - 1]);
    }
  }

  lemma DisciplinedSnoc(t: seq<Step>, x: Step)
    requires Disciplined(t) && Allowed(t, x)
    ensures Disciplined(t + [x])
  {
    assert (t + [x])[..|t|] == t;
  }

  /** The steps up to the render follow the discipline, send nothing, and leave the document and the video on disk. */
  lemma RenderStepsFacts(s: T.Sticker, doc: seq<byte>)
    ensures var r := RenderSteps(s, doc);
      Disciplined(r) && Messages(r) == 0 && Live(r) == {Lottie, Generated}
  {
    var t1 := [] + [Acquire(Location)];
    var t2 := t1 + [Cleanup(Location)];
    var t3 := t2 + [Acquire(Lottie)];
    var t4 := t3 + [Acquire(Generated)];
    var t5 := t4 + [WriteDocument(doc)];
    DisciplinedSnoc([], Acquire(Location));
    DisciplinedSnoc(t1, Cleanup(Location));
    DisciplinedSnoc(t2, Acquire(Lottie));
    DisciplinedSnoc(t3, Acquire(Generated));
    DisciplinedSnoc(t4, WriteDocument(doc));
    DisciplinedSnoc(t5, Render(s.width, s.height));
    LiveSnoc([], Acquire(Location));
    LiveSnoc(t1, Cleanup(Location));
    LiveSnoc(t2, Acquire(Lottie));
    LiveSnoc(t3, Acquire(Generated));
    LiveSnoc(t4, WriteDocument(doc));
    LiveSnoc(t5, Render(s.width, s.height));
    assert t5 + [Render(s.width, s.height)] == RenderSteps(s, doc);
    MessagesNone(RenderSteps(s, doc));
  }

  /** The render steps followed by the video, the link message and the clean-up of the document and the video. */
  lemma PublishDisciplined(s: T.Sticker, doc: seq<byte>, video: Step, link: Step)
    requires !IsResourceStep(video) && !IsResourceStep(link)
    ensures Disciplined(RenderSteps(s, doc) + [video])
    ensures Disciplined(RenderSteps(s, doc) + [video, link])
    ensures Disciplined(RenderSteps(s, doc) + [video, link, Cleanup(Lottie), Cleanup(Generated)])
  {
    var r := RenderSteps(s, doc);
    RenderStepsFacts(s, doc);
    var t7 := r + [video];
    var t8 := t7 + [link];
    var t9 := t8 + [Cleanup(Lottie)];
    DisciplinedSnoc(r, video);
    DisciplinedSnoc(t7, link);
    DisciplinedSnoc(t8, Cleanup(Lottie));
    DisciplinedSnoc(t9, Cleanup(Generated));
    assert t8 == r + [video, link];
    assert t9 + [Cleanup(Generated)] == r + [video, link, Cleanup(Lottie), Cleanup(Generated)];
  }

  /**
   * Counting along a published conversion: one message after the video, two
   * after the link, still two after the clean-up, which leaves nothing on
   * disk and has acquired and cleaned each file exactly once.
   */
  lemma PublishCounts(s: T.Sticker, doc: seq<byte>, video: Step, link: Step)
    requires video.SendVideo? && link.SendText?
    ensures var r := RenderSteps(s, doc);
      && Messages(r + [video]) == 1 && Live(r + [video]) == {Lottie, Generated}
      && Messages(r + [video, link]) == 2 && Live(r + [video, link]) == {Lottie, Generated}
      && var full := r + [video, link, Cleanup(Lottie), Cleanup(Generated)];
         && Messages(full) == 2 && Live(full) == {}
         && forall x :: Count(full, Acquire(x)) == 1 && Count(full, Cleanup(x)) == 1
  {
    var r := RenderSteps(s, doc);
    RenderStepsFacts(s, doc);
    var t7 := r + [video];
    var t8 := t7 + [link];
    var t9 := t8 + [Cleanup(Lottie)];
    var full := t9 + [Cleanup(Generated)];
    MessagesSnoc(r, video);
    MessagesSnoc(t7, link);
    MessagesSnoc(t8, Cleanup(Lottie));
    MessagesSnoc(t9, Cleanup(Generated));
    LiveSnoc(r, video);
    LiveSnoc(t7, link);
    LiveSnoc(t8, Cleanup(Lottie));
    LiveSnoc(t9, Cleanup(Generated));
    assert t8 == r + [video, link];
    assert full == r + [video, link, Cleanup(Lottie), Cleanup(Generated)];
    PublishDisciplined(s, doc, video, link);
    forall x ensures Count(full, Acquire(x)) == 1 && Count(full, Cleanup(x)) == 1 {
      CountDisciplined(full, Acquire(x));
      CountDisciplined(full, Cleanup(x));
      assert Acquire(x) in full && Cleanup(x) in full by {
        match x
        case Location => assert full[0] == Acquire(x) && full[1] == Cleanup(x);
        case Lottie => assert full[2] == Acquire(x) && full[8] == Cleanup(x);
        case Generated => assert full[3] == Acquire(x) && full[9] == Cleanup(x);
      }
    }
  }

  /**
   * In the steps of `postConvert` the video is always sent first; the link
   * message follows exactly when the video send succeeded, and the two
   * clean-ups come last, exactly when the link message was sent too.
   */
  lemma PostConvertShape(input: Resource, output: Resource, fileName: string, w: World)
    ensures var p := PostConvertTrace(input, output, fileName, w);
      && |p| >= 1 && p[0] == SendVideo(output, fileName)
      && (w.videoAck.Err? ==> |p| == 1)
      && (w.videoAck.Ok? ==> var ack := w.videoAck.value;
            && |p| >= 2
            && p[1] == SendText(ack.chatId, Naming.LinkMessage(w.mainURL, ack.fileId, ack.fileName), ack.messageId))
      && (w.videoAck.Ok? && !w.linkSent ==> |p| == 2)
      && (w.videoAck.Ok? && w.linkSent ==> |p| == 4 && p[2] == Cleanup(input) && p[3] == Cleanup(output))
      && forall i :: 0 <= i < |p| ==>
        && (p[i].SendVideo? <==> i == 0) && (p[i].SendText? <==> i == 1) && (p[i].Cleanup? ==> i >= 2)
  {
  }

  /** The render steps followed by steps shaped as those of `postConvert`: the video is step 6, the link message step 7, clean-ups of the new files after both. */
  lemma PublishOrder(s: T.Sticker, doc: seq<byte>, p: seq<Step>)
    requires forall i :: 0 <= i < |p| ==>
      && (p[i].SendVideo? <==> i == 0) && (p[i].SendText? <==> i == 1) && (p[i].Cleanup? ==> i >= 2)
    ensures var t := RenderSteps(s, doc) + p;
      && |t| == 6 + |p| && (forall i :: 0 <= i < |p| ==> t[6 + i] == p[i])
      && forall i :: 0 <= i < |t| ==>
        && (t[i].SendVideo? <==> i == 6) && (t[i].SendText? <==> i == 7)
        && (t[i].Cleanup? && t[i].resource != Location ==> i >= 8)
  {
    var r := RenderSteps(s, doc);
    assert forall i :: 0 <= i < |r| ==> !r[i].SendVideo? && !r[i].SendText? && (r[i].Cleanup? ==> r[i].resource == Location);
  }

  /** On every path each temporary file is acquired at most once and cleaned at most once, after its acquisition. */
  lemma StickerTraceDisciplined(s: T.Sticker, w: World)
    ensures Disciplined(StickerTrace(s, w))
  {
    DisciplinedSnoc([], Acquire(Location));
    assert [] + [Acquire(Location)] == [Acquire(Location)];
    if w.fetched && !s.isAnimated {
      DisciplinedSnoc([Acquire(Location)], ReplyText(NotAnimatedText));
      assert [Acquire(Location)] + [ReplyText(NotAnimatedText)] == [Acquire(Location), ReplyText(NotAnimatedText)];
    } else if w.fetched && w.file.Ok? && Payload.Decode(w.file.value, w.gunzip).Ok? {
      var doc := Payload.Decode(w.file.value, w.gunzip).value;
      var video := VideoStep(s, w);
      var link := if w.videoAck.Ok? then LinkStep(w) else video;
      PublishDisciplined(s, doc, video, link);
      RenderStepsFacts(s, doc);
      assert RenderSteps(s, doc) + [] == RenderSteps(s, doc);
    }
  }

  /** Every foreign call on the animated path succeeds. */
  predicate Succeeds(s: T.Sticker, w: World)
  {
    && s.isAnimated && w.fetched && w.file.Ok? && Payload.Decode(w.file.value, w.gunzip).Ok?
    && w.rendered && w.videoAck.Ok? && w.linkSent
  }

  /** The video send step and the link message step of a conversion. */
  function VideoStep(s: T.Sticker, w: World): Step
  {
    SendVideo(Generated, Naming.OutgoingFileName(s.emoji, w.getName))
  }

  function LinkStep(w: World): Step
    requires w.videoAck.Ok?
  {
    var ack := w.videoAck.value;
    SendText(ack.chatId, Naming.LinkMessage(w.mainURL, ack.fileId, ack.fileName), ack.messageId)
  }

  /** The steps of a successful conversion. */
  lemma SuccessTrace(s: T.Sticker, w: World)
    requires Succeeds(s, w)
    ensures StickerTrace(s, w)
      == RenderSteps(s, Payload.Decode(w.file.value, w.gunzip).value)
         + [VideoStep(s, w), LinkStep(w), Cleanup(Lottie), Cleanup(Generated)]
  {
  }

  /**
   * The successful animated path: the download is cleaned before the render,
   * the video is sent before the link message, which carries the file id of
   * the video send, and both are sent before the document and the video are
   * cleaned.
   */
  lemma SuccessOrder(s: T.Sticker, w: World)
    requires Succeeds(s, w)
    ensures StickerOutcome(s, w) == Done
    ensures var t := StickerTrace(s, w); var ack := w.videoAck.value;
      && |t| == 10
      && t[1] == Cleanup(Location) && t[5] == Render(s.width, s.height)
      && t[6] == SendVideo(Generated, Naming.OutgoingFileName(s.emoji, w.getName))
      && t[7] == SendText(ack.chatId, Naming.LinkMessage(w.mainURL, ack.fileId, ack.fileName), ack.messageId)
      && t[8] == Cleanup(Lottie) && t[9] == Cleanup(Generated)
  {
    SuccessTrace(s, w);
  }

  /** On the successful path each of the three files is acquired exactly once and cleaned exactly once, and none is left. */
  lemma SuccessCleansEachOnce(s: T.Sticker, w: World)
    requires Succeeds(s, w)
    ensures var t := StickerTrace(s, w);
      && (forall r :: Count(t, Acquire(r)) == 1 && Count(t, Cleanup(r)) == 1)
      && Live(t) == {}
  {
    SuccessTrace(s, w);
    PublishCounts(s, Payload.Decode(w.file.value, w.gunzip).value, VideoStep(s, w), LinkStep(w));
  }

  /** A successful conversion sends exactly two messages: the video and the link. */
  lemma SuccessSendsTwoMessages(s: T.Sticker, w: World)
    requires Succeeds(s, w)
    ensures Messages(StickerTrace(s, w)) == 2
  {
    SuccessTrace(s, w);
    PublishCounts(s, Payload.Decode(w.file.value, w.gunzip).value, VideoStep(s, w), LinkStep(w));
  }

  /**
   * The document written for the renderer is the downloaded buffer itself
   * when it starts with `{`, and what `gunzip` made of it otherwise.
   */
  lemma DocumentForRenderer(s: T.Sticker, w: World)
    requires s.isAnimated && w.fetched && w.file.Ok?
    requires Payload.Decode(w.file.value, w.gunzip).Ok?
    ensures var buf := w.file.value; var t := StickerTrace(s, w);
      && |t| >= 6 && t[5] == Render(s.width, s.height)
      && t[4] == WriteDocument(if |buf| > 0 && buf[0] == Payload.OpenBrace then buf else w.gunzip(buf).value)
  {
  }

  /** A `gunzip` failure stops the conversion before `core.tmp` is called: nothing is rendered or sent, and the download is not cleaned. */
  lemma GunzipFailureStopsEarly(s: T.Sticker, w: World)
    requires s.isAnimated && w.fetched && w.file.Ok?
    requires Payload.Decode(w.file.value, w.gunzip).Err?
    ensures Payload.Classify(w.file.value) == Payload.Compressed
    ensures StickerOutcome(s, w) == Failed(GunzipFailed(w.gunzip(w.file.value).error))
    ensures var t := StickerTrace(s, w);
      && Acquire(Lottie) !in t && Acquire(Generated) !in t
      && Messages(t) == 0 && Live(t) == {Location}
  {
    var t := StickerTrace(s, w);
    assert t == [] + [Acquire(Location)];
    MessagesSnoc([], Acquire(Location));
    LiveSnoc([], Acquire(Location));
  }

  /** A non-animated sticker gets exactly one text reply; the document and the video are never created, and the download stays on disk. */
  lemma NotAnimatedReply(s: T.Sticker, w: World)
    requires !s.isAnimated && w.fetched
    ensures var t := StickerTrace(s, w);
      && Messages(t) == 1 && ReplyText(NotAnimatedText) in t
      && Acquire(Location) in t && Cleanup(Location) !in t
      && Acquire(Lottie) !in t && Acquire(Generated) !in t
      && Live(t) == {Location}
  {
    assert StickerTrace(s, w) == [Acquire(Location), ReplyText(NotAnimatedText)];
    ReplyFacts(ReplyText(NotAnimatedText));
  }

  /** A download followed by one text reply. */
  lemma ReplyFacts(x: Step)
    requires x.ReplyText?
    ensures var t := [Acquire(Location), x];
      Messages(t) == 1 && Live(t) == {Location}
  {
    assert [Acquire(Location), x] == [] + [Acquire(Location)] + [x];
    MessagesSnoc([], Acquire(Location));
    MessagesSnoc([Acquire(Location)], x);
    LiveSnoc([], Acquire(Location));
    LiveSnoc([Acquire(Location)], x);
  }

  /** Without a `finally`, a failed render leaves the document and the video on disk and sends nothing. */
  lemma RenderFailureLeaks(s: T.Sticker, w: World)
    requires s.isAnimated && w.fetched && w.file.Ok?
    requires Payload.Decode(w.file.value, w.gunzip).Ok? && !w.rendered
    ensures StickerOutcome(s, w) == Failed(RenderFailed)
    ensures var t := StickerTrace(s, w); Live(t) == {Lottie, Generated} && Messages(t) == 0
  {
    var doc := Payload.Decode(w.file.value, w.gunzip).value;
    assert StickerTrace(s, w) == RenderSteps(s, doc) + [];
    assert RenderSteps(s, doc) + [] == RenderSteps(s, doc);
    RenderStepsFacts(s, doc);
  }

  /** Without a `finally`, a failed `fs.readFile` ends the conversion with the download still on disk and nothing sent. */
  lemma ReadFailureLeaks(s: T.Sticker, w: World)
    requires s.isAnimated && w.fetched && w.file.Err?
    ensures StickerOutcome(s, w) == Failed(ReadFailed)
    ensures var t := StickerTrace(s, w);
      && t == [Acquire(Location)] && Live(t) == {Location} && Messages(t) == 0
  {
    assert StickerTrace(s, w) == [] + [Acquire(Location)];
    MessagesSnoc([], Acquire(Location));
    LiveSnoc([], Acquire(Location));
  }

  /**
   * Without a `finally`, a rejected video send or link message leaves the
   * document and the video on disk: the clean-ups are never reached.
   */
  lemma SendFailureLeaks(s: T.Sticker, w: World)
    requires Rendered(s, w) && (w.videoAck.Err? || !w.linkSent)
    ensures StickerOutcome(s, w) == Failed(if w.videoAck.Err? then VideoSendFailed else LinkSendFailed)
    ensures var t := StickerTrace(s, w);
      && Live(t) == {Lottie, Generated}
      && Cleanup(Lottie) !in t && Cleanup(Generated) !in t
  {
    var doc := Payload.Decode(w.file.value, w.gunzip).value;
    var video := VideoStep(s, w);
    var link := if w.videoAck.Ok? then LinkStep(w) else SendText(0, [], 0);
    PublishCounts(s, doc, video, link);
    var t := StickerTrace(s, w);
    if w.videoAck.Err? {
      assert t == RenderSteps(s, doc) + [video];
    } else {
      assert t == RenderSteps(s, doc) + [video, link];
    }
  }

  /** The animated sticker was decoded and rendered. */
  predicate Rendered(s: T.Sticker, w: World)
  {
    w.fetched && s.isAnimated && w.file.Ok? && Payload.Decode(w.file.value, w.gunzip).Ok? && w.rendered
  }

  /**
   * After a render the video is sent as step 6; the link message is step 7
   * exactly when the video send succeeded; the document and the video are
   * cleaned as steps 8 and 9 exactly when the link message was sent too, and
   * never earlier.
   */
  lemma RenderedOrder(s: T.Sticker, w: World)
    requires Rendered(s, w)
    ensures var t := StickerTrace(s, w);
      && |t| >= 7 && t[6] == VideoStep(s, w)
      && (w.videoAck.Err? ==> |t| == 7)
      && (w.videoAck.Ok? ==> |t| >= 8 && t[7] == LinkStep(w))
      && (w.videoAck.Ok? && !w.linkSent ==> |t| == 8)
      && (w.videoAck.Ok? && w.linkSent ==> |t| == 10 && t[8] == Cleanup(Lottie) && t[9] == Cleanup(Generated))
      && forall i :: 0 <= i < |t| ==>
        && (t[i].SendVideo? <==> i == 6) && (t[i].SendText? <==> i == 7)
        && (t[i].Cleanup? && t[i].resource != Location ==> i >= 8)
  {
    var doc := Payload.Decode(w.file.value, w.gunzip).value;
    var p := PostConvertTrace(Lottie, Generated, Naming.OutgoingFileName(s.emoji, w.getName), w);
    assert StickerTrace(s, w) == RenderSteps(s, doc) + p;
    PostConvertShape(Lottie, Generated, Naming.OutgoingFileName(s.emoji, w.getName), w);
    PublishOrder(s, doc, p);
  }

  /**
   * Without a render neither a video nor a link message is sent, and the
   * document and the video are never cleaned.
   */
  lemma UnrenderedSendsNoVideo(s: T.Sticker, w: World)
    requires !Rendered(s, w)
    ensures var t := StickerTrace(s, w);
      forall i :: 0 <= i < |t| ==> !t[i].SendVideo? && !t[i].SendText? && (t[i].Cleanup? ==> t[i].resource == Location)
  {
    var t := StickerTrace(s, w);
    if w.fetched && s.isAnimated && w.file.Ok? && Payload.Decode(w.file.value, w.gunzip).Ok? {
      RenderStepsFacts(s, Payload.Decode(w.file.value, w.gunzip).value);
      assert t == RenderSteps(s, Payload.Decode(w.file.value, w.gunzip).value) + [];
    }
  }

  /**
   * On every path a link message is sent only after a video, and the
   * document and the video are cleaned only after a link message, which
   * comes after every video send.
   */
  lemma SendsPrecedeCleanup(s: T.Sticker, w: World)
    ensures var t := StickerTrace(s, w);
      && (forall j :: 0 <= j < |t| && t[j].SendText? ==> exists i :: 0 <= i < j && t[i].SendVideo?)
      && (forall j :: 0 <= j < |t| && t[j].Cleanup? && t[j].resource != Location ==>
            exists i :: 0 <= i < j && t[i].SendText?)
      && (forall i, j :: 0 <= i < |t| && 0 <= j < |t| && t[i].SendVideo? && t[j].SendText? ==> i < j)
      && (forall i, j :: 0 <= i < |t| && 0 <= j < |t| && t[i].SendText? && t[j].Cleanup? && t[j].resource != Location
            ==> i < j)
  {
    if Rendered(s, w) {
      RenderedOrder(s, w);
      var t := StickerTrace(s, w);
      assert t[6].SendVideo?;
      if |t| > 7 {
        assert t[7].SendText?;
      }
    } else {
      UnrenderedSendsNoVideo(s, w);
    }
  }

  /**
   * The text of the link message, built as `postConvert` builds it: one
   * trailing `_` dropped from the reported file name, the name
   * percent-encoded, and the link to the delivery route put in the text.
   */
  method LinkText(mainURL: string, ack: T.VideoAck) returns (text: string)
    ensures text == Naming.LinkMessage(mainURL, ack.fileId, ack.fileName)
  {
    var fName := ack.fileName;
    if Naming.EndsWith(fName, "_") {
      fName := Naming.ReplaceFinalUnderscore(fName);
    }
    assert fName == Naming.StripTrailingUnderscore(ack.fileName);
    fName := Uri.EncodeURI(fName);
    var link := mainURL + "/" + ack.fileId + "/" + fName + Naming.LinkQuery;
    text := Naming.LinkIntro + link + Naming.DonationNote;
  }

  lemma SnocTwo(t: seq<Step>, a: Step, b: Step)
    ensures t + [a] + [b] == t + [a, b]
  {
  }

  /** One conversion: the steps taken so far and the temporary files on disk. */
  class Session {
    var trace: seq<Step>
    var onDisk: set<Resource>

    ghost predicate Valid()
      reads this
    {
      Disciplined(trace) && onDisk == Live(trace)
    }

    constructor ()
      ensures Valid() && trace == [] && onDisk == {}
    {
      trace := [];
      onDisk := {};
    }

    /** A fresh temporary file (`core.tmp`, or the one `core.fetch.tg` downloads into). */
    method Allocate(r: Resource)
      requires Valid() && Acquire(r) !in trace
      modifies this
      ensures Valid()
      ensures trace == old(trace) + [Acquire(r)] && onDisk == old(onDisk) + {r}
    {
      var t := trace + [Acquire(r)];
      assert t[..|t| - 1] == trace;
      trace := t;
      onDisk := onDisk + {r};
    }

    /** `r.cleanup()`. */
    method Release(r: Resource)
      requires Valid() && r in onDisk
      modifies this
      ensures Valid()
      ensures trace == old(trace) + [Cleanup(r)] && onDisk == old(onDisk) - {r}
    {
      LiveDisciplined(trace, r);
      var t := trace + [Cleanup(r)];
      assert t[..|t| - 1] == trace;
      trace := t;
      onDisk := onDisk - {r};
    }

    /** A step that touches no temporary file's existence. */
    method Perform(x: Step)
      requires Valid() && !IsResourceStep(x)
      modifies this
      ensures Valid()
      ensures trace == old(trace) + [x] && onDisk == old(onDisk)
    {
      var t := trace + [x];
      assert t[..|t| - 1] == trace;
      trace := t;
    }

    /**
     * `postConvert`: send the video, then share the download link. A failed
     * send ends the call before the clean-up.
     */
    method PostConvert(input: Resource, output: Resource, fileName: string, w: World) returns (outcome: Outcome)
      requires Valid() && input in onDisk && output in onDisk && input != output
      modifies this
      ensures Valid()
      ensures trace == old(trace) + PostConvertTrace(input, output, fileName, w)
      ensures outcome == PostConvertOutcome(w)
    {
      ghost var before := trace;
      Perform(SendVideo(output, fileName));
      if w.videoAck.Err? {
        return Failed(VideoSendFailed);
      }
      ghost var sent := trace;
      outcome := ShareLink(input, output, w.videoAck.value, w);
      assert trace[..|sent|] == sent;
    }

    /**
     * The rest of `postConvert` once Telegram has acknowledged the video:
     * strip one trailing `_` from the file name it reports and
     * percent-encode it, send the link message, then clean both files.
     */
    method ShareLink(input: Resource, output: Resource, ack: T.VideoAck, w: World) returns (outcome: Outcome)
      requires Valid() && input in onDisk && output in onDisk && input != output
      modifies this
      ensures Valid()
      ensures var link := SendText(ack.chatId, Naming.LinkMessage(w.mainURL, ack.fileId, ack.fileName), ack.messageId);
        trace == old(trace) + if w.linkSent then [link, Cleanup(input), Cleanup(output)] else [link]
      ensures outcome == if w.linkSent then Done else Failed(LinkSendFailed)
    {
      var text := LinkText(w.mainURL, ack);
      Perform(SendText(ack.chatId, text, ack.messageId));
      if !w.linkSent {
        return Failed(LinkSendFailed);
      }
      ghost var sent := trace;
      Release(input);
      Release(output);
      SnocTwo(sent, Cleanup(input), Cleanup(output));
      outcome := Done;
    }

    /**
     * The part of `handleSticker` after the document is known: clean the
     * download, write the document to a fresh file, render it into another
     * and publish the video.
     */
    method Convert(s: T.Sticker, doc: seq<byte>, w: World) returns (outcome: Outcome)
      requires Valid() && trace == [Acquire(Location)]
      modifies this
      ensures Valid()
      ensures trace == RenderSteps(s, doc)
        + (if w.rendered then PostConvertTrace(Lottie, Generated, Naming.OutgoingFileName(s.emoji, w.getName), w) else [])
      ensures outcome == if w.rendered then PostConvertOutcome(w) else Failed(RenderFailed)
    {
      Release(Location);
      assert trace == [Acquire(Location), Cleanup(Location)];
      Allocate(Lottie);
      assert trace == [Acquire(Location), Cleanup(Location), Acquire(Lottie)];
      Allocate(Generated);
      assert trace == [Acquire(Location), Cleanup(Location), Acquire(Lottie), Acquire(Generated)];
      Perform(WriteDocument(doc));
      Perform(Render(s.width, s.height));
      assert trace == RenderSteps(s, doc);
      if !w.rendered {
        assert trace == RenderSteps(s, doc) + [];
        return Failed(RenderFailed);
      }
      var fileName := Naming.OutgoingFileName(s.emoji, w.getName);
      outcome := PostConvert(Lottie, Generated, fileName, w);
    }

    /**
     * `handleSticker`: fetch the sticker; for an animated one read it,
     * decompress it unless it starts with `{`, clean the download, write the
     * document, render it and publish the video; otherwise reply that it is
     * not animated.
     */
    method HandleSticker(s: T.Sticker, w: World) returns (outcome: Outcome)
      requires Valid() && trace == []
      modifies this
      ensures Valid()
      ensures trace == StickerTrace(s, w)
      ensures outcome == StickerOutcome(s, w)
    {
      if !w.fetched {
        return Failed(FetchFailed);
      }
      Allocate(Location);
      assert trace == [Acquire(Location)];
      if s.isAnimated {
        if w.file.Err? {
          return Failed(ReadFailed);
        }
        var buffer := w.file.value;
        if |buffer| == 0 || buffer[0] != Payload.OpenBrace {
          var unzipped := w.gunzip(buffer);
          if unzipped.Err? {
            return Failed(GunzipFailed(unzipped.error));
          }
          buffer := unzipped.value;
        }
        assert Payload.Decode(w.file.value, w.gunzip) == Ok(buffer);
        outcome := Convert(s, buffer, w);
      } else {
        Perform(ReplyText(NotAnimatedText));
        outcome := if w.replied then Done else Failed(ReplyFailed);
      }
    }
  }
}
