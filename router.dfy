/**
 * Event dispatch (bin.js, the `bot.on` bindings): direct `sticker`,
 * `document`, `photo` and `text` events, and the `forward` handler that
 * re-classifies a forwarded message with a priority `switch (true)`.
 */
module Router {
  import C = Common
  import T = Telegram

  /** The content kind the `forward` switch selects. */
  datatype Kind = Sticker | Document | Text | Photo | None

  /** What the bot does with a message. */
  datatype Action = HandleSticker | BeConfused | NoResponse

  /** The events the bot is bound to. */
  datatype Event = StickerEvent | DocumentEvent | PhotoEvent | TextEvent | ForwardEvent

  /** `switch (true)` over `Boolean(msg.sticker)`, `Boolean(msg.document)`, `Boolean(msg.text)`, `Boolean(msg.photo)`. */
  function ForwardKind(m: T.Message): Kind
  {
    if m.sticker.Some? then Sticker
    else if m.document then Document
    else if C.Truthy(m.text) then Text
    else if m.photo then Photo
    else None
  }

  /** The case bodies of the `forward` switch: every recognised kind but a sticker gets the confused reply. */
  function KindAction(k: Kind): (r: Action)
    ensures r == HandleSticker <==> k == Sticker
    ensures r == NoResponse <==> k == None
  {
    match k
    case Sticker => HandleSticker
    case Document => BeConfused
    case Text => BeConfused
    case Photo => BeConfused
    case None => NoResponse
  }

  /** The handler each event runs; `text` is bound to a handler that does nothing. */
  function Dispatch(e: Event, m: T.Message): (r: Action)
    ensures r == HandleSticker <==> e == StickerEvent || (e == ForwardEvent && m.sticker.Some?)
    ensures r == NoResponse <==> e == TextEvent || (e == ForwardEvent && PresentKinds(m) == [])
  {
    match e
    case StickerEvent => HandleSticker
    case DocumentEvent => BeConfused
    case PhotoEvent => BeConfused
    case TextEvent => NoResponse
    case ForwardEvent => KindAction(ForwardKind(m))
  }

  // ----- Reference: the kinds a message carries, in priority order -----

  function PresentKinds(m: T.Message): (ks: seq<Kind>)
    ensures None !in ks
  {
    (if m.sticker.Some? then [Sticker] else [])
    + (if m.document then [Document] else [])
    + (if C.Truthy(m.text) then [Text] else [])
    + (if m.photo then [Photo] else [])
  }

  /** Priority order sticker > document > text > photo: the forward switch picks the first kind the message carries. */
  lemma ForwardPicksFirstPresent(m: T.Message)
    ensures PresentKinds(m) == [] ==> ForwardKind(m) == None
    ensures PresentKinds(m) != [] ==> ForwardKind(m) == PresentKinds(m)[0]
  {
  }

  /** A forwarded message gets a response exactly when it carries one of the four kinds. */
  lemma ForwardRespondsIffRecognised(m: T.Message)
    ensures Dispatch(ForwardEvent, m) != NoResponse <==> PresentKinds(m) != []
  {
  }

  /** A forwarded message with a sticker goes to the sticker path whatever else it carries. */
  lemma ForwardStickerWins(m: T.Message)
    requires m.sticker.Some?
    ensures Dispatch(ForwardEvent, m) == HandleSticker
  {
  }

  /** The same text is ignored as a direct `text` event and answered as a forwarded message. */
  lemma TextDirectVersusForwarded(text: string)
    requires text != ""
    ensures var m := T.Message(C.None, false, C.Some(text), false);
      Dispatch(TextEvent, m) == NoResponse && Dispatch(ForwardEvent, m) == BeConfused
  {
  }

  /** Direct and forwarded dispatch agree on stickers, documents and photos. */
  lemma DirectAgreesWithForward(m: T.Message)
    ensures m.sticker.Some? ==> Dispatch(StickerEvent, m) == Dispatch(ForwardEvent, m)
    ensures m.sticker.None? && m.document ==> Dispatch(DocumentEvent, m) == Dispatch(ForwardEvent, m)
    ensures m.sticker.None? && !m.document && !C.Truthy(m.text) && m.photo ==>
      Dispatch(PhotoEvent, m) == Dispatch(ForwardEvent, m)
  {
  }
}
