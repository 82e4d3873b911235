/** The parts of Telegram's message and reply objects that the bot reads. */
module Telegram {
  import opened Common

  /** `msg.sticker`: the bot reads `is_animated`, `width`, `height` and the optional `emoji`. */
  datatype Sticker = Sticker(isAnimated: bool, width: int, height: int, emoji: Option<string>)

  /**
   * An inbound message. `document` and `photo` are objects (a photo is an
   * array, truthy even when empty), so only their presence matters; `text`
   * is a string, falsy when empty.
   */
  datatype Message = Message(sticker: Option<Sticker>, document: bool, text: Option<string>, photo: bool)

  /** What `reply.video` resolves to: `chat.id`, `message_id`, `animation.file_id`, `animation.file_name`. */
  datatype VideoAck = VideoAck(chatId: int, messageId: int, fileId: string, fileName: string)

  /** A rejection of a Bot API call; `error_code` is absent on errors that are not API answers. */
  datatype ApiError = ApiError(errorCode: Option<int>, description: string)
}
