/**
 * The shape of one inbound message as the `messages.upsert` handler of index.js reads
 * it, and the extraction of its text.
 */
module Inbound {
  import opened Wrappers

  /** The three content shapes that can carry text: a plain conversation message,
      the `text` of an extended text message, and the `caption` of an image message.
      A missing sub-message and a missing field are both `None`. */
  datatype Content = Content(
    conversation: Option<string>,
    extendedText: Option<string>,
    imageCaption: Option<string>)

  /** `msg.key`: the conversation the message came from and whether this bot sent it. */
  datatype Key = Key(remoteJid: string, fromMe: bool)

  /** One entry of `upsert.messages`; `content` is `msg.message`. */
  datatype Message = Message(key: Option<Key>, content: Option<Content>)

  /** `upsert`, whose `messages` array may be missing. */
  datatype Upsert = Upsert(messages: Option<seq<Message>>)

  /** The text of a message, `conversation || extendedTextMessage.text ||
      imageMessage.caption || ''`: the first non-empty of the three shapes in that
      order, or `''` when none is. */
  function ExtractText(c: Content): (text: string)
    ensures text == "" <==> !Truthy(c.conversation) && !Truthy(c.extendedText) && !Truthy(c.imageCaption)
    ensures text != "" ==> Some(text) in [c.conversation, c.extendedText, c.imageCaption]
    ensures Truthy(c.conversation) ==> text == c.conversation.value
    ensures !Truthy(c.conversation) && Truthy(c.extendedText) ==> text == c.extendedText.value
    ensures !Truthy(c.conversation) && !Truthy(c.extendedText) && Truthy(c.imageCaption)
      ==> text == c.imageCaption.value
  {
    if Truthy(c.conversation) then c.conversation.value
    else if Truthy(c.extendedText) then c.extendedText.value
    else if Truthy(c.imageCaption) then c.imageCaption.value
    else ""
  }
}
