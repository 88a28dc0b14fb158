/** What the bot hands to the transport's `sendMessage`: the destination
    chat and the payload.  Media buffers are not modelled; a media send
    carries the buffer that was downloaded for it. */
module Outbox {

  datatype Outgoing =
    | Text(to: string, text: string, mentions: seq<string>)
    | Image(to: string, caption: string, mentions: seq<string>)
    | Video(to: string, caption: string, mentions: seq<string>)
    | Audio(to: string, mimetype: string, ptt: bool)
    | Sticker(to: string)
    | Document(to: string, fileName: string, mimetype: string, caption: string, mentions: seq<string>)

  /** What a media download produced: a buffer, nothing (null), or an
      exception. */
  datatype Download = Buffer | NoBuffer | DownloadThrew
}
