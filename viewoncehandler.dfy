/** lib/utils/viewOnceHandler.js: forwarding of view-once media from
    others, by the stored view-once settings.  The settings are what the
    store returned (None also for a failed read, which the handler treats
    the same way), the bot's own user id is a parameter, and the download
    outcome is given. */
module ViewOnceForwarding {

  import opened Wrappers
  import opened JsValue
  import opened JsString
  import opened Messages
  import opened Persistence
  import opened Outbox

  /** Whether the handler reports the message as handled, and what it sent. */
  datatype ForwardResult = ForwardResult(handled: bool, sends: seq<Outgoing>)

  const NotForwarded := ForwardResult(false, [])

  /** `message.data.message[message.type]`: the payload of the raw content. */
  function Payload(m: Message): Json {
    Get(m.data.message, TypeKey(m.msgType))
  }

  /** The message is a view-once message from someone else. */
  predicate IsViewOnce(m: Message) {
    !m.fromMe && Truthy(m.data.message) && Truthy(Get(Payload(m), "viewOnce"))
  }

  /** Forwarding is switched on. */
  predicate Enabled(settings: Option<ViewOnceRow>) {
    settings.Some? && settings.value.enabled && settings.value.vvMode != "null"
  }

  /** The destination by mode: "p" the bot's own id, "g" the same chat,
      "jid" the stored JID; None for every other mode and for a "jid"
      mode with no JID stored (the send to null fails). */
  function ViewOnceDestination(row: ViewOnceRow, m: Message, botId: string): (r: Option<string>)
    ensures row.vvMode == "p" ==> r == Some(botId)
    ensures row.vvMode == "g" ==> r == Some(m.jid)
    ensures row.vvMode == "jid" ==> r == row.vvJid
    ensures row.vvMode != "p" && row.vvMode != "g" && row.vvMode != "jid" ==> r.None?
  {
    if row.vvMode == "p" then Some(botId)
    else if row.vvMode == "g" then Some(m.jid)
    else if row.vvMode == "jid" then row.vvJid
    else None
  }

  /** The caption: the original one when non-empty, else a default naming
      the sender's number. */
  function ForwardCaption(m: Message): (r: string)
    ensures TruthyStr(Get(Payload(m), "caption")).Some? ==> r == Get(Payload(m), "caption").s
    ensures TruthyStr(Get(Payload(m), "caption")).None? ==>
              r == "📸 *View-Once Message*\nFrom: @" + Before(m.sender, '@')
  {
    TruthyStr(Get(Payload(m), "caption")).GetOr("📸 *View-Once Message*\nFrom: @" + Before(m.sender, '@'))
  }

  /** `handleMessage(message)`. */
  function HandleViewOnce(m: Message, settings: Option<ViewOnceRow>, botId: string, download: Download): (r: ForwardResult)
    ensures r.handled <==> r.sends != []
    ensures r.handled ==>
              && IsViewOnce(m) && Enabled(settings) && download == Buffer
              && ViewOnceDestination(settings.value, m, botId).Some?
              && (m.msgType == Some("imageMessage") || m.msgType == Some("videoMessage"))
    ensures r.handled ==>
              var dest := ViewOnceDestination(settings.value, m, botId).value;
              r.sends == [if m.msgType == Some("imageMessage")
                          then Image(dest, ForwardCaption(m), [m.sender])
                          else Video(dest, ForwardCaption(m), [m.sender])]
  {
    if m.fromMe then NotForwarded
    else if !Truthy(m.data.message) then NotForwarded
    else if !Truthy(Get(Payload(m), "viewOnce")) then NotForwarded
    else if !Enabled(settings) then NotForwarded
    else match ViewOnceDestination(settings.value, m, botId)
      case None => NotForwarded
      case Some(dest) =>
        if download != Buffer then NotForwarded
        else if m.msgType == Some("imageMessage") then
          ForwardResult(true, [Image(dest, ForwardCaption(m), [m.sender])])
        else if m.msgType == Some("videoMessage") then
          ForwardResult(true, [Video(dest, ForwardCaption(m), [m.sender])])
        else NotForwarded
  }

  /** Every complete set of conditions forwards: a view-once image or
      video from someone else, enabled settings with a destination, and a
      downloaded buffer. */
  lemma ForwardsWhenAllHold(m: Message, settings: Option<ViewOnceRow>, botId: string)
    requires IsViewOnce(m) && Enabled(settings)
    requires ViewOnceDestination(settings.value, m, botId).Some?
    requires m.msgType == Some("imageMessage") || m.msgType == Some("videoMessage")
    ensures HandleViewOnce(m, settings, botId, Buffer).handled
    ensures HandleViewOnce(m, settings, botId, NoBuffer) == NotForwarded
    ensures HandleViewOnce(m, settings, botId, DownloadThrew) == NotForwarded
  {
  }
}
