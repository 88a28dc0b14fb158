/** plugins/viewonce.js: the `setvv` command, which validates the mode
    argument and rewrites the view-once settings row (creating it first
    when missing).  Reply texts are named by their translation keys. */
module SetViewOnce {

  import opened Wrappers
  import opened JsString
  import opened Messages
  import opened Persistence
  import opened Outbox
  import opened ViewOnceForwarding

  /** What the argument asks for. */
  datatype SetVvAction = ShowUsage | Disable | ToJid(jid: string) | ToMode(mode: string)

  /** How the updated mode is described in the reply. */
  datatype ModeText = ModePrivate | ModeGroup | ModeJid(jid: string)

  /** The reply `setvv` sends. */
  datatype SetVvReply = UsageReply | DisabledReply | UpdatedReply(mode: ModeText) | ErrorReply

  /** Mode validation and selection on the raw query. */
  function ParseSetVv(query: string): (r: SetVvAction)
    ensures query == "" ==> r == ShowUsage
    ensures r.ToJid? ==> '@' in r.jid && r.jid == ToLower(Trim(query))
    ensures r.ToMode? ==> r.mode in ["g", "p"] && r.mode == ToLower(Trim(query))
    ensures r == Disable <==> query != "" && ToLower(Trim(query)) in ["null", "false"]
  {
    if query == "" then ShowUsage
    else
      var mode := ToLower(Trim(query));
      if mode !in ["g", "p", "null", "false"] && '@' !in mode then ShowUsage
      else if mode == "null" || mode == "false" then Disable
      else if '@' in mode then ToJid(mode)
      else ToMode(mode)
  }

  /** A mode is accepted exactly when it is g, p, null, false or contains "@". */
  lemma AcceptedModes(query: string)
    ensures ParseSetVv(query) != ShowUsage <==>
              query != "" && (ToLower(Trim(query)) in ["g", "p", "null", "false"] || '@' in ToLower(Trim(query)))
  {
  }

  /** The settings row an accepted action writes. */
  function RowFor(a: SetVvAction): ViewOnceRow
    requires a != ShowUsage
  {
    match a
    case Disable => ViewOnceRow("null", None, false)
    case ToJid(j) => ViewOnceRow("jid", Some(j), true)
    case ToMode(md) => ViewOnceRow(md, None, true)
  }

  /** The reply for an accepted action. */
  function ReplyFor(a: SetVvAction): SetVvReply
    requires a != ShowUsage
  {
    match a
    case Disable => DisabledReply
    case ToJid(j) => UpdatedReply(ModeJid(j))
    case ToMode(md) => UpdatedReply(if md == "p" then ModePrivate else ModeGroup)
  }

  /** `execute(message, query)` on the store. */
  method SetVv(db: Store, query: string) returns (reply: SetVvReply)
    modifies db
    ensures ParseSetVv(query) == ShowUsage ==> reply == UsageReply && db.viewOnce == old(db.viewOnce)
    ensures ParseSetVv(query) != ShowUsage && !old(db.available) ==> reply == ErrorReply && db.viewOnce == old(db.viewOnce)
    ensures ParseSetVv(query) != ShowUsage && old(db.available) ==>
              reply == ReplyFor(ParseSetVv(query)) && db.viewOnce == Some(RowFor(ParseSetVv(query)))
    ensures db.available == old(db.available) && db.conversations == old(db.conversations)
    ensures db.stickerCommands == old(db.stickerCommands)
    ensures db.antiDelete == old(db.antiDelete) && db.autoResponder == old(db.autoResponder)
  {
    var action := ParseSetVv(query);
    if action == ShowUsage {
      return UsageReply;
    }
    if !db.available {
      return ErrorReply;
    }
    if db.viewOnce.None? {
      db.viewOnce := Some(ViewOnceDefaults);
    }
    db.viewOnce := Some(RowFor(action));
    reply := ReplyFor(action);
  }

  /** After `setvv null` (or `false`) no message is forwarded. */
  lemma DisableStopsForwarding(query: string, m: Message, botId: string, download: Download)
    requires ParseSetVv(query) == Disable
    ensures HandleViewOnce(m, Some(RowFor(Disable)), botId, download) == NotForwarded
  {
  }

  /** After `setvv g` a view-once image from someone else is forwarded to
      its own chat; after `setvv <jid>` to that JID; after `setvv p` to the
      bot's own id. */
  lemma SetThenForward(query: string, m: Message, botId: string)
    requires ParseSetVv(query).ToJid? || ParseSetVv(query).ToMode?
    requires IsViewOnce(m) && m.msgType == Some("imageMessage")
    ensures var a := ParseSetVv(query);
            var r := HandleViewOnce(m, Some(RowFor(a)), botId, Buffer);
            && r.handled
            && r.sends[0].to == (if a.ToJid? then a.jid else if a.mode == "g" then m.jid else botId)
  {
    var a := ParseSetVv(query);
    var row := RowFor(a);
    assert row.vvMode != "null" by {
      if a.ToMode? { assert a.mode in ["g", "p"]; }
    }
    ForwardsWhenAllHold(m, Some(row), botId);
  }
}
