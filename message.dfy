/** The `Message` abstraction of lib/classes/Message.js: the fields the
    constructor extracts once from a raw chat-library message, the sudo
    check, the media tables and the group-only helpers. */
module Messages {

  import opened Wrappers
  import opened JsValue
  import opened JsString

  /** The key of a raw message; `participant` is "" when absent. */
  datatype Key = Key(remoteJid: string, fromMe: bool, id: string, participant: string)

  /** A raw message as the transport delivers it: its key and its content. */
  datatype RawMessage = RawMessage(key: Key, message: Json)

  /** The chat library's helpers the constructor calls: content extraction,
      the content-type probe and JID normalisation. */
  datatype Baileys = Baileys(
    extract: Json -> Json,
    contentType: Json -> Option<string>,
    normalize: string -> string)

  /** The message a reply quotes: its content, who sent it, and its id. */
  datatype Quoted = Quoted(message: Json, sender: Option<string>, id: Option<string>)

  datatype Message = Message(
    data: RawMessage,
    jid: string,
    fromMe: bool,
    id: string,
    sender: string,
    isGroup: bool,
    msgType: Option<string>,
    body: string,
    quoted: Option<Quoted>,
    hasMedia: bool,
    mentions: seq<string>)

  const MediaTypes: seq<string> :=
    ["imageMessage", "videoMessage", "audioMessage", "stickerMessage", "documentMessage"]

  /** `content[type]`: a property read with an undefined key reads the
      property named "undefined". */
  function TypeKey(t: Option<string>): string {
    t.GetOr("undefined")
  }

  /** The body candidates, in the constructor's priority order. */
  function BodyCandidates(msg: Json): seq<Json> {
    [ Get(msg, "text"),
      Get(msg, "caption"),
      Get(msg, "conversation"),
      Get(msg, "selectedButtonId"),
      Get(Get(msg, "singleSelectReply"), "selectedRowId"),
      if msg.Str? then msg else Str("") ]
  }

  /** The first candidate that is a non-empty string, else "". */
  function FirstText(cands: seq<Json>): string {
    if |cands| == 0 then ""
    else match TruthyStr(cands[0])
      case Some(s) => s
      case None => FirstText(cands[1..])
  }

  /** Strings of a `mentionedJid` array. */
  function Strings(items: seq<Json>): (r: seq<string>)
    ensures |r| <= |items|
  {
    if |items| == 0 then []
    else if items[0].Str? then [items[0].s] + Strings(items[1..])
    else Strings(items[1..])
  }

  /** `new Message(client, data)`; None where the constructor throws, that
      is when the extracted content is null or undefined. */
  function New(data: RawMessage, lib: Baileys): (r: Option<Message>)
    ensures r.Some? <==> lib.extract(data.message) != Undefined && lib.extract(data.message) != Null
    ensures r.Some? ==> r.value.jid == data.key.remoteJid && r.value.fromMe == data.key.fromMe
                        && r.value.id == data.key.id && r.value.data == data
  {
    var content := lib.extract(data.message);
    if content == Undefined || content == Null then None
    else
      var t := lib.contentType(content);
      var msg := Get(content, TypeKey(t));
      var ctx := Get(msg, "contextInfo");
      var qm := Get(ctx, "quotedMessage");
      var mentioned := Get(ctx, "mentionedJid");
      var jid := data.key.remoteJid;
      Some(Message(
        data := data,
        jid := jid,
        fromMe := data.key.fromMe,
        id := data.key.id,
        sender := lib.normalize(if data.key.participant != "" then data.key.participant else jid),
        isGroup := EndsWith(jid, "@g.us"),
        msgType := t,
        body := FirstText(BodyCandidates(msg)),
        quoted := if Truthy(qm)
                  then Some(Quoted(qm, OptStr(Get(ctx, "participant")), OptStr(Get(ctx, "stanzaId"))))
                  else None,
        hasMedia := t.Some? && t.value in MediaTypes,
        mentions := if Truthy(mentioned) && mentioned.Arr? then Strings(mentioned.items) else []))
  }

  /** The body is "" only when no candidate is a non-empty string, and
      otherwise it is the first candidate that is one. */
  lemma {:induction false} FirstTextIsFirst(cands: seq<Json>)
    ensures FirstText(cands) == "" <==> forall k :: 0 <= k < |cands| ==> TruthyStr(cands[k]).None?
    ensures FirstText(cands) != "" ==>
      exists j :: 0 <= j < |cands| && cands[j] == Str(FirstText(cands))
                  && forall k :: 0 <= k < j ==> TruthyStr(cands[k]).None?
  {
    if |cands| > 0 {
      FirstTextIsFirst(cands[1..]);
      if TruthyStr(cands[0]).None? {
        assert forall k :: 1 <= k < |cands| ==> cands[k] == cands[1..][k - 1];
        if FirstText(cands) != "" {
          var j :| 0 <= j < |cands[1..]| && cands[1..][j] == Str(FirstText(cands[1..]))
                   && forall k :: 0 <= k < j ==> TruthyStr(cands[1..][k]).None?;
          assert cands[j + 1] == Str(FirstText(cands));
          assert forall k :: 0 <= k < j + 1 ==> TruthyStr(cands[k]).None?;
        }
      } else {
        assert cands[0] == Str(FirstText(cands));
      }
    }
  }

  /** A non-empty `text` field wins over every other body source, and a
      message whose content is a plain string has that string as body
      when no field precedes it. */
  lemma BodyPriority(data: RawMessage, lib: Baileys)
    requires New(data, lib).Some?
    ensures var content := lib.extract(data.message);
            var msg := Get(content, TypeKey(lib.contentType(content)));
            && (TruthyStr(Get(msg, "text")).Some? ==> New(data, lib).value.body == Get(msg, "text").s)
            && (msg.Str? ==> New(data, lib).value.body == msg.s)
  {
    var content := lib.extract(data.message);
    var msg := Get(content, TypeKey(lib.contentType(content)));
    if msg.Str? {
      var c := BodyCandidates(msg);
      assert New(data, lib).value.body == FirstText(c);
      assert forall k :: 0 <= k < 5 ==> c[k] == Undefined;
      assert c[5] == msg;
      FirstTextIsFirst(c);
      if msg.s != "" {
        assert TruthyStr(c[5]).Some?;
        var j :| 0 <= j < |c| && c[j] == Str(FirstText(c)) && forall k :: 0 <= k < j ==> TruthyStr(c[k]).None?;
        assert j == 5;
      }
    }
  }

  /** `isSudo()`: the sender's number (the text before "@") is one of the
      comma-separated, trimmed SUDO entries.  Empty entries are kept. */
  function IsSudo(m: Message, sudo: string): bool {
    Before(m.sender, '@') in TrimAll(Split(sudo, ','))
  }

  /** A sender is sudo exactly when some entry of the comma-split SUDO
      setting, once trimmed, is the sender's number. */
  lemma IsSudoEntries(m: Message, sudo: string, entries: seq<string>)
    requires entries == Split(sudo, ',')
    ensures IsSudo(m, sudo) <==> exists i :: 0 <= i < |entries| && Trim(entries[i]) == Before(m.sender, '@')
  {
    TrimAllMembers(entries, Before(m.sender, '@'));
  }

  /** With no SUDO configured, only a sender whose number is empty counts. */
  lemma IsSudoEmptyConfig(m: Message)
    ensures IsSudo(m, "") <==> Before(m.sender, '@') == ""
  {
    assert Split("", ',') == [""];
    assert Trim("") == "";
  }

  /** The short names of the five media content types. */
  function MediaShortName(t: Option<string>): (r: Option<string>)
    ensures r.Some? <==> t.Some? && t.value in MediaTypes
  {
    match t
    case None => None
    case Some(s) =>
      if s == "imageMessage" then Some("image")
      else if s == "videoMessage" then Some("video")
      else if s == "audioMessage" then Some("audio")
      else if s == "documentMessage" then Some("document")
      else if s == "stickerMessage" then Some("sticker")
      else None
  }

  /** `getMediaType()`: null without content, else the short media name of
      the content type (null when it is not a media type). */
  function GetMediaType(m: Message, lib: Baileys): Option<string> {
    if !Truthy(m.data.message) then None
    else MediaShortName(lib.contentType(lib.extract(m.data.message)))
  }

  /** `hasMediaType(t)`. */
  function HasMediaType(m: Message, lib: Baileys, t: string): (r: bool)
    ensures r <==> GetMediaType(m, lib) == Some(t)
  {
    GetMediaType(m, lib) == Some(t)
  }

  /** For a constructed message with content, `getMediaType()` is non-null
      exactly when the constructor set `hasMedia`, and the short names are
      told apart: each names exactly one content type. */
  lemma GetMediaTypeAgreesWithHasMedia(data: RawMessage, lib: Baileys)
    requires New(data, lib).Some? && Truthy(data.message)
    ensures GetMediaType(New(data, lib).value, lib).Some? <==> New(data, lib).value.hasMedia
    ensures HasMediaType(New(data, lib).value, lib, "image") <==> New(data, lib).value.msgType == Some("imageMessage")
    ensures HasMediaType(New(data, lib).value, lib, "sticker") <==> New(data, lib).value.msgType == Some("stickerMessage")
    ensures !HasMediaType(New(data, lib).value, lib, "imageMessage")
  {
  }

  /** The eleven mimetypes `getMediaExtension()` knows. */
  const KnownMimeTypes: seq<string> :=
    ["image/jpeg", "image/png", "image/webp", "image/gif", "video/mp4", "video/3gpp",
     "audio/mpeg", "audio/ogg", "audio/mp4", "application/pdf", "application/zip"]

  /** The mimetype table of `getMediaExtension()`: an extension exactly
      for the listed types, and a different one for each. */
  function ExtensionOf(mime: string): (r: Option<string>)
    ensures r.Some? <==> mime in KnownMimeTypes
    ensures r.Some? ==> |r.value| >= 2 && '/' !in r.value
  {
    if mime == "image/jpeg" then Some("jpg")
    else if mime == "image/png" then Some("png")
    else if mime == "image/webp" then Some("webp")
    else if mime == "image/gif" then Some("gif")
    else if mime == "video/mp4" then Some("mp4")
    else if mime == "video/3gpp" then Some("3gp")
    else if mime == "audio/mpeg" then Some("mp3")
    else if mime == "audio/ogg" then Some("ogg")
    else if mime == "audio/mp4" then Some("m4a")
    else if mime == "application/pdf" then Some("pdf")
    else if mime == "application/zip" then Some("zip")
    else None
  }

  /** `getMediaExtension()`: the table entry of the media's mimetype; null
      without content, without a mimetype, or for an unlisted one. */
  function GetMediaExtension(m: Message, lib: Baileys): (r: Option<string>)
    ensures !Truthy(m.data.message) ==> r.None?
    ensures var mime := Get(Get(lib.extract(m.data.message), TypeKey(m.msgType)), "mimetype");
            && (Truthy(m.data.message) && TruthyStr(mime).Some? ==> r == ExtensionOf(mime.s))
            && (Truthy(m.data.message) && mime.Str? && mime.s in KnownMimeTypes ==> r.Some?)
            && (TruthyStr(mime).None? ==> r.None?)
  {
    if !Truthy(m.data.message) then None
    else
      var mime := Get(Get(lib.extract(m.data.message), TypeKey(m.msgType)), "mimetype");
      if Truthy(mime) && mime.Str? then ExtensionOf(mime.s) else None
  }

  /** A mimetype with parameters is not in the table: a voice note's
      "audio/ogg; codecs=opus" has no extension. */
  lemma VoiceNoteHasNoExtension()
    ensures ExtensionOf("audio/ogg; codecs=opus").None?
    ensures ExtensionOf("audio/ogg") == Some("ogg")
  {
  }

  /** A group participant; `admin` is the raw field (absent, null or a role). */
  datatype Participant = Participant(id: string, admin: Json)

  datatype GroupMetadata = GroupMetadata(participants: seq<Participant>)

  /** `participants.find((p) => p.id === id)`. */
  function FindParticipant(ps: seq<Participant>, id: string): (r: Option<Participant>)
    ensures r.Some? ==> r.value in ps && r.value.id == id
    ensures r.None? ==> forall p :: p in ps ==> p.id != id
  {
    if |ps| == 0 then None
    else if ps[0].id == id then Some(ps[0])
    else FindParticipant(ps[1..], id)
  }

  /** The entry `find` returns is the first one with the id. */
  lemma {:induction false} FindParticipantFirst(ps: seq<Participant>, id: string)
    requires FindParticipant(ps, id).Some?
    ensures exists i :: 0 <= i < |ps| && ps[i] == FindParticipant(ps, id).value
                        && forall k :: 0 <= k < i ==> ps[k].id != id
  {
    if ps[0].id != id {
      FindParticipantFirst(ps[1..], id);
      var i :| 0 <= i < |ps[1..]| && ps[1..][i] == FindParticipant(ps[1..], id).value
               && forall k :: 0 <= k < i ==> ps[1..][k].id != id;
      assert ps[i + 1] == FindParticipant(ps, id).value;
      assert forall k :: 0 <= k < i + 1 ==> ps[k].id != id by {
        forall k | 0 <= k < i + 1 ensures ps[k].id != id {
          if k > 0 { assert ps[k] == ps[1..][k - 1]; }
        }
      }
    } else {
      assert ps[0] == FindParticipant(ps, id).value;
    }
  }

  /** `getGroupMetadata()`, given what the socket's metadata query returned
      (None when it failed): null outside groups. */
  function GetGroupMetadata(m: Message, fetched: Option<GroupMetadata>): (r: Option<GroupMetadata>)
    ensures !m.isGroup ==> r.None?
    ensures m.isGroup ==> r == fetched
  {
    if !m.isGroup then None else fetched
  }

  /** The participant `id` is in the metadata and its `admin` field is
      anything but undefined. */
  predicate AdminIn(meta: Option<GroupMetadata>, id: string) {
    meta.Some? &&
    match FindParticipant(meta.value.participants, id)
    case None => false
    case Some(p) => p.admin != Undefined
  }

  /** `isBotAdmin()`: false outside groups and without metadata; otherwise
      the bot's normalised user id has an admin field. */
  function IsBotAdmin(m: Message, fetched: Option<GroupMetadata>, botUserId: string, lib: Baileys): (r: bool)
    ensures !m.isGroup ==> !r
    ensures fetched.None? ==> !r
    ensures r ==> exists p :: p in fetched.value.participants && p.id == lib.normalize(botUserId) && p.admin != Undefined
    ensures m.isGroup && fetched.Some? ==>
              var found := FindParticipant(fetched.value.participants, lib.normalize(botUserId));
              (r <==> found.Some? && found.value.admin != Undefined)
  {
    AdminIn(GetGroupMetadata(m, fetched), lib.normalize(botUserId))
  }

  /** `isSenderAdmin()`: false outside groups and without metadata;
      otherwise the sender has an admin field. */
  function IsSenderAdmin(m: Message, fetched: Option<GroupMetadata>): (r: bool)
    ensures !m.isGroup ==> !r
    ensures fetched.None? ==> !r
    ensures r ==> exists p :: p in fetched.value.participants && p.id == m.sender && p.admin != Undefined
    ensures m.isGroup && fetched.Some? ==>
              var found := FindParticipant(fetched.value.participants, m.sender);
              (r <==> found.Some? && found.value.admin != Undefined)
  {
    AdminIn(GetGroupMetadata(m, fetched), m.sender)
  }

  /** The participants update the group helpers ask the socket for. */
  datatype GroupUpdate = GroupUpdate(jid: string, jids: seq<Json>, action: string)

  /** A single participant is wrapped in a one-element list. */
  function AsList(participants: Json): (r: seq<Json>)
    ensures participants.Arr? ==> r == participants.items
    ensures !participants.Arr? ==> r == [participants]
  {
    if participants.Arr? then participants.items else [participants]
  }

  function ParticipantsUpdate(m: Message, participants: Json, action: string): (r: Option<GroupUpdate>)
    ensures r.None? <==> !m.isGroup
    ensures r.Some? ==> r.value == GroupUpdate(m.jid, AsList(participants), action)
  {
    if !m.isGroup then None else Some(GroupUpdate(m.jid, AsList(participants), action))
  }

  /** `kick(participants)`: a "remove" update of this group, null outside groups. */
  function Kick(m: Message, participants: Json): (r: Option<GroupUpdate>)
    ensures r.None? <==> !m.isGroup
    ensures r.Some? ==> r.value.action == "remove" && r.value.jid == m.jid && r.value.jids == AsList(participants)
  {
    ParticipantsUpdate(m, participants, "remove")
  }

  /** `add(participants)`: an "add" update of this group, null outside groups. */
  function Add(m: Message, participants: Json): (r: Option<GroupUpdate>)
    ensures r.None? <==> !m.isGroup
    ensures r.Some? ==> r.value.action == "add" && r.value.jid == m.jid && r.value.jids == AsList(participants)
  {
    ParticipantsUpdate(m, participants, "add")
  }

  /** `promote(participants)`: a "promote" update of this group, null outside groups. */
  function Promote(m: Message, participants: Json): (r: Option<GroupUpdate>)
    ensures r.None? <==> !m.isGroup
    ensures r.Some? ==> r.value.action == "promote" && r.value.jid == m.jid && r.value.jids == AsList(participants)
  {
    ParticipantsUpdate(m, participants, "promote")
  }

  /** `demote(participants)`: a "demote" update of this group, null outside groups. */
  function Demote(m: Message, participants: Json): (r: Option<GroupUpdate>)
    ensures r.None? <==> !m.isGroup
    ensures r.Some? ==> r.value.action == "demote" && r.value.jid == m.jid && r.value.jids == AsList(participants)
  {
    ParticipantsUpdate(m, participants, "demote")
  }

  /** The constructor's key-derived fields: the sender is the normalised
      participant, or the chat when there is no participant, and a chat is
      a group exactly when its id ends with "@g.us". */
  lemma ConstructorFields(data: RawMessage, lib: Baileys)
    requires New(data, lib).Some?
    ensures data.key.participant != "" ==> New(data, lib).value.sender == lib.normalize(data.key.participant)
    ensures data.key.participant == "" ==> New(data, lib).value.sender == lib.normalize(data.key.remoteJid)
    ensures New(data, lib).value.isGroup <==> EndsWith(data.key.remoteJid, "@g.us")
    ensures New(data, lib).value.hasMedia <==> exists t :: t in MediaTypes && New(data, lib).value.msgType == Some(t)
    ensures New(data, lib).value.quoted.Some? <==>
      Truthy(Get(Get(Get(lib.extract(data.message), TypeKey(New(data, lib).value.msgType)), "contextInfo"), "quotedMessage"))
  {
  }

  /** The command word the plugins read from the body: the first
      space-separated token with its first PREFIX occurrence removed. */
  function CommandWord(body: string, prefix: string): (r: string)
    ensures StartsWith(Before(body, ' '), prefix) ==> r == Before(body, ' ')[|prefix|..]
    ensures !Includes(Before(body, ' '), prefix) ==> r == Before(body, ' ')
  {
    var w := Split(body, ' ')[0];
    assert StartsWith(w, prefix) ==> OccursAt(w, prefix, 0) by {
      if StartsWith(w, prefix) { assert w[0..|prefix|] == w[..|prefix|]; }
    }
    ReplaceFirst(w, prefix, "")
  }
}
