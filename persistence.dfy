/** The persistence collaborator: one settings row per feature (id 1), the
    conversation records keyed by chat id and the sticker-binding table,
    all held in one store object.  `available` is false while the
    database is unreachable; every read or write then fails. */
module Persistence {

  import opened Wrappers

  /** lib/database/models/AntiDelete.js; defaults mode "null", no JID, disabled. */
  datatype AntiDeleteRow = AntiDeleteRow(antiDelMode: string, antiDelJid: Option<string>, enabled: bool)

  const AntiDeleteDefaults := AntiDeleteRow("null", None, false)

  /** lib/database/models/ViewOnce.js; defaults mode "null", no JID, disabled. */
  datatype ViewOnceRow = ViewOnceRow(vvMode: string, vvJid: Option<string>, enabled: bool)

  const ViewOnceDefaults := ViewOnceRow("null", None, false)

  /** lib/database/models/AutoResponder.js. */
  datatype AutoResponderRow = AutoResponderRow(ignoreNumbers: string, personality: string, enabled: bool)

  /** The model's defaults: nothing ignored, the stock personality, disabled. */
  const DefaultPersonality := "You are a helpful and friendly assistant. Respond naturally and conversationally."
  const AutoResponderDefaults := AutoResponderRow("", DefaultPersonality, false)

  /** One turn of a conversation: a role ("user", "assistant") and its text. */
  datatype Turn = Turn(role: string, content: string)

  const UserRole := "user"
  const AssistantRole := "assistant"

  /** lib/database/models/Conversation.js: the turns and the time (ms) of
      the last activity. */
  datatype ConversationRow = ConversationRow(context: seq<Turn>, lastMessageTime: int)

  /** lib/database/models/StickerCommand.js: a sticker hash bound to a
      command, who bound it and when (ms). */
  datatype StickerBinding = StickerBinding(stickerHash: string, command: string, createdBy: string, createdAt: int)

  /** The hashes of a binding table, in table order. */
  function Hashes(t: seq<StickerBinding>): (r: seq<string>)
    ensures |r| == |t|
    ensures forall i :: 0 <= i < |t| ==> r[i] == t[i].stickerHash
  {
    if |t| == 0 then [] else [t[0].stickerHash] + Hashes(t[1..])
  }

  /** The unique index on `stickerHash`: no two bindings share a hash. */
  predicate UniqueHashes(t: seq<StickerBinding>) {
    forall i, j :: 0 <= i < j < |t| ==> t[i].stickerHash != t[j].stickerHash
  }

  class Store {
    var available: bool
    var antiDelete: Option<AntiDeleteRow>
    var viewOnce: Option<ViewOnceRow>
    var autoResponder: Option<AutoResponderRow>
    var conversations: map<string, ConversationRow>
    var stickerCommands: seq<StickerBinding>

    /** The table constraints the database enforces. */
    predicate Valid()
      reads this
    {
      UniqueHashes(stickerCommands)
    }

    /** An empty, reachable database. */
    constructor ()
      ensures Valid() && available
      ensures antiDelete.None? && viewOnce.None? && autoResponder.None?
      ensures conversations == map[] && stickerCommands == []
    {
      available := true;
      antiDelete, viewOnce, autoResponder := None, None, None;
      conversations := map[];
      stickerCommands := [];
    }
  }
}
