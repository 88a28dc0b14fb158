/** lib/utils/autoResponderHandler.js: the gate deciding whether a private
    message gets an AI reply, the set of message ids being answered, the
    lazily created AI client, and the exchange with the conversation
    history.  The API key is a parameter (empty means unset), the AI call
    is the `generate` function (None when it throws), `now` is the clock. */
module AutoResponding {

  import opened Wrappers
  import opened JsString
  import opened Messages
  import opened Persistence
  import opened Conversations

  const StatusBroadcast := "status@broadcast"

  /** The settings row `shouldRespond` works with: the stored one, or the
      one it creates.  The configuration values it passes are undefined
      in config.js, so the model's defaults apply. */
  function SettingsRow(stored: Option<AutoResponderRow>): AutoResponderRow {
    stored.GetOr(AutoResponderDefaults)
  }

  /** The ignore list: the comma-split, trimmed, non-empty entries; an
      empty setting gives the empty list. */
  function IgnoreList(ignoreNumbers: string): (r: seq<string>)
    ensures ignoreNumbers == "" ==> r == []
    ensures forall x :: x in r <==> x in TrimAll(Split(ignoreNumbers, ',')) && x != ""
  {
    if ignoreNumbers != "" then CommaList(ignoreNumbers) else CommaListEmpty(); []
  }

  /** The guard chain of `shouldRespond`, in the source's order. */
  predicate Gate(settings: AutoResponderRow, m: Message, apiKey: string, processing: set<string>) {
    if !settings.enabled then false
    else if m.fromMe then false
    else if m.isGroup then false
    else if m.jid == StatusBroadcast then false
    else if apiKey == "" then false
    else if Before(m.sender, '@') in IgnoreList(settings.ignoreNumbers) then false
    else if m.id in processing then false
    else true
  }

  /** The gate is open exactly when every condition holds; the sender's
      number is ignored when it is a non-empty trimmed entry of the list. */
  lemma GateIff(settings: AutoResponderRow, m: Message, apiKey: string, processing: set<string>)
    ensures var n := Before(m.sender, '@');
      Gate(settings, m, apiKey, processing) <==>
      && settings.enabled && !m.fromMe && !m.isGroup && m.jid != StatusBroadcast && apiKey != ""
      && !(n != "" && n in TrimAll(Split(settings.ignoreNumbers, ',')))
      && m.id !in processing
  {
  }

  /** The in-flight set keeps a message from being answered twice: once
      its id is being processed, the gate stays closed for it. */
  lemma InFlightBlocks(settings: AutoResponderRow, m: Message, apiKey: string, processing: set<string>)
    requires m.id in processing
    ensures !Gate(settings, m, apiKey, processing)
  {
  }

  /** An open gate means the message is not in flight yet. */
  lemma InFlightOpen(settings: AutoResponderRow, m: Message, apiKey: string, processing: set<string>)
    requires Gate(settings, m, apiKey, processing)
    ensures m.id !in processing
  {
  }

  /** Under the defaults the responder is off. */
  lemma DefaultsDisabled(m: Message, apiKey: string, processing: set<string>)
    ensures !Gate(SettingsRow(None), m, apiKey, processing)
  {
  }

  const PromptSuffix := "\n\nImportant: Keep your responses concise and natural. Respond in the same language as the user's message."

  /** The personality in the prompt: the stored one when non-empty, else
      the configuration value, which is undefined and prints as such. */
  function Personality(stored: Option<AutoResponderRow>): string {
    if stored.Some? && stored.value.personality != "" then stored.value.personality else "undefined"
  }

  /** The contents sent to the model: the system prompt as a user turn,
      the history read before this message, then the message itself. */
  function Contents(personality: string, context: seq<Turn>, body: string): (r: seq<GeminiContent>)
    ensures |r| == |context| + 2
    ensures r[0] == GeminiContent(UserRole, [personality + PromptSuffix])
    ensures r[|r| - 1] == GeminiContent(UserRole, [body])
    ensures r[1..|r| - 1] == FormatForGemini(context)
  {
    [GeminiContent(UserRole, [personality + PromptSuffix])] + FormatForGemini(context) + [GeminiContent(UserRole, [body])]
  }

  /** The store's histories after `generateResponse` reached the model:
      the read (which may clear an idle history), the user turn, and the
      assistant turn when an answer came back. */
  function Exchanged(convs: map<string, ConversationRow>, jid: string, body: string, answer: Option<string>,
                     now: int, timeout: int, n: int): map<string, ConversationRow>
  {
    var c2 := AfterAdd(AfterGet(convs, jid, now, timeout), jid, Turn(UserRole, body), now, n);
    if answer.None? then c2 else AfterAdd(c2, jid, Turn(AssistantRole, answer.value), now, n)
  }

  /** The history after a successful exchange ends with the user turn and
      then the assistant turn, whenever at least two turns are kept. */
  lemma {:induction false} ExchangeEndsWithBothTurns(convs: map<string, ConversationRow>, jid: string, body: string,
                                                     answer: string, now: int, timeout: int, n: int)
    requires n >= 2
    ensures var c2 := AfterAdd(AfterGet(convs, jid, now, timeout), jid, Turn(UserRole, body), now, n);
            var h := AfterAdd(c2, jid, Turn(AssistantRole, answer), now, n)[jid].context;
            |h| >= 2 && h[|h| - 2..] == [Turn(UserRole, body), Turn(AssistantRole, answer)]
  {
    UserThenAssistant(AfterGet(convs, jid, now, timeout), jid, Turn(UserRole, body), Turn(AssistantRole, answer), now, n);
  }

  class AutoResponderHandler {
    /** whether the AI client has been created */
    var genAI: bool
    /** how many AI clients were created */
    var clientsCreated: nat
    /** ids of the messages being answered */
    var processing: set<string>

    /** At most one client is ever created. */
    predicate Valid()
      reads this
    {
      clientsCreated <= 1 && (genAI <==> clientsCreated == 1)
    }

    constructor ()
      ensures Valid() && !genAI && processing == {}
    {
      genAI, clientsCreated, processing := false, 0, {};
    }

    /** `initializeAI()`: creates the client on first use with a key set. */
    method InitializeAI(apiKey: string) returns (ai: bool)
      requires Valid()
      modifies this
      ensures Valid()
      ensures genAI == (old(genAI) || apiKey != "") && ai == genAI
      ensures old(genAI) ==> clientsCreated == old(clientsCreated)
      ensures processing == old(processing)
    {
      if !genAI && apiKey != "" {
        genAI := true;
        clientsCreated := clientsCreated + 1;
      }
      return genAI;
    }

    /** `shouldRespond(message)`: creates the default settings row when it
      is missing, then runs the gate; any store failure gives false. */
    method ShouldRespond(db: Store, m: Message, apiKey: string) returns (ok: bool)
      modifies db
      ensures ok == (old(db.available) && Gate(SettingsRow(old(db.autoResponder)), m, apiKey, processing))
      ensures db.autoResponder == if old(db.available) then Some(SettingsRow(old(db.autoResponder))) else old(db.autoResponder)
      ensures db.available == old(db.available) && db.conversations == old(db.conversations)
      ensures db.stickerCommands == old(db.stickerCommands)
      ensures db.antiDelete == old(db.antiDelete) && db.viewOnce == old(db.viewOnce)
    {
      if !db.available {
        return false;
      }
      if db.autoResponder.None? {
        db.autoResponder := Some(AutoResponderDefaults);
      }
      var settings := db.autoResponder.value;
      ok := Gate(settings, m, apiKey, processing);
    }

    /** `generateResponse(message)`: the id is in the in-flight set while
      the reply is produced and is removed afterwards whatever happens.
      None stands for the thrown error. */
    method GenerateResponse(db: Store, conv: ConversationManager, m: Message, apiKey: string, now: int,
                            generate: seq<GeminiContent> -> Option<string>)
        returns (r: Option<string>)
      requires Valid()
      modifies this, db
      ensures Valid()
      ensures processing == old(processing) - {m.id}
      ensures genAI == (old(genAI) || apiKey != "")
      ensures var contents := Contents(Personality(old(db.autoResponder)),
                                       ContextAt(old(db.conversations), m.jid, now, conv.contextTimeout), m.body);
              r == if genAI && old(db.available) then generate(contents) else None
      ensures db.conversations ==
                if !genAI || !old(db.available) then old(db.conversations)
                else Exchanged(old(db.conversations), m.jid, m.body, r, now, conv.contextTimeout, conv.maxContextLength)
      ensures db.available == old(db.available) && db.autoResponder == old(db.autoResponder)
      ensures db.stickerCommands == old(db.stickerCommands)
      ensures db.antiDelete == old(db.antiDelete) && db.viewOnce == old(db.viewOnce)
    {
      ghost var inFlight := processing;
      processing := processing + {m.id};
      var ai := InitializeAI(apiKey);
      if !ai || !db.available {
        processing := processing - {m.id};
        assert processing == inFlight - {m.id};
        return None;
      }
      var personality := Personality(db.autoResponder);
      var context := conv.GetContext(db, m.jid, now);
      var _ := conv.AddMessage(db, m.jid, UserRole, m.body, now);
      var contents := Contents(personality, context, m.body);
      r := generate(contents);
      if r.Some? {
        var _ := conv.AddMessage(db, m.jid, AssistantRole, r.value, now);
      }
      processing := processing - {m.id};
      assert processing == inFlight - {m.id};
    }

    /** `handleMessage(message)`: true exactly when the gate opened and the
      model answered; the answer is returned for sending and the exchange
      is stored. */
    method HandleMessage(db: Store, conv: ConversationManager, m: Message, apiKey: string, now: int,
                         generate: seq<GeminiContent> -> Option<string>)
        returns (ok: bool, reply: Option<string>)
      requires Valid()
      modifies this, db
      ensures Valid()
      ensures ok <==> reply.Some?
      ensures ok ==> old(db.available) && Gate(SettingsRow(old(db.autoResponder)), m, apiKey, old(processing))
      ensures !(old(db.available) && Gate(SettingsRow(old(db.autoResponder)), m, apiKey, old(processing))) ==>
                !ok && db.conversations == old(db.conversations)
      ensures old(db.available) && Gate(SettingsRow(old(db.autoResponder)), m, apiKey, old(processing)) ==>
                && reply == generate(Contents(Personality(Some(SettingsRow(old(db.autoResponder)))),
                                              ContextAt(old(db.conversations), m.jid, now, conv.contextTimeout), m.body))
                && db.conversations == Exchanged(old(db.conversations), m.jid, m.body, reply, now,
                                                 conv.contextTimeout, conv.maxContextLength)
      ensures processing == old(processing)
    {
      var should := ShouldRespond(db, m, apiKey);
      if !should {
        return false, None;
      }
      InFlightOpen(SettingsRow(old(db.autoResponder)), m, apiKey, processing);
      ok, reply := Answer(db, conv, m, apiKey, now, generate);
    }

    /** The answering half of `handleMessage`, for a message not in flight. */
    method Answer(db: Store, conv: ConversationManager, m: Message, apiKey: string, now: int,
                  generate: seq<GeminiContent> -> Option<string>)
        returns (ok: bool, reply: Option<string>)
      requires Valid() && m.id !in processing
      modifies this, db
      ensures Valid()
      ensures ok <==> reply.Some?
      ensures reply == if genAI && old(db.available)
                       then generate(Contents(Personality(old(db.autoResponder)),
                                              ContextAt(old(db.conversations), m.jid, now, conv.contextTimeout), m.body))
                       else None
      ensures genAI == (old(genAI) || apiKey != "")
      ensures db.conversations ==
                if !genAI || !old(db.available) then old(db.conversations)
                else Exchanged(old(db.conversations), m.jid, m.body, reply, now, conv.contextTimeout, conv.maxContextLength)
      ensures db.available == old(db.available) && db.autoResponder == old(db.autoResponder)
      ensures processing == old(processing)
    {
      reply := GenerateResponse(db, conv, m, apiKey, now, generate);
      ok := reply.Some?;
    }
  }
}
