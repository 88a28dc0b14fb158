/** lib/utils/conversationManager.js: the per-chat conversation history
    of the AI auto-responder, kept in the store, trimmed to the last N
    turns and forgotten after 30 minutes without activity.  `now` is the
    clock (ms); an unreachable store makes every operation fail. */
module Conversations {

  import opened Wrappers
  import opened Persistence

  /** The default history length. */
  const DefaultMaxContextLength: int := 10
  /** 30 minutes of inactivity expire a conversation (ms). */
  const ContextTimeout: int := 30 * 60 * 1000

  /** `context.slice(-n)` when the context is longer than `n`: the last
      `n` turns for positive `n`, everything for 0 (`slice(-0)` is
      `slice(0)`), and all but the first `-n` turns for negative `n`. */
  function KeepLast(ctx: seq<Turn>, n: int): (r: seq<Turn>)
    ensures n > 0 ==> |r| == if |ctx| > n then n else |ctx|
    ensures n >= 0 && |ctx| > n && n != 0 ==> r == ctx[|ctx| - n..]
    ensures n >= 0 && (|ctx| <= n || n == 0) ==> r == ctx
    ensures IsSuffix(r, ctx)
  {
    if |ctx| > n then
      if n > 0 then ctx[|ctx| - n..]
      else if n == 0 then assert ctx[0..] == ctx; ctx
      else if -n < |ctx| then ctx[-n..]
      else assert ctx[|ctx|..] == []; []
    else assert ctx[0..] == ctx; ctx
  }

  /** `r` is the tail of `s`. */
  predicate IsSuffix(r: seq<Turn>, s: seq<Turn>) {
    |r| <= |s| && r == s[|s| - |r|..]
  }

  /** The stored record of a chat, if any. */
  function RowOf(convs: map<string, ConversationRow>, jid: string): Option<ConversationRow> {
    if jid in convs then Some(convs[jid]) else None
  }

  /** Whether a record has expired at `now`. */
  predicate Expired(row: ConversationRow, now: int, timeout: int) {
    now - row.lastMessageTime > timeout
  }

  /** What `getContext(jid)` returns from a reachable store. */
  function ContextAt(convs: map<string, ConversationRow>, jid: string, now: int, timeout: int): seq<Turn> {
    match RowOf(convs, jid)
    case None => []
    case Some(row) => if Expired(row, now, timeout) then [] else row.context
  }

  /** `clearContext(jid)` on a reachable store: an existing record is
      emptied and stamped `now`; with no record nothing changes. */
  function Cleared(convs: map<string, ConversationRow>, jid: string, now: int): map<string, ConversationRow> {
    if jid in convs then convs[jid := ConversationRow([], now)] else convs
  }

  /** The record `addMessage(jid, role, content)` leaves: the old turns
      (none for a new chat) plus the new turn, trimmed, stamped `now`. */
  function Appended(convs: map<string, ConversationRow>, jid: string, t: Turn, now: int, n: int): ConversationRow {
    ConversationRow(KeepLast(History(convs, jid) + [t], n), now)
  }

  /** The histories `getContext(jid)` leaves: an expired record is cleared. */
  function AfterGet(convs: map<string, ConversationRow>, jid: string, now: int, timeout: int): map<string, ConversationRow> {
    if jid in convs && Expired(convs[jid], now, timeout) then Cleared(convs, jid, now) else convs
  }

  /** The histories `addMessage(jid, role, content)` leaves. */
  function AfterAdd(convs: map<string, ConversationRow>, jid: string, t: Turn, now: int, n: int): map<string, ConversationRow> {
    convs[jid := Appended(convs, jid, t, now, n)]
  }

  /** The stored turns of a chat; none for a chat without a record. */
  function History(convs: map<string, ConversationRow>, jid: string): seq<Turn> {
    if jid in convs then convs[jid].context else []
  }

  /** With a positive limit the history never exceeds it and always ends
      with the turn just added; the turns kept are the latest ones. */
  lemma {:induction false} AppendedKeepsLatest(convs: map<string, ConversationRow>, jid: string, t: Turn, now: int, n: int)
    requires n > 0
    ensures var r := Appended(convs, jid, t, now, n).context;
            && 1 <= |r| <= n
            && r[|r| - 1] == t
            && IsSuffix(r, History(convs, jid) + [t])
  {
    var all := History(convs, jid) + [t];
    var r := KeepLast(all, n);
    assert |r| >= 1;
    assert r[|r| - 1] == all[|all| - 1];
  }

  /** Trimming to a positive limit keeps the last turn. */
  lemma KeepLastKeepsNewest(ctx: seq<Turn>, n: int)
    requires n > 0 && |ctx| >= 1
    ensures var h := KeepLast(ctx, n); |h| >= 1 && h[|h| - 1] == ctx[|ctx| - 1]
  {
    var h := KeepLast(ctx, n);
    assert h == ctx[|ctx| - |h|..];
  }

  /** Appending to a history ending in `u` keeps `u` just before the new
      turn, whenever at least two turns are kept. */
  lemma {:induction false} KeepsLastTwo(h1: seq<Turn>, u: Turn, a: Turn, n: int)
    requires n >= 2 && |h1| >= 1 && h1[|h1| - 1] == u
    ensures var h := KeepLast(h1 + [a], n);
            |h| >= 2 && h[|h| - 2..] == [u, a]
  {
    var all := h1 + [a];
    var h := KeepLast(all, n);
    assert |h| >= 2;
    assert h == all[|all| - |h|..];
    assert h[|h| - 2] == all[|all| - 2];
  }

  /** Storing the user turn and then the answer into the same histories. */
  lemma UserThenAssistant(c1: map<string, ConversationRow>, jid: string, user: Turn, answer: Turn, now: int, n: int)
    requires n >= 2
    ensures var h := AfterAdd(AfterAdd(c1, jid, user, now, n), jid, answer, now, n)[jid].context;
            |h| >= 2 && h[|h| - 2..] == [user, answer]
  {
    var row := Appended(c1, jid, user, now, n);
    UserTurnLast(c1, jid, user, now, n);
    StoredHistory(c1, jid, row);
    KeepsLastTwo(row.context, user, answer, n);
  }

  /** The record the user turn leaves ends with that turn. */
  lemma UserTurnLast(c1: map<string, ConversationRow>, jid: string, user: Turn, now: int, n: int)
    requires n >= 2
    ensures var h1 := Appended(c1, jid, user, now, n).context; |h1| >= 1 && h1[|h1| - 1] == user
  {
    var all := History(c1, jid) + [user];
    KeepLastKeepsNewest(all, n);
    assert Appended(c1, jid, user, now, n).context == KeepLast(all, n);
    assert all[|all| - 1] == user;
  }

  /** A stored record is the history read back. */
  lemma StoredHistory(c1: map<string, ConversationRow>, jid: string, row: ConversationRow)
    ensures History(c1[jid := row], jid) == row.context
  {
  }

  /** A limit of 0 trims nothing: `slice(-0)` keeps the whole history. */
  lemma ZeroLimitKeepsAll(convs: map<string, ConversationRow>, jid: string, t: Turn, now: int)
    ensures Appended(convs, jid, t, now, 0).context == History(convs, jid) + [t]
  {
  }

  /** Adding keeps every stored history within a positive limit. */
  lemma AddPreservesBound(convs: map<string, ConversationRow>, jid: string, t: Turn, now: int, n: int)
    requires n > 0
    requires forall j :: j in convs ==> |convs[j].context| <= n
    ensures var c := convs[jid := Appended(convs, jid, t, now, n)];
            forall j :: j in c ==> |c[j].context| <= n
  {
    AppendedKeepsLatest(convs, jid, t, now, n);
  }

  /** A history is served only while fresh: reading, then reading again
      after the timeout with no activity in between, gives [] and the
      record is emptied. */
  lemma ExpiryForgets(convs: map<string, ConversationRow>, jid: string, now: int, timeout: int)
    requires jid in convs && now - convs[jid].lastMessageTime > timeout
    ensures ContextAt(convs, jid, now, timeout) == []
    ensures Cleared(convs, jid, now)[jid].context == []
  {
  }

  /** Lemma: right after `addMessage`, `getContext` within the timeout
      returns exactly what `addMessage` returned. */
  lemma AddThenGet(convs: map<string, ConversationRow>, jid: string, t: Turn, now: int, later: int, timeout: int, n: int)
    requires now <= later && later - now <= timeout
    ensures var c := convs[jid := Appended(convs, jid, t, now, n)];
            ContextAt(c, jid, later, timeout) == Appended(convs, jid, t, now, n).context
  {
    var row := Appended(convs, jid, t, now, n);
    var c := convs[jid := row];
    assert RowOf(c, jid) == Some(row);
    assert !Expired(row, later, timeout);
  }

  /** A Gemini content entry: a role and its text parts. */
  datatype GeminiContent = GeminiContent(role: string, parts: seq<string>)

  /** `formatForGemini(context)`: one entry per turn, in order; "user"
      stays "user", every other role becomes "model". */
  function FormatForGemini(ctx: seq<Turn>): (r: seq<GeminiContent>)
    ensures |r| == |ctx|
    ensures forall i :: 0 <= i < |ctx| ==>
              && (r[i].role == UserRole <==> ctx[i].role == UserRole)
              && (r[i].role == "model" <==> ctx[i].role != UserRole)
              && r[i].parts == [ctx[i].content]
  {
    if |ctx| == 0 then []
    else [GeminiContent(if ctx[0].role == UserRole then UserRole else "model", [ctx[0].content])]
         + FormatForGemini(ctx[1..])
  }

  class ConversationManager {
    const maxContextLength: int
    const contextTimeout: int

    /** `new ConversationManager(maxContextLength)`. */
    constructor (maxLength: int)
      ensures maxContextLength == maxLength && contextTimeout == ContextTimeout
    {
      maxContextLength := maxLength;
      contextTimeout := ContextTimeout;
    }

    /** `getContext(jid)`: the fresh history, [] for an unknown or expired
        chat (the expired record is cleared first), [] when the store fails. */
    method GetContext(db: Store, jid: string, now: int) returns (ctx: seq<Turn>)
      modifies db
      ensures ctx == (if old(db.available) then ContextAt(old(db.conversations), jid, now, contextTimeout) else [])
      ensures db.conversations ==
                if old(db.available) then AfterGet(old(db.conversations), jid, now, contextTimeout)
                else old(db.conversations)
      ensures db.available == old(db.available) && db.stickerCommands == old(db.stickerCommands)
      ensures db.antiDelete == old(db.antiDelete) && db.viewOnce == old(db.viewOnce)
      ensures db.autoResponder == old(db.autoResponder)
    {
      if !db.available {
        return [];
      }
      if jid !in db.conversations {
        return [];
      }
      var conversation := db.conversations[jid];
      if now - conversation.lastMessageTime > contextTimeout {
        var _ := ClearContext(db, jid, now);
        return [];
      }
      return conversation.context;
    }

    /** `addMessage(jid, role, content)`: appends the turn (creating the
        record when missing), trims, stamps `now` and returns the stored
        history; [] when the store fails. */
    method AddMessage(db: Store, jid: string, role: string, content: string, now: int) returns (ctx: seq<Turn>)
      modifies db
      ensures old(db.available) ==>
                && db.conversations == AfterAdd(old(db.conversations), jid, Turn(role, content), now, maxContextLength)
                && ctx == db.conversations[jid].context
      ensures !old(db.available) ==> ctx == [] && db.conversations == old(db.conversations)
      ensures db.available == old(db.available) && db.stickerCommands == old(db.stickerCommands)
      ensures db.antiDelete == old(db.antiDelete) && db.viewOnce == old(db.viewOnce)
      ensures db.autoResponder == old(db.autoResponder)
    {
      if !db.available {
        return [];
      }
      // a missing record is created empty first
      var context := History(db.conversations, jid);
      context := context + [Turn(role, content)];
      if |context| > maxContextLength {
        context := KeepLast(context, maxContextLength);
      }
      db.conversations := db.conversations[jid := ConversationRow(context, now)];
      return context;
    }

    /** `clearContext(jid)`: true when the store answered. */
    method ClearContext(db: Store, jid: string, now: int) returns (ok: bool)
      modifies db
      ensures ok == old(db.available)
      ensures db.conversations == if ok then Cleared(old(db.conversations), jid, now) else old(db.conversations)
      ensures db.available == old(db.available) && db.stickerCommands == old(db.stickerCommands)
      ensures db.antiDelete == old(db.antiDelete) && db.viewOnce == old(db.viewOnce)
      ensures db.autoResponder == old(db.autoResponder)
    {
      if !db.available {
        return false;
      }
      if jid in db.conversations {
        db.conversations := db.conversations[jid := ConversationRow([], now)];
      }
      return true;
    }
  }
}
