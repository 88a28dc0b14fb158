/** index.js: the handler of a batch of incoming messages.  Each message
    goes, in arrival order, through a fixed chain: broadcasts are skipped, a
    reply the quiz claims stops there, a non-command the auto-responder
    answers stops there, and otherwise the command runs when the condition
    `fromMe || !isSudo()` holds, exactly as the code writes it.  What the
    quiz's `handleReply` and the auto-responder's `handleMessage` decide is
    given as functions; `new Message` throwing ends the whole batch. */
module Dispatch {

  import opened JsString
  import opened Messages

  const StatusBroadcast := "status@broadcast"

  /** What became of one message. */
  datatype Handling = SkippedBroadcast | ConstructorThrew | QuizReply | AutoReplied | CommandRun | NotRun

  /** The quiz plugin is consulted for replies only, and claims this one. */
  predicate QuizTakes(m: Message, quizLoaded: bool, quizHandles: Message -> bool) {
    m.quoted.Some? && quizLoaded && quizHandles(m)
  }

  /** `isCommand`: the body starts with PREFIX. */
  predicate IsCommand(m: Message, prefix: string) {
    StartsWith(m.body, prefix)
  }

  /** The auto-responder is consulted for non-commands not sent by the bot,
      and answers this one. */
  predicate AutoTakes(m: Message, prefix: string, autoResponds: Message -> bool) {
    !IsCommand(m, prefix) && !m.fromMe && autoResponds(m)
  }

  /** One turn of the loop. */
  function Handle(raw: RawMessage, lib: Baileys, prefix: string, sudo: string, quizLoaded: bool,
                  quizHandles: Message -> bool, autoResponds: Message -> bool): Handling
  {
    if raw.key.remoteJid == StatusBroadcast then SkippedBroadcast
    else match New(raw, lib)
      case None => ConstructorThrew
      case Some(m) =>
        if QuizTakes(m, quizLoaded, quizHandles) then QuizReply
        else if AutoTakes(m, prefix, autoResponds) then AutoReplied
        else if m.fromMe || !IsSudo(m, sudo) then CommandRun
        else NotRun
  }

  /** Each outcome of one turn, with exactly the condition that leads to it. */
  lemma HandleOutcomes(raw: RawMessage, lib: Baileys, prefix: string, sudo: string, quizLoaded: bool,
                       quizHandles: Message -> bool, autoResponds: Message -> bool)
    ensures var r := Handle(raw, lib, prefix, sudo, quizLoaded, quizHandles, autoResponds);
            var ok := raw.key.remoteJid != StatusBroadcast && New(raw, lib).Some?;
            && (r == SkippedBroadcast <==> raw.key.remoteJid == StatusBroadcast)
            && (r == ConstructorThrew <==> raw.key.remoteJid != StatusBroadcast && New(raw, lib).None?)
            && (r == QuizReply <==> ok && QuizTakes(New(raw, lib).value, quizLoaded, quizHandles))
            && (r == AutoReplied <==>
                  ok && !QuizTakes(New(raw, lib).value, quizLoaded, quizHandles) && AutoTakes(New(raw, lib).value, prefix, autoResponds))
            && (r == CommandRun <==>
                  && ok && !QuizTakes(New(raw, lib).value, quizLoaded, quizHandles)
                  && !AutoTakes(New(raw, lib).value, prefix, autoResponds)
                  && (New(raw, lib).value.fromMe || !IsSudo(New(raw, lib).value, sudo)))
            && (r == NotRun <==>
                  && ok && !QuizTakes(New(raw, lib).value, quizLoaded, quizHandles)
                  && !AutoTakes(New(raw, lib).value, prefix, autoResponds)
                  && !New(raw, lib).value.fromMe && IsSudo(New(raw, lib).value, sudo))
  {
  }

  /** The handlings of a batch: one per message in order, up to and
      including the first message whose construction throws. */
  function Trace(raws: seq<RawMessage>, lib: Baileys, prefix: string, sudo: string, quizLoaded: bool,
                 quizHandles: Message -> bool, autoResponds: Message -> bool): seq<Handling>
    decreases |raws|
  {
    if |raws| == 0 then []
    else
      var h := Handle(raws[0], lib, prefix, sudo, quizLoaded, quizHandles, autoResponds);
      if h == ConstructorThrew then [h] else [h] + Trace(raws[1..], lib, prefix, sudo, quizLoaded, quizHandles, autoResponds)
  }

  /** The `for (const msg of messages)` loop, logging each handling. */
  method OnMessages(raws: seq<RawMessage>, lib: Baileys, prefix: string, sudo: string, quizLoaded: bool,
                    quizHandles: Message -> bool, autoResponds: Message -> bool) returns (log: seq<Handling>)
    ensures log == Trace(raws, lib, prefix, sudo, quizLoaded, quizHandles, autoResponds)
  {
    log := [];
    var i := 0;
    while i < |raws|
      invariant 0 <= i <= |raws|
      invariant log + Trace(raws[i..], lib, prefix, sudo, quizLoaded, quizHandles, autoResponds)
                == Trace(raws, lib, prefix, sudo, quizLoaded, quizHandles, autoResponds)
    {
      var h := Handle(raws[i], lib, prefix, sudo, quizLoaded, quizHandles, autoResponds);
      TraceStep(raws, i, lib, prefix, sudo, quizLoaded, quizHandles, autoResponds);
      LogAssoc(log, h, Trace(raws[i + 1..], lib, prefix, sudo, quizLoaded, quizHandles, autoResponds));
      log := log + [h];
      if h == ConstructorThrew {
        return;
      }
      i := i + 1;
    }
  }

  /** The trace from message `i` on: its handling, then the rest unless it threw. */
  lemma TraceStep(raws: seq<RawMessage>, i: nat, lib: Baileys, prefix: string, sudo: string, quizLoaded: bool,
                  quizHandles: Message -> bool, autoResponds: Message -> bool)
    requires i < |raws|
    ensures var h := Handle(raws[i], lib, prefix, sudo, quizLoaded, quizHandles, autoResponds);
            Trace(raws[i..], lib, prefix, sudo, quizLoaded, quizHandles, autoResponds)
            == if h == ConstructorThrew then [h] else [h] + Trace(raws[i + 1..], lib, prefix, sudo, quizLoaded, quizHandles, autoResponds)
  {
    assert raws[i..][0] == raws[i] && raws[i..][1..] == raws[i + 1..];
  }

  /** Logging one more handling in front of the rest of the trace. */
  lemma LogAssoc(log: seq<Handling>, h: Handling, rest: seq<Handling>)
    ensures log + ([h] + rest) == (log + [h]) + rest
  {
  }

  /** Messages are handled one at a time in arrival order: entry `i` of
      the trace is the handling of message `i`, and a throwing constructor
      is the last thing the batch does. */
  lemma {:induction false} TraceInOrder(raws: seq<RawMessage>, lib: Baileys, prefix: string, sudo: string, quizLoaded: bool,
                                        quizHandles: Message -> bool, autoResponds: Message -> bool)
    ensures var t := Trace(raws, lib, prefix, sudo, quizLoaded, quizHandles, autoResponds);
            && |t| <= |raws|
            && (forall i :: 0 <= i < |t| ==> t[i] == Handle(raws[i], lib, prefix, sudo, quizLoaded, quizHandles, autoResponds))
            && (forall i :: 0 <= i < |t| - 1 ==> t[i] != ConstructorThrew)
            && (|t| < |raws| ==> |t| > 0 && t[|t| - 1] == ConstructorThrew)
    decreases |raws|
  {
    if |raws| > 0 {
      var h := Handle(raws[0], lib, prefix, sudo, quizLoaded, quizHandles, autoResponds);
      if h != ConstructorThrew {
        var rest := Trace(raws[1..], lib, prefix, sudo, quizLoaded, quizHandles, autoResponds);
        TraceInOrder(raws[1..], lib, prefix, sudo, quizLoaded, quizHandles, autoResponds);
        ConsHandled(raws, h, rest, lib, prefix, sudo, quizLoaded, quizHandles, autoResponds);
      }
    }
  }

  /** The inductive step of `TraceInOrder`: a handling that did not throw in
      front of a trace of the remaining messages. */
  lemma ConsHandled(raws: seq<RawMessage>, h: Handling, rest: seq<Handling>, lib: Baileys, prefix: string, sudo: string,
                    quizLoaded: bool, quizHandles: Message -> bool, autoResponds: Message -> bool)
    requires |raws| > 0 && h == Handle(raws[0], lib, prefix, sudo, quizLoaded, quizHandles, autoResponds) && h != ConstructorThrew
    requires |rest| <= |raws| - 1
    requires forall i :: 0 <= i < |rest| ==> rest[i] == Handle(raws[1..][i], lib, prefix, sudo, quizLoaded, quizHandles, autoResponds)
    requires forall i :: 0 <= i < |rest| - 1 ==> rest[i] != ConstructorThrew
    requires |rest| < |raws| - 1 ==> |rest| > 0 && rest[|rest| - 1] == ConstructorThrew
    ensures var t := [h] + rest;
            && |t| <= |raws|
            && (forall i :: 0 <= i < |t| ==> t[i] == Handle(raws[i], lib, prefix, sudo, quizLoaded, quizHandles, autoResponds))
            && (forall i :: 0 <= i < |t| - 1 ==> t[i] != ConstructorThrew)
            && (|t| < |raws| ==> |t| > 0 && t[|t| - 1] == ConstructorThrew)
  {
    var t := [h] + rest;
    forall i | 0 < i < |t| ensures t[i] == rest[i - 1] && raws[i] == raws[1..][i - 1] {
    }
  }

  /** A batch without a throwing constructor is handled in full. */
  lemma {:induction false} WholeBatch(raws: seq<RawMessage>, lib: Baileys, prefix: string, sudo: string, quizLoaded: bool,
                                      quizHandles: Message -> bool, autoResponds: Message -> bool)
    requires forall i :: 0 <= i < |raws| ==> raws[i].key.remoteJid == StatusBroadcast || New(raws[i], lib).Some?
    ensures |Trace(raws, lib, prefix, sudo, quizLoaded, quizHandles, autoResponds)| == |raws|
    decreases |raws|
  {
    if |raws| > 0 {
      assert raws[0].key.remoteJid == StatusBroadcast || New(raws[0], lib).Some?;
      WholeBatch(raws[1..], lib, prefix, sudo, quizLoaded, quizHandles, autoResponds);
    }
  }

  /** As written, a message from a sudo user other than the bot itself
      never runs a command, while anyone else's may. */
  lemma SudoOthersNotRun(raw: RawMessage, lib: Baileys, prefix: string, sudo: string, quizLoaded: bool,
                         quizHandles: Message -> bool, autoResponds: Message -> bool)
    requires New(raw, lib).Some? && !New(raw, lib).value.fromMe && IsSudo(New(raw, lib).value, sudo)
    ensures Handle(raw, lib, prefix, sudo, quizLoaded, quizHandles, autoResponds) != CommandRun
  {
  }

  /** The bot's own commands always run unless the quiz claims the reply;
      the auto-responder never sees them. */
  lemma OwnCommandsRun(raw: RawMessage, lib: Baileys, prefix: string, sudo: string, quizLoaded: bool,
                       quizHandles: Message -> bool, autoResponds: Message -> bool)
    requires raw.key.remoteJid != StatusBroadcast && New(raw, lib).Some? && New(raw, lib).value.fromMe
    requires !QuizTakes(New(raw, lib).value, quizLoaded, quizHandles)
    ensures Handle(raw, lib, prefix, sudo, quizLoaded, quizHandles, autoResponds) == CommandRun
  {
  }
}
