/** plugins/quiz.js: the trivia quiz and the number-guessing game, one of
    each per chat, answered by replying to the game's message.  The random
    draws are parameters (`pick` is `Math.floor(Math.random() * n)`), the
    id of the message the bot sent is a parameter, and replies are named
    by what they say rather than by their translated text. */
module Quiz {

  import opened Wrappers
  import opened JsString
  import opened JsNumber
  import opened Messages

  datatype QuizQuestion = QuizQuestion(question: string, answer: string, hints: seq<string>, category: string)

  const QuizQuestions: seq<QuizQuestion> := [
    QuizQuestion("What is the capital of France?", "Paris",
                 ["It's a city", "Known for the Eiffel Tower", "Starts with P"], "Geography"),
    QuizQuestion("What is 15 × 8?", "120",
                 ["It's a number", "Between 100 and 150", "Divisible by 10"], "Math"),
    QuizQuestion("Who painted the Mona Lisa?", "Leonardo da Vinci",
                 ["Italian artist", "Renaissance period", "Also invented flying machines"], "Art"),
    QuizQuestion("What is the largest planet in our solar system?", "Jupiter",
                 ["Gas giant", "Named after Roman god", "Has the Great Red Spot"], "Science"),
    QuizQuestion("In which year did World War II end?", "1945",
                 ["20th century", "Between 1940 and 1950", "After atomic bombs"], "History")
  ]

  const QuizMaxAttempts := 3
  const GuessMaxAttempts := 10

  datatype QuizGame = QuizGame(
    question: string, answer: string, hints: seq<string>, category: string,
    attempts: int, maxAttempts: int, hintIndex: int, messageId: string)

  datatype GuessGame = GuessGame(number: int, attempts: int, maxAttempts: int, messageId: string)

  /** What the bot replies. */
  datatype QuizReply =
    | QuizStarted(category: string, question: string)
    | NoGame
    | QuizStopped(answer: string)
    | HintReply(n: int, hint: string)
    | NoHints
    | QuizUsage
    | Correct(answer: string, attempts: int)
    | Failed(answer: string)
    | Wrong(attemptsLeft: int)
    | GuessStarted
    | GuessStopped(number: int)
    | GuessUsage
    | InvalidNumber
    | GuessCorrect(number: int, attempts: int)
    | GuessFailed(number: int)
    | HigherLower(higher: bool, attemptsLeft: int)
    | NoReply

  /** A live quiz: fewer attempts used than allowed, a hint index within
      the hints, and a lower-case answer. */
  predicate QuizGameOk(g: QuizGame) {
    g.maxAttempts == QuizMaxAttempts && 0 <= g.attempts < g.maxAttempts
    && 0 <= g.hintIndex <= |g.hints| && ToLower(g.answer) == g.answer
  }

  /** A live guess game: the number in [1, 100], fewer attempts used than allowed. */
  predicate GuessGameOk(g: GuessGame) {
    1 <= g.number <= 100 && g.maxAttempts == GuessMaxAttempts && 0 <= g.attempts < g.maxAttempts
  }

  /** The quiz a "start" stores for question `pick` and the sent message `sentId`. */
  function NewQuiz(pick: nat, sentId: string): (g: QuizGame)
    requires pick < |QuizQuestions|
    ensures QuizGameOk(g) && g.attempts == 0 && g.hintIndex == 0 && g.messageId == sentId
    ensures g.answer == ToLower(QuizQuestions[pick].answer)
  {
    var q := QuizQuestions[pick];
    ToLowerIdempotent(q.answer);
    QuizGame(q.question, ToLower(q.answer), q.hints, q.category, 0, QuizMaxAttempts, 0, sentId)
  }

  /** One answer to a quiz: the attempt counts; a case-insensitive match
      ends the game, so does the last attempt; otherwise the game goes on. */
  function QuizAnswer(g: QuizGame, answer: string): (r: (Option<QuizGame>, QuizReply))
    requires QuizGameOk(g)
    ensures ToLower(answer) == g.answer ==> r == (None, Correct(g.answer, g.attempts + 1))
    ensures ToLower(answer) != g.answer && g.attempts + 1 >= g.maxAttempts ==> r == (None, Failed(g.answer))
    ensures ToLower(answer) != g.answer && g.attempts + 1 < g.maxAttempts ==>
              r == (Some(g.(attempts := g.attempts + 1)), Wrong(g.maxAttempts - (g.attempts + 1)))
    ensures r.0.Some? ==> QuizGameOk(r.0.value) && r.1.attemptsLeft > 0
  {
    var attempts := g.attempts + 1;
    if ToLower(answer) == g.answer then (None, Correct(g.answer, attempts))
    else if attempts >= g.maxAttempts then (None, Failed(g.answer))
    else (Some(g.(attempts := attempts)), Wrong(g.maxAttempts - attempts))
  }

  /** A hint request: the next hint, numbered from 1, until none are left. */
  function QuizHint(g: QuizGame): (r: (QuizGame, QuizReply))
    requires QuizGameOk(g)
    ensures g.hintIndex >= |g.hints| ==> r == (g, NoHints)
    ensures g.hintIndex < |g.hints| ==>
              r == (g.(hintIndex := g.hintIndex + 1), HintReply(g.hintIndex + 1, g.hints[g.hintIndex]))
    ensures QuizGameOk(r.0)
  {
    if g.hintIndex >= |g.hints| then (g, NoHints)
    else (g.(hintIndex := g.hintIndex + 1), HintReply(g.hintIndex + 1, g.hints[g.hintIndex]))
  }

  /** The game after a run of answers, None once it has ended. */
  function RunQuiz(g: QuizGame, answers: seq<string>): Option<QuizGame>
    requires QuizGameOk(g)
    decreases |answers|
  {
    if |answers| == 0 then Some(g)
    else match QuizAnswer(g, answers[0]).0
      case None => None
      case Some(g1) => RunQuiz(g1, answers[1..])
  }

  /** Every quiz ends after at most `maxAttempts - attempts` more answers. */
  lemma {:induction false} QuizEndsWithinAttempts(g: QuizGame, answers: seq<string>)
    requires QuizGameOk(g)
    requires |answers| >= g.maxAttempts - g.attempts
    ensures RunQuiz(g, answers).None?
    decreases |answers|
  {
    match QuizAnswer(g, answers[0]).0
    case None =>
    case Some(g1) => QuizEndsWithinAttempts(g1, answers[1..]);
  }

  /** The game after `k` hint requests. */
  function RunHints(g: QuizGame, k: nat): QuizGame
    requires QuizGameOk(g)
    decreases k
  {
    if k == 0 then g else RunHints(QuizHint(g).0, k - 1)
  }

  /** After `k` hint requests the hint index has moved by `k`, capped at
      the number of hints: each hint is given once, in order. */
  lemma {:induction false} HintsAdvance(g: QuizGame, k: nat)
    requires QuizGameOk(g)
    ensures QuizGameOk(RunHints(g, k))
    ensures RunHints(g, k).hintIndex == if g.hintIndex + k <= |g.hints| then g.hintIndex + k else |g.hints|
    ensures RunHints(g, k).attempts == g.attempts && RunHints(g, k).hints == g.hints
    decreases k
  {
    if k > 0 {
      HintsAdvance(QuizHint(g).0, k - 1);
    }
  }

  /** The game a guess "start" stores for the draw `pick` (0..99). */
  function NewGuess(pick: nat, sentId: string): (g: GuessGame)
    requires pick < 100
    ensures GuessGameOk(g) && g.number == pick + 1 && g.attempts == 0 && g.messageId == sentId
  {
    GuessGame(pick + 1, 0, GuessMaxAttempts, sentId)
  }

  /** A guess is valid when it parses to a number within [1, 100]. */
  function ValidGuess(answer: string): (r: Option<int>)
    ensures r.Some? ==> 1 <= r.value <= 100 && ParseInt(answer) == r
    ensures r.None? <==> ParseInt(answer).None? || ParseInt(answer).value < 1 || ParseInt(answer).value > 100
  {
    var guess := ParseInt(answer);
    if guess.None? || guess.value < 1 || guess.value > 100 then None else guess
  }

  /** One guess: an invalid one changes nothing; a valid one counts as an
      attempt, wins on equality, loses on the tenth attempt, and otherwise
      says whether the number is higher or lower. */
  function GuessAnswer(g: GuessGame, answer: string): (r: (Option<GuessGame>, QuizReply))
    requires GuessGameOk(g)
    ensures ValidGuess(answer).None? ==> r == (Some(g), InvalidNumber)
    ensures ValidGuess(answer) == Some(g.number) ==> r == (None, GuessCorrect(g.number, g.attempts + 1))
    ensures ValidGuess(answer).Some? && ValidGuess(answer).value != g.number && g.attempts + 1 >= g.maxAttempts
            ==> r == (None, GuessFailed(g.number))
    ensures r.1.HigherLower? ==>
              && ValidGuess(answer).Some? && ValidGuess(answer).value != g.number
              && (r.1.higher <==> ValidGuess(answer).value < g.number)
              && r.0 == Some(g.(attempts := g.attempts + 1))
              && r.1.attemptsLeft == g.maxAttempts - (g.attempts + 1) > 0
    ensures r.0.Some? ==> GuessGameOk(r.0.value)
  {
    match ValidGuess(answer)
    case None => (Some(g), InvalidNumber)
    case Some(guess) =>
      var attempts := g.attempts + 1;
      if guess == g.number then (None, GuessCorrect(g.number, attempts))
      else if attempts >= g.maxAttempts then (None, GuessFailed(g.number))
      else (Some(g.(attempts := attempts)), HigherLower(guess < g.number, g.maxAttempts - attempts))
  }

  /** The game after a run of guesses, None once it has ended. */
  function RunGuesses(g: GuessGame, answers: seq<string>): Option<GuessGame>
    requires GuessGameOk(g)
    decreases |answers|
  {
    if |answers| == 0 then Some(g)
    else match GuessAnswer(g, answers[0]).0
      case None => None
      case Some(g1) => RunGuesses(g1, answers[1..])
  }

  /** Ten valid guesses always end a fresh game; invalid ones never count. */
  lemma {:induction false} GuessEndsWithinAttempts(g: GuessGame, answers: seq<string>)
    requires GuessGameOk(g)
    requires forall i :: 0 <= i < |answers| ==> ValidGuess(answers[i]).Some?
    requires |answers| >= g.maxAttempts - g.attempts
    ensures RunGuesses(g, answers).None?
    decreases |answers|
  {
    assert ValidGuess(answers[0]).Some?;
    match GuessAnswer(g, answers[0]).0
    case None =>
    case Some(g1) =>
      assert forall i :: 0 <= i < |answers[1..]| ==> answers[1..][i] == answers[i + 1];
      GuessEndsWithinAttempts(g1, answers[1..]);
  }

  /** What `handleQuiz` does to the chat's quiz games and which reply it
      gives, for the lower-cased action word of the query. */
  predicate QuizEffect(before: map<string, QuizGame>, after: map<string, QuizGame>, chatId: string, query: string,
                       pick: nat, sentId: string, reply: QuizReply)
  {
    var action := ToLower(query);
    if action == "start" then
      && pick < |QuizQuestions|
      && after == before[chatId := NewQuiz(pick, sentId)]
      && reply == QuizStarted(QuizQuestions[pick].category, QuizQuestions[pick].question)
    else if action in ["stop", "quit"] then
      if chatId !in before then reply == NoGame && after == before
      else reply == QuizStopped(before[chatId].answer) && after == before - {chatId}
    else if action == "hint" then
      if chatId !in before then reply == NoGame && after == before
      else && QuizGameOk(before[chatId])
           && after == before[chatId := QuizHint(before[chatId]).0]
           && reply == QuizHint(before[chatId]).1
    else reply == QuizUsage && after == before
  }

  /** What `handleGuess` does to the chat's guessing games and which reply
      it gives. */
  predicate GuessEffect(before: map<string, GuessGame>, after: map<string, GuessGame>, chatId: string, query: string,
                        pick: nat, sentId: string, reply: QuizReply)
  {
    var action := ToLower(query);
    if action == "start" then
      pick < 100 && after == before[chatId := NewGuess(pick, sentId)] && reply == GuessStarted
    else if action == "stop" then
      if chatId !in before then reply == NoGame && after == before
      else reply == GuessStopped(before[chatId].number) && after == before - {chatId}
    else reply == GuessUsage && after == before
  }

  class QuizGames {
    var quizGames: map<string, QuizGame>
    var guessGames: map<string, GuessGame>

    predicate Valid()
      reads this
    {
      (forall c :: c in quizGames ==> QuizGameOk(quizGames[c]))
      && (forall c :: c in guessGames ==> GuessGameOk(guessGames[c]))
    }

    constructor ()
      ensures Valid() && quizGames == map[] && guessGames == map[]
    {
      quizGames, guessGames := map[], map[];
    }

    /** `handleQuiz(message, query, chatId)`. */
    method HandleQuiz(chatId: string, query: string, pick: nat, sentId: string) returns (reply: QuizReply)
      requires Valid() && pick < |QuizQuestions|
      modifies this
      ensures Valid() && guessGames == old(guessGames)
      ensures QuizEffect(old(quizGames), quizGames, chatId, query, pick, sentId, reply)
    {
      var action := ToLower(query);
      if action == "start" {
        var question := QuizQuestions[pick];
        quizGames := quizGames[chatId := NewQuiz(pick, sentId)];
        return QuizStarted(question.category, question.question);
      }
      if action == "stop" || action == "quit" {
        if chatId !in quizGames {
          return NoGame;
        }
        var game := quizGames[chatId];
        quizGames := quizGames - {chatId};
        return QuizStopped(game.answer);
      }
      if action == "hint" {
        if chatId !in quizGames {
          return NoGame;
        }
        var game := quizGames[chatId];
        if game.hintIndex >= |game.hints| {
          return NoHints;
        }
        var hint := game.hints[game.hintIndex];
        game := game.(hintIndex := game.hintIndex + 1);
        quizGames := quizGames[chatId := game];
        return HintReply(game.hintIndex, hint);
      }
      return QuizUsage;
    }

    /** `handleQuizAnswer(message, answer, chatId)`. */
    method HandleQuizAnswer(chatId: string, answer: string) returns (reply: QuizReply)
      requires Valid()
      modifies this
      ensures Valid() && guessGames == old(guessGames)
      ensures chatId !in old(quizGames) ==> reply == NoReply && quizGames == old(quizGames)
      ensures chatId in old(quizGames) ==>
                var (next, r) := QuizAnswer(old(quizGames)[chatId], answer);
                && reply == r
                && quizGames == if next.Some? then old(quizGames)[chatId := next.value] else old(quizGames) - {chatId}
    {
      if chatId !in quizGames {
        return NoReply;
      }
      var game := quizGames[chatId];
      game := game.(attempts := game.attempts + 1);
      if ToLower(answer) == game.answer {
        quizGames := quizGames - {chatId};
        return Correct(game.answer, game.attempts);
      }
      if game.attempts >= game.maxAttempts {
        quizGames := quizGames - {chatId};
        return Failed(game.answer);
      }
      quizGames := quizGames[chatId := game];
      return Wrong(game.maxAttempts - game.attempts);
    }

    /** `handleGuess(message, query, chatId)`. */
    method HandleGuess(chatId: string, query: string, pick: nat, sentId: string) returns (reply: QuizReply)
      requires Valid() && pick < 100
      modifies this
      ensures Valid() && quizGames == old(quizGames)
      ensures GuessEffect(old(guessGames), guessGames, chatId, query, pick, sentId, reply)
    {
      var action := ToLower(query);
      if action == "start" {
        guessGames := guessGames[chatId := NewGuess(pick, sentId)];
        return GuessStarted;
      }
      if action == "stop" {
        if chatId !in guessGames {
          return NoGame;
        }
        var game := guessGames[chatId];
        guessGames := guessGames - {chatId};
        return GuessStopped(game.number);
      }
      return GuessUsage;
    }

    /** `handleGuessAnswer(message, answer, chatId)`. */
    method HandleGuessAnswer(chatId: string, answer: string) returns (reply: QuizReply)
      requires Valid()
      modifies this
      ensures Valid() && quizGames == old(quizGames)
      ensures chatId !in old(guessGames) ==> reply == NoReply && guessGames == old(guessGames)
      ensures chatId in old(guessGames) ==>
                var (next, r) := GuessAnswer(old(guessGames)[chatId], answer);
                && reply == r
                && guessGames == if next.Some? then old(guessGames)[chatId := next.value] else old(guessGames) - {chatId}
    {
      if chatId !in guessGames {
        return NoReply;
      }
      var step := GuessAnswer(guessGames[chatId], answer);
      reply := step.1;
      if step.0.Some? {
        guessGames := guessGames[chatId := step.0.value];
      } else {
        guessGames := guessGames - {chatId};
      }
    }

    /** `handleReply(message)`: a reply to the chat's quiz message answers
      the quiz, else a reply to its guess message answers the guess. */
    method HandleReply(m: Message) returns (handled: bool, reply: QuizReply)
      requires Valid()
      modifies this
      ensures Valid()
      ensures var replyTo := if m.quoted.Some? then m.quoted.value.id.GetOr("") else "";
              && (handled <==>
                    replyTo != ""
                    && ((m.jid in old(quizGames) && old(quizGames)[m.jid].messageId == replyTo)
                        || (m.jid in old(guessGames) && old(guessGames)[m.jid].messageId == replyTo)))
              && (handled && m.jid in old(quizGames) && old(quizGames)[m.jid].messageId == replyTo ==>
                    var (next, r) := QuizAnswer(old(quizGames)[m.jid], Trim(m.body));
                    && reply == r && guessGames == old(guessGames)
                    && quizGames == if next.Some? then old(quizGames)[m.jid := next.value] else old(quizGames) - {m.jid})
              && (handled && !(m.jid in old(quizGames) && old(quizGames)[m.jid].messageId == replyTo) ==>
                    var (next, r) := GuessAnswer(old(guessGames)[m.jid], Trim(m.body));
                    && reply == r && quizGames == old(quizGames)
                    && guessGames == if next.Some? then old(guessGames)[m.jid := next.value] else old(guessGames) - {m.jid})
              && (!handled ==> quizGames == old(quizGames) && guessGames == old(guessGames))
    {
      var chatId := m.jid;
      var replyTo := if m.quoted.Some? then m.quoted.value.id.GetOr("") else "";
      if replyTo == "" {
        return false, NoReply;
      }
      if chatId in quizGames && quizGames[chatId].messageId == replyTo {
        reply := HandleQuizAnswer(chatId, Trim(m.body));
        return true, reply;
      }
      if chatId in guessGames && guessGames[chatId].messageId == replyTo {
        reply := HandleGuessAnswer(chatId, Trim(m.body));
        return true, reply;
      }
      return false, NoReply;
    }

    /** `execute(message, query)`: "quiz" and "guess" select their handler;
      any other command word does nothing. */
    method Execute(m: Message, query: string, prefix: string, quizPick: nat, guessPick: nat, sentId: string)
        returns (reply: QuizReply)
      requires Valid() && quizPick < |QuizQuestions| && guessPick < 100
      modifies this
      ensures Valid()
      ensures CommandWord(m.body, prefix) != "quiz" && CommandWord(m.body, prefix) != "guess" ==>
                reply == NoReply && quizGames == old(quizGames) && guessGames == old(guessGames)
      ensures CommandWord(m.body, prefix) == "quiz" ==>
                guessGames == old(guessGames) && QuizEffect(old(quizGames), quizGames, m.jid, query, quizPick, sentId, reply)
      ensures CommandWord(m.body, prefix) == "guess" ==>
                quizGames == old(quizGames) && GuessEffect(old(guessGames), guessGames, m.jid, query, guessPick, sentId, reply)
    {
      var command := CommandWord(m.body, prefix);
      if command == "quiz" {
        reply := HandleQuiz(m.jid, query, quizPick, sentId);
      } else if command == "guess" {
        reply := HandleGuess(m.jid, query, guessPick, sentId);
      } else {
        reply := NoReply;
      }
    }
  }
}
