# OpenWhatsappBot core, modelled in Dafny

OpenWhatsappBot is a WhatsApp bot built on the Baileys client library. This
project models its core:

- **Message** (`Messages`). It wraps a raw Baileys message. It works out the chat, the sender, the body, the quoted message, the media kind and the mentions. It checks sudo users and group admins, and it builds group participant updates.
- **Dispatch** (`Dispatch`). This is the loop of `index.js` that hands each incoming message in turn to the quiz, the auto-responder or the command runner.
- **Handlers** for deleted messages (`AntiDelete`), view-once forwarding (`ViewOnceForwarding`), AI auto replies (`AutoResponding`), the conversation memory behind them (`Conversations`), the settings cache (`SettingsCaching`) and the translation manager (`Language`).
- **Plugins**: afk, quiz and guess, music, vv, setvv, translate, the sticker command trio (setcmd, getcmd, delcmd), help and menu, kick, promote and demote, tag, and ban.

How the model is built:

- **Classes.** An object whose fields the bot updates in place is a class whose methods say their new state. These are the anti-delete cache, the AFK state, the quiz games, the conversation manager, the settings cache, the language manager, the auto-responder and the ban list.
- **Database.** The Sequelize tables are one `Store` class (`Persistence`). Its `available` flag chooses between a query that succeeds and one that throws into the plugin's `catch`.
- **Baileys helpers.** `extractMessageContent`, `getContentType` and `jidNormalizedUser` are function fields of a `Baileys` value passed in.
- **Inputs given as parameters.** Anything that comes from the network, the clock or randomness is a parameter: downloads, group metadata, the AI's answer, `Date.now()`, `Math.random()` picks and the translation service.
- **JS semantics written out.** The JS string and number built-ins the core relies on are modelled in `JsString` and `JsNumber`: split, join, trim, ASCII lower and upper case, first-occurrence replace, `parseInt` and decimal printing. JS truthiness and message JSON are in `JsValue`. Strings are sequences of Unicode code points, not of UTF-16 code units; "## Left out" lists where that differs.

Dispatch is modelled exactly as `index.js` writes it. A command runs when the
message is the bot's own or when its sender is **not** a sudo user
(`fromMe || !isSudo()`). So a sudo user other than the bot never gets a
command run (`Dispatch.SudoOthersNotRun`).

## Model

| member | source | states |
|---|---|---|
| Messages.New | lib/classes/Message.js:13-58 | construction succeeds exactly when the extracted content is neither undefined nor null; chat, direction, id and raw data are copied from the key, the group flag is the `@g.us` suffix |
| Messages.ConstructorFields | lib/classes/Message.js:16-21 | the sender is the normalised participant when there is one, else the normalised chat jid |
| Messages.Strings | lib/classes/Message.js:57 | the mention list keeps only string entries and is never longer than the raw list |
| Messages.FirstTextIsFirst | lib/classes/Message.js:29-36 | the `||` chain yields "" exactly when no candidate is a non-empty string, and otherwise the first non-empty one |
| Messages.BodyPriority | lib/classes/Message.js:29-36 | the body is `text` when that is non-empty, and a message that is itself a string is its own body when no field precedes it |
| Messages.IsSudoEntries | lib/classes/Message.js:152-156 | a sender is sudo exactly when some comma-separated SUDO entry, trimmed, equals the sender's number part |
| Messages.IsSudoEmptyConfig | lib/classes/Message.js:152-156 | with an empty SUDO setting only a sender whose number part is empty counts as sudo |
| Messages.CommandWord | plugins/music.js:16 | the command word is the first space-free word with the leading prefix removed, and the word itself when the prefix does not occur in it |
| Messages.MediaShortName | lib/classes/Message.js:286-294 | a type has a short media name exactly when it is one of the five media message types |
| Messages.HasMediaType | lib/classes/Message.js:300-302 | true exactly when the media type is the one asked for |
| Messages.GetMediaTypeAgreesWithHasMedia | lib/classes/Message.js:48-54 | for a constructed message a media type exists exactly when `hasMedia` holds, and "image" exactly when the type is `imageMessage` |
| Messages.ExtensionOf | lib/classes/Message.js:315-328| an extension exactly for the eleven listed mime types, at least two characters and without a `/`; any other string, including a mimetype with parameters, gives none |
| Messages.GetMediaExtension | lib/classes/Message.js:307-332| none without a message or without a non-empty string `mimetype`; otherwise the table entry of that mimetype, so a listed type always gets its extension |
| Messages.VoiceNoteHasNoExtension | lib/classes/Message.js:323 | the exact-match table gives no extension for `audio/ogg; codecs=opus` but `ogg` for `audio/ogg` |
| Messages.FindParticipant | lib/classes/Message.js:183-185 | a found participant is in the list with the id asked for; none found means no participant has it |
| Messages.GetGroupMetadata | lib/classes/Message.js:161-174 | metadata only for group chats, and then what the query returned |
| Messages.IsBotAdmin | lib/classes/Message.js:176-189| false outside groups and without metadata; in a group with metadata, true exactly when the first participant entry with the bot's normalised id has an `admin` field that is not undefined (a null one counts, as `!== undefined` says) |
| Messages.FindParticipantFirst | lib/classes/Message.js:183-199 | `.find` returns the first participant entry with the id: no earlier entry has it |
| Messages.IsSenderAdmin | lib/classes/Message.js:191-201| false outside groups and without metadata; in a group with metadata, true exactly when the first participant entry with the sender's id has an `admin` field that is not undefined (a null one counts) |
| Messages.AsList | lib/classes/Message.js:209 | an array of participants is used as is, a single one becomes a one-element list |
| Messages.ParticipantsUpdate | lib/classes/Message.js:206-216 | an update is issued exactly in group chats, for this chat, the listed participants and the action |
| Messages.Kick | lib/classes/Message.js:206-216 | group chats only; action `remove` on the listed participants of this chat |
| Messages.Add | lib/classes/Message.js:218-228 | group chats only; action `add` on the listed participants of this chat |
| Messages.Promote | lib/classes/Message.js:230-240 | group chats only; action `promote` on the listed participants of this chat |
| Messages.Demote | lib/classes/Message.js:242-252 | group chats only; action `demote` on the listed participants of this chat |
| Dispatch.HandleOutcomes | index.js:49-83 | one message's fate: skipped exactly for `status@broadcast`; stopped when construction throws; taken by the quiz for a claimed reply; by the auto-responder for a non-command, non-own message it answers; a command run exactly when `fromMe` or the sender is not sudo, and not run exactly otherwise |
| Dispatch.OnMessages | index.js:46-85 | the loop's log is the trace of the batch: messages in arrival order, stopping after a throwing constructor |
| Dispatch.TraceInOrder | index.js:49-54 | entry i of the trace is the handling of message i, and only the last entry can be a throwing constructor, which is what a short trace ends with |
| Dispatch.WholeBatch | index.js:49-54 | a batch where no construction throws is handled message by message in full |
| Dispatch.SudoOthersNotRun | index.js:79-83 | a sudo user's message that is not the bot's own never runs a command |
| Dispatch.OwnCommandsRun | index.js:67-83 | the bot's own messages skip the auto-responder and run the command whenever the quiz does not claim them |
| AntiDelete.Ids | lib/utils/antiDeleteHandler.js:70-81 | the ids of a chat bucket, entry by entry |
| AntiDelete.Find | lib/utils/antiDeleteHandler.js:123-129 | a cached record is found exactly when its id is in the bucket, and is that id's record |
| AntiDelete.PositionOf | lib/utils/antiDeleteHandler.js:70-81 | the index of a cached id in its bucket |
| AntiDelete.PutFacts | lib/utils/antiDeleteHandler.js:70-81 | re-caching an id replaces its record in place, a new id is appended; ids stay distinct and the id finds the new record |
| AntiDelete.FindUnique | lib/utils/antiDeleteHandler.js:123-129 | with distinct ids, lookup returns the record stored at the id's position |
| AntiDelete.InsertKeepsBucketGood | lib/utils/antiDeleteHandler.js:70-87 | caching keeps a bucket within 100 entries with distinct ids, and the new record is found |
| AntiDelete.DropFirstKeepsLast | lib/utils/antiDeleteHandler.js:84-87 | evicting the oldest entry keeps the newly appended record findable |
| AntiDelete.InsertEvictsOldest | lib/utils/antiDeleteHandler.js:84-87 | a new id in a full bucket drops the oldest entry and appends the new one |
| AntiDelete.ReCacheKeepsCount | lib/utils/antiDeleteHandler.js:70-81 | re-caching a known id keeps the bucket's size and id order |
| AntiDelete.CachedEffect | lib/utils/antiDeleteHandler.js:57-96 | own messages and messages without content leave the cache alone; others become findable in their chat and no other chat changes |
| AntiDelete.Survivors | lib/utils/antiDeleteHandler.js:32-45 | the sweep keeps only entries younger than the TTL, in order |
| AntiDelete.SurvivorsAppend | lib/utils/antiDeleteHandler.js:32-45 | the sweep filters entry by entry: the survivors of two buckets joined are the survivors of the first followed by those of the second |
| AntiDelete.SurvivorsExact | lib/utils/antiDeleteHandler.js:32-45 | an entry survives the sweep exactly when it was cached and is not expired, and ids stay distinct |
| AntiDelete.SweptExact | lib/utils/antiDeleteHandler.js:27-50 | after the sweep a chat holds exactly its unexpired entries, emptied chats are dropped, and buckets stay well formed |
| AntiDelete.SweptFromParts | lib/utils/antiDeleteHandler.js:27-50 | the chat-by-chat sweep loop builds exactly the swept cache |
| AntiDelete.SweepChat | lib/utils/antiDeleteHandler.js:32-45 | the inner filter loop computes the chat's survivors |
| AntiDelete.SudoJid | lib/utils/antiDeleteHandler.js:140-142 | a sudo number becomes a jid: kept when it contains `@`, otherwise given a user domain |
| AntiDelete.FirstSudo | lib/utils/antiDeleteHandler.js:135-146 | a private destination exists exactly when the SUDO list has a non-empty entry |
| AntiDelete.Destination | lib/utils/antiDeleteHandler.js:131-181 | mode `g` sends to the chat, `p` to the first sudo, `sudo` to the first sudo only when the deleter is sudo, `jid` to a non-empty configured jid, any other mode nowhere |
| AntiDelete.ChatName | lib/utils/antiDeleteHandler.js:185-195 | the header says "Group" exactly for `@g.us` chats and "Private" otherwise |
| AntiDelete.Header | lib/utils/antiDeleteHandler.js:185-195 | the notice starts with sender, chat and time lines and ends with the message body when the body is non-empty |
| AntiDelete.MediaSends | lib/utils/antiDeleteHandler.js:198-257 | recovered media goes to the destination, at most a media send and a text send |
| AntiDelete.MediaSendsByType | lib/utils/antiDeleteHandler.js:215-257 | per media type: image and video carry the header as caption and mention the sender; audio sends the header text, then the audio (mimetype defaulting to `audio/mp4`, voice note when `ptt` is truthy); a sticker sends the header text, then the sticker; a document keeps its file name (default `document`) and mimetype (default `application/octet-stream`) with the header caption; any other type sends nothing |
| AntiDelete.NoticeSends | lib/utils/antiDeleteHandler.js:198-278 | text-only records send the header; media whose download gives a buffer sends exactly the per-type media sends; media that cannot be downloaded or whose download throws sends the header with the matching failure note; all to the destination, mentioning the sender |
| AntiDelete.RevokedId | lib/utils/antiDeleteHandler.js:104-114 | an update is a revocation exactly when the protocol message has type 0 and a string key id, which is then the deleted id |
| AntiDelete.HandleDelete | lib/utils/antiDeleteHandler.js:98-287 | handled exactly when the feature is on, the update revokes a message cached for that chat and a destination exists; nothing is sent otherwise |
| AntiDelete.SameChatExample | lib/utils/antiDeleteHandler.js:147-149 | in `g` mode a deleted cached text message is reposted to its own chat with its body |
| AntiDelete.AntiDeleteHandler.constructor | lib/utils/antiDeleteHandler.js:13-25 | the cache starts empty |
| AntiDelete.AntiDeleteHandler.CacheMessage | lib/utils/antiDeleteHandler.js:57-96 | the new cache is the old one with the message cached as the pure definition says, invariants kept |
| AntiDelete.AntiDeleteHandler.SweepExpired | lib/utils/antiDeleteHandler.js:27-50 | the new cache is the swept old cache |
| AntiDelete.AntiDeleteHandler.HandleMessageDelete | lib/utils/antiDeleteHandler.js:98-287 | the result and the sends are those of the pure delete handler on the current cache |
| ViewOnceForwarding.ViewOnceDestination | lib/utils/viewOnceHandler.js:41-53 | mode `p` forwards to the bot, `g` to the chat, `jid` to the configured jid, other modes nowhere |
| ViewOnceForwarding.ForwardCaption | lib/utils/viewOnceHandler.js:63-66 | the original caption when it is non-empty, otherwise a view-once notice naming the sender's number |
| ViewOnceForwarding.HandleViewOnce | lib/utils/viewOnceHandler.js:16-90 | handled exactly when something is sent, which needs a view-once image or video, forwarding enabled, a downloaded buffer and a destination |
| ViewOnceForwarding.ForwardsWhenAllHold | lib/utils/viewOnceHandler.js:19-85 | when every condition holds the media is forwarded; with no buffer or a failed download nothing is |
| SetViewOnce.ParseSetVv | plugins/viewonce.js:17-58 | empty query gives usage; `null`/`false` disable; `g`/`p` set that mode; anything with `@` sets that jid; all on the trimmed lower-cased query |
| SetViewOnce.AcceptedModes | plugins/viewonce.js:21-26 | a query is accepted exactly when it is non-empty and its normalised form is `g`, `p`, `null`, `false` or contains `@` |
| SetViewOnce.SetVv | plugins/viewonce.js:15-72 | usage leaves the settings alone; a failing store replies with the error and changes nothing; otherwise the settings row is the one the mode calls for |
| SetViewOnce.DisableStopsForwarding | plugins/viewonce.js:35-43 | after disabling, no view-once message is forwarded |
| SetViewOnce.SetThenForward | plugins/viewonce.js:46-58 | after setting a jid or mode, a view-once image is forwarded to that jid, the chat (`g`) or the bot (`p`) |
| ViewOnceReveal.DetectInner | plugins/vv.js:51-77 | a legacy wrapper without `message` throws; media found inside is a truthy value |
| ViewOnceReveal.Detect | plugins/vv.js:32-77 | view-once image, video and audio are tried in that order before the legacy wrappers; what is found is truthy |
| ViewOnceReveal.WrapperShadowsV2 | plugins/vv.js:51-77 | a present `viewOnceMessage` with no media hides a `viewOnceMessageV2` |
| ViewOnceReveal.ResendOf | plugins/vv.js:79-101 | the media is resent to the chat as its own kind, images and videos with their caption or the forwarded note, audio with its mime type |
| ViewOnceReveal.Vv | plugins/vv.js:14-127 | no reply: reply required; no quoted content: no message; nothing detected: not view-once; otherwise resent when the download gives a buffer; the error reply is given exactly when detection throws or a detected download throws |
| ViewOnceReveal.DirectImageFirst | plugins/vv.js:35-39 | a flagged view-once image is resent as an image |
| AutoResponding.IgnoreList | lib/utils/autoResponderHandler.js:71-73 | the ignore list is the non-empty trimmed comma-separated entries, empty for an empty setting |
| AutoResponding.GateIff | lib/utils/autoResponderHandler.js:44-84 | a message is answered exactly when responding is on, it is not own, not group, not status, a key is set, the sender is not ignored and it is not in flight |
| AutoResponding.InFlightBlocks | lib/utils/autoResponderHandler.js:78-80 | a message already being processed is never answered again |
| AutoResponding.InFlightOpen | lib/utils/autoResponderHandler.js:78-80 | an answered message was not in flight |
| AutoResponding.DefaultsDisabled | lib/utils/autoResponderHandler.js:34-42 | a freshly created settings row answers nothing |
| AutoResponding.Contents | lib/utils/autoResponderHandler.js:110-113 | the prompt is the personality turn, the formatted history, then the message body |
| Conversations.KeepsLastTwo | lib/utils/conversationManager.js:57-65 | with a limit of at least two, the newest two turns survive trimming |
| Conversations.UserThenAssistant | lib/utils/conversationManager.js:44-77 | two `addMessage` calls in a row on one chat leave those two turns, in that order, at the end of its history |
| AutoResponding.ExchangeEndsWithBothTurns | lib/utils/autoResponderHandler.js:147-156 | after an exchange the history ends with the user's message and the assistant's answer |
| AutoResponding.AutoResponderHandler.constructor | lib/utils/autoResponderHandler.js:11-17 | no client and nothing in flight |
| AutoResponding.AutoResponderHandler.InitializeAI | lib/utils/autoResponderHandler.js:19-26 | a client exists after the call exactly when one existed or a key is configured; an existing client is reused |
| AutoResponding.AutoResponderHandler.ShouldRespond | lib/utils/autoResponderHandler.js:31-88 | the answer is the gate on the stored (or freshly created) settings; only that row may be created |
| AutoResponding.AutoResponderHandler.GenerateResponse | lib/utils/autoResponderHandler.js:94-157 | the message leaves the in-flight set; the AI is given the prompt contents; both turns are stored on success |
| AutoResponding.AutoResponderHandler.HandleMessage | lib/utils/autoResponderHandler.js:162-192| a failing store or a closed gate gives false and leaves the histories alone; with the gate open the reply is the model's answer to the personality prompt, the history read before the message and the body, the result is true exactly when an answer came back, and the exchange is stored; the in-flight set ends as it began |
| AutoResponding.AutoResponderHandler.Answer | lib/utils/autoResponderHandler.js:173-183| for a message not in flight: with a client and a reachable store the reply is the model's answer to the prompt, the prior history and the body, and the exchange is stored; the result is true exactly when there is a reply; the in-flight set ends as it began |
| Conversations.KeepLast | lib/utils/conversationManager.js:57-65 | the history keeps the newest n turns (all of them for a zero limit), always a suffix |
| Conversations.AppendedKeepsLatest | lib/utils/conversationManager.js:44-77 | after adding, the history has between 1 and n turns, ends with the new turn and is a suffix of old history plus it |
| Conversations.ZeroLimitKeepsAll | lib/utils/conversationManager.js:57-65 | a zero limit never trims, as `slice(-0)` keeps everything |
| Conversations.AddPreservesBound | lib/utils/conversationManager.js:44-77 | if every history is within the limit, it stays so after adding |
| Conversations.ExpiryForgets | lib/utils/conversationManager.js:23-33 | a history idle past the timeout reads as empty and is cleared |
| Conversations.AddThenGet | lib/utils/conversationManager.js:16-38 | reading within the timeout returns the history just stored |
| Conversations.FormatForGemini | lib/utils/conversationManager.js:99-104 | one entry per turn; user turns keep the role `user`, every other turn becomes `model`; the text is the turn's content |
| Conversations.ConversationManager.constructor | lib/utils/conversationManager.js:8-11 | the limit is the one given and the timeout 30 minutes |
| Conversations.ConversationManager.GetContext | lib/utils/conversationManager.js:16-38 | the live history, or empty when expired or the store fails; an expired history is cleared |
| Conversations.ConversationManager.AddMessage | lib/utils/conversationManager.js:44-77 | stores the trimmed history with the new turn and returns it; a failing store returns empty and changes nothing |
| Conversations.ConversationManager.ClearContext | lib/utils/conversationManager.js:83-93 | succeeds exactly when the store works, and then empties that chat's history |
| SettingsCaching.HitServesCache | lib/utils/settingsCache.js:22-28 | a fresh entry is returned without fetching and expires exactly at its TTL |
| SettingsCaching.FailureFallsBack | lib/utils/settingsCache.js:38-42 | a failed fetch returns the stale entry when there is one, null otherwise, and changes nothing |
| SettingsCaching.RefetchThenHit | lib/utils/settingsCache.js:31-37 | a fetched value is served from cache by every read within the TTL |
| SettingsCaching.ReadTwice | lib/utils/settingsCache.js:21-43 | two reads within the TTL fetch once and return the same value |
| SettingsCaching.SettingsCache.constructor | lib/utils/settingsCache.js:10-13 | empty cache, TTL five minutes |
| SettingsCaching.SettingsCache.Get | lib/utils/settingsCache.js:21-43 | fetches exactly on a miss; returns and stores what the read definition says; the TTL is untouched |
| SettingsCaching.SettingsCache.Invalidate | lib/utils/settingsCache.js:49-52 | removes that key and nothing else |
| SettingsCaching.SettingsCache.Clear | lib/utils/settingsCache.js:57-60 | the cache is empty |
| SettingsCaching.SettingsCache.SetTtl | lib/utils/settingsCache.js:66-68 | changes the TTL and keeps the entries |
| Language.ResolveAppend | lib/utils/language.js:54-61 | walking a dotted key part by part is walking its prefix and then the rest |
| Language.Walk | lib/utils/language.js:54-61 | the key-walking loop computes the resolved value |
| Language.ReplacePlaceholders | lib/utils/language.js:123-132 | with no arguments the text is returned as is; otherwise it is the placeholder rewrite of the text |
| Language.SubstituteSplit | lib/utils/language.js:128-131 | the rewrite of a concatenation is the concatenation of the rewrites when the second part cannot continue a placeholder (it is empty or starts with neither a digit nor `}`) |
| Language.PlaceholderInText | lib/utils/language.js:128-131 | a `{i}` anywhere in a text becomes argument i when that argument exists and is defined and stays as written otherwise, and the text before and after it is rewritten independently |
| Language.PlaceholderFirst | lib/utils/language.js:128-131 | a text starting with `{i}` has that placeholder rewritten first, then the rest |
| Language.PlaceholderAt | lib/utils/language.js:128 | a placeholder match is a brace, one or more decimal digits and a closing brace |
| Language.UndefinedArgsKeepText | lib/utils/language.js:123-132 | when no argument is given, every placeholder is left as written |
| Language.NoBraceKeepsText | lib/utils/language.js:123-132 | a text without `{` is unchanged |
| Language.PlaceholderFilled | lib/utils/language.js:128-131 | `{i}` alone is replaced by argument i |
| Language.DigitPrefixStops | lib/utils/language.js:128 | the digits of a placeholder end at the first non-digit |
| Language.LangCases | lib/utils/language.js:53-77| an empty translation is used as found; a path that ends at a non-string value gives the key; a missing path gives the key in English and the fallback lookup in any other language |
| Language.FallbackCases | lib/utils/language.js:85-115 | with no fallback file, or no string there, the key itself is returned |
| Language.HasKeyTranslates | lib/utils/language.js:139-152 | a key that `hasKey` accepts is translated from the current language |
| Language.LanguageManager.constructor | lib/utils/language.js:19-45 | a known language is loaded; an unknown one switches to the fallback language and its file |
| Language.LanguageManager.GetLang | lib/utils/language.js:53-77 | the text is the one the lookup definition gives |
| Language.LanguageManager.GetFallback | lib/utils/language.js:85-115 | the text is the one the fallback definition gives |
| Language.LanguageManager.HasKey | lib/utils/language.js:139-152 | true exactly when the dotted key resolves to a string |
| Afk.JsRem | plugins/afk.js:17-18 | JS `%`: the Euclidean remainder for non-negative operands, a non-positive one for negative operands |
| Afk.RoundSeconds | plugins/afk.js:75 | the rounded seconds are within half a second of the milliseconds |
| Afk.HmsParts | plugins/afk.js:15-18 | hours, minutes and seconds recombine to the duration, with minutes and seconds below 60 |
| Afk.Unit | plugins/afk.js:19-21 | a unit is omitted exactly for a count of zero or less, singular for one |
| Afk.SecondsToHms | plugins/afk.js:14-23 | the text is empty exactly for durations of zero or less |
| Afk.HmsExamples | plugins/afk.js:14-23 | 1 s, 60 s (with its trailing separator), 3661 s and a negative duration |
| Afk.HmsShortSpans | plugins/afk.js:14-23 | under a minute only the seconds part shows |
| Afk.NowAfkText | plugins/afk.js:81-83 | the AFK notice, with the reason line only when a reason is given |
| Afk.ReasonLine | plugins/afk.js:38-40 | a reason line exactly when a reason is set |
| Afk.SeenLine | plugins/afk.js:41-45 | a last-seen line exactly when a time is recorded, showing the time away |
| Afk.AwayNotice | plugins/afk.js:38-46 | the away reply is the header, the reason line and the last-seen line in that order |
| Afk.AfkState.constructor | plugins/afk.js:8-12 | not AFK, no reason, no time |
| Afk.AfkState.Execute | plugins/afk.js:73-89 | already AFK: refuses and changes nothing; otherwise goes AFK with the reason and the current time |
| Afk.AfkState.HandleAfkResponse | plugins/afk.js:26-53 | it answers exactly an incoming message that mentions or replies to the bot while AFK, with the away notice |
| Afk.AfkState.CheckAfkReturn | plugins/afk.js:56-64 | the bot's own message ends AFK and clears the state; nothing else changes it |
| Quiz.NewQuiz | plugins/quiz.js:105-127 | a new quiz has no attempts, no hint shown, the sent message id and the lower-cased answer |
| Quiz.QuizAnswer | plugins/quiz.js:167-199 | a case-insensitive match wins; a miss on the last attempt ends the game; otherwise one more attempt is counted and the remaining ones reported |
| Quiz.QuizHint | plugins/quiz.js:145-161 | the next hint is shown and counted, until none are left |
| Quiz.QuizEndsWithinAttempts | plugins/quiz.js:167-199 | a quiz is over after at most its remaining attempts |
| Quiz.HintsAdvance | plugins/quiz.js:145-161 | k hint requests advance the hint index by k, stopping at the last hint, and touch nothing else |
| Quiz.NewGuess | plugins/quiz.js:205-220 | the number is between 1 and 100 and no attempt is counted |
| Quiz.ValidGuess | plugins/quiz.js:246-250 | a guess is valid exactly when `parseInt` gives a number from 1 to 100 |
| Quiz.GuessAnswer | plugins/quiz.js:242-283 | an invalid guess changes nothing; the right number wins; a miss on the last attempt ends the game; otherwise higher or lower is said |
| Quiz.GuessEndsWithinAttempts | plugins/quiz.js:242-283 | valid guesses end the game within the remaining attempts |
| Quiz.QuizGames.constructor | plugins/quiz.js:8-9 | no games |
| Quiz.QuizGames.HandleQuiz | plugins/quiz.js:102-165 | `start` stores a new quiz for the chat; `stop`/`quit` ends one; `hint` advances it; the guess games are untouched |
| Quiz.QuizGames.HandleQuizAnswer | plugins/quiz.js:167-199 | without a game nothing happens; otherwise the chat's game becomes what the answer rule says |
| Quiz.QuizGames.HandleGuess | plugins/quiz.js:202-240 | `start` stores a new game; `stop` ends one; the quizzes are untouched |
| Quiz.QuizGames.HandleGuessAnswer | plugins/quiz.js:242-283 | without a game nothing happens; otherwise the chat's game becomes what the guess rule says |
| Quiz.QuizGames.HandleReply | plugins/quiz.js:78-98 | a reply is handled exactly when it quotes the chat's quiz or guess message, quiz first; the handled game's entry becomes the answer rule's next game, or is removed when the game ends, and the other map is unchanged |
| Quiz.QuizGames.Execute | plugins/quiz.js:56-76| `quiz` has exactly the effect and reply of `handleQuiz` on this chat, `guess` those of `handleGuess`, each leaving the other kind of game alone; other command words change nothing |
| Music.Route | plugins/music.js:15-39 | usage without a query; `spotify` and `lyrics` pick their handlers; any other word searches |
| Music.ParseLyrics | plugins/music.js:130-135 | a lyrics query is accepted exactly when the artist and the rest after the first `-` are non-empty; the song is trimmed |
| Music.NoDashNoSong | plugins/music.js:130-135 | a query without `-` is rejected |
| Music.SongKeepsLaterDashes | plugins/music.js:130-131 | only the first `-` splits; later dashes stay in the song |
| Music.Truncate | plugins/music.js:149-152 | lyrics longer than 2000 code points are cut to 2000 and get the truncation note (JS counts UTF-16 units; see Left out) |
| Music.PreviewLine | plugins/music.js:66-68 | a preview line exactly for tracks with a non-empty preview URL (an empty one is falsy), and it shows that URL |
| Music.Shown | plugins/music.js:62 | at most five results, the first ones, all of them when there are five or fewer |
| Music.SearchListing | plugins/music.js:42-74 | no results gives the no-results reply; otherwise the header and one entry per shown track |
| Music.AppendEntry | plugins/music.js:62-69 | one `forEach` step adds the next track's entry, numbered from 1, after the entries before it |
| Music.OnlyFirstFive | plugins/music.js:62 | results past the fifth never affect the listing |
| Music.EntriesEndInBlankLine | plugins/music.js:62-70 | each entry ends with a line break |
| Translate.QuotedText | plugins/translate.js:21-25 | the quoted content's text, else caption, else conversation; empty exactly when none is a non-empty string |
| Translate.ParseArgs | plugins/translate.js:17-40 | a reply translates the quoted text to the query language (default `en`): the text is the first field's content as `getQuotedText` reads it, and the call throws exactly when that content is null or undefined; otherwise a first word of two code points in a multi-word query is the language, and the rest is the text (JS counts UTF-16 units; see Left out) |
| Translate.CodeAndTextRebuildQuery | plugins/translate.js:31-37 | the language code, a space and the text make up the query again |
| Translate.Request | plugins/translate.js:42-44| usage exactly when there is nothing to translate; the thrown error exactly when parsing threw; a translation carries the parsed text, never empty, and the parsed target language |
| StickerCommands.HexDigit | plugins/stickercmd.js:39 | a digit below 16 prints as a lower-case hex digit |
| StickerCommands.HexValue | plugins/stickercmd.js:39 | a hex digit reads back as a value below 16 |
| StickerCommands.Hex | plugins/stickercmd.js:39 | two lower-case hex digits per byte |
| StickerCommands.UnhexHex | plugins/stickercmd.js:39 | the hex text decodes back to the bytes |
| StickerCommands.HexInjective | plugins/stickercmd.js:39 | different stickers get different hashes |
| StickerCommands.CommandName | plugins/stickercmd.js:42 | the trimmed query, less one leading `.`, `!` or `/` exactly when it starts with one |
| StickerCommands.StickerHash | plugins/stickercmd.js:31-39 | no hash exactly for a falsy `fileSha256`; a byte value gives its hex |
| StickerCommands.PositionOf | plugins/stickercmd.js:45-46 | the first row with that hash, or none when no row has it |
| StickerCommands.FindBinding | plugins/getcmd.js:27-29 | a found row has the hash, and none is found exactly when no row has it |
| StickerCommands.UpsertFacts | plugins/stickercmd.js:45-56 | `findOrCreate` then `update`: hashes stay unique, the sticker now maps to the command, the table grows only for a new sticker |
| StickerCommands.UpsertKnown | plugins/stickercmd.js:54-56 | a sticker already bound keeps its place and gets the new command; the table keeps its size and every other lookup |
| StickerCommands.UpsertUnknown | plugins/stickercmd.js:45-52 | a new sticker gets a binding with the command and its creator at the end; every other lookup is unchanged |
| StickerCommands.UniqueFind | plugins/stickercmd.js:45-46 | with unique hashes the lookup returns the row holding the hash |
| StickerCommands.FindSkipsUnrelated | plugins/stickercmd.js:54-56 | updating one row does not change the lookup of another hash |
| StickerCommands.FindPastEnd | plugins/stickercmd.js:45-52 | appending a row with another hash does not change a lookup |
| StickerCommands.SetCmdDecision | plugins/stickercmd.js:18-42 | usage without a quoted sticker; missing command without a query; a binding exactly when the sticker has byte hash data |
| StickerCommands.SetCmd | plugins/stickercmd.js:15-69 | a binding upserts the row and says whether it was created or updated; errors and usage leave the table alone |
| GetCommand.InsertByAge | plugins/getcmd.js:43-45 | inserting into a newest-first list keeps it newest-first and a permutation |
| GetCommand.SortNewest | plugins/getcmd.js:43-45 | the listing order is newest first and holds exactly the table's rows |
| GetCommand.Prefix16 | plugins/getcmd.js:56 | the first sixteen characters of the hash, or all of a shorter one |
| GetCommand.EntriesNumberedFromOne | plugins/getcmd.js:54-57 | the entries are numbered from 1 in listing order |
| GetCommand.Listing | plugins/getcmd.js:53-60 | header with the count, one entry per row, footer |
| GetCommand.AppendEntry | plugins/getcmd.js:54-57 | one `forEach` step adds the next row's entry, numbered from 1, after the entries before it |
| GetCommand.GetCmd | plugins/getcmd.js:15-69 | a quoted sticker shows its bound command, not-bound or an error; otherwise the list or the empty-list reply |
| GetCommand.SetThenGet | plugins/getcmd.js:27-39 | after `setcmd`, `getcmd` on the same sticker shows the new command |
| DeleteCommand.RemoveHash | plugins/delcmd.js:35-37 | deleting never grows the table |
| DeleteCommand.RemoveFacts | plugins/delcmd.js:35-41 | the sticker's row goes, the count drops by one exactly when it was bound, and other lookups are unchanged |
| DeleteCommand.RemoveMembers | plugins/delcmd.js:35-37 | the rows kept are exactly those with another hash |
| DeleteCommand.RemoveKeepsUnique | plugins/delcmd.js:35-37 | deleting keeps hashes unique |
| DeleteCommand.RemoveCount | plugins/delcmd.js:39-41 | the destroyed count is 1 exactly when the sticker was bound |
| DeleteCommand.RemoveKeepsOthers | plugins/delcmd.js:35-37 | other stickers keep their bindings |
| DeleteCommand.DelCmd | plugins/delcmd.js:15-51 | usage without a quoted sticker; no hash or unconverted hash gives an error; otherwise the binding is removed and the reply says whether one existed |
| Persistence.Hashes | lib/database/models/StickerCommand.js:16-21 | the hash column, row by row |
| GroupAdmin.UpdateOf | plugins/kick.js:40-44 | the kick, promote or demote update, issued exactly in group chats |
| GroupAdmin.TargetOf | plugins/promote.js:30-40 | the first mention, else the quoted sender, else none |
| GroupAdmin.Confirmation | plugins/promote.js:42-46 | the confirmation names the target's number with the action's wording |
| GroupAdmin.Execute | plugins/kick.js:12-44| groups only; sender admin or sudo; bot admin; a target; then the update, confirmed exactly when the socket accepted it and the target is a string, naming and mentioning that target; each guard exactly in order |
| GroupAdmin.SudoNeedNotBeAdmin | plugins/demote.js:18-21 | a sudo user passes the sender check without being an admin |
| GroupAdmin.MentionedTargetConfirmed | plugins/kick.js:30-44 | with all guards met, a mentioned user is updated and confirmed, the mention carried along |
| GroupAdmin.SameGuards | plugins/promote.js:12-27 | the three commands refuse in exactly the same situations |
| GroupAdmin.KickNamesNumber | plugins/kick.js:42 | the kick confirmation shows the number before `@` |
| Tag.Ids | plugins/tag.js:30-36 | the mention list is the participants' ids, in order |
| Tag.Execute | plugins/tag.js:12-43 | groups only; admins or sudo only; no metadata gives the error; otherwise the text (or the default) is sent mentioning everyone |
| Tag.MentionsExactlyParticipants | plugins/tag.js:31-35 | exactly the participants are mentioned |
| Tag.SudoTagsWithoutAdmin | plugins/tag.js:18-21 | a sudo user tags without being an admin |
| Help.FlagLines | plugins/help.js:47-57 | one line per set flag (sudo, group, PM), in that order and nothing else |
| Help.Execute | plugins/help.js:14-63 | usage exactly for a blank argument; not found for an unknown lower-cased name; otherwise the card for that command |
| Help.FlagLinesExtremes | plugins/help.js:47-57 | no flags give no lines; all flags give all three in order |
| Help.DescriptionDefault | plugins/help.js:44 | a missing description shows the default text |
| Help.NormalisedArgsSameReply | plugins/help.js:26 | case and surrounding space of the argument do not change the reply |
| Menu.TypesOfComplete | plugins/menu.js:18-22 | a section exists exactly for each type some command has, once |
| Menu.OfTypeMembers | plugins/menu.js:18-22 | a section holds exactly the commands of its type |
| Menu.AbsentTypeEmpty | plugins/menu.js:18-22 | a type no command has gets no commands |
| Menu.EveryCommandInOneGroup | plugins/menu.js:18-22 | each command is in its own type's section and no other |
| Menu.OfTypeAppend | plugins/menu.js:18-22 | sections keep command order |
| Menu.TypesOfPrefix | plugins/menu.js:18-22 | later commands never reorder the sections already seen |
| Menu.GroupsPartition | plugins/menu.js:18-32 | the sections' sizes add up to the command count in the header |
| Menu.Group | plugins/menu.js:18-22 | the `reduce` builds the types in first-seen order and each type's commands |
| Menu.AppendSection | plugins/menu.js:35-44 | a section is its head, one line per command, its foot |
| Menu.AppendNextSection | plugins/menu.js:35-44 | one step of the outer loop adds the next type's section after the sections before it |
| Menu.AppendSections | plugins/menu.js:35-44 | the outer loop yields the sections of all types in order, each with its own group of commands |
| Menu.MenuText | plugins/menu.js:14-50 | header with the count, one section per type in first-seen order, footer |
| Menu.EntryCount | plugins/menu.js:24-44 | every command is listed once |
| BanChat.AfterBan | plugins/banchat.js:19-31 | only a sudo sender adds the chat; a banned chat stays banned |
| BanChat.BanReplyFor | plugins/banchat.js:19-35 | owners-only for non-sudo, already-deactivated for a banned chat, deactivated otherwise |
| BanChat.BanIsLocal | plugins/banchat.js:25-31 | banning one chat never changes another, and a sudo ban takes effect |
| BanChat.BanTwice | plugins/banchat.js:25-29 | banning again changes nothing and says so |
| BanChat.BanList.constructor | plugins/banchat.js:10 | nothing is banned |
| BanChat.BanList.Ban | plugins/banchat.js:19-43 | the new set and the reply follow the ban definition; a sudo ban leaves the chat banned |
| JsString.Before | lib/classes/Message.js:154 | `split("@")[0]`: the text before the first separator, without it |
| JsString.Split | lib/utils/language.js:54 | `split`: the first piece is the text before the first separator |
| JsString.JoinSplit | plugins/music.js:130-131 | joining the pieces with the separator gives the text back |
| JsString.SplitTail | plugins/music.js:130-131 | the rejoined tail is what follows the first separator |
| JsString.SplitMany | plugins/translate.js:33-34 | more than one piece exactly when the separator occurs |
| JsString.Trim | plugins/help.js:16 | `trim()`: no ECMAScript white space or line terminator at either end, and only those are removed |
| JsString.TrimIdempotent | plugins/help.js:26 | trimming twice is trimming once |
| JsString.ToLower | plugins/help.js:26| `toLowerCase()` on ASCII letters, character by character (other characters are kept; see Left out) |
| JsString.ToLowerIdempotent | plugins/quiz.js:173 | lower-casing twice is lower-casing once |
| JsString.ToUpper | plugins/menu.js:36| `toUpperCase()` on ASCII letters, character by character (other characters are kept; see Left out) |
| JsString.ReplaceFirst | plugins/viewonce.js:63 | string `replace`: the first occurrence (no earlier index matches) is replaced, and nothing without one |
| JsString.TrimAll | lib/classes/Message.js:153 | `map(s => s.trim())`, entry by entry |
| JsString.TrimAllMembers | lib/classes/Message.js:153-155 | a value is in the trimmed list exactly when some entry trims to it |
| JsString.CommaList | lib/utils/antiDeleteHandler.js:138 | `split(",").map(trim).filter(Boolean)`: the non-empty trimmed entries |
| JsString.CommaListEmpty | lib/utils/autoResponderHandler.js:71-73 | an empty setting gives an empty list |
| JsString.CommaListEntries | lib/utils/antiDeleteHandler.js:154 | every entry is non-empty, trimmed and comma-free |
| JsNumber.DigitPrefix | plugins/quiz.js:246 | the digits `parseInt` reads: all digits up to the first non-digit |
| JsNumber.ParseInt | plugins/quiz.js:246| without a `0x` prefix, a number exactly when a decimal digit follows the white space and sign, and then the signed value of the longest digit prefix; after `0x`, the same in base 16 |
| JsNumber.ShowNat | plugins/menu.js:31 | decimal printing: digits only, no leading zero |
| JsNumber.DigitsValueShowNat | plugins/getcmd.js:55 | printed digits read back as the number |
| JsNumber.ParseIntOfDigits | plugins/quiz.js:246-250 | a canonical digit string parses to its value |
| JsNumber.ParseIntShowNat | plugins/quiz.js:246-250 | parsing a printed number gives it back |
| JsNumber.ParseIntExamples | plugins/quiz.js:246-250 | letters, the empty text and a bare `0x` give NaN |
| JsValue.TruthyStr | lib/classes/Message.js:29-36 | a string field counts in a `||` chain exactly when it is non-empty |

## Left out

- Network services are left out: the iTunes search, Spotify, lyrics.ovh, the Gemini API and Google Translate. Their answers are parameters, and the Spotify handler is not modelled at all.
- Media download and transcoding (`lib/utils/media.js`) are left out. A download is a three-way parameter: a buffer, nothing, or a throw.
- Sending, reacting and logging are left out. Replies are values, and `react` calls and logger output are dropped. A failure of a reply itself is not modelled.
- Time and randomness are parameters: `Date.now()`, the `setInterval` that drives the anti-delete sweep, and the `Math.random()` draws for quiz questions and guess numbers.
- The plugin registry and loader (`lib/plugins/loader.js`) are not part of this model. Help's `getCommandByPattern`, menu's `getCommands`, the quiz plugin's presence and `executeCommand` are parameters or outcomes.
- Menu: sections follow the order in which types first appear. JS `Object.entries` would list integer-like type names first; command types here are words.
- JsValue.Lookup: a field name that occurs twice resolves to its first occurrence. `JSON.parse` keeps the last; content from Baileys has no repeated names.
- StickerCommands.StickerHash: `Buffer.from` of a truthy non-byte value (a number or an object) is modelled as an error, not as its JS conversion.
- Translate.QuotedText: a quoted field that is truthy but not a string is treated as absent.
- ViewOnceReveal.ResendOf: `ptt` is forwarded as a boolean.
- AutoResponding: `clearContext` of the auto-responder forwards to Conversations.ConversationManager.ClearContext and has no member of its own. The default personality text is a constant.
- Tag.Execute: the error reply after a failed send (the `catch`) is not modelled. The same goes for the error replies of kick, promote, demote and ban.
- GroupAdmin.Execute: whether `groupParticipantsUpdate` succeeds is a parameter.
- The `unban` command, which the ban reply mentions, is not part of this model.
- JsNumber.ParseInt: the radix argument is not modelled; only the default decimal and `0x` hexadecimal readings are.
- JsString.ToLower: only `A`-`Z` are mapped. JS `toLowerCase` maps every Unicode letter and can change the length (`"İ".toLowerCase()` has two units).
- JsString.ToUpper: only `a`-`z` are mapped. JS `toUpperCase` maps every Unicode letter and can change the length (`"ß"` becomes `"SS"`).
- JsString.Trim: the model's strings are code points, so a lone UTF-16 surrogate cannot occur. The white-space set is that of the ECMAScript standard.
- Music.Truncate: the 2000 limit counts code points. JS `length` and `substring` count UTF-16 code units, so lyrics with characters outside the Basic Multilingual Plane (emoji) are cut later than JS cuts them, and JS can split a surrogate pair.
- Translate.ParseArgs: the two-character language-code test counts code points. JS counts UTF-16 units, so `.translate 😀 hi` takes the emoji as a language code in JS, while the model translates the whole query to `en`. The same holds for Translate.HasCode.
- Messages.New: the body's `||` chain takes only string candidates, so a truthy non-string field (a number, an object) is skipped where JS would take it. This matches JsValue.TruthyStr and Messages.FirstTextIsFirst.
- Messages.Strings: `mentionedJid` keeps only its string entries, and a truthy non-array value gives no mentions. JS keeps the value as it is.
- Messages.ExtensionOf: a mimetype that names an `Object.prototype` property (`"constructor"`, `"toString"`) returns that property in JS. The model gives no extension.
- AutoResponding.InFlightBlocks: the model is sequential. In the source the in-flight set matters only when a second `messages` event enters `handleMessage` while an earlier `generateResponse` is still awaiting the AI. That interleaving is not modelled. Since GenerateResponse restores the set, no call in the model sees an id in flight. The same holds for AutoResponding.InFlightOpen.
- SQLite specifics are left out: a failing query is modelled by the `available` flag of `Persistence.Store`, and Sequelize timestamps by the `now` parameter.
