/** plugins/translate.js: which text is translated into which language.
    The translation service is not modelled; its answer is a parameter of
    the reply text. */
module Translate {

  import opened Wrappers
  import opened JsValue
  import opened JsString
  import opened Messages

  /** What the command asks for: the usage reply, a translation, or the
      TypeError of a quoted message whose first field is missing. */
  datatype TranslateRequest = TranslateUsage | Translation(text: string, target: string) | TranslateThrew

  /** `quotedContent.text || quotedContent.caption || quotedContent.conversation || ""`. */
  function QuotedText(content: Json): (r: string)
    ensures TruthyStr(Get(content, "text")).Some? ==> r == Get(content, "text").s
    ensures TruthyStr(Get(content, "text")).None? && TruthyStr(Get(content, "caption")).Some? ==> r == Get(content, "caption").s
    ensures r == "" <==> TruthyStr(Get(content, "text")).None? && TruthyStr(Get(content, "caption")).None?
                         && TruthyStr(Get(content, "conversation")).None?
  {
    TruthyStr(Get(content, "text")).GetOr(TruthyStr(Get(content, "caption")).GetOr(TruthyStr(Get(content, "conversation")).GetOr("")))
  }

  /** The text and target language before the empty-text check. */
  datatype Parsed = Parsed(text: string, target: string) | ParseThrew

  /** A leading two-character language code followed by a space. */
  predicate HasCode(query: string) {
    |Split(query, ' ')| > 1 && |Split(query, ' ')[0]| == 2
  }

  /** The argument parsing of `execute(message, query)`. */
  function ParseArgs(m: Message, query: string): (r: Parsed)
    ensures m.quoted.Some? && Truthy(m.quoted.value.message) && r.Parsed? ==>
              r.target == (if query != "" then ToLower(query) else "en")
    ensures m.quoted.Some? && Truthy(m.quoted.value.message) ==>
              var q := m.quoted.value.message;
              var content := if |Keys(q)| > 0 then Get(q, Keys(q)[0]) else Undefined;
              && (r == ParseThrew <==> content == Undefined || content == Null)
              && (r.Parsed? ==> r.text == QuotedText(content))
    ensures !(m.quoted.Some? && Truthy(m.quoted.value.message)) ==> r.Parsed?
    ensures !(m.quoted.Some? && Truthy(m.quoted.value.message)) && !HasCode(query) ==> r == Parsed(query, "en")
    ensures !(m.quoted.Some? && Truthy(m.quoted.value.message)) && HasCode(query) ==>
              r == Parsed(After(query, ' '), ToLower(query[..2]))
  {
    if m.quoted.Some? && Truthy(m.quoted.value.message) then
      var q := m.quoted.value.message;
      var keys := Keys(q);
      var content := if |keys| > 0 then Get(q, keys[0]) else Undefined;
      if content == Undefined || content == Null then ParseThrew
      else Parsed(QuotedText(content), if query != "" then ToLower(query) else "en")
    else if query != "" then
      var parts := Split(query, ' ');
      if |parts| > 1 && |parts[0]| == 2 then
        SplitTail(query, ' ');
        assert parts[0] == query[..2] by {
          assert ' ' in query;
        }
        Parsed(Join(parts[1..], " "), ToLower(parts[0]))
      else Parsed(query, "en")
    else
      assert Split("", ' ') == [""];
      Parsed(query, "en")
  }

  /** The code and the text are the two halves of the query around its
      first space: nothing is lost or reordered. */
  lemma CodeAndTextRebuildQuery(m: Message, query: string)
    requires !(m.quoted.Some? && Truthy(m.quoted.value.message)) && HasCode(query)
    ensures var r := ParseArgs(m, query);
            query == query[..2] + " " + r.text && r.target == ToLower(query[..2])
  {
    assert ' ' in query;
    assert query[..2] == Before(query, ' ');
  }

  /** `execute(message, query)` up to the service call. */
  function Request(m: Message, query: string): (r: TranslateRequest)
    ensures r == TranslateUsage <==> ParseArgs(m, query).Parsed? && ParseArgs(m, query).text == ""
    ensures r.Translation? ==> r.text != ""
    ensures !(m.quoted.Some? && Truthy(m.quoted.value.message)) && query == "" ==> r == TranslateUsage
    ensures r == TranslateThrew <==> ParseArgs(m, query).ParseThrew?
    ensures r.Translation? ==> r.text == ParseArgs(m, query).text && r.target == ParseArgs(m, query).target
  {
    match ParseArgs(m, query)
    case ParseThrew => TranslateThrew
    case Parsed(text, target) => if text == "" then TranslateUsage else Translation(text, target)
  }

  /** The reply for a translation the service answered; the detected
      source language defaults to "auto". */
  function ResponseText(text: string, target: string, detected: Option<string>, translated: string): string {
    "🌐 *Translation*\n\n" + "*From:* " + detected.GetOr("auto") + "\n" + "*To:* " + target + "\n\n"
    + "*Original:*\n" + text + "\n\n" + "*Translation:*\n" + translated
  }
}
