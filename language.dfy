/** lib/utils/language.js: translations looked up by dot-separated paths
    in a JSON tree, with an English fallback, and `{n}` placeholders
    filled from the arguments.  The language files are given as a map
    from language code to the parsed file (None when it cannot be read or
    parsed); an argument is None when it is undefined. */
module Language {

  import opened Wrappers
  import opened JsValue
  import opened JsString
  import opened JsNumber

  const FallbackLang := "en"

  /** The value at the end of `keys`, or None when some segment is missing
      (a segment is found only as a key of an object). */
  function Resolve(value: Json, keys: seq<string>): Option<Json>
    decreases |keys|
  {
    if |keys| == 0 then Some(value)
    else if value.Obj? && keys[0] in Keys(value) then Resolve(Get(value, keys[0]), keys[1..])
    else None
  }

  /** Paths compose: resolving `a + b` is resolving `b` from where `a` ends. */
  lemma {:induction false} ResolveAppend(value: Json, a: seq<string>, b: seq<string>)
    ensures Resolve(value, a + b) == match Resolve(value, a) case None => None case Some(v) => Resolve(v, b)
    decreases |a|
  {
    if |a| > 0 {
      assert (a + b)[0] == a[0] && (a + b)[1..] == a[1..] + b;
      if value.Obj? && a[0] in Keys(value) {
        ResolveAppend(Get(value, a[0]), a[1..], b);
      }
    } else {
      assert a + b == b;
    }
  }

  /** The loop shared by `getLang`, `getFallback` and `hasKey`: walk the
      segments from the root, stopping at the first missing one. */
  method Walk(root: Json, keys: seq<string>) returns (r: Option<Json>)
    ensures r == Resolve(root, keys)
  {
    var value := root;
    var i := 0;
    while i < |keys|
      invariant 0 <= i <= |keys|
      invariant Resolve(root, keys) == Resolve(value, keys[i..])
    {
      assert keys[i..][0] == keys[i] && keys[i..][1..] == keys[i + 1..];
      if value.Obj? && keys[i] in Keys(value) {
        value := Get(value, keys[i]);
        i := i + 1;
      } else {
        return None;
      }
    }
    return Some(value);
  }

  /** Where a `{digits}` placeholder starts `s`: the number of digits. */
  function PlaceholderAt(s: string): (r: Option<nat>)
    ensures r.Some? ==> 0 < r.value && r.value + 2 <= |s| && s[0] == '{' && s[r.value + 1] == '}'
    ensures r.Some? ==> forall i :: 1 <= i <= r.value ==> IsDecDigit(s[i])
  {
    if |s| == 0 || s[0] != '{' then None
    else
      var k := DigitPrefix(s[1..], 10);
      if k > 0 && k + 1 < |s| && s[k + 1] == '}' then Some(k) else None
  }

  /** The text a placeholder is replaced by: the argument when its index
      is in range and it is defined, else the placeholder itself. */
  function Replacement(digits: string, whole: string, args: seq<Option<string>>): string {
    var i := DigitsValue(digits, 10);
    if i < |args| && args[i].Some? then args[i].value else whole
  }

  /** The global placeholder rewrite, scanning left to right. */
  function Substitute(s: string, args: seq<Option<string>>): string
    decreases |s|
  {
    if |s| == 0 then ""
    else match PlaceholderAt(s)
      case Some(k) => Replacement(s[1..k + 1], s[..k + 2], args) + Substitute(s[k + 2..], args)
      case None => [s[0]] + Substitute(s[1..], args)
  }

  /** `replacePlaceholders(str, args)`: no arguments leave the text as it
      is; otherwise every placeholder is rewritten. */
  function ReplacePlaceholders(str: string, args: seq<Option<string>>): (r: string)
    ensures |args| == 0 ==> r == str
    ensures |args| > 0 ==> r == Substitute(str, args)
  {
    if |args| == 0 then str else Substitute(str, args)
  }

  /** Appending text that starts with neither a digit nor "}" does not
      change whether, or how long, a placeholder starts the text. */
  lemma PlaceholderAtAppend(a: string, t: string)
    requires |a| > 0
    requires |t| == 0 || (!IsDecDigit(t[0]) && t[0] != '}')
    ensures PlaceholderAt(a + t) == PlaceholderAt(a)
  {
    var s := a + t;
    assert s[0] == a[0];
    if a[0] == '{' {
      var k := DigitPrefix(a[1..], 10);
      if k + 1 < |a| {
        assert a[1..] == a[1..k + 1] + a[k + 1..];
        assert s[1..] == a[1..k + 1] + (a[k + 1..] + t);
        DigitPrefixStops(a[1..k + 1], a[k + 1..] + t);
        assert s[k + 1] == a[k + 1];
      } else if |t| > 0 {
        assert a[1..] == a[1..k + 1];
        assert s[1..] == a[1..] + t;
        DigitPrefixStops(a[1..], t);
        assert s[k + 1] == t[0];
      } else {
        assert s == a;
      }
    }
  }

  /** The rewrite splits at a point where no placeholder can cross: the
      text after it is empty or starts with neither a digit nor "}". */
  lemma {:induction false} SubstituteSplit(a: string, t: string, args: seq<Option<string>>)
    requires |t| == 0 || (!IsDecDigit(t[0]) && t[0] != '}')
    ensures Substitute(a + t, args) == Substitute(a, args) + Substitute(t, args)
    decreases |a|
  {
    if |a| == 0 {
      assert a + t == t;
    } else {
      PlaceholderAtAppend(a, t);
      match PlaceholderAt(a)
      case Some(k) =>
        var rest := a[k + 2..];
        var head := Replacement(a[1..k + 1], a[..k + 2], args);
        assert Substitute(a + t, args) == head + Substitute(rest + t, args) by {
          var s := a + t;
          assert s[1..k + 1] == a[1..k + 1] && s[..k + 2] == a[..k + 2];
          assert s[k + 2..] == rest + t;
        }
        SubstituteSplit(rest, t, args);
        AppendAssoc(head, Substitute(rest, args), Substitute(t, args));
      case None =>
        var rest := a[1..];
        assert Substitute(a + t, args) == [a[0]] + Substitute(rest + t, args) by {
          var s := a + t;
          assert s[0] == a[0];
          assert s[1..] == rest + t;
        }
        SubstituteSplit(rest, t, args);
        AppendAssoc([a[0]], Substitute(rest, args), Substitute(t, args));
    }
  }

  /** `{i}` anywhere in a text becomes `args[i]` when that argument exists
      and is defined, and stays `{i}` otherwise (an index at or past the
      end, or an undefined argument); the text around it is rewritten on
      its own, since no placeholder crosses the braces. */
  lemma PlaceholderInText(a: string, i: nat, b: string, args: seq<Option<string>>)
    ensures var p := "{" + ShowNat(i) + "}";
            Substitute(a + p + b, args)
            == Substitute(a, args) + (if i < |args| && args[i].Some? then args[i].value else p) + Substitute(b, args)
  {
    var p := "{" + ShowNat(i) + "}";
    assert a + p + b == a + (p + b);
    assert (p + b)[0] == '{';
    SubstituteSplit(a, p + b, args);
    PlaceholderFirst(i, b, args);
  }

  /** A text that starts with `{i}`: the placeholder is rewritten, then
      the rest. */
  lemma PlaceholderFirst(i: nat, b: string, args: seq<Option<string>>)
    ensures var p := "{" + ShowNat(i) + "}";
            Substitute(p + b, args)
            == (if i < |args| && args[i].Some? then args[i].value else p) + Substitute(b, args)
  {
    var d := ShowNat(i);
    DigitsFirst(d, b, args);
    DigitsValueShowNat(i);
  }

  /** A text that starts with a brace, a digit run and a closing brace. */
  lemma DigitsFirst(d: string, b: string, args: seq<Option<string>>)
    requires |d| > 0 && forall k :: 0 <= k < |d| ==> IsDecDigit(d[k])
    ensures Substitute("{" + d + "}" + b, args) == Replacement(d, "{" + d + "}", args) + Substitute(b, args)
  {
    var p := "{" + d + "}";
    var t := p + b;
    var rest := "}" + b;
    assert t == "{" + (d + rest);
    assert t[1..] == d + rest;
    AllDigitsPrefix(d);
    DigitPrefixStops(d, rest);
    assert t[|d| + 1] == '}';
    assert PlaceholderAt(t) == Some(|d|);
    assert t[1..|d| + 1] == d && t[..|d| + 2] == p && t[|d| + 2..] == b;
  }

  /** With no defined argument, every placeholder stays as written. */
  lemma {:induction false} UndefinedArgsKeepText(s: string, args: seq<Option<string>>)
    requires forall i :: 0 <= i < |args| ==> args[i].None?
    ensures ReplacePlaceholders(s, args) == s
    ensures Substitute(s, args) == s
    decreases |s|
  {
    if |s| > 0 {
      match PlaceholderAt(s)
      case Some(k) =>
        UndefinedArgsKeepText(s[k + 2..], args);
        assert s == s[..k + 2] + s[k + 2..];
      case None =>
        UndefinedArgsKeepText(s[1..], args);
        assert s == [s[0]] + s[1..];
    }
  }

  /** Text without "{" is never changed. */
  lemma {:induction false} NoBraceKeepsText(s: string, args: seq<Option<string>>)
    requires '{' !in s
    ensures Substitute(s, args) == s
    decreases |s|
  {
    if |s| > 0 {
      assert PlaceholderAt(s).None?;
      assert '{' !in s[1..] by {
        forall i | 0 <= i < |s[1..]| ensures s[1..][i] != '{' {
          assert s[1..][i] == s[i + 1];
        }
      }
      NoBraceKeepsText(s[1..], args);
      assert s == [s[0]] + s[1..];
    }
  }

  /** `{i}` alone is replaced by `args[i]` when that is defined. */
  lemma PlaceholderFilled(i: nat, args: seq<Option<string>>)
    requires i < |args| && args[i].Some?
    ensures ReplacePlaceholders("{" + ShowNat(i) + "}", args) == args[i].value
  {
    var d := ShowNat(i);
    var s := "{" + d + "}";
    assert s[1..] == d + "}";
    AllDigitsPrefix(d);
    DigitPrefixStops(d, "}");
    assert PlaceholderAt(s) == Some(|d|);
    assert s[1..|d| + 1] == d;
    DigitsValueShowNat(i);
    assert s[|d| + 2..] == "";
    assert Substitute(s, args) == Replacement(d, s[..|d| + 2], args) + Substitute("", args);
    assert Replacement(d, s[..|d| + 2], args) == args[i].value;
  }

  /** The digit prefix of digits followed by a non-digit ends at the digits. */
  lemma {:induction false} DigitPrefixStops(d: string, rest: string)
    requires forall i :: 0 <= i < |d| ==> IsDecDigit(d[i])
    requires |rest| > 0 && !IsDecDigit(rest[0])
    ensures DigitPrefix(d + rest, 10) == |d|
  {
    if |d| > 0 {
      assert (d + rest)[1..] == d[1..] + rest;
      DigitPrefixStops(d[1..], rest);
    } else {
      assert d + rest == rest;
    }
  }

  /** `getFallback(key, ...args)` given what reading the English file gave. */
  function FallbackResult(fallback: Option<Json>, key: string, args: seq<Option<string>>): string {
    match fallback
    case None => key
    case Some(t) =>
      match Resolve(t, Split(key, '.'))
      case Some(Str(v)) => ReplacePlaceholders(v, args)
      case _ => key
  }

  /** `getLang(key, ...args)`: a missing segment falls back to English
      unless the language already is English; a path ending at anything but
      a string gives the key. */
  function LangResult(translations: Json, currentLang: string, key: string, args: seq<Option<string>>,
                      fallback: Option<Json>): string
  {
    match Resolve(translations, Split(key, '.'))
    case None => if currentLang != FallbackLang then FallbackResult(fallback, key, args) else key
    case Some(v) => if v.Str? then ReplacePlaceholders(v.s, args) else key
  }

  /** A path to a string is translated; a path to a non-string gives the
      key even when English has the entry; in English a missing path gives
      the key. */
  lemma LangCases(translations: Json, currentLang: string, key: string, args: seq<Option<string>>,
                  fallback: Option<Json>)
    ensures Resolve(translations, Split(key, '.')) == Some(Str("")) ==>
              LangResult(translations, currentLang, key, args, fallback) == ReplacePlaceholders("", args)
    ensures Resolve(translations, Split(key, '.')).Some? && !Resolve(translations, Split(key, '.')).value.Str? ==>
              LangResult(translations, currentLang, key, args, fallback) == key
    ensures Resolve(translations, Split(key, '.')).None? && currentLang == FallbackLang ==>
              LangResult(translations, currentLang, key, args, fallback) == key
    ensures Resolve(translations, Split(key, '.')).None? && currentLang != FallbackLang ==>
              LangResult(translations, currentLang, key, args, fallback) == FallbackResult(fallback, key, args)
  {
  }

  /** The fallback gives the key on a read error, a missing path and a
      non-string value. */
  lemma FallbackCases(fallback: Option<Json>, key: string, args: seq<Option<string>>)
    ensures fallback.None? ==> FallbackResult(fallback, key, args) == key
    ensures fallback.Some? && !(Resolve(fallback.value, Split(key, '.')).Some? && Resolve(fallback.value, Split(key, '.')).value.Str?)
            ==> FallbackResult(fallback, key, args) == key
  {
  }

  class LanguageManager {
    var currentLang: string
    var translations: Json

    /** The constructor and `loadLanguage()`: the configured language's
      file when it exists; otherwise English; a file that cannot be read
      or parsed leaves no translations. */
    constructor (lang: string, files: map<string, Option<Json>>)
      ensures lang in files ==> currentLang == lang && translations == files[lang].GetOr(Obj([]))
      ensures lang !in files ==> currentLang == FallbackLang
      ensures lang !in files ==>
                translations == (if FallbackLang in files && files[FallbackLang].Some? then files[FallbackLang].value else Obj([]))
    {
      currentLang := lang;
      if lang in files {
        translations := files[lang].GetOr(Obj([]));
      } else {
        currentLang := FallbackLang;
        translations := if FallbackLang in files && files[FallbackLang].Some? then files[FallbackLang].value else Obj([]);
      }
    }

    /** `getLang(key, ...args)`. */
    method GetLang(key: string, args: seq<Option<string>>, fallback: Option<Json>) returns (r: string)
      ensures r == LangResult(translations, currentLang, key, args, fallback)
    {
      var keys := Split(key, '.');
      var value := Walk(translations, keys);
      if value.None? {
        if currentLang != FallbackLang {
          r := GetFallback(key, args, fallback);
          return;
        }
        return key;
      }
      if !value.value.Str? {
        return key;
      }
      return ReplacePlaceholders(value.value.s, args);
    }

    /** `getFallback(key, ...args)`. */
    method GetFallback(key: string, args: seq<Option<string>>, fallback: Option<Json>) returns (r: string)
      ensures r == FallbackResult(fallback, key, args)
    {
      if fallback.None? {
        return key;
      }
      var value := Walk(fallback.value, Split(key, '.'));
      if value.None? || !value.value.Str? {
        return key;
      }
      return ReplacePlaceholders(value.value.s, args);
    }

    /** `hasKey(key)`: the full path resolves to a string. */
    method HasKey(key: string) returns (b: bool)
      ensures b <==> Resolve(translations, Split(key, '.')).Some? && Resolve(translations, Split(key, '.')).value.Str?
    {
      var value := Walk(translations, Split(key, '.'));
      return value.Some? && value.value.Str?;
    }
  }

  /** A key that `hasKey` accepts is translated from the current file,
      never from the fallback and never as the key itself. */
  lemma HasKeyTranslates(translations: Json, currentLang: string, key: string, args: seq<Option<string>>,
                         fallback: Option<Json>)
    requires Resolve(translations, Split(key, '.')).Some? && Resolve(translations, Split(key, '.')).value.Str?
    ensures LangResult(translations, currentLang, key, args, fallback) ==
              ReplacePlaceholders(Resolve(translations, Split(key, '.')).value.s, args)
  {
  }
}
