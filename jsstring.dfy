/** The JavaScript string operations the bot relies on: `split` on one
    character, `join`, `trim`, ASCII `toLowerCase`/`toUpperCase`,
    `startsWith`, `endsWith`, `includes` and `replace` of the first
    occurrence. */
module JsString {

  import opened Wrappers

  predicate Contains(s: string, c: char) {
    c in s
  }

  /** Index of the first occurrence of `c` in `s`. */
  function IndexOf(s: string, c: char): (i: nat)
    requires c in s
    ensures i < |s| && s[i] == c && c !in s[..i]
  {
    if s[0] == c then 0 else 1 + IndexOf(s[1..], c)
  }

  /** `s.split(c)[0]`: the text before the first `c` (all of `s` if none). */
  function Before(s: string, c: char): (r: string)
    ensures c !in r
    ensures c in s ==> |r| < |s| && s == r + [c] + s[|r| + 1..]
    ensures c !in s ==> r == s
  {
    if c in s then s[..IndexOf(s, c)] else s
  }

  /** The text after the first `c`; "" when `s` has no `c`. */
  function After(s: string, c: char): string {
    if c in s then s[IndexOf(s, c) + 1..] else ""
  }

  /** The first occurrence is the one with none before it: it fixes the
      text before and after the separator. */
  lemma FirstOccurrence(s: string, c: char, k: nat)
    requires k < |s| && s[k] == c && c !in s[..k]
    ensures c in s && IndexOf(s, c) == k
    ensures Before(s, c) == s[..k] && After(s, c) == s[k + 1..]
  {
  }

  /** `s.split(c)` for a one-character separator: never empty. */
  function Split(s: string, c: char): (r: seq<string>)
    ensures |r| >= 1
    ensures r[0] == Before(s, c)
    decreases |s|
  {
    if c in s then [Before(s, c)] + Split(After(s, c), c) else [s]
  }

  /** `parts.join(sep)`; the empty list joins to "". */
  function Join(parts: seq<string>, sep: string): string {
    if |parts| == 0 then ""
    else if |parts| == 1 then parts[0]
    else parts[0] + sep + Join(parts[1..], sep)
  }

  /** Joining what `split` produced gives back the original string. */
  lemma {:induction false} JoinSplit(s: string, c: char)
    ensures Join(Split(s, c), [c]) == s
    decreases |s|
  {
    if c in s {
      var a := After(s, c);
      JoinSplit(a, c);
      assert Split(s, c) == [Before(s, c)] + Split(a, c);
      assert Split(s, c)[1..] == Split(a, c);
    }
  }

  /** Everything after the first piece of a split, joined back with the
      separator, is the text after the first separator. */
  lemma SplitTail(s: string, c: char)
    ensures Join(Split(s, c)[1..], [c]) == After(s, c)
  {
    if c in s {
      JoinSplit(After(s, c), c);
      assert Split(s, c)[1..] == Split(After(s, c), c);
    }
  }

  /** A split yields more than one piece exactly when the separator occurs. */
  lemma SplitMany(s: string, c: char)
    ensures |Split(s, c)| > 1 <==> c in s
  {
  }

  /** The white space and line terminators `trim` removes: tab, vertical
      tab, form feed, the space separators (category Zs), the byte order
      mark, line feed, carriage return and the two Unicode line and
      paragraph separators. */
  predicate IsSpace(c: char) {
    c == ' ' || c == '\t' || c == '\n' || c == '\r' || c == '\U{0B}' || c == '\U{0C}'
    || c == '\U{A0}' || c == '\U{1680}' || '\U{2000}' <= c <= '\U{200A}' || c == '\U{202F}' || c == '\U{205F}'
    || c == '\U{3000}' || c == '\U{FEFF}' || c == '\U{2028}' || c == '\U{2029}'
  }

  function TrimStart(s: string): (r: string)
    ensures |r| <= |s| && r == s[|s| - |r|..]
    ensures r == [] || !IsSpace(r[0])
    ensures forall i :: 0 <= i < |s| - |r| ==> IsSpace(s[i])
  {
    if |s| > 0 && IsSpace(s[0]) then TrimStart(s[1..]) else s
  }

  function TrimEnd(s: string): (r: string)
    ensures |r| <= |s| && r == s[..|r|]
    ensures r == [] || !IsSpace(r[|r| - 1])
    ensures forall i :: |r| <= i < |s| ==> IsSpace(s[i])
  {
    if |s| > 0 && IsSpace(s[|s| - 1]) then TrimEnd(s[..|s| - 1]) else s
  }

  /** `s` is `r` at index `i` with only white space before and after it. */
  predicate PaddedAt(s: string, r: string, i: int) {
    && 0 <= i <= |s| - |r| && s[i..i + |r|] == r
    && (forall k :: 0 <= k < i ==> IsSpace(s[k]))
    && (forall k :: i + |r| <= k < |s| ==> IsSpace(s[k]))
  }

  /** `s.trim()`: the result sits inside `s` with only white space around it
      and neither starts nor ends with white space. */
  function Trim(s: string): (r: string)
    ensures r == [] || (!IsSpace(r[0]) && !IsSpace(r[|r| - 1]))
    ensures exists i :: PaddedAt(s, r, i)
  {
    var t := TrimStart(s);
    var r := TrimEnd(t);
    var i := |s| - |t|;
    assert PaddedAt(s, r, i);
    r
  }

  function LowerChar(c: char): char {
    if 'A' <= c <= 'Z' then (c as int - 'A' as int + 'a' as int) as char else c
  }

  function UpperChar(c: char): char {
    if 'a' <= c <= 'z' then (c as int - 'a' as int + 'A' as int) as char else c
  }

  /** `s.toLowerCase()` on the ASCII letters. */
  function ToLower(s: string): (r: string)
    ensures |r| == |s|
    ensures forall i :: 0 <= i < |s| ==> r[i] == LowerChar(s[i])
  {
    seq(|s|, i requires 0 <= i < |s| => LowerChar(s[i]))
  }

  /** Lower-casing twice is lower-casing once. */
  lemma ToLowerIdempotent(s: string)
    ensures ToLower(ToLower(s)) == ToLower(s)
  {
  }

  /** `s.toUpperCase()` on the ASCII letters. */
  function ToUpper(s: string): (r: string)
    ensures |r| == |s|
    ensures forall i :: 0 <= i < |s| ==> r[i] == UpperChar(s[i])
  {
    seq(|s|, i requires 0 <= i < |s| => UpperChar(s[i]))
  }

  predicate StartsWith(s: string, p: string) {
    |p| <= |s| && s[..|p|] == p
  }

  predicate EndsWith(s: string, p: string) {
    |p| <= |s| && s[|s| - |p|..] == p
  }

  /** `p` occurs in `s` at index `i`. */
  predicate OccursAt(s: string, p: string, i: int) {
    0 <= i <= |s| - |p| && s[i..i + |p|] == p
  }

  /** `s.includes(p)` for a substring. */
  predicate Includes(s: string, p: string) {
    exists i :: 0 <= i <= |s| - |p| && OccursAt(s, p, i)
  }

  /** Index of the first occurrence of `p` in `s`, at or after `from`. */
  function Find(s: string, p: string, from: nat): (r: Option<nat>)
    requires from <= |s|
    ensures r.Some? ==> from <= r.value && OccursAt(s, p, r.value)
    ensures r.Some? ==> forall j :: from <= j < r.value ==> !OccursAt(s, p, j)
    ensures r.None? ==> forall j :: from <= j ==> !OccursAt(s, p, j)
    decreases |s| - from
  {
    if |s| - from < |p| then None
    else if OccursAt(s, p, from) then Some(from)
    else if from == |s| then None
    else Find(s, p, from + 1)
  }

  /** `s.replace(p, rep)` with a string pattern: only the first occurrence
      is replaced, and nothing changes when `p` does not occur. */
  function ReplaceFirst(s: string, p: string, rep: string): (r: string)
    ensures !Includes(s, p) ==> r == s
    ensures Includes(s, p) ==> exists i :: OccursAt(s, p, i) && (forall j :: 0 <= j < i ==> !OccursAt(s, p, j))
                                           && r == s[..i] + rep + s[i + |p|..]
  {
    match Find(s, p, 0)
    case None => s
    case Some(i) => s[..i] + rep + s[i + |p|..]
  }

  /** `s.split(",").map((x) => x.trim())`. */
  function TrimAll(parts: seq<string>): (r: seq<string>)
    ensures |r| == |parts|
    ensures forall i :: 0 <= i < |parts| ==> r[i] == Trim(parts[i])
  {
    if |parts| == 0 then [] else [Trim(parts[0])] + TrimAll(parts[1..])
  }

  /** A text is among the trimmed parts exactly when one part trims to it. */
  lemma TrimAllMembers(parts: seq<string>, x: string)
    ensures x in TrimAll(parts) <==> exists i :: 0 <= i < |parts| && Trim(parts[i]) == x
  {
    var list := TrimAll(parts);
    if x in list {
      var i :| 0 <= i < |list| && list[i] == x;
      assert 0 <= i < |parts| && Trim(parts[i]) == x;
    }
  }

  /** `.filter(Boolean)` on strings: drops the empty ones, keeps the order. */
  function NonEmpty(parts: seq<string>): (r: seq<string>)
    ensures forall x :: x in r <==> x in parts && x != ""
  {
    if |parts| == 0 then []
    else if parts[0] == "" then NonEmpty(parts[1..])
    else [parts[0]] + NonEmpty(parts[1..])
  }

  /** A comma-separated configuration list: split on ",", trim each entry,
      drop the empty ones. */
  function CommaList(s: string): (r: seq<string>)
    ensures forall x :: x in r <==> x in TrimAll(Split(s, ',')) && x != ""
  {
    NonEmpty(TrimAll(Split(s, ',')))
  }

  /** The empty configuration value lists nothing. */
  lemma CommaListEmpty()
    ensures CommaList("") == []
  {
    assert Split("", ',') == [""];
    assert Trim("") == "";
  }

  /** Every entry of a comma list is non-empty, has no white space at its
      ends and contains no comma. */
  lemma {:induction false} CommaListEntries(s: string, x: string)
    requires x in CommaList(s)
    ensures x != "" && x == Trim(x) && ',' !in x
  {
    var parts := Split(s, ',');
    var trimmed := TrimAll(parts);
    assert x in trimmed && x != "";
    var k :| 0 <= k < |trimmed| && trimmed[k] == x;
    assert x == Trim(parts[k]);
    SplitPiecesHaveNoSeparator(s, ',', k);
    TrimInside(parts[k]);
    TrimIdempotent(parts[k]);
  }

  /** No piece of a split contains the separator. */
  lemma {:induction false} SplitPiecesHaveNoSeparator(s: string, c: char, k: nat)
    requires k < |Split(s, c)|
    ensures c !in Split(s, c)[k]
    decreases |s|
  {
    if c in s && k > 0 {
      SplitPiecesHaveNoSeparator(After(s, c), c, k - 1);
    }
  }

  /** Characters of a trimmed string come from the original. */
  lemma TrimInside(s: string)
    ensures forall ch :: ch in Trim(s) ==> ch in s
  {
    var r := Trim(s);
    var i :| PaddedAt(s, r, i);
    forall ch | ch in r ensures ch in s {
      var j :| 0 <= j < |r| && r[j] == ch;
      assert s[i + j] == ch;
    }
  }

  /** Trimming twice is trimming once. */
  lemma TrimIdempotent(s: string)
    ensures Trim(Trim(s)) == Trim(s)
  {
    var r := Trim(s);
    assert r == [] || !IsSpace(r[0]);
    assert TrimStart(r) == r;
    assert r == [] || !IsSpace(r[|r| - 1]);
    assert TrimEnd(r) == r;
  }

  /** Appending a piece to a text built as `head + before`. */
  lemma AppendAssoc(head: string, before: string, piece: string)
    ensures (head + before) + piece == head + (before + piece)
  {
  }
}
