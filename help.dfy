/** plugins/help.js: the detailed help card of one command.  The plugin
    registry's `getCommandByPattern` is a lookup given as a parameter. */
module Help {

  import opened Wrappers
  import opened JsString

  /** The descriptor fields the card shows; an empty `desc` stands for a
      missing or empty description. */
  datatype CommandInfo = CommandInfo(pattern: string, cmdType: string, desc: string,
                                     fromMe: bool, onlyGroup: bool, onlyPm: bool)

  const SudoLine := "\n│ *Sudo Only:* Yes"
  const GroupLine := "\n│ *Group Only:* Yes"
  const PmLine := "\n│ *PM Only:* Yes"
  const NoDescription := "No description available"

  /** The place of a flag line in the card. */
  function Rank(line: string): nat {
    if line == SudoLine then 0 else if line == GroupLine then 1 else 2
  }

  /** The flag lines of a descriptor, one per flag that is set. */
  function FlagLines(c: CommandInfo): (r: seq<string>)
    ensures SudoLine in r <==> c.fromMe
    ensures GroupLine in r <==> c.onlyGroup
    ensures PmLine in r <==> c.onlyPm
    ensures forall i, j :: 0 <= i < j < |r| ==> Rank(r[i]) < Rank(r[j])
    ensures forall i :: 0 <= i < |r| ==> r[i] in [SudoLine, GroupLine, PmLine]
  {
    (if c.fromMe then [SudoLine] else []) + (if c.onlyGroup then [GroupLine] else []) + (if c.onlyPm then [PmLine] else [])
  }

  function Concat(lines: seq<string>): string {
    if |lines| == 0 then "" else lines[0] + Concat(lines[1..])
  }

  /** The card's head: the prefixed pattern, the type and the description. */
  function CardHead(prefix: string, c: CommandInfo): string {
    "╭━━━『 *COMMAND HELP* 』━━━\n│\n│ *Command:* " + prefix + c.pattern + "\n│ *Type:* " + c.cmdType
    + "\n│ *Description:* " + (if c.desc != "" then c.desc else NoDescription) + "\n│"
  }

  const CardFoot := "\n│\n╰━━━━━━━━━━━━━━━━━━━"

  datatype HelpReply = HelpUsage | CommandNotFound(name: string) | HelpCard(text: string)

  /** `execute(message, args)`. */
  function Execute(args: string, prefix: string, lookup: string -> Option<CommandInfo>): (r: HelpReply)
    ensures r == HelpUsage <==> Trim(args) == ""
    ensures r.CommandNotFound? <==> Trim(args) != "" && lookup(ToLower(Trim(args))).None?
    ensures r.CommandNotFound? ==> r.name == ToLower(Trim(args))
    ensures r.HelpCard? ==> var c := lookup(ToLower(Trim(args))).value;
                            r.text == CardHead(prefix, c) + Concat(FlagLines(c)) + CardFoot
  {
    if args == "" || Trim(args) == "" then HelpUsage
    else
      var name := ToLower(Trim(args));
      match lookup(name)
      case None => CommandNotFound(name)
      case Some(c) => HelpCard(CardHead(prefix, c) + Concat(FlagLines(c)) + CardFoot)
  }

  /** A descriptor with no flags gets no flag lines; one with every flag
      gets all three, sudo first and PM last. */
  lemma FlagLinesExtremes(c: CommandInfo)
    ensures !c.fromMe && !c.onlyGroup && !c.onlyPm ==> Concat(FlagLines(c)) == ""
    ensures c.fromMe && c.onlyGroup && c.onlyPm ==> Concat(FlagLines(c)) == SudoLine + GroupLine + PmLine
  {
    if c.fromMe && c.onlyGroup && c.onlyPm {
      assert FlagLines(c) == [SudoLine, GroupLine, PmLine];
      var l := FlagLines(c);
      assert l[1..] == [GroupLine, PmLine] && l[1..][1..] == [PmLine];
      assert Concat([PmLine]) == PmLine;
      assert Concat([GroupLine, PmLine]) == GroupLine + PmLine;
    }
  }

  /** The description line falls back to the default text exactly when the
      descriptor has no description. */
  lemma DescriptionDefault(prefix: string, c: CommandInfo)
    ensures c.desc == "" ==> CardHead(prefix, c) == CardHead(prefix, c.(desc := NoDescription))
  {
  }

  /** Case and surrounding white space of the argument do not matter:
      asking again with the normalised name gives the same reply. */
  lemma {:induction false} NormalisedArgsSameReply(args: string, prefix: string, lookup: string -> Option<CommandInfo>)
    ensures Execute(ToLower(Trim(args)), prefix, lookup) == Execute(args, prefix, lookup)
  {
    var t := Trim(args);
    var k := ToLower(t);
    TrimIdempotent(args);
    LowerKeepsSpaces(t);
    ToLowerIdempotent(t);
    assert Trim(k) == k && ToLower(k) == k;
  }

  /** Lower-casing keeps white space where it is, so a trimmed text stays
      trimmed. */
  lemma LowerKeepsSpaces(t: string)
    requires Trim(t) == t
    ensures Trim(ToLower(t)) == ToLower(t)
  {
    var k := ToLower(t);
    if |t| > 0 {
      assert !IsSpace(t[0]) && !IsSpace(t[|t| - 1]);
      LowerCharKeepsSpace(t[0]);
      LowerCharKeepsSpace(t[|t| - 1]);
      assert k[0] == LowerChar(t[0]) && k[|k| - 1] == LowerChar(t[|t| - 1]);
    }
    TrimOfUnpadded(k);
  }

  lemma LowerCharKeepsSpace(c: char)
    ensures IsSpace(LowerChar(c)) <==> IsSpace(c)
  {
  }

  /** A text that neither starts nor ends with white space is its own trim. */
  lemma TrimOfUnpadded(s: string)
    requires s == [] || (!IsSpace(s[0]) && !IsSpace(s[|s| - 1]))
    ensures Trim(s) == s
  {
  }
}
