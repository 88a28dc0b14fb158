/** plugins/menu.js: the command list grouped by type.  `reduce` collects
    the commands of each type into a per-type list; the text is then built
    section by section, command by command.  The registry's `getCommands`
    is the sequence of descriptors given. */
module Menu {

  import opened JsString
  import opened JsNumber
  import opened Help

  /** The distinct types in order of first appearance. */
  function TypesOf(cs: seq<CommandInfo>): seq<string> {
    if |cs| == 0 then []
    else
      var init := TypesOf(cs[..|cs| - 1]);
      if cs[|cs| - 1].cmdType in init then init else init + [cs[|cs| - 1].cmdType]
  }

  /** The commands of type `t`, in their order. */
  function OfType(cs: seq<CommandInfo>, t: string): seq<CommandInfo> {
    if |cs| == 0 then []
    else OfType(cs[..|cs| - 1], t) + (if cs[|cs| - 1].cmdType == t then [cs[|cs| - 1]] else [])
  }

  predicate Distinct(ts: seq<string>) {
    forall i, j :: 0 <= i < j < |ts| ==> ts[i] != ts[j]
  }

  /** A type is listed exactly when some command has it, and only once. */
  lemma {:induction false} TypesOfComplete(cs: seq<CommandInfo>)
    ensures Distinct(TypesOf(cs))
    ensures forall t :: t in TypesOf(cs) <==> exists c :: c in cs && c.cmdType == t
  {
    if |cs| > 0 {
      var init := cs[..|cs| - 1];
      TypesOfComplete(init);
      assert cs == init + [cs[|cs| - 1]];
    }
  }

  /** A group holds exactly the commands of its type. */
  lemma {:induction false} OfTypeMembers(cs: seq<CommandInfo>, t: string)
    ensures forall c :: c in OfType(cs, t) <==> c in cs && c.cmdType == t
    ensures |OfType(cs, t)| <= |cs|
  {
    if |cs| > 0 {
      var init := cs[..|cs| - 1];
      OfTypeMembers(init, t);
      assert cs == init + [cs[|cs| - 1]];
    }
  }

  /** A type no command has gets an empty group. */
  lemma AbsentTypeEmpty(cs: seq<CommandInfo>, t: string)
    requires t !in TypesOf(cs)
    ensures OfType(cs, t) == []
  {
    TypesOfComplete(cs);
    OfTypeMembers(cs, t);
  }

  /** Every command is in the group of its type and in no other. */
  lemma EveryCommandInOneGroup(cs: seq<CommandInfo>, c: CommandInfo, t: string)
    requires c in cs
    ensures c.cmdType in TypesOf(cs) && c in OfType(cs, c.cmdType)
    ensures c in OfType(cs, t) <==> t == c.cmdType
  {
    TypesOfComplete(cs);
    OfTypeMembers(cs, c.cmdType);
    OfTypeMembers(cs, t);
  }

  /** Grouping splits over concatenation, so a group keeps the order of
      the commands it takes. */
  lemma {:induction false} OfTypeAppend(a: seq<CommandInfo>, b: seq<CommandInfo>, t: string)
    ensures OfType(a + b, t) == OfType(a, t) + OfType(b, t)
  {
    if |b| > 0 {
      var init := b[..|b| - 1];
      OfTypeAppend(a, init, t);
      assert (a + b)[..|a + b| - 1] == a + init;
    } else {
      assert a + b == a;
    }
  }

  /** Later commands never reorder the types already seen: the types of a
      prefix are a prefix of the types. */
  lemma {:induction false} TypesOfPrefix(a: seq<CommandInfo>, b: seq<CommandInfo>)
    ensures |TypesOf(a)| <= |TypesOf(a + b)| && TypesOf(a + b)[..|TypesOf(a)|] == TypesOf(a)
  {
    if |b| > 0 {
      var init := b[..|b| - 1];
      TypesOfPrefix(a, init);
      assert (a + b)[..|a + b| - 1] == a + init;
    } else {
      assert a + b == a;
    }
  }

  /** The total size of the groups of `ts`. */
  function GroupSizes(cs: seq<CommandInfo>, ts: seq<string>): nat {
    if |ts| == 0 then 0 else GroupSizes(cs, ts[..|ts| - 1]) + |OfType(cs, ts[|ts| - 1])|
  }

  /** One more command adds one to the group of its type and nothing to
      the others. */
  lemma {:induction false} GroupSizesSnoc(cs: seq<CommandInfo>, c: CommandInfo, ts: seq<string>)
    requires Distinct(ts)
    ensures GroupSizes(cs + [c], ts) == GroupSizes(cs, ts) + (if c.cmdType in ts then 1 else 0)
  {
    if |ts| > 0 {
      var init := ts[..|ts| - 1];
      var t := ts[|ts| - 1];
      assert Distinct(init);
      GroupSizesSnoc(cs, c, init);
      assert (cs + [c])[..|cs + [c]| - 1] == cs;
      assert c.cmdType in ts <==> c.cmdType in init || c.cmdType == t;
      assert c.cmdType == t ==> c.cmdType !in init;
    }
  }

  /** The groups partition the commands: their sizes add up to the count
      the header shows. */
  lemma {:induction false} GroupsPartition(cs: seq<CommandInfo>)
    ensures GroupSizes(cs, TypesOf(cs)) == |cs|
  {
    if |cs| > 0 {
      var init := cs[..|cs| - 1];
      var c := cs[|cs| - 1];
      GroupsPartition(init);
      TypesOfComplete(init);
      assert cs == init + [c];
      GroupSizesSnoc(init, c, TypesOf(init));
      if c.cmdType !in TypesOf(init) {
        var ts := TypesOf(init) + [c.cmdType];
        assert ts[..|ts| - 1] == TypesOf(init);
        AbsentTypeEmpty(init, c.cmdType);
        assert OfType(cs, c.cmdType) == [c];
      }
    }
  }

  /** The `reduce`: the types in first-appearance order and the group of
      each. */
  method Group(cs: seq<CommandInfo>) returns (types: seq<string>, groups: map<string, seq<CommandInfo>>)
    ensures types == TypesOf(cs)
    ensures forall t :: t in groups <==> t in types
    ensures forall t :: t in groups ==> groups[t] == OfType(cs, t)
  {
    types := [];
    groups := map[];
    var i := 0;
    while i < |cs|
      invariant 0 <= i <= |cs|
      invariant types == TypesOf(cs[..i])
      invariant forall t :: t in groups <==> t in types
      invariant forall t :: t in groups ==> groups[t] == OfType(cs[..i], t)
    {
      var c := cs[i];
      assert cs[..i + 1][..i] == cs[..i];
      assert cs[..i + 1][i] == c;
      if c.cmdType !in groups {
        AbsentTypeEmpty(cs[..i], c.cmdType);
        groups := groups[c.cmdType := []];
        types := types + [c.cmdType];
      }
      groups := groups[c.cmdType := groups[c.cmdType] + [c]];
      i := i + 1;
    }
    assert cs[..|cs|] == cs;
  }

  function MenuHeader(version: string, prefix: string, count: nat): string {
    "╭━━━『 *OPEN WHATSAPP BOT* 』━━━\n│\n│ *Version:* " + version + "\n│ *Prefix:* " + prefix
    + "\n│ *Commands:* " + ShowNat(count) + "\n│\n╰━━━━━━━━━━━━━━━━━━━\n\n"
  }

  function SectionHead(t: string): string {
    "╭━━━『 *" + ToUpper(t) + "* 』━━━\n"
  }

  const SectionFoot := "╰━━━━━━━━━━━━━━━━━━━\n\n"

  /** One line per command: the prefix and the pattern. */
  function EntryLine(prefix: string, c: CommandInfo): string {
    "│ *" + prefix + c.pattern + "*\n"
  }

  function Lines(prefix: string, cmds: seq<CommandInfo>): string {
    if |cmds| == 0 then "" else Lines(prefix, cmds[..|cmds| - 1]) + EntryLine(prefix, cmds[|cmds| - 1])
  }

  function Section(prefix: string, t: string, cmds: seq<CommandInfo>): string {
    SectionHead(t) + Lines(prefix, cmds) + SectionFoot
  }

  /** The sections of the types `ts`, in that order. */
  function Sections(prefix: string, cs: seq<CommandInfo>, ts: seq<string>): string {
    if |ts| == 0 then "" else Sections(prefix, cs, ts[..|ts| - 1]) + Section(prefix, ts[|ts| - 1], OfType(cs, ts[|ts| - 1]))
  }

  function MenuFooter(prefix: string): string {
    "_Type " + prefix + "help <command> for detailed help_"
  }

  /** The sections of one more type are those before it and its own. */
  lemma SectionsSnoc(prefix: string, cs: seq<CommandInfo>, ts: seq<string>, i: nat)
    requires i < |ts|
    ensures Sections(prefix, cs, ts[..i + 1]) == Sections(prefix, cs, ts[..i]) + Section(prefix, ts[i], OfType(cs, ts[i]))
  {
    assert ts[..i + 1][..i] == ts[..i];
  }

  /** One section: its head, a line per command, its foot. */
  method AppendSection(text: string, prefix: string, t: string, cmds: seq<CommandInfo>) returns (r: string)
    ensures r == text + Section(prefix, t, cmds)
  {
    r := text + SectionHead(t);
    var j := 0;
    while j < |cmds|
      invariant 0 <= j <= |cmds|
      invariant r == text + SectionHead(t) + Lines(prefix, cmds[..j])
    {
      assert cmds[..j + 1][..j] == cmds[..j];
      r := r + EntryLine(prefix, cmds[j]);
      j := j + 1;
    }
    assert cmds[..|cmds|] == cmds;
    r := r + SectionFoot;
  }

  /** The section of the `i`th type appended to the text of those before. */
  method AppendNextSection(r: string, text: string, prefix: string, cs: seq<CommandInfo>, types: seq<string>,
                           cmds: seq<CommandInfo>, i: nat) returns (r': string)
    requires i < |types| && cmds == OfType(cs, types[i])
    requires r == text + Sections(prefix, cs, types[..i])
    ensures r' == text + Sections(prefix, cs, types[..i + 1])
  {
    SectionsSnoc(prefix, cs, types, i);
    r' := AppendSection(r, prefix, types[i], cmds);
  }

  /** The sections of `types`, one after the other, appended to `text`. */
  method AppendSections(text: string, prefix: string, cs: seq<CommandInfo>, types: seq<string>,
                        groups: map<string, seq<CommandInfo>>) returns (r: string)
    requires forall t :: t in types ==> t in groups && groups[t] == OfType(cs, t)
    ensures r == text + Sections(prefix, cs, types)
  {
    r := text;
    var i := 0;
    while i < |types|
      invariant 0 <= i <= |types|
      invariant r == text + Sections(prefix, cs, types[..i])
    {
      assert types[i] in types;
      r := AppendNextSection(r, text, prefix, cs, types, groups[types[i]], i);
      i := i + 1;
    }
    assert types[..|types|] == types;
  }

  /** `execute(message)`: the header with the command count, one section
      per type in first-appearance order, the footer. */
  method MenuText(version: string, prefix: string, cs: seq<CommandInfo>) returns (text: string)
    ensures text == MenuHeader(version, prefix, |cs|) + Sections(prefix, cs, TypesOf(cs)) + MenuFooter(prefix)
  {
    var types, groups := Group(cs);
    text := AppendSections(MenuHeader(version, prefix, |cs|), prefix, cs, types, groups);
    text := text + MenuFooter(prefix);
  }

  /** The menu lists every command once: the entry lines of all sections
      together are as many as the commands. */
  lemma EntryCount(cs: seq<CommandInfo>)
    ensures GroupSizes(cs, TypesOf(cs)) == |cs|
    ensures forall c :: c in cs ==> c.cmdType in TypesOf(cs) && c in OfType(cs, c.cmdType)
  {
    GroupsPartition(cs);
    forall c | c in cs ensures c.cmdType in TypesOf(cs) && c in OfType(cs, c.cmdType) {
      EveryCommandInOneGroup(cs, c, c.cmdType);
    }
  }
}
