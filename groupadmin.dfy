/** plugins/kick.js, plugins/promote.js and plugins/demote.js: the three
    group-admin commands share one guard order and one target rule, and
    differ only in the update they ask for and in their confirmation.  The
    two metadata queries (`isSenderAdmin`, then `isBotAdmin`) are separate
    socket calls; what each returned is a parameter, and so is whether the
    socket accepted the participants update. */
module GroupAdmin {

  import opened Wrappers
  import opened JsValue
  import opened JsString
  import opened Messages

  datatype AdminAction = KickMember | PromoteMember | DemoteMember

  /** The participants update each command performs. */
  function UpdateOf(action: AdminAction, m: Message, target: Json): (r: Option<GroupUpdate>)
    ensures r.None? <==> !m.isGroup
  {
    match action
    case KickMember => Kick(m, target)
    case PromoteMember => Promote(m, target)
    case DemoteMember => Demote(m, target)
  }

  /** The target: the first mention, else the quoted message's sender
      (undefined when the reply names none), else nothing. */
  function TargetOf(m: Message): (r: Option<Json>)
    ensures |m.mentions| > 0 ==> r == Some(Str(m.mentions[0]))
    ensures |m.mentions| == 0 && m.quoted.Some? && m.quoted.value.sender.Some? ==> r == Some(Str(m.quoted.value.sender.value))
    ensures |m.mentions| == 0 && m.quoted.Some? && m.quoted.value.sender.None? ==> r == Some(Undefined)
    ensures r.None? <==> |m.mentions| == 0 && m.quoted.None?
  {
    if |m.mentions| > 0 then Some(Str(m.mentions[0]))
    else if m.quoted.Some? then
      match m.quoted.value.sender
      case Some(s) => Some(Str(s))
      case None => Some(Undefined)
    else None
  }

  /** The past-tense verb of an action. */
  function Verb(action: AdminAction): string {
    match action
    case KickMember => "Kicked"
    case PromoteMember => "Promoted"
    case DemoteMember => "Demoted"
  }

  /** The confirmation for `target`, naming its number (the text before "@"). */
  function Confirmation(action: AdminAction, target: string): (r: string)
    ensures StartsWith(r, "✅ " + Verb(action) + " @" + Before(target, '@'))
    ensures action == KickMember ==> r == "✅ " + Verb(action) + " @" + Before(target, '@')
  {
    var head := "✅ " + Verb(action) + " @" + Before(target, '@');
    var tail := match action
      case KickMember => ""
      case PromoteMember => " to admin"
      case DemoteMember => " to member";
    assert (head + tail)[..|head|] == head;
    assert action == KickMember ==> head + tail == head;
    head + tail
  }

  /** The reply after the update was asked for: the confirmation with the
      target as its only mention, or the failure reply.  An undefined
      target fails when its number is read, even after the socket took
      the update. */
  datatype AfterUpdate = Confirmed(text: string, mentions: seq<string>) | UpdateFailed

  /** The outcome of the command: one of the four refusals, or the update
      sent to the socket and the reply that followed. */
  datatype AdminOutcome =
    | GroupsOnly
    | AdminsOnly
    | BotNotAdmin
    | MentionOrReply
    | Attempted(update: GroupUpdate, reply: AfterUpdate)

  /** `execute(message)` of kick, promote or demote. */
  function Execute(action: AdminAction, m: Message, senderMeta: Option<GroupMetadata>, botMeta: Option<GroupMetadata>,
                   sudo: string, botUserId: string, lib: Baileys, updateOk: bool): (r: AdminOutcome)
    ensures r == GroupsOnly <==> !m.isGroup
    ensures r == AdminsOnly <==> m.isGroup && !IsSenderAdmin(m, senderMeta) && !IsSudo(m, sudo)
    ensures r == BotNotAdmin <==>
              m.isGroup && (IsSenderAdmin(m, senderMeta) || IsSudo(m, sudo)) && !IsBotAdmin(m, botMeta, botUserId, lib)
    ensures r.Attempted? <==>
              && m.isGroup && (IsSenderAdmin(m, senderMeta) || IsSudo(m, sudo)) && IsBotAdmin(m, botMeta, botUserId, lib)
              && TargetOf(m).Some?
    ensures r.Attempted? ==> r.update == UpdateOf(action, m, TargetOf(m).value).value
                             && r.update.jid == m.jid && r.update.jids == [TargetOf(m).value]
    ensures r.Attempted? ==> (r.reply.Confirmed? <==> updateOk && TargetOf(m).value.Str?)
    ensures r.Attempted? && r.reply.Confirmed? ==>
              r.reply.mentions == [TargetOf(m).value.s] && r.reply.text == Confirmation(action, TargetOf(m).value.s)
  {
    if !m.isGroup then GroupsOnly
    else if !IsSenderAdmin(m, senderMeta) && !IsSudo(m, sudo) then AdminsOnly
    else if !IsBotAdmin(m, botMeta, botUserId, lib) then BotNotAdmin
    else match TargetOf(m)
      case None => MentionOrReply
      case Some(target) =>
        var update := UpdateOf(action, m, target).value;
        if updateOk && target.Str? then Attempted(update, Confirmed(Confirmation(action, target.s), [target.s]))
        else Attempted(update, UpdateFailed)
  }

  /** A sudo user passes the admin guard without being a group admin. */
  lemma SudoNeedNotBeAdmin(action: AdminAction, m: Message, senderMeta: Option<GroupMetadata>, botMeta: Option<GroupMetadata>,
                           sudo: string, botUserId: string, lib: Baileys, updateOk: bool)
    requires m.isGroup && IsSudo(m, sudo)
    ensures Execute(action, m, senderMeta, botMeta, sudo, botUserId, lib, updateOk) != AdminsOnly
  {
  }

  /** A mention wins over a quoted reply, and an accepted update on a
      mentioned user is confirmed with that user as the mention. */
  lemma MentionedTargetConfirmed(action: AdminAction, m: Message, senderMeta: Option<GroupMetadata>, botMeta: Option<GroupMetadata>,
                                 sudo: string, botUserId: string, lib: Baileys)
    requires m.isGroup && IsSenderAdmin(m, senderMeta) && IsBotAdmin(m, botMeta, botUserId, lib)
    requires |m.mentions| > 0
    ensures var r := Execute(action, m, senderMeta, botMeta, sudo, botUserId, lib, true);
            r.Attempted? && r.reply == Confirmed(Confirmation(action, m.mentions[0]), [m.mentions[0]])
            && r.update.jids == [Str(m.mentions[0])]
  {
  }

  /** The three commands behave alike up to the update: they refuse in the
      same cases and aim at the same target. */
  lemma SameGuards(a: AdminAction, b: AdminAction, m: Message, senderMeta: Option<GroupMetadata>, botMeta: Option<GroupMetadata>,
                   sudo: string, botUserId: string, lib: Baileys, updateOk: bool)
    ensures var ra := Execute(a, m, senderMeta, botMeta, sudo, botUserId, lib, updateOk);
            var rb := Execute(b, m, senderMeta, botMeta, sudo, botUserId, lib, updateOk);
            (ra.Attempted? <==> rb.Attempted?) && (!ra.Attempted? ==> ra == rb)
            && (ra.Attempted? ==> ra.update.jids == rb.update.jids && ra.update.jid == rb.update.jid)
  {
  }

  /** The target's number named by a kick confirmation is the text before
      the first "@". */
  lemma KickNamesNumber(number: string, server: string)
    requires '@' !in number
    ensures Confirmation(KickMember, number + "@" + server) == "✅ Kicked @" + number
  {
    var t := number + "@" + server;
    assert t[|number|] == '@';
    assert t[..|number|] == number;
    FirstOccurrence(t, '@', |number|);
  }
}
