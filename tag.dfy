/** plugins/tag.js: mention every participant of the group.  It shares the
    group and admin guards of the group-admin commands but has no bot-admin
    check; the metadata it lists is its own socket query, a parameter. */
module Tag {

  import opened Wrappers
  import opened Messages
  import opened Outbox

  /** `metadata.participants.map(p => p.id)`. */
  function Ids(ps: seq<Participant>): (r: seq<string>)
    ensures |r| == |ps|
    ensures forall i :: 0 <= i < |ps| ==> r[i] == ps[i].id
  {
    if |ps| == 0 then [] else [ps[0].id] + Ids(ps[1..])
  }

  const DefaultTagText := "📢 *Group Tag*"

  datatype TagOutcome = TagGroupsOnly | TagAdminsOnly | NoGroupInfo | Tagged(send: Outgoing)

  /** `execute(message, text)`: `senderMeta` is what the admin check read,
      `tagMeta` what the listing read. */
  function Execute(m: Message, text: string, senderMeta: Option<GroupMetadata>, tagMeta: Option<GroupMetadata>,
                   sudo: string): (r: TagOutcome)
    ensures r == TagGroupsOnly <==> !m.isGroup
    ensures r == TagAdminsOnly <==> m.isGroup && !IsSenderAdmin(m, senderMeta) && !IsSudo(m, sudo)
    ensures r == NoGroupInfo <==> m.isGroup && (IsSenderAdmin(m, senderMeta) || IsSudo(m, sudo)) && tagMeta.None?
    ensures r.Tagged? ==> && r.send.Text? && r.send.to == m.jid
                          && r.send.mentions == Ids(tagMeta.value.participants)
                          && r.send.text == (if text != "" then text else DefaultTagText) + "\n\n"
  {
    if !m.isGroup then TagGroupsOnly
    else if !IsSenderAdmin(m, senderMeta) && !IsSudo(m, sudo) then TagAdminsOnly
    else match GetGroupMetadata(m, tagMeta)
      case None => NoGroupInfo
      case Some(meta) =>
        Tagged(Text(m.jid, (if text != "" then text else DefaultTagText) + "\n\n", Ids(meta.participants)))
  }

  /** Everyone in the group is mentioned, and no one else. */
  lemma {:induction false} MentionsExactlyParticipants(ps: seq<Participant>, id: string)
    ensures id in Ids(ps) <==> exists p :: p in ps && p.id == id
  {
    if |ps| > 0 {
      MentionsExactlyParticipants(ps[1..], id);
      assert ps == [ps[0]] + ps[1..];
    }
  }

  /** A guarded sudo user tags even without being a group admin or
      without the bot being an admin. */
  lemma SudoTagsWithoutAdmin(m: Message, text: string, senderMeta: Option<GroupMetadata>, meta: GroupMetadata, sudo: string)
    requires m.isGroup && IsSudo(m, sudo)
    ensures Execute(m, text, senderMeta, Some(meta), sudo).Tagged?
  {
  }
}
