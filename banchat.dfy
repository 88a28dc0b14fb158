/** plugins/banchat.js: the in-memory set of chats where the bot has been
    switched off, and the `ban` command that adds to it. */
module BanChat {

  import opened Messages

  datatype BanReply = OwnersOnly | AlreadyDeactivated | Deactivated

  /** The banned set after `ban` from `m`: only a sudo sender adds the
      chat (a chat already banned stays as it is). */
  function AfterBan(banned: set<string>, m: Message, sudo: string): (r: set<string>)
    ensures forall j :: j in r <==> j in banned || (IsSudo(m, sudo) && j == m.jid)
  {
    if !IsSudo(m, sudo) || m.jid in banned then banned else banned + {m.jid}
  }

  /** The reply to `ban` from `m`. */
  function BanReplyFor(banned: set<string>, m: Message, sudo: string): (r: BanReply)
    ensures r == OwnersOnly <==> !IsSudo(m, sudo)
    ensures r == AlreadyDeactivated <==> IsSudo(m, sudo) && m.jid in banned
    ensures r == Deactivated <==> IsSudo(m, sudo) && m.jid !in banned
  {
    if !IsSudo(m, sudo) then OwnersOnly else if m.jid in banned then AlreadyDeactivated else Deactivated
  }

  /** Banning one chat never changes whether another chat is banned, and
      the chat is banned afterwards whenever the sender is sudo. */
  lemma BanIsLocal(banned: set<string>, m: Message, sudo: string, other: string)
    requires other != m.jid
    ensures other in AfterBan(banned, m, sudo) <==> other in banned
    ensures IsSudo(m, sudo) ==> m.jid in AfterBan(banned, m, sudo)
  {
  }

  /** A second `ban` in the same chat changes nothing and says so. */
  lemma BanTwice(banned: set<string>, m: Message, sudo: string)
    requires IsSudo(m, sudo)
    ensures var once := AfterBan(banned, m, sudo);
            AfterBan(once, m, sudo) == once && BanReplyFor(once, m, sudo) == AlreadyDeactivated
  {
  }

  /** The module-level `bannedChats` set. */
  class BanList {
    var banned: set<string>

    constructor()
      ensures banned == {}
    {
      banned := {};
    }

    /** `isBanned(jid)`: set membership. */
    predicate IsBanned(jid: string)
      reads this
    {
      jid in banned
    }

    /** `execute(message, args)` for `ban`. */
    method Ban(m: Message, sudo: string) returns (reply: BanReply)
      modifies this
      ensures banned == AfterBan(old(banned), m, sudo)
      ensures reply == BanReplyFor(old(banned), m, sudo)
      ensures IsSudo(m, sudo) ==> IsBanned(m.jid)
    {
      if !IsSudo(m, sudo) {
        return OwnersOnly;
      }
      if m.jid in banned {
        return AlreadyDeactivated;
      }
      banned := banned + {m.jid};
      return Deactivated;
    }
  }
}
