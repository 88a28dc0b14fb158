/** plugins/delcmd.js: remove the binding of the sticker a reply quotes. */
module DeleteCommand {

  import opened Wrappers
  import opened Messages
  import opened Persistence
  import opened StickerCommands

  /** `destroy({ where: { stickerHash } })`: every binding for `h` goes,
      the others stay in their order. */
  function RemoveHash(t: seq<StickerBinding>, h: string): (r: seq<StickerBinding>)
    ensures |r| <= |t|
  {
    if |t| == 0 then []
    else (if t[0].stickerHash == h then [] else [t[0]]) + RemoveHash(t[1..], h)
  }

  /** With unique hashes exactly one row goes when the hash is bound and
      none otherwise; the table stays unique, the hash is no longer bound
      and every other hash finds what it found before. */
  lemma RemoveFacts(t: seq<StickerBinding>, h: string)
    requires UniqueHashes(t)
    ensures var r := RemoveHash(t, h);
            && UniqueHashes(r)
            && |r| == (if h in Hashes(t) then |t| - 1 else |t|)
            && FindBinding(r, h).None?
            && (forall g :: g != h ==> FindBinding(r, g) == FindBinding(t, g))
  {
    RemoveKeepsUnique(t, h);
    RemoveCount(t, h);
    var r := RemoveHash(t, h);
    RemoveMembers(t, h);
    assert h !in Hashes(r) by {
      forall i | 0 <= i < |r| ensures Hashes(r)[i] != h {
        assert r[i] in r;
      }
    }
    forall g | g != h ensures FindBinding(r, g) == FindBinding(t, g) {
      RemoveKeepsOthers(t, h, g);
    }
  }

  /** What stays: exactly the rows with another hash. */
  lemma {:induction false} RemoveMembers(t: seq<StickerBinding>, h: string)
    ensures forall b :: b in RemoveHash(t, h) <==> b in t && b.stickerHash != h
  {
    if |t| > 0 {
      RemoveMembers(t[1..], h);
      assert t == [t[0]] + t[1..];
    }
  }

  lemma {:induction false} RemoveKeepsUnique(t: seq<StickerBinding>, h: string)
    requires UniqueHashes(t)
    ensures UniqueHashes(RemoveHash(t, h))
  {
    if |t| > 0 {
      var tail := t[1..];
      assert UniqueHashes(tail);
      RemoveKeepsUnique(tail, h);
      if t[0].stickerHash != h {
        var rt := RemoveHash(tail, h);
        RemoveMembers(tail, h);
        forall b | b in rt ensures b.stickerHash != t[0].stickerHash {
          var k :| 0 <= k < |tail| && tail[k] == b;
          assert t[k + 1] == b;
        }
        ConsUnique(t[0], rt);
      }
    }
  }

  /** A row in front of a unique table whose hash it does not share. */
  lemma ConsUnique(b: StickerBinding, t: seq<StickerBinding>)
    requires UniqueHashes(t)
    requires forall x :: x in t ==> x.stickerHash != b.stickerHash
    ensures UniqueHashes([b] + t)
  {
    var r := [b] + t;
    forall i, j | 0 <= i < j < |r| ensures r[i].stickerHash != r[j].stickerHash {
      assert r[j] == t[j - 1];
      if i > 0 {
        assert r[i] == t[i - 1];
      } else {
        assert t[j - 1] in t;
      }
    }
  }

  lemma {:induction false} RemoveCount(t: seq<StickerBinding>, h: string)
    requires UniqueHashes(t)
    ensures |RemoveHash(t, h)| == (if h in Hashes(t) then |t| - 1 else |t|)
  {
    if |t| > 0 {
      var tail := t[1..];
      RemoveCount(tail, h);
      assert Hashes(t) == [t[0].stickerHash] + Hashes(tail);
      if t[0].stickerHash == h {
        assert h !in Hashes(tail) by {
          forall i | 0 <= i < |tail| ensures Hashes(tail)[i] != h {
            assert tail[i] == t[i + 1];
          }
        }
      }
    }
  }

  lemma {:induction false} RemoveKeepsOthers(t: seq<StickerBinding>, h: string, g: string)
    requires g != h
    ensures FindBinding(RemoveHash(t, h), g) == FindBinding(t, g)
  {
    if |t| > 0 {
      var tail := t[1..];
      var rt := RemoveHash(tail, h);
      RemoveKeepsOthers(tail, h, g);
      FindTail(t, g);
      if t[0].stickerHash == h {
        RemoveDropsHead(t, h);
      } else {
        RemoveKeepsHead(t, h);
        FindCons(t[0], rt, g);
      }
    }
  }

  /** A first row with the hash goes. */
  lemma RemoveDropsHead(t: seq<StickerBinding>, h: string)
    requires |t| > 0 && t[0].stickerHash == h
    ensures RemoveHash(t, h) == RemoveHash(t[1..], h)
  {
    assert [] + RemoveHash(t[1..], h) == RemoveHash(t[1..], h);
  }

  /** A first row with another hash stays in front. */
  lemma RemoveKeepsHead(t: seq<StickerBinding>, h: string)
    requires |t| > 0 && t[0].stickerHash != h
    ensures RemoveHash(t, h) == [t[0]] + RemoveHash(t[1..], h)
  {
  }

  /** Lookup in a non-empty table: its first row, or the rest. */
  lemma FindTail(t: seq<StickerBinding>, g: string)
    requires |t| > 0
    ensures FindBinding(t, g) == if t[0].stickerHash == g then Some(t[0]) else FindBinding(t[1..], g)
  {
    assert t == [t[0]] + t[1..];
    FindCons(t[0], t[1..], g);
  }

  /** Lookup in a table with one more row in front. */
  lemma FindCons(b: StickerBinding, t: seq<StickerBinding>, g: string)
    ensures FindBinding([b] + t, g) == if b.stickerHash == g then Some(b) else FindBinding(t, g)
  {
    assert ([b] + t)[1..] == t;
  }

  /** The replies of `delcmd`. */
  datatype DelCmdReply = DelCmdUsage | DelUnidentified | NoneAssigned | Deleted | DelCmdFailed

  /** `execute(message, query)` for `delcmd`. */
  method DelCmd(db: Store, m: Message) returns (reply: DelCmdReply)
    requires db.Valid()
    modifies db
    ensures db.Valid()
    ensures !QuotesSticker(m) ==> reply == DelCmdUsage && db.stickerCommands == old(db.stickerCommands)
    ensures QuotesSticker(m) ==>
              match StickerHash(QuotedFileHash(m))
              case NoHash => reply == DelUnidentified && db.stickerCommands == old(db.stickerCommands)
              case Unconverted => reply == DelCmdFailed && db.stickerCommands == old(db.stickerCommands)
              case Hash(h) =>
                if !old(db.available) then reply == DelCmdFailed && db.stickerCommands == old(db.stickerCommands)
                else
                  && db.stickerCommands == RemoveHash(old(db.stickerCommands), h)
                  && (reply == NoneAssigned <==> h !in Hashes(old(db.stickerCommands)))
                  && (reply == NoneAssigned || reply == Deleted)
    ensures db.available == old(db.available) && db.conversations == old(db.conversations)
    ensures db.antiDelete == old(db.antiDelete) && db.viewOnce == old(db.viewOnce)
    ensures db.autoResponder == old(db.autoResponder)
  {
    if !QuotesSticker(m) {
      return DelCmdUsage;
    }
    match StickerHash(QuotedFileHash(m))
    case NoHash => return DelUnidentified;
    case Unconverted => return DelCmdFailed;
    case Hash(h) =>
      if !db.available {
        return DelCmdFailed;
      }
      RemoveFacts(db.stickerCommands, h);
      var remaining := RemoveHash(db.stickerCommands, h);
      var deleted := |db.stickerCommands| - |remaining|;
      db.stickerCommands := remaining;
      reply := if deleted == 0 then NoneAssigned else Deleted;
  }
}
