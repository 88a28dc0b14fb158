/** plugins/getcmd.js: show the command bound to a quoted sticker, or list
    every binding, newest first.  It only reads the binding table. */
module GetCommand {

  import opened Wrappers
  import opened JsString
  import opened JsNumber
  import opened Messages
  import opened Persistence
  import opened StickerCommands

  /** Newest first by `createdAt`. */
  predicate NewestFirst(s: seq<StickerBinding>) {
    forall i, j :: 0 <= i < j < |s| ==> s[i].createdAt >= s[j].createdAt
  }

  /** Place `x` in a newest-first sequence before the first older binding. */
  function InsertByAge(x: StickerBinding, s: seq<StickerBinding>): (r: seq<StickerBinding>)
    requires NewestFirst(s)
    ensures NewestFirst(r)
    ensures multiset(r) == multiset(s) + multiset{x}
    ensures |r| == |s| + 1
    ensures r[0] == x || (|s| > 0 && r[0] == s[0])
  {
    if |s| == 0 || x.createdAt >= s[0].createdAt then [x] + s
    else
      assert s == [s[0]] + s[1..];
      [s[0]] + InsertByAge(x, s[1..])
  }

  /** `findAll({ order: [["createdAt", "DESC"]] })`: the bindings, newest
      first (bindings of the same age in table order). */
  function SortNewest(t: seq<StickerBinding>): (r: seq<StickerBinding>)
    ensures NewestFirst(r)
    ensures multiset(r) == multiset(t)
    ensures |r| == |t|
  {
    if |t| == 0 then [] else
      assert t == [t[0]] + t[1..];
      InsertByAge(t[0], SortNewest(t[1..]))
  }

  /** `substring(0, 16)`. */
  function Prefix16(h: string): (r: string)
    ensures |h| >= 16 ==> |r| == 16 && r == h[..16]
    ensures |h| < 16 ==> r == h
  {
    if |h| <= 16 then h else h[..16]
  }

  /** The lines of entry `n`: its number, command and hash prefix. */
  function EntryText(n: nat, b: StickerBinding): string {
    ShowNat(n) + ". `" + b.command + "`\n" + "   Hash: `" + Prefix16(b.stickerHash) + "...`\n\n"
  }

  function ListHeader(n: nat): string {
    "📋 *Commandes de Stickers* (" + ShowNat(n) + ")\n\n"
  }

  const ListFooter := "_Répondez à un sticker avec `.getcmd` pour voir sa commande_"

  /** The entries in table order, the last one numbered `|rows|`. */
  function Entries(rows: seq<StickerBinding>): string {
    if |rows| == 0 then "" else Entries(rows[..|rows| - 1]) + EntryText(|rows|, rows[|rows| - 1])
  }

  /** The entries numbered from `k`: the first row gets `k`, the next `k + 1`. */
  function EntriesFrom(rows: seq<StickerBinding>, k: nat): string
    decreases |rows|
  {
    if |rows| == 0 then "" else EntryText(k, rows[0]) + EntriesFrom(rows[1..], k + 1)
  }

  lemma {:induction false} EntriesFromSnoc(rows: seq<StickerBinding>, x: StickerBinding, k: nat)
    ensures EntriesFrom(rows + [x], k) == EntriesFrom(rows, k) + EntryText(k + |rows|, x)
    decreases |rows|
  {
    if |rows| == 0 {
      assert rows + [x] == [x];
    } else {
      assert (rows + [x])[1..] == rows[1..] + [x];
      EntriesFromSnoc(rows[1..], x, k + 1);
    }
  }

  /** Entries are numbered 1..n in row order: the first row is entry 1. */
  lemma {:induction false} EntriesNumberedFromOne(rows: seq<StickerBinding>)
    ensures Entries(rows) == EntriesFrom(rows, 1)
  {
    if |rows| > 0 {
      var init := rows[..|rows| - 1];
      EntriesNumberedFromOne(init);
      assert rows == init + [rows[|rows| - 1]];
      EntriesFromSnoc(init, rows[|rows| - 1], 1);
    }
  }

  /** The listing loop: header with the count, one entry per row, the note. */
  method Listing(rows: seq<StickerBinding>) returns (text: string)
    ensures text == ListHeader(|rows|) + EntriesFrom(rows, 1) + ListFooter
  {
    var head := ListHeader(|rows|);
    text := head;
    var i := 0;
    while i < |rows|
      invariant 0 <= i <= |rows|
      invariant text == head + Entries(rows[..i])
    {
      text := AppendEntry(text, head, rows, i);
      i := i + 1;
    }
    assert rows[..|rows|] == rows;
    EntriesNumberedFromOne(rows);
    text := text + ListFooter;
  }

  /** The entry of row `i` appended to the listing of the rows before. */
  method AppendEntry(text: string, head: string, rows: seq<StickerBinding>, i: nat) returns (r: string)
    requires i < |rows| && text == head + Entries(rows[..i])
    ensures r == head + Entries(rows[..i + 1])
  {
    var piece := EntryText(i + 1, rows[i]);
    EntriesSnoc(rows, i);
    AppendAssoc(head, Entries(rows[..i]), piece);
    r := text + piece;
  }

  /** The entries of one more row are those before and its own. */
  lemma EntriesSnoc(rows: seq<StickerBinding>, i: nat)
    requires i < |rows|
    ensures Entries(rows[..i + 1]) == Entries(rows[..i]) + EntryText(i + 1, rows[i])
  {
    assert rows[..i + 1][..i] == rows[..i];
  }

  /** The replies of `getcmd`. */
  datatype GetCmdReply = GetUnidentified | NotBound | BoundTo(command: string) | NoneConfigured
                       | CommandList(text: string) | GetCmdFailed

  /** `execute(message, query)` for `getcmd`; the store is only read. */
  method GetCmd(db: Store, m: Message) returns (reply: GetCmdReply)
    ensures QuotesSticker(m) ==>
              match StickerHash(QuotedFileHash(m))
              case NoHash => reply == GetUnidentified
              case Unconverted => reply == GetCmdFailed
              case Hash(h) =>
                if !db.available then reply == GetCmdFailed
                else if h in Hashes(db.stickerCommands) then reply == BoundTo(FindBinding(db.stickerCommands, h).value.command)
                else reply == NotBound
    ensures !QuotesSticker(m) && !db.available ==> reply == GetCmdFailed
    ensures !QuotesSticker(m) && db.available ==>
              (reply == NoneConfigured <==> db.stickerCommands == [])
    ensures !QuotesSticker(m) && db.available && db.stickerCommands != [] ==>
              reply == CommandList(ListHeader(|db.stickerCommands|) + EntriesFrom(SortNewest(db.stickerCommands), 1) + ListFooter)
  {
    if QuotesSticker(m) {
      match StickerHash(QuotedFileHash(m))
      case NoHash => return GetUnidentified;
      case Unconverted => return GetCmdFailed;
      case Hash(h) =>
        if !db.available {
          return GetCmdFailed;
        }
        var found := FindBinding(db.stickerCommands, h);
        if found.None? {
          return NotBound;
        }
        return BoundTo(found.value.command);
    }
    if !db.available {
      return GetCmdFailed;
    }
    var rows := SortNewest(db.stickerCommands);
    if |rows| == 0 {
      return NoneConfigured;
    }
    var text := Listing(rows);
    return CommandList(text);
  }

  /** After `setcmd` binds a sticker, `getcmd` on it shows that command. */
  lemma SetThenGet(t: seq<StickerBinding>, h: string, command: string, creator: string, now: int)
    requires UniqueHashes(t)
    ensures var u := Upsert(t, h, command, creator, now);
            h in Hashes(u) && FindBinding(u, h).value.command == command
  {
    UpsertFacts(t, h, command, creator, now);
  }
}
