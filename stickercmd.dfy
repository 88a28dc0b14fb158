/** plugins/stickercmd.js: the `setcmd` command, which binds the sticker a
    reply quotes to a command name.  The binding table is the store's
    `stickerCommands` sequence, kept free of duplicate hashes; its lookup
    helpers are shared by `getcmd` and `delcmd`. */
module StickerCommands {

  import opened Wrappers
  import opened JsValue
  import opened JsString
  import opened Messages
  import opened Persistence

  predicate IsLowerHex(c: char) {
    '0' <= c <= '9' || 'a' <= c <= 'f'
  }

  function HexDigit(d: nat): (c: char)
    requires d < 16
    ensures IsLowerHex(c)
  {
    if d < 10 then ('0' as int + d) as char else ('a' as int + d - 10) as char
  }

  /** The value of a lower-case hexadecimal digit. */
  function HexValue(c: char): (d: nat)
    ensures d < 16
  {
    if '0' <= c <= '9' then c as int - '0' as int
    else if 'a' <= c <= 'f' then c as int - 'a' as int + 10
    else 0
  }

  /** `Buffer.from(bytes).toString("hex")`: two lower-case digits per byte,
      the high nibble first. */
  function Hex(b: seq<bv8>): (r: string)
    ensures |r| == 2 * |b|
    ensures forall i :: 0 <= i < |r| ==> IsLowerHex(r[i])
  {
    if |b| == 0 then ""
    else [HexDigit(b[0] as nat / 16), HexDigit(b[0] as nat % 16)] + Hex(b[1..])
  }

  /** The bytes a lower-case hex string spells, two digits at a time. */
  function Unhex(s: string): seq<bv8>
    decreases |s|
  {
    if |s| < 2 then [] else [ByteOf(HexValue(s[0]), HexValue(s[1]))] + Unhex(s[2..])
  }

  /** The byte with high nibble `hi` and low nibble `lo`. */
  function ByteOf(hi: nat, lo: nat): bv8
    requires hi < 16 && lo < 16
  {
    (hi * 16 + lo) as bv8
  }

  /** Reading the hex text back gives the bytes: the encoding is lossless. */
  lemma {:induction false} UnhexHex(b: seq<bv8>)
    ensures Unhex(Hex(b)) == b
  {
    if |b| > 0 {
      var s := Hex(b);
      assert s[2..] == Hex(b[1..]);
      ByteDigits(b[0]);
      UnhexHex(b[1..]);
    }
  }

  /** One byte's two digits read back as that byte. */
  lemma ByteDigits(x: bv8)
    ensures ByteOf(HexValue(HexDigit(x as nat / 16)), HexValue(HexDigit(x as nat % 16))) == x
  {
    var n := x as nat;
    assert n < 256;
    DigitValue(n / 16);
    DigitValue(n % 16);
    NibblesBack(x);
  }

  /** A byte is rebuilt from its two nibbles. */
  lemma NibblesBack(x: bv8)
    ensures x as nat / 16 < 16 && ByteOf(x as nat / 16, x as nat % 16) == x
  {
  }

  /** A digit reads back as its value. */
  lemma DigitValue(d: nat)
    requires d < 16
    ensures HexValue(HexDigit(d)) == d
  {
  }

  /** Different stickers get different hashes. */
  lemma HexInjective(a: seq<bv8>, b: seq<bv8>)
    requires Hex(a) == Hex(b)
    ensures a == b
  {
    UnhexHex(a);
    UnhexHex(b);
  }

  /** `query.trim().replace(/^[.!/]/, "")`: at most one leading prefix
      character is dropped. */
  function CommandName(query: string): (r: string)
    ensures var t := Trim(query); |t| - 1 <= |r| <= |t| && r == t[|t| - |r|..]
    ensures var t := Trim(query); |r| < |t| <==> |t| > 0 && t[0] in ".!/"
  {
    var t := Trim(query);
    if |t| > 0 && t[0] in ".!/" then t[1..] else t
  }

  /** What `fileSha256` yields: no hash, a byte buffer's hex digest, or a
      value the model does not convert. */
  datatype HashOutcome = NoHash | Hash(hex: string) | Unconverted

  function StickerHash(fileSha256: Json): (r: HashOutcome)
    ensures r == NoHash <==> !Truthy(fileSha256)
    ensures r.Hash? <==> fileSha256.Bytes?
    ensures r.Hash? ==> r.hex == Hex(fileSha256.bytes)
  {
    if !Truthy(fileSha256) then NoHash
    else if fileSha256.Bytes? then Hash(Hex(fileSha256.bytes))
    else Unconverted
  }

  /** The quoted message is a sticker. */
  predicate QuotesSticker(m: Message) {
    m.quoted.Some? && Truthy(Get(m.quoted.value.message, "stickerMessage"))
  }

  /** The quoted sticker's `fileSha256` field. */
  function QuotedFileHash(m: Message): Json {
    if m.quoted.Some? then Get(Get(m.quoted.value.message, "stickerMessage"), "fileSha256") else Undefined
  }

  /** Position of the binding for `h`, if any. */
  function PositionOf(t: seq<StickerBinding>, h: string): (r: Option<nat>)
    ensures r.Some? ==> r.value < |t| && t[r.value].stickerHash == h
    ensures r.Some? ==> forall j :: 0 <= j < r.value ==> t[j].stickerHash != h
    ensures r.None? <==> forall j :: 0 <= j < |t| ==> t[j].stickerHash != h
  {
    if |t| == 0 then None
    else if t[0].stickerHash == h then Some(0)
    else match PositionOf(t[1..], h)
      case None => None
      case Some(i) => Some(i + 1)
  }

  /** `findOne({ where: { stickerHash } })`. */
  function FindBinding(t: seq<StickerBinding>, h: string): (r: Option<StickerBinding>)
    ensures r.Some? ==> r.value in t && r.value.stickerHash == h
    ensures r.None? <==> h !in Hashes(t)
  {
    match PositionOf(t, h)
    case None => None
    case Some(i) => Some(t[i])
  }

  /** `findOrCreate` then `update`: a known hash gets the new command, an
      unknown one a new binding at the end of the table. */
  function Upsert(t: seq<StickerBinding>, h: string, command: string, creator: string, now: int): seq<StickerBinding> {
    match PositionOf(t, h)
    case Some(i) => t[i := t[i].(command := command)]
    case None => t + [StickerBinding(h, command, creator, now)]
  }

  /** The upsert keeps hashes unique, binds `h` to the command, grows the
      table exactly when the hash was unknown, and leaves every other
      binding as it was. */
  lemma UpsertFacts(t: seq<StickerBinding>, h: string, command: string, creator: string, now: int)
    requires UniqueHashes(t)
    ensures var u := Upsert(t, h, command, creator, now);
            && UniqueHashes(u)
            && FindBinding(u, h).Some? && FindBinding(u, h).value.command == command
            && |u| == (if h in Hashes(t) then |t| else |t| + 1)
            && (h !in Hashes(t) ==> FindBinding(u, h).value == StickerBinding(h, command, creator, now))
            && (forall g :: g != h ==> FindBinding(u, g) == FindBinding(t, g))
  {
    match PositionOf(t, h)
    case Some(i) => UpsertKnown(t, h, command, creator, now, i);
    case None => UpsertUnknown(t, h, command, creator, now);
  }

  /** A known hash at position `i`: its command is replaced in place. */
  lemma UpsertKnown(t: seq<StickerBinding>, h: string, command: string, creator: string, now: int, i: nat)
    requires UniqueHashes(t) && PositionOf(t, h) == Some(i)
    ensures var u := Upsert(t, h, command, creator, now);
            && UniqueHashes(u) && |u| == |t| && h in Hashes(t)
            && FindBinding(u, h) == Some(t[i].(command := command))
            && (forall g :: g != h ==> FindBinding(u, g) == FindBinding(t, g))
  {
    var u := t[i := t[i].(command := command)];
    assert Hashes(u) == Hashes(t);
    UniqueFind(u, h, i);
    forall g | g != h ensures FindBinding(u, g) == FindBinding(t, g) {
      FindSkipsUnrelated(t, i, t[i].(command := command), g);
    }
  }

  /** An unknown hash: a new binding at the end. */
  lemma UpsertUnknown(t: seq<StickerBinding>, h: string, command: string, creator: string, now: int)
    requires UniqueHashes(t) && PositionOf(t, h).None?
    ensures var u := Upsert(t, h, command, creator, now);
            && UniqueHashes(u) && |u| == |t| + 1 && h !in Hashes(t)
            && FindBinding(u, h) == Some(StickerBinding(h, command, creator, now))
            && (forall g :: g != h ==> FindBinding(u, g) == FindBinding(t, g))
  {
    var u := t + [StickerBinding(h, command, creator, now)];
    UniqueFind(u, h, |t|);
    forall g | g != h ensures FindBinding(u, g) == FindBinding(t, g) {
      FindPastEnd(t, StickerBinding(h, command, creator, now), g);
    }
  }

  /** In a table with unique hashes the binding found for a hash is the
      one at its position. */
  lemma UniqueFind(t: seq<StickerBinding>, h: string, i: nat)
    requires UniqueHashes(t) && i < |t| && t[i].stickerHash == h
    ensures FindBinding(t, h) == Some(t[i])
  {
    assert Hashes(t)[i] == h;
  }

  /** Replacing a binding by one with the same hash does not change the
      lookup of another hash. */
  lemma FindSkipsUnrelated(t: seq<StickerBinding>, i: nat, b: StickerBinding, g: string)
    requires i < |t| && b.stickerHash == t[i].stickerHash && g != b.stickerHash
    ensures FindBinding(t[i := b], g) == FindBinding(t, g)
  {
    var u := t[i := b];
    assert forall j :: 0 <= j < |t| ==> (u[j].stickerHash == g <==> t[j].stickerHash == g);
    assert Hashes(u) == Hashes(t);
    match PositionOf(t, g)
    case None =>
    case Some(k) =>
      assert PositionOf(u, g) == Some(k) by {
        PositionAgrees(u, t, g);
      }
  }

  /** Two tables whose hashes agree everywhere find a hash at the same place. */
  lemma {:induction false} PositionAgrees(u: seq<StickerBinding>, t: seq<StickerBinding>, g: string)
    requires |u| == |t|
    requires forall j :: 0 <= j < |t| ==> (u[j].stickerHash == g <==> t[j].stickerHash == g)
    ensures PositionOf(u, g) == PositionOf(t, g)
  {
    if |t| > 0 {
      PositionAgrees(u[1..], t[1..], g);
    }
  }

  /** Appending a binding for another hash does not change its lookup. */
  lemma FindPastEnd(t: seq<StickerBinding>, b: StickerBinding, g: string)
    requires g != b.stickerHash
    ensures FindBinding(t + [b], g) == FindBinding(t, g)
  {
    PositionPastEnd(t, b, g);
  }

  lemma {:induction false} PositionPastEnd(t: seq<StickerBinding>, b: StickerBinding, g: string)
    requires g != b.stickerHash
    ensures PositionOf(t + [b], g) == PositionOf(t, g)
  {
    if |t| > 0 {
      assert (t + [b])[1..] == t[1..] + [b];
      PositionPastEnd(t[1..], b, g);
    }
  }

  /** What `setcmd` decided before touching the table. */
  datatype SetCmdAction = NotSticker | NoCommand | NoStickerHash | CannotConvert | Bind(hash: string, name: string)

  /** The guards of `execute(message, query)` in their order. */
  function SetCmdDecision(m: Message, query: string): (r: SetCmdAction)
    ensures r == NotSticker <==> !QuotesSticker(m)
    ensures r == NoCommand <==> QuotesSticker(m) && query == ""
    ensures r.Bind? <==> QuotesSticker(m) && query != "" && QuotedFileHash(m).Bytes?
    ensures r.Bind? ==> r.hash == Hex(QuotedFileHash(m).bytes) && r.name == CommandName(query)
  {
    if !QuotesSticker(m) then NotSticker
    else if query == "" then NoCommand
    else match StickerHash(QuotedFileHash(m))
      case NoHash => NoStickerHash
      case Unconverted => CannotConvert
      case Hash(h) => Bind(h, CommandName(query))
  }

  /** The replies of `setcmd`. */
  datatype SetCmdReply = SetCmdUsage | CommandMissing | Unidentified | Updated(command: string)
                       | Assigned(command: string) | SetCmdFailed

  /** `execute(message, query)` for `setcmd`. */
  method SetCmd(db: Store, m: Message, query: string, now: int) returns (reply: SetCmdReply)
    requires db.Valid()
    modifies db
    ensures db.Valid()
    ensures var a := SetCmdDecision(m, query);
            if a.Bind? && old(db.available) then
              && db.stickerCommands == Upsert(old(db.stickerCommands), a.hash, a.name, m.sender, now)
              && reply == (if a.hash in Hashes(old(db.stickerCommands)) then Updated(a.name) else Assigned(a.name))
            else
              && db.stickerCommands == old(db.stickerCommands)
              && reply == match a
                          case NotSticker => SetCmdUsage
                          case NoCommand => CommandMissing
                          case NoStickerHash => Unidentified
                          case _ => SetCmdFailed
    ensures db.available == old(db.available) && db.conversations == old(db.conversations)
    ensures db.antiDelete == old(db.antiDelete) && db.viewOnce == old(db.viewOnce)
    ensures db.autoResponder == old(db.autoResponder)
  {
    var action := SetCmdDecision(m, query);
    match action
    case NotSticker => reply := SetCmdUsage;
    case NoCommand => reply := CommandMissing;
    case NoStickerHash => reply := Unidentified;
    case CannotConvert => reply := SetCmdFailed;
    case Bind(h, name) =>
      if !db.available {
        reply := SetCmdFailed;
        return;
      }
      var existing := FindBinding(db.stickerCommands, h);
      UpsertFacts(db.stickerCommands, h, name, m.sender, now);
      db.stickerCommands := Upsert(db.stickerCommands, h, name, m.sender, now);
      reply := if existing.Some? then Updated(name) else Assigned(name);
  }
}
