/** lib/utils/antiDeleteHandler.js: a per-chat cache of recent messages
    from others, an age sweep, and the notice sent when the network reports
    that a cached message was deleted.  Each chat's cache is an
    insertion-ordered map, modelled as a sequence of (message id, record)
    pairs with distinct ids. */
module AntiDelete {

  import opened Wrappers
  import opened JsValue
  import opened JsString
  import opened Messages
  import opened Persistence
  import opened Outbox

  /** At most this many messages are kept per chat. */
  const MaxCacheSize: nat := 100
  /** A cached message older than this (1 hour, in ms) is swept. */
  const MaxCacheAge: int := 60 * 60 * 1000
  /** The sweep runs every 10 minutes (ms); the timer itself is not modelled. */
  const CacheCleanupInterval: int := 10 * 60 * 1000

  datatype CachedMessage = CachedMessage(
    key: Key,
    message: Json,
    sender: string,
    timestamp: int,
    msgType: Option<string>,
    body: string,
    hasMedia: bool)

  type Bucket = seq<(string, CachedMessage)>

  function Ids(b: Bucket): (r: seq<string>)
    ensures |r| == |b|
    ensures forall i :: 0 <= i < |b| ==> r[i] == b[i].0
  {
    if |b| == 0 then [] else [b[0].0] + Ids(b[1..])
  }

  predicate DistinctIds(b: Bucket) {
    forall i, j :: 0 <= i < j < |b| ==> b[i].0 != b[j].0
  }

  /** The record stored under `id`, if any. */
  function Find(b: Bucket, id: string): (r: Option<CachedMessage>)
    ensures r.Some? <==> id in Ids(b)
    ensures r.Some? ==> (id, r.value) in b
  {
    if |b| == 0 then None
    else if b[0].0 == id then Some(b[0].1)
    else Find(b[1..], id)
  }

  /** Position of `id` in the bucket. */
  function PositionOf(b: Bucket, id: string): (k: nat)
    requires id in Ids(b)
    ensures k < |b| && b[k].0 == id
  {
    if b[0].0 == id then 0 else 1 + PositionOf(b[1..], id)
  }

  /** `chatCache.set(id, rec)`: an existing id keeps its place and gets the
      new record; a new id goes last. */
  function Put(b: Bucket, id: string, rec: CachedMessage): Bucket {
    if id in Ids(b) then b[PositionOf(b, id) := (id, rec)] else b + [(id, rec)]
  }

  /** `set` followed by the size check that drops the earliest entry. */
  function Insert(b: Bucket, id: string, rec: CachedMessage): Bucket {
    var p := Put(b, id, rec);
    if |p| > MaxCacheSize then p[1..] else p
  }

  /** The record `cacheMessage` stores for a message received at `now`. */
  function RecordOf(m: Message, now: int): CachedMessage {
    CachedMessage(m.data.key, m.data.message, m.sender, now, m.msgType, m.body, m.hasMedia)
  }

  /** The whole cache after `cacheMessage(m)` at time `now`. */
  function Cached(cache: map<string, Bucket>, m: Message, now: int): map<string, Bucket> {
    if m.fromMe || !Truthy(m.data.message) then cache
    else cache[m.jid := Insert(if m.jid in cache then cache[m.jid] else [], m.id, RecordOf(m, now))]
  }

  /** The invariant every chat's cache keeps. */
  predicate GoodBucket(b: Bucket) {
    0 < |b| <= MaxCacheSize && DistinctIds(b)
  }

  lemma PutFacts(b: Bucket, id: string, rec: CachedMessage)
    requires DistinctIds(b)
    ensures DistinctIds(Put(b, id, rec))
    ensures id in Ids(b) ==> |Put(b, id, rec)| == |b| && Ids(Put(b, id, rec)) == Ids(b)
    ensures id !in Ids(b) ==> Put(b, id, rec) == b + [(id, rec)]
    ensures Find(Put(b, id, rec), id) == Some(rec)
  {
    if id in Ids(b) {
      PutKnown(b, id, rec, PositionOf(b, id));
    } else {
      PutNew(b, id, rec);
    }
  }

  /** Re-caching the id at position `k` overwrites that entry only. */
  lemma PutKnown(b: Bucket, id: string, rec: CachedMessage, k: nat)
    requires DistinctIds(b) && id in Ids(b) && k == PositionOf(b, id)
    ensures Put(b, id, rec) == b[k := (id, rec)]
    ensures DistinctIds(b[k := (id, rec)]) && Ids(b[k := (id, rec)]) == Ids(b)
    ensures Find(b[k := (id, rec)], id) == Some(rec)
  {
    var p := b[k := (id, rec)];
    assert forall i :: 0 <= i < |b| ==> p[i].0 == b[i].0;
    assert Ids(p) == Ids(b);
    FindUnique(p, id, k);
  }

  /** Caching a new id appends it, and it is then distinct from the others. */
  lemma PutNew(b: Bucket, id: string, rec: CachedMessage)
    requires DistinctIds(b) && id !in Ids(b)
    ensures Put(b, id, rec) == b + [(id, rec)]
    ensures DistinctIds(b + [(id, rec)]) && Find(b + [(id, rec)], id) == Some(rec)
  {
    var p := b + [(id, rec)];
    assert forall i :: 0 <= i < |b| ==> b[i].0 != id by {
      forall i | 0 <= i < |b| ensures b[i].0 != id {
        assert Ids(b)[i] == b[i].0;
      }
    }
    FindUnique(p, id, |b|);
  }

  /** In a bucket with distinct ids, the record found for an id is the one
      at its position. */
  lemma {:induction false} FindUnique(b: Bucket, id: string, k: nat)
    requires DistinctIds(b) && k < |b| && b[k].0 == id
    ensures Find(b, id) == Some(b[k].1)
  {
    if k > 0 {
      assert b[0].0 != id;
      assert DistinctIds(b[1..]) by {
        forall i, j | 0 <= i < j < |b[1..]| ensures b[1..][i].0 != b[1..][j].0 {
          assert b[1..][i] == b[i + 1] && b[1..][j] == b[j + 1];
        }
      }
      FindUnique(b[1..], id, k - 1);
    }
  }

  /** After caching, a chat holds at most 100 messages with distinct ids,
      and the message just cached is found with its new record. */
  lemma {:induction false} InsertKeepsBucketGood(b: Bucket, id: string, rec: CachedMessage)
    requires b == [] || GoodBucket(b)
    ensures GoodBucket(Insert(b, id, rec))
    ensures Find(Insert(b, id, rec), id) == Some(rec)
  {
    PutFacts(b, id, rec);
    var p := Put(b, id, rec);
    if |p| > MaxCacheSize {
      DropFirstKeepsLast(p, id, rec);
    } else {
      assert |p| > 0 by { assert Find(p, id).Some?; }
    }
  }

  /** Dropping the earliest entry keeps the ids distinct and the last
      entry findable. */
  lemma DropFirstKeepsLast(p: Bucket, id: string, rec: CachedMessage)
    requires DistinctIds(p) && |p| > 1 && p[|p| - 1] == (id, rec)
    ensures DistinctIds(p[1..]) && Find(p[1..], id) == Some(rec)
  {
    var q := p[1..];
    assert DistinctIds(q) by {
      forall i, j | 0 <= i < j < |q| ensures q[i].0 != q[j].0 {
        assert q[i] == p[i + 1] && q[j] == p[j + 1];
      }
    }
    FindUnique(q, id, |q| - 1);
  }

  /** Inserting a new id into a full chat cache removes exactly the
      earliest-inserted entry. */
  lemma InsertEvictsOldest(b: Bucket, id: string, rec: CachedMessage)
    requires GoodBucket(b) && |b| == MaxCacheSize && id !in Ids(b)
    ensures Insert(b, id, rec) == b[1..] + [(id, rec)]
  {
    PutFacts(b, id, rec);
  }

  /** Caching an id that is already cached replaces its record in place:
      the chat's entry count and id order do not change. */
  lemma ReCacheKeepsCount(b: Bucket, id: string, rec: CachedMessage)
    requires GoodBucket(b) && id in Ids(b)
    ensures |Insert(b, id, rec)| == |b| && Ids(Insert(b, id, rec)) == Ids(b)
    ensures Find(Insert(b, id, rec), id) == Some(rec)
  {
    PutFacts(b, id, rec);
  }

  /** Own messages and messages without content leave the cache as it was;
      any other message lands in its chat's cache and no other chat's
      cache changes. */
  lemma CachedEffect(cache: map<string, Bucket>, m: Message, now: int)
    requires forall c :: c in cache ==> GoodBucket(cache[c])
    ensures m.fromMe || !Truthy(m.data.message) ==> Cached(cache, m, now) == cache
    ensures !m.fromMe && Truthy(m.data.message) ==>
      && m.jid in Cached(cache, m, now)
      && Find(Cached(cache, m, now)[m.jid], m.id) == Some(RecordOf(m, now))
      && forall c :: c != m.jid ==> (c in Cached(cache, m, now) <==> c in cache)
                                    && (c in cache ==> Cached(cache, m, now)[c] == cache[c])
    ensures forall c :: c in Cached(cache, m, now) ==> GoodBucket(Cached(cache, m, now)[c])
  {
    if !m.fromMe && Truthy(m.data.message) {
      InsertKeepsBucketGood(if m.jid in cache then cache[m.jid] else [], m.id, RecordOf(m, now));
    }
  }

  /** A record survives the sweep at `now` unless it is more than an hour old. */
  predicate Keeps(rec: CachedMessage, now: int) {
    !(now - rec.timestamp > MaxCacheAge)
  }

  /** The entries of a chat's cache that survive the sweep, in order. */
  function Survivors(b: Bucket, now: int): (r: Bucket)
    ensures |r| <= |b|
    ensures forall e :: e in r ==> e in b && Keeps(e.1, now)
  {
    if |b| == 0 then []
    else Survivors(b[..|b| - 1], now) + (if Keeps(b[|b| - 1].1, now) then [b[|b| - 1]] else [])
  }

  /** The filter keeps order: the survivors of two runs of records are the
      survivors of the first followed by those of the second, so the
      earliest-inserted survivor stays first. */
  lemma {:induction false} SurvivorsAppend(a: Bucket, b: Bucket, now: int)
    ensures Survivors(a + b, now) == Survivors(a, now) + Survivors(b, now)
    decreases |b|
  {
    if |b| == 0 {
      assert a + b == a;
    } else {
      var ab := a + b;
      var init := b[..|b| - 1];
      var last := b[|b| - 1];
      assert ab[..|ab| - 1] == a + init && ab[|ab| - 1] == last;
      SurvivorsAppend(a, init, now);
      var tail := if Keeps(last.1, now) then [last] else [];
      assert Survivors(ab, now) == Survivors(a + init, now) + tail;
      assert Survivors(b, now) == Survivors(init, now) + tail;
      BucketAssoc(Survivors(a, now), Survivors(init, now), tail);
    }
  }

  lemma BucketAssoc(x: Bucket, y: Bucket, z: Bucket)
    ensures (x + y) + z == x + (y + z)
  {
  }

  /** The sweep keeps the surviving records and drops chats left empty. */
  function Swept(cache: map<string, Bucket>, now: int): map<string, Bucket> {
    map c | c in cache && |Survivors(cache[c], now)| > 0 :: Survivors(cache[c], now)
  }

  /** The survivors are exactly the records of the chat that are not
      expired, and they keep their distinct ids. */
  lemma {:induction false} SurvivorsExact(b: Bucket, now: int)
    requires DistinctIds(b)
    ensures DistinctIds(Survivors(b, now))
    ensures forall e :: e in Survivors(b, now) <==> e in b && Keeps(e.1, now)
    decreases |b|
  {
    if |b| > 0 {
      var init := b[..|b| - 1];
      var last := b[|b| - 1];
      assert DistinctIds(init);
      SurvivorsExact(init, now);
      assert forall e :: e in b <==> e in init || e == last;
      var s := Survivors(init, now);
      forall e | e in s ensures e.0 != last.0 {
        var i :| 0 <= i < |init| && init[i] == e;
        assert b[i] == e;
      }
    }
  }

  /** The sweep removes exactly the records more than an hour old, keeps
      all others, and leaves no chat with an empty cache. */
  lemma SweptExact(cache: map<string, Bucket>, now: int, c: string, e: (string, CachedMessage))
    requires forall c :: c in cache ==> GoodBucket(cache[c])
    ensures c in Swept(cache, now) ==> GoodBucket(Swept(cache, now)[c])
    ensures (c in Swept(cache, now) && e in Swept(cache, now)[c]) <==> (c in cache && e in cache[c] && Keeps(e.1, now))
  {
    if c in cache {
      SurvivorsExact(cache[c], now);
    }
  }

  // ---- handleMessageDelete ----

  /** The deletion update: the key of the chat where it happened and the
      update body carrying the protocol message. */
  datatype DeleteUpdate = DeleteUpdate(key: Key, update: Json)

  /** What `handleMessageDelete` did: whether it reports success, and the
      messages it sent. */
  datatype DeleteResult = DeleteResult(handled: bool, sends: seq<Outgoing>)

  const NotHandled := DeleteResult(false, [])

  /** A SUDO entry as a JID: entries without "@" are phone numbers. */
  function SudoJid(num: string): (r: string)
    ensures '@' in r
    ensures '@' in num ==> r == num
  {
    if '@' in num then num else num + "@s.whatsapp.net"
  }

  /** The first SUDO entry as a JID, if SUDO lists any. */
  function FirstSudo(sudo: string): (r: Option<string>)
    ensures r.Some? <==> CommaList(sudo) != []
  {
    var ns := CommaList(sudo);
    if |ns| > 0 then Some(SudoJid(ns[0])) else None
  }

  /** Whether `jid` is one of the SUDO entries, read as JIDs. */
  predicate IsSudoJid(jid: string, sudo: string) {
    exists n :: n in CommaList(sudo) && jid == SudoJid(n)
  }

  /** Where the notice goes for the configured mode, or None when it must
      not be sent. */
  function Destination(row: AntiDeleteRow, chatId: string, deleter: string, sudo: string): (r: Option<string>)
    ensures row.antiDelMode == "g" ==> r == Some(chatId)
    ensures row.antiDelMode == "p" ==> r == FirstSudo(sudo)
    ensures row.antiDelMode == "sudo" ==> (r.Some? <==> IsSudoJid(deleter, sudo))
    ensures row.antiDelMode == "sudo" && r.Some? ==> r == FirstSudo(sudo)
    ensures row.antiDelMode == "jid" ==> (r.Some? <==> row.antiDelJid.Some? && row.antiDelJid.value != "")
    ensures row.antiDelMode == "jid" && r.Some? ==> r == row.antiDelJid
    ensures row.antiDelMode != "p" && row.antiDelMode != "g" && row.antiDelMode != "sudo" && row.antiDelMode != "jid"
            ==> r.None?
  {
    if row.antiDelMode == "p" then FirstSudo(sudo)
    else if row.antiDelMode == "g" then Some(chatId)
    else if row.antiDelMode == "sudo" then
      if !IsSudoJid(deleter, sudo) then None else FirstSudo(sudo)
    else if row.antiDelMode == "jid" then
      if row.antiDelJid.Some? && row.antiDelJid.value != "" then row.antiDelJid else None
    else None
  }

  /** "Group" exactly for chat ids ending with "@g.us", else "Private". */
  function ChatName(chatId: string): (r: string)
    ensures r == "Group" <==> EndsWith(chatId, "@g.us")
    ensures r == "Group" || r == "Private"
  {
    if EndsWith(chatId, "@g.us") then "Group" else "Private"
  }

  /** The header lines of the notice; the time is rendered by the given
      locale formatter. */
  function HeaderLines(rec: CachedMessage, chatId: string, showTime: int -> string): string {
    "🗑️ *Deleted Message Detected*\n\n"
    + "*From:* @" + Before(rec.sender, '@') + "\n"
    + "*Chat:* " + ChatName(chatId) + "\n"
    + "*Time:* " + showTime(rec.timestamp) + "\n"
  }

  /** The notice text: the header lines, then the original body when it
      is not empty. */
  function Header(rec: CachedMessage, chatId: string, showTime: int -> string): (r: string)
    ensures StartsWith(r, HeaderLines(rec, chatId, showTime))
    ensures rec.body == "" ==> r == HeaderLines(rec, chatId, showTime)
    ensures rec.body != "" ==> EndsWith(r, "\n*Message:*\n" + rec.body)
  {
    var h := HeaderLines(rec, chatId, showTime);
    if rec.body != "" then
      var r := h + ("\n*Message:*\n" + rec.body);
      assert r[..|h|] == h;
      r
    else h
  }

  /** The sends for a recovered media record whose download produced a
      buffer, by message type; an unknown type sends nothing. */
  function MediaSends(rec: CachedMessage, dest: string, header: string): (r: seq<Outgoing>)
    ensures |r| <= 2 && forall o :: o in r ==> o.to == dest
  {
    var mentions := [rec.sender];
    var audio := Get(rec.message, "audioMessage");
    var doc := Get(rec.message, "documentMessage");
    if rec.msgType == Some("imageMessage") then [Image(dest, header, mentions)]
    else if rec.msgType == Some("videoMessage") then [Video(dest, header, mentions)]
    else if rec.msgType == Some("audioMessage") then
      [ Text(dest, header, mentions),
        Audio(dest, TruthyStr(Get(audio, "mimetype")).GetOr("audio/mp4"), Truthy(Get(audio, "ptt"))) ]
    else if rec.msgType == Some("stickerMessage") then [Text(dest, header, mentions), Sticker(dest)]
    else if rec.msgType == Some("documentMessage") then
      [ Document(dest, TruthyStr(Get(doc, "fileName")).GetOr("document"),
                 TruthyStr(Get(doc, "mimetype")).GetOr("application/octet-stream"), header, mentions) ]
    else []
  }

  /** The sends for each media type: image and video carry the header as
      caption; audio and sticker send the header first, then the media;
      audio's mimetype defaults to "audio/mp4" and `ptt` to false, a
      document's file name to "document" and its mimetype to
      "application/octet-stream"; any other type sends nothing.  Every
      header text mentions the original sender. */
  lemma MediaSendsByType(rec: CachedMessage, dest: string, header: string)
    ensures var r := MediaSends(rec, dest, header);
            var who := [rec.sender];
            var audio := Get(rec.message, "audioMessage");
            var doc := Get(rec.message, "documentMessage");
            && (rec.msgType == Some("imageMessage") ==> r == [Image(dest, header, who)])
            && (rec.msgType == Some("videoMessage") ==> r == [Video(dest, header, who)])
            && (rec.msgType == Some("audioMessage") ==>
                  && |r| == 2 && r[0] == Text(dest, header, who) && r[1].Audio? && r[1].to == dest
                  && r[1].mimetype == (if TruthyStr(Get(audio, "mimetype")).Some? then Get(audio, "mimetype").s else "audio/mp4")
                  && (r[1].ptt <==> Truthy(Get(audio, "ptt"))))
            && (rec.msgType == Some("stickerMessage") ==> r == [Text(dest, header, who), Sticker(dest)])
            && (rec.msgType == Some("documentMessage") ==>
                  && |r| == 1 && r[0].Document? && r[0].to == dest && r[0].caption == header && r[0].mentions == who
                  && r[0].fileName == (if TruthyStr(Get(doc, "fileName")).Some? then Get(doc, "fileName").s else "document")
                  && r[0].mimetype == (if TruthyStr(Get(doc, "mimetype")).Some? then Get(doc, "mimetype").s
                                       else "application/octet-stream"))
            && (rec.msgType.None? || rec.msgType.value !in MediaTypes ==> r == [])
  {
  }

  /** The messages sent for a recovered record: text-only records get the
      notice as text; media records get the media (or a text fallback
      saying why it is missing). */
  function NoticeSends(rec: CachedMessage, dest: string, header: string, download: Download): (r: seq<Outgoing>)
    ensures |r| <= 2 && forall o :: o in r ==> o.to == dest
    ensures !rec.hasMedia ==> r == [Text(dest, header, [rec.sender])]
    ensures rec.hasMedia && download == NoBuffer ==>
              r == [Text(dest, header + "\n\n_Media could not be recovered_", [rec.sender])]
    ensures rec.hasMedia && download == DownloadThrew ==>
              r == [Text(dest, header + "\n\n_Media download failed_", [rec.sender])]
    ensures rec.hasMedia && download == Buffer ==> r == MediaSends(rec, dest, header)
  {
    if !rec.hasMedia then [Text(dest, header, [rec.sender])]
    else match download
      case NoBuffer => [Text(dest, header + "\n\n_Media could not be recovered_", [rec.sender])]
      case DownloadThrew => [Text(dest, header + "\n\n_Media download failed_", [rec.sender])]
      case Buffer => MediaSends(rec, dest, header)
  }

  /** The protocol message of a deletion update. */
  function ProtocolMessage(u: DeleteUpdate): Json {
    Get(Get(u.update, "message"), "protocolMessage")
  }

  /** The id of the revoked message: None when the update is not a revoke
      (type 0), when reading the revoked key throws, and when the id is not
      a string (no cache key can equal it). */
  function RevokedId(u: DeleteUpdate): (r: Option<string>)
    ensures r.Some? ==> Get(ProtocolMessage(u), "type") == Num(0)
                        && Get(Get(ProtocolMessage(u), "key"), "id") == Str(r.value)
    ensures Get(ProtocolMessage(u), "type") == Num(0) && Get(Get(ProtocolMessage(u), "key"), "id").Str?
            ==> r.Some?
  {
    var pm := ProtocolMessage(u);
    if Get(pm, "type") != Num(0) then None
    else
      var deletedKey := Get(pm, "key");
      if deletedKey == Undefined || deletedKey == Null then None
      else
        var messageId := Get(deletedKey, "id");
        if messageId.Str? then Some(messageId.s) else None
  }

  /** Who deleted the message: the participant in groups, else the chat. */
  function Deleter(u: DeleteUpdate): string {
    if u.key.participant != "" then u.key.participant else u.key.remoteJid
  }

  /** The feature is on: a settings row, enabled, with a mode other than "null". */
  predicate Active(settings: Option<AntiDeleteRow>) {
    settings.Some? && settings.value.enabled && settings.value.antiDelMode != "null"
  }

  /** `handleMessageDelete(update)` given the settings the settings cache
      returned, the SUDO configuration, what the media download produced
      and the locale time formatter.  It only reads the cache. */
  function HandleDelete(settings: Option<AntiDeleteRow>, u: DeleteUpdate, cache: map<string, Bucket>,
                        sudo: string, download: Download, showTime: int -> string): (r: DeleteResult)
    ensures !Active(settings) || RevokedId(u).None? ==> r == NotHandled
    ensures r.handled <==>
              && Active(settings) && RevokedId(u).Some?
              && u.key.remoteJid in cache && RevokedId(u).value in Ids(cache[u.key.remoteJid])
              && Destination(settings.value, u.key.remoteJid, Deleter(u), sudo).Some?
    ensures !r.handled ==> r.sends == []
    ensures r.handled ==>
              var rec := Find(cache[u.key.remoteJid], RevokedId(u).value).value;
              var dest := Destination(settings.value, u.key.remoteJid, Deleter(u), sudo).value;
              && (RevokedId(u).value, rec) in cache[u.key.remoteJid]
              && r.sends == NoticeSends(rec, dest, Header(rec, u.key.remoteJid, showTime), download)
  {
    if !Active(settings) then NotHandled
    else match RevokedId(u)
      case None => NotHandled
      case Some(id) =>
        var chatId := u.key.remoteJid;
        if chatId !in cache || Find(cache[chatId], id).None? then NotHandled
        else
          var rec := Find(cache[chatId], id).value;
          match Destination(settings.value, chatId, Deleter(u), sudo)
          case None => NotHandled
          case Some(dest) => DeleteResult(true, NoticeSends(rec, dest, Header(rec, chatId, showTime), download))
  }

  /** The example of a text message deleted in its own chat with mode "g":
      exactly one notice, to that chat, mentioning the sender and ending
      with the original text. */
  lemma SameChatExample(row: AntiDeleteRow, u: DeleteUpdate, cache: map<string, Bucket>, sudo: string,
                        download: Download, showTime: int -> string, id: string, rec: CachedMessage)
    requires row.enabled && row.antiDelMode == "g"
    requires Get(ProtocolMessage(u), "type") == Num(0)
    requires Get(Get(ProtocolMessage(u), "key"), "id") == Str(id)
    requires u.key.remoteJid in cache && Find(cache[u.key.remoteJid], id) == Some(rec)
    requires !rec.hasMedia && rec.body != ""
    ensures var r := HandleDelete(Some(row), u, cache, sudo, download, showTime);
            && r.handled && |r.sends| == 1
            && r.sends[0].Text? && r.sends[0].to == u.key.remoteJid
            && r.sends[0].mentions == [rec.sender]
            && StartsWith(r.sends[0].text, HeaderLines(rec, u.key.remoteJid, showTime))
            && EndsWith(r.sends[0].text, "\n*Message:*\n" + rec.body)
  {
    assert RevokedId(u) == Some(id);
    assert Active(Some(row));
    assert id in Ids(cache[u.key.remoteJid]);
    assert Destination(row, u.key.remoteJid, Deleter(u), sudo) == Some(u.key.remoteJid);
    var h := Header(rec, u.key.remoteJid, showTime);
    assert HandleDelete(Some(row), u, cache, sudo, download, showTime).sends == [Text(u.key.remoteJid, h, [rec.sender])];
  }

  /** A cache holding, for every chat of `start`, exactly its non-empty
      survivors is the swept cache, and it keeps the cache invariant. */
  lemma SweptFromParts(start: map<string, Bucket>, m: map<string, Bucket>, now: int)
    requires forall c :: c in start ==> GoodBucket(start[c])
    requires m.Keys <= start.Keys
    requires forall c :: c in start ==>
               (c in m <==> |Survivors(start[c], now)| > 0)
               && (c in m ==> m[c] == Survivors(start[c], now))
    ensures m == Swept(start, now)
    ensures forall c :: c in m ==> GoodBucket(m[c])
  {
    assert m.Keys == Swept(start, now).Keys;
    forall c | c in m ensures GoodBucket(m[c]) {
      SurvivorsExact(start[c], now);
    }
  }

  /** Part way through the sweep: the chats in `remaining` are as they
      were, every other chat of `start` holds its non-empty survivors. */
  predicate SweepProgress(start: map<string, Bucket>, cache: map<string, Bucket>, remaining: set<string>, now: int) {
    && remaining <= start.Keys
    && cache.Keys <= start.Keys
    && (forall c :: c in remaining ==> c in cache && cache[c] == start[c])
    && (forall c :: c in start && c !in remaining ==>
          (c in cache <==> |Survivors(start[c], now)| > 0)
          && (c in cache ==> cache[c] == Survivors(start[c], now)))
  }

  /** Sweeping one more chat keeps the sweep's progress. */
  lemma SweepStep(start: map<string, Bucket>, cache: map<string, Bucket>, remaining: set<string>, chatId: string, now: int)
    requires SweepProgress(start, cache, remaining, now) && chatId in remaining
    ensures var kept := Survivors(cache[chatId], now);
            SweepProgress(start, if |kept| == 0 then cache - {chatId} else cache[chatId := kept], remaining - {chatId}, now)
  {
  }

  /** The inner loop of the sweep over one chat's cache: the entries that
      are not expired, in their original order. */
  method SweepChat(chatCache: Bucket, now: int) returns (kept: Bucket)
    ensures kept == Survivors(chatCache, now)
  {
    kept := [];
    var i := 0;
    while i < |chatCache|
      invariant 0 <= i <= |chatCache|
      invariant kept == Survivors(chatCache[..i], now)
    {
      assert chatCache[..i + 1][..i] == chatCache[..i];
      if !(now - chatCache[i].1.timestamp > MaxCacheAge) {
        kept := kept + [chatCache[i]];
      }
      i := i + 1;
    }
    assert chatCache[..i] == chatCache;
  }

  class AntiDeleteHandler {
    /** chat id -> that chat's insertion-ordered cache */
    var messageCache: map<string, Bucket>

    ghost predicate Valid()
      reads this
    {
      forall c :: c in messageCache ==> GoodBucket(messageCache[c])
    }

    constructor ()
      ensures Valid() && messageCache == map[]
    {
      messageCache := map[];
    }

    /** `cacheMessage(message)` for a message received at time `now`. */
    method CacheMessage(m: Message, now: int)
      requires Valid()
      modifies this
      ensures Valid()
      ensures messageCache == Cached(old(messageCache), m, now)
    {
      CachedEffect(messageCache, m, now);
      if m.fromMe || !Truthy(m.data.message) {
        return;
      }
      var chatId := m.jid;
      if chatId !in messageCache {
        messageCache := messageCache[chatId := []];
      }
      var chatCache := Put(messageCache[chatId], m.id, RecordOf(m, now));
      if |chatCache| > MaxCacheSize {
        chatCache := chatCache[1..];
      }
      messageCache := messageCache[chatId := chatCache];
    }

    /** One run of the periodic sweep at time `now`. */
    method SweepExpired(now: int)
      requires Valid()
      modifies this
      ensures Valid()
      ensures messageCache == Swept(old(messageCache), now)
    {
      ghost var start := messageCache;
      var remaining := messageCache.Keys;
      while remaining != {}
        invariant SweepProgress(start, messageCache, remaining, now)
        decreases remaining
      {
        var chatId :| chatId in remaining;
        var kept := SweepChat(messageCache[chatId], now);
        SweepStep(start, messageCache, remaining, chatId, now);
        if |kept| == 0 {
          messageCache := messageCache - {chatId};
        } else {
          messageCache := messageCache[chatId := kept];
        }
        remaining := remaining - {chatId};
      }
      SweptFromParts(start, messageCache, now);
    }

    /** `handleMessageDelete(update)`: reads the cache, never changes it. */
    method HandleMessageDelete(settings: Option<AntiDeleteRow>, u: DeleteUpdate, sudo: string,
                               download: Download, showTime: int -> string)
        returns (handled: bool, sends: seq<Outgoing>)
      ensures DeleteResult(handled, sends) == HandleDelete(settings, u, messageCache, sudo, download, showTime)
    {
      var r := HandleDelete(settings, u, messageCache, sudo, download, showTime);
      handled, sends := r.handled, r.sends;
    }
  }
}
