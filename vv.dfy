/** plugins/vv.js: the `vv` command, which re-sends the view-once media a
    reply quotes.  The download is given; reactions are not modelled; the
    default caption is the translated "forwarded" text, a parameter. */
module ViewOnceReveal {

  import opened Wrappers
  import opened JsValue
  import opened Messages
  import opened Outbox

  datatype MediaKind = ImageKind | VideoKind | AudioKind

  /** The outcome of the detection chain: the media and its kind, nothing,
      or the TypeError of reading a property of a missing inner message. */
  datatype Detection = Found(media: Json, kind: MediaKind) | NotFound | DetectThrew

  /** Inside a `viewOnceMessage` wrapper: image, else video, else audio. */
  function DetectInner(wrapper: Json): (r: Detection)
    ensures r.Found? ==> Truthy(r.media)
    ensures r == DetectThrew <==> Get(wrapper, "message") == Undefined || Get(wrapper, "message") == Null
  {
    var inner := Get(wrapper, "message");
    if inner == Undefined || inner == Null then DetectThrew
    else if Truthy(Get(inner, "imageMessage")) then Found(Get(inner, "imageMessage"), ImageKind)
    else if Truthy(Get(inner, "videoMessage")) then Found(Get(inner, "videoMessage"), VideoKind)
    else if Truthy(Get(inner, "audioMessage")) then Found(Get(inner, "audioMessage"), AudioKind)
    else NotFound
  }

  /** A direct media part flagged `viewOnce`. */
  predicate FlaggedViewOnce(q: Json, part: string) {
    Truthy(Get(Get(q, part), "viewOnce"))
  }

  /** The detection chain on the quoted content. */
  function Detect(q: Json): (r: Detection)
    ensures r.Found? ==> Truthy(r.media)
    ensures FlaggedViewOnce(q, "imageMessage") ==> r == Found(Get(q, "imageMessage"), ImageKind)
    ensures !FlaggedViewOnce(q, "imageMessage") && FlaggedViewOnce(q, "videoMessage") ==>
              r == Found(Get(q, "videoMessage"), VideoKind)
    ensures !FlaggedViewOnce(q, "imageMessage") && !FlaggedViewOnce(q, "videoMessage") && FlaggedViewOnce(q, "audioMessage") ==>
              r == Found(Get(q, "audioMessage"), AudioKind)
    ensures !FlaggedViewOnce(q, "imageMessage") && !FlaggedViewOnce(q, "videoMessage") && !FlaggedViewOnce(q, "audioMessage") ==>
              r == if Truthy(Get(q, "viewOnceMessage")) then DetectInner(Get(q, "viewOnceMessage"))
                   else if Truthy(Get(q, "viewOnceMessageV2")) then DetectInner(Get(q, "viewOnceMessageV2"))
                   else NotFound
  {
    if FlaggedViewOnce(q, "imageMessage") then
      assert Get(q, "imageMessage").Obj?;
      Found(Get(q, "imageMessage"), ImageKind)
    else if FlaggedViewOnce(q, "videoMessage") then
      assert Get(q, "videoMessage").Obj?;
      Found(Get(q, "videoMessage"), VideoKind)
    else if FlaggedViewOnce(q, "audioMessage") then
      assert Get(q, "audioMessage").Obj?;
      Found(Get(q, "audioMessage"), AudioKind)
    else if Truthy(Get(q, "viewOnceMessage")) then DetectInner(Get(q, "viewOnceMessage"))
    else if Truthy(Get(q, "viewOnceMessageV2")) then DetectInner(Get(q, "viewOnceMessageV2"))
    else NotFound
  }

  /** A `viewOnceMessage` wrapper with no image, video or audio inside
      ends the search: a `viewOnceMessageV2` beside it is not tried. */
  lemma WrapperShadowsV2(q: Json)
    requires !FlaggedViewOnce(q, "imageMessage") && !FlaggedViewOnce(q, "videoMessage") && !FlaggedViewOnce(q, "audioMessage")
    requires Truthy(Get(q, "viewOnceMessage")) && DetectInner(Get(q, "viewOnceMessage")) == NotFound
    ensures Detect(q) == NotFound
  {
  }

  /** The replies of `vv`. */
  datatype VvReply = ReplyRequired | NoMessage | NotViewOnce | DownloadFailed | VvError | Resent(send: Outgoing)

  /** The send for the detected media: the caption defaults to the
      forwarded text, the audio mimetype to "audio/mp4", `ptt` to false. */
  function ResendOf(jid: string, media: Json, kind: MediaKind, forwarded: string): (r: Outgoing)
    ensures r.to == jid
    ensures kind == ImageKind ==> r.Image? && r.caption == TruthyStr(Get(media, "caption")).GetOr(forwarded)
    ensures kind == VideoKind ==> r.Video? && r.caption == TruthyStr(Get(media, "caption")).GetOr(forwarded)
    ensures kind == AudioKind ==> r.Audio? && r.mimetype == TruthyStr(Get(media, "mimetype")).GetOr("audio/mp4")
    ensures kind == AudioKind && !Truthy(Get(media, "ptt")) ==> !r.ptt
  {
    var caption := TruthyStr(Get(media, "caption")).GetOr(forwarded);
    match kind
    case ImageKind => Image(jid, caption, [])
    case VideoKind => Video(jid, caption, [])
    case AudioKind => Audio(jid, TruthyStr(Get(media, "mimetype")).GetOr("audio/mp4"), Truthy(Get(media, "ptt")))
  }

  /** `execute(message, query)` for `vv`. */
  function Vv(m: Message, download: Download, forwarded: string): (r: VvReply)
    ensures m.quoted.None? ==> r == ReplyRequired
    ensures m.quoted.Some? && !Truthy(m.quoted.value.message) ==> r == NoMessage
    ensures r == NotViewOnce <==> m.quoted.Some? && Truthy(m.quoted.value.message) && Detect(m.quoted.value.message) == NotFound
    ensures r.Resent? <==>
              m.quoted.Some? && Truthy(m.quoted.value.message) && Detect(m.quoted.value.message).Found? && download == Buffer
    ensures r.Resent? ==> var d := Detect(m.quoted.value.message);
                          r.send == ResendOf(m.jid, d.media, d.kind, forwarded)
    ensures r == DownloadFailed <==>
              m.quoted.Some? && Truthy(m.quoted.value.message) && Detect(m.quoted.value.message).Found? && download == NoBuffer
    ensures r == VvError <==>
              m.quoted.Some? && Truthy(m.quoted.value.message)
              && (Detect(m.quoted.value.message) == DetectThrew
                  || (Detect(m.quoted.value.message).Found? && download == DownloadThrew))
  {
    if m.quoted.None? then ReplyRequired
    else if !Truthy(m.quoted.value.message) then NoMessage
    else match Detect(m.quoted.value.message)
      case DetectThrew => VvError
      case NotFound => NotViewOnce
      case Found(media, kind) =>
        match download
        case DownloadThrew => VvError
        case NoBuffer => DownloadFailed
        case Buffer => Resent(ResendOf(m.jid, media, kind, forwarded))
  }

  /** Media flagged directly takes priority over a wrapper: an image with
      `viewOnce` is re-sent as an image whatever else the content holds. */
  lemma DirectImageFirst(m: Message, forwarded: string)
    requires m.quoted.Some? && FlaggedViewOnce(m.quoted.value.message, "imageMessage")
    ensures Vv(m, Buffer, forwarded).Resent? && Vv(m, Buffer, forwarded).send.Image?
  {
    var q := m.quoted.value.message;
    assert Get(q, "imageMessage").Obj?;
    assert q.Obj?;
  }
}
