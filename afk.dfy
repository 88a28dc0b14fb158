/** plugins/afk.js: the owner's away-from-keyboard flag, its automatic
    reply when the owner is mentioned or replied to, and the return notice.
    The clock is a parameter in milliseconds; the bot's own JID is given. */
module Afk {

  import opened Wrappers
  import opened JsString
  import opened JsNumber
  import opened Messages

  /** JavaScript `%` for a positive divisor: truncates toward zero, so the
      remainder has the sign of the dividend. */
  function JsRem(a: int, b: int): (r: int)
    requires b > 0
    ensures a >= 0 ==> 0 <= r < b && r == a % b
    ensures a < 0 ==> -b < r <= 0
  {
    if a >= 0 then a % b else -((-a) % b)
  }

  /** `Math.round(ms / 1000)` for a non-negative clock reading. */
  function RoundSeconds(ms: nat): (s: nat)
    ensures 1000 * s - 500 <= ms < 1000 * s + 500
  {
    (ms + 500) / 1000
  }

  /** The hours, minutes and seconds `secondsToHms` computes with
      `Math.floor` and JavaScript `%`. */
  function HmsParts(d: int): (r: (int, int, int))
    ensures d >= 0 ==> 3600 * r.0 + 60 * r.1 + r.2 == d && 0 <= r.1 < 60 && 0 <= r.2 < 60 && r.0 >= 0
    ensures d < 0 ==> r.0 < 0 && r.1 <= 0 && r.2 <= 0
  {
    var rem := JsRem(d, 3600);
    (d / 3600, rem / 60, JsRem(rem, 60))
  }

  /** One component: omitted at zero or below, singular unit at one. */
  function Unit(n: int, one: string, many: string, sep: string): (r: string)
    ensures n <= 0 <==> r == ""
    ensures n == 1 ==> r == "1 " + one + sep
  {
    if n > 0 then ShowNat(n) + " " + (if n == 1 then one else many) + sep else ""
  }

  /** `secondsToHms(d)`. */
  function SecondsToHms(d: int): (r: string)
    ensures r == "" <==> d <= 0
  {
    var p := HmsParts(d);
    Unit(p.0, "hour", "hours", ", ") + Unit(p.1, "minute", "minutes", ", ") + Unit(p.2, "second", "seconds", "")
  }

  /** The rendering omits zero components and uses singular units at one. */
  lemma HmsExamples()
    ensures SecondsToHms(1) == "1 second"
    ensures SecondsToHms(60) == "1 minute, "
    ensures SecondsToHms(3661) == "1 hour, 1 minute, 1 second"
    ensures SecondsToHms(-5) == ""
  {
    HmsOneSecond();
    HmsOneMinute();
    HmsOneOfEach();
  }

  lemma HmsOneSecond()
    ensures SecondsToHms(1) == "1 second"
  {
    assert HmsParts(1) == (0, 0, 1);
  }

  lemma HmsOneMinute()
    ensures SecondsToHms(60) == "1 minute, "
  {
    assert HmsParts(60) == (0, 1, 0);
  }

  lemma HmsOneOfEach()
    ensures SecondsToHms(3661) == "1 hour, 1 minute, 1 second"
  {
    assert HmsParts(3661) == (1, 1, 1);
  }

  /** Under an hour nothing names hours; under a minute only seconds show. */
  lemma HmsShortSpans(d: int)
    requires 0 <= d < 60
    ensures SecondsToHms(d) == Unit(d, "second", "seconds", "")
  {
    assert HmsParts(d) == (0, 0, d);
  }

  const AlreadyAfkText := "*You're already AFK!*"
  const BackText := "*I'm back now!*"
  const AwayHeader := "*Owner is currently AFK*\n"

  /** The confirmation `execute` sends after setting the flag. */
  function NowAfkText(reason: Option<string>): (r: string)
    ensures StartsWith(r, "*You're now AFK*")
    ensures reason.None? ==> r == "*You're now AFK*"
  {
    match reason
    case Some(t) => "*You're now AFK*\n*Reason:* " + t
    case None => "*You're now AFK*"
  }

  /** The reason line of the automatic reply: present only with a reason. */
  function ReasonLine(reason: Option<string>): (r: string)
    ensures r == "" <==> reason.None?
    ensures reason.Some? ==> r == "\n*Reason:* " + reason.value
  {
    if reason.Some? then "\n*Reason:* " + reason.value else ""
  }

  /** The last-seen line: present only when `lastseen` is not zero, then
      naming the time elapsed since. */
  function SeenLine(lastseen: int, nowSeconds: int): (r: string)
    ensures r == "" <==> lastseen == 0
    ensures lastseen != 0 ==> r == "\n*Last Seen:* " + SecondsToHms(nowSeconds - lastseen) + " ago"
  {
    if lastseen != 0 then "\n*Last Seen:* " + SecondsToHms(nowSeconds - lastseen) + " ago" else ""
  }

  /** The automatic reply: the header, then the reason line, then the
      last-seen line. */
  function AwayNotice(reason: Option<string>, lastseen: int, nowSeconds: int): (r: string)
    ensures StartsWith(r, AwayHeader + ReasonLine(reason))
    ensures EndsWith(r, SeenLine(lastseen, nowSeconds))
    ensures |r| == |AwayHeader| + |ReasonLine(reason)| + |SeenLine(lastseen, nowSeconds)|
  {
    var p := AwayHeader + ReasonLine(reason);
    var r := p + SeenLine(lastseen, nowSeconds);
    assert r[..|p|] == p;
    r
  }

  /** The owner is addressed: mentioned, or the quoted message is theirs
      (a quoted sender counts only when it is non-empty). */
  predicate Addressed(m: Message, botJid: string) {
    botJid in m.mentions
    || (m.quoted.Some? && m.quoted.value.sender.Some? && m.quoted.value.sender.value != ""
        && m.quoted.value.sender.value == botJid)
  }

  /** The module-level `AFK` record. */
  class AfkState {
    var isAfk: bool
    /** None where the source holds `false`; otherwise a non-empty reason. */
    var reason: Option<string>
    var lastseen: int

    /** Away state only while away: back at the keyboard there is no reason
      and no last-seen time. */
    predicate Valid()
      reads this
    {
      (reason.Some? ==> reason.value != "") && (!isAfk ==> reason.None? && lastseen == 0)
    }

    constructor ()
      ensures Valid() && !isAfk && reason.None? && lastseen == 0
    {
      isAfk := false;
      reason := None;
      lastseen := 0;
    }

    /** `execute(message, args)`. */
    method Execute(args: string, nowMs: nat) returns (reply: string)
      requires Valid()
      modifies this
      ensures Valid()
      ensures old(isAfk) ==> reply == AlreadyAfkText && isAfk && reason == old(reason) && lastseen == old(lastseen)
      ensures !old(isAfk) ==>
                && isAfk
                && lastseen == RoundSeconds(nowMs)
                && reason == (if args != "" then Some(args) else None)
                && reply == NowAfkText(reason)
    {
      if !isAfk {
        lastseen := RoundSeconds(nowMs);
        if args != "" {
          reason := Some(args);
        }
        isAfk := true;
        reply := NowAfkText(reason);
      } else {
        reply := AlreadyAfkText;
      }
    }

    /** `handleAfkResponse(message)`: it never changes the flag. */
    method HandleAfkResponse(m: Message, botJid: string, nowMs: nat) returns (handled: bool, reply: Option<string>)
      ensures handled <==> isAfk && !m.fromMe && Addressed(m, botJid)
      ensures handled <==> reply.Some?
      ensures handled ==> reply.value == AwayNotice(reason, lastseen, RoundSeconds(nowMs))
    {
      if !isAfk || m.fromMe {
        return false, None;
      }
      var isReply := m.quoted.Some? && m.quoted.value.sender.Some? && m.quoted.value.sender.value != "";
      if botJid in m.mentions || (isReply && m.quoted.value.sender.value == botJid) {
        return true, Some(AwayNotice(reason, lastseen, RoundSeconds(nowMs)));
      }
      return false, None;
    }

    /** `checkAfkReturn(message)`: an own message while away clears the flag. */
    method CheckAfkReturn(m: Message) returns (back: bool, reply: Option<string>)
      requires Valid()
      modifies this
      ensures Valid()
      ensures back <==> old(isAfk) && m.fromMe
      ensures back <==> reply == Some(BackText)
      ensures back ==> !isAfk && reason.None? && lastseen == 0
      ensures !back ==> isAfk == old(isAfk) && reason == old(reason) && lastseen == old(lastseen) && reply.None?
    {
      if !isAfk || !m.fromMe {
        return false, None;
      }
      lastseen := 0;
      reason := None;
      isAfk := false;
      return true, Some(BackText);
    }
  }
}
