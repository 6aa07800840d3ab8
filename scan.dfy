/**
 * The emission rules of one scan of the chat page (content.js,
 * `scanForMentions`): which message elements are reported, with which
 * flags, id, thread, timestamp and deep link; the rate-limited ambient
 * reports (unread channels, mention badges, an open DM); the browser
 * compatibility page; and the cursor left for the next scan.
 *
 * DOM queries become input facts of a `Page`. Every `generateId()` call site
 * receives its own pre-drawn token (`drawnId`, `drawnEventId`, ...), and every
 * `Date.now()` of one scan is the single instant `now`.
 */
module Scan {
  import opened Wrappers
  import opened Text
  import opened Identity
  import opened Seqs

  const SpecialConversation := "client/E030G10V24F/D03SPCDSBFW"
  const CompatHeading := "Please change browsers"
  /** Milliseconds that must pass since the last scan before unread and badge reports. */
  const AmbientGap := 10000
  /** Milliseconds that must pass since the last scan before the open-DM report. */
  const DmOpenGap := 30000

  // The texts of the reports.
  const PlaceholderText := "New message in Slack"
  const UnreadPrefix := "You have unread messages in "
  const CompatText := "You have an unread direct message. Please open Slack in a supported browser to view it."
  const RedDotText := "You have unread mentions or messages in Slack"
  const DmOpenText := "You have a direct message conversation open"

  /** The message container's attributes; "" stands for an absent or empty one, which `||` skips alike. */
  datatype Container = Container(messageId: string, threadTs: string, ts: string, drawnId: string)

  datatype MessageElement = MessageElement(
    text: string,                 // textContent
    hasAtMentionMarker: bool,     // innerHTML holds 'data-stringify-at-mention'
    container: Option<Container>) // the closest message container, if any

  datatype ChannelElement = ChannelElement(
    qaChannelId: string, channelIdAttr: string, drawnId: string,
    isIm: bool, hasDmIcon: bool)

  /** An unread or badge element of the sidebar. */
  datatype Indicator = Indicator(text: string, channel: Option<ChannelElement>, drawnEventId: string)

  datatype Page = Page(
    user: UserFacts,
    href: string,                      // window.location.href
    pathname: string,                  // window.location.pathname
    dmSidebarSelected: bool,           // a selected IM entry in the sidebar
    dmHeaderIcon: bool,                // the DM icon in the channel header
    messages: seq<MessageElement>,
    unreadChannels: seq<Indicator>,    // one sequence per unread selector, in selector order
    unreadChannelsQa: seq<Indicator>,
    mentionBadges: seq<Indicator>,
    mentionBadgesQa: seq<Indicator>,
    compatEventId: string, redDotEventId: string, dmOpenEventId: string)

  /** The `mentionFound` message sent to the background context. */
  datatype Report = Report(
    id: string, text: string, threadId: string, channelId: string,
    isDM: bool, isMention: Option<bool>, messageUrl: Option<string>)

  // ---------------------------------------------------------------------------
  // classification

  predicate IsCompatPage(p: Page) {
    p.user.h1.Some? && Contains(p.user.h1.value, CompatHeading)
  }

  /** The URL is a client URL whose last '/'-segment names a DM channel. */
  predicate IsDMByUrl(url: string) {
    Contains(url, "/client/") && StartsWith(AfterLast(url, '/'), "D")
  }

  predicate PageIsDM(p: Page) {
    IsDMByUrl(p.href) || p.dmSidebarSelected || p.dmHeaderIcon
  }

  predicate MentionsAlternate(text: string, alts: seq<string>) {
    exists i :: 0 <= i < |alts| && (Contains(text, alts[i]) || Contains(text, "@" + alts[i]))
  }

  /** The mention test of one message, case-sensitive substring matching throughout. */
  predicate IsMention(text: string, marker: bool, id: Identity, href: string) {
    (Contains(text, id.name) && id.name != "")
    || (Contains(text, "@" + id.name) && id.name != "")
    || marker
    || MentionsAlternate(text, id.alternates)
    || (Contains(href, SpecialConversation) && (Contains(text, Handle) || Contains(text, "@" + Handle)))
  }

  /**
   * The `'@'` forms add nothing: a message is a mention exactly when it holds
   * the name, carries the marker, holds an alternate, or holds the handle in
   * the special conversation.
   */
  lemma MentionWithoutAtForms(text: string, marker: bool, id: Identity, href: string)
    ensures IsMention(text, marker, id, href) <==>
      (id.name != "" && Contains(text, id.name))
      || marker
      || (exists i :: 0 <= i < |id.alternates| && Contains(text, id.alternates[i]))
      || (Contains(href, SpecialConversation) && Contains(text, Handle))
  {
    if Contains(text, "@" + id.name) { ContainsDropPrefix(text, "@", id.name); }
    if Contains(text, "@" + Handle) { ContainsDropPrefix(text, "@", Handle); }
    if MentionsAlternate(text, id.alternates) {
      var i :| 0 <= i < |id.alternates| && (Contains(text, id.alternates[i]) || Contains(text, "@" + id.alternates[i]));
      if !Contains(text, id.alternates[i]) { ContainsDropPrefix(text, "@", id.alternates[i]); }
    }
  }

  /** An at-mention of any alternate makes the message a mention. */
  lemma AtAlternateIsMention(text: string, marker: bool, id: Identity, href: string, a: string)
    requires a in id.alternates && Contains(text, "@" + a)
    ensures IsMention(text, marker, id, href)
  {
    var i :| 0 <= i < |id.alternates| && id.alternates[i] == a;
  }

  lemma {:induction false} AfterLastOfSegment(base: string, seg: string)
    requires '/' !in seg
    ensures AfterLast(base + "/" + seg, '/') == seg
    decreases |seg|
  {
    var url := base + "/" + seg;
    if seg != "" {
      var init := seg[..|seg| - 1];
      assert url[..|url| - 1] == base + "/" + init;
      AfterLastOfSegment(base, init);
      assert seg == init + [seg[|seg| - 1]];
    }
  }

  /** For a URL ending in "/<segment>", DM detection looks at that segment's first letter. */
  lemma DMByUrlOfSegment(base: string, seg: string)
    requires '/' !in seg
    ensures IsDMByUrl(base + "/" + seg) <==> Contains(base + "/" + seg, "/client/") && StartsWith(seg, "D")
  {
    AfterLastOfSegment(base, seg);
  }

  // ---------------------------------------------------------------------------
  // one message

  function ThreadIdOf(c: Container): string {
    if c.threadTs != "" then c.threadTs else c.ts
  }

  function MessageIdOf(c: Container): string {
    if c.messageId != "" then c.messageId else c.drawnId
  }

  /**
   * `parseInt(threadId.split('.')[0]) * 1000 || now`: seconds turned into
   * milliseconds, or `now` when there is no number or it is zero.
   */
  function MessageTimestamp(threadId: string, now: nat): (t: int)
    ensures t == now || (t != 0 && t % 1000 == 0)
  {
    match ParseInt(BeforeFirst(threadId, '.'))
    case Some(v) => if v * 1000 != 0 then v * 1000 else now
    case None => now
  }

  /** A platform timestamp "<seconds>.<fraction>" with positive seconds is read as those seconds in milliseconds. */
  lemma TimestampOfPlatformTs(seconds: nat, fraction: string, now: nat)
    requires seconds > 0
    ensures MessageTimestamp(NatToString(seconds) + "." + fraction, now) == seconds * 1000
  {
    var s := NatToString(seconds);
    assert BeforeFirst(s + "." + fraction, '.') == s by {
      BeforeFirstOfDigits(s, fraction);
    }
    ParseIntOfRendered(seconds, "");
    assert s + "" == s;
  }

  lemma {:induction false} BeforeFirstOfDigits(s: string, fraction: string)
    requires forall i :: 0 <= i < |s| ==> IsDigit(s[i])
    ensures BeforeFirst(s + "." + fraction, '.') == s
    decreases |s|
  {
    if s != "" {
      assert (s + "." + fraction)[1..] == s[1..] + "." + fraction;
      BeforeFirstOfDigits(s[1..], fraction);
    }
  }

  /** A message without any thread attribute is stamped with the scan time. */
  lemma UntimedMessageIsNow(now: nat)
    ensures MessageTimestamp("", now) == now
  {
    assert BeforeFirst("", '.') == "";
    assert TrimStart("") == "";
  }

  /** The deep link: the page URL up to its first '#', then '#' and the thread id, unless already present. */
  function MessageUrl(href: string, threadId: string): string {
    if threadId != "" && !Contains(href, threadId) then BeforeFirst(href, '#') + "#" + threadId
    else href
  }

  lemma {:induction false} BeforeFirstOfJoin(a: string, c: char, b: string)
    requires c !in a
    ensures BeforeFirst(a + [c] + b, c) == a
    decreases |a|
  {
    if a != "" {
      assert (a + [c] + b)[1..] == a[1..] + [c] + b;
      BeforeFirstOfJoin(a[1..], c, b);
    }
  }

  /**
   * The deep link leads to the thread (it holds the thread id), keeps the page
   * location in front of the first '#', and composing it twice changes nothing.
   */
  lemma MessageUrlLinksThread(href: string, threadId: string)
    ensures threadId != "" ==> Contains(MessageUrl(href, threadId), threadId)
    ensures BeforeFirst(MessageUrl(href, threadId), '#') == BeforeFirst(href, '#')
    ensures MessageUrl(MessageUrl(href, threadId), threadId) == MessageUrl(href, threadId)
  {
    var url := MessageUrl(href, threadId);
    if threadId != "" && !Contains(href, threadId) {
      var base := BeforeFirst(href, '#');
      assert url == base + "#" + threadId;
      ContainsSuffix(base + "#", threadId);
      BeforeFirstOfJoin(base, '#', threadId);
    }
  }

  /** The report for one message element, given its mention verdict. */
  function MessageReportFor(p: Page, cursor: int, now: nat, m: MessageElement, isMention: bool): Option<Report> {
    var isDM := PageIsDM(p);
    if !(isMention || isDM) || m.container.None? then None
    else
      var c := m.container.value;
      var threadId := ThreadIdOf(c);
      if MessageTimestamp(threadId, now) > cursor then
        Some(Report(MessageIdOf(c), if m.text != "" then m.text else PlaceholderText,
                    threadId, AfterLast(p.pathname, '/'), isDM, Some(isMention),
                    Some(MessageUrl(p.href, threadId))))
      else None
  }

  function MessageReport(p: Page, id: Identity, cursor: int, now: nat, m: MessageElement): Option<Report> {
    MessageReportFor(p, cursor, now, m, IsMention(m.text, m.hasAtMentionMarker, id, p.href))
  }

  function Emitted(r: Option<Report>): seq<Report> {
    if r.Some? then [r.value] else []
  }

  /** The reports of the message elements, in page order. */
  function MessageReports(p: Page, id: Identity, cursor: int, now: nat, ms: seq<MessageElement>): seq<Report>
    decreases |ms|
  {
    if ms == [] then []
    else MessageReports(p, id, cursor, now, ms[..|ms| - 1]) + Emitted(MessageReport(p, id, cursor, now, ms[|ms| - 1]))
  }

  /**
   * A message is reported exactly when it is a mention or the page is a DM,
   * it has a container, and its timestamp is past the cursor; the report
   * carries both flags, the platform id when there is one, the thread id and
   * the deep link.
   */
  lemma MessageEmissionRule(p: Page, id: Identity, cursor: int, now: nat, m: MessageElement)
    ensures var isMention := IsMention(m.text, m.hasAtMentionMarker, id, p.href);
      var r := MessageReport(p, id, cursor, now, m);
      (r.Some? <==> (isMention || PageIsDM(p)) && m.container.Some?
                    && MessageTimestamp(ThreadIdOf(m.container.value), now) > cursor)
      && (r.Some? ==>
            r.value.isDM == PageIsDM(p) && r.value.isMention == Some(isMention)
            && r.value.id == MessageIdOf(m.container.value)
            && r.value.threadId == ThreadIdOf(m.container.value)
            && r.value.messageUrl == Some(MessageUrl(p.href, r.value.threadId)))
  {
  }

  /** Each message element yields at most one report, and every report comes from some element. */
  lemma {:induction false} MessageReportsFromElements(p: Page, id: Identity, cursor: int, now: nat, ms: seq<MessageElement>)
    ensures |MessageReports(p, id, cursor, now, ms)| <= |ms|
    ensures forall r :: r in MessageReports(p, id, cursor, now, ms) ==>
      exists i :: 0 <= i < |ms| && MessageReport(p, id, cursor, now, ms[i]) == Some(r)
    decreases |ms|
  {
    if ms != [] {
      var init := ms[..|ms| - 1];
      MessageReportsFromElements(p, id, cursor, now, init);
      forall r | r in MessageReports(p, id, cursor, now, ms)
        ensures exists i :: 0 <= i < |ms| && MessageReport(p, id, cursor, now, ms[i]) == Some(r)
      {
        if r in MessageReports(p, id, cursor, now, init) {
          var i :| 0 <= i < |init| && MessageReport(p, id, cursor, now, init[i]) == Some(r);
          assert ms[i] == init[i];
        } else {
          assert MessageReport(p, id, cursor, now, ms[|ms| - 1]) == Some(r);
        }
      }
    }
  }

  /**
   * Messages without thread attributes are stamped `now`, so a candidate
   * among them is reported by every scan that runs after the cursor, under a
   * fresh token when it has no platform id either.
   */
  lemma UntimedCandidateReportedEveryScan(p: Page, id: Identity, cursor: int, now: nat, m: MessageElement)
    requires m.container.Some? && m.container.value.threadTs == "" && m.container.value.ts == ""
    requires IsMention(m.text, m.hasAtMentionMarker, id, p.href) || PageIsDM(p)
    requires now > cursor
    ensures MessageReport(p, id, cursor, now, m).Some?
    ensures MessageReport(p, id, cursor, now, m).value.messageUrl == Some(p.href)
  {
    UntimedMessageIsNow(now);
  }

  // ---------------------------------------------------------------------------
  // ambient reports

  function Indicators(p: Page): seq<Indicator> {
    p.unreadChannels + p.unreadChannelsQa + p.mentionBadges + p.mentionBadgesQa
  }

  /** The element lists of the four unread selectors, in selector order. */
  function IndicatorGroups(p: Page): seq<seq<Indicator>> {
    [p.unreadChannels, p.unreadChannelsQa, p.mentionBadges, p.mentionBadgesQa]
  }

  lemma IndicatorsAreGroups(p: Page)
    ensures Concat(IndicatorGroups(p)) == Indicators(p)
  {
    var g := IndicatorGroups(p);
    assert g[..1][..0] == [];
    assert Concat(g[..1]) == p.unreadChannels by {
      assert Concat(g[..1]) == [] + p.unreadChannels;
    }
    assert g[..2][..1] == g[..1];
    assert Concat(g[..2]) == p.unreadChannels + p.unreadChannelsQa;
    assert g[..3][..2] == g[..2];
    assert Concat(g[..3]) == p.unreadChannels + p.unreadChannelsQa + p.mentionBadges;
    assert g[..4][..3] == g[..3] && g[..4] == g;
  }

  predicate AmbientOpen(cursor: int, now: nat) { now - cursor > AmbientGap }

  function AmbientReport(p: Page, cursor: int, now: nat, ind: Indicator): Option<Report> {
    match ind.channel
    case None => None
    case Some(ch) =>
      if !AmbientOpen(cursor, now) then None
      else
        var channelId := if ch.qaChannelId != "" then ch.qaChannelId
                         else if ch.channelIdAttr != "" then ch.channelIdAttr else ch.drawnId;
        var isDM := ch.isIm || ch.hasDmIcon;
        var name := Trim(ind.text);
        var place := if name != "" then name else if isDM then "a direct message" else "a channel";
        Some(Report(ind.drawnEventId, UnreadPrefix + place, NatToString(now),
                    channelId, isDM, Some(false), Some(p.href)))
  }

  function AmbientReports(p: Page, cursor: int, now: nat, inds: seq<Indicator>): seq<Report>
    decreases |inds|
  {
    if inds == [] then []
    else AmbientReports(p, cursor, now, inds[..|inds| - 1]) + Emitted(AmbientReport(p, cursor, now, inds[|inds| - 1]))
  }

  /** Scanning two element lists one after the other reports what scanning each reports, in that order. */
  lemma {:induction false} AmbientReportsAppend(p: Page, cursor: int, now: nat, a: seq<Indicator>, b: seq<Indicator>)
    ensures AmbientReports(p, cursor, now, a + b) == AmbientReports(p, cursor, now, a) + AmbientReports(p, cursor, now, b)
    decreases |b|
  {
    if b == [] {
      assert a + b == a;
    } else {
      var b' := b[..|b| - 1];
      AmbientReportsAppend(p, cursor, now, a, b');
      assert (a + b)[..|a + b| - 1] == a + b';
      assert (a + b)[|a + b| - 1] == b[|b| - 1];
    }
  }

  predicate HasRedDot(p: Page) {
    |p.mentionBadges| + |p.mentionBadgesQa| > 0
  }

  function RedDotReports(p: Page, cursor: int, now: nat): seq<Report> {
    if HasRedDot(p) && AmbientOpen(cursor, now) then
      [Report(p.redDotEventId, RedDotText, NatToString(now),
              "general", false, Some(false), Some(p.href))]
    else []
  }

  function DmOpenReports(p: Page, cursor: int, now: nat): seq<Report> {
    if IsDMByUrl(p.href) && now - cursor > DmOpenGap then
      [Report(p.dmOpenEventId, DmOpenText, NatToString(now),
              AfterLast(p.pathname, '/'), true, Some(false), Some(p.href))]
    else []
  }

  function CompatReports(p: Page, now: nat): seq<Report> {
    if Contains(p.href, "/client/") && StartsWith(AfterLast(p.href, '/'), "D") then
      [Report(p.compatEventId,
              CompatText,
              NatToString(now), AfterLast(p.href, '/'), true, None, None)]
    else []
  }

  /** Everything one scan reports, in the order the script sends it. */
  function ScanReports(p: Page, id: Identity, cursor: int, now: nat): seq<Report> {
    if IsCompatPage(p) then CompatReports(p, now)
    else MessageReports(p, id, cursor, now, p.messages)
         + AmbientReports(p, cursor, now, Indicators(p))
         + RedDotReports(p, cursor, now)
         + DmOpenReports(p, cursor, now)
  }

  /** The cursor after a scan: the scan's start time, except on the compatibility page. */
  function CursorAfterScan(p: Page, cursor: int, now: nat): int {
    if IsCompatPage(p) then cursor else now
  }

  /** The identity a scan works with: detection runs first when no name is known yet. */
  function IdentityForScan(p: Page, id: Identity): Identity {
    if id.name == "" then Apply(Detect(p.user), id) else id
  }

  // ---------------------------------------------------------------------------
  // properties of a scan

  lemma {:induction false} AmbientClosedEmitsNothing(p: Page, cursor: int, now: nat, inds: seq<Indicator>)
    requires !AmbientOpen(cursor, now)
    ensures AmbientReports(p, cursor, now, inds) == []
    decreases |inds|
  {
    if inds != [] {
      AmbientClosedEmitsNothing(p, cursor, now, inds[..|inds| - 1]);
    }
  }

  /**
   * Within ten seconds of the cursor a scan reports messages only: no unread,
   * badge or open-DM report.
   */
  lemma CooldownReportsMessagesOnly(p: Page, id: Identity, cursor: int, now: nat)
    requires !IsCompatPage(p) && now - cursor <= AmbientGap
    ensures ScanReports(p, id, cursor, now) == MessageReports(p, id, cursor, now, p.messages)
  {
    AmbientClosedEmitsNothing(p, cursor, now, Indicators(p));
  }

  /** A scan that follows a completed scan within ten seconds reports messages only. */
  lemma SecondScanWithinCooldown(p1: Page, p2: Page, id: Identity, cursor: int, t1: nat, t2: nat)
    requires !IsCompatPage(p1) && !IsCompatPage(p2) && t1 <= t2 <= t1 + AmbientGap
    ensures var c := CursorAfterScan(p1, cursor, t1);
      ScanReports(p2, id, c, t2) == MessageReports(p2, id, c, t2, p2.messages)
  {
    CooldownReportsMessagesOnly(p2, id, t1, t2);
  }

  /** The open-DM report needs a DM URL and thirty seconds since the cursor. */
  lemma DmOpenGate(p: Page, cursor: int, now: nat)
    ensures |DmOpenReports(p, cursor, now)| <= 1
    ensures DmOpenReports(p, cursor, now) != [] <==> IsDMByUrl(p.href) && now - cursor > DmOpenGap
  {
  }

  /**
   * The compatibility page reports at most one event, exactly when the URL
   * names a DM channel, as a DM without mention flag or link, and leaves the
   * cursor where it was.
   */
  lemma CompatPageRule(p: Page, id: Identity, cursor: int, now: nat)
    requires IsCompatPage(p)
    ensures |ScanReports(p, id, cursor, now)| <= 1
    ensures ScanReports(p, id, cursor, now) != [] <==> IsDMByUrl(p.href)
    ensures forall r :: r in ScanReports(p, id, cursor, now) ==> r.isDM && r.isMention.None? && r.messageUrl.None?
    ensures CursorAfterScan(p, cursor, now) == cursor
  {
    assert ScanReports(p, id, cursor, now) == CompatReports(p, now);
  }

  /** With the gate open every indicator inside a channel entry is reported, one report per indicator. */
  lemma {:induction false} AmbientOnePerIndicator(p: Page, cursor: int, now: nat, inds: seq<Indicator>)
    requires AmbientOpen(cursor, now)
    requires forall i :: 0 <= i < |inds| ==> inds[i].channel.Some?
    ensures |AmbientReports(p, cursor, now, inds)| == |inds|
    decreases |inds|
  {
    if inds != [] {
      AmbientOnePerIndicator(p, cursor, now, inds[..|inds| - 1]);
    }
  }

  /** Two indicators of the same channel give two reports: ambient reports are not merged per channel. */
  lemma SameChannelReportedTwice(p: Page, cursor: int, now: nat, a: Indicator, b: Indicator)
    requires AmbientOpen(cursor, now) && a.channel.Some? && a.channel == b.channel
    ensures |AmbientReports(p, cursor, now, [a, b])| == 2
    ensures AmbientReports(p, cursor, now, [a, b])[0].channelId == AmbientReports(p, cursor, now, [a, b])[1].channelId
  {
    AmbientOnePerIndicator(p, cursor, now, [a, b]);
    assert [a, b][..1] == [a];
    assert [a][..0] == [];
  }
}
