/**
 * The page script of content.js as an object: the three module variables
 * `userName`, `additionalUserNames` and `lastCheckedTimestamp`, updated in
 * place by `detectCurrentUser` and `scanForMentions`.
 */
module ContentScript {
  import opened Wrappers
  import opened Text
  import opened Identity
  import opened Scan
  import opened Seqs

  /** The alternate-name loop of a scan: stops at the first alternate the text holds, bare or after '@'. */
  method MentionsAnyAlternate(text: string, alts: seq<string>) returns (found: bool)
    ensures found == MentionsAlternate(text, alts)
  {
    found := false;
    for k := 0 to |alts|
      invariant !found ==> forall j :: 0 <= j < k ==> !(Contains(text, alts[j]) || Contains(text, "@" + alts[j]))
      invariant found ==> MentionsAlternate(text, alts)
    {
      if Contains(text, alts[k]) || Contains(text, "@" + alts[k]) {
        found := true;
        break;
      }
    }
  }

  /** The mention test of one message, against the current name, its alternates and the special conversation. */
  method MessageMentions(m: MessageElement, id: Identity, href: string) returns (isMention: bool)
    ensures isMention == IsMention(m.text, m.hasAtMentionMarker, id, href)
  {
    var userName := id.name;
    isMention := (Contains(m.text, userName) && userName != "")
                 || (Contains(m.text, "@" + userName) && userName != "")
                 || m.hasAtMentionMarker;
    var named := MentionsAnyAlternate(m.text, id.alternates);
    if named {
      isMention := true;
    }
    if Contains(href, SpecialConversation) && (Contains(m.text, Handle) || Contains(m.text, "@" + Handle)) {
      isMention := true;
    }
  }

  /** The body of the message loop: the report for one message element, if it is sent. */
  method MessageReportOf(p: Page, id: Identity, lastCheckedTimestamp: int, now: nat, isDMByUrl: bool, message: MessageElement)
    returns (report: Option<Report>)
    requires isDMByUrl == IsDMByUrl(p.href)
    ensures report == MessageReport(p, id, lastCheckedTimestamp, now, message)
  {
    var isDM := isDMByUrl || p.dmSidebarSelected || p.dmHeaderIcon;
    var isMention := MessageMentions(message, id, p.href);
    assert isDM == PageIsDM(p);
    assert MessageReport(p, id, lastCheckedTimestamp, now, message)
        == MessageReportFor(p, lastCheckedTimestamp, now, message, isMention);
    report := None;
    if (isMention || isDM) && message.container.Some? {
      var container := message.container.value;
      var messageId := if container.messageId != "" then container.messageId else container.drawnId;
      var threadId := if container.threadTs != "" then container.threadTs else container.ts;
      assert messageId == MessageIdOf(container) && threadId == ThreadIdOf(container);
      var channelId := AfterLast(p.pathname, '/');
      var messageTimestamp := MessageTimestamp(threadId, now);
      if messageTimestamp > lastCheckedTimestamp {
        var messageUrl := MessageUrl(p.href, threadId);
        report := Some(Report(messageId, if message.text != "" then message.text else PlaceholderText,
                              threadId, channelId, isDM, Some(isMention), Some(messageUrl)));
      }
    }
  }

  /** The message loop of a scan: the reports for the message elements, in page order. */
  method ScanMessages(p: Page, id: Identity, lastCheckedTimestamp: int, now: nat) returns (reports: seq<Report>)
    ensures reports == MessageReports(p, id, lastCheckedTimestamp, now, p.messages)
  {
    var isDMByUrl := IsDMByUrl(p.href);
    reports := [];
    var i := 0;
    while i < |p.messages|
      invariant 0 <= i <= |p.messages|
      invariant reports == MessageReports(p, id, lastCheckedTimestamp, now, p.messages[..i])
    {
      var report := MessageReportOf(p, id, lastCheckedTimestamp, now, isDMByUrl, p.messages[i]);
      if report.Some? {
        reports := reports + [report.value];
      }
      assert p.messages[..i + 1][..i] == p.messages[..i];
      i := i + 1;
    }
    assert p.messages[..i] == p.messages;
  }

  /** The inner loop of the unread-indicator scan: the elements one selector matched, in page order. */
  method ScanSelector(p: Page, lastCheckedTimestamp: int, now: nat, elements: seq<Indicator>) returns (reports: seq<Report>)
    ensures reports == AmbientReports(p, lastCheckedTimestamp, now, elements)
  {
    reports := [];
    var j := 0;
    while j < |elements|
      invariant 0 <= j <= |elements|
      invariant reports == AmbientReports(p, lastCheckedTimestamp, now, elements[..j])
    {
      var report := AmbientReport(p, lastCheckedTimestamp, now, elements[j]);
      if report.Some? {
        reports := reports + [report.value];
      }
      assert elements[..j + 1][..j] == elements[..j];
      j := j + 1;
    }
    assert elements[..j] == elements;
  }

  /** The outer loop of the unread-indicator scan: the four selectors in order. */
  method ScanIndicators(p: Page, lastCheckedTimestamp: int, now: nat) returns (reports: seq<Report>)
    ensures reports == AmbientReports(p, lastCheckedTimestamp, now, Indicators(p))
  {
    var selectors := IndicatorGroups(p);
    reports := [];
    for g := 0 to |selectors|
      invariant reports == AmbientReports(p, lastCheckedTimestamp, now, Concat(selectors[..g]))
    {
      var found := ScanSelector(p, lastCheckedTimestamp, now, selectors[g]);
      AmbientReportsAppend(p, lastCheckedTimestamp, now, Concat(selectors[..g]), selectors[g]);
      assert selectors[..g + 1][..g] == selectors[..g];
      reports := reports + found;
    }
    assert selectors[..|selectors|] == selectors;
    IndicatorsAreGroups(p);
  }

  class ContentScript {
    var userName: string
    var additionalUserNames: seq<string>
    var lastCheckedTimestamp: int

    function Current(): Identity
      reads this
    {
      Identity(userName, additionalUserNames)
    }

    /** The script as loaded at `loadTime`: no name yet, no alternates, the cursor at the load time. */
    constructor (loadTime: nat)
      ensures Current() == Identity("", []) && lastCheckedTimestamp == loadTime
    {
      userName := "";
      additionalUserNames := [];
      lastCheckedTimestamp := loadTime;
    }

    /** `detectCurrentUser`: returns whether a name was found; the cursor is left alone. */
    method DetectCurrentUser(f: UserFacts) returns (found: bool)
      modifies this`userName, this`additionalUserNames
      ensures Current() == Apply(Detect(f), old(Current()))
      ensures found == Found(Detect(f))
    {
      if f.h1.Some? && (Contains(f.h1.value, SignInHeading) || f.hasWorkspaceInput) {
        return false;
      }
      var i := 0;
      while i < |f.selectorTexts|
        invariant 0 <= i <= |f.selectorTexts|
        invariant FirstNamed(f.selectorTexts[i..]) == FirstNamed(f.selectorTexts)
        invariant Current() == old(Current())
      {
        var element := f.selectorTexts[i];
        if element.Some? {
          var detected := Trim(element.value);
          if detected != "" {
            assert f.selectorTexts[i..][0] == element;
            SelectorDecides(f, old(Current()), detected);
            userName := detected;
            additionalUserNames := Alternates(detected);
            return true;
          }
        }
        assert f.selectorTexts[i..][1..] == f.selectorTexts[i + 1..];
        i := i + 1;
      }
      var titled := TitleName(f.title);
      if titled.Some? {
        TitleDecides(f, old(Current()), titled.value);
        userName := titled.value;
        additionalUserNames := [Handle];
        return true;
      }
      NothingDecides(f, old(Current()));
      additionalUserNames := [Handle];
      return false;
    }

    /**
     * `scanForMentions`: the reports sent during the scan, in order; detection
     * first when no name is known; the cursor moved to the scan's start time
     * except on the compatibility page.
     */
    method ScanForMentions(p: Page, now: nat) returns (reports: seq<Report>)
      modifies this
      ensures Current() == IdentityForScan(p, old(Current()))
      ensures reports == ScanReports(p, Current(), old(lastCheckedTimestamp), now)
      ensures lastCheckedTimestamp == CursorAfterScan(p, old(lastCheckedTimestamp), now)
    {
      if userName == "" {
        var _ := DetectCurrentUser(p.user);
      }
      assert Current() == IdentityForScan(p, old(Current()));
      if IsCompatPage(p) {
        reports := CompatReports(p, now);
        return;
      }
      var id := Identity(userName, additionalUserNames);
      var cursor := lastCheckedTimestamp;
      var messageReports := ScanMessages(p, id, cursor, now);
      var ambientReports := ScanIndicators(p, cursor, now);
      reports := messageReports + ambientReports + RedDotReports(p, cursor, now) + DmOpenReports(p, cursor, now);
      lastCheckedTimestamp := now;
      assert Current() == id;
    }
  }
}
