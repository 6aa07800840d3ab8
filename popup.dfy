/**
 * The extension popup (popup.js): the list of stored mentions, shown newest
 * first with a one-line summary; removal of an entry when it is opened and of
 * a whole thread when a reply is sent, each followed by an `updateBadge`
 * message carrying the remaining count (no listener handles it); and
 * the settings forms (Slack URL, manual username, API key).
 */
module Popup {
  import opened Wrappers
  import opened Text
  import opened Seqs
  import opened Background

  // ---------------------------------------------------------------------------
  // removal

  /** `mentions.filter(m => m.id !== id)`. */
  function RemoveById(ms: seq<Mention>, id: string): seq<Mention> {
    Keep(ms, (m: Mention) => m.id != id)
  }

  /** `mentions.filter(m => m.threadId !== threadId)`. */
  function RemoveByThread(ms: seq<Mention>, threadId: string): seq<Mention> {
    Keep(ms, (m: Mention) => m.threadId != threadId)
  }

  /**
   * Opening an entry keeps exactly the entries with another id: in their
   * original order, each as often as before, and none with the id.
   */
  lemma RemoveByIdKeepsOthers(ms: seq<Mention>, id: string)
    ensures IsSubsequence(RemoveById(ms, id), ms)
    ensures forall m :: multiset(RemoveById(ms, id))[m] == if m.id != id then multiset(ms)[m] else 0
    ensures !Stored(RemoveById(ms, id), id)
    ensures |RemoveById(ms, id)| < |ms| <==> Stored(ms, id)
  {
    var keep := (m: Mention) => m.id != id;
    KeepIsSubsequence(ms, keep);
    forall m ensures multiset(RemoveById(ms, id))[m] == if m.id != id then multiset(ms)[m] else 0 {
      KeepMultiplicity(ms, keep, m);
    }
    KeepDropsIff(ms, keep);
  }

  /** Sending a reply keeps exactly the entries of other threads, in order, each as often as before. */
  lemma RemoveByThreadKeepsOthers(ms: seq<Mention>, threadId: string)
    ensures IsSubsequence(RemoveByThread(ms, threadId), ms)
    ensures forall m ::
      multiset(RemoveByThread(ms, threadId))[m] == if m.threadId != threadId then multiset(ms)[m] else 0
    ensures forall i :: 0 <= i < |RemoveByThread(ms, threadId)| ==> RemoveByThread(ms, threadId)[i].threadId != threadId
    ensures |RemoveByThread(ms, threadId)| < |ms| <==> exists i :: 0 <= i < |ms| && ms[i].threadId == threadId
  {
    var keep := (m: Mention) => m.threadId != threadId;
    KeepIsSubsequence(ms, keep);
    forall m ensures multiset(RemoveByThread(ms, threadId))[m] == if m.threadId != threadId then multiset(ms)[m] else 0 {
      KeepMultiplicity(ms, keep, m);
    }
    KeepDropsIff(ms, keep);
  }

  /** Opening an entry that was just admitted under a new id undoes the admission. */
  lemma RemoveUndoesAdmit(ms: seq<Mention>, m: Mention)
    requires !Stored(ms, m.id)
    ensures RemoveById(Admit(ms, m), m.id) == ms
  {
    var keep := (x: Mention) => x.id != m.id;
    AdmitRule(ms, m);
    KeepAppend(ms, [m], keep);
    KeepAll(ms, keep);
    assert Keep([m], keep) == [];
  }

  // ---------------------------------------------------------------------------
  // display order

  /** Newest first: timestamps never increase along the list. */
  predicate NewestFirst(s: seq<Mention>) {
    forall i, j :: 0 <= i < j < |s| ==> s[i].timestamp >= s[j].timestamp
  }

  /** Newest first on s[..n], except that s[j] may be newer than the entries before it. */
  predicate NewestFirstExcept(s: seq<Mention>, n: nat, j: nat)
    requires n <= |s|
  {
    forall p, q :: 0 <= p < q < n && q != j ==> s[p].timestamp >= s[q].timestamp
  }

  /** Starting to place entry i: the first i entries are in order. */
  lemma ExceptAtStart(s: seq<Mention>, i: nat)
    requires i < |s| && NewestFirst(s[..i])
    ensures NewestFirstExcept(s, i + 1, i)
  {
    forall p, q | 0 <= p < q < i + 1 && q != i ensures s[p].timestamp >= s[q].timestamp {
      assert s[..i][p] == s[p] && s[..i][q] == s[q];
    }
  }

  /** Swapping the entry one step forward past an older one keeps the rest in order. */
  lemma SwapForward(s: seq<Mention>, i: nat, j: nat)
    requires 0 < j <= i < |s| && NewestFirstExcept(s, i + 1, j)
    requires s[j - 1].timestamp < s[j].timestamp
    ensures NewestFirstExcept(s[j - 1 := s[j]][j := s[j - 1]], i + 1, j - 1)
    ensures multiset(s[j - 1 := s[j]][j := s[j - 1]]) == multiset(s)
  {
    var t := s[j - 1 := s[j]][j := s[j - 1]];
    forall p, q | 0 <= p < q < i + 1 && q != j - 1 ensures t[p].timestamp >= t[q].timestamp {
      if p == j - 1 {
        assert t[p] == s[j];
        if q > j {
          assert s[j - 1].timestamp >= s[q].timestamp;
        }
      } else if p == j {
        assert s[j - 1].timestamp >= s[q].timestamp;
      } else if q == j {
        assert s[p].timestamp >= s[j - 1].timestamp;
      }
    }
    assert t == s[..j - 1] + [s[j], s[j - 1]] + s[j + 1..];
    assert s == s[..j - 1] + [s[j - 1], s[j]] + s[j + 1..];
  }

  /** The entry has reached its place: the first i + 1 entries are in order. */
  lemma ExceptAtRest(s: seq<Mention>, i: nat, j: nat)
    requires j <= i < |s| && NewestFirstExcept(s, i + 1, j)
    requires j == 0 || s[j - 1].timestamp >= s[j].timestamp
    ensures NewestFirst(s[..i + 1])
  {
    forall p, q | 0 <= p < q < i + 1 ensures s[p].timestamp >= s[q].timestamp {
      if q == j && p < j - 1 {
        assert s[p].timestamp >= s[j - 1].timestamp;
      }
    }
  }

  /**
   * `mentions.sort((a, b) => b.timestamp - a.timestamp)`, in place, as an
   * insertion sort: each entry is swapped towards the front past the older
   * entries before it.
   */
  method SortNewestFirst(a: array<Mention>)
    modifies a
    ensures NewestFirst(a[..])
    ensures multiset(a[..]) == multiset(old(a[..]))
  {
    var i := 0;
    while i < a.Length
      invariant 0 <= i <= a.Length
      invariant NewestFirst(a[..i])
      invariant multiset(a[..]) == multiset(old(a[..]))
    {
      InsertNewest(a, i);
      i := i + 1;
    }
    assert a[..a.Length] == a[..];
  }

  /** One insertion step: entry i moves forward past the older entries before it. */
  method InsertNewest(a: array<Mention>, i: nat)
    requires i < a.Length && NewestFirst(a[..i])
    modifies a
    ensures NewestFirst(a[..i + 1])
    ensures multiset(a[..]) == multiset(old(a[..]))
  {
    ExceptAtStart(a[..], i);
    var j := i;
    while 0 < j && a[j - 1].timestamp < a[j].timestamp
      invariant 0 <= j <= i
      invariant NewestFirstExcept(a[..], i + 1, j)
      invariant multiset(a[..]) == multiset(old(a[..]))
    {
      SwapForward(a[..], i, j);
      a[j - 1], a[j] := a[j], a[j - 1];
      j := j - 1;
    }
    ExceptAtRest(a[..], i, j);
  }

  // ---------------------------------------------------------------------------
  // the summary line

  const FoundPrefix := "Found "
  const NotificationsWord := " notification(s)"

  /** The plural suffix: "s" for more than one. */
  function Plural(count: nat): (r: string)
    ensures r == "s" <==> count > 1
    ensures r == "" <==> count <= 1
  {
    if count > 1 then "s" else ""
  }

  /** " (k mention[s])" when k > 0. */
  function MentionClause(k: nat): string {
    if k > 0 then " (" + NatToString(k) + " mention" + Plural(k) + ")" else ""
  }

  /** " (d DM[s])" when d > 0. */
  function DMClause(d: nat): string {
    if d > 0 then " (" + NatToString(d) + " DM" + Plural(d) + ")" else ""
  }

  /** The notice shown after loading n entries, k of them direct mentions and d direct messages. */
  function SummaryText(n: nat, k: nat, d: nat): string {
    FoundPrefix + NatToString(n) + NotificationsWord + MentionClause(k) + DMClause(d)
  }

  /** A number written after any text, and followed by a space or nothing, reads back. */
  lemma NumberAfter(pre: string, n: nat, rest: string)
    requires rest == "" || rest[0] == ' '
    ensures ParseInt((pre + NatToString(n) + rest)[|pre|..]) == Some(n)
  {
    assert (pre + NatToString(n) + rest)[|pre|..] == NatToString(n) + rest;
    ParseIntOfRendered(n, rest);
  }

  /** The line opens with "Found " and the total, which reads back. */
  lemma SummaryTotalReadsBack(n: nat, k: nat, d: nat)
    ensures StartsWith(SummaryText(n, k, d), FoundPrefix)
    ensures ParseInt(SummaryText(n, k, d)[|FoundPrefix|..]) == Some(n)
  {
    var rest := NotificationsWord + MentionClause(k) + DMClause(d);
    assert NotificationsWord[0] == ' ';
    assert SummaryText(n, k, d) == FoundPrefix + NatToString(n) + rest;
    NumberAfter(FoundPrefix, n, rest);
  }

  /** A mention clause follows "notification(s)" and its count reads back after " (". */
  lemma SummaryMentionsReadBack(n: nat, k: nat, d: nat)
    requires k > 0
    ensures var head := FoundPrefix + NatToString(n) + NotificationsWord;
      ParseInt(SummaryText(n, k, d)[|head| + 2..]) == Some(k)
  {
    SummaryMentionsTail(n, k, d);
    MentionCountReadsBack(k, DMClause(d));
  }

  lemma SummaryMentionsTail(n: nat, k: nat, d: nat)
    requires k > 0
    ensures var head := FoundPrefix + NatToString(n) + NotificationsWord;
      SummaryText(n, k, d)[|head| + 2..] == MentionClause(k)[2..] + DMClause(d)
  {
    var head := FoundPrefix + NatToString(n) + NotificationsWord;
    assert SummaryText(n, k, d) == head + MentionClause(k) + DMClause(d);
    SliceAfter(head, MentionClause(k), DMClause(d), 2);
  }

  lemma SliceAfter(h: string, a: string, b: string, j: nat)
    requires j <= |a|
    ensures (h + a + b)[|h| + j..] == a[j..] + b
  {
  }

  lemma MentionCountReadsBack(k: nat, after: string)
    requires k > 0
    ensures ParseInt(MentionClause(k)[2..] + after) == Some(k)
  {
    var x := " mention" + Plural(k) + ")";
    MentionClauseAfterParen(k);
    assert (NatToString(k) + x) + after == NatToString(k) + (x + after);
    ParseIntOfRendered(k, x + after);
  }

  lemma MentionClauseAfterParen(k: nat)
    requires k > 0
    ensures MentionClause(k)[2..] == NatToString(k) + (" mention" + Plural(k) + ")")
  {
  }

  /** A word followed by an optional "s" and ")": which of the two endings the text has. */
  lemma PluralEnding(p: string, word: string, suffix: string)
    requires suffix == "" || suffix == "s"
    requires word != "" && word[|word| - 1] != 's'
    ensures EndsWith(p + word + suffix + ")", word + ")") <==> suffix == ""
    ensures EndsWith(p + word + suffix + ")", word + "s)") <==> suffix == "s"
  {
    var c := p + word + suffix + ")";
    assert c[|p| + |word| - 1] == word[|word| - 1];
    if suffix == "" {
      assert c[|c| - |word| - 1..] == word + ")";
    } else {
      assert c[|c| - |word| - 2..] == word + "s)";
      assert c[|c| - |word| - 1..][|word| - 1] == c[|c| - 2] == 's';
    }
  }

  /** The mention clause reads "(1 mention)" for one and "(k mentions)" for more. */
  lemma MentionClauseWording(k: nat)
    requires k > 0
    ensures EndsWith(MentionClause(k), " mention)") <==> k == 1
    ensures EndsWith(MentionClause(k), " mentions)") <==> k > 1
  {
    var word := " mention";
    assert word[|word| - 1] == 'n';
    PluralEnding(" (" + NatToString(k), word, Plural(k));
  }

  /** The DM clause reads "(1 DM)" for one and "(d DMs)" for more. */
  lemma DMClauseWording(d: nat)
    requires d > 0
    ensures EndsWith(DMClause(d), " DM)") <==> d == 1
    ensures EndsWith(DMClause(d), " DMs)") <==> d > 1
  {
    var word := " DM";
    assert word[|word| - 1] == 'M';
    PluralEnding(" (" + NatToString(d), word, Plural(d));
  }

  /** `m.isMention`. */
  predicate IsDirectMention(m: Mention) { m.isMention }

  // ---------------------------------------------------------------------------
  // the Slack URL

  const SlackClientPrefix := "https://app.slack.com/client/"
  const DefaultWorkspace := "E030G10V24F"
  const DefaultChannel := "C06M9SL8JM6"
  /** `DEFAULT_SLACK_URL`. */
  const DefaultSlackUrl := SlackClientPrefix + DefaultWorkspace + "/" + DefaultChannel

  /** A path segment of the URL pattern: `[^/]+`. */
  predicate IsSegment(w: string) { w != "" && '/' !in w }

  /** The workspace and channel of a URL matching `^https://app\.slack\.com/client/[^/]+/[^/]+$`, or None. */
  function SlackUrlParts(u: string): Option<(string, string)> {
    if !StartsWith(u, SlackClientPrefix) then None
    else
      var rest := u[|SlackClientPrefix|..];
      var w := BeforeFirst(rest, '/');
      if |w| == |rest| then None
      else
        var c := rest[|w| + 1..];
        if IsSegment(w) && IsSegment(c) then Some((w, c)) else None
  }

  predicate MatchesSlackUrl(u: string) { SlackUrlParts(u).Some? }

  /** Every URL built from two segments matches, and gives those segments back. */
  lemma SlackUrlOfSegments(w: string, c: string)
    requires IsSegment(w) && IsSegment(c)
    ensures SlackUrlParts(SlackClientPrefix + w + "/" + c) == Some((w, c))
  {
    var u := SlackClientPrefix + w + "/" + c;
    assert u[..|SlackClientPrefix|] == SlackClientPrefix;
    var rest := u[|SlackClientPrefix|..];
    assert rest == w + "/" + c;
    BeforeFirstOfSegment(w, c);
    assert rest[|w| + 1..] == c;
  }

  lemma BeforeFirstOfSegment(w: string, c: string)
    requires '/' !in w
    ensures BeforeFirst(w + "/" + c, '/') == w
  {
    var s := w + "/" + c;
    var r := BeforeFirst(s, '/');
    assert s[|w|] == '/';
    assert r == s[..|r|];
  }

  /** Every matching URL is the prefix, a segment, '/', and a segment. */
  lemma SlackUrlIsSegments(u: string)
    requires MatchesSlackUrl(u)
    ensures var (w, c) := SlackUrlParts(u).value;
      IsSegment(w) && IsSegment(c) && u == SlackClientPrefix + w + "/" + c
  {
    var rest := u[|SlackClientPrefix|..];
    var w := BeforeFirst(rest, '/');
    assert rest == w + "/" + rest[|w| + 1..];
    assert u == SlackClientPrefix + rest;
  }

  /** The built-in URL passes the check the form applies. */
  lemma DefaultSlackUrlMatches()
    ensures MatchesSlackUrl(DefaultSlackUrl)
  {
    assert IsSegment(DefaultWorkspace) by { assert |DefaultWorkspace| == 11; }
    assert IsSegment(DefaultChannel) by { assert |DefaultChannel| == 11; }
    SlackUrlOfSegments(DefaultWorkspace, DefaultChannel);
  }

  // ---------------------------------------------------------------------------
  // the popup's state

  datatype Notice = Info(text: string) | Success(text: string) | Error(text: string)

  /** A reply handed to the Slack tab for a thread. */
  datatype SentReply = SentReply(threadId: string, text: string)

  const EmptyUrlNotice := Error("Please enter a Slack URL.")
  const BadUrlNotice := Error("Please enter a valid Slack URL in the format: https://app.slack.com/client/WORKSPACE/CHANNEL")
  const UrlSavedNotice := Success("Slack URL saved successfully!")
  const EmptyUsernameNotice := Error("Please enter a username")
  const UsernameSavedNotice := Success("Username saved manually!")
  const EmptyKeyNotice := Error("Please enter an API key.")
  const ApiSavedNotice := Success("API settings saved successfully!")
  const ReplySentNotice := Success("Response sent!")
  const NoSlackTabNotice := Error("No Slack tab is open. Please open Slack first.")

  /**
   * What the popup reads and writes in local storage, with the counts it
   * sent in `updateBadge` messages and the replies handed to the Slack tab.
   * No listener handles `updateBadge`, so these counts set no badge.
   */
  class PopupState {
    var mentions: seq<Mention>
    /** The counts of the `updateBadge` messages sent, oldest first. */
    var badgeUpdates: seq<nat>
    var slackUrl: Option<string>
    var detectedUsername: string
    var additionalUserNames: seq<string>
    var settings: Settings
    var sentReplies: seq<SentReply>

    /** A stored Slack URL always passed the form's check. */
    predicate Valid()
      reads this
    {
      slackUrl.Some? ==> MatchesSlackUrl(slackUrl.value)
    }

    constructor (stored: seq<Mention>, installed: Settings)
      ensures Valid()
      ensures mentions == stored && badgeUpdates == [] && slackUrl == None
      ensures detectedUsername == "" && additionalUserNames == [] && settings == installed && sentReplies == []
    {
      mentions := stored;
      badgeUpdates := [];
      slackUrl := None;
      detectedUsername := "";
      additionalUserNames := [];
      settings := installed;
      sentReplies := [];
    }

    /** `getConfiguredSlackUrl`: the stored URL, or the default when none (or an empty one) is stored. */
    function ConfiguredSlackUrl(): (r: string)
      reads this
      requires Valid()
      ensures MatchesSlackUrl(r)
      ensures slackUrl.None? ==> r == DefaultSlackUrl
      ensures slackUrl.Some? && slackUrl.value != "" ==> r == slackUrl.value
      ensures slackUrl.Some? && slackUrl.value == "" ==> r == DefaultSlackUrl
    {
      DefaultSlackUrlMatches();
      match slackUrl
      case Some(u) => if u != "" then u else DefaultSlackUrl
      case None => DefaultSlackUrl
    }

    /**
     * `saveSlackUrl`: the input is trimmed; an empty or non-matching URL is
     * refused and nothing is stored.
     */
    method SaveSlackUrl(input: string) returns (notice: Notice)
      requires Valid()
      modifies this`slackUrl
      ensures Valid()
      ensures Trim(input) == "" ==> notice == EmptyUrlNotice && slackUrl == old(slackUrl)
      ensures Trim(input) != "" && !MatchesSlackUrl(Trim(input)) ==> notice == BadUrlNotice && slackUrl == old(slackUrl)
      ensures MatchesSlackUrl(Trim(input)) ==> notice == UrlSavedNotice && slackUrl == Some(Trim(input))
    {
      var url := Trim(input);
      if url == "" {
        return EmptyUrlNotice;
      }
      if !MatchesSlackUrl(url) {
        return BadUrlNotice;
      }
      slackUrl := Some(url);
      notice := UrlSavedNotice;
    }

    /** The manual-username form: a non-empty trimmed name is stored with its lower-case form as the only alternate. */
    method SaveManualUsername(input: string) returns (notice: Notice)
      requires Valid()
      modifies this`detectedUsername, this`additionalUserNames
      ensures Valid()
      ensures Trim(input) == "" ==>
        (notice == EmptyUsernameNotice
         && detectedUsername == old(detectedUsername) && additionalUserNames == old(additionalUserNames))
      ensures Trim(input) != "" ==>
        (notice == UsernameSavedNotice
         && detectedUsername == Trim(input) && additionalUserNames == [ToLower(Trim(input))])
    {
      var name := Trim(input);
      if name == "" {
        return EmptyUsernameNotice;
      }
      detectedUsername := name;
      additionalUserNames := [ToLower(name)];
      notice := UsernameSavedNotice;
    }

    /** `saveApiSettings`: a blank key is refused; a saved key always switches Gemini off. */
    method SaveApiSettings(apiType: string, keyInput: string) returns (notice: Notice)
      requires Valid()
      modifies this`settings
      ensures Valid()
      ensures Trim(keyInput) == "" ==> notice == EmptyKeyNotice && settings == old(settings)
      ensures Trim(keyInput) != "" ==> notice == ApiSavedNotice && settings == Settings(apiType, Trim(keyInput), false)
    {
      var apiKey := Trim(keyInput);
      if apiKey == "" {
        return EmptyKeyNotice;
      }
      settings := Settings(apiType, apiKey, false);
      notice := ApiSavedNotice;
    }

    /**
     * Clicking an entry: only an entry with a non-empty message URL reacts; it opens
     * that URL, removes the entry's id from storage and sends the remaining
     * count for the badge.
     */
    method OpenMention(entry: Mention) returns (url: Option<string>)
      requires Valid()
      modifies this`mentions, this`badgeUpdates
      ensures Valid()
      ensures entry.messageUrl.None? || entry.messageUrl.value == "" ==> url == None && mentions == old(mentions) && badgeUpdates == old(badgeUpdates)
      ensures entry.messageUrl.Some? && entry.messageUrl.value != "" ==>
        (url == entry.messageUrl
         && mentions == RemoveById(old(mentions), entry.id) && badgeUpdates == old(badgeUpdates) + [|mentions|])
    {
      if entry.messageUrl.None? || entry.messageUrl.value == "" {
        return None;
      }
      url := entry.messageUrl;
      mentions := RemoveById(mentions, entry.id);
      badgeUpdates := badgeUpdates + [|mentions|];
    }

    /**
     * `sendResponse`: with a Slack tab open the reply is handed over and the
     * whole thread is removed from storage and the remaining count is sent
     * for the badge; without one nothing changes.
     */
    method SendResponse(threadId: string, text: string, slackTabOpen: bool) returns (notice: Notice)
      requires Valid()
      modifies this`mentions, this`badgeUpdates, this`sentReplies
      ensures Valid()
      ensures !slackTabOpen ==>
        (notice == NoSlackTabNotice
         && mentions == old(mentions) && badgeUpdates == old(badgeUpdates) && sentReplies == old(sentReplies))
      ensures slackTabOpen ==>
        (notice == ReplySentNotice
         && sentReplies == old(sentReplies) + [SentReply(threadId, text)]
         && mentions == RemoveByThread(old(mentions), threadId) && badgeUpdates == old(badgeUpdates) + [|mentions|])
    {
      if !slackTabOpen {
        return NoSlackTabNotice;
      }
      sentReplies := sentReplies + [SentReply(threadId, text)];
      notice := ReplySentNotice;
      mentions := RemoveByThread(mentions, threadId);
      badgeUpdates := badgeUpdates + [|mentions|];
    }

    /**
     * `loadMentions`: the stored entries, newest first, and the summary
     * notice counting them; nothing is shown for an empty list. Stored
     * records carry no DM flag, so the DM count is always 0.
     */
    method LoadMentions() returns (shown: seq<Mention>, summary: Option<Notice>)
      ensures NewestFirst(shown) && multiset(shown) == multiset(mentions) && |shown| == |mentions|
      ensures |mentions| == 0 ==> summary == None
      ensures |mentions| > 0 ==> summary == Some(Info(SummaryText(|shown|, |Keep(shown, IsDirectMention)|, 0)))
    {
      var stored := mentions;
      if |stored| == 0 {
        return [], None;
      }
      var a := new Mention[|stored|](i requires 0 <= i < |stored| => stored[i]);
      assert a[..] == stored;
      SortNewestFirst(a);
      shown := a[..];
      assert |shown| == |multiset(shown)| == |multiset(stored)| == |stored|;
      var directMentions := |Keep(shown, IsDirectMention)|;
      summary := Some(Info(SummaryText(|shown|, directMentions, 0)));
    }
  }
}
