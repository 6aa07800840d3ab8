/**
 * The background worker (background.js): the `mentionFound` handler that
 * raises a notification and admits the report into the stored `mentions`
 * list, deduplicated by id, and the choice of where suggested replies come
 * from (the Gemini tab, the OpenAI or Claude API, or the four defaults).
 */
module Background {
  import opened Wrappers
  import opened Text
  import opened Seqs
  import opened Splitting
  import opened GeminiContent
  import opened Scan

  // ---------------------------------------------------------------------------
  // the stored record

  /**
   * One entry of the stored `mentions` list. `timestamp` is the admission
   * time in milliseconds (stored as its ISO rendering); there is no isDM field.
   */
  datatype Mention = Mention(
    id: string, text: string, timestamp: nat, threadId: string, channelId: string,
    messageUrl: Option<string>, isMention: bool, suggestedResponses: seq<string>)

  /** The record pushed for a report admitted at `now`: `messageUrl || null`, `isMention || false`. */
  function Record(r: Report, now: nat, responses: seq<string>): Mention {
    Mention(r.id, r.text, now, r.threadId, r.channelId,
            if r.messageUrl.Some? && r.messageUrl.value != "" then r.messageUrl else None,
            r.isMention == Some(true), responses)
  }

  /** The record keeps the report's identity and text, and falls back to null and false for what is missing. */
  lemma RecordDefaults(r: Report, now: nat, responses: seq<string>)
    ensures var m := Record(r, now, responses);
      m.id == r.id && m.text == r.text && m.threadId == r.threadId && m.channelId == r.channelId
      && m.timestamp == now
      && (m.isMention <==> r.isMention == Some(true))
      && (m.messageUrl.None? <==> (r.messageUrl.None? || r.messageUrl.value == ""))
      && (m.messageUrl.Some? ==> m.messageUrl == r.messageUrl)
  {
  }

  predicate Stored(ms: seq<Mention>, id: string) {
    exists i :: 0 <= i < |ms| && ms[i].id == id
  }

  predicate UniqueIds(ms: seq<Mention>) {
    forall i, j :: 0 <= i < j < |ms| ==> ms[i].id != ms[j].id
  }

  /** `mentions.findIndex(m => m.id === id)`: the first position holding the id, or -1. */
  function IndexOfId(ms: seq<Mention>, id: string): (k: int)
    ensures -1 <= k < |ms|
    ensures 0 <= k ==> ms[k].id == id
    ensures forall j :: 0 <= j < |ms| && (k < 0 || j < k) ==> ms[j].id != id
    decreases |ms|
  {
    if |ms| == 0 then -1
    else if ms[0].id == id then 0
    else
      var k := IndexOfId(ms[1..], id);
      if k < 0 then -1 else k + 1
  }

  /** The findIndex loop. */
  method FindIndex(ms: seq<Mention>, id: string) returns (k: int)
    ensures k == IndexOfId(ms, id)
  {
    k := 0;
    while k < |ms|
      invariant 0 <= k <= |ms|
      invariant forall j :: 0 <= j < k ==> ms[j].id != id
    {
      if ms[k].id == id {
        return;
      }
      k := k + 1;
    }
    k := -1;
  }

  /** Admission: a stored id leaves the list as it is, a new one is appended. */
  function Admit(ms: seq<Mention>, m: Mention): seq<Mention> {
    if IndexOfId(ms, m.id) >= 0 then ms else ms + [m]
  }

  /** A duplicate id changes nothing; a new id appends exactly the record, earlier records untouched. */
  lemma AdmitRule(ms: seq<Mention>, m: Mention)
    ensures Stored(ms, m.id) ==> Admit(ms, m) == ms
    ensures !Stored(ms, m.id) ==> Admit(ms, m) == ms + [m]
    ensures Stored(Admit(ms, m), m.id)
  {
    var k := IndexOfId(ms, m.id);
    if Stored(ms, m.id) {
      var i :| 0 <= i < |ms| && ms[i].id == m.id;
      assert k >= 0;
    } else {
      assert (ms + [m])[|ms|].id == m.id;
    }
  }

  /** Admission keeps ids unique. */
  lemma AdmitKeepsIdsUnique(ms: seq<Mention>, m: Mention)
    requires UniqueIds(ms)
    ensures UniqueIds(Admit(ms, m))
  {
    AdmitRule(ms, m);
    if !Stored(ms, m.id) {
      var r := ms + [m];
      forall i, j | 0 <= i < j < |r| ensures r[i].id != r[j].id {
        if j == |ms| {
          assert r[i] == ms[i];
        }
      }
    }
  }

  /** Admitting the same report twice is admitting it once, and the first record wins. */
  lemma AdmitIdempotent(ms: seq<Mention>, m: Mention, m': Mention)
    requires m'.id == m.id
    ensures Admit(Admit(ms, m), m') == Admit(ms, m)
  {
    AdmitRule(ms, m);
    AdmitRule(Admit(ms, m), m');
  }

  // ---------------------------------------------------------------------------
  // the notification

  const NotificationPrefix := "You were mentioned in a conversation: \""
  const NotificationSuffix := "...\""

  /** The notification text: at most the first 100 characters of the report text, quoted. */
  function NotificationBody(text: string): string {
    NotificationPrefix + text[..if |text| < 100 then |text| else 100] + NotificationSuffix
  }

  lemma NotificationShape(text: string)
    ensures var b := NotificationBody(text);
      StartsWith(b, NotificationPrefix) && EndsWith(b, NotificationSuffix)
      && |b| <= |NotificationPrefix| + 100 + |NotificationSuffix|
      && (|text| <= 100 ==> b == NotificationPrefix + text + NotificationSuffix)
      && (|text| > 100 ==> b == NotificationPrefix + text[..100] + NotificationSuffix)
  {
    var n := if |text| < 100 then |text| else 100;
    var b := NotificationBody(text);
    assert b[..|NotificationPrefix|] == NotificationPrefix;
    assert b[|b| - |NotificationSuffix|..] == NotificationSuffix;
    if |text| <= 100 {
      assert text[..n] == text;
    }
  }

  // ---------------------------------------------------------------------------
  // where suggestions come from

  datatype Settings = Settings(apiType: string, apiKey: string, useGemini: bool)

  /** The settings written at installation. */
  const InstalledSettings := Settings("openai", "", false)

  /**
   * What each outside source answered for this text: the Gemini tab's answer
   * text, or the `message.content` of the OpenAI or Claude reply; None when
   * the request failed (no tab, network or API error).
   */
  datatype Replies = Replies(gemini: Option<string>, openAI: Option<string>, claude: Option<string>)

  const DefaultReply1 := "Thanks for the mention. I'll look into this."
  const DefaultReply2 := "I appreciate you bringing this to my attention."
  const DefaultReply3 := "I'll review this and get back to you shortly."
  const DefaultReply4 := "Thanks for the update. Let me check on this."

  /** `getDefaultResponses`: the four fixed replies, in order. */
  function DefaultResponses(): (r: seq<string>)
    ensures |r| == 4
  {
    [DefaultReply1, DefaultReply2, DefaultReply3, DefaultReply4]
  }

  /** The post-processing of an OpenAI or Claude reply: split on numbering or newline runs, drop blank pieces, keep four. */
  function VendorReplies(content: string): seq<string> {
    Take(FilledPieces(NumberOrNewlines, content), 4)
  }

  /** Vendor replies: at most four, none blank, none spanning a line, each a piece of the reply, and not trimmed. */
  lemma VendorRepliesShape(content: string)
    ensures var r := VendorReplies(content);
      |r| <= 4
      && (forall i :: 0 <= i < |r| ==> NonBlank(r[i]) && '\n' !in r[i] && Contains(content, r[i]))
  {
    var pieces := Split(NumberOrNewlines, content);
    var kept := FilledPieces(NumberOrNewlines, content);
    FilledPiecesOccur(NumberOrNewlines, content);
    SplitHasNoNewline(NumberOrNewlines, content);
    forall i | 0 <= i < |kept| ensures '\n' !in kept[i] {
      var j :| 0 <= j < |pieces| && pieces[j] == kept[i];
    }
  }

  /** Pieces keep their surrounding spaces. */
  lemma VendorRepliesKeepSpaces()
    ensures VendorReplies(" Hi") == [" Hi"]
  {
    var s := " Hi";
    forall q | 0 <= q < |s| ensures MatchLen(NumberOrNewlines, s, q) == 0 {
      assert !IsDigit(s[q]) && s[q] != '\n';
    }
    NoSeparatorNoSplit(NumberOrNewlines, s);
    assert NonBlank(s) by { TrimEmptyIffBlank(s); assert !IsSpace(s[1]); }
  }

  /** A reply with nothing but blank pieces gives no suggestions at all. */
  lemma VendorRepliesCanBeEmpty()
    ensures VendorReplies("") == []
  {
    assert Split(NumberOrNewlines, "") == [""];
    TrimEmptyIffBlank("");
  }

  /** `getAIResponses`: the vendor named by `apiType`; None for a failed request or an unknown type. */
  function AIResponses(apiType: string, replies: Replies): Option<seq<string>> {
    if apiType == "openai" then
      (match replies.openAI case Some(c) => Some(VendorReplies(c)) case None => None)
    else if apiType == "claude" then
      (match replies.claude case Some(c) => Some(VendorReplies(c)) case None => None)
    else if apiType == "gemini" then
      (match replies.gemini case Some(a) => Some(GeminiSuggestions(a)) case None => None)
    else None
  }

  /** `generateResponses`: Gemini first when enabled, else the configured vendor when a key is set; defaults on any failure. */
  function GenerateResponses(s: Settings, replies: Replies): seq<string> {
    if s.useGemini then
      match replies.gemini
      case Some(a) => GeminiSuggestions(a)
      case None => DefaultResponses()
    else if s.apiKey == "" then DefaultResponses()
    else
      match AIResponses(s.apiType, replies)
      case Some(r) => r
      case None => DefaultResponses()
  }

  /** Never more than four suggestions, whatever the source. */
  lemma AtMostFourSuggestions(s: Settings, replies: Replies)
    ensures |GenerateResponses(s, replies)| <= 4
  {
    if !s.useGemini && s.apiKey != "" && s.apiType in {"openai", "claude"} {
      var c := if s.apiType == "openai" then replies.openAI else replies.claude;
      if c.Some? {
        VendorRepliesShape(c.value);
      }
    }
  }

  /** The source selection, case by case. */
  lemma SourceSelection(s: Settings, replies: Replies)
    ensures s.useGemini ==>
      GenerateResponses(s, replies) ==
        (if replies.gemini.Some? then GeminiSuggestions(replies.gemini.value) else DefaultResponses())
    ensures !s.useGemini && s.apiKey == "" ==> GenerateResponses(s, replies) == DefaultResponses()
    ensures !s.useGemini && s.apiKey != "" && s.apiType !in {"openai", "claude", "gemini"} ==>
      GenerateResponses(s, replies) == DefaultResponses()
    ensures !s.useGemini && s.apiKey != "" && s.apiType == "openai" ==>
      GenerateResponses(s, replies) ==
        (if replies.openAI.Some? then VendorReplies(replies.openAI.value) else DefaultResponses())
    ensures !s.useGemini && s.apiKey != "" && s.apiType == "claude" ==>
      GenerateResponses(s, replies) ==
        (if replies.claude.Some? then VendorReplies(replies.claude.value) else DefaultResponses())
    ensures !s.useGemini && s.apiKey != "" && s.apiType == "gemini" ==>
      GenerateResponses(s, replies) ==
        (if replies.gemini.Some? then GeminiSuggestions(replies.gemini.value) else DefaultResponses())
  {
  }

  /** Every suggestion is a default reply or a piece of the answer the chosen source gave. */
  lemma SuggestionsHaveASource(s: Settings, replies: Replies)
    ensures forall i :: 0 <= i < |GenerateResponses(s, replies)| ==>
      GenerateResponses(s, replies)[i] in DefaultResponses()
      || (replies.gemini.Some? && Contains(replies.gemini.value, GenerateResponses(s, replies)[i]))
      || (replies.openAI.Some? && Contains(replies.openAI.value, GenerateResponses(s, replies)[i]))
      || (replies.claude.Some? && Contains(replies.claude.value, GenerateResponses(s, replies)[i]))
  {
    if replies.gemini.Some? {
      SuggestionsOccurInAnswer(replies.gemini.value);
    }
    if replies.openAI.Some? {
      VendorRepliesShape(replies.openAI.value);
    }
    if replies.claude.Some? {
      VendorRepliesShape(replies.claude.value);
    }
  }

  // ---------------------------------------------------------------------------
  // the worker

  class BackgroundWorker {
    /** The `mentions` list in local storage. */
    var mentions: seq<Mention>
    /** The desktop notifications raised, oldest first. */
    var notifications: seq<string>
    var settings: Settings

    /** The state right after installation. */
    constructor ()
      ensures mentions == [] && notifications == [] && settings == InstalledSettings
    {
      mentions := [];
      notifications := [];
      settings := InstalledSettings;
    }

    /**
     * `mentionFound`: the notification first, for every report; then the
     * suggestions, only for a report flagged as a mention; then admission.
     */
    method MentionFound(r: Report, now: nat, replies: Replies)
      modifies this`mentions, this`notifications
      ensures notifications == old(notifications) + [NotificationBody(r.text)]
      ensures mentions == Admit(old(mentions), Record(r, now,
        if r.isMention == Some(true) then GenerateResponses(settings, replies) else []))
    {
      notifications := notifications + [NotificationBody(r.text)];
      var responses := if r.isMention == Some(true) then GenerateResponses(settings, replies) else [];
      var existingIndex := FindIndex(mentions, r.id);
      if existingIndex >= 0 {
        return;
      }
      mentions := mentions + [Record(r, now, responses)];
    }
  }

  /**
   * What one report does to the stored list: a duplicate id leaves it as it
   * was; a new one is appended as the last record, carrying suggestions only
   * when the report is flagged as a mention; ids stay unique either way.
   */
  lemma MentionFoundOutcome(ms: seq<Mention>, r: Report, now: nat, responses: seq<string>)
    requires UniqueIds(ms)
    ensures var ms' := Admit(ms, Record(r, now, if r.isMention == Some(true) then responses else []));
      UniqueIds(ms')
      && (Stored(ms, r.id) ==> ms' == ms)
      && (!Stored(ms, r.id) ==> (|ms'| == |ms| + 1 && ms'[..|ms|] == ms && ms'[|ms|].id == r.id
          && ms'[|ms|].suggestedResponses == (if r.isMention == Some(true) then responses else [])))
  {
    var m := Record(r, now, if r.isMention == Some(true) then responses else []);
    AdmitRule(ms, m);
    AdmitKeepsIdsUnique(ms, m);
  }
}
