# Slack mention assistant: a verified model

The browser extension watches an open Slack tab for messages that mention the user. It keeps a list of those mentions, suggests short replies, and lets the user open, answer and dismiss them from a popup. This project models its core in Dafny and proves what that core promises.

The model has four parts:

- **Content script** (`content.js`).
  - `detectCurrentUser` works out who the user is. It reads the user elements in order, then the page title. It also derives the alternate handles to look for.
  - `scanForMentions` decides which message elements and sidebar indicators are reported to the background, with which flags, ids, threads, timestamps and deep links. The unread-indicator and open-DM reports are rate-limited, and the scan leaves a cursor for the next one.
  - The script's three module variables form the `ContentScript` class. Its two operations are methods proved against the pure rules in the modules `Identity` and `Scan`.
- **Background worker** (`background.js`).
  - The `mentionFound` handler raises a notification for every report.
  - Only for an actual mention, it asks for suggested replies. These come from the Gemini tab, the OpenAI or Claude API, or four fixed defaults.
  - It then stores the record unless its id is already stored.
  - The vendor replies are split on numbering or newline runs, blank pieces are dropped, and four are kept.
- **Gemini page script** (`gemini-content.js`). `parseResponses` cuts the answer into numbered items, else into lines, else keeps it whole. At most four items are handed back.
- **Popup** (`popup.js`).
  - It removes the entry the user opens, by id, and every entry of a thread once a reply is sent. Each time it sends the remaining count in an `updateBadge` message. No listener handles that message, so no badge changes.
  - It shows the list newest first, using an in-place insertion sort on an array, with a summary line.
  - It validates and stores the Slack URL, the manual username and the API key.

Strings are `seq<char>`. `String.prototype.split` with the extension's four regular expressions is written out in the module `Splitting`, as a recogniser per separator plus the ECMAScript split loop. `trim`, `toLowerCase`, `includes`, `parseInt` and `filter`/`slice` are in `Text` and `Seqs`.

Page reads (`querySelector`, attributes, `textContent`) become input facts of a `Page` or `UserFacts` value. Each `generateId()` call site receives a pre-drawn token. All `Date.now()` calls of one scan are the one instant `now`. What the Gemini tab or the vendor APIs answered is a `Replies` value, with `None` for a failed request.

## Model

| member | source | states |
|---|---|---|
| Identity.FirstNamed | content.js:53-57 | the first selector text, in selector order, that is not blank, trimmed: every earlier text is missing or blank; None exactly when every text is missing or blank |
| Identity.TitleName | content.js:94-97 | a name exists exactly when the title contains the separator (space, vertical bar, space) and the trimmed text before its first occurrence is neither empty nor "Slack"; the name is that trimmed text |
| Text.BeforeFirstOf | content.js:96 | `split(sep)[0]`: a prefix of the text that holds no occurrence of the separator and is followed by the separator, unless it is the whole text |
| Identity.Detect | content.js:33-111 | a name read from a user element is trimmed |
| Identity.AlternatesShape | content.js:62-85 | every alternate is a non-empty lower-case string, the fixed handle is among them, there are at most four, and the first is the lower-cased first word |
| Identity.AlternatesOfSeveralWords | content.js:62-85 | a name of two or more words gives first word, last word, initial plus last word, then the handle unless already present |
| Identity.AlternatesOfOneWord | content.js:62-85 | a one-word name gives its lower-case form, then the handle unless it is the handle |
| Identity.TwoWordAlternates | content.js:62-85 | the alternates of "first last", in terms of the three derived handles |
| Identity.AlternatesOfDrewBomhof | content.js:62-85 | "Drew Bomhof" gives exactly drew, bomhof, dbomhof |
| Identity.HandleCanRepeat | content.js:62-85 | every name made of two words that both lower-case to the handle lists the handle twice, first and second |
| Identity.SelectorDecides | content.js:53-88 | off the login page a named user element decides the name and its alternates, whatever the title says |
| Identity.TitleDecides | content.js:93-104 | without a named user element, a usable title sets the name, and the handle alone is watched |
| Identity.NothingDecides | content.js:107-110 | with neither, the old name stays and the handle alone is watched |
| Identity.DetectOnLoginPage | content.js:35-42 | the login page, and only the login page, returns failure without touching the variables |
| Identity.HandleAlwaysWatched | content.js:82-85 | off the login page the handle is always watched, and all alternates are non-empty and lower case |
| Identity.FoundSetsName | content.js:56-59 | a success always leaves a non-empty, trimmed name |
| Identity.TitleFallback | content.js:94-103 | a title detection happens only without a named user element; it sets a name other than "Slack" and only the handle as alternate |
| Identity.UndetectedKeepsName | content.js:107-110 | a failure off the login page keeps the name and resets the alternates to the handle |
| Identity.DetectIdempotent | content.js:33-111 | detecting twice on the same page gives what detecting once gives |
| Scan.MentionWithoutAtForms | content.js:171-193 | the "@" forms add nothing: the test holds exactly when the name, the marker, an alternate, or the handle in the special conversation is present |
| Scan.AtAlternateIsMention | content.js:176-183 | an at-mention of any alternate makes the message a mention |
| Scan.DMByUrlOfSegment | content.js:162 | for a URL ending in "/segment", the DM test is "/client/" in the URL and a segment starting with "D" |
| Scan.MessageTimestamp | content.js:204 | the timestamp is now, or a non-zero multiple of 1000 |
| Scan.TimestampOfPlatformTs | content.js:204 | a thread id "seconds.fraction" with positive seconds is read as seconds times 1000 |
| Scan.UntimedMessageIsNow | content.js:200-204 | a message without thread attributes is stamped with the scan time |
| Scan.MessageUrlLinksThread | content.js:209-216 | the deep link holds the thread id, keeps the page URL before its first '#', and building it twice changes nothing |
| Scan.MessageEmissionRule | content.js:164-228 | a message is reported exactly when it is a mention or the page is a DM, it has a container, and its timestamp is past the cursor; the report carries both flags, the id, the thread and the deep link |
| Scan.MessageReportsFromElements | content.js:164-238 | at most one report per message element, and every report comes from an element |
| Scan.UntimedCandidateReportedEveryScan | content.js:199-205 | a candidate message without thread attributes is reported again by every later scan, linked to the page URL |
| Scan.IndicatorsAreGroups | content.js:241-248 | the four selector groups, joined, are the indicator list the rules use |
| Scan.AmbientReportsAppend | content.js:248-285 | scanning two element lists in turn reports what each reports, in that order |
| Scan.AmbientClosedEmitsNothing | content.js:267 | within ten seconds of the cursor no indicator is reported |
| Scan.AmbientOnePerIndicator | content.js:253-283 | past the gate, every indicator inside a channel entry gives exactly one report |
| Scan.SameChannelReportedTwice | content.js:253-283 | two indicators of the same channel give two reports with the same channel id |
| Scan.CooldownReportsMessagesOnly | content.js:267-311 | within ten seconds of the cursor a scan reports messages only |
| Scan.SecondScanWithinCooldown | content.js:267-328 | a scan within ten seconds of a completed scan reports messages only |
| Scan.DmOpenGate | content.js:311-326 | at most one open-DM report, exactly when the URL names a DM and thirty seconds have passed |
| Scan.CompatPageRule | content.js:127-149 | the compatibility page gives at most one report, exactly for a DM URL, as a DM without mention flag or link, and keeps the cursor |
| ContentScript.MentionsAnyAlternate | content.js:176-183 | the alternates loop with early exit finds a match exactly when some alternate or its "@" form occurs |
| ContentScript.MessageMentions | content.js:171-193 | computes the mention test of one message |
| ContentScript.MessageReportOf | content.js:164-237 | the loop body's report for one message equals the emission rule's |
| ContentScript.ScanMessages | content.js:164-238 | the message loop sends exactly the rule's reports, in page order |
| ContentScript.ScanSelector | content.js:248-284 | the inner loop sends the rule's reports for one selector's elements, in order |
| ContentScript.ScanIndicators | content.js:241-285 | the outer loop over the four selectors sends the rule's reports for all indicators |
| ContentScript.ContentScript.constructor | content.js:4-6 | no name, no alternates, the cursor at load time |
| ContentScript.ContentScript.DetectCurrentUser | content.js:33-111 | the variables become what detection prescribes, and the result says whether a name was found |
| ContentScript.ContentScript.ScanForMentions | content.js:117-329 | sends exactly the scan's reports, detects first when no name is known, and moves the cursor to the scan time except on the compatibility page |
| GeminiContent.ParseResponses | gemini-content.js:110-127 | never returns an empty list |
| GeminiContent.GeminiSuggestions | gemini-content.js:72-75 | between one and four suggestions |
| GeminiContent.TrimAllFilledIsClean | gemini-content.js:112-123 | trimmed non-blank pieces are non-empty and have no white space at either end |
| GeminiContent.ParseResponsesShape | gemini-content.js:110-127 | numbered items trimmed when there are two or more, else lines trimmed when there are two or more, else exactly the whole text trimmed |
| GeminiContent.FilledPiecesOccur | gemini-content.js:112-119 | every non-blank piece occurs in the answer |
| GeminiContent.SuggestionsOccurInAnswer | gemini-content.js:110-127 | every suggestion is text that occurs in the answer |
| GeminiContent.SingleLineKeptWhole | gemini-content.js:119-126 | a single unnumbered line comes back as one trimmed suggestion |
| Splitting.SplitHasNoNewline | background.js:265 | splitting on newline runs leaves no piece with a newline |
| Splitting.WordsAreWords | content.js:62 | the words of a trimmed name are non-empty and hold no white space |
| Background.RecordDefaults | background.js:125-134 | the stored record keeps id, text, thread and channel, is stamped now, and falls back to null link and false flag |
| Background.IndexOfId | background.js:119 | the first position holding the id, or -1 when none does |
| Background.FindIndex | background.js:119 | the findIndex loop returns that position |
| Background.AdmitRule | background.js:118-135 | a stored id leaves the list unchanged, a new id appends exactly the record, and afterwards the id is stored |
| Background.AdmitKeepsIdsUnique | background.js:118-135 | admission keeps ids unique |
| Background.AdmitIdempotent | background.js:118-135 | admitting a second report with the same id changes nothing |
| Background.NotificationShape | background.js:102 | the notification is the fixed prefix, the report text (its first 100 characters when longer) and the closing `..."` |
| Background.VendorRepliesShape | background.js:263-268 | at most four vendor replies, none blank, none spanning a line, each occurring in the reply |
| Background.VendorRepliesKeepSpaces | background.js:265 | vendor pieces are not trimmed |
| Background.VendorRepliesCanBeEmpty | background.js:265-268 | an empty vendor reply gives no suggestions at all |
| Background.AtMostFourSuggestions | background.js:145-199 | never more than four suggestions, whatever the source |
| Background.SourceSelection | background.js:145-199 | Gemini when enabled, else defaults without a key, else the configured vendor ("openai", "claude" or "gemini"); defaults on failure or an unknown type |
| Background.SuggestionsHaveASource | background.js:145-199 | every suggestion is a default reply or occurs in the answer of a source |
| Background.BackgroundWorker.constructor | background.js:7-13 | an empty list, and OpenAI with no key and Gemini off |
| Background.BackgroundWorker.MentionFound | background.js:96-137 | one notification per report, and the record admitted with suggestions only for a mention |
| Background.MentionFoundOutcome | background.js:112-135 | for the record `mentionFound` stores: a stored id leaves the list unchanged; a new id is appended last, after the old list, with the suggestions for a mention and none otherwise; ids stay unique |
| Popup.RemoveByIdKeepsOthers | popup.js:383 | opening an entry keeps exactly the entries with another id, in order and with their multiplicities, and shortens the list exactly when the id was there |
| Popup.RemoveByThreadKeepsOthers | popup.js:499 | sending a reply keeps exactly the entries of other threads, in order and with their multiplicities |
| Popup.RemoveUndoesAdmit | popup.js:383 | opening an entry just admitted under a new id gives back the list before admission |
| Popup.SortNewestFirst | popup.js:353 | the array ends newest first and is a permutation of what it was |
| Popup.InsertNewest | popup.js:353 | one insertion step extends the sorted prefix by one, permuting the array |
| Popup.MentionClauseWording | popup.js:456 | the mention clause ends in " mention)" exactly for one mention and in " mentions)" exactly for more |
| Popup.DMClauseWording | popup.js:457 | the DM clause ends in " DM)" exactly for one DM and in " DMs)" exactly for more |
| Popup.SummaryTotalReadsBack | popup.js:455 | the summary starts "Found " and the total after it reads back |
| Popup.SummaryMentionsReadBack | popup.js:456 | a mention clause follows "notification(s)" and its count reads back |
| Popup.SlackUrlOfSegments | popup.js:106 | every URL made of the client prefix and two segments passes, giving those segments back |
| Popup.SlackUrlIsSegments | popup.js:106 | every URL that passes is the client prefix and two segments |
| Popup.DefaultSlackUrlMatches | popup.js:4 | the built-in URL passes the form's check |
| Popup.PopupState.ConfiguredSlackUrl | popup.js:88-93 | the stored URL when one is stored and non-empty, else the default (an empty string counts as missing); always a valid URL |
| Popup.PopupState.SaveSlackUrl | popup.js:97-118 | an empty or non-matching trimmed URL is refused and nothing is stored; otherwise the trimmed URL is stored |
| Popup.PopupState.SaveManualUsername | popup.js:251-262 | a non-blank name is stored trimmed with its lower-case form as only alternate; a blank one is refused |
| Popup.PopupState.SaveApiSettings | popup.js:675-691 | a blank key is refused; a saved key always turns Gemini off |
| Popup.PopupState.OpenMention | popup.js:374-391 | only an entry with a non-empty link reacts: the link opens, the id is removed, and the remaining count is sent for the badge (no handler receives it); the stored URL stays valid |
| Popup.PopupState.SendResponse | popup.js:484-511 | with a Slack tab the reply is sent, the thread removed and the remaining count sent for the badge (no handler receives it); without one nothing changes |
| Popup.PopupState.LoadMentions | popup.js:328-460 | the entries newest first, a permutation of the stored list, with the summary counting them; nothing for an empty list |

## Left out

- Page access, Chrome APIs, timers, alarms and message listeners are not modelled. This covers `querySelector`, highlighting, `chrome.storage`, `chrome.tabs` and notifications. Their results are inputs, and storage, the notification list and the `updateBadge` counts the popup sends are fields. The toolbar badge is not: no listener handles `updateBadge` (popup.js:694-699).
- Strings are sequences of characters, not UTF-16 code units. `substring(0, 100)` (background.js:102) and `charAt(0)` (content.js:77) can split a surrogate pair in the source; the model never does.
- The content script's message listener and `sendSlackResponse` are not part of this model (content.js:9-30, 332-358). Nor are the popup's username fetch from a Slack tab, Gemini availability checks and rendering.
- `generateId` randomness: each call site receives a token as input. Reports without a platform id are therefore not deduplicated across scans, and `UntimedCandidateReportedEveryScan` shows the repeat.
- The HTTP calls to OpenAI and Claude, and the Gemini page automation that types the prompt and waits for the answer, are outside the model. Only what they return is modelled: the reply content or a failure.
- Concurrency is not modelled. This includes the race between generating suggestions and reading storage in `mentionFound`, and the asynchronous storage callbacks.
- White space and case are ASCII only. `trim`, `\s` and `toLowerCase` here do not cover Unicode white space or non-ASCII letters.
- `parseInt` is read as an unbounded integer. Floating-point precision of large numbers and `Infinity` are out.
- Timestamps are milliseconds (`nat`). The ISO string the record stores, its parsing by `new Date`, and `formatTimestamp` are not modelled.
- The notification is modelled as its message text only. Title, icon, buttons and priority are fixed and left out.
- Popup.SortNewestFirst: `Array.prototype.sort` is stable in current engines; the model proves ordering and permutation but not stability.
- Popup.PopupState.LoadMentions: the DM count of the summary is always 0. Stored records have no `isDM` field, so `mentions.filter(m => m.isDM)` is always empty.
- Identity.AlternatesShape: the list of alternates is not free of repeats. The script adds the fixed handle only when missing, but a name whose two words both lower-case to the handle lists it twice (`HandleCanRepeat`).
- Unread-indicator reports are not merged per channel: the code sends one per matching element, and the same badge can match two selectors. The model follows the code (`SameChannelReportedTwice`).
