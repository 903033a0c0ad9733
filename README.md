# A verified model of the X posting pipeline's deterministic core

The repository automates posting to X: an orchestrator has a language model research themes, write and
edit drafts, and opens one ticket per draft in the GitHub tracker; a simpler draft generator does the same
with one prompt; a publisher strips the ticket's comments and posts the text with an OAuth 1.0a signed
request; a feedback collector reads the edited ticket back and keeps a log of the last 30 tickets; and a
test script checks the X credentials with one read and one write request.

This project models, in Dafny, the parts of those five scripts that compute rather than talk to the world:

- `FeedbackLog` (`feedback_log.dfy`): the feedback log as a class with `entries` and `lastUpdated`, the
  upsert by issue number with its 30-entry cap, the load fallback, the save stamp and the collector's `main`.
- `FeedbackExtract` (`feedback_extract.dfy`): the two ticket-body readers. The four regular expressions
  of the feedback reader and the four of the metadata reader are explicit searches that try candidate
  positions in the order a backtracking regular-expression engine does: `<!--[^>]*-->` (a comment with
  no `>` inside), `\s*`, lazy captures that stop at the first place their lookahead holds, and greedy
  runs of `\s`, `\S`, `.` and `\d`.
- `BodyRoundTrip` (`roundtrip.dfy`) and `FeedbackSections` (`sections.dfy`): the ticket bodies the
  orchestrator and the draft generator render, read back by the extractors.
- `Orchestrator` (`pipeline.dfy`): fence cleaning before `JSON.parse`, shell-quote escaping, the history
  summary, the title and body renderers, and the theme loop with its stages as injected functions.
- `DraftGenerator` (`draft.dfy`): the weighted post-type choice, the post time, the recent-ticket context,
  the title and body renderers, this script's `createIssue`, and its draft loop.
- `Publish` (`publish.dfy`): comment stripping, the empty-body and empty-content errors, the status
  classification, the permalink and `main`.
- `OAuth` (`oauth.dfy`), `PercentEncoding` (`percent.dfy`), `StringOrder` (`order.dfy`): the request
  signer of RFC 5849 (the signature base string of section 3.4.1, the HMAC-SHA1 signing key of section
  3.4.2, the `Authorization` header of section 3.5.1), with `encodeURIComponent` as a real encoder over
  UTF-8 and `Array.prototype.sort` as a sort by code point.
- `ApiTest` (`api_test.dfy`): the test script's credential check, read test and write test.
- `Strings` and `Wrappers`: JavaScript's white space, `trim`, `indexOf`, `split`, `join` and decimal
  digits; `Option` and `Result`.

The network, `gh`, files, the clock, randomness and HMAC-SHA1/base64 are parameters: each method takes
the results those calls would have produced (`Transport`, `Stages`, `Drafting`, `Crypto`, nonce bytes,
milliseconds, the stored log). The orchestrator calls the writer, the editor and `gh` anew for every
theme, so those replies also take the theme's position: equal themes may get different drafts and
addresses, or one may fail alone. The draft generator's calls need no position, because each draft's
time, and so its prompt and its title, lies in a slot of its own.

Behaviour of the code worth knowing:

- A failure while processing one theme (writer, editor, its JSON parse, or `createIssue`) aborts the
  whole orchestrator run rather than skipping that theme. `Orchestrator.RunPipeline` states that tickets
  exist exactly for the themes before the first failure.
- The draft region ends at the first `\n---`, which need not be a whole `---` line.
- A blank category does not read back as blank: `\s*` runs over the line end, and `.+` captures the
  whole theme line, label included (`BodyRoundTrip.BlankCategoryReadsThemeLine`). A blank theme reads
  back, in the same way, as the whole character-count line (`BodyRoundTrip.BlankThemeReadsCountLine`).
- A blank final draft reads back as the empty string: `\s*` runs up to the rule's dashes, finds no
  `\n---` after them, and gives back one newline, so the lazy capture is empty
  (`BodyRoundTrip.BlankDraftFound`).
- Each ticket's date is read from the clock when its theme is processed, so a run that crosses midnight
  (UTC) dates its later tickets a day later; `Orchestrator.RunPipeline` takes one date per theme.
- The orchestrator's escaping handles `"` and `` ` `` only, so `$` and `\` reach the shell unescaped. The
  draft generator escapes `"` only.
- The draft generator's footer labels carry no `**`, so its tickets yield no metadata at all
  (`BodyRoundTrip.DraftBodyNoMetadata`).

## Model

| member | source | states |
|---|---|---|
| FeedbackLog.FindIndex | scripts/collect-feedback.js:139 | `findIndex` by issue number: the first position carrying the number, or -1 when none does; `FeedbackLog.FindIndexFirst` states both |
| FeedbackLog.Upserted | scripts/collect-feedback.js:139-168 | the log after the upsert block: the entry with that number replaced in place, or the new entry appended, then the last thirty kept; `FeedbackLog.Log.Upsert` and the `Upsert*` lemmas state its properties |
| FeedbackLog.IndexFrom | scripts/collect-feedback.js:139 | the result is -1 or a position at or after the start whose entry has the number |
| FeedbackLog.IndexFromSpan | scripts/collect-feedback.js:139 | no entry between the start and the result (or the end, for -1) has the number |
| FeedbackLog.FindIndexFirst | scripts/collect-feedback.js:139 | `findIndex` is -1 exactly when no entry has the number, and otherwise the first position that has it |
| FeedbackLog.Cap | scripts/collect-feedback.js:165-168 | at most 30 entries; a log of at most 30 is unchanged; a longer one keeps exactly its last 30, in order |
| FeedbackLog.Loaded | scripts/collect-feedback.js:77-85 | a missing or unreadable file gives no entries and no `lastUpdated`; otherwise the stored log |
| FeedbackLog.DateOfTimestamp | scripts/collect-feedback.js:144 | `split('T')[0]` of `date + "T" + time` is the date, and a string without `T` is kept whole |
| FeedbackLog.MakeEntry | scripts/collect-feedback.js:141-154 | the entry carries the issue number, title and `closedAt`; `wasModified` iff an original draft; the final draft is trimmed; no `### 修正前` gives no original and no modification |
| FeedbackLog.Log.Load | scripts/collect-feedback.js:77-85 | the new log holds the loaded entries and stamp; a missing file gives the empty, valid log |
| FeedbackLog.Log.Upsert | scripts/collect-feedback.js:139-168 | the new entries are the upsert of the old ones, the stamp is untouched, at most 30 entries, and a valid log stays valid and holds the entry |
| FeedbackLog.Log.Save | scripts/collect-feedback.js:88-89 | `lastUpdated` becomes the injected time and the entries are untouched |
| FeedbackLog.UpsertExisting | scripts/collect-feedback.js:156-158 | a present number: its first entry is replaced where it sits, the length is kept, and every other entry stays at its position |
| FeedbackLog.UpsertNew | scripts/collect-feedback.js:159-168 | an absent number: the entry is appended last; below 30 nothing else changes; at 30 the oldest entry is dropped |
| FeedbackLog.CapUnique | scripts/collect-feedback.js:165-166 | capping keeps the issue numbers unique |
| FeedbackLog.UpsertKeepsUnique | scripts/collect-feedback.js:139-168 | an upsert keeps the issue numbers unique |
| FeedbackLog.UpsertPresent | scripts/collect-feedback.js:139-168 | after an upsert into a log of at most 30, the entry is in the log |
| FeedbackLog.UpsertIdempotent | scripts/collect-feedback.js:139-168 | upserting the same entry twice gives the log upserting it once gives |
| FeedbackLog.CapAppend | scripts/collect-feedback.js:159-168 | capping after each append is capping once at the end |
| FeedbackLog.UpsertAllDistinct | scripts/collect-feedback.js:139-168 | upserting distinct numbers one by one into an empty log keeps the last 30 of them, in order |
| FeedbackLog.UpsertOneToThirtyOne | scripts/collect-feedback.js:139-168 | upserting issue numbers 1..31 into an empty log leaves exactly 2..31 |
| FeedbackLog.CollectFeedback | scripts/collect-feedback.js:108-170 | the three errors (no issue number, no repository, no issue) in that order; otherwise the log is the upsert of the built entry into the loaded log, stamped with the injected time |
| FeedbackExtract.DraftAttempt | scripts/collect-feedback.js:23 | the draft pattern tried at one position: a match starts at `<!--` there and its capture ends where `\n---` begins |
| FeedbackExtract.FinalDraft | scripts/collect-feedback.js:23-25 | the trimmed draft capture, or none when the pattern does not match; `FeedbackExtract.DraftIs` and `BodyRoundTrip.DraftFound` state what it reads |
| FeedbackExtract.OriginalMatch | scripts/collect-feedback.js:29 | the span of the `### 修正前` capture, which stops before `\n### 修正理由`; `FeedbackExtract.OriginalIs` and the section lemmas state it |
| FeedbackExtract.ReasonMatch | scripts/collect-feedback.js:40 | the span of the `### 修正理由` capture, which runs to the end of the body; `FeedbackExtract.ReasonIs` states it |
| FeedbackExtract.CommentEnd | scripts/collect-feedback.js:23 | a match of `<!--[^>]*-->` starts at the position and ends at least seven characters later |
| FeedbackExtract.CommentEndIs | scripts/collect-feedback.js:23 | the comment ends just after the first `>` past `<!--` when `--` precedes it |
| FeedbackExtract.FindStop | scripts/collect-feedback.js:23 | the lazy capture ends at a place where its lookahead holds, and at the end of the body for `$` |
| FeedbackExtract.DraftMatch | scripts/collect-feedback.js:23 | a draft match lies before a `\n---` and needs a `<!--` in the body |
| FeedbackExtract.DraftMatchAt | scripts/collect-feedback.js:23 | the match is found at the first `<!--` from which the pattern matches |
| FeedbackExtract.SectionMatch | scripts/collect-feedback.js:29 | a section match lies before its lookahead and needs its heading in the body |
| FeedbackExtract.SectionFound | scripts/collect-feedback.js:29 | after the first heading, `\s*\n` ends at the last newline of the white space that follows it |
| FeedbackExtract.PlainStart | scripts/collect-feedback.js:29 | with no comment after that newline, the capture starts right after it |
| FeedbackExtract.CommentStart | scripts/collect-feedback.js:29 | with an optional comment after it, the capture starts after the comment and its white space |
| FeedbackExtract.Kept | scripts/collect-feedback.js:31-36 | a kept section is the trimmed capture |
| FeedbackExtract.KeptAroundSpace | scripts/collect-feedback.js:31-36 | leading white space does not change what is kept |
| FeedbackExtract.ExtractFeedback | scripts/collect-feedback.js:13-50 | `wasModified` iff an original draft; every value trimmed; sections are non-empty and do not start with `<!--`; no `<!--` gives no draft; no `### 修正前` gives the defaults for the original; no `### 修正理由` gives no original and no reason |
| FeedbackExtract.ExtractFacts | scripts/collect-feedback.js:23-37 | a draft match needs a comment, an original match needs the reason heading, and trimming twice is trimming once |
| FeedbackExtract.DraftBetween | scripts/collect-feedback.js:23-26 | the final draft is the trimmed text from the end of the first comment to the first `\n---` after its white space |
| FeedbackExtract.DraftIs | scripts/collect-feedback.js:23-26 | the final draft is the trimmed capture of the draft match |
| FeedbackExtract.OriginalIs | scripts/collect-feedback.js:29-37 | the original draft is what is kept of the capture, `wasModified` iff something is kept, and an empty capture keeps the defaults |
| FeedbackExtract.ReasonIs | scripts/collect-feedback.js:40-47 | the reason is what is kept of its capture, which runs to the end of the body |
| FeedbackExtract.PlainSection | scripts/collect-feedback.js:29-37 | a section without a comment: the original is what is kept of the text from the heading to the next `\n### 修正理由` |
| FeedbackExtract.CommentedSection | scripts/collect-feedback.js:29-37 | a section opened by a comment: the original is what is kept of the text after it up to `\n### 修正理由` |
| FeedbackExtract.CommentOnlySection | scripts/collect-feedback.js:29-37 | a section holding only a comment: no original and no modification |
| FeedbackExtract.OriginalEmpty | scripts/collect-feedback.js:33-36 | an empty capture gives no original and no modification |
| FeedbackExtract.PlainReason | scripts/collect-feedback.js:40-47 | a reason without a comment is what is kept of the rest of the body |
| FeedbackExtract.CommentedReason | scripts/collect-feedback.js:40-47 | a reason opened by a comment is what is kept of the body after the comment |
| FeedbackExtract.GreedyRun | scripts/collect-feedback.js:61-71 | a greedy run is non-empty, all of its class, and stops where the class stops |
| FeedbackExtract.LabelMatch | scripts/collect-feedback.js:61-71 | a label match is a non-empty run of its class and needs the label in the body |
| FeedbackExtract.LabelMatchAt | scripts/collect-feedback.js:61-71 | the match is taken at the first occurrence of the label after which the pattern matches |
| FeedbackExtract.TimeValue | scripts/collect-feedback.js:61-62 | no time label gives null; a time is non-empty and holds no white space |
| FeedbackExtract.LineValue | scripts/collect-feedback.js:64-68 | no label gives null; a category or theme is trimmed and holds no line terminator |
| FeedbackExtract.CountValue | scripts/collect-feedback.js:70-71 | no count label gives null |
| FeedbackExtract.ExtractMetadata | scripts/collect-feedback.js:53-74 | each field is null when its `**Label:**` marker is absent |
| BodyRoundTrip.FieldRead | scripts/collect-feedback.js:61-71 | a footer line after a label-free prefix: the search stops at its label and captures the value's run |
| BodyRoundTrip.DraftFound | scripts/collect-feedback.js:23-26 | after the placeholder comment and a blank line, the final draft is the trimmed draft up to the rule |
| BodyRoundTrip.BodyLayout | scripts/orchestrator.js:201-210 | the orchestrator's body is the head (comment, blank line, draft, blank line, `---`) and four footer lines in order |
| BodyRoundTrip.FooterTime | scripts/collect-feedback.js:61-62 | the scheduled time reads back from the footer |
| BodyRoundTrip.FooterCategory | scripts/collect-feedback.js:64-65 | the category reads back trimmed from the footer |
| BodyRoundTrip.FooterTheme | scripts/collect-feedback.js:67-68 | the theme reads back trimmed from the footer |
| BodyRoundTrip.FooterCount | scripts/collect-feedback.js:70-71 | the character count reads back from its digits and `字` |
| BodyRoundTrip.HeadFooterRoundTrip | scripts/collect-feedback.js:23-71 | a head and footer read back as the trimmed draft and the four footer values |
| BodyRoundTrip.IssueBodyRoundTrip | scripts/orchestrator.js:201-210 | the body the orchestrator renders reads back as the trimmed final draft, the time, the trimmed category and theme, and the count |
| BodyRoundTrip.BlankCategoryReadsThemeLine | scripts/collect-feedback.js:64-65 | with an empty category, the category read back is the trimmed theme line, label included |
| BodyRoundTrip.BlankThemeReadsCountLine | scripts/collect-feedback.js:67-68 | with an empty theme, the theme read back is the trimmed character-count line, label included |
| BodyRoundTrip.BlankDraftFound | scripts/collect-feedback.js:23-25 | after the comment line, a draft of white space only, followed by `\n---` and no later rule, reads back as the empty string |
| BodyRoundTrip.FooterRuleFree | scripts/orchestrator.js:206-209 | a footer whose time, category and theme have no line break holds no `\n---`, so the draft pattern stops at the body's own rule |
| BodyRoundTrip.DraftBodyLayout | scripts/generate-draft.js:194-201 | the draft generator's body is the head holding the trimmed draft and its two unstarred footer lines |
| BodyRoundTrip.DraftBodyNoMetadata | scripts/generate-draft.js:198-200 | a draft generator body yields null for all four metadata fields |
| BodyRoundTrip.DraftBodyDraft | scripts/generate-draft.js:194-201 | a draft generator body reads back as the trimmed draft |
| FeedbackSections.EditedDraft | scripts/collect-feedback.js:23-26 | an edited ticket's final draft is its trimmed draft |
| FeedbackSections.EditedReason | scripts/collect-feedback.js:40-47 | a reason section holding only a comment gives no reason |
| FeedbackSections.CommentedBefore | scripts/collect-feedback.js:29-37 | a `### 修正前` section holding only a comment gives no original and no modification |
| FeedbackSections.EditedBefore | scripts/collect-feedback.js:29-37 | a `### 修正前` section holding text gives what is kept of the text as the original, and `wasModified` iff something is kept |
| FeedbackSections.EditTextKeptSome | scripts/collect-feedback.js:33-36 | text that does not start with white space or `<` is kept, trimmed |
| FeedbackSections.CommentedSectionsFeedback | scripts/collect-feedback.js:13-50 | an edited ticket whose two sections hold only comments gives the trimmed draft, nulls and no modification |
| FeedbackSections.EditedSectionsFeedback | scripts/collect-feedback.js:13-50 | an edited ticket with text under `### 修正前` gives that text trimmed as the original, the trimmed draft, no reason and a modification |
| FeedbackSections.HelloWorldBody | scripts/collect-feedback.js:13-50 | the body `<!--c-->`, `Hello world`, `---`, and comment-only sections gives `Hello world`, nulls and no modification |
| FeedbackSections.OldTextBody | scripts/collect-feedback.js:29-37 | the same body with `Old text` under `### 修正前` gives the original `Old text` and a modification |
| Orchestrator.CleanFence | scripts/orchestrator.js:86 | `parseJSON`'s cleaning: text without fences is only trimmed, and a reply fenced as json, or fenced as another language, yields the trimmed inner text |
| Orchestrator.RemoveAll | scripts/orchestrator.js:86 | removing a pattern never lengthens the text |
| Orchestrator.RemoveAllAbsent | scripts/orchestrator.js:86 | a text without the pattern's first character is unchanged |
| Orchestrator.RemoveAllAt | scripts/orchestrator.js:86 | an occurrence is removed together with one newline right after it |
| Orchestrator.RemoveAllNoMatch | scripts/orchestrator.js:86 | text before the first occurrence is kept |
| Orchestrator.CleanPlain | scripts/orchestrator.js:86 | a text with no backtick is only trimmed |
| Orchestrator.CleanJsonFence | scripts/orchestrator.js:86 | a backtick-free text inside a `json` fence cleans to the trimmed text |
| Orchestrator.CleanOtherFence | scripts/orchestrator.js:86 | a fence with another tag (`js`) leaves the tag in the cleaned text |
| Orchestrator.EscapeChar | scripts/orchestrator.js:73-74 | each `c` gets a backslash before it; escaping distributes over concatenation (`Orchestrator.EscapeCharAppend`), and its length and counts are stated by `DraftGenerator.EscapeCharCounts` |
| Orchestrator.ShellEscape | scripts/orchestrator.js:73-74 | `"` first, then `` ` ``, escaped; it equals the one-pass escaping `Orchestrator.Escaped` (`Orchestrator.ShellEscapeIsEscaped`), which can be undone (`Orchestrator.EscapedRoundTrip`) |
| Orchestrator.Escaped | scripts/orchestrator.js:73-74 | the escaped text never starts with a quote or backtick |
| Orchestrator.EscapeCharAppend | scripts/orchestrator.js:73-74 | escaping one character distributes over concatenation |
| Orchestrator.ShellEscapeIsEscaped | scripts/orchestrator.js:73-74 | the two chained replaces equal one pass that escapes `"` and `` ` `` |
| Orchestrator.EscapedLength | scripts/orchestrator.js:73-74 | the length grows by the number of `"` and `` ` `` |
| Orchestrator.EscapedQuotesPreceded | scripts/orchestrator.js:73-74 | every `"` and `` ` `` in the output directly follows a backslash |
| Orchestrator.EscapedRoundTrip | scripts/orchestrator.js:73-74 | dropping the inserted backslashes gives back the input, so no other character changes |
| Orchestrator.Summary | scripts/orchestrator.js:96-98 | the first-run note when there are no recent tickets, otherwise the lines `- <title>` in order; stated by `Orchestrator.SummaryLines` |
| Orchestrator.TitleLines | scripts/orchestrator.js:97 | one line per title |
| Orchestrator.SummaryLines | scripts/orchestrator.js:96-98 | no titles give the first-run text; otherwise the summary splits into `- <title>` lines in input order |
| Orchestrator.RecentTitles | scripts/orchestrator.js:58-69 | a failed listing gives no titles; otherwise the listed ones |
| Orchestrator.Title | scripts/orchestrator.js:198-199 | the title is `[`, the date, a space, the time, `] ` and the category: its length, prefix and suffix |
| Orchestrator.TitleDate | scripts/orchestrator.js:198-199 | the title's first space-separated word is `[` and the date |
| Orchestrator.IssueBody | scripts/orchestrator.js:201-210 | the ticket body: comment line, blank line, final draft, blank line, rule and four labelled lines; `BodyRoundTrip.IssueBodyRoundTrip` states that the feedback collector reads every part back |
| Orchestrator.Themes | scripts/orchestrator.js:91-110 | the researcher's themes: the research call's error, or the parse of its cleaned reply, given the summary of the recent titles |
| Orchestrator.Reviewed | scripts/orchestrator.js:113-156 | the writer's draft, trimmed, reviewed by the editor and parsed after cleaning, with the writer's and editor's replies for that theme's position; the first error stops the theme |
| Orchestrator.Create | scripts/orchestrator.js:72-81 | `createIssue`: the command, run for that theme's position, gets the shell-escaped title and body, and its output is trimmed |
| Orchestrator.ThemeTicket | scripts/orchestrator.js:184-212 | one theme: the rendered ticket and its address, or the first error of the writer, the editor or `createIssue` |
| Orchestrator.Reached | scripts/orchestrator.js:180-214 | the number of leading themes processed lies between the start and the end |
| Orchestrator.ReachedSpan | scripts/orchestrator.js:180-214 | every theme before that number succeeds and the one at it fails |
| Orchestrator.ForEach | scripts/orchestrator.js:180-214 | the loop keeps one result per theme before the first failure, completes iff none fails, and stops with the first failure's message |
| Orchestrator.RunPipeline | scripts/orchestrator.js:162-222 | no API key, then no repository, abort before any stage; a failed research aborts with no tickets; otherwise ticket `k` is theme `k`'s ticket, made from the `k`-th writer, editor and `gh` replies and dated by the `k`-th clock reading, exactly for the themes before the first failure, and the run aborts with that theme's error |
| Orchestrator.ThemeLoop | scripts/orchestrator.js:180-214 | the themes in order, each with its own writer, editor and `gh` replies and its own clock reading: the tickets before the first failure, then completion or that failure's message |
| DraftGenerator.TotalWeight | scripts/generate-draft.js:59 | the sum of the weights; 10 for the three post types (`DraftGenerator.ChosenThresholds`) |
| DraftGenerator.Chosen | scripts/generate-draft.js:58-69 | the post type a draw selects: with the draw scaled by 10, idea up to 5, tool up to 8, release up to 10, and idea beyond; stated by `DraftGenerator.ChosenThresholds` |
| DraftGenerator.Pick | scripts/generate-draft.js:62-68 | the walk always returns one of the post types |
| DraftGenerator.SelectPostType | scripts/generate-draft.js:58-69 | the loop returns one of the three post types, the one the walk picks |
| DraftGenerator.ChosenThresholds | scripts/generate-draft.js:51-69 | the total weight is 10; `idea` up to 5, `tool` above 5 up to 8, `release` above 8 up to 10 |
| DraftGenerator.Variance | scripts/generate-draft.js:144 | `Math.floor(u * 61) - 30`; within ±30 minutes for a draw in [0, 1) (`DraftGenerator.VarianceRange`) |
| DraftGenerator.Hour | scripts/generate-draft.js:147 | the base hour plus the floor of minutes / 60 (`Math.floor`), which Dafny's `/` by a positive divisor equals; `DraftGenerator.PostTimeArithmetic` states hour and minute together |
| DraftGenerator.Minute | scripts/generate-draft.js:148 | the minute with JavaScript's `%`, always in [0, 60) (`DraftGenerator.PostTimeArithmetic`) |
| DraftGenerator.PostTime | scripts/generate-draft.js:142-151 | `HH:MM`, each part padded to two digits, within half an hour of the base hour; stated by `DraftGenerator.PostTimeFormat` |
| DraftGenerator.JsRem | scripts/generate-draft.js:148 | JavaScript's `%` takes the sign of the dividend and satisfies `a == b * trunc(a / b) + r` |
| DraftGenerator.VarianceRange | scripts/generate-draft.js:144 | for a draw in [0, 1), the variance is in [-30, 30] |
| DraftGenerator.PadStart | scripts/generate-draft.js:150 | `padStart` reaches the width, keeps the text at the end, and fills in front |
| DraftGenerator.PostTimeArithmetic | scripts/generate-draft.js:143-148 | the minute is in [0, 60) and `hour * 60 + min` is `base * 60 + variance` |
| DraftGenerator.PadStartTwo | scripts/generate-draft.js:150 | a number below 100 pads to two digits that read back as the number |
| DraftGenerator.PostTimeFormat | scripts/generate-draft.js:142-151 | the time is five characters `HH:MM` whose digits give the hour and minute, within 30 minutes of the base hour |
| DraftGenerator.RecentContext | scripts/generate-draft.js:162-164 | the context is empty iff there are no recent tickets |
| DraftGenerator.RecentContextLines | scripts/generate-draft.js:162-164 | otherwise it is the header followed by `- <title>` lines in order |
| DraftGenerator.DraftTitle | scripts/generate-draft.js:191-192 | the title is `[`, the date, a space, the time, `] ` and the type's description |
| DraftGenerator.CreateDraftIssue | scripts/generate-draft.js:129-139 | only `"` is escaped; a failure is rethrown with the `Issue作成失敗: ` prefix |
| DraftGenerator.EscapeCharCounts | scripts/generate-draft.js:132 | escaping `"` adds one character per `"` and leaves the number of backticks unchanged |
| DraftGenerator.NumDrafts | scripts/generate-draft.js:167 | one draft for a draw below 0.5, two otherwise |
| DraftGenerator.DraftBody | scripts/generate-draft.js:194-201 | comment line, trimmed draft, rule and the two unstarred footer lines; `BodyRoundTrip.DraftBodyDraft` and `BodyRoundTrip.DraftBodyNoMetadata` state what the feedback collector reads of it |
| DraftGenerator.DraftTicket | scripts/generate-draft.js:170-204 | one iteration: the type and time from that iteration's draws, the writer's draft, and the created ticket or the first error; `DraftGenerator.DraftTicketTitle` states its title |
| DraftGenerator.DraftSlot | scripts/generate-draft.js:170-192 | the title of draft *i* holds an `HH:MM` within 30 minutes of the base hour for *i* |
| DraftGenerator.DraftTicketTitle | scripts/generate-draft.js:170-192 | the ticket of iteration *i* is titled with the date, the time for slot *i* and the chosen type |
| DraftGenerator.TitleTime | scripts/generate-draft.js:192 | the time sits at a fixed offset after the date in the title |
| DraftGenerator.ForIndices | scripts/generate-draft.js:170-205 | the counting loop keeps one ticket per index before the first failure and stops with that failure |
| DraftGenerator.GenerateDrafts | scripts/generate-draft.js:154-205 | no API key aborts before anything else; otherwise one or two drafts, created in order until the first failure |
| Publish.StripComments | scripts/post-to-x.js:19 | `<!-- … -->` comments removed, lazily; text without `<!--` is kept (`Publish.StripNothing`), and an unclosed comment is kept from its opening on (`Publish.StripUnclosed`) |
| Publish.StripFrom | scripts/post-to-x.js:19 | stripping never lengthens the text |
| Publish.StripPlain | scripts/post-to-x.js:19 | text without `<!--` is kept as it is |
| Publish.StripComment | scripts/post-to-x.js:19 | a `<!--` is deleted up to and including the first `-->` after it |
| Publish.StripAtOpen | scripts/post-to-x.js:19 | the same, with the first `-->` found by search |
| Publish.StripUnclosed | scripts/post-to-x.js:19 | an unclosed `<!--` and everything after it are kept |
| Publish.StripNothing | scripts/post-to-x.js:19 | a body without `<!--` strips to itself |
| Publish.ExtractTweetContent | scripts/post-to-x.js:12-27 | an absent or empty body is the empty-body error; a result is non-empty and trimmed; a body without comments gives its trim, or the empty-content error when that is empty |
| Publish.ContentFacts | scripts/post-to-x.js:18-20 | the content is already trimmed, and a body without `<!--` gives `trim(body)` |
| Publish.ClassifyPost | scripts/post-to-x.js:104-118 | success iff status 201, with the body; 429 is the rate-limit error; other statuses are `API Error (<status>): <body>`; a transport error is `Request failed: ` and its message |
| Publish.ApiError | scripts/post-to-x.js:111 | `API Error (<status>): <body>`; the status and body can be read back from it (`Publish.ApiErrorRoundTrip`) |
| Publish.Permalink | scripts/post-to-x.js:144 | the status URL followed by the post id, which can be read back (`Publish.PermalinkRoundTrip`) |
| Publish.ApiErrorRoundTrip | scripts/post-to-x.js:111 | the status and body read back out of the API error text |
| Publish.PermalinkRoundTrip | scripts/post-to-x.js:144 | the permalink starts with `https://x.com/i/status/` and the id reads back out of it |
| Publish.ReadCredentials | scripts/post-to-x.js:129-131 | credentials exist iff all four variables are set |
| Publish.Record | scripts/post-to-x.js:141-158 | the URL file is written iff the post succeeded |
| Publish.PublishMain | scripts/post-to-x.js:126-160 | without credentials or content there is no request and the error file; otherwise one signed POST of the content, then the artifact of its outcome; exit code 0 iff the URL file |
| ApiTest.ReadAccess | scripts/test-x-api.js:77-114 | the read test yields data iff status 200, null for any other status, and rejects iff the transport fails |
| ApiTest.WriteAccess | scripts/test-x-api.js:117-175 | the write test yields the id and `https://x.com/i/status/<id>` iff status 201, null for any other status, and rejects iff the transport fails |
| ApiTest.RunApiTest | scripts/test-x-api.js:23-199 | no credentials: no request, exit 1; a signed GET first; a null read exits 1 before the write; after a read, a signed POST of the test message |
| OAuth.OAuthParams | scripts/post-to-x.js:52-59 | the six signed parameters in object-literal order; their keys are distinct (`OAuth.KeysDistinct`) and their values are the inputs (`OAuth.SignedValues`) |
| OAuth.Put | scripts/post-to-x.js:69 | setting a property: an existing key keeps its place and takes the value, a new key is appended, other keys keep their values; stated by `OAuth.PutSpec` |
| OAuth.Find | scripts/post-to-x.js:52-69 | the first position of a key, or the end |
| OAuth.FindFirst | scripts/post-to-x.js:52-69 | the first position holding the key is what is found |
| OAuth.PutSpec | scripts/post-to-x.js:69 | adding a key: an existing key keeps the key order, a new one is appended; the key maps to the value; other keys are unchanged |
| OAuth.UpperAscii | scripts/post-to-x.js:37 | `toUpperCase` on ASCII letters, character by character |
| OAuth.SortedKeysAreKeys | scripts/post-to-x.js:31-32 | sorting the keys gives only keys |
| OAuth.HexLower | scripts/post-to-x.js:54 | the nonce is two lower-case hexadecimal digits per byte |
| OAuth.Timestamp | scripts/post-to-x.js:56 | the timestamp holds only unreserved characters |
| OAuth.SignedKeysOrder | scripts/post-to-x.js:31-32 | the six signed keys sort to `oauth_consumer_key, oauth_nonce, oauth_signature_method, oauth_timestamp, oauth_token, oauth_version` |
| OAuth.HeaderKeysOrder | scripts/post-to-x.js:71-72 | the seven header keys sort with `oauth_signature` after `oauth_nonce` |
| OAuth.KeysDistinct | scripts/post-to-x.js:52-59 | `oauth_signature` is not among the six signed keys, so the signature never enters its own base string |
| OAuth.SignatureAdded | scripts/post-to-x.js:69 | adding the signature appends it to the six parameters |
| OAuth.SignedValues | scripts/post-to-x.js:52-59 | exactly six parameters, with the credentials, nonce, timestamp, `HMAC-SHA1` and `1.0` |
| OAuth.HeaderValues | scripts/post-to-x.js:69 | after signing, the seven parameters with the signature last |
| OAuth.ParameterString | scripts/post-to-x.js:31-34 | the sorted `key=value` items joined by `&`; it parses back to the sorted parameters (`OAuth.ParameterStringRoundTrip`) |
| OAuth.SignatureBase | scripts/post-to-x.js:36-40 | the upper-cased method, the encoded URL and the encoded parameter string, split back by `&` (`OAuth.BaseStringParts`) |
| OAuth.SigningKey | scripts/post-to-x.js:42 | the two encoded secrets joined by `&`, split back by `OAuth.SigningKeyParts` |
| OAuth.Signature | scripts/post-to-x.js:44-47 | base64 of HMAC-SHA1, keyed by the signing key, over the base string; both primitives are uninterpreted fields of `OAuth.Crypto` |
| OAuth.HeaderString | scripts/post-to-x.js:71-76 | `OAuth ` and the sorted `key="value"` items joined by `, `; it parses back to the sorted parameters (`OAuth.HeaderRoundTrip`) |
| OAuth.SignedParamsSorted | scripts/post-to-x.js:31-34 | the six parameters, sorted, are in their written order |
| OAuth.HeaderParamsSorted | scripts/post-to-x.js:71-74 | the seven parameters sorted are the header entries in ascending key order |
| OAuth.SignedParameterString | scripts/post-to-x.js:31-34 | the parameter string is the `k=v` items of the six joined by `&` |
| OAuth.EncodedHasNoDelimiters | scripts/post-to-x.js:33 | an encoded string holds none of `=`, `&`, `,`, `"` or white space |
| OAuth.ParsePairOfEncodePair | scripts/post-to-x.js:33 | an encoded pair reads back as the key and the value |
| OAuth.ParameterStringRoundTrip | scripts/post-to-x.js:31-34 | the parameter string reads back as the parameters in ascending key order (section 3.4.1.3.2 of RFC 5849) |
| OAuth.HeaderRoundTrip | scripts/post-to-x.js:71-76 | the header reads back as `OAuth ` and the parameters in ascending key order (section 3.5.1 of RFC 5849) |
| OAuth.BaseStringParts | scripts/post-to-x.js:36-40 | the base string splits at `&` into the upper-cased method, the encoded URL and the encoded parameter string, each decodable (section 3.4.1.1 of RFC 5849) |
| OAuth.SigningKeyParts | scripts/post-to-x.js:42 | the signing key splits at `&` into the two encoded secrets, each decodable (section 3.4.2 of RFC 5849) |
| OAuth.HeaderSignature | scripts/post-to-x.js:61-67 | the signature over the six signed parameters in literal order, which `OAuth.GenerateOAuthHeader` proves equal to signing their sorted string |
| OAuth.SpecifiedHeader | scripts/post-to-x.js:51-77 | the header for a nonce and a clock reading: the seven parameters in ascending key order; `OAuth.GenerateOAuthHeader` returns it |
| OAuth.GenerateOAuthHeader | scripts/post-to-x.js:51-77 | the method builds the header the specification function defines, and it reads back as the seven entries with the signature over the six |
| PercentEncoding.Utf8 | scripts/post-to-x.js:33 | a character is one to four UTF-8 bytes |
| PercentEncoding.HexDigit | scripts/post-to-x.js:33 | a digit writes as a hexadecimal digit that reads back as it |
| PercentEncoding.PercentBytes | scripts/post-to-x.js:33 | three characters per byte |
| PercentEncoding.EncodeChar | scripts/post-to-x.js:33 | an unreserved character kept, any other as `%XX` per UTF-8 byte; `PercentEncoding.DecodeEncode` states that decoding undoes it |
| PercentEncoding.Encode | scripts/post-to-x.js:33 | the output is unreserved characters and `%` only, and never shorter than the input |
| PercentEncoding.EncodeIdentity | scripts/post-to-x.js:33 | `encodeURIComponent` leaves a string alone iff it is all unreserved, and lengthens it otherwise |
| PercentEncoding.EncodeConcat | scripts/post-to-x.js:33 | encoding distributes over concatenation |
| PercentEncoding.Utf8RoundTrip | scripts/post-to-x.js:33 | the UTF-8 bytes decode back to the character |
| PercentEncoding.DecodeEncode | scripts/post-to-x.js:33 | percent-decoding the encoding gives back the string |
| StringOrder.LessEqTotal | scripts/post-to-x.js:32 | the order compares every two keys |
| StringOrder.LessEqAntisymmetric | scripts/post-to-x.js:32 | two keys each below the other are equal |
| StringOrder.LessEqTransitive | scripts/post-to-x.js:32 | the order is transitive |
| StringOrder.Insert | scripts/post-to-x.js:32 | insertion keeps the sequence sorted and adds exactly the key |
| StringOrder.Sort | scripts/post-to-x.js:32 | the result is sorted and a permutation of the keys |
| StringOrder.SortedUnique | scripts/post-to-x.js:32 | two sorted permutations of the same keys are equal, so any correct sort gives this order |
| Strings.IsSpace | scripts/collect-feedback.js:23 | the code points of JavaScript's `\s`, which `trim()` also removes |
| Strings.Trim | scripts/collect-feedback.js:25 | `trim()`: no white space at either end; the input is that result between a white-space prefix and suffix (`Strings.TrimShape`); idempotent (`Strings.TrimIdempotent`) |
| Strings.FindFrom | scripts/collect-feedback.js:23 | the first occurrence of a pattern at or after a start, or none; `Strings.FindFromSpan` states that none lies before it |
| Strings.Prefixed | scripts/orchestrator.js:97 | `map(i => prefix + i)`: one string per input, each the prefix followed by that input; used for the summary's `- ` lines and the header's `, ` spacing |
| Strings.Join | scripts/orchestrator.js:97 | `join`: the items with the separator between them; undone by `Strings.Split` (`Strings.SplitJoin`) |
| Strings.Split | scripts/collect-feedback.js:144 | `split` on one character: the pieces between separators, at least one; it undoes `Strings.Join` for pieces without the separator (`Strings.SplitJoin`) |
| Strings.TrimShape | scripts/collect-feedback.js:25 | `trim` removes exactly the leading and trailing white space |
| Strings.TrimIdempotent | scripts/collect-feedback.js:25 | trimming twice is trimming once |
| Strings.FindFromSpan | scripts/collect-feedback.js:23 | the search finds the first occurrence from its start |
| Strings.SplitJoin | scripts/orchestrator.js:97 | splitting lines joined by `\n` gives them back when none holds `\n` |
| Strings.IntToString | scripts/generate-draft.js:150 | `toString()` of an integer: a minus sign for a negative value, then the decimal digits of its magnitude, which read back to that magnitude (`Strings.DigitsValueOfNatToString`) |
| Strings.DigitsValueOfNatToString | scripts/collect-feedback.js:71 | `parseInt` of a number's decimal digits is the number |

## Left out

- Network I/O: the HTTPS requests, response accumulation and the calls to the language model are
  inputs (`Transport`, `Stages`, `Drafting`); only the mapping from status to outcome is modelled.
- `gh` calls, file reads and writes, environment variables, console output, `process.exit` and the
  5-second `setTimeout` of the test script are inputs and outputs of the methods (an exit code, the
  artifact written, the requests sent).
- `JSON.parse` and `JSON.stringify`: themes, verdicts, the responses' ids and the stored log are records;
  only the fence-cleaning text step before parsing is modelled.
- HMAC-SHA1 and base64 are the fields of `OAuth.Crypto`, uninterpreted; `crypto.randomBytes`,
  `Date.now` and `new Date().toISOString()` are injected values (the orchestrator's and the draft
  generator's dates as one reading per theme or draft).
- `Math.random` floating point: draws are exact reals and the weight subtraction is exact arithmetic.
- Prompt texts, prompt loading and the 403 diagnostic prints of the test script carry no logic.
- The parsing of `ISSUE_NUMBER`: `FeedbackLog.CollectFeedback` takes the integer `parseInt` produced, so a
  non-numeric value (`NaN`) is not modelled.
- `OAuth.UpperAscii`: `toUpperCase` is modelled for ASCII letters only; other characters are kept.
- `StringOrder.Sort`: `Array.prototype.sort` compares UTF-16 code units; the model compares code points,
  which agree on the `oauth_` keys the signer sorts.
- `PercentEncoding.Encode`: `encodeURIComponent` throws on a lone surrogate; Dafny's `char` holds only
  Unicode scalar values, so that error cannot arise in the model.
- `BodyRoundTrip.IssueBodyRoundTrip`: stated for a character count of at least zero; a draft without
  `\n---` and without footer labels; a non-empty scheduled time without white space or footer labels; and
  a category and a theme that are not blank after trimming and have no line break or footer label. A
  blank draft is covered (it reads back as the empty string, `BodyRoundTrip.HeadFooterRoundTrip`); a
  blank category or theme does not read back as blank (`BodyRoundTrip.BlankCategoryReadsThemeLine`,
  `BodyRoundTrip.BlankThemeReadsCountLine`); other bodies are not proved to round-trip.
- `BodyRoundTrip.DraftBodyNoMetadata`: stated for draft text and times without footer labels.
- `BodyRoundTrip.DraftBodyDraft`: stated for drafts without `\n---` that are not blank.
- `BodyRoundTrip.BlankCategoryReadsThemeLine`: stated for an empty category only, not for one of spaces.
- `BodyRoundTrip.BlankThemeReadsCountLine`: stated for an empty theme only, not for one of spaces.
- `FeedbackExtract.CountValue`: the digit run is read as an exact natural number; `parseInt` returns a
  double, so a count above 2^53 would be rounded in the code.
- `FeedbackSections.CommentedSectionsFeedback` and `FeedbackSections.EditedSectionsFeedback`: stated for
  drafts, comments and edit text without `#`, drafts without `\n---`, and edit text starting with a
  character other than white space or `<`.
- `FeedbackSections.HelloWorldBody` and `FeedbackSections.OldTextBody`: the example bodies are stated
  through the function that assembles them from their parts, not as a single literal.
