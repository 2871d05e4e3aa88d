# ImapScanner, modelled in Dafny

`ImapScanner.js` defines `ScanningInstance`, which logs in to an IMAP mailbox,
picks the messages whose subject matches a title filter, downloads and parses
each one, and returns one flat record per message: envelope fields, the
cleaned plain text of the body, the raw HTML, the attachments, and the links
found in the text.

This project models the deterministic logic of that file. Every answer of
the IMAP server, of the MIME parser and of the HTML parser is an input value:

- `Window` is the scan window of `getLastEmailsIds`, and the range that
  `getMailsFromRange` really fetches, which is the whole mailbox.
- `Selection` is the envelope loop of `getMailsFromRange`:
  - a missing or empty subject throws;
  - the misspelt `indcludes` throws;
  - the catch outside the loop ends selection and keeps what was collected.

  `Containment` selects the code as written (`AsWritten`) or with the call
  spelt `includes` (`AsIntended`).
- `Strings` and `CleanUp` cover the text clean-up of `getEmailContent`:
  - `replaceAll` of tabs, of newlines and of double spaces;
  - `replace` of the first doctype;
  - `trim`, with ECMAScript's own whitespace set.
- `Links` is the URL regular expression of `getAllLinksFromHtml`, written as
  an explicit left-to-right scan. An empty result is `None`, because
  `String.prototype.match` returns `null`.
- `Content` is the loop of `getEmailContent`. It updates an `array<Mail>` in
  place, one outcome of `fetchOne` per mail.
- `EmailsData` is the loop of `getEmailsData`.
- `Pipeline` is `init`, which chains the steps above.
- `Mailbox` holds the records; `Wrappers` and `Sequences` are small helpers.

Errors that escape the modelled code become `Failure` values:
- `CannotReadSource` is the `TypeError` at `message.source`;
- `CannotParse` is an exception from `simpleParser` or `parse`, which are
  called outside the `try`;
- `CannotReadLinks` is the `TypeError` at `mail?.parsedData.links`.

## Model

| member | source | states |
|---|---|---|
| Window.LastEmailsWindow | ImapScanner.js:84-92 | more messages than the limit gives start = count − limit and end = count, otherwise start = 1 and end = limit; start ≥ 1 always, and start ≤ end for a positive limit |
| Window.ScanWindowBounds | ImapScanner.js:84-92 | the window starts at 1 or later; it is non-empty for a positive limit; it ends at the last message when the mailbox exceeds the limit |
| Window.ScanWindowOneTooWide | ImapScanner.js:88-91 | with count > limit, the window covers limit + 1 existing messages, not limit |
| Window.FetchIgnoresWindow | ImapScanner.js:173-174 | with 1000 messages and limit 10 the window is 990..1000, but the fetched range is 1..1000 and holds all 1000 messages |
| Window.IntendedRangeIsLastMessages | ImapScanner.js:84-92 | the corrected range is within 1..count, holds exactly min(count, limit) messages, and ends at the last message |
| Selection.SelectMails | ImapScanner.js:170-205 | the loop returns exactly `Select`: nothing for an empty mailbox; otherwise the messages kept before the first throw, in fetch order |
| Selection.TitledPrefix | ImapScanner.js:181-182 | the length of the longest prefix of messages with a present, non-empty subject; the message after it has none |
| Selection.CollectIsSubsequence | ImapScanner.js:181-197 | the selection is an order-preserving subsequence of the fetched messages |
| Selection.IntendedCollect | ImapScanner.js:181-199 | with `includes`, selection stops at the first message without a subject and keeps exactly the matching messages before it |
| Selection.AsWrittenCollect | ImapScanner.js:184-199 | as written, `*` keeps every message up to the first one without a subject, and every other filter keeps nothing |
| Selection.KeepMatchingMembers | ImapScanner.js:190-195 | a message is kept iff it is in the list, has a subject, and its lower-cased subject contains the lower-cased filter (or the filter is `*`) |
| Selection.IntendedFilterSemantics | ImapScanner.js:184-195 | a falsy filter selects nothing; `*` selects every message reached; any other filter selects a reached message iff the subject contains the filter, ignoring case |
| Selection.TypoOnlyMattersForSubstringFilters | ImapScanner.js:184-194 | for a falsy or `*` filter the misspelt call makes no difference |
| Selection.GetMailsFromRange | ImapScanner.js:156-206 | ignores `min` and `max`; an empty mailbox gives []; `*` gives the titled prefix of the fetched messages; every other filter gives [] |
| Selection.GetMailsFromRangeIntended | ImapScanner.js:156-206 | with `includes`: [] for an empty mailbox; otherwise the matching messages of the titled prefix, as a subsequence of the fetched list |
| Selection.GetLastEmailsIds | ImapScanner.js:64-99 | the result is the as-written selection, whatever the message count and limit |
| Selection.MisspeltIncludesDropsMatches | ImapScanner.js:194 | with filter `invoice` and subjects "Your Invoice #2", "INVOICE READY", "Receipt", the code selects nothing; `includes` would select the first two |
| Strings.IndexFrom | ImapScanner.js:140 | the result is an occurrence at or after the start with no earlier one; `None` means there is none |
| Strings.RemoveChar | ImapScanner.js:137-138 | the result is no longer than the input, does not contain the character, and holds only characters of the input |
| Strings.RemoveCharCounts | ImapScanner.js:137-138 | deleting a character keeps every other character exactly as many times as it occurred |
| Strings.RemoveCharAppend | ImapScanner.js:137-138 | deleting a character from a concatenation deletes it from each part separately, so the kept characters stay in their order |
| CleanUp.RemoveDoubleSpaces | ImapScanner.js:139 | an even number of characters is deleted, no two adjacent spaces remain, and a non-space first character stays first |
| CleanUp.RemoveDoubleSpacesKeepsText | ImapScanner.js:139 | only spaces are deleted: with all spaces removed, input and output are equal |
| CleanUp.RemoveDoubleSpacesRun | ImapScanner.js:139 | a run of k spaces followed by a non-space or the end of the text keeps k mod 2 spaces, and the text after the run is handled on its own |
| CleanUp.RemoveDoubleSpacesChar | ImapScanner.js:139 | a character other than a space is kept in place, and the text after it is cleaned on its own |
| CleanUp.RemoveDoubleSpacesAppend | ImapScanner.js:139 | a text that does not end with a space is cleaned independently of what follows it; with the run and character lemmas this fixes the output run by run |
| CleanUp.RemoveDoubleSpacesKeepsVisible | ImapScanner.js:139 | deleting double spaces leaves the non-whitespace characters and their order unchanged |
| CleanUp.RemoveFirst | ImapScanner.js:140 | without an occurrence the text is unchanged; otherwise exactly one occurrence's length is deleted |
| CleanUp.RemoveFirstCutsFirst | ImapScanner.js:140 | when the doctype occurs, the result is the text before its first occurrence followed by the text after that occurrence |
| CleanUp.Trim | ImapScanner.js:141 | the result neither starts nor ends with whitespace, and is empty iff the input is all whitespace |
| CleanUp.TrimCutsOuterWhitespace | ImapScanner.js:141 | the result is a slice of the input, and everything cut on either side is whitespace |
| CleanUp.TrimIdempotent | ImapScanner.js:141 | trimming twice equals trimming once |
| CleanUp.TrimKeepsVisible | ImapScanner.js:141 | trimming leaves the non-whitespace characters and their order unchanged |
| CleanUp.CleanText | ImapScanner.js:135-141 | the cleaned text is no longer than the input, has no tab or newline, holds only input characters, and has no leading or trailing whitespace |
| CleanUp.RemoveWhitespaceKeepsVisible | ImapScanner.js:137-138 | deleting a whitespace character (tab, newline) leaves the non-whitespace characters and their order unchanged |
| CleanUp.CleanTextKeepsVisible | ImapScanner.js:135-141 | for text without `<` (so without a doctype), the cleaned content holds exactly the non-whitespace characters of the input, in the same order |
| Links.SchemeNameAt | ImapScanner.js:151 | the measured scheme name has length 0, 3, 4 or 5 and lies within the text |
| Links.SchemeAt | ImapScanner.js:151 | a non-zero scheme prefix has length 6, 7 or 8, lies within the text, and ends with `://` |
| Links.SchemeAtIsScheme | ImapScanner.js:151 | a non-zero scheme prefix lower-cases to `http://`, `https://`, `ftp://` or `file://` |
| Links.SchemeAtFindsScheme | ImapScanner.js:151 | conversely, if the k characters at `p` lower-case to one of those four prefixes, the scheme prefix at `p` has length k |
| Links.MiddleRun | ImapScanner.js:151 | the greedy run: every character in it is middle-class, and the character after it is not |
| Links.LastEndChar | ImapScanner.js:151 | backtracking finds the last end-class character in the range; none after it is end-class, and `None` means the range has none |
| Links.MatchAt | ImapScanner.js:150-151 | a match at `p` ends after `p` and within the text |
| Links.MatchAtParts | ImapScanner.js:150-151 | a match has a word boundary, a scheme, and an end-class last character; the rest of the middle-class run after it holds no end-class character |
| Links.MatchAtShape | ImapScanner.js:150-151 | the matched text is a scheme followed by middle-class characters ending in an end-class one; it is the longest such text at `p` |
| Links.MatchAtComplete | ImapScanner.js:150-151 | wherever the regular expression matches a text starting at `p`, the attempt at `p` succeeds and reaches at least as far |
| Links.MatchAtIsLongestMatch | ImapScanner.js:150-151 | the attempt at `p` succeeds iff the regular expression matches at `p`, and then returns the longest match there |
| Links.MatchIsLink | ImapScanner.js:150-151 | the matched text is a link that does not end with `?`, `!`, `:`, `,`, `.` or `;` |
| Links.ScanFrom | ImapScanner.js:152 | every span is a successful attempt starting at or after `p`; the spans do not overlap and are in text order |
| Links.ScanMissesNothing | ImapScanner.js:152 | every position where an attempt succeeds lies inside a reported span |
| Links.Scan | ImapScanner.js:152 | every span is a match of the regular expression; the spans are non-overlapping and in text order |
| Links.ScanCoversEveryMatch | ImapScanner.js:152 | every position where the regular expression matches is covered by a reported link |
| Links.GetAllLinksFromHtml | ImapScanner.js:149-154 | `None` iff nothing matches; otherwise one string per span, each the matched slice of the content, in order |
| Links.NullIffNoMatch | ImapScanner.js:152-153 | the result is `null` iff the regular expression matches nowhere in the content |
| Links.LinksAreWellFormed | ImapScanner.js:150-153 | every link starts, case-insensitively, with one of the four schemes; it continues with middle-class characters only and does not end with trailing punctuation |
| Links.NullWithoutSchemeSeparator | ImapScanner.js:152-153 | a text without `://` yields `null` |
| Content.FatalError | ImapScanner.js:116-126 | a fetch that resolved to nothing raises `CannotReadSource`; a source the parsers reject raises `CannotParse` |
| Content.FirstFatal | ImapScanner.js:116-126 | the index of the first outcome that throws out of the loop (no message, or a parser exception), or the length if there is none |
| Content.UpdateMails | ImapScanner.js:101-147 | fails iff some outcome throws out of the loop, with the exception of the first such outcome; every mail before it is updated by its fetch outcome; the later mails are unchanged |
| Content.GetEmailContent | ImapScanner.js:101-147 | the same, with the parse step being clean-up plus link scan |
| Content.EnrichedFacts | ImapScanner.js:128-144 | seqNum and envelope stay; an outcome other than a fetched message leaves the mail as it was; a fetched mail gets parsedData with the parser's fields, cleaned content without tab or newline, and `links` = the scanner on that content |
| EmailsData.GetEmailsData | ImapScanner.js:41-62 | fails with `CannotReadLinks` iff some mail lacks parsedData; otherwise one record per mail, in order, with the id, the envelope fields and the parsedData fields, and the parsedData recoverable from the record |
| Pipeline.SelectCandidates | ImapScanner.js:34 | the selection is `Select` for the chosen containment test, and no selected mail has parsedData yet |
| Pipeline.FetchAndFlatten | ImapScanner.js:35-36 | succeeds iff every fetch yields a parsed message; otherwise fails with the exception of the first outcome that throws out of the loop, or with `CannotReadLinks` if there is none; on success one record per mail with the id and the parsed subject, content and links |
| Pipeline.Init | ImapScanner.js:30-39 | the same for the whole run: on success record i has the id of selected mail i, the cleaned text of its body as content, and the scanner applied to that content as links |

## Left out

- Connecting and logging in (`createConnection`) and the IMAP protocol are left out. The answers of `status`, `fetch` and `fetchOne` are inputs.
- The errors thrown when `status` fails (ImapScanner.js:76-79, 164-168) are left out. The message count is an input.
- Taking and releasing the mailbox lock (`selectMailBoxLock`, `this.lock.release()`) is left out: it has no local effect.
- `simpleParser` and `node-html-parser` are external libraries. Their output (subject, html, attachments, innerText) is the `ParsedEmail` input, and a source they reject is the `ParseThrew` fetch outcome.
- The fetch options (`source`, `uid`, `envelope`, `maxLength`) are left out. The fetched envelopes are an input sequence.
- Logging, the unused `DISCORD_WEBHOOK` setting, and the async sequencing of `init` have no modelled effect.
- A failing envelope stream is not a separate input. The loop's catch treats it like any other throw, so it is modelled as the sequence of envelopes ending there.
- `toLocaleLowerCase` is modelled as ASCII lower-casing; locale rules and non-ASCII letters are left out.
- Mails are values in an `array<Mail>`. Aliasing between the selected list and other references to the same message objects is not modelled.
- `fetches` is assumed to line up one to one with the selected mails, in list order.
- Where the code does something other than its comments and log messages say, the model follows the code:
  - an empty subject is rejected like a missing one (`!emailTitle`);
  - the catch around the envelope loop ends the loop, although the comment at ImapScanner.js:200 says it skips one message;
  - a fetch that resolves to nothing is logged as skipped (ImapScanner.js:117), but `message.source` then throws;
  - the parsers run outside the `try`, so an exception from them ends the whole call rather than skipping the mail;
  - a mail whose fetch threw is left without `parsedData`, so `getEmailsData` then throws instead of leaving it out.
- Pipeline.Init: `getEmailContent`'s loop is reached through `FetchAndFlatten`, which runs `UpdateMails` with the clean-up and link-scan step. That is the body of `GetEmailContent`.

## Findings

| source | as written | input that shows it | evidently intended | confidence | as-written member | corrected member |
|---|---|---|---|---|---|---|
| ImapScanner.js:88-91 | start = count − limit gives a window of limit + 1 messages | count 10, limit 3 gives 7..10, four messages | start = count − limit + 1, the last `limit` messages | high, not executed | Window.ScanWindowOneTooWide | Window.IntendedRangeIsLastMessages |
| ImapScanner.js:156-174 | `getMailsFromRange(min, max)` ignores its arguments and fetches `1:total` | count 1000, limit 10: window 990..1000, fetched 1..1000 | fetch only the computed window, clamped to the mailbox | high, not executed | Window.FetchIgnoresWindow | Window.IntendedRangeIsLastMessages |
| ImapScanner.js:194 | `lowerTitle.indcludes(...)` is not a function; the throw ends selection, so every substring filter selects nothing | filter `invoice`; subjects "Your Invoice #2", "INVOICE READY", "Receipt" | `includes`: keep the first two | high, not executed | Selection.MisspeltIncludesDropsMatches | Selection.GetMailsFromRangeIntended |
