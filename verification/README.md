# sensu-discord-handler, modelled in Dafny

The Sensu Discord handler turns one monitoring event into a Discord webhook message.
It first checks that a webhook URL is configured. It then classifies the check status
(0 resolved, 2 critical, anything else a warning) into a colour and a label. It renders
the description template and expands the two-byte escape `\n` into real line feeds.
Next it assembles an embed with a fixed title and three fields (Status, Entity, Check),
and wraps the encoded embed in `{"embeds": [...]}` for an HTTP POST. `main.go` also
defines a one-line summary, `formattedMessage`, that nothing in it calls: an action word,
the key `entity/check` and the chomped check output, cut to 100 bytes plus "..." when
it is longer.

This project models the pure part of `main.go`:

- `bytestrings.dfy` (`ByteStrings`): Go strings as sequences of bytes, and a byte counter.
- `text.dfy` (`Text`): `strings.Trim`, `chomp`, and the `\n` expansion of line 180,
  with their properties.
- `status.dfy` (`Status`): `messageColor`, `messageStatus` and `formattedEventAction`.
  `Classify` is a three-way severity used as an independent reference for them.
- `handler.dfy` (`Handler`): `checkArgs`, `eventKey`, `eventSummary` (as written and
  corrected), `formattedMessage`, `messageEmbed` and the request body of line 212.

The global `plugin` configuration is passed in explicitly. The alert flag and mention
come in as `Settings`, the webhook URL as a parameter of `CheckArgs`, and the template
engine's result as a `Rendering` (text plus error flag). Strings are byte sequences, so
the truncation in `eventSummary` counts bytes, as Go's slicing does. The cutsets
`"\n"`, `"\r"` and `"\r\n"` are ASCII, and Go trims ASCII cutsets byte by byte, so
`chomp` is modelled on bytes too. The event's status is an unbounded `int`. Its Go
type is declared outside `main.go`, and an unbounded integer covers any width.

`main.go` applies no length cap to the embed description. It truncates only inside
`eventSummary`, and by bytes, so the model has no cap on the description either.

## Model

| member | source | states |
|---|---|---|
| `Text.TrimLeftKeepsSuffix` | main.go:129 | a left trim keeps a suffix of its input, drops only cutset bytes, and the kept part does not start with one |
| `Text.TrimRightKeepsPrefix` | main.go:129 | a right trim keeps a prefix of its input, drops only cutset bytes, and the kept part does not end with one |
| `Text.Trim` | main.go:129 | `strings.Trim` returns a contiguous piece of its input; every byte outside it is in the cutset, and the piece starts and ends outside the cutset |
| `Text.TrimUnique` | main.go:129 | that description of a trim determines the result uniquely |
| `Text.TrimCompose` | main.go:129 | trimming with a cutset, then trimming the result with a larger cutset, is one trim with the larger cutset |
| `Text.TrimShape` | main.go:129 | a trim is no longer than its input, is a substring of it, starts and ends outside the cutset, and is empty exactly when every input byte is in the cutset |
| `Text.Chomp` | main.go:128-130 | the three nested trims of `chomp` give the input with every leading and trailing `\r` and `\n` removed |
| `Text.ChompIsTrim` | main.go:128-130 | `chomp(s)` equals a single `strings.Trim(s, "\r\n")` |
| `Text.ChompShape` | main.go:128-130 | `chomp` returns a contiguous, unchanged substring with no leading or trailing `\r`/`\n`, empty exactly when the input is all line breaks |
| `Text.ChompClean` | main.go:128-130 | a string with no leading or trailing line break is returned unchanged |
| `Text.ChompIdempotent` | main.go:128-130 | `chomp(chomp(s)) == chomp(s)` |
| `Text.EscapeCount` | main.go:180 | counts the positions where a `\` `n` pair starts; zero exactly when the string has no such pair |
| `Text.ExpandNewlineEscapes` | main.go:180 | the expansion never lengthens the string |
| `Text.ExpandLength` | main.go:180 | the result is shorter than the input by exactly the number of `\` `n` pairs in the input |
| `Text.ExpandLineFeeds` | main.go:180 | the result has one more line feed per `\` `n` pair of the input |
| `Text.ExpandBackslashes` | main.go:180 | the result has one fewer backslash per `\` `n` pair of the input |
| `Text.ExpandLeavesNoEscapes` | main.go:180 | no `\` `n` pair is left in the result, including one formed across a replacement |
| `Text.ExpandUnchangedIff` | main.go:180 | the string comes back unchanged exactly when it holds no `\` `n` pair |
| `Text.ExpandIdempotent` | main.go:180 | expanding twice gives the same result as expanding once |
| `Text.ExpandUndoesEscape` | main.go:180 | writing each line feed as `\` `n` and then expanding gives back any text that has no literal `\` `n` of its own |
| `Status.MessageColor` | main.go:148-157 | 3061373 exactly for status 0, 14687834 exactly for status 2, 15512110 for every other status (negatives and 1 included); always a 24-bit colour |
| `Status.MessageStatus` | main.go:159-172 | "Resolved" exactly for status 0 and "Warning" exactly for a status other than 0 and 2; without alerting on critical the label is "Critical" exactly for status 2; a critical label always ends in "Critical" |
| `Status.FormattedEventAction` | main.go:119-126 | "RESOLVED" exactly when the status is 0, "ALERT" exactly when it is not |
| `Status.MentionUnusedWithoutAlert` | main.go:164-168 | with alerting on critical off, the label does not depend on the mention string |
| `Status.CriticalLabelWithAlert` | main.go:164-165 | with alerting on critical on, a critical label is the mention followed by " Critical" |
| `Status.ColorIdentifiesSeverity` | main.go:148-157 | two statuses get the same colour exactly when they fall in the same class of 0, 2 and other |
| `Status.LabelIdentifiesSeverity` | main.go:159-172 | for any alert flag and mention, two statuses get the same label exactly when they fall in the same class |
| `Status.ClassifiersAgreeOnResolved` | main.go:119-172 | the action word is "RESOLVED", the colour green, the label "Resolved" and the class Resolved each exactly when the status is 0 |
| `Handler.CheckArgs` | main.go:111-117 | fails exactly when the webhook URL is empty, and the error names the `--webhook-url` option |
| `Handler.EventKey` | main.go:132-134 | the key is the entity name, a slash and the check name |
| `Handler.EventKeyInjective` | main.go:132-134 | when entity names hold no slash, equal keys mean equal entity and check names |
| `Handler.EventSummaryAsWritten` | main.go:136-142 | defined only when the slice at line 139 is in range; the summary is the key, a colon and the chomped output when the raw output fits, else its first `maxLength` bytes and "..."; the part after the colon is at most `maxLength + 3` bytes |
| `Handler.EventSummary` | main.go:136-142 | corrected summary, total for every output: the key and a colon, then at most `maxLength + 3` bytes, and the whole chomped output when it fits |
| `Handler.EventSummaryTruncates` | main.go:138-139 | an output over the cap is cut to its first `maxLength` bytes and followed by "..." |
| `Handler.SummaryAsWrittenAgrees` | main.go:136-142 | the code as written and the corrected summary give the same result whenever the raw and chomped outputs are on the same side of the cap |
| `Handler.SummaryAsWrittenOutOfRange` | main.go:138-139 | an output of 101 line feeds passes the length test with cap 100, but its chomped form is empty, so the slice is out of range |
| `Handler.SummaryAsWrittenMarksUncutOutput` | main.go:138-139 | when the chomped output is exactly `maxLength` bytes and the raw output is longer, the code as written appends "..." to the whole, uncut chomped output |
| `Handler.Headline` | main.go:145 | the layout of `formattedMessage`: starts with "RESOLVED - " exactly when the status is 0, otherwise with "ALERT - ", and the given summary follows unchanged |
| `Handler.FormattedMessage` | main.go:144-146 | the message starts with "RESOLVED - " exactly when the status is 0, otherwise with "ALERT - ", and continues with the corrected summary: the chomped output when it fits in 100 bytes, else its first 100 bytes and "..." |
| `Handler.FormattedMessageAsWritten` | main.go:144-146 | `formattedMessage` as written, defined wherever its slice is in range: "RESOLVED - " exactly when the status is 0, otherwise "ALERT - ", then the as-written summary with cap 100 |
| `Handler.FormattedMessageAgrees` | main.go:144-146 | wherever the raw and chomped outputs are on the same side of the cap, the as-written and corrected messages are equal |
| `Handler.FormattedMessageMarksUncutOutput` | main.go:136-146 | on a chomped output of exactly 100 bytes inside a longer raw output, the message as written is the corrected message followed by "..." |
| `Handler.MessageEmbed` | main.go:174-205 | title "Description"; three fields named Status, Entity, Check with inline flags false, true, true; colour and label agree; entity and check names verbatim; the description is the expanded template output and holds no `\` `n` pair |
| `Handler.EmbedIgnoresTemplateFailure` | main.go:175-178 | a template error does not change the embed: it is reported and the embed is built all the same |
| `Handler.EmbedDescription` | main.go:180 | the description is one byte shorter per `\` `n` in the rendered text, and verbatim when there is none |
| `Handler.EmbedIdentifiesEvent` | main.go:181-202 | two events that produce the same embed have the same entity name, check name and class of status |
| `Handler.DefaultSettingsCriticalLabel` | main.go:35-36 | with the default settings (alerting off, mention "@everyone") a critical event is labelled plainly "Critical" |
| `Handler.WebhookBody` | main.go:212 | the body is `{"embeds": [`, the payload, then `]}`, and the payload can be read back from between them |
| `Handler.WebhookBodyInjective` | main.go:212 | different payloads give different bodies |

## Left out

- The HTTP POST, the response handling and the confirmation line (main.go:207-221) are network I/O. Only the request body of line 212 is modelled.
- `json.Marshal` of the embed (main.go:208) is library code whose output format is not part of this model. `WebhookBody` takes the encoded payload as opaque bytes. A marshalling error, which would return before any POST, is not modelled.
- `templates.EvalTemplate` (main.go:175) is a foreign template engine. Its result is an input to `MessageEmbed` (rendered text plus error flag); the default template `{{ .Check.Output }}` is not evaluated.
- The error message printed on a template failure (main.go:177) is output only.
- The option table, argument/environment precedence, secret handling, `main` and `NewGoHandler` (main.go:15-109) belong to the plugin SDK. The custom username and avatar URL are loaded there, but `main.go` never uses them.
- `FormattedMessage`: uses the corrected summary (see Findings), so it is defined where `main.go` panics and omits the "..." that `main.go` appends to an uncut chomped output of exactly 100 bytes. `FormattedMessageAsWritten` models the code as written; `FormattedMessageAgrees` and `FormattedMessageMarksUncutOutput` relate the two.

## Findings

| source | as written | input that shows it | evidently intended | confidence | as-written member | corrected member |
|---|---|---|---|---|---|---|
| main.go:136-142 | the length test uses the raw `event.Check.Output`, but the slice `output[0:maxLength]` is taken from the chomped output | output of 101 line feeds with cap 100: the raw length 101 passes the test, the chomped output is empty, and the slice runs past its end (a Go runtime panic). Also, 100 other bytes plus one line feed get "..." although nothing was cut | test the length of the chomped output, which is the string that is cut | not executed | `Handler.EventSummaryAsWritten`, `Handler.SummaryAsWrittenOutOfRange` | `Handler.EventSummary` |
