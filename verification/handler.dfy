/**
 * The handler of main.go with the process-wide configuration passed in explicitly: the
 * argument check, the event key and legacy one-line summary, the embed sent to the
 * webhook, and the body of the POST request.
 */
module Handler {
  import opened ByteStrings
  import opened Text
  import opened Status

  /** The fields of a monitoring event that the handler reads. */
  datatype Event = Event(entityName: Bytes, checkName: Bytes, status: int, output: Bytes)

  /** The alerting part of the configuration. */
  datatype Settings = Settings(alertOnCritical: bool, alertMention: Bytes)

  /** What the template engine hands back: the rendered text and whether it reported an error. */
  datatype Rendering = Rendering(text: Bytes, failed: bool)

  datatype Outcome = Pass | Fail(message: Bytes)

  const WEBHOOK_URL_OPTION := Str("webhook-url")
  const DEFAULT_SETTINGS := Settings(false, Str("@everyone"))
  const SUMMARY_LIMIT := 100
  const ELLIPSIS := Str("...")

  // ---------------------------------------------------------------------------
  // checkArgs
  // ---------------------------------------------------------------------------

  /** `checkArgs`: the webhook URL is the only setting that must be present. */
  function CheckArgs(webhookUrl: Bytes): (r: Outcome)
    ensures r.Fail? <==> |webhookUrl| == 0
    ensures r.Fail? ==> Str("--") + WEBHOOK_URL_OPTION <= r.message
  {
    if |webhookUrl| == 0 then
      Fail(Str("--") + WEBHOOK_URL_OPTION + Str(" or DISCORD_WEBHOOK_URL") + Str(" environment variable is required"))
    else
      Pass
  }

  // ---------------------------------------------------------------------------
  // eventKey, eventSummary, formattedMessage
  // ---------------------------------------------------------------------------

  /** `eventKey`: the entity name and the check name joined by a slash. */
  function EventKey(e: Event): (key: Bytes)
    ensures |key| == |e.entityName| + 1 + |e.checkName|
    ensures key[..|e.entityName|] == e.entityName && key[|e.entityName|] == SLASH
    ensures key[|e.entityName| + 1..] == e.checkName
  {
    e.entityName + [SLASH] + e.checkName
  }

  /** When entity names hold no slash, the key tells events with different names apart. */
  lemma EventKeyInjective(e1: Event, e2: Event)
    requires SLASH !in e1.entityName && SLASH !in e2.entityName
    requires EventKey(e1) == EventKey(e2)
    ensures e1.entityName == e2.entityName && e1.checkName == e2.checkName
  {
    // Each entity name ends where the first slash of the common key stands.
    var key := EventKey(e1);
    var n1, n2 := |e1.entityName|, |e2.entityName|;
    assert forall i :: 0 <= i < n1 ==> key[i] == e1.entityName[i] != SLASH;
    assert forall i :: 0 <= i < n2 ==> key[i] == e2.entityName[i] != SLASH;
    assert key[n1] == SLASH && key[n2] == SLASH;
  }

  /** The first `maxLength` bytes that main.go:139 slices from the chomped output exist. */
  predicate SummarySliceInRange(output: Bytes, maxLength: int) {
    |output| <= maxLength || 0 <= maxLength <= |Chomp(output)|
  }

  /**
   * `eventSummary` as written: the length test looks at the raw output but the slice is
   * taken from the chomped output, so the call is defined only when that slice is in range.
   */
  function EventSummaryAsWritten(e: Event, maxLength: int): (summary: Bytes)
    requires SummarySliceInRange(e.output, maxLength)
    ensures var head := EventKey(e) + [COLON];
      && head <= summary
      && |summary| <= |head| + maxLength + |ELLIPSIS|
      && (|e.output| <= maxLength ==> summary[|head|..] == Chomp(e.output))
      && (|e.output| > maxLength ==> summary[|head|..] == Chomp(e.output)[..maxLength] + ELLIPSIS)
  {
    ChompShape(e.output);
    var output := Chomp(e.output);
    var shown := if |e.output| > maxLength then output[..maxLength] + ELLIPSIS else output;
    EventKey(e) + [COLON] + shown
  }

  /**
   * `eventSummary` with the length test on the chomped output it truncates: the output is
   * shown whole when it fits, and the summary never exceeds the cap by more than "...".
   */
  function EventSummary(e: Event, maxLength: nat): (summary: Bytes)
    ensures var head := EventKey(e) + [COLON];
      && head <= summary
      && |summary| <= |head| + maxLength + |ELLIPSIS|
      && (|Chomp(e.output)| <= maxLength ==> summary[|head|..] == Chomp(e.output))
  {
    var output := Chomp(e.output);
    var shown := if |output| > maxLength then output[..maxLength] + ELLIPSIS else output;
    EventKey(e) + [COLON] + shown
  }

  /** An output longer than the cap is cut to its first `maxLength` bytes and marked with "...". */
  lemma EventSummaryTruncates(e: Event, maxLength: nat)
    requires |Chomp(e.output)| > maxLength
    ensures var summary, head := EventSummary(e, maxLength), EventKey(e) + [COLON];
      && |summary| == |head| + maxLength + |ELLIPSIS|
      && summary[|head|..|head| + maxLength] == Chomp(e.output)[..maxLength]
      && summary[|head| + maxLength..] == ELLIPSIS
  {
  }

  /**
   * The code as written and the corrected summary agree whenever the raw and the chomped
   * output are on the same side of the cap.
   */
  lemma SummaryAsWrittenAgrees(e: Event, maxLength: nat)
    requires |e.output| <= maxLength || maxLength < |Chomp(e.output)|
    ensures SummarySliceInRange(e.output, maxLength)
    ensures EventSummaryAsWritten(e, maxLength) == EventSummary(e, maxLength)
  {
    ChompShape(e.output);
  }

  /**
   * The test at main.go:138 lets through an output of 101 line feeds, whose chomped form is
   * empty, so the slice at main.go:139 would run past its end.
   */
  lemma SummaryAsWrittenOutOfRange()
    ensures var output: Bytes := seq(101, _ => LINE_FEED);
      |output| > SUMMARY_LIMIT && !SummarySliceInRange(output, SUMMARY_LIMIT)
  {
    var output: Bytes := seq(101, _ => LINE_FEED);
    ChompShape(output);
    assert forall i :: 0 <= i < |output| ==> output[i] in LINE_BREAKS;
  }

  /**
   * When the chomped output is exactly `maxLength` bytes but line breaks made the raw output
   * longer, the code as written appends "..." although nothing was cut.
   */
  lemma SummaryAsWrittenMarksUncutOutput(e: Event, maxLength: int)
    requires |Chomp(e.output)| == maxLength < |e.output|
    ensures SummarySliceInRange(e.output, maxLength)
    ensures EventSummaryAsWritten(e, maxLength) == EventKey(e) + [COLON] + Chomp(e.output) + ELLIPSIS
  {
    var output := Chomp(e.output);
    // The slice takes every byte of the chomped output.
    assert output[..maxLength] == output;
  }

  /** The action word of `status`, " - ", and a summary: the layout of `formattedMessage`. */
  function Headline(status: int, summary: Bytes): (message: Bytes)
    ensures Str("RESOLVED - ") <= message <==> status == 0
    ensures status != 0 ==> Str("ALERT - ") <= message
    ensures |message| == |FormattedEventAction(status)| + 3 + |summary|
    ensures message[|FormattedEventAction(status)| + 3..] == summary
  {
    var action := FormattedEventAction(status);
    var head := action + Str(" - ");
    var message := head + summary;
    assert head <= message && message[0] == action[0] && message[|head|..] == summary;
    assert status == 0 ==> head == Str("RESOLVED - ");
    assert status != 0 ==> head == Str("ALERT - ");
    message
  }

  /** `formattedMessage`: the action word, " - ", and the corrected summary capped at 100 bytes. */
  function FormattedMessage(e: Event): (message: Bytes)
    ensures Str("RESOLVED - ") <= message <==> e.status == 0
    ensures e.status != 0 ==> Str("ALERT - ") <= message
    ensures |message| >= |FormattedEventAction(e.status)| + 3
    ensures message[|FormattedEventAction(e.status)| + 3..] == EventSummary(e, SUMMARY_LIMIT)
  {
    Headline(e.status, EventSummary(e, SUMMARY_LIMIT))
  }

  /**
   * `formattedMessage` as written, on the as-written summary: defined wherever the slice in
   * `eventSummary` stays in range.
   */
  function FormattedMessageAsWritten(e: Event): (message: Bytes)
    requires SummarySliceInRange(e.output, SUMMARY_LIMIT)
    ensures Str("RESOLVED - ") <= message <==> e.status == 0
    ensures e.status != 0 ==> Str("ALERT - ") <= message
    ensures |message| >= |FormattedEventAction(e.status)| + 3
    ensures message[|FormattedEventAction(e.status)| + 3..] == EventSummaryAsWritten(e, SUMMARY_LIMIT)
  {
    Headline(e.status, EventSummaryAsWritten(e, SUMMARY_LIMIT))
  }

  /** Where the two length tests agree, the corrected message is the one main.go builds. */
  lemma FormattedMessageAgrees(e: Event)
    requires |e.output| <= SUMMARY_LIMIT || SUMMARY_LIMIT < |Chomp(e.output)|
    ensures SummarySliceInRange(e.output, SUMMARY_LIMIT)
    ensures FormattedMessageAsWritten(e) == FormattedMessage(e)
  {
    SummaryAsWrittenAgrees(e, SUMMARY_LIMIT);
  }

  /**
   * The one input on which main.go builds a message without panicking but differs from the
   * corrected one: a chomped output of exactly 100 bytes inside a longer raw output, which
   * the code as written marks with "..." although nothing was cut.
   */
  lemma FormattedMessageMarksUncutOutput(e: Event)
    requires |Chomp(e.output)| == SUMMARY_LIMIT < |e.output|
    ensures SummarySliceInRange(e.output, SUMMARY_LIMIT)
    ensures FormattedMessageAsWritten(e) == FormattedMessage(e) + ELLIPSIS
  {
    SummaryAsWrittenMarksUncutOutput(e, SUMMARY_LIMIT);
  }

  // ---------------------------------------------------------------------------
  // messageEmbed
  // ---------------------------------------------------------------------------

  datatype Field = Field(name: Bytes, value: Bytes, inline: bool)

  datatype Embed = Embed(title: Bytes, description: Bytes, color: int, fields: seq<Field>)

  /**
   * The fixed shape of every embed the handler sends, with a status label that agrees with
   * the colour and a description free of `\n` escapes.
   */
  ghost predicate WellFormedEmbed(m: Embed) {
    && m.title == Str("Description")
    && |m.fields| == 3
    && m.fields[0].name == Str("Status") && !m.fields[0].inline
    && m.fields[1].name == Str("Entity") && m.fields[1].inline
    && m.fields[2].name == Str("Check") && m.fields[2].inline
    && (m.color == GREEN || m.color == ORANGE || m.color == RED)
    && (m.color == GREEN <==> m.fields[0].value == Str("Resolved"))
    && (m.color == RED <==> m.fields[0].value == Str("Warning"))
    && NoEscapes(m.description)
  }

  /**
   * `messageEmbed`: the template's output with its `\n` escapes expanded, the colour and
   * label of the status, and the entity and check names verbatim.
   */
  function MessageEmbed(e: Event, settings: Settings, rendering: Rendering): (m: Embed)
    ensures WellFormedEmbed(m)
    ensures m.color == MessageColor(e.status)
    ensures m.fields[0].value == MessageStatus(e.status, settings.alertOnCritical, settings.alertMention)
    ensures m.fields[1].value == e.entityName && m.fields[2].value == e.checkName
    ensures m.description == ExpandNewlineEscapes(rendering.text)
  {
    ExpandLeavesNoEscapes(rendering.text);
    Embed(
      Str("Description"),
      ExpandNewlineEscapes(rendering.text),
      MessageColor(e.status),
      [ Field(Str("Status"), MessageStatus(e.status, settings.alertOnCritical, settings.alertMention), false),
        Field(Str("Entity"), e.entityName, true),
        Field(Str("Check"), e.checkName, true) ])
  }

  /** A template error is only reported: the embed is built from the text all the same. */
  lemma EmbedIgnoresTemplateFailure(e: Event, settings: Settings, text: Bytes)
    ensures MessageEmbed(e, settings, Rendering(text, true)) == MessageEmbed(e, settings, Rendering(text, false))
  {
  }

  /**
   * The description is the rendered text with one byte fewer per `\n` escape, and is the
   * rendered text verbatim when it holds none.
   */
  lemma EmbedDescription(e: Event, settings: Settings, rendering: Rendering)
    ensures |MessageEmbed(e, settings, rendering).description| == |rendering.text| - EscapeCount(rendering.text)
    ensures NoEscapes(rendering.text) ==> MessageEmbed(e, settings, rendering).description == rendering.text
  {
    ExpandLength(rendering.text);
    ExpandUnchangedIff(rendering.text);
  }

  /** Two events that give the same embed have the same names and the same class of status. */
  lemma EmbedIdentifiesEvent(e1: Event, e2: Event, settings: Settings, r1: Rendering, r2: Rendering)
    requires MessageEmbed(e1, settings, r1) == MessageEmbed(e2, settings, r2)
    ensures e1.entityName == e2.entityName && e1.checkName == e2.checkName
    ensures Classify(e1.status) == Classify(e2.status)
  {
    ColorIdentifiesSeverity(e1.status, e2.status);
  }

  /** With the default settings a critical event is labelled plainly "Critical". */
  lemma DefaultSettingsCriticalLabel(e: Event, rendering: Rendering)
    requires e.status == 2
    ensures MessageEmbed(e, DEFAULT_SETTINGS, rendering).fields[0].value == Str("Critical")
  {
  }

  // ---------------------------------------------------------------------------
  // The request body (main.go:212)
  // ---------------------------------------------------------------------------

  const ENVELOPE_OPEN := Str("{\"embeds\": [")
  const ENVELOPE_CLOSE := Str("]}")

  /** The POST body: the encoded embed as the one element of the "embeds" array. */
  function WebhookBody(payload: Bytes): (body: Bytes)
    ensures ENVELOPE_OPEN <= body
    ensures |body| == |ENVELOPE_OPEN| + |payload| + |ENVELOPE_CLOSE|
    ensures body[|ENVELOPE_OPEN|..|body| - |ENVELOPE_CLOSE|] == payload
    ensures body[|body| - |ENVELOPE_CLOSE|..] == ENVELOPE_CLOSE
  {
    ENVELOPE_OPEN + payload + ENVELOPE_CLOSE
  }

  /** Different payloads give different request bodies. */
  lemma WebhookBodyInjective(payload1: Bytes, payload2: Bytes)
    requires WebhookBody(payload1) == WebhookBody(payload2)
    ensures payload1 == payload2
  {
    var body := WebhookBody(payload1);
    assert payload1 == body[|ENVELOPE_OPEN|..|body| - |ENVELOPE_CLOSE|] == payload2;
  }
}
