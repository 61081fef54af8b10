/**
 * The status classifier of main.go: three `switch` statements on the check status that
 * give the embed colour, the status label and the action word of the legacy summary.
 * Status 0 means resolved, 2 critical, and every other value a warning.
 */
module Status {
  import opened ByteStrings

  const GREEN := 3061373
  const ORANGE := 14687834
  const RED := 15512110

  /** The three classes of status the handler distinguishes. */
  datatype Severity = Resolved | Critical | Warning

  function Classify(status: int): Severity {
    if status == 0 then Resolved else if status == 2 then Critical else Warning
  }

  /** `messageColor`: one 24-bit RGB colour per class. */
  function MessageColor(status: int): (c: int)
    ensures 0 <= c < 0x100_0000
    ensures c == GREEN <==> status == 0
    ensures c == ORANGE <==> status == 2
    ensures c == RED <==> status != 0 && status != 2
  {
    match status
    case 0 => GREEN
    case 2 => ORANGE
    case _ => RED
  }

  /**
   * `messageStatus`: the label of the Status field. For a critical status it carries the
   * mention only when alerting on critical is switched on.
   */
  function MessageStatus(status: int, alertOnCritical: bool, alertMention: Bytes): (shown: Bytes)
    ensures shown == Str("Resolved") <==> status == 0
    ensures shown == Str("Warning") <==> status != 0 && status != 2
    ensures !alertOnCritical ==> (shown == Str("Critical") <==> status == 2)
    ensures status == 2 ==> |shown| >= 8 && shown[|shown| - 8..] == Str("Critical")
  {
    // "Resolved" and "Critical" have the same length but differ in their first byte.
    assert Str("Resolved")[0] != Str("Critical")[0];
    match status
    case 0 => Str("Resolved")
    case 2 => if alertOnCritical then alertMention + Str(" Critical") else Str("Critical")
    case _ => Str("Warning")
  }

  /** `formattedEventAction`: the action word of the legacy one-line summary. */
  function FormattedEventAction(status: int): (action: Bytes)
    ensures action == Str("RESOLVED") <==> status == 0
    ensures action == Str("ALERT") <==> status != 0
  {
    match status
    case 0 => Str("RESOLVED")
    case _ => Str("ALERT")
  }

  /** Without alerting on critical, the mention never reaches the label. */
  lemma MentionUnusedWithoutAlert(status: int, mention1: Bytes, mention2: Bytes)
    ensures MessageStatus(status, false, mention1) == MessageStatus(status, false, mention2)
  {
  }

  /** With alerting on critical, a critical label is the mention, a space and "Critical". */
  lemma CriticalLabelWithAlert(status: int, mention: Bytes)
    requires status == 2
    ensures MessageStatus(status, true, mention)[..|mention|] == mention
    ensures MessageStatus(status, true, mention)[|mention|..] == Str(" Critical")
  {
  }

  /** The colour is determined by the class of the status, and determines it. */
  lemma ColorIdentifiesSeverity(status1: int, status2: int)
    ensures MessageColor(status1) == MessageColor(status2) <==> Classify(status1) == Classify(status2)
  {
  }

  /**
   * Whatever the alert settings, the label is determined by the class of the status and
   * determines it: no mention can make a critical label read "Resolved" or "Warning".
   */
  lemma LabelIdentifiesSeverity(status1: int, status2: int, alertOnCritical: bool, alertMention: Bytes)
    ensures MessageStatus(status1, alertOnCritical, alertMention) == MessageStatus(status2, alertOnCritical, alertMention)
      <==> Classify(status1) == Classify(status2)
  {
  }

  /** The three switches agree on which statuses count as resolved: exactly status 0. */
  lemma ClassifiersAgreeOnResolved(status: int, alertOnCritical: bool, alertMention: Bytes)
    ensures FormattedEventAction(status) == Str("RESOLVED") <==> status == 0
    ensures MessageColor(status) == GREEN <==> status == 0
    ensures MessageStatus(status, alertOnCritical, alertMention) == Str("Resolved") <==> status == 0
    ensures Classify(status) == Resolved <==> status == 0
  {
  }
}
