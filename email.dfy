/**
 * The e-mail record: five nullable text fields fixed at construction and the
 * instant of construction, kept as milliseconds since the epoch (what a
 * GregorianCalendar compares by).
 */
module Emails {
  import opened JavaLang

  /** An immutable e-mail; the fields are what the getters return. */
  datatype Email = Email(to: JString, cc: JString, bcc: JString, subject: JString, body: JString, timestamp: int)

  /**
   * Email.toString: the timestamp rendered by the "hh:mm a MM/dd/yyyy" date
   * format in square brackets, a space, and the subject ("null" when absent).
   * The date format itself is the parameter formatTime.
   */
  function Summary(e: Email, formatTime: int -> string): (r: string)
    ensures var time := formatTime(e.timestamp);
      |r| >= |time| + 3 && r[..|time| + 2] == "[" + time + "]"
  {
    "[" + formatTime(e.timestamp) + "] " + Show(e.subject)
  }

  /** The summary ends with the subject, after the closing bracket of the date. */
  lemma SummaryEndsWithSubject(e: Email, formatTime: int -> string)
    ensures var r := Summary(e, formatTime); var s := Show(e.subject);
      |r| >= |s| + 2 && r[|r| - |s|..] == s && r[|r| - |s| - 2..|r| - |s|] == "] "
  {
    var r := Summary(e, formatTime);
    assert r == ("[" + formatTime(e.timestamp)) + "] " + Show(e.subject);
  }
}
