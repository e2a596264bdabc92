/** Values of a `datetime64[ns]` column and the fixed-width text every
    extractor rewrites them to (`dt.strftime('%Y-%m-%d %H:%M:%S')`), so that
    the staged records carry plain strings the warehouse accepts.
 */
module Timestamps {
  import opened Outcomes
  import opened Text
  import opened Calendar

  /** A wall-clock instant with nanosecond resolution. */
  datatype Timestamp = Timestamp(date: Date, hour: int, minute: int, second: int, nanos: int)

  predicate ValidTimestamp(t: Timestamp)
  {
    && Valid(t.date)
    && 0 <= t.hour < 24
    && 0 <= t.minute < 60
    && 0 <= t.second < 60
    && 0 <= t.nanos < 1_000_000_000
  }

  /** The instant with its sub-second part cut off; `%S` keeps whole seconds. */
  function WholeSeconds(t: Timestamp): Timestamp
  {
    t.(nanos := 0)
  }

  /** `strftime('%Y-%m-%d %H:%M:%S')`: nineteen characters, dashes at 4 and 7,
      a space at 10, colons at 13 and 16, digits everywhere else, and the
      first ten characters are the date's own text form. */
  function FormatTimestamp(t: Timestamp): (s: string)
    requires ValidTimestamp(t)
    ensures |s| == 19
    ensures s[4] == '-' && s[7] == '-' && s[10] == ' ' && s[13] == ':' && s[16] == ':'
    ensures AllDigits(s[..4]) && AllDigits(s[5..7]) && AllDigits(s[8..10])
    ensures AllDigits(s[11..13]) && AllDigits(s[14..16]) && AllDigits(s[17..])
    ensures s[..10] == FormatDate(t.date)
  {
    FormatDate(t.date) + " " + Digits(t.hour, 2) + ":" + Digits(t.minute, 2) + ":" + Digits(t.second, 2)
  }

  /** Reads the nineteen-character form back; `None` when the text is not
      in that shape or names no valid instant. */
  function ParseTimestamp(s: string): Option<Timestamp>
  {
    if |s| == 19 && s[10] == ' ' && s[13] == ':' && s[16] == ':'
       && AllDigits(s[11..13]) && AllDigits(s[14..16]) && AllDigits(s[17..])
    then
      match ParseDate(s[..10])
      case None => None
      case Some(d) =>
        var t := Timestamp(d, Number(s[11..13]), Number(s[14..16]), Number(s[17..]), 0);
        if ValidTimestamp(t) then Some(t) else None
    else None
  }

  /** Normalisation loses exactly the sub-second part: reading the text back
      gives the instant truncated to whole seconds. */
  lemma {:induction false} ParseFormatTimestamp(t: Timestamp)
    requires ValidTimestamp(t)
    ensures ParseTimestamp(FormatTimestamp(t)) == Some(WholeSeconds(t))
  {
    var s := FormatTimestamp(t);
    ParseFormatDate(t.date);
    assert s[11..13] == Digits(t.hour, 2);
    assert s[14..16] == Digits(t.minute, 2);
    assert s[17..] == Digits(t.second, 2);
    NumberOfDigits(t.hour, 2);
    NumberOfDigits(t.minute, 2);
    NumberOfDigits(t.second, 2);
  }

  /** Two instants normalise to the same text exactly when they agree to the
      second. */
  lemma {:induction false} FormatTimestampSameSecond(a: Timestamp, b: Timestamp)
    requires ValidTimestamp(a) && ValidTimestamp(b)
    ensures FormatTimestamp(a) == FormatTimestamp(b) <==> WholeSeconds(a) == WholeSeconds(b)
  {
    ParseFormatTimestamp(a);
    ParseFormatTimestamp(b);
  }
}
