/**
 * The countdown's display: `formatTime` turns a number of seconds into
 * `m:ss`. The countdown never goes below zero, so only non-negative
 * values are formatted.
 */
module TimeFormat {
  import opened Wrappers

  predicate IsDigit(c: char) {
    '0' <= c <= '9'
  }

  predicate AllDigits(s: string) {
    forall i :: 0 <= i < |s| ==> IsDigit(s[i])
  }

  function DigitChar(d: nat): (c: char)
    requires d < 10
    ensures IsDigit(c) && c as int - '0' as int == d
  {
    ('0' as int + d) as char
  }

  function DigitValue(c: char): nat
    requires IsDigit(c)
  {
    c as int - '0' as int
  }

  /** A non-negative integer written in decimal, as a template literal writes it. */
  function Decimal(n: nat): (s: string)
    ensures |s| >= 1 && AllDigits(s)
    ensures |s| > 1 ==> s[0] != '0'
    ensures n < 10 <==> |s| == 1
  {
    if n < 10 then [DigitChar(n)] else Decimal(n / 10) + [DigitChar(n % 10)]
  }

  /** The value of a string of decimal digits (the empty string reads as 0). */
  function ParseDecimal(s: string): nat
    requires AllDigits(s)
  {
    if s == [] then 0 else ParseDecimal(s[..|s| - 1]) * 10 + DigitValue(s[|s| - 1])
  }

  lemma {:induction false} DecimalRoundTrip(n: nat)
    ensures ParseDecimal(Decimal(n)) == n
  {
    if n >= 10 {
      var s := Decimal(n);
      assert s[..|s| - 1] == Decimal(n / 10);
      DecimalRoundTrip(n / 10);
    }
  }

  /** The seconds field: always two digits, padded with a leading zero. */
  function SecondsField(secs: nat): (s: string)
    requires secs < 60
    ensures |s| == 2 && AllDigits(s)
    ensures ParseDecimal(s) == secs
  {
    var d := Decimal(secs);
    DecimalRoundTrip(secs);
    if secs < 10 then
      assert ParseDecimal("0" + d) == secs by {
        assert ("0" + d)[..1] == "0";
      }
      "0" + d
    else
      d
  }

  /** `formatTime`: `${mins}:${secs < 10 ? '0' : ''}${secs}`. */
  function FormatTime(seconds: nat): string {
    var mins := seconds / 60;
    var secs := seconds % 60;
    Decimal(mins) + ":" + SecondsField(secs)
  }

  /** Reads `m:ss` back; the seconds field must be below 60. */
  function ParseTime(t: string): Option<nat> {
    if |t| >= 4 && t[|t| - 3] == ':' && AllDigits(t[..|t| - 3]) && AllDigits(t[|t| - 2..])
       && ParseDecimal(t[|t| - 2..]) < 60
    then Some(ParseDecimal(t[..|t| - 3]) * 60 + ParseDecimal(t[|t| - 2..]))
    else None
  }

  /**
   * The text is the minutes in decimal, a colon, and two digits for the
   * seconds; minutes * 60 + seconds gives back the input, and seconds < 60.
   */
  lemma FormatTimeFields(seconds: nat)
    ensures var t := FormatTime(seconds);
            && |t| >= 4 && t[|t| - 3] == ':'
            && AllDigits(t[..|t| - 3]) && AllDigits(t[|t| - 2..])
            && ParseDecimal(t[..|t| - 3]) == seconds / 60
            && ParseDecimal(t[|t| - 2..]) == seconds % 60
            && ParseDecimal(t[..|t| - 3]) * 60 + ParseDecimal(t[|t| - 2..]) == seconds
            && ParseDecimal(t[|t| - 2..]) < 60
  {
    var mins, secs := seconds / 60, seconds % 60;
    var t := FormatTime(seconds);
    var m := Decimal(mins);
    assert t[..|t| - 3] == m;
    assert t[|t| - 2..] == SecondsField(secs);
    DecimalRoundTrip(mins);
  }

  lemma FormatTimeRoundTrip(seconds: nat)
    ensures ParseTime(FormatTime(seconds)) == Some(seconds)
  {
    FormatTimeFields(seconds);
  }

  /** Distinct counts show distinct texts. */
  lemma FormatTimeInjective(a: nat, b: nat)
    requires FormatTime(a) == FormatTime(b)
    ensures a == b
  {
    FormatTimeRoundTrip(a);
    FormatTimeRoundTrip(b);
  }

  /** The starting values of the countdown as the view shows them. */
  lemma StartingDisplays()
    ensures FormatTime(60) == "1:00" && FormatTime(50) == "0:50" && FormatTime(30) == "0:30"
  {
  }
}
