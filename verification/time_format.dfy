/** The match clock's display format: elapsed seconds rendered as minutes and
    seconds, each zero-padded to at least two decimal digits and separated by
    a colon ("MM:SS"). A parser for the five-character form is the format's
    partner: reading a rendered clock back gives the seconds it was rendered
    from. */
module TimeFormat {

  datatype Option<T> = None | Some(value: T)

  predicate IsDigit(c: char) {
    '0' <= c <= '9'
  }

  predicate AllDigits(s: string) {
    forall i :: 0 <= i < |s| ==> IsDigit(s[i])
  }

  function DigitChar(d: nat): (c: char)
    requires d < 10
    ensures IsDigit(c) && DigitValue(c) == d
  {
    ('0' as int + d) as char
  }

  function DigitValue(c: char): nat
    requires IsDigit(c)
  {
    c as int - '0' as int
  }

  /** The decimal text of a non-negative integer, as a number's toString()
      gives it below 10^21 (from there on JavaScript switches to exponent
      notation; the clock's values are far below that): at least one digit,
      one exactly below 10, two from 10 to 99. */
  function Decimal(n: nat): (s: string)
    ensures AllDigits(s)
    ensures 1 <= |s|
    ensures |s| == 1 <==> n < 10
    ensures 10 <= n < 100 ==> |s| == 2
    decreases n
  {
    if n < 10 then [DigitChar(n)] else Decimal(n / 10) + [DigitChar(n % 10)]
  }

  /** The number a string of decimal digits denotes (most significant first). */
  function DigitsValue(s: string): nat
    requires AllDigits(s)
    decreases |s|
  {
    if s == [] then 0 else DigitsValue(s[..|s| - 1]) * 10 + DigitValue(s[|s| - 1])
  }

  /** padStart(2, '0'): prefix zeros until the text is two characters long;
      longer text is left as it is. */
  function PadStart2(s: string): (r: string)
    ensures |r| == if |s| < 2 then 2 else |s|
    ensures r[|r| - |s|..] == s
    ensures forall i :: 0 <= i < |r| - |s| ==> r[i] == '0'
  {
    if |s| >= 2 then s
    else if |s| == 1 then ['0'] + s
    else ['0', '0']
  }

  /** formatTime: minutes (seconds divided by 60, rounded down) and the
      remaining seconds, each padded to two digits, joined by ':'. */
  function FormatTime(seconds: nat): string
  {
    PadStart2(Decimal(seconds / 60)) + ":" + PadStart2(Decimal(seconds % 60))
  }

  /** The number two decimal digits denote. */
  function TwoDigitValue(tens: char, units: char): nat
    requires IsDigit(tens) && IsDigit(units)
  {
    DigitValue(tens) * 10 + DigitValue(units)
  }

  /** Reads "MM:SS" back: two minute digits, a colon and two second digits
      denoting less than 60. Anything else is None. */
  function ParseTime(r: string): Option<nat>
  {
    if |r| == 5 && r[2] == ':' && IsDigit(r[0]) && IsDigit(r[1]) && IsDigit(r[3]) && IsDigit(r[4])
       && TwoDigitValue(r[3], r[4]) < 60
    then Some(60 * TwoDigitValue(r[0], r[1]) + TwoDigitValue(r[3], r[4]))
    else None
  }

  /** The decimal text denotes the number it was made from. */
  lemma {:induction false} DecimalValue(n: nat)
    ensures DigitsValue(Decimal(n)) == n
    decreases n
  {
    var s := Decimal(n);
    if n >= 10 {
      DecimalValue(n / 10);
      assert s[..|s| - 1] == Decimal(n / 10);
    }
  }

  /** A number below 100, rendered and padded, is its tens digit followed by
      its units digit. */
  lemma PaddedTwoDigits(n: nat)
    requires n < 100
    ensures PadStart2(Decimal(n)) == [DigitChar(n / 10), DigitChar(n % 10)]
  {
    if n < 10 {
      assert PadStart2(Decimal(n)) == ['0'] + [DigitChar(n)];
    } else {
      assert Decimal(n) == [DigitChar(n / 10)] + [DigitChar(n % 10)];
    }
  }

  /** Whole minutes and remaining seconds of a time given as 60 * m + s. */
  lemma MinutesAndSeconds(seconds: nat, m: nat, s: nat)
    requires seconds == 60 * m + s && s < 60
    ensures seconds / 60 == m && seconds % 60 == s
  {
  }

  /** The clock for 60 * m + s seconds shows m and s, each padded. */
  lemma FormatTimeSplit(seconds: nat, m: nat, s: nat)
    requires seconds == 60 * m + s && s < 60
    ensures FormatTime(seconds) == PadStart2(Decimal(m)) + ":" + PadStart2(Decimal(s))
  {
    MinutesAndSeconds(seconds, m, s);
  }

  /** Two two-character fields joined by a colon, character by character. */
  lemma JoinedFields(a: string, b: string)
    requires |a| == 2 && |b| == 2
    ensures a + ":" + b == [a[0], a[1], ':', b[0], b[1]]
  {
  }

  /** Minutes below 100 and seconds below 60, padded and joined, are the
      two digits of each with a colon between them. */
  lemma ClockDigits(m: nat, s: nat)
    requires m < 100 && s < 60
    ensures PadStart2(Decimal(m)) + ":" + PadStart2(Decimal(s))
      == [DigitChar(m / 10), DigitChar(m % 10), ':', DigitChar(s / 10), DigitChar(s % 10)]
  {
    PaddedTwoDigits(m);
    PaddedTwoDigits(s);
    JoinedFields(PadStart2(Decimal(m)), PadStart2(Decimal(s)));
  }

  /** A five-character clock text built from minutes below 100 and seconds
      below 60 reads back as those minutes and seconds. */
  lemma ClockText(m: nat, s: nat)
    requires m < 100 && s < 60
    ensures var r := [DigitChar(m / 10), DigitChar(m % 10), ':', DigitChar(s / 10), DigitChar(s % 10)];
      && TwoDigitValue(r[0], r[1]) == m && TwoDigitValue(r[3], r[4]) == s
      && ParseTime(r) == Some(60 * m + s)
  {
  }

  lemma MinutesOf(seconds: nat)
    ensures seconds == 60 * (seconds / 60) + seconds % 60 && seconds % 60 < 60
    ensures seconds <= 5400 ==> seconds / 60 <= 90
  {
  }

  /** Within a match (0 to 5400 seconds) the clock is exactly five characters
      "MM:SS": MM is the whole minutes, at most 90, SS the remaining seconds,
      and parsing the text gives back the seconds it was rendered from. */
  lemma FormatTimeShape(seconds: nat)
    requires seconds <= 5400
    ensures var r := FormatTime(seconds);
      && |r| == 5 && r[2] == ':'
      && IsDigit(r[0]) && IsDigit(r[1]) && IsDigit(r[3]) && IsDigit(r[4])
      && TwoDigitValue(r[0], r[1]) == seconds / 60 <= 90
      && TwoDigitValue(r[3], r[4]) == seconds % 60
      && ParseTime(r) == Some(seconds)
  {
    MinutesOf(seconds);
    var m, s := seconds / 60, seconds % 60;
    FormatTimeSplit(seconds, m, s);
    ClockDigits(m, s);
    ClockText(m, s);
  }

  /** The kick-off, one minute five, the last second before full time, and
      full time itself. */
  lemma FormatTimeExamples()
    ensures FormatTime(0) == "00:00"
    ensures FormatTime(65) == "01:05"
    ensures FormatTime(5399) == "89:59"
    ensures FormatTime(5400) == "90:00"
  {
    FormatTimeSplit(0, 0, 0);
    FormatTimeSplit(65, 1, 5);
    FormatTimeSplit(5399, 89, 59);
    FormatTimeSplit(5400, 90, 0);
  }
}
