/** `formatTime`: elapsed seconds shown as minutes and seconds, `"%02d:%02d"`. */
module TimeFormat {

  /** Kotlin's `/` on Long: the quotient rounded toward zero. */
  function TruncDiv(a: int, b: int): (q: int)
    requires b > 0
    ensures a >= 0 ==> 0 <= q && 0 <= a - q * b < b
    ensures a < 0 ==> q <= 0 && -b < a - q * b <= 0
    ensures a >= 0 ==> q == a / b
  {
    if a >= 0 then a / b else NegDiv(a, b)
  }

  /** The quotient of a negative dividend, rounded toward zero. */
  function NegDiv(a: int, b: int): (q: int)
    requires a < 0 && b > 0
    ensures q <= 0 && -b < a - q * b <= 0
  {
    -((-a) / b)
  }

  /** Kotlin's `%` on Long: the remainder takes the sign of the dividend. */
  function TruncMod(a: int, b: int): (m: int)
    requires b > 0
    ensures TruncDiv(a, b) * b + m == a
    ensures a >= 0 ==> 0 <= m < b
    ensures a < 0 ==> -b < m <= 0
  {
    a - TruncDiv(a, b) * b
  }

  function DigitChar(d: int): (ch: char)
    requires 0 <= d <= 9
    ensures '0' <= ch <= '9' && DigitValue(ch) == d
  {
    ('0' as int + d) as char
  }

  function DigitValue(ch: char): int {
    if '0' <= ch <= '9' then ch as int - '0' as int else 0
  }

  /** Decimal digits of n without leading zeros ("0" for zero). */
  function Decimal(n: nat): (s: string)
    ensures |s| >= 1
    ensures forall i :: 0 <= i < |s| ==> '0' <= s[i] <= '9'
    ensures n < 10 <==> |s| == 1
    ensures 10 <= n < 100 ==> |s| == 2
    ensures n > 0 ==> s[0] != '0'
  {
    if n < 10 then [DigitChar(n)] else Decimal(n / 10) + [DigitChar(n % 10)]
  }

  /** The number a string of decimal digits denotes. */
  function DecimalValue(s: string): nat {
    if s == [] then 0 else DecimalValue(s[..|s| - 1]) * 10 + DigitValue(s[|s| - 1])
  }

  /** `%02d`: at least two characters, padded with a zero; a negative number keeps its
      minus sign in front and is already two characters wide. */
  function Pad2(n: int): (s: string)
    ensures n < 0 ==> |s| >= 2 && s[0] == '-'
    ensures n >= 0 ==> |s| >= 2 && DecimalValue(s) == n && forall i :: 0 <= i < |s| ==> '0' <= s[i] <= '9'
    ensures 0 <= n < 100 ==> |s| == 2
    ensures n >= 10 ==> s[0] != '0'
  {
    if n < 0 then "-" + Decimal(-n)
    else if n < 10 then ZeroPadded(n); "0" + Decimal(n)
    else DecimalRoundTrip(n); Decimal(n)
  }

  /** A single digit behind a padding zero. */
  lemma ZeroPadded(n: nat)
    requires n < 10
    ensures var s := "0" + Decimal(n);
      |s| == 2 && DecimalValue(s) == n && (forall i :: 0 <= i < |s| ==> '0' <= s[i] <= '9')
  {
    DecimalRoundTrip(n);
    LeadingZero(Decimal(n));
  }

  /** The text shown for `seconds` of play. */
  function FormatTime(seconds: int): (s: string)
    ensures seconds >= 0 ==> |s| >= 5 && s[|s| - 3] == ':'
    ensures seconds >= 0 ==> forall i :: 0 <= i < |s| && i != |s| - 3 ==> '0' <= s[i] <= '9'
    ensures 0 <= seconds < 6000 ==> |s| == 5
  {
    var minutes := TruncDiv(seconds, 60);
    var secs := TruncMod(seconds, 60);
    Pad2(minutes) + ":" + Pad2(secs)
  }

  /** Reads back a time written as minutes, `:` and two second digits. */
  function ParseTime(s: string): int
    requires |s| >= 3
  {
    DecimalValue(s[..|s| - 3]) * 60 + DecimalValue(s[|s| - 2..])
  }

  lemma {:induction false} DecimalRoundTrip(n: nat)
    ensures DecimalValue(Decimal(n)) == n
  {
    if n >= 10 {
      var s, t := Decimal(n), Decimal(n / 10);
      assert s == t + [DigitChar(n % 10)];
      assert s[..|s| - 1] == t;
      DecimalRoundTrip(n / 10);
      assert DecimalValue(s) == DecimalValue(t) * 10 + n % 10;
    }
  }

  /** A leading zero does not change the value. */
  lemma {:induction false} LeadingZero(s: string)
    ensures DecimalValue("0" + s) == DecimalValue(s)
  {
    if s != [] {
      assert ("0" + s)[..|"0" + s| - 1] == "0" + s[..|s| - 1];
      LeadingZero(s[..|s| - 1]);
    }
  }

  /** Reading back a text of the form minutes, `:`, two second characters. */
  lemma ParseJoined(a: string, b: string)
    requires |b| == 2
    ensures ParseTime(a + ":" + b) == DecimalValue(a) * 60 + DecimalValue(b)
  {
    var s := a + ":" + b;
    assert s[..|s| - 3] == a;
    assert s[|s| - 2..] == b;
  }

  /** What `formatTime` shows for a nonnegative time: the text before the `:` is the number
      `seconds / 60`, at least two digits wide and zero-padded only below 10; the two
      characters after it are the number `seconds % 60`. */
  lemma FormatTimeShows(seconds: int)
    requires seconds >= 0
    ensures var s := FormatTime(seconds);
      && |s| >= 5
      && DecimalValue(s[..|s| - 3]) == seconds / 60
      && DecimalValue(s[|s| - 2..]) == seconds % 60
      && (seconds / 60 < 10 <==> s[0] == '0')
  {
    var m, sec := TruncDiv(seconds, 60), TruncMod(seconds, 60);
    var s := FormatTime(seconds);
    assert s == Pad2(m) + ":" + Pad2(sec);
    assert s[..|s| - 3] == Pad2(m);
    assert s[|s| - 2..] == Pad2(sec);
  }

  /** For a nonnegative time, the minutes and the seconds part read back to the same time. */
  lemma FormatTimeRoundTrip(seconds: int)
    requires seconds >= 0
    ensures |FormatTime(seconds)| >= 5
    ensures ParseTime(FormatTime(seconds)) == seconds
  {
    var m, sec := TruncDiv(seconds, 60), TruncMod(seconds, 60);
    ParseJoined(Pad2(m), Pad2(sec));
  }
}
