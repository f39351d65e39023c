/**
 * The time shown by the timer: `"%02d:%02d" % divmod(max(seconds, 0), 60)`,
 * minutes and seconds, each zero-padded to at least two digits.
 */
module Clock {
  import opened Wrappers

  predicate IsDigit(c: char)
  {
    '0' <= c <= '9'
  }

  predicate IsDigits(s: string)
  {
    forall i :: 0 <= i < |s| ==> IsDigit(s[i])
  }

  /** The character of a decimal digit. */
  function DigitChar(d: nat): (c: char)
    requires d < 10
    ensures IsDigit(c)
  {
    ('0' as int + d) as char
  }

  /** `"%d" % n` for a non-negative `n`: its decimal digits, no leading zeros. */
  function Decimal(n: nat): (s: string)
    ensures |s| >= 1 && IsDigits(s)
    ensures (|s| == 1) == (n < 10)
    ensures (s[0] == '0') == (n == 0)
  {
    if n < 10 then [DigitChar(n)] else Decimal(n / 10) + [DigitChar(n % 10)]
  }

  /** `"%02d" % n` for a non-negative `n`: its digits, a `0` in front when there is only one. */
  function ZeroPad2(n: nat): string
  {
    if n < 10 then "0" + Decimal(n) else Decimal(n)
  }

  /** `"%02d:%02d" % divmod(max(seconds, 0), 60)`. */
  function FormatTime(seconds: int): (t: string)
    ensures |t| >= 5 && t[|t| - 3] == ':'
    ensures forall i :: 0 <= i < |t| && i != |t| - 3 ==> IsDigit(t[i])
    ensures seconds <= 0 ==> t == "00:00"
  {
    var total := if seconds < 0 then 0 else seconds;
    ZeroPad2Shape(total / 60);
    ZeroPad2Shape(total % 60);
    ZeroPad2(total / 60) + ":" + ZeroPad2(total % 60)
  }

  /** The number a string of decimal digits spells. */
  function DigitsValue(s: string): nat
    requires IsDigits(s)
  {
    if |s| == 0 then 0 else 10 * DigitsValue(s[..|s| - 1]) + (s[|s| - 1] as int - '0' as int)
  }

  /**
   * Reads a time shown as minutes, a colon and two digits of seconds below
   * 60 back into seconds; `None` for anything else.
   */
  function ParseTime(t: string): Option<nat>
  {
    if |t| >= 5 && t[|t| - 3] == ':' && IsDigits(t[..|t| - 3]) && IsDigits(t[|t| - 2..])
       && DigitsValue(t[|t| - 2..]) < 60
    then Some(60 * DigitsValue(t[..|t| - 3]) + DigitsValue(t[|t| - 2..]))
    else None
  }

  /** The digits of `n` spell `n`. */
  lemma {:induction false} DecimalValue(n: nat)
    ensures DigitsValue(Decimal(n)) == n
  {
    if n >= 10 {
      DecimalValue(n / 10);
      var s := Decimal(n);
      assert s[..|s| - 1] == Decimal(n / 10);
    }
  }

  /** `%02d` gives at least two digits, exactly two below 100, spelling the number. */
  lemma ZeroPad2Shape(n: nat)
    ensures |ZeroPad2(n)| >= 2 && IsDigits(ZeroPad2(n))
    ensures n < 100 ==> |ZeroPad2(n)| == 2
    ensures DigitsValue(ZeroPad2(n)) == n
    ensures n >= 10 ==> ZeroPad2(n)[0] != '0'
  {
    DecimalValue(n);
    if n < 10 {
      assert ZeroPad2(n)[..1] == "0";
    } else if n < 100 {
      assert Decimal(n) == Decimal(n / 10) + [DigitChar(n % 10)];
    }
  }

  /**
   * The shown time reads back as the clamped seconds: the minutes field has
   * at least two digits, the seconds field exactly two with a value below
   * 60, and 60 times the minutes plus the seconds is `max(seconds, 0)`.
   * Minutes are padded to two digits and no further: below 100 minutes the
   * time is five characters, and a longer minutes field has no leading zero.
   */
  lemma FormatTimeReadsBack(seconds: int)
    ensures var t := FormatTime(seconds);
            |t[..|t| - 3]| >= 2 && |t[|t| - 2..]| == 2 &&
            ParseTime(t) == Some(if seconds < 0 then 0 else seconds)
    ensures seconds < 6000 ==> |FormatTime(seconds)| == 5
    ensures |FormatTime(seconds)| > 5 ==> FormatTime(seconds)[0] != '0'
  {
    var total := if seconds < 0 then 0 else seconds;
    var minutes, secs := ZeroPad2(total / 60), ZeroPad2(total % 60);
    ZeroPad2Shape(total / 60);
    ZeroPad2Shape(total % 60);
    var t := FormatTime(seconds);
    assert t == minutes + ":" + secs;
    assert t[..|t| - 3] == minutes;
    assert t[|t| - 2..] == secs;
  }

  /** A later, smaller count of seconds never shows a larger time. */
  lemma FormatTimeMonotone(earlier: int, later: int)
    requires later <= earlier
    ensures ParseTime(FormatTime(later)).Some? && ParseTime(FormatTime(earlier)).Some?
    ensures ParseTime(FormatTime(later)).value <= ParseTime(FormatTime(earlier)).value
  {
    FormatTimeReadsBack(earlier);
    FormatTimeReadsBack(later);
  }
}
