/**
 * The "minutes:seconds" display of an elapsed time in seconds, with the seconds
 * zero-padded to two digits, and a parser that reads such a display back.
 */
module TimeFormat {
  import opened Common

  predicate IsDigit(c: char) { '0' <= c <= '9' }

  predicate AllDigits(s: string) { forall i :: 0 <= i < |s| ==> IsDigit(s[i]) }

  function Digit(d: nat): (c: char)
    requires d < 10
    ensures IsDigit(c) && c as int - '0' as int == d
  {
    "0123456789"[d]
  }

  function DigitValue(c: char): (d: nat)
    requires IsDigit(c)
    ensures d < 10
  {
    c as int - '0' as int
  }

  /** The decimal numeral of `n` without leading zeros, as `toString()` writes a non-negative integer. */
  function NatToString(n: nat): (s: string)
    ensures 1 <= |s| && AllDigits(s)
    ensures |s| == 1 <==> n < 10
    ensures s[0] == '0' ==> n == 0
  {
    if n < 10 then [Digit(n)] else NatToString(n / 10) + [Digit(n % 10)]
  }

  /** The number a string of decimal digits denotes. */
  function DigitsValue(s: string): nat
    requires AllDigits(s)
  {
    if s == [] then 0 else DigitsValue(s[..|s| - 1]) * 10 + DigitValue(s[|s| - 1])
  }

  /** Reading back the numeral `toString()` writes gives the number. */
  lemma {:induction false} NatToStringValue(n: nat)
    ensures DigitsValue(NatToString(n)) == n
  {
    var s := NatToString(n);
    if n >= 10 {
      NatToStringValue(n / 10);
      assert s[..|s| - 1] == NatToString(n / 10);
    }
  }

  /** `padStart(2, '0')`: prefixes zeros until the string has at least two characters. */
  function PadStart2(s: string): (r: string)
    ensures |r| == if |s| >= 2 then |s| else 2
    ensures r[|r| - |s|..] == s
    ensures forall i :: 0 <= i < |r| - |s| ==> r[i] == '0'
  {
    if |s| >= 2 then s else if |s| == 1 then "0" + s else "00"
  }

  /**
   * The elapsed-time display: the whole minutes in decimal without leading zeros, a colon,
   * then the remaining seconds as exactly two digits.
   */
  function FormatTime(seconds: nat): (r: string)
    ensures 4 <= |r| && r[|r| - 3] == ':'
    ensures AllDigits(r[..|r| - 3]) && DigitsValue(r[..|r| - 3]) == seconds / 60
    ensures r[0] == '0' ==> |r| == 4
    ensures AllDigits(r[|r| - 2..]) && DigitsValue(r[|r| - 2..]) == seconds % 60
  {
    var m, sec := seconds / 60, seconds % 60;
    var minutes, secs := NatToString(m), PadStart2(NatToString(sec));
    NatToStringValue(m);
    PaddedSecondsValue(sec);
    JoinedFields(minutes, secs);
    minutes + ":" + secs
  }

  /** The fields of a minutes text joined to a two-character seconds text by a colon. */
  lemma JoinedFields(ms: string, ss: string)
    requires 1 <= |ms| && |ss| == 2
    ensures var r := ms + ":" + ss;
      && |r| == |ms| + 3 && r[|r| - 3] == ':' && r[0] == ms[0]
      && r[..|r| - 3] == ms && r[|r| - 2..] == ss
  {
    var r := ms + ":" + ss;
    assert r[..|r| - 3] == ms;
    assert r[|r| - 2..] == ss;
  }

  /**
   * Reads a "minutes:seconds" display: one or more digits, a colon, and exactly two digits that
   * denote less than sixty. Anything else is rejected.
   */
  function ParseTime(s: string): (r: Option<nat>)
    ensures r.Some? ==> |s| >= 4 && s[|s| - 3] == ':'
  {
    if |s| < 4 || s[|s| - 3] != ':' then None
    else
      var minutes, secs := s[..|s| - 3], s[|s| - 2..];
      if !AllDigits(minutes) || !AllDigits(secs) || DigitsValue(secs) >= 60 then None
      else Some(DigitsValue(minutes) * 60 + DigitsValue(secs))
  }

  /** The padded seconds field is two digits that denote the seconds. */
  lemma {:induction false} PaddedSecondsValue(sec: nat)
    requires sec < 60
    ensures var ss := PadStart2(NatToString(sec)); |ss| == 2 && AllDigits(ss) && DigitsValue(ss) == sec
  {
    var digits := NatToString(sec);
    NatToStringValue(sec);
    var ss := PadStart2(digits);
    if |digits| == 1 {
      assert ss == "0" + digits;
      assert ss[..1] == "0";
      assert DigitsValue(ss[..1]) == 0;
    } else {
      assert ss == digits;
    }
  }

  /** Parsing a minutes field, a colon and a valid two-digit seconds field. */
  lemma ParseJoined(ms: string, ss: string)
    requires 1 <= |ms| && AllDigits(ms)
    requires |ss| == 2 && AllDigits(ss) && DigitsValue(ss) < 60
    ensures ParseTime(ms + ":" + ss) == Some(DigitsValue(ms) * 60 + DigitsValue(ss))
  {
    var r := ms + ":" + ss;
    assert r[..|r| - 3] == ms;
    assert r[|r| - 2..] == ss;
  }

  /** Reading a display back gives the time it displays. */
  lemma {:induction false} ParseFormatTime(seconds: nat)
    ensures ParseTime(FormatTime(seconds)) == Some(seconds)
  {
    var m, sec := seconds / 60, seconds % 60;
    PaddedSecondsValue(sec);
    NatToStringValue(m);
    ParseJoined(NatToString(m), PadStart2(NatToString(sec)));
  }
}
