/**
 * `formatTime`: a number of seconds shown as minutes, a colon and two-digit
 * seconds, as `String(n)` and `padStart` produce them.
 */
module TimeFormat {
  predicate IsDigit(c: char)
  {
    '0' <= c <= '9'
  }

  predicate AllDigits(s: string)
  {
    forall i :: 0 <= i < |s| ==> IsDigit(s[i])
  }

  function DigitChar(d: nat): (c: char)
    requires d < 10
    ensures IsDigit(c) && c as int - '0' as int == d
  {
    (d + '0' as int) as char
  }

  /** The number a string of decimal digits denotes. */
  function DigitsValue(s: string): nat
    requires AllDigits(s)
    decreases |s|
  {
    if s == [] then 0 else DigitsValue(s[..|s| - 1]) * 10 + (s[|s| - 1] as int - '0' as int)
  }

  /** `String(n)` for a natural number: its decimal digits, no leading zero. */
  function NatToString(n: nat): (s: string)
    ensures 1 <= |s| && AllDigits(s)
    ensures |s| == 1 <==> n < 10
    ensures |s| > 1 ==> s[0] != '0'
    decreases n
  {
    if n < 10 then [DigitChar(n)] else NatToString(n / 10) + [DigitChar(n % 10)]
  }

  /** Reading back the digits of `String(n)` gives n. */
  lemma {:induction false} NatToStringValue(n: nat)
    ensures DigitsValue(NatToString(n)) == n
    decreases n
  {
    var s := NatToString(n);
    if n >= 10 {
      NatToStringValue(n / 10);
      assert s[..|s| - 1] == NatToString(n / 10);
    }
  }

  /** Numbers below 100 have at most two digits. */
  lemma SmallNatLength(n: nat)
    requires n < 100
    ensures |NatToString(n)| <= 2
  {
    if n >= 10 {
      assert n / 10 < 10;
    }
  }

  /** `padStart`: fill on the left up to `width` characters; longer strings stay as they are. */
  function PadStart(s: string, width: nat, fill: char): (r: string)
    ensures |s| >= width ==> r == s
    ensures |s| < width ==> |r| == width && r[width - |s|..] == s
    ensures |s| < width ==> forall i :: 0 <= i < width - |s| ==> r[i] == fill
  {
    if |s| >= width then s else seq(width - |s|, _ => fill) + s
  }

  /** Leading zeros do not change the value of a digit string. */
  lemma {:induction false} LeadingZerosValue(zeros: string, s: string)
    requires AllDigits(s)
    requires forall i :: 0 <= i < |zeros| ==> zeros[i] == '0'
    ensures AllDigits(zeros + s) && DigitsValue(zeros + s) == DigitsValue(s)
    decreases |s|
  {
    var z := zeros + s;
    if s == [] {
      assert z == zeros;
      ZerosValue(zeros);
    } else {
      LeadingZerosValue(zeros, s[..|s| - 1]);
      assert z[..|z| - 1] == zeros + s[..|s| - 1];
    }
  }

  lemma {:induction false} ZerosValue(zeros: string)
    requires forall i :: 0 <= i < |zeros| ==> zeros[i] == '0'
    ensures AllDigits(zeros) && DigitsValue(zeros) == 0
    decreases |zeros|
  {
    if zeros != [] {
      ZerosValue(zeros[..|zeros| - 1]);
    }
  }

  /** The seconds field: the decimal digits padded with zeros to two characters. */
  function SecondsField(s: nat): string
  {
    PadStart(NatToString(s), 2, '0')
  }

  /** A seconds value below 60 shows as exactly two digits that read back as that value. */
  lemma SecondsFieldValue(s: nat)
    requires s < 60
    ensures |SecondsField(s)| == 2 && AllDigits(SecondsField(s))
    ensures DigitsValue(SecondsField(s)) == s
  {
    var d := NatToString(s);
    SmallNatLength(s);
    NatToStringValue(s);
    var f := SecondsField(s);
    if |d| < 2 {
      assert f == f[..2 - |d|] + d;
      LeadingZerosValue(f[..2 - |d|], d);
    }
  }

  /**
   * `formatTime`: the minutes, a colon, and the seconds padded to two
   * digits. The two fields read back as the input, the seconds field
   * is two digits denoting less than 60, and the minutes field has no
   * leading zero, which makes the text the only one with these properties.
   */
  function FormatTime(seconds: nat): (text: string)
    ensures |text| >= 4 && text[|text| - 3] == ':'
    ensures AllDigits(text[..|text| - 3]) && AllDigits(text[|text| - 2..])
    ensures DigitsValue(text[|text| - 2..]) < 60
    ensures DigitsValue(text[..|text| - 3]) * 60 + DigitsValue(text[|text| - 2..]) == seconds
    ensures |text| == 4 || text[0] != '0'
  {
    var m := seconds / 60;
    var s := seconds % 60;
    NatToStringValue(m);
    SecondsFieldValue(s);
    var text := NatToString(m) + ":" + SecondsField(s);
    assert text[..|text| - 3] == NatToString(m);
    assert text[|text| - 2..] == SecondsField(s);
    text
  }

  /** A digit string without a leading zero is the decimal form of its value. */
  lemma {:induction false} CanonicalDigits(s: string)
    requires 1 <= |s| && AllDigits(s)
    requires |s| == 1 || s[0] != '0'
    ensures s == NatToString(DigitsValue(s))
    decreases |s|
  {
    var d := s[|s| - 1] as int - '0' as int;
    if |s| == 1 {
      assert s == [DigitChar(d)];
    } else {
      var p := s[..|s| - 1];
      var v := DigitsValue(p);
      CanonicalDigits(p);
      assert v >= 1 by {
        if |p| == 1 {
          assert p[0] != '0';
        } else {
          assert |NatToString(v)| > 1;
        }
      }
      assert (v * 10 + d) / 10 == v && (v * 10 + d) % 10 == d;
      assert s == p + [DigitChar(d)];
    }
  }

  /** Two-character digit strings are determined by their value. */
  lemma TwoDigitsDetermined(a: string, b: string)
    requires |a| == 2 && |b| == 2 && AllDigits(a) && AllDigits(b)
    requires DigitsValue(a) == DigitsValue(b)
    ensures a == b
  {
    assert DigitsValue(a[..1]) == a[0] as int - '0' as int;
    assert DigitsValue(b[..1]) == b[0] as int - '0' as int;
  }

  /**
   * The contract of `FormatTime` pins the text down: any text with a colon
   * before two seconds digits below 60, a minutes field without a leading
   * zero and fields adding up to the input is the formatted time.
   */
  lemma FormatTimeUnique(seconds: nat, text: string)
    requires |text| >= 4 && text[|text| - 3] == ':'
    requires AllDigits(text[..|text| - 3]) && AllDigits(text[|text| - 2..])
    requires DigitsValue(text[|text| - 2..]) < 60
    requires DigitsValue(text[..|text| - 3]) * 60 + DigitsValue(text[|text| - 2..]) == seconds
    requires |text| == 4 || text[0] != '0'
    ensures text == FormatTime(seconds)
  {
    var m := text[..|text| - 3];
    var sf := text[|text| - 2..];
    var f := FormatTime(seconds);
    CanonicalDigits(m);
    CanonicalDigits(f[..|f| - 3]);
    assert DigitsValue(m) == seconds / 60 && DigitsValue(sf) == seconds % 60;
    assert DigitsValue(f[..|f| - 3]) == seconds / 60 && DigitsValue(f[|f| - 2..]) == seconds % 60;
    TwoDigitsDetermined(sf, f[|f| - 2..]);
    assert text == m + ":" + sf;
    assert f == f[..|f| - 3] + ":" + f[|f| - 2..];
  }

  lemma FormatTimeExamples()
    ensures FormatTime(0) == "0:00"
    ensures FormatTime(1500) == "25:00"
    ensures FormatTime(65) == "1:05"
  {
    assert NatToString(25) == "25" by {
      assert NatToString(2) == "2";
    }
    assert SecondsField(0) == "00";
    assert SecondsField(5) == "05";
  }
}
