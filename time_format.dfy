/**
 * Rendering of whole seconds as text: the decimal form JavaScript's template
 * strings give an integer (`${n}`), and `formatTime` of app.js, which shows a
 * duration as "Ns" below one minute and as "Mm Ss" from one minute on.
 */
module TimeFormat {

  predicate IsDigit(c: char) {
    '0' <= c <= '9'
  }

  predicate AllDigits(s: string) {
    forall i :: 0 <= i < |s| ==> IsDigit(s[i])
  }

  function DigitChar(d: nat): (c: char)
    requires d < 10
    ensures IsDigit(c) && c as int - '0' as int == d
  {
    ('0' as int + d) as char
  }

  /** Decimal digits of `n`, most significant first, without leading zeros. */
  function NatToString(n: nat): (s: string)
    ensures 1 <= |s| && AllDigits(s)
    ensures (s[0] == '0') == (n == 0)
    ensures (|s| == 1) == (n < 10)
    decreases n
  {
    if n < 10 then [DigitChar(n)] else NatToString(n / 10) + [DigitChar(n % 10)]
  }

  /** The number a string of decimal digits denotes: the inverse of NatToString. */
  function DigitsValue(s: string): nat
    requires AllDigits(s)
    decreases |s|
  {
    if s == [] then 0
    else DigitsValue(s[..|s| - 1]) * 10 + (s[|s| - 1] as int - '0' as int)
  }

  lemma {:induction false} DigitsValueOfNatToString(n: nat)
    ensures DigitsValue(NatToString(n)) == n
    decreases n
  {
    if n >= 10 {
      var p := NatToString(n / 10);
      var s := NatToString(n);
      assert s == p + [DigitChar(n % 10)];
      assert s[..|s| - 1] == p;
      DigitsValueOfNatToString(n / 10);
    }
  }

  lemma NatToStringInjective(a: nat, b: nat)
    requires NatToString(a) == NatToString(b)
    ensures a == b
  {
    DigitsValueOfNatToString(a);
    DigitsValueOfNatToString(b);
  }

  /** `${i}` for an integer: a minus sign for negatives, then the digits of |i|. */
  function IntToString(i: int): (s: string)
    ensures 1 <= |s| && AllDigits(s[1..])
    ensures (s[0] == '-') == (i < 0)
    ensures s[0] != '-' ==> IsDigit(s[0])
  {
    if i < 0 then "-" + NatToString(-i) else NatToString(i)
  }

  lemma IntToStringInjective(a: int, b: int)
    requires IntToString(a) == IntToString(b)
    ensures a == b
  {
    var s := IntToString(a);
    if a < 0 {
      assert b < 0;
      assert NatToString(-a) == s[1..] == NatToString(-b);
      NatToStringInjective(-a, -b);
    } else {
      assert b >= 0;
      NatToStringInjective(a, b);
    }
  }

  /** The value of `${i}`: the digits after a leading '-' denote -i; otherwise the digits denote i. */
  lemma IntToStringValue(i: int)
    ensures i < 0 ==> DigitsValue(IntToString(i)[1..]) == -i
    ensures i >= 0 ==> DigitsValue(IntToString(i)) == i
  {
    if i < 0 {
      var digits := NatToString(-i);
      assert IntToString(i) == "-" + digits;
      assert ("-" + digits)[1..] == digits;
      DigitsValueOfNatToString(-i);
    } else {
      DigitsValueOfNatToString(i);
    }
  }

  /** formatTime (app.js:114-119). */
  function FormatTime(seconds: int): (r: string)
    ensures 2 <= |r| && r[|r| - 1] == 's'
    ensures ('m' in r) == (seconds >= 60)
  {
    if seconds < 60 then IntToString(seconds) + "s"
    else NatToString(seconds / 60) + "m " + NatToString(seconds % 60) + "s"
  }

  /** Below one minute the text is the number itself followed by "s". */
  lemma FormatTimeBelowMinute(seconds: int)
    requires seconds < 60
    ensures FormatTime(seconds) == IntToString(seconds) + "s"
    ensures 'm' !in FormatTime(seconds)
  {
    var s := IntToString(seconds);
    forall k | 0 <= k < |s| + 1
      ensures (s + "s")[k] != 'm'
    {
      if k < |s| && k > 0 {
        assert s[k] == s[1..][k - 1];
      }
    }
  }

  /** From one minute on, the text is whole minutes and the remaining seconds. */
  lemma FormatTimeMinutes(seconds: int)
    requires seconds >= 60
    ensures var mins, secs := seconds / 60, seconds % 60;
      1 <= mins && 0 <= secs < 60 && mins * 60 + secs == seconds &&
      FormatTime(seconds) == NatToString(mins) + "m " + NatToString(secs) + "s"
  {
  }

  lemma FormatTimeExamples()
    ensures FormatTime(0) == "0s"
    ensures FormatTime(59) == "59s"
    ensures FormatTime(60) == "1m 0s"
    ensures FormatTime(125) == "2m 5s"
  {
    assert NatToString(59) == NatToString(5) + [DigitChar(9)] == "59";
  }

  /** In digits followed by an 'm', the first 'm' sits right after the digits. */
  lemma FirstM(d: string, rest: string)
    requires AllDigits(d) && |rest| > 0 && rest[0] == 'm'
    ensures forall k :: 0 <= k < |d| ==> (d + rest)[k] != 'm'
    ensures (d + rest)[|d|] == 'm'
  {
  }

  /** Splits "D1 m ..." at the first 'm' when D1 is all digits. */
  lemma DigitsThenM(d1: string, rest1: string, d2: string, rest2: string)
    requires AllDigits(d1) && AllDigits(d2)
    requires |rest1| > 0 && rest1[0] == 'm' && |rest2| > 0 && rest2[0] == 'm'
    requires d1 + rest1 == d2 + rest2
    ensures d1 == d2 && rest1 == rest2
  {
    var s := d1 + rest1;
    FirstM(d1, rest1);
    FirstM(d2, rest2);
    assert |d1| == |d2|;
    assert d1 == s[..|d1|] == d2;
  }

  /** From one minute on, equal texts have equal minutes and equal seconds. */
  lemma FormatTimeInjectiveMinutes(a: int, b: int)
    requires a >= 60 && b >= 60 && FormatTime(a) == FormatTime(b)
    ensures a == b
  {
    var da, db := NatToString(a / 60), NatToString(b / 60);
    var ra := "m " + NatToString(a % 60) + "s";
    var rb := "m " + NatToString(b % 60) + "s";
    assert FormatTime(a) == da + ra;
    assert FormatTime(b) == db + rb;
    DigitsThenM(da, ra, db, rb);
    NatToStringInjective(a / 60, b / 60);
    var sa, sb := NatToString(a % 60), NatToString(b % 60);
    assert sa == ra[2..|ra| - 1] == rb[2..|rb| - 1] == sb;
    NatToStringInjective(a % 60, b % 60);
  }

  /** Different durations are never shown as the same text. */
  lemma FormatTimeInjective(a: int, b: int)
    requires FormatTime(a) == FormatTime(b)
    ensures a == b
  {
    if a < 60 && b < 60 {
      var s, t := IntToString(a), IntToString(b);
      assert s == (s + "s")[..|s|] == (t + "s")[..|t|] == t;
      IntToStringInjective(a, b);
    } else if a < 60 || b < 60 {
      // only one of the two texts has a minutes part
      assert false;
    } else {
      FormatTimeInjectiveMinutes(a, b);
    }
  }
}
