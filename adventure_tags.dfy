/** The `duration` template filter: a number of seconds shown as hours and
    two-digit minutes, or a dash when there is nothing to show. */
module AdventureTags {
  import opened Wrappers
  import opened ActivityData

  // ---------------------------------------------------------------------
  // Decimal rendering of integers

  predicate IsDigit(c: char) {
    '0' <= c <= '9'
  }

  predicate AllDigits(s: string) {
    forall i :: 0 <= i < |s| ==> IsDigit(s[i])
  }

  function DigitChar(d: nat): (c: char)
    requires d < 10
    ensures IsDigit(c) && c as int == '0' as int + d
  {
    ('0' as int + d) as char
  }

  function DigitOf(c: char): (d: nat)
    requires IsDigit(c)
    ensures d < 10 && DigitChar(d) == c
  {
    c as int - '0' as int
  }

  /** The value of a string of decimal digits, most significant first. */
  function DigitsValue(s: string): (v: nat)
    requires AllDigits(s)
  {
    if s == [] then 0
    else DigitsValue(s[..|s| - 1]) * 10 + DigitOf(s[|s| - 1])
  }

  /** `str(n)` for a natural number: its decimal digits, no leading zero. */
  function NatToString(n: nat): (s: string)
    ensures |s| >= 1 && AllDigits(s)
    ensures s[0] == '0' ==> n == 0 && |s| == 1
    decreases n
  {
    if n < 10 then [DigitChar(n)] else NatToString(n / 10) + [DigitChar(n % 10)]
  }

  lemma {:induction false} NatToStringValue(n: nat)
    ensures DigitsValue(NatToString(n)) == n
    decreases n
  {
    if n >= 10 {
      NatToStringValue(n / 10);
      var s := NatToString(n);
      assert s[..|s| - 1] == NatToString(n / 10);
    }
  }

  /** `str(i)` for any integer: a minus sign before the digits of `|i|`. */
  function IntToString(i: int): (s: string)
    ensures |s| >= 1 && (s[0] == '-' <==> i < 0)
  {
    if i < 0 then "-" + NatToString(-i) else NatToString(i)
  }

  /** Reads back what `IntToString` writes. */
  function ReadInt(s: string): (i: int)
  {
    if |s| >= 1 && s[0] == '-' && AllDigits(s[1..]) then -(DigitsValue(s[1..]) as int)
    else if AllDigits(s) then DigitsValue(s)
    else 0
  }

  lemma IntToStringRoundTrip(i: int)
    ensures ReadInt(IntToString(i)) == i
  {
    if i < 0 {
      ReadSigned(NatToString(-i));
      NatToStringValue(-i);
    } else {
      ReadUnsigned(NatToString(i));
      NatToStringValue(i);
    }
  }

  lemma ReadSigned(t: string)
    requires AllDigits(t)
    ensures ReadInt("-" + t) == -(DigitsValue(t) as int)
  {
    assert ("-" + t)[1..] == t;
  }

  lemma ReadUnsigned(t: string)
    requires |t| >= 1 && AllDigits(t)
    ensures ReadInt(t) == DigitsValue(t)
  {
    assert IsDigit(t[0]);
  }

  /** `f'{m:02d}'` for `0 <= m < 100`. */
  function Pad2(m: nat): (s: string)
    requires m < 100
    ensures |s| == 2 && AllDigits(s)
    ensures DigitsValue(s) == m
  {
    var s := [DigitChar(m / 10), DigitChar(m % 10)];
    assert s[..1][..0] == [];
    assert DigitsValue(s[..1]) == m / 10;
    s
  }

  // ---------------------------------------------------------------------
  // The filter

  /** Python's truthiness of the filter's argument: None and zero are falsy. */
  predicate Falsy(seconds: Option<real>) {
    seconds.None? || seconds.value == 0.0
  }

  /** `divmod(int(seconds), 3600)` and `remainder // 60`, with Python's
      floor division (equal to Dafny's for a positive divisor). */
  function DurationParts(seconds: real): (hm: (int, nat))
    ensures var t := Trunc(seconds);
      && hm.1 <= 59
      && hm.0 * 3600 <= t < (hm.0 + 1) * 3600
      && hm.0 * 3600 + hm.1 * 60 <= t < hm.0 * 3600 + hm.1 * 60 + 60
  {
    var t := Trunc(seconds);
    var h := t / 3600;
    var remainder := t % 3600;
    (h, remainder / 60)
  }

  function Duration(seconds: Option<real>): (s: string)
    ensures Falsy(seconds) <==> s == "—"
  {
    if Falsy(seconds) then "—"
    else
      var (h, m) := DurationParts(seconds.value);
      var s := IntToString(h) + "h " + Pad2(m) + "m";
      assert s[|s| - 1] == 'm';
      s
  }

  /** A truthy argument renders as its hours, "h ", two digits of minutes
      and "m", and both numbers read back from the text. */
  lemma DurationReadsBack(seconds: real)
    requires seconds != 0.0
    ensures var (h, m) := DurationParts(seconds);
      && Duration(Some(seconds)) == IntToString(h) + "h " + Pad2(m) + "m"
      && ReadInt(IntToString(h)) == h
      && DigitsValue(Pad2(m)) == m
  {
    var (h, m) := DurationParts(seconds);
    IntToStringRoundTrip(h);
  }

  /** Under a minute, the rendering is "0h 00m" even for a fraction of a
      second, which is truthy although `int` makes it zero. */
  lemma FractionOfASecond()
    ensures Duration(Some(0.5)) == "0h 00m"
    ensures Duration(Some(59.9)) == "0h 00m"
  {
    assert Trunc(0.5) == 0;
    assert Trunc(59.9) == 59;
  }

  lemma OneHourOneMinute()
    ensures Duration(Some(3661.0)) == "1h 01m"
  {
    assert Trunc(3661.0) == 3661;
  }
}
