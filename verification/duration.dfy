/**
 * formatDuration (src/lib/audio-utils.ts): seconds rendered as "m:ss", whole minutes
 * before the colon and the remaining whole seconds padded to two digits after it.
 * Numbers are exact reals; JavaScript's `Math.floor` is `.Floor`, and its `%` on
 * numbers truncates toward zero, which is written out below.
 */
module Duration {
  import opened Wrappers

  predicate IsDigit(c: char) {
    '0' <= c <= '9'
  }

  function DigitChar(d: nat): (c: char)
    requires d < 10
    ensures IsDigit(c)
  {
    ('0' as int + d) as char
  }

  function DigitValue(c: char): (d: nat)
    requires IsDigit(c)
    ensures d < 10
  {
    (c as int - '0' as int) as nat
  }

  /** Decimal digits of n without leading zeros, as `Number.prototype.toString` writes them. */
  function NatToString(n: nat): (s: string)
    ensures 1 <= |s| && forall i :: 0 <= i < |s| ==> IsDigit(s[i])
    ensures n < 10 <==> |s| == 1
    decreases n
  {
    if n < 10 then [DigitChar(n)] else NatToString(n / 10) + [DigitChar(n % 10)]
  }

  function IntToString(i: int): (s: string)
    ensures i >= 0 ==> s == NatToString(i)
    ensures i < 0 ==> s == "-" + NatToString(-i)
  {
    if i < 0 then "-" + NatToString(-i) else NatToString(i)
  }

  /** `padStart(2, '0')`: zeros prepended up to length 2; longer strings are unchanged. */
  function PadStart2(s: string): (r: string)
    ensures |s| >= 2 ==> r == s
    ensures |s| < 2 ==> |r| == 2 && r[2 - |s|..] == s && forall i :: 0 <= i < 2 - |s| ==> r[i] == '0'
  {
    if |s| >= 2 then s else seq(2 - |s|, _ => '0') + s
  }

  /** Truncation toward zero, as JavaScript's `%` uses for the quotient. */
  function Trunc(x: real): (t: int)
    ensures x >= 0.0 ==> t == x.Floor
    ensures x < 0.0 ==> t == -((-x).Floor)
  {
    if x >= 0.0 then x.Floor else -((-x).Floor)
  }

  /** `seconds % 60` on numbers: the remainder carries the sign of the dividend. */
  function Rem60(seconds: real): (r: real)
    ensures seconds >= 0.0 ==> 0.0 <= r < 60.0
    ensures seconds < 0.0 ==> -60.0 < r <= 0.0
    ensures seconds - r == 60.0 * Trunc(seconds / 60.0) as real
  {
    seconds - 60.0 * Trunc(seconds / 60.0) as real
  }

  function FormatDuration(seconds: real): (text: string)
    ensures seconds >= 0.0 ==> |text| >= 4 && text[|text| - 3] == ':'
  {
    var mins := (seconds / 60.0).Floor;
    var secs := Rem60(seconds).Floor;
    var m := IntToString(mins);
    var s := PadStart2(IntToString(secs));
    assert seconds >= 0.0 ==> 0 <= secs < 60 && |s| == 2 && mins >= 0;
    m + ":" + s
  }

  /** Value of a non-empty string of decimal digits; leading zeros are allowed. */
  function ParseDigits(s: string): (r: Option<nat>)
    ensures r.Some? <==> 1 <= |s| && forall i :: 0 <= i < |s| ==> IsDigit(s[i])
    decreases |s|
  {
    if |s| == 0 || !IsDigit(s[|s| - 1]) then None
    else if |s| == 1 then Some(DigitValue(s[0]))
    else match ParseDigits(s[..|s| - 1])
      case None => None
      case Some(high) => Some(10 * high + DigitValue(s[|s| - 1]))
  }

  function ColonIndex(s: string, from: nat): (r: Option<nat>)
    requires from <= |s|
    ensures r.Some? ==> from <= r.value < |s| && s[r.value] == ':' && forall i :: from <= i < r.value ==> s[i] != ':'
    ensures r.None? ==> forall i :: from <= i < |s| ==> s[i] != ':'
    decreases |s| - from
  {
    if from == |s| then None else if s[from] == ':' then Some(from) else ColonIndex(s, from + 1)
  }

  /**
   * Reads "m:ss" back into whole seconds: digits, a colon, exactly two digits below 60.
   * Anything else, including the negative forms, is rejected.
   */
  function ParseDuration(text: string): (r: Option<int>)
    ensures r.Some? ==> r.value >= 0
  {
    match ColonIndex(text, 0)
    case None => None
    case Some(i) =>
      var m := ParseDigits(text[..i]);
      var s := ParseDigits(text[i + 1..]);
      if m.None? || s.None? || |text| - (i + 1) != 2 || s.value >= 60 then None
      else Some(60 * m.value + s.value)
  }

  lemma {:induction false} NatToStringRoundTrip(n: nat)
    ensures ParseDigits(NatToString(n)) == Some(n)
    decreases n
  {
    if n >= 10 {
      var s := NatToString(n);
      NatToStringRoundTrip(n / 10);
      assert s[..|s| - 1] == NatToString(n / 10);
    }
  }

  lemma TwoDigitsRoundTrip(secs: nat)
    requires secs < 60
    ensures ParseDigits(PadStart2(NatToString(secs))) == Some(secs)
  {
    var p := PadStart2(NatToString(secs));
    if secs >= 10 {
      NatToStringRoundTrip(secs);
    } else {
      assert p == ['0', DigitChar(secs)];
      assert p[..1] == ['0'];
    }
  }

  /** Minutes and seconds of a non-negative duration: 60 * minutes + seconds is its whole part. */
  lemma Split(seconds: real)
    requires seconds >= 0.0
    ensures var mins := (seconds / 60.0).Floor;
            var secs := Rem60(seconds).Floor;
            mins >= 0 && 0 <= secs < 60 && 60 * mins + secs == seconds.Floor
  {
    var mins := (seconds / 60.0).Floor;
    var r := Rem60(seconds);
    assert seconds == 60.0 * mins as real + r;
  }

  /** Formatting then parsing a non-negative duration gives back its whole seconds. */
  lemma FormatDurationRoundTrip(seconds: real)
    requires seconds >= 0.0
    ensures ParseDuration(FormatDuration(seconds)) == Some(seconds.Floor)
  {
    var mins, secs := FieldsOf(seconds);
    ParsePrinted(FormatDuration(seconds), mins, secs, seconds.Floor);
  }

  lemma ParsePrinted(text: string, mins: nat, secs: nat, total: int)
    requires secs < 60 && total == 60 * mins + secs
    requires text == NatToString(mins) + ":" + PadStart2(NatToString(secs))
    ensures ParseDuration(text) == Some(total)
  {
    ParseFields(mins, secs, total);
  }

  /** The printed minutes and seconds of a non-negative duration, which add up to its whole part. */
  lemma FieldsOf(seconds: real) returns (mins: nat, secs: nat)
    requires seconds >= 0.0
    ensures secs < 60 && 60 * mins + secs == seconds.Floor
    ensures FormatDuration(seconds) == NatToString(mins) + ":" + PadStart2(NatToString(secs))
  {
    Split(seconds);
    PrintedFields(seconds);
    mins, secs := (seconds / 60.0).Floor, Rem60(seconds).Floor;
  }

  lemma PrintedFields(seconds: real)
    requires seconds >= 0.0
    ensures (seconds / 60.0).Floor >= 0 && 0 <= Rem60(seconds).Floor < 60
    ensures FormatDuration(seconds) ==
              NatToString((seconds / 60.0).Floor) + ":" + PadStart2(NatToString(Rem60(seconds).Floor))
  {
    Split(seconds);
  }

  /** The printed fields of a minute count and a second count below 60 read back as their total. */
  lemma ParseFields(mins: nat, secs: nat, total: int)
    requires secs < 60 && total == 60 * mins + secs
    ensures ParseDuration(NatToString(mins) + ":" + PadStart2(NatToString(secs))) == Some(total)
  {
    var m := NatToString(mins);
    var s := PadStart2(NatToString(secs));
    var text := m + ":" + s;
    ColonAfterDigits(m, s);
    assert text[..|m|] == m;
    assert text[|m| + 1..] == s;
    NatToStringRoundTrip(mins);
    TwoDigitsRoundTrip(secs);
    ParseAt(text, |m|, mins, secs, total);
  }

  lemma ParseAt(text: string, i: nat, mins: nat, secs: nat, total: int)
    requires i < |text| && ColonIndex(text, 0) == Some(i)
    requires ParseDigits(text[..i]) == Some(mins) && ParseDigits(text[i + 1..]) == Some(secs)
    requires |text| == i + 3 && secs < 60 && total == 60 * mins + secs
    ensures ParseDuration(text) == Some(total)
  {
  }

  lemma ColonAfterDigits(m: string, s: string)
    requires forall i :: 0 <= i < |m| ==> IsDigit(m[i])
    ensures ColonIndex(m + ":" + s, 0) == Some(|m|)
  {
    var text := m + ":" + s;
    assert text[|m|] == ':';
    assert forall i :: 0 <= i < |m| ==> text[i] == m[i];
  }

  /** Two non-negative durations print alike exactly when they have the same whole seconds. */
  lemma FormatDependsOnWholeSeconds(a: real, b: real)
    requires a >= 0.0 && b >= 0.0
    ensures FormatDuration(a) == FormatDuration(b) <==> a.Floor == b.Floor
  {
    if a.Floor == b.Floor {
      Split(a);
      Split(b);
      PrintedFields(a);
      PrintedFields(b);
      var ma, mb := (a / 60.0).Floor, (b / 60.0).Floor;
      var sa, sb := Rem60(a).Floor, Rem60(b).Floor;
      assert ma == mb && sa == sb;
    } else {
      FormatDurationRoundTrip(a);
      FormatDurationRoundTrip(b);
    }
  }

  /** A negative duration keeps its sign in both fields: -5 seconds prints as "-1:-5". */
  lemma NegativeDuration()
    ensures FormatDuration(-5.0) == "-1:-5"
  {
    assert (-5.0 / 60.0).Floor == -1;
    assert Rem60(-5.0) == -5.0;
    assert NatToString(1) == "1";
    assert NatToString(5) == "5";
  }
}
