/**
 * The elapsed-time display of components/game-timer.tsx: a millisecond count shown as
 * "MM:SS", each field the decimal text of a JavaScript integer left-padded with '0' to two
 * characters. The interval tick that refreshes the count is a method taking the current time.
 */
module Timer {
  import opened Wrappers

  predicate IsDigit(c: char) {
    '0' <= c <= '9'
  }

  predicate AllDigits(s: string) {
    forall i :: 0 <= i < |s| ==> IsDigit(s[i])
  }

  /** JavaScript's `%` on integers: the remainder takes the sign of the dividend */
  function JsRem(a: int, b: int): (r: int)
    requires b > 0
    ensures a >= 0 ==> 0 <= r < b && r == a % b
    ensures a < 0 ==> -b < r <= 0 && r == -((-a) % b)
  {
    if a >= 0 then a % b else -((-a) % b)
  }

  function DigitChar(d: int): (c: char)
    requires 0 <= d < 10
    ensures IsDigit(c) && c as int - '0' as int == d
  {
    ('0' as int + d) as char
  }

  /** The decimal digits of a natural number, without leading zeros */
  function NatToDecimal(n: nat): (s: string)
    ensures 1 <= |s| && AllDigits(s)
    ensures n < 10 <==> |s| == 1
    ensures 10 <= n < 100 ==> |s| == 2
  {
    if n < 10 then [DigitChar(n)] else NatToDecimal(n / 10) + [DigitChar(n % 10)]
  }

  /** `Number.prototype.toString()` on an integral value */
  function IntToString(n: int): (s: string)
    ensures n >= 0 ==> s == NatToDecimal(n)
    ensures n < 0 ==> |s| >= 2 && s[0] == '-'
  {
    if n < 0 then "-" + NatToDecimal(-n) else NatToDecimal(n)
  }

  /** `padStart(2, "0")`: a string shorter than two characters gets '0's in front */
  function PadStart2(s: string): (r: string)
    ensures |r| == if |s| >= 2 then |s| else 2
    ensures r[|r| - |s|..] == s
    ensures forall i :: 0 <= i < |r| - |s| ==> r[i] == '0'
  {
    if |s| >= 2 then s else seq(2 - |s|, _ => '0') + s
  }

  /** Math.floor(ms / 1000): the whole seconds (Dafny's `/` floors when the divisor is positive) */
  function TotalSeconds(ms: int): int {
    ms / 1000
  }

  function Minutes(ms: int): int {
    TotalSeconds(ms) / 60
  }

  /** totalSeconds % 60, with JavaScript's remainder */
  function Seconds(ms: int): (s: int)
    ensures ms >= 0 ==> 0 <= s < 60
  {
    JsRem(TotalSeconds(ms), 60)
  }

  /** formatTime: minutes and seconds, each padded to two characters, joined by ':' */
  function FormatTime(ms: int): string {
    PadStart2(IntToString(Minutes(ms))) + ":" + PadStart2(IntToString(Seconds(ms)))
  }

  /** For a non-negative count the two fields split the whole seconds exactly */
  lemma SplitRoundTrip(ms: int)
    requires ms >= 0
    ensures 0 <= Seconds(ms) < 60 && 0 <= Minutes(ms)
    ensures Minutes(ms) * 60 + Seconds(ms) == ms / 1000
  {
  }

  /** Below 100 minutes (6,000,000 ms) the display is exactly five characters */
  lemma FiveCharacters(ms: int)
    requires 0 <= ms < 6000000
    ensures |FormatTime(ms)| == 5
  {
    SplitRoundTrip(ms);
    var m, sec := Minutes(ms), Seconds(ms);
    assert m < 100;
    assert |NatToDecimal(m)| <= 2 && |NatToDecimal(sec)| <= 2;
    assert |PadStart2(IntToString(m))| == 2 && |PadStart2(IntToString(sec))| == 2;
  }

  /** The timer's initial count, 0, shows "00:00" */
  lemma FormatZero()
    ensures FormatTime(0) == "00:00"
  {
    assert NatToDecimal(0) == "0";
    assert PadStart2("0") == "00";
  }

  /** A negative count (a start time in the future) shows JavaScript's signed fields */
  lemma FormatNegative()
    ensures FormatTime(-1000) == "-1:-1"
  {
    assert Minutes(-1000) == -1 && Seconds(-1000) == -1;
    assert NatToDecimal(1) == "1";
  }

  // ---------------------------------------------------------------------------------------------
  // Reading a display back

  /** The value of a string of decimal digits */
  function DigitsValue(s: string): nat
    requires AllDigits(s)
  {
    if s == [] then 0 else DigitsValue(s[..|s| - 1]) * 10 + (s[|s| - 1] as int - '0' as int)
  }

  lemma {:induction false} DecimalRoundTrip(n: nat)
    ensures DigitsValue(NatToDecimal(n)) == n
  {
    if n >= 10 {
      var s := NatToDecimal(n);
      assert s[..|s| - 1] == NatToDecimal(n / 10);
      DecimalRoundTrip(n / 10);
    }
  }

  /** Leading zeros do not change a digit string's value */
  lemma {:induction false} LeadingZeros(z: string, s: string)
    requires AllDigits(s) && forall i :: 0 <= i < |z| ==> z[i] == '0'
    ensures AllDigits(z + s) && DigitsValue(z + s) == DigitsValue(s)
  {
    if s == [] {
      assert z + s == z;
      LeadingZerosAlone(z);
    } else {
      assert (z + s)[..|z + s| - 1] == z + s[..|s| - 1];
      LeadingZeros(z, s[..|s| - 1]);
    }
  }

  lemma {:induction false} LeadingZerosAlone(z: string)
    requires forall i :: 0 <= i < |z| ==> z[i] == '0'
    ensures AllDigits(z) && DigitsValue(z) == 0
  {
    if z != [] {
      LeadingZerosAlone(z[..|z| - 1]);
    }
  }

  /** The position of the first ':' */
  function ColonAt(s: string): (r: Option<nat>)
    ensures r.Some? ==> r.value < |s| && s[r.value] == ':' && forall i :: 0 <= i < r.value ==> s[i] != ':'
    ensures r.None? ==> forall i :: 0 <= i < |s| ==> s[i] != ':'
  {
    if s == [] then None
    else if s[0] == ':' then Some(0)
    else match ColonAt(s[1..]) case None => None case Some(k) => Some(k + 1)
  }

  /** A field of digits followed by ':' puts the first colon right after the field */
  lemma {:induction false} ColonAfterDigits(a: string, b: string)
    requires AllDigits(a)
    ensures ColonAt(a + ":" + b) == Some(|a|)
  {
    if a != [] {
      assert (a + ":" + b)[1..] == a[1..] + ":" + b;
      ColonAfterDigits(a[1..], b);
    }
  }

  /** Reads "M…M:SS" back into its minutes and seconds; None when it is not two digit fields */
  function ParseTime(s: string): Option<(nat, nat)> {
    match ColonAt(s)
    case None => None
    case Some(k) =>
      if k > 0 && k + 1 < |s| && AllDigits(s[..k]) && AllDigits(s[k + 1..])
      then Some((DigitsValue(s[..k]), DigitsValue(s[k + 1..])))
      else None
  }

  /** A padded field reads back as the number it shows */
  lemma PaddedValue(n: nat)
    ensures AllDigits(PadStart2(NatToDecimal(n))) && DigitsValue(PadStart2(NatToDecimal(n))) == n
  {
    var d := NatToDecimal(n);
    var p := PadStart2(d);
    DecimalRoundTrip(n);
    if |d| < 2 {
      LeadingZeros(p[..|p| - |d|], d);
      assert p == p[..|p| - |d|] + d;
    }
  }

  /** For a non-negative count, the display reads back as the minutes and seconds it was made of */
  lemma ParseFormat(ms: int)
    requires ms >= 0
    ensures ParseTime(FormatTime(ms)) == Some((Minutes(ms) as nat, Seconds(ms) as nat))
  {
    SplitRoundTrip(ms);
    var m, sec := Minutes(ms) as nat, Seconds(ms) as nat;
    var a, b := PadStart2(NatToDecimal(m)), PadStart2(NatToDecimal(sec));
    var s := FormatTime(ms);
    assert s == a + ":" + b;
    PaddedValue(m);
    PaddedValue(sec);
    ColonAfterDigits(a, b);
    FieldsAroundColon(a, b);
  }

  lemma FieldsAroundColon(a: string, b: string)
    ensures (a + ":" + b)[..|a|] == a && (a + ":" + b)[|a| + 1..] == b
  {
  }

  // ---------------------------------------------------------------------------------------------
  // The component

  /** GameTimer: the elapsed count, overwritten by each tick with the time since the start */
  class GameTimer {
    const startTime: int
    var elapsed: int

    constructor (startTime: int)
      ensures this.startTime == startTime && elapsed == 0 && Display() == "00:00"
    {
      this.startTime := startTime;
      elapsed := 0;
      new;
      assert Display() == FormatTime(0);
      FormatZero();
    }

    /** One interval tick at time `now` */
    method Tick(now: int)
      modifies this
      ensures elapsed == now - startTime
    {
      elapsed := now - startTime;
    }

    /** What the card shows; once the start has passed it reads back as the elapsed split */
    function Display(): (s: string)
      reads this
      ensures elapsed >= 0 ==> ParseTime(s) == Some((Minutes(elapsed) as nat, Seconds(elapsed) as nat))
    {
      if elapsed >= 0 then ParseFormat(elapsed); FormatTime(elapsed) else FormatTime(elapsed)
    }
  }
}
