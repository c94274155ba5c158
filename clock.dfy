/**
 * The timer's "M:SS" text: minutes are the floor of the seconds left over 60, the
 * seconds part is the remainder as the language's `%` gives it (the sign follows
 * the dividend), and a seconds part below 10 gets a leading "0".
 */
module Clock {

  predicate IsDigit(c: char) {
    '0' <= c <= '9'
  }

  predicate AllDigits(s: string) {
    forall i :: 0 <= i < |s| ==> IsDigit(s[i])
  }

  /** The number a string of decimal digits denotes. */
  function DecimalValue(s: string): nat
    requires AllDigits(s)
  {
    if s == [] then 0
    else DecimalValue(s[..|s| - 1]) * 10 + (s[|s| - 1] as int - '0' as int)
  }

  function DigitChar(d: nat): (c: char)
    requires d < 10
    ensures IsDigit(c) && c as int - '0' as int == d
  {
    ('0' as int + d) as char
  }

  /** The decimal text of a natural number, without leading zeros. */
  function NatText(n: nat): (r: string)
    ensures 1 <= |r|
    ensures AllDigits(r)
    ensures DecimalValue(r) == n
    ensures |r| > 1 ==> r[0] != '0'
  {
    if n < 10 then [DigitChar(n)]
    else
      var prefix := NatText(n / 10);
      var r := prefix + [DigitChar(n % 10)];
      assert r[..|r| - 1] == prefix;
      r
  }

  /** The decimal text of an integer, with a leading "-" when negative. */
  function IntText(i: int): string {
    if i < 0 then "-" + NatText(-i) else NatText(i)
  }

  /** Math.floor(t / 60). */
  function Minutes(t: int): int {
    t / 60
  }

  /** t % 60 with the sign of `t`. */
  function Seconds(t: int): int {
    if t >= 0 then t % 60 else -((-t) % 60)
  }

  /** The seconds part of the text, for a remainder below 60. */
  function SecondsText(secs: int): string {
    (if secs < 10 then "0" else "") + IntText(secs)
  }

  function ClockText(t: int): string {
    IntText(Minutes(t)) + ":" + SecondsText(Seconds(t))
  }

  /** A seconds value in [0, 60) is written as exactly two digits. */
  lemma SecondsTextIsTwoDigits(secs: int)
    requires 0 <= secs < 60
    ensures |SecondsText(secs)| == 2 && AllDigits(SecondsText(secs))
    ensures DecimalValue(SecondsText(secs)) == secs
  {
    var tail := SecondsText(secs);
    if secs < 10 {
      assert tail == ['0', DigitChar(secs)];
      assert tail[..1] == ['0'];
    } else {
      assert NatText(secs) == NatText(secs / 10) + [DigitChar(secs % 10)];
      assert NatText(secs / 10) == [DigitChar(secs / 10)];
      assert tail[..1] == [DigitChar(secs / 10)];
    }
  }

  /**
   * For a non-negative count the text is the minutes, a colon and exactly two digits
   * of seconds below 60, and reading it back gives the count.
   */
  lemma ClockTextReadsBack(t: int)
    requires t >= 0
    ensures var c := ClockText(t);
            var k := |NatText(t / 60)|;
            |c| == k + 3
            && c[k] == ':'
            && AllDigits(c[..k]) && AllDigits(c[k + 1..])
            && DecimalValue(c[k + 1..]) < 60
            && 60 * DecimalValue(c[..k]) + DecimalValue(c[k + 1..]) == t
  {
    var m := NatText(t / 60);
    var tail := SecondsText(t % 60);
    SecondsTextIsTwoDigits(t % 60);
    var c := ClockText(t);
    assert c == m + ":" + tail;
    var k := |m|;
    assert c[..k] == m;
    assert c[k + 1..] == tail;
  }

  /**
   * For a negative count that is not a whole number of minutes, the two parts no
   * longer add up: the minutes are rounded down while the seconds keep the sign.
   */
  lemma NegativeClockIsOffByAMinute(t: int)
    requires t < 0 && t % 60 != 0
    ensures 60 * Minutes(t) + Seconds(t) == t - 60
    ensures Seconds(t) < 0
  {
  }

  /** One tick after a session of -5 minutes starts, the display reads "-6:0-1". */
  lemma NegativeClockExample()
    ensures ClockText(-301) == "-6:0-1"
  {
  }
}
