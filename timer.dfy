/** The arithmetic of one timer tick in startTimer (script.js:191-198): the
    remaining seconds and their HH:MM:SS display. The periodic scheduling and
    the clock itself stay outside; the elapsed milliseconds come in as a value. */
module Timer {

  /** The session length in seconds: 195 minutes. */
  const DefaultDuration: int := 195 * 60

  /** `Math.max(0, duration - Math.floor(elapsedMs / 1000))`. Dafny's `/` with a
      positive divisor rounds down, as Math.floor does, also for negative elapsed time. */
  function Remaining(duration: int, elapsedMs: int): (r: nat)
    ensures r == 0 <==> elapsedMs >= duration * 1000
    ensures r > 0 ==> (duration - r) * 1000 <= elapsedMs < (duration - r + 1) * 1000
    ensures elapsedMs >= 0 ==> r <= duration || r == 0
  {
    var elapsedSeconds := elapsedMs / 1000;
    if duration - elapsedSeconds > 0 then duration - elapsedSeconds else 0
  }

  /** A number of seconds split into hours, minutes and seconds. */
  datatype Clock = Clock(hours: nat, minutes: nat, seconds: nat)

  function Split(total: nat): (c: Clock)
    ensures c.hours * 3600 + c.minutes * 60 + c.seconds == total
    ensures c.minutes < 60 && c.seconds < 60
  {
    var hours := total / 3600;
    var rest := total % 3600;
    var minutes := rest / 60;
    assert rest == minutes * 60 + rest % 60;
    assert total % 60 == rest % 60 by {
      assert total == (hours * 60 + minutes) * 60 + rest % 60;
    }
    Clock(hours, minutes, total % 60)
  }

  predicate IsDigit(c: char)
  {
    '0' <= c <= '9'
  }

  predicate IsDigits(s: string)
  {
    forall i :: 0 <= i < |s| ==> IsDigit(s[i])
  }

  function DigitChar(d: nat): (c: char)
    requires d < 10
    ensures IsDigit(c) && c as int - '0' as int == d
  {
    ('0' as int + d) as char
  }

  /** The value of a string of decimal digits, leading zeros allowed. */
  function DecimalValue(s: string): (v: nat)
    requires IsDigits(s)
  {
    if s == [] then 0
    else DecimalValue(s[..|s| - 1]) * 10 + (s[|s| - 1] as int - '0' as int)
  }

  /** `String(n)`: the decimal digits of `n`, without leading zeros. */
  function DecimalString(n: nat): (s: string)
    ensures IsDigits(s) && |s| >= 1
    ensures DecimalValue(s) == n
    ensures |s| == 1 <==> n < 10
    ensures n < 100 ==> |s| <= 2
    ensures s[0] == '0' ==> n == 0
    decreases n
  {
    if n < 10 then [DigitChar(n)]
    else
      var prefix := DecimalString(n / 10);
      var s := prefix + [DigitChar(n % 10)];
      assert s[..|s| - 1] == prefix;
      s
  }

  /** `s.padStart(width, fill)` with a one-character fill. */
  function PadStart(s: string, width: nat, fill: char): (r: string)
    ensures |r| == if |s| >= width then |s| else width
    ensures r[|r| - |s|..] == s
    ensures forall i :: 0 <= i < |r| - |s| ==> r[i] == fill
    decreases width - |s|
  {
    if |s| >= width then s
    else
      var t := [fill] + s;
      var r := PadStart(t, width, fill);
      assert |r| == width && r[|r| - |t|..] == t;
      assert r[|r| - |t|] == fill;
      assert t[1..] == s;
      assert r[|r| - |s|..] == r[|r| - |t|..][1..];
      r
  }

  /** `String(n).padStart(2, '0')`: digits that read back as `n`, at least two
      of them, and exactly two below 100. */
  function Pad2(n: nat): (s: string)
    ensures IsDigits(s) && DecimalValue(s) == n
    ensures |s| >= 2
    ensures n < 100 ==> |s| == 2
  {
    PadsWithZeroFill(DecimalString(n));
    LeadingZeros(ZeroFill(DecimalString(n)), DecimalString(n));
    PadStart(DecimalString(n), 2, '0')
  }

  /** The zeros `padStart(2, '0')` puts in front of `digits`. */
  function ZeroFill(digits: string): (z: string)
  {
    if |digits| >= 2 then "" else "0"
  }

  lemma PadsWithZeroFill(digits: string)
    requires |digits| >= 1
    ensures PadStart(digits, 2, '0') == ZeroFill(digits) + digits
  {
    if |digits| < 2 {
      var once := ['0'] + digits;
      assert |once| == 2 && PadStart(once, 2, '0') == once;
      assert PadStart(digits, 2, '0') == PadStart(once, 2, '0');
      assert ZeroFill(digits) == "0";
      assert ZeroFill(digits) + digits == once;
    } else {
      assert ZeroFill(digits) == "";
      assert ZeroFill(digits) + digits == digits;
    }
  }

  /** Leading zeros do not change a decimal value. */
  lemma {:induction false} LeadingZeros(zeros: string, s: string)
    requires forall i :: 0 <= i < |zeros| ==> zeros[i] == '0'
    requires IsDigits(s)
    ensures IsDigits(zeros + s) && DecimalValue(zeros + s) == DecimalValue(s)
    decreases |zeros| + |s|
  {
    if s == [] {
      assert zeros + s == zeros;
      if zeros != [] {
        LeadingZeros(zeros[..|zeros| - 1], []);
        assert zeros[..|zeros| - 1] + [] == zeros[..|zeros| - 1];
      }
    } else {
      var t := zeros + s;
      assert t[..|t| - 1] == zeros + s[..|s| - 1];
      LeadingZeros(zeros, s[..|s| - 1]);
    }
  }

  /** The two digits of a number below 100, as the display shows it. */
  lemma Pad2Digits(n: nat)
    requires n < 100
    ensures Pad2(n) == [DigitChar(n / 10), DigitChar(n % 10)]
  {
    PadsWithZeroFill(DecimalString(n));
    if n < 10 {
      OneDigit(n);
      assert DigitChar(n / 10) == '0';
    } else {
      TwoDigits(n);
    }
  }

  lemma OneDigit(n: nat)
    requires n < 10
    ensures DecimalString(n) == [DigitChar(n)]
  {
  }

  lemma TwoDigits(n: nat)
    requires 10 <= n < 100
    ensures DecimalString(n) == [DigitChar(n / 10), DigitChar(n % 10)]
  {
    assert n / 10 < 10;
    OneDigit(n / 10);
  }

  /** `t` is an `H:MM:SS` text, with any number of hour digits and minutes and
      seconds below 60, that stands for `total` seconds. */
  predicate ReadsAs(t: string, total: nat)
  {
    && |t| >= 8 && t[|t| - 3] == ':' && t[|t| - 6] == ':'
    && IsDigits(t[..|t| - 6]) && IsDigits(t[|t| - 5..|t| - 3]) && IsDigits(t[|t| - 2..])
    && DecimalValue(t[|t| - 5..|t| - 3]) < 60 && DecimalValue(t[|t| - 2..]) < 60
    && DecimalValue(t[..|t| - 6]) * 3600 + DecimalValue(t[|t| - 5..|t| - 3]) * 60
       + DecimalValue(t[|t| - 2..]) == total
  }

  /** Joining three digit fields, the last two two digits long, reads back as their total. */
  lemma FieldsReadBack(h: string, m: string, s: string, total: nat)
    requires |h| >= 2 && |m| == 2 && |s| == 2 && IsDigits(h) && IsDigits(m) && IsDigits(s)
    requires DecimalValue(m) < 60 && DecimalValue(s) < 60
    requires total == DecimalValue(h) * 3600 + DecimalValue(m) * 60 + DecimalValue(s)
    ensures ReadsAs(h + ":" + m + ":" + s, total)
  {
    var t := h + ":" + m + ":" + s;
    var hours, minutes, seconds := t[..|t| - 6], t[|t| - 5..|t| - 3], t[|t| - 2..];
    assert hours == h && minutes == m && seconds == s;
  }

  /** The timer's text for `remaining` seconds: zero-padded `HH:MM:SS`. Reading
      its three fields back gives the remaining seconds: the last two fields are
      two digits each and the hours take the rest. */
  function Display(remaining: nat): (t: string)
    ensures ReadsAs(t, remaining)
  {
    var c := Split(remaining);
    var h, m, s := Pad2(c.hours), Pad2(c.minutes), Pad2(c.seconds);
    FieldsReadBack(h, m, s, remaining);
    h + ":" + m + ":" + s
  }

  /** Hours, minutes below 60 and seconds below 60 that add up to the same
      number of seconds are the same clock. */
  lemma ClockUnique(a: nat, b: nat, c: nat, x: nat, y: nat, z: nat)
    requires b < 60 && c < 60 && y < 60 && z < 60
    requires a * 3600 + b * 60 + c == x * 3600 + y * 60 + z
    ensures a == x && b == y && c == z
  {
    var u, v := b * 60 + c, y * 60 + z;
    assert u < 3600 && v < 3600;
    assert a * 3600 < (x + 1) * 3600 && x * 3600 < (a + 1) * 3600;
    assert a == x;
    assert b * 60 < (y + 1) * 60 && y * 60 < (b + 1) * 60;
  }

  /** A text that reads as `total` shows exactly the hours, minutes and seconds
      `Split` gives, so `Display`'s contract fixes the fields it shows. */
  lemma ReadsAsSplit(t: string, total: nat)
    requires ReadsAs(t, total)
    ensures DecimalValue(t[..|t| - 6]) == Split(total).hours
    ensures DecimalValue(t[|t| - 5..|t| - 3]) == Split(total).minutes
    ensures DecimalValue(t[|t| - 2..]) == Split(total).seconds
  {
    var c := Split(total);
    ClockUnique(DecimalValue(t[..|t| - 6]), DecimalValue(t[|t| - 5..|t| - 3]), DecimalValue(t[|t| - 2..]),
                c.hours, c.minutes, c.seconds);
  }

  /** The padded fields the two sample displays below are made of. */
  lemma SampleFields()
    ensures Pad2(0) == "00" && Pad2(3) == "03" && Pad2(15) == "15"
  {
    assert DigitChar(0) == '0' && DigitChar(1) == '1' && DigitChar(3) == '3' && DigitChar(5) == '5';
    Pad2Digits(0);
    Pad2Digits(3);
    Pad2Digits(15);
  }

  /** The sample displays, joined from their fields. */
  lemma SampleTexts()
    ensures "00" + ":" + "00" + ":" + "00" == "00:00:00"
    ensures "03" + ":" + "15" + ":" + "00" == "03:15:00"
  {
  }

  /** The display put together from fields already worked out. */
  lemma DisplayFrom(remaining: nat, c: Clock)
    requires Split(remaining) == c
    ensures Display(remaining) == Pad2(c.hours) + ":" + Pad2(c.minutes) + ":" + Pad2(c.seconds)
  {
  }

  /** A ten-second session read 10.5 seconds after its start shows 00:00:00
      and has expired. */
  lemma ExpiredDisplay()
    ensures Remaining(10, 10500) == 0
    ensures Display(Remaining(10, 10500)) == "00:00:00"
  {
    assert Remaining(10, 10500) == 0;
    assert Split(0) == Clock(0, 0, 0);
    SampleFields();
    SampleTexts();
    DisplayFrom(0, Clock(0, 0, 0));
  }

  /** The full session at its start shows 03:15:00. */
  lemma FreshDisplay()
    ensures Display(Remaining(DefaultDuration, 0)) == "03:15:00"
  {
    assert Remaining(DefaultDuration, 0) == 11700;
    assert Split(11700) == Clock(3, 15, 0);
    SampleFields();
    SampleTexts();
    DisplayFrom(11700, Clock(3, 15, 0));
  }
}
