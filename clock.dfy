/**
 * Times of day as the app handles them: an hour and a minute, the minute of
 * the day used for comparisons (`hours * 60 + minutes`), and the zero-padded
 * "HH:MM" text used in settings, identifiers and messages.
 */
module ClockTime {
  import opened Wrappers

  datatype Clock = Clock(hour: int, minute: int) {

    /** An hour in 0..23 and a minute in 0..59. */
    predicate Valid() {
      0 <= hour < 24 && 0 <= minute < 60
    }

    /** Minutes since midnight. */
    function Minutes(): int {
      hour * 60 + minute
    }
  }

  predicate AllValid(times: seq<Clock>) {
    forall i :: 0 <= i < |times| ==> times[i].Valid()
  }

  predicate IsDigit(c: char) {
    '0' <= c <= '9'
  }

  function Digit(d: int): (c: char)
    requires 0 <= d < 10
    ensures IsDigit(c) && DigitValue(c) == d
  {
    ('0' as int + d) as char
  }

  function DigitValue(c: char): int
    requires IsDigit(c)
  {
    c as int - '0' as int
  }

  /** `String(n).padStart(2, '0')` for a number below 100. */
  function Pad2(n: int): (r: string)
    requires 0 <= n < 100
    ensures |r| == 2 && IsDigit(r[0]) && IsDigit(r[1])
    ensures DigitValue(r[0]) * 10 + DigitValue(r[1]) == n
  {
    [Digit(n / 10), Digit(n % 10)]
  }

  /** The "HH:MM" text of a time of day (App.js `timeStr`, RecitationSettings.js `adjustTime`). */
  function Format(c: Clock): (r: string)
    requires c.Valid()
    ensures |r| == 5 && r[2] == ':'
    ensures IsDigit(r[0]) && IsDigit(r[1]) && IsDigit(r[3]) && IsDigit(r[4])
  {
    Pad2(c.hour) + ":" + Pad2(c.minute)
  }

  /**
   * `time.split(':').map(Number)` on a five-character text of the form
   * "DD:DD"; anything else is reported as None.
   */
  function Parse(s: string): (r: Option<Clock>)
    ensures r.Some? ==> 0 <= r.value.hour < 100 && 0 <= r.value.minute < 100
  {
    if |s| == 5 && IsDigit(s[0]) && IsDigit(s[1]) && s[2] == ':' && IsDigit(s[3]) && IsDigit(s[4])
    then Some(Clock(DigitValue(s[0]) * 10 + DigitValue(s[1]), DigitValue(s[3]) * 10 + DigitValue(s[4])))
    else None
  }

  /** Reading back the text of a valid time gives that time. */
  lemma ParseFormat(c: Clock)
    requires c.Valid()
    ensures Parse(Format(c)) == Some(c)
  {
  }

  /** A text that reads as a valid time is exactly that time's text. */
  lemma FormatParse(s: string)
    requires Parse(s).Some? && Parse(s).value.Valid()
    ensures Format(Parse(s).value) == s
  {
    var c := Parse(s).value;
    var f := Format(c);
    assert f[0] == s[0] && f[1] == s[1] && f[3] == s[3] && f[4] == s[4];
  }

  /** Two valid times with the same text are the same time. */
  lemma FormatInjective(a: Clock, b: Clock)
    requires a.Valid() && b.Valid() && Format(a) == Format(b)
    ensures a == b
  {
    ParseFormat(a);
    ParseFormat(b);
  }

  /** JavaScript's `<` on strings: lexicographic order of the code units. */
  predicate TextLess(a: string, b: string)
    decreases |a|
  {
    if |a| == 0 then |b| > 0
    else if |b| == 0 then false
    else if a[0] != b[0] then a[0] < b[0]
    else TextLess(a[1..], b[1..])
  }

  /** Comparing five-character texts that agree on the separator position. */
  lemma TextLessFive(x: string, y: string)
    requires |x| == 5 && |y| == 5 && x[2] == y[2]
    ensures TextLess(x, y) <==>
      (x[0] < y[0]) ||
      (x[0] == y[0] && x[1] < y[1]) ||
      (x[0] == y[0] && x[1] == y[1] && x[3] < y[3]) ||
      (x[0] == y[0] && x[1] == y[1] && x[3] == y[3] && x[4] < y[4])
  {
    if x[0] == y[0] {
      var x1, y1 := x[1..], y[1..];
      assert TextLess(x, y) == TextLess(x1, y1);
      if x1[0] == y1[0] {
        var x2, y2 := x1[1..], y1[1..];
        assert TextLess(x1, y1) == TextLess(x2, y2);
        assert x2[0] == y2[0];
        var x3, y3 := x2[1..], y2[1..];
        assert TextLess(x2, y2) == TextLess(x3, y3);
        if x3[0] == y3[0] {
          var x4, y4 := x3[1..], y3[1..];
          assert TextLess(x3, y3) == TextLess(x4, y4);
          if x4[0] == y4[0] {
            assert TextLess(x4, y4) == TextLess(x4[1..], y4[1..]);
            assert |x4[1..]| == 0 && |y4[1..]| == 0;
          }
        }
      }
    }
  }

  /**
   * Text order agrees with minute order on valid times, so sorting the
   * "HH:MM" texts (`.sort()`) and comparing them (`time > currentTime`) is
   * sorting and comparing by minute of the day.
   */
  lemma {:induction false} FormatOrder(a: Clock, b: Clock)
    requires a.Valid() && b.Valid()
    ensures TextLess(Format(a), Format(b)) <==> a.Minutes() < b.Minutes()
  {
    var x, y := Format(a), Format(b);
    TextLessFive(x, y);
    var a0, a1, a3, a4 := DigitValue(x[0]), DigitValue(x[1]), DigitValue(x[3]), DigitValue(x[4]);
    var b0, b1, b3, b4 := DigitValue(y[0]), DigitValue(y[1]), DigitValue(y[3]), DigitValue(y[4]);
    assert a.hour == a0 * 10 + a1 && a.minute == a3 * 10 + a4;
    assert b.hour == b0 * 10 + b1 && b.minute == b3 * 10 + b4;
    assert a.Minutes() == 600 * a0 + 60 * a1 + 10 * a3 + a4;
    assert b.Minutes() == 600 * b0 + 60 * b1 + 10 * b3 + b4;
    assert a3 < 6 && b3 < 6;
  }

  /** `(hours + 1) % 24` and `(hours - 1 + 24) % 24` for a valid hour. */
  function NextHour(h: int): (r: int)
    requires 0 <= h < 24
    ensures 0 <= r < 24 && (r - h - 1) % 24 == 0
  {
    (h + 1) % 24
  }

  function PreviousHour(h: int): (r: int)
    requires 0 <= h < 24
    ensures 0 <= r < 24 && (r - h + 1) % 24 == 0
  {
    (h - 1 + 24) % 24
  }
}
