/**
 * Times of day as the diagram uses them: a strict `HH:MM:SS` parser whose
 * failure is an absent time rather than an error, the `HH:MM` rendering of
 * a parsed time, and the conversion of a gap in seconds to whole minutes.
 */
module Clock {
  import opened Wrappers

  /** Number of seconds in one day; every parsed time lies in [0, DaySeconds). */
  const DaySeconds: int := 86400

  predicate IsDigit(c: char) {
    '0' <= c <= '9'
  }

  function DigitValue(c: char): (d: nat)
    requires IsDigit(c)
    ensures d < 10
  {
    (c as int - '0' as int) as nat
  }

  function DigitChar(d: nat): (c: char)
    requires d < 10
    ensures IsDigit(c) && DigitValue(c) == d
  {
    (d + '0' as int) as char
  }

  /** The value of the two-digit field that starts at position `at` of `s`. */
  function Field(s: string, at: nat): (v: nat)
    requires at + 1 < |s| && IsDigit(s[at]) && IsDigit(s[at + 1])
    ensures v < 100
  {
    10 * DigitValue(s[at]) + DigitValue(s[at + 1])
  }

  /**
   * The strings the parser accepts: exactly eight characters, two digits
   * for each of hours, minutes and seconds, colons between them, hours
   * below 24 and minutes and seconds below 60.
   */
  predicate WellFormed(s: string) {
    && |s| == 8
    && IsDigit(s[0]) && IsDigit(s[1]) && s[2] == ':'
    && IsDigit(s[3]) && IsDigit(s[4]) && s[5] == ':'
    && IsDigit(s[6]) && IsDigit(s[7])
    && Field(s, 0) < 24 && Field(s, 3) < 60 && Field(s, 6) < 60
  }

  /**
   * Parsing of a time cell with the format `%H:%M:%S` and coercion of
   * failures: a malformed string yields `None`, never an error.
   */
  function ParseTime(s: string): (t: Option<int>)
    ensures t.Some? <==> WellFormed(s)
    ensures t.Some? ==> 0 <= t.value < DaySeconds
  {
    if WellFormed(s) then Some(3600 * Field(s, 0) + 60 * Field(s, 3) + Field(s, 6))
    else None
  }

  /** A number below 100 written with exactly two digits, zero-padded. */
  function Pad2(n: nat): (s: string)
    requires n < 100
    ensures |s| == 2 && IsDigit(s[0]) && IsDigit(s[1])
  {
    [DigitChar(n / 10), DigitChar(n % 10)]
  }

  function Hours(t: int): nat
    requires 0 <= t < DaySeconds
  {
    t / 3600
  }

  function MinutesOfHour(t: int): nat
    requires 0 <= t < DaySeconds
  {
    t % 3600 / 60
  }

  /** The `%H:%M` rendering of a time of day. */
  function FormatHM(t: int): (s: string)
    requires 0 <= t < DaySeconds
    ensures |s| == 5
  {
    Pad2(Hours(t)) + ":" + Pad2(MinutesOfHour(t))
  }

  /** The canonical `%H:%M:%S` spelling of a time of day, the parser's inverse. */
  function FormatHMS(t: int): (s: string)
    requires 0 <= t < DaySeconds
    ensures |s| == 8
  {
    FormatHM(t) + ":" + Pad2(t % 60)
  }

  lemma Pad2Field(s: string, at: nat)
    requires at + 1 < |s| && IsDigit(s[at]) && IsDigit(s[at + 1])
    ensures Pad2(Field(s, at)) == s[at..at + 2]
  {
    var a, b := DigitValue(s[at]), DigitValue(s[at + 1]);
    assert (10 * a + b) / 10 == a && (10 * a + b) % 10 == b;
    assert DigitChar(a) == s[at] && DigitChar(b) == s[at + 1];
  }

  lemma FieldOfPad2(s: string, at: nat, n: nat)
    requires n < 100 && at + 1 < |s| && s[at..at + 2] == Pad2(n)
    ensures IsDigit(s[at]) && IsDigit(s[at + 1]) && Field(s, at) == n
  {
    assert s[at] == Pad2(n)[0] && s[at + 1] == Pad2(n)[1];
  }

  lemma SplitSeconds(h: nat, m: nat, sec: nat)
    requires h < 24 && m < 60 && sec < 60
    ensures var t := 3600 * h + 60 * m + sec;
      0 <= t < DaySeconds && Hours(t) == h && MinutesOfHour(t) == m && t % 60 == sec
  {
    var t := 3600 * h + 60 * m + sec;
    assert t % 3600 == 60 * m + sec;
    assert t % 60 == sec;
  }

  lemma JoinSeconds(t: int)
    requires 0 <= t < DaySeconds
    ensures Hours(t) < 24 && MinutesOfHour(t) < 60
    ensures 3600 * Hours(t) + 60 * MinutesOfHour(t) + t % 60 == t
  {
    var r := t % 3600;
    assert t == 3600 * (t / 3600) + r;
    assert r == 60 * (r / 60) + r % 60;
    assert r % 60 == t % 60;
  }

  /** Every accepted string is the canonical spelling of the time it denotes. */
  lemma FormatOfParse(s: string)
    requires WellFormed(s)
    ensures FormatHMS(ParseTime(s).value) == s
  {
    var t := ParseTime(s).value;
    SplitSeconds(Field(s, 0), Field(s, 3), Field(s, 6));
    Pad2Field(s, 0);
    Pad2Field(s, 3);
    Pad2Field(s, 6);
    assert FormatHMS(t) == s[0..2] + ":" + s[3..5] + ":" + s[6..8];
  }

  /** The parser reads back every canonical spelling: parsing is exact. */
  lemma ParseOfFormat(t: int)
    requires 0 <= t < DaySeconds
    ensures ParseTime(FormatHMS(t)) == Some(t)
  {
    var s := FormatHMS(t);
    JoinSeconds(t);
    assert s[0..2] == Pad2(Hours(t)) && s[3..5] == Pad2(MinutesOfHour(t)) && s[6..8] == Pad2(t % 60);
    FieldOfPad2(s, 0, Hours(t));
    FieldOfPad2(s, 3, MinutesOfHour(t));
    FieldOfPad2(s, 6, t % 60);
  }

  /** For an accepted string, its `HH:MM` rendering is its first five characters. */
  lemma FormatHMOfParse(s: string)
    requires WellFormed(s)
    ensures FormatHM(ParseTime(s).value) == s[..5]
  {
    FormatOfParse(s);
    assert FormatHMS(ParseTime(s).value)[..5] == FormatHM(ParseTime(s).value);
  }

  /**
   * The whole minutes of a gap of `seconds`, as `int(seconds / 60)` computes
   * them: the quotient truncated toward zero, so a negative gap gives a
   * non-positive count rounded up, not down.
   */
  function Minutes(seconds: int): int {
    if seconds >= 0 then seconds / 60 else -((-seconds) / 60)
  }

  /**
   * `Minutes` is the exact quotient by 60 with its fraction dropped: at or
   * below it for a gap of zero or more, at or above it for a negative gap.
   */
  lemma MinutesTruncates(seconds: int)
    ensures var m := Minutes(seconds);
      && (seconds >= 0 ==> m as real <= seconds as real / 60.0 < (m + 1) as real)
      && (seconds < 0 ==> (m - 1) as real < seconds as real / 60.0 <= m as real)
  {
  }

  /** Truncation is symmetric in the sign, which Euclidean division is not. */
  lemma MinutesOfNegation(seconds: int)
    ensures Minutes(-seconds) == -Minutes(seconds)
  {
  }
}
