/** Elapsed-time text. idk.js shows `MM:SS` (`formatTime`), script.js shows `M:SS`
    (`updateTimer`) and reads such text back into seconds (`parseTimeToSeconds`). */
module Clock {
  import opened Common

  /** idk.js `formatTime`: minutes and seconds, each padded to at least two digits. The
      seconds field is always two digits worth less than 60. */
  function FormatTime(totalSeconds: nat): (r: string)
    ensures |r| >= 5 && r[|r| - 3] == ':'
    ensures var sec := r[|r| - 2..];
      AllDigits(sec) && sec[0] <= '5' && DecimalValue(sec) == totalSeconds % 60
  {
    var minutes := PadStart2(Decimal(totalSeconds / 60));
    var seconds := PadStart2(Decimal(totalSeconds % 60));
    var r := minutes + ":" + seconds;
    assert r[|r| - 2..] == seconds;
    SecondsField(totalSeconds % 60);
    DecimalRoundTrip(totalSeconds % 60);
    r
  }

  /** The display `updateTimer` writes in script.js: unpadded minutes, two-digit seconds. */
  function ClockText(elapsed: nat): (r: string)
    ensures |r| >= 4 && r[|r| - 3] == ':'
    ensures var sec := r[|r| - 2..];
      AllDigits(sec) && sec[0] <= '5' && DecimalValue(sec) == elapsed % 60
  {
    var seconds := PadStart2(Decimal(elapsed % 60));
    var r := Decimal(elapsed / 60) + ":" + seconds;
    assert r[|r| - 2..] == seconds;
    SecondsField(elapsed % 60);
    DecimalRoundTrip(elapsed % 60);
    r
  }

  /** A number of seconds below 60, padded, is two digits whose first is at most 5. */
  lemma SecondsField(s: nat)
    requires s < 60
    ensures |PadStart2(Decimal(s))| == 2 && PadStart2(Decimal(s))[0] <= '5'
  {
    DecimalRoundTrip(s);
    var d := Decimal(s);
    if s >= 10 {
      assert d == Decimal(s / 10) + [DigitChar(s % 10)];
      assert d[0] == DigitChar(s / 10);
    }
  }

  /** The index of the first `c` in `s`. */
  function IndexOf(s: string, c: char): (i: nat)
    requires c in s
    ensures i < |s| && s[i] == c && c !in s[..i]
  {
    if s[0] == c then 0 else 1 + IndexOf(s[1..], c)
  }

  /** `s.split(sep)` for a one-character separator. */
  function Split(s: string, sep: char): (parts: seq<string>)
    ensures |parts| >= 1
    ensures sep !in s ==> parts == [s]
    ensures sep in s ==> |parts| >= 2 && parts[0] == s[..IndexOf(s, sep)]
    ensures forall k :: 0 <= k < |parts| ==> sep !in parts[k]
    decreases |s|
  {
    if sep !in s then [s]
    else
      var i := IndexOf(s, sep);
      [s[..i]] + Split(s[i + 1..], sep)
  }

  /** Splitting text that holds the separator once gives the two sides. */
  lemma SplitTwo(a: string, b: string, sep: char)
    requires sep !in a && sep !in b
    ensures Split(a + [sep] + b, sep) == [a, b]
  {
    var s := a + [sep] + b;
    assert s[|a|] == sep;
    var i := IndexOf(s, sep);
    assert s[..i] == a;
    assert s[i + 1..] == b;
  }

  /** `Number(p)` for the pieces of a time string: the value of a digit string (0 for
      the empty string); anything else is `NaN`, written `None`. */
  function NumberOf(p: string): (r: Option<nat>)
    ensures r.Some? <==> AllDigits(p)
    ensures p == "" ==> r == Some(0)
  {
    if AllDigits(p) then Some(DecimalValue(p)) else None
  }

  /** script.js `parseTimeToSeconds`: `parts[0] * 60 + parts[1]` after splitting at `':'`;
      `None` where JavaScript would compute `NaN`. */
  function ParseTimeToSeconds(timeStr: string): (r: Option<nat>)
    ensures ':' !in timeStr ==> r == None
    ensures r.Some? ==> ':' in timeStr && AllDigits(timeStr[..IndexOf(timeStr, ':')])
  {
    var parts := Split(timeStr, ':');
    if |parts| < 2 then None
    else
      match (NumberOf(parts[0]), NumberOf(parts[1]))
      case (Some(m), Some(s)) => Some(m * 60 + s)
      case _ => None
  }

  lemma NoColon(s: string)
    requires AllDigits(s)
    ensures ':' !in s
  {
  }

  /** Reading back minutes and padded seconds gives the elapsed seconds. */
  lemma {:induction false} ParseFields(minutes: string, e: nat)
    requires AllDigits(minutes) && DecimalValue(minutes) == e / 60
    ensures ParseTimeToSeconds(minutes + ":" + PadStart2(Decimal(e % 60))) == Some(e)
  {
    var seconds := PadStart2(Decimal(e % 60));
    DecimalRoundTrip(e % 60);
    NoColon(minutes);
    NoColon(seconds);
    SplitTwo(minutes, seconds, ':');
    assert minutes + ":" + seconds == minutes + [':'] + seconds;
  }

  /** `parseTimeToSeconds` undoes script.js's timer display. */
  lemma ParseClockText(e: nat)
    ensures ParseTimeToSeconds(ClockText(e)) == Some(e)
  {
    DecimalRoundTrip(e / 60);
    ParseFields(Decimal(e / 60), e);
  }

  /** `parseTimeToSeconds` also reads idk.js's `MM:SS` back into the same seconds. */
  lemma ParseFormatTime(e: nat)
    ensures ParseTimeToSeconds(FormatTime(e)) == Some(e)
  {
    DecimalRoundTrip(e / 60);
    ParseFields(PadStart2(Decimal(e / 60)), e);
  }

  /** A timer that has just been restarted reads `0:00`. */
  lemma ClockTextZero()
    ensures ClockText(0) == "0:00"
  {
  }

  /** Different elapsed times are displayed differently. */
  lemma ClockTextInjective(e1: nat, e2: nat)
    ensures ClockText(e1) == ClockText(e2) ==> e1 == e2
  {
    ParseClockText(e1);
    ParseClockText(e2);
  }
}
