/** Move counter, timer state, score and mm:ss display
    (src/game/ScoreManager.js) without the DOM and without the wall
    clock: the seconds the interval timer would compute are an input. */
module Score {

  /** `moves`, `elapsedTime` (whole seconds) and `isRunning`. */
  datatype Session = Session(moves: nat, elapsed: nat, isRunning: bool)

  /** The constructor's state. */
  const NewSession: Session := Session(0, 0, false)

  const BaseScore: nat := 10000
  const MovePenalty: nat := 50
  const TimePenalty: nat := 10

  /** start: a no-op while running; otherwise run from zero. */
  function Start(s: Session): (r: Session)
    ensures s.isRunning ==> r == s
    ensures !s.isRunning ==> r == Session(0, 0, true)
    ensures r.isRunning
  {
    if s.isRunning then s else Session(0, 0, true)
  }

  /** stop: freeze the counters. */
  function Stop(s: Session): (r: Session)
    ensures !r.isRunning && r.moves == s.moves && r.elapsed == s.elapsed
  {
    s.(isRunning := false)
  }

  /** reset: stop, then zero both counters. */
  function Reset(s: Session): (r: Session)
    ensures r == NewSession
  {
    Stop(s).(moves := 0, elapsed := 0)
  }

  /** addMove: the first move starts the session (zeroing the counters),
      then the counter goes up by one. */
  function AddMove(s: Session): (r: Session)
    ensures r.isRunning
    ensures s.isRunning ==> r == s.(moves := s.moves + 1)
    ensures !s.isRunning ==> r == Session(1, 0, true)
  {
    var started := Start(s);
    started.(moves := started.moves + 1)
  }

  /** One firing of the interval timer: while running, the elapsed time
      becomes the whole seconds since the start. */
  function TimerTick(s: Session, secondsSinceStart: nat): (r: Session)
    ensures r.moves == s.moves && r.isRunning == s.isRunning
    ensures r.elapsed == (if s.isRunning then secondsSinceStart else s.elapsed)
  {
    if s.isRunning then s.(elapsed := secondsSinceStart) else s
  }

  /** getScore: 10000 minus 50 per move and 10 per second, never below 0. */
  function GetScore(s: Session): (score: nat)
    ensures score <= BaseScore
    ensures score == 0 <==> MovePenalty * s.moves + TimePenalty * s.elapsed >= BaseScore
    ensures score > 0 ==> score + MovePenalty * s.moves + TimePenalty * s.elapsed == BaseScore
  {
    var raw := BaseScore - s.moves * MovePenalty - s.elapsed * TimePenalty;
    if raw > 0 then raw else 0
  }

  /** The score never rises with more moves or more time. */
  lemma ScoreNonIncreasing(a: Session, b: Session)
    requires a.moves <= b.moves && a.elapsed <= b.elapsed
    ensures GetScore(b) <= GetScore(a)
  {
  }

  /** A move costs exactly 50 points while the score is above 50. */
  lemma MoveCostsFifty(s: Session)
    requires s.isRunning
    requires GetScore(s) >= MovePenalty
    ensures GetScore(AddMove(s)) == GetScore(s) - MovePenalty
  {
  }

  // ---- mm:ss formatting ----

  predicate IsDigit(c: char) {
    '0' <= c <= '9'
  }

  predicate AllDigits(s: string) {
    forall k :: 0 <= k < |s| ==> IsDigit(s[k])
  }

  function DigitChar(d: nat): (c: char)
    requires d < 10
    ensures IsDigit(c) && c as int - '0' as int == d
  {
    ('0' as int + d) as char
  }

  /** Number.prototype.toString for a natural number. */
  function DecimalString(n: nat): (s: string)
    ensures |s| >= 1 && AllDigits(s)
    ensures n < 10 <==> |s| == 1
    ensures |s| > 1 ==> s[0] != '0'
    decreases n
  {
    if n < 10 then [DigitChar(n)]
    else DecimalString(n / 10) + [DigitChar(n % 10)]
  }

  /** The reference reading of a digit string. */
  function ParseDecimal(s: string): nat
    requires AllDigits(s)
    decreases |s|
  {
    if |s| == 0 then 0
    else 10 * ParseDecimal(s[..|s| - 1]) + (s[|s| - 1] as int - '0' as int)
  }

  lemma {:induction false} DecimalStringRoundTrip(n: nat)
    ensures ParseDecimal(DecimalString(n)) == n
    decreases n
  {
    if n >= 10 {
      var prefix := DecimalString(n / 10);
      var s := DecimalString(n);
      assert s[..|s| - 1] == prefix;
      DecimalStringRoundTrip(n / 10);
    } else {
      var s := DecimalString(n);
      assert s[..0] == [];
    }
  }

  /** A leading '0' does not change the value read. */
  lemma {:induction false} LeadingZeroIgnored(s: string)
    requires AllDigits(s)
    ensures AllDigits("0" + s)
    ensures ParseDecimal("0" + s) == ParseDecimal(s)
    decreases |s|
  {
    assert forall k :: 0 <= k < |"0" + s| ==> IsDigit(("0" + s)[k]);
    if |s| > 0 {
      var t := "0" + s;
      assert t[..|t| - 1] == "0" + s[..|s| - 1];
      LeadingZeroIgnored(s[..|s| - 1]);
    } else {
      assert ("0" + s)[..0] == [];
    }
  }

  /** padStart(2, '0'): zeros in front up to length 2. */
  function PadTwo(s: string): (r: string)
    requires AllDigits(s)
    ensures AllDigits(r) && |r| >= 2 && ParseDecimal(r) == ParseDecimal(s)
    ensures |s| >= 2 ==> r == s
    ensures |s| < 2 ==> |r| == 2
  {
    if |s| >= 2 then s
    else
      LeadingZeroIgnored(s);
      if |s| == 1 then "0" + s
      else
        LeadingZeroIgnored("0" + s);
        "0" + ("0" + s)
  }

  /** Seconds below 60 are shown with exactly two digits. */
  lemma SecondsFieldIsTwoDigits(n: nat)
    requires n < 60
    ensures |PadTwo(DecimalString(n))| == 2
  {
    if n >= 10 {
      assert |DecimalString(n / 10)| == 1;
    }
  }

  /** minutes:seconds, each padded to two digits and no further: the
      clock is five characters long below 100 minutes, and a longer one
      has no leading zero. */
  function FormatClock(t: nat): (c: string)
    ensures |c| >= 5 && c[|c| - 3] == ':'
    ensures AllDigits(c[..|c| - 3]) && AllDigits(c[|c| - 2..])
    ensures t < 6000 <==> |c| == 5
    ensures |c| > 5 ==> c[0] != '0'
  {
    var minutes := PadTwo(DecimalString(t / 60));
    var seconds := PadTwo(DecimalString(t % 60));
    SecondsFieldIsTwoDigits(t % 60);
    MinutesFieldWidth(t / 60);
    var c := minutes + ":" + seconds;
    assert c[..|c| - 3] == minutes;
    assert c[|c| - 2..] == seconds;
    assert |minutes| > 2 ==> c[0] == minutes[0];
    c
  }

  /** Below 100 minutes the padded minutes field is two digits long;
      from 100 on it is the unpadded number. */
  lemma MinutesFieldWidth(m: nat)
    ensures m < 100 <==> |PadTwo(DecimalString(m))| == 2
    ensures m >= 100 ==> PadTwo(DecimalString(m)) == DecimalString(m) && |DecimalString(m)| > 2
  {
    if m >= 10 {
      assert |DecimalString(m)| == |DecimalString(m / 10)| + 1;
      if m >= 100 {
        assert |DecimalString(m / 10)| > 1;
      } else {
        assert |DecimalString(m / 10)| == 1;
      }
    }
  }

  /** getFormattedTime: the elapsed time as mm:ss, read back exactly. */
  function GetFormattedTime(s: Session): (c: string)
    ensures |c| >= 5 && c[|c| - 3] == ':'
    ensures AllDigits(c[..|c| - 3]) && AllDigits(c[|c| - 2..])
    ensures ClockSeconds(c) == s.elapsed && ParseDecimal(c[|c| - 2..]) < 60
    ensures s.elapsed < 6000 <==> |c| == 5
    ensures |c| > 5 ==> c[0] != '0'
  {
    FormattedTimeRoundTrip(s.elapsed);
    FormatClock(s.elapsed)
  }

  /** Reading a clock string back: 60 times the minutes plus the seconds. */
  function ClockSeconds(c: string): nat
    requires |c| >= 3
    requires AllDigits(c[..|c| - 3]) && AllDigits(c[|c| - 2..])
  {
    60 * ParseDecimal(c[..|c| - 3]) + ParseDecimal(c[|c| - 2..])
  }

  /** The display is faithful: the minutes and seconds shown add back up
      to the elapsed time, and the seconds shown are below 60. */
  lemma FormattedTimeRoundTrip(t: nat)
    ensures ClockSeconds(FormatClock(t)) == t
    ensures ParseDecimal(FormatClock(t)[|FormatClock(t)| - 2..]) < 60
  {
    var minutes := PadTwo(DecimalString(t / 60));
    var seconds := PadTwo(DecimalString(t % 60));
    SecondsFieldIsTwoDigits(t % 60);
    assert FormatClock(t) == minutes + ":" + seconds;
    DecimalStringRoundTrip(t / 60);
    DecimalStringRoundTrip(t % 60);
    ClockOfParts(minutes, seconds);
  }

  /** Splitting a clock string at its colon gives back its two fields. */
  lemma ClockOfParts(minutes: string, seconds: string)
    requires AllDigits(minutes) && AllDigits(seconds) && |minutes| >= 2 && |seconds| == 2
    ensures var c := minutes + ":" + seconds;
      |c| >= 3 && c[..|c| - 3] == minutes && c[|c| - 2..] == seconds
      && ClockSeconds(c) == 60 * ParseDecimal(minutes) + ParseDecimal(seconds)
  {
    var c := minutes + ":" + seconds;
    assert c[..|c| - 3] == minutes;
    assert c[|c| - 2..] == seconds;
  }
}
