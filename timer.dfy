/**
  The countdown timer: the "MM:SS" formatter and the timer state machine
  (`state.timer` with `state.timerSeconds`). The clock reading `now`, in
  milliseconds, is a parameter; each interval callback is one `Tick`.
*/
module Timer {
  import opened Wrappers
  import opened Numeric
  import opened ListOps

  const MinSeconds := 10
  const MaxSeconds := 3600

  // ---------------------------------------------------------------------
  // formatTime
  // ---------------------------------------------------------------------

  /** `Math.max(0, Math.ceil(ms / 1000))`: whole seconds, rounded up. */
  function TotalSeconds(ms: int): (t: nat)
    ensures ms <= 0 ==> t == 0
    ensures ms > 0 ==> (t - 1) * 1000 < ms <= t * 1000
  {
    if ms <= 0 then 0 else (ms + 999) / 1000
  }

  predicate IsDigits(s: string)
  {
    forall k :: 0 <= k < |s| ==> '0' <= s[k] <= '9'
  }

  function DigitChar(d: nat): (c: char)
    requires d < 10
    ensures '0' <= c <= '9' && c as int - '0' as int == d
  {
    ('0' as int + d) as char
  }

  /** `n.toString()`: the decimal digits of `n`, without leading zeros. */
  function Digits(n: nat): (s: string)
    ensures |s| >= 1 && IsDigits(s)
    ensures |s| > 1 ==> s[0] != '0'
    decreases n
  {
    if n < 10 then [DigitChar(n)] else Digits(n / 10) + [DigitChar(n % 10)]
  }

  /** The number a string of decimal digits denotes. */
  function DigitsValue(s: string): nat
    requires IsDigits(s)
    decreases |s|
  {
    if s == [] then 0 else DigitsValue(s[..|s| - 1]) * 10 + (s[|s| - 1] as int - '0' as int)
  }

  /** `s.padStart(2, "0")`. */
  function PadStart2(s: string): (r: string)
    ensures |r| == if |s| < 2 then 2 else |s|
    ensures forall k :: 0 <= k < |s| ==> r[|r| - |s| + k] == s[k]
    ensures forall k :: 0 <= k < |r| - |s| ==> r[k] == '0'
  {
    if |s| == 0 then "00" else if |s| == 1 then "0" + s else s
  }

  /** `formatTime(ms)`: minutes, a colon and two-digit seconds, each padded to
      two digits (minutes may take more). */
  function FormatTime(ms: int): (r: string)
    ensures |r| >= 5 && r[|r| - 3] == ':'
    ensures forall k :: 0 <= k < |r| && k != |r| - 3 ==> '0' <= r[k] <= '9'
  {
    var t := TotalSeconds(ms);
    DigitsShort(t % 60);
    PadStart2(Digits(t / 60)) + ":" + PadStart2(Digits(t % 60))
  }

  /** Reads "MM:SS" back as a number of seconds. */
  function ParseClock(r: string): Option<nat>
  {
    var parts := Split(r, ':');
    if |parts| == 2 && IsDigits(parts[0]) && IsDigits(parts[1])
    then Some(DigitsValue(parts[0]) * 60 + DigitsValue(parts[1]))
    else None
  }

  lemma DigitsShort(n: nat)
    requires n < 100
    ensures |Digits(n)| <= 2
  {
    if n >= 10 {
      assert n / 10 < 10;
    }
  }

  /** The digits of `n` denote `n`. */
  lemma {:induction false} DigitsRoundTrip(n: nat)
    ensures DigitsValue(Digits(n)) == n
    decreases n
  {
    if n >= 10 {
      var s := Digits(n);
      DigitsRoundTrip(n / 10);
      assert s[..|s| - 1] == Digits(n / 10);
    }
  }

  /** A leading zero does not change the value. */
  lemma {:induction false} LeadingZero(s: string)
    requires IsDigits(s)
    ensures IsDigits("0" + s) && DigitsValue("0" + s) == DigitsValue(s)
    decreases |s|
  {
    if s != [] {
      var z := "0" + s;
      assert z[..|z| - 1] == "0" + s[..|s| - 1];
      LeadingZero(s[..|s| - 1]);
    }
  }

  lemma PadKeepsValue(s: string)
    requires IsDigits(s) && |s| >= 1
    ensures IsDigits(PadStart2(s)) && DigitsValue(PadStart2(s)) == DigitsValue(s)
  {
    if |s| == 1 {
      LeadingZero(s);
    }
  }

  /** The formatted time reads back as the number of whole seconds left. */
  lemma FormatTimeRoundTrip(ms: int)
    ensures ParseClock(FormatTime(ms)) == Some(TotalSeconds(ms))
  {
    FormatTimeFields(ms);
    ClockReadsBack(FormatTime(ms), TotalSeconds(ms));
  }

  /** A clock whose fields show `t / 60` and `t % 60` reads back as `t`. */
  lemma ClockReadsBack(r: string, t: nat)
    requires |r| >= 3 && r[|r| - 3] == ':'
    requires IsDigits(r[..|r| - 3]) && IsDigits(r[|r| - 2..])
    requires DigitsValue(r[..|r| - 3]) == t / 60 && DigitsValue(r[|r| - 2..]) == t % 60
    ensures ParseClock(r) == Some(t)
  {
    ColonJoin(r);
    ClockRoundTrip(r[..|r| - 3], r[|r| - 2..]);
  }

  /** The field before the colon shows the whole minutes and the two digits
      after it the remaining seconds, always below 60. */
  lemma FormatTimeFields(ms: int)
    ensures var r, t := FormatTime(ms), TotalSeconds(ms);
      IsDigits(r[..|r| - 3]) && IsDigits(r[|r| - 2..])
      && DigitsValue(r[..|r| - 3]) == t / 60
      && DigitsValue(r[|r| - 2..]) == t % 60 < 60
  {
    var t := TotalSeconds(ms);
    var mm, ss := PadStart2(Digits(t / 60)), PadStart2(Digits(t % 60));
    DigitsShort(t % 60);
    PadKeepsValue(Digits(t / 60));
    PadKeepsValue(Digits(t % 60));
    DigitsRoundTrip(t / 60);
    DigitsRoundTrip(t % 60);
    ColonFields(mm, ss);
  }

  /** A string whose third-last character is a colon is its two fields
      joined by that colon. */
  lemma ColonJoin(r: string)
    requires |r| >= 3 && r[|r| - 3] == ':'
    ensures r == r[..|r| - 3] + ":" + r[|r| - 2..]
  {
    assert r[..|r| - 3] + ":" + r[|r| - 2..] == r[..|r| - 3] + [r[|r| - 3]] + r[|r| - 2..];
  }

  /** Cutting "MM:SS" around its colon gives back the two fields. */
  lemma ColonFields(mm: string, ss: string)
    requires |ss| == 2
    ensures var r := mm + ":" + ss; r[..|r| - 3] == mm && r[|r| - 2..] == ss
  {
  }

  /** Two digit strings joined by a colon read back as minutes and seconds. */
  lemma {:induction false} ClockRoundTrip(mm: string, ss: string)
    requires IsDigits(mm) && IsDigits(ss)
    ensures ParseClock(mm + ":" + ss) == Some(DigitsValue(mm) * 60 + DigitsValue(ss))
  {
    assert [mm, ss][1..] == [ss];
    assert Join([mm, ss], ":") == mm + ":" + ss;
    SplitJoin([mm, ss], ':');
    var parts := Split(mm + ":" + ss, ':');
    assert parts[0] == mm && parts[1] == ss && |parts| == 2;
    assert ParseClock(mm + ":" + ss) == Some(DigitsValue(parts[0]) * 60 + DigitsValue(parts[1]));
  }

  // ---------------------------------------------------------------------
  // The timer state machine
  // ---------------------------------------------------------------------

  /** The `adjustTimerStep` step: a minute above one minute, else five seconds. */
  function StepSize(seconds: int): (step: int)
    ensures step > 0 && (seconds > 60 ==> step == 60) && (seconds <= 60 ==> step == 5)
  {
    if seconds > 60 then 60 else 5
  }

  /** The `adjustTimerStepLong` step: five minutes above one minute, else five seconds. */
  function LongStepSize(seconds: int): (step: int)
    ensures step > 0 && (seconds > 60 ==> step == 300) && (seconds <= 60 ==> step == 5)
  {
    if seconds > 60 then 300 else 5
  }

  class CountdownTimer {
    var durationMs: int
    var remainingMs: int
    var running: bool
    var endAt: Option<int>
    /** `state.timerSeconds`: the configured duration in seconds. */
    var seconds: int

    /** A running timer has a deadline and time left; the duration always
        matches the configured seconds, which stay within the allowed range. */
    ghost predicate Valid()
      reads this
    {
      Settings() && (running <==> endAt.Some?) && (running ==> remainingMs > 0)
    }

    /** The configured seconds stay within range, the duration matches them,
        and the time left is never negative. */
    ghost predicate Settings()
      reads this
    {
      MinSeconds <= seconds <= MaxSeconds && durationMs == seconds * 1000 && 0 <= remainingMs
    }

    /** Ten minutes, stopped. */
    constructor ()
      ensures seconds == 600 && durationMs == 600000 && remainingMs == 600000
      ensures !running && endAt == None
      ensures Valid()
    {
      seconds := 600;
      durationMs := 600000;
      remainingMs := 600000;
      running := false;
      endAt := None;
    }

    /** `stopTimer()`: no longer running, no deadline. */
    method Stop()
      requires Settings()
      modifies this
      ensures !running && endAt == None
      ensures durationMs == old(durationMs) && remainingMs == old(remainingMs) && seconds == old(seconds)
      ensures Valid()
    {
      running := false;
      endAt := None;
    }

    /** `startTimer()`: ignored while running; a finished timer restarts from
        the full duration; the deadline is `now` plus the time left. */
    method Start(now: int)
      requires Valid()
      modifies this
      ensures Valid()
      ensures durationMs == old(durationMs) && seconds == old(seconds)
      ensures old(running) ==> remainingMs == old(remainingMs) && running && endAt == old(endAt)
      ensures !old(running) ==>
        remainingMs == (if old(remainingMs) <= 0 then durationMs else old(remainingMs))
        && running && endAt == Some(now + remainingMs)
    {
      if running {
        return;
      }
      if remainingMs <= 0 {
        remainingMs := durationMs;
      }
      running := true;
      endAt := Some(now + remainingMs);
    }

    /** One interval callback: the time left is what remains until the
        deadline, never negative; reaching zero stops the timer. */
    method Tick(now: int) returns (finished: bool)
      requires Valid() && running
      modifies this
      ensures Valid()
      ensures remainingMs == if old(endAt).value - now > 0 then old(endAt).value - now else 0
      ensures finished <==> remainingMs == 0
      ensures finished ==> !running && endAt == None
      ensures !finished ==> running && endAt == old(endAt)
      ensures durationMs == old(durationMs) && seconds == old(seconds)
    {
      var remaining := endAt.value - now;
      remainingMs := if remaining > 0 then remaining else 0;
      finished := remainingMs <= 0;
      if finished {
        Stop();
      }
    }

    /** `pauseTimer()`: stops a running timer and keeps the time left. */
    method Pause()
      requires Valid()
      modifies this
      ensures Valid()
      ensures !running && endAt == None
      ensures durationMs == old(durationMs) && remainingMs == old(remainingMs) && seconds == old(seconds)
    {
      if !running {
        return;
      }
      Stop();
    }

    /** `resetTimer()`: stopped, with the full duration left. */
    method Reset()
      requires Valid()
      modifies this
      ensures Valid()
      ensures !running && endAt == None && remainingMs == durationMs
      ensures durationMs == old(durationMs) && seconds == old(seconds)
    {
      Stop();
      remainingMs := durationMs;
    }

    /** `setTimerSeconds(s)`: the configured seconds become `s` clamped to
        `[MinSeconds, MaxSeconds]`; duration and time left follow. */
    method SetSeconds(s: int)
      requires Valid()
      modifies this
      ensures Valid()
      ensures seconds == Clamp(MinSeconds, MaxSeconds, s)
      ensures durationMs == seconds * 1000 && remainingMs == durationMs
      ensures running == old(running) && endAt == old(endAt)
    {
      seconds := Clamp(MinSeconds, MaxSeconds, s);
      durationMs := seconds * 1000;
      remainingMs := seconds * 1000;
    }

    /** `setTimerDuration(minutes)`: whole minutes clamped to `[1, 60]`. */
    method SetDuration(minutes: int)
      requires Valid()
      modifies this
      ensures Valid()
      ensures seconds == Clamp(1, 60, minutes) * 60
      ensures durationMs == seconds * 1000 && remainingMs == durationMs
      ensures running == old(running) && endAt == old(endAt)
    {
      seconds := Clamp(1, 60, minutes) * 60;
      durationMs := seconds * 1000;
      remainingMs := seconds * 1000;
    }

    /** A preset button: its minutes (`0` standing for a missing value, which
        falls back to ten), then a reset. */
    method ApplyPreset(minutesField: int)
      requires Valid()
      modifies this
      ensures Valid()
      ensures seconds == Clamp(1, 60, if minutesField == 0 then 10 else minutesField) * 60
      ensures !running && endAt == None && remainingMs == durationMs
    {
      SetDuration(if minutesField == 0 then 10 else minutesField);
      Reset();
    }

    /** `adjustTimerStep(delta)`: ignored while running, else one step of
        `StepSize` in the direction of `delta`. */
    method AdjustStep(delta: int)
      requires Valid()
      modifies this
      ensures Valid()
      ensures old(running) ==> seconds == old(seconds) && remainingMs == old(remainingMs) && durationMs == old(durationMs)
      ensures !old(running) ==>
        seconds == Clamp(MinSeconds, MaxSeconds, old(seconds) + delta * StepSize(old(seconds)))
        && remainingMs == durationMs
      ensures !old(running) && delta > 0 ==> seconds >= old(seconds)
      ensures !old(running) && delta < 0 ==> seconds <= old(seconds)
      ensures running == old(running) && endAt == old(endAt)
    {
      if running {
        return;
      }
      SetSeconds(seconds + delta * StepSize(seconds));
    }

    /** `adjustTimerStepLong(delta)`: as `AdjustStep` with `LongStepSize`. */
    method AdjustStepLong(delta: int)
      requires Valid()
      modifies this
      ensures Valid()
      ensures old(running) ==> seconds == old(seconds) && remainingMs == old(remainingMs) && durationMs == old(durationMs)
      ensures !old(running) ==>
        seconds == Clamp(MinSeconds, MaxSeconds, old(seconds) + delta * LongStepSize(old(seconds)))
        && remainingMs == durationMs
      ensures !old(running) && delta > 0 ==> seconds >= old(seconds)
      ensures !old(running) && delta < 0 ==> seconds <= old(seconds)
      ensures running == old(running) && endAt == old(endAt)
    {
      if running {
        return;
      }
      SetSeconds(seconds + delta * LongStepSize(seconds));
    }
  }

  /** Stepping down from the one-minute mark goes to 55 seconds, stepping up
      goes to 65: the step size is chosen from the value before the step. */
  lemma StepAroundOneMinute()
    ensures Clamp(MinSeconds, MaxSeconds, 60 - StepSize(60)) == 55
    ensures Clamp(MinSeconds, MaxSeconds, 60 + StepSize(60)) == 65
    ensures Clamp(MinSeconds, MaxSeconds, 65 - StepSize(65)) == 10
  {
  }
}
