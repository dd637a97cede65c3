/**
 * The Pomodoro timer engine of the block component. The countdown is
 * recomputed from an absolute end time in milliseconds, so it does not drift
 * however irregularly ticks arrive. The engine cycles Pomodoro -> short or long
 * break -> Pomodoro, and it reloads the remaining time only through the effect
 * keyed on the current mode's total.
 *
 * The pure part (durations, formatting, the transition functions and their
 * lemmas) comes first. The class `Engine` at the end updates the component's
 * fields in place, and each of its methods is proved to follow one of the
 * transition functions.
 */
module PomodoroBlockContent {
  import opened Basics
  import opened Numerals
  import opened PomodoroContext

  datatype Mode = Pomodoro | ShortBreak | LongBreak

  /** The long break follows every fourth focus cycle; the engine uses this literal, not a setting. */
  const LongBreakEvery: int := 4

  // ---------------------------------------------------------------------------
  // Pure helpers
  // ---------------------------------------------------------------------------

  /** The current mode's configured length in seconds. */
  function TotalSecondsForMode(mode: Mode, d: Durations): (r: int)
    ensures r % 60 == 0
    ensures mode == Pomodoro ==> r == d.pomodoro * 60
    ensures mode == ShortBreak ==> r == d.shortBreak * 60
    ensures mode == LongBreak ==> r == d.longBreak * 60
  {
    match mode
    case Pomodoro => d.pomodoro * 60
    case ShortBreak => d.shortBreak * 60
    case LongBreak => d.longBreak * 60
  }

  /** `Math.ceil(a / b)` for integers with a positive divisor, negative `a` included. */
  function CeilDiv(a: int, b: int): (q: int)
    requires b > 0
    ensures (q - 1) * b < a <= q * b
  {
    var f := (-a) / b;
    assert -a == f * b + (-a) % b;
    -f
  }

  /** Whole seconds left until `endTime`, rounded up: `ceil((endTime - now) / 1000)`. */
  function Remaining(endTime: int, now: int): (r: int)
    ensures (r - 1) * 1000 < endTime - now <= r * 1000
    ensures r > 0 <==> now < endTime
  {
    CeilDiv(endTime - now, 1000)
  }

  /** JavaScript's `a % 60`: the remainder takes the sign of `a`. */
  function JsRem60(a: int): (r: int)
    ensures a >= 0 ==> 0 <= r < 60
    ensures a < 0 ==> -60 < r <= 0
    ensures (a - r) % 60 == 0
  {
    if a >= 0 then a % 60 else -((-a) % 60)
  }

  /**
   * `formatTime`: minutes `Math.floor(seconds / 60)` and remainder `seconds % 60`,
   * each written with `toString` and padded on the left with '0' to two characters.
   * Dafny's `/` rounds down for a positive divisor, as `Math.floor` does.
   */
  function FormatTime(seconds: int): (r: string)
    ensures seconds >= 0 ==> |r| >= 5 && r[|r| - 3] == ':'
    ensures 0 <= seconds < 6000 ==> |r| == 5 && r[2] == ':'
  {
    var mm := PadStart(IntToString(seconds / 60), 2, '0');
    var ss := PadStart(IntToString(JsRem60(seconds)), 2, '0');
    FieldWidths(seconds);
    Clock(mm, ss)
  }

  /** Minutes and seconds fields joined by a colon. */
  function Clock(mm: string, ss: string): (r: string)
    ensures |r| == |mm| + 1 + |ss| && r[|mm|] == ':'
  {
    mm + ":" + ss
  }

  /** For a non-negative input, the padded seconds have two characters, and so do the minutes below 100. */
  lemma FieldWidths(seconds: int)
    ensures seconds >= 0 ==> |PadStart(IntToString(JsRem60(seconds)), 2, '0')| == 2
    ensures 0 <= seconds < 6000 ==> |PadStart(IntToString(seconds / 60), 2, '0')| == 2
  {
    if seconds >= 0 {
      var m := seconds / 60;
      assert JsRem60(seconds) == seconds % 60;
      PaddedNumeral(m);
      PaddedNumeral(seconds % 60);
      assert seconds < 6000 ==> m < 100;
    }
  }

  /**
   * For a non-negative input, the text is "MM:SS": at least two minute digits,
   * exactly two second digits reading 00..59, and minutes * 60 + seconds is the input.
   */
  lemma FormatTimeFields(seconds: nat) returns (mm: string, ss: string)
    ensures FormatTime(seconds) == mm + ":" + ss
    ensures |mm| >= 2 && AllDigits(mm) && |ss| == 2 && AllDigits(ss)
    ensures seconds < 6000 ==> |mm| == 2
    ensures |mm| > 2 ==> mm[0] != '0'
    ensures DigitsValue(ss) < 60
    ensures DigitsValue(mm) * 60 + DigitsValue(ss) == seconds
  {
    mm := PadStart(NatToString(seconds / 60), 2, '0');
    ss := PadStart(NatToString(seconds % 60), 2, '0');
    assert FormatTime(seconds) == mm + ":" + ss by {
      assert JsRem60(seconds) == seconds % 60;
      assert IntToString(seconds / 60) == NatToString(seconds / 60);
      assert IntToString(seconds % 60) == NatToString(seconds % 60);
    }
    var m := seconds / 60;
    assert |mm| >= 2 && AllDigits(mm) && DigitsValue(mm) == m &&
      (seconds < 6000 ==> |mm| == 2) && (|mm| > 2 ==> mm[0] != '0') by {
      PaddedNumeral(m);
      assert seconds < 6000 ==> m < 100;
    }
    assert |ss| == 2 && AllDigits(ss) && DigitsValue(ss) == seconds % 60 by {
      PaddedNumeral(seconds % 60);
    }
  }

  /** A numeral padded to two places keeps its value, and a value below 100 fills exactly two. */
  lemma PaddedNumeral(n: nat)
    ensures var p := PadStart(NatToString(n), 2, '0');
      |p| >= 2 && AllDigits(p) && DigitsValue(p) == n && (n < 100 ==> |p| == 2) &&
      (|p| > 2 ==> p[0] != '0')
  {
    var s := NatToString(n);
    var p := PadStart(s, 2, '0');
    if 10 <= n < 100 {
      assert |NatToString(n / 10)| == 1;
    }
    var z := p[..|p| - |s|];
    assert p == z + s;
    LeadingZeros(z, s);
  }

  /** Single-digit minutes and seconds are each written with one leading zero. */
  lemma FormatTimeSingleDigits(m: nat, sec: nat)
    requires m < 10 && sec < 10
    ensures FormatTime(m * 60 + sec) == ['0', DigitChar(m), ':', '0', DigitChar(sec)]
  {
    assert (m * 60 + sec) / 60 == m;
    assert JsRem60(m * 60 + sec) == sec;
    assert IntToString(m) == [DigitChar(m)];
    assert IntToString(sec) == [DigitChar(sec)];
  }

  lemma FormatTimeExamples()
    ensures FormatTime(65) == "01:05"
    ensures FormatTime(0) == "00:00"
  {
    FormatTimeSingleDigits(1, 5);
    FormatTimeSingleDigits(0, 0);
  }

  /** The progress ring's fill in percent: `timeLeft / total * 100`, or 0 when the total is not positive. */
  function ProgressFill(timeLeft: int, total: int): (r: real)
    ensures total <= 0 ==> r == 0.0
    ensures 0 <= timeLeft <= total ==> 0.0 <= r <= 100.0
    ensures 0 < total && timeLeft == total ==> r == 100.0
    ensures total > 0 ==> r * (total as real) == (timeLeft as real) * 100.0
  {
    if total > 0 then
      var q := timeLeft as real / total as real;
      assert q * total as real == timeLeft as real;
      assert 0 <= timeLeft <= total ==> 0.0 <= q <= 1.0;
      assert timeLeft == total ==> q == 1.0;
      assert (q * 100.0) * total as real == (q * total as real) * 100.0;
      q * 100.0
    else 0.0
  }

  // ---------------------------------------------------------------------------
  // The engine state and its transitions, as values
  // ---------------------------------------------------------------------------

  /**
   * The component's timer fields, the store's `cyclesCompleted` as the engine
   * sees it, and `effectTotal`: the value of `totalSecondsForMode` the reset
   * effect last ran with (React re-runs the effect only when that value changes).
   */
  datatype Timer = Timer(
    mode: Mode,
    endTime: Option<int>,
    timeLeft: int,
    isRunning: bool,
    cycles: int,
    effectTotal: int)

  /** `endTime` is set exactly while the timer runs. */
  predicate EndTimeMatchesRunning(t: Timer)
  {
    t.endTime.Some? <==> t.isRunning
  }

  /** The reset effect has caught up with the current mode's total. */
  predicate Settled(t: Timer, d: Durations)
  {
    t.effectTotal == TotalSecondsForMode(t.mode, d)
  }

  /** The interval is scheduled only while `isRunning && endTime`; an end time of 0 is falsy. */
  predicate Armed(t: Timer)
    ensures Armed(t) ==> EndTimeMatchesRunning(t)
    ensures EndTimeMatchesRunning(t) ==> (Armed(t) <==> t.isRunning && t.endTime.value != 0)
    ensures t.endTime == Some(0) ==> !Armed(t)
  {
    t.isRunning && t.endTime.Some? && t.endTime.value != 0
  }

  /** The state after mounting: Pomodoro mode, stopped, a full Pomodoro loaded. */
  function Initial(d: Durations, cycles: int): (r: Timer)
    ensures r.mode == Pomodoro && !r.isRunning && r.endTime.None?
    ensures r.timeLeft == d.pomodoro * 60 && r.cycles == cycles
    ensures EndTimeMatchesRunning(r) && Settled(r, d)
  {
    Timer(Pomodoro, None, d.pomodoro * 60, false, cycles, TotalSecondsForMode(Pomodoro, d))
  }

  /** The mode that follows `mode` when the cycle count was `cycles` before the switch. */
  function NextMode(mode: Mode, cycles: int): (m: Mode)
    ensures mode == Pomodoro ==> (m == LongBreak <==> (cycles + 1) % LongBreakEvery == 0)
    ensures mode == Pomodoro ==> m != Pomodoro
    ensures mode != Pomodoro ==> m == Pomodoro
  {
    if mode != Pomodoro then Pomodoro
    else if (cycles + 1) % LongBreakEvery == 0 then LongBreak
    else ShortBreak
  }

  /**
   * `handleModeSwitch` (and `handleSkip`): leaving Pomodoro counts one more
   * cycle and enters a long break on every fourth; leaving a break returns to
   * Pomodoro. The timer stops, and `timeLeft` is left as it was.
   */
  function ModeSwitched(t: Timer): (r: Timer)
    ensures !r.isRunning && r.endTime.None? && EndTimeMatchesRunning(r)
    ensures r.timeLeft == t.timeLeft && r.effectTotal == t.effectTotal
    ensures t.mode == Pomodoro ==>
      r.cycles == t.cycles + 1 && r.mode != Pomodoro &&
      (r.mode == LongBreak <==> r.cycles % LongBreakEvery == 0)
    ensures t.mode != Pomodoro ==> r.mode == Pomodoro && r.cycles == t.cycles
  {
    var cycles := if t.mode == Pomodoro then t.cycles + 1 else t.cycles;
    t.(mode := NextMode(t.mode, t.cycles), cycles := cycles, isRunning := false, endTime := None)
  }

  /**
   * `handleStartStop`: a stopped timer starts with its end `timeLeft` seconds
   * after `now`, so that a tick at `now` would read back the same `timeLeft`;
   * a running timer stops and keeps its last ticked `timeLeft`.
   */
  function StartStopped(t: Timer, now: int): (r: Timer)
    ensures r.isRunning == !t.isRunning && EndTimeMatchesRunning(r)
    ensures !t.isRunning ==> r.endTime == Some(now + t.timeLeft * 1000)
    ensures !t.isRunning ==> Remaining(r.endTime.value, now) == t.timeLeft
    ensures r.timeLeft == t.timeLeft && r.mode == t.mode
    ensures r.cycles == t.cycles && r.effectTotal == t.effectTotal
  {
    if !t.isRunning then
      var r := t.(endTime := Some(now + t.timeLeft * 1000), isRunning := true);
      assert Remaining(r.endTime.value, now) == t.timeLeft by {
        var q := Remaining(r.endTime.value, now);
        assert (q - 1) * 1000 < t.timeLeft * 1000 <= q * 1000;
      }
      r
    else
      t.(endTime := None, isRunning := false)
  }

  /**
   * One run of the interval callback at wall-clock time `now`. While armed,
   * `timeLeft` becomes the whole seconds left until `endTime`, floored at 0;
   * when none are left the mode switch runs. Unarmed, nothing happens.
   */
  function Ticked(t: Timer, now: int): (r: Timer)
    ensures !Armed(t) ==> r == t
    ensures Armed(t) ==> r.timeLeft == if now < t.endTime.value then Remaining(t.endTime.value, now) else 0
    ensures Armed(t) ==> (r.isRunning <==> now < t.endTime.value)
    ensures Armed(t) && now < t.endTime.value ==>
      r.endTime == t.endTime && r.mode == t.mode && r.cycles == t.cycles && r.effectTotal == t.effectTotal
    ensures Armed(t) && t.endTime.value <= now ==> r == ModeSwitched(t.(timeLeft := 0))
  {
    if !Armed(t) then t
    else
      var difference := Remaining(t.endTime.value, now);
      if difference <= 0 then ModeSwitched(t.(timeLeft := 0))
      else t.(timeLeft := difference)
  }

  /** `resetTimer`: reload the current mode's total and stop. */
  function Reset(t: Timer, d: Durations): (r: Timer)
    ensures r.timeLeft == TotalSecondsForMode(t.mode, d)
    ensures !r.isRunning && r.endTime.None? && EndTimeMatchesRunning(r)
    ensures r.mode == t.mode && r.cycles == t.cycles && r.effectTotal == t.effectTotal
  {
    t.(timeLeft := TotalSecondsForMode(t.mode, d), isRunning := false, endTime := None)
  }

  /**
   * The effect keyed on `totalSecondsForMode`, run after each render: it resets
   * the timer exactly when the current mode's total differs from the one it
   * last ran with. This is the only place `timeLeft` is reloaded.
   */
  function TotalChecked(t: Timer, d: Durations): (r: Timer)
    ensures Settled(r, d)
    ensures Settled(t, d) ==> r == t
    ensures !Settled(t, d) ==>
      r.timeLeft == TotalSecondsForMode(t.mode, d) && !r.isRunning && r.endTime.None? &&
      r.mode == t.mode && r.cycles == t.cycles
  {
    var total := TotalSecondsForMode(t.mode, d);
    if total != t.effectTotal then Reset(t, d).(effectTotal := total) else t
  }

  // ---------------------------------------------------------------------------
  // Countdown properties
  // ---------------------------------------------------------------------------

  /** A tick's outcome depends only on `endTime` and `now`: an earlier tick that left the timer running changes nothing. */
  lemma TickTwice(t: Timer, t1: int, t2: int)
    requires Armed(t) && Ticked(t, t1).isRunning
    ensures Ticked(Ticked(t, t1), t2) == Ticked(t, t2)
  {
  }

  /** Ticking a timer that is not armed, any number of times, changes nothing. */
  lemma {:induction false} TicksWhenIdle(t: Timer, times: seq<int>)
    requires !Armed(t)
    ensures Ticks(t, times) == t
    decreases |times|
  {
    if times != [] {
      TicksWhenIdle(t, times[1..]);
    }
  }

  /** Ticks delivered at the times in `times`, in that order. */
  function Ticks(t: Timer, times: seq<int>): (r: Timer)
    decreases |times|
  {
    if times == [] then t else Ticks(Ticked(t, times[0]), times[1..])
  }

  /** Index of the first tick at or after the deadline, or of the last tick when none is. */
  function FirstDue(endTime: int, times: seq<int>): (k: nat)
    requires |times| > 0
    ensures k < |times|
    ensures forall i :: 0 <= i < k ==> times[i] < endTime
    ensures k < |times| - 1 ==> endTime <= times[k]
  {
    if |times| == 1 || endTime <= times[0] then 0 else 1 + FirstDue(endTime, times[1..])
  }

  /**
   * Drift freedom: however many ticks arrive and however irregularly, the
   * result is that of one single tick at the first time the deadline had
   * passed (or at the last tick, if it never had).
   */
  lemma {:induction false} TicksCollapse(t: Timer, times: seq<int>)
    requires Armed(t) && |times| > 0
    ensures Ticks(t, times) == Ticked(t, times[FirstDue(t.endTime.value, times)])
    decreases |times|
  {
    var t1 := Ticked(t, times[0]);
    if |times| == 1 {
    } else if t.endTime.value <= times[0] {
      TicksWhenIdle(t1, times[1..]);
    } else {
      var rest := times[1..];
      TicksCollapse(t1, rest);
      var k := FirstDue(t.endTime.value, rest);
      TickTwice(t, times[0], rest[k]);
    }
  }

  /** Ticks that all come before the deadline leave exactly the countdown of the last one. */
  lemma TicksBeforeDeadline(t: Timer, times: seq<int>)
    requires Armed(t) && |times| > 0
    requires forall i :: 0 <= i < |times| - 1 ==> times[i] < t.endTime.value
    ensures Ticks(t, times) == Ticked(t, times[|times| - 1])
  {
    TicksCollapse(t, times);
    assert FirstDue(t.endTime.value, times) == |times| - 1;
  }

  /**
   * Started with `timeLeft` seconds, the timer still runs and counts down
   * (never above the starting value) at any tick before the deadline.
   */
  lemma CountsDownBeforeDeadline(t: Timer, start: int, now: int)
    requires !t.isRunning && t.timeLeft > 0
    requires start + t.timeLeft * 1000 != 0
    requires start <= now < start + t.timeLeft * 1000
    ensures var r := Ticked(StartStopped(t, start), now);
      r.isRunning && r.mode == t.mode && 0 < r.timeLeft <= t.timeLeft
  {
    var r := Ticked(StartStopped(t, start), now);
    var q := Remaining(start + t.timeLeft * 1000, now);
    assert (q - 1) * 1000 < start + t.timeLeft * 1000 - now;
    assert r.timeLeft == q;
  }

  /**
   * Started with `timeLeft` seconds, the first tick at or after the deadline
   * shows 0, runs the mode switch exactly once and leaves the timer stopped,
   * so that later ticks do nothing.
   */
  lemma CompletesAtDeadline(t: Timer, start: int, now: int, later: int)
    requires !t.isRunning
    requires start + t.timeLeft * 1000 != 0
    requires start + t.timeLeft * 1000 <= now
    ensures var r := Ticked(StartStopped(t, start), now);
      && r.timeLeft == 0 && !r.isRunning && r.endTime.None?
      && r.mode == NextMode(t.mode, t.cycles)
      && r.cycles == (if t.mode == Pomodoro then t.cycles + 1 else t.cycles)
      && Ticked(r, later) == r
  {
  }

  /**
   * Starting 25 minutes at time `s` and ticking at 50 ms, after a 2000 ms gap
   * and at exactly 1500000 ms ends on 0 with the mode switched once.
   */
  lemma IrregularTicksReachZero(t: Timer, s: int)
    requires !t.isRunning && t.timeLeft == 1500 && t.mode == Pomodoro
    requires s + 1500000 != 0
    ensures var r := Ticks(StartStopped(t, s), [s + 50, s + 2050, s + 1500000]);
      r.timeLeft == 0 && !r.isRunning && r.mode != Pomodoro && r.cycles == t.cycles + 1
  {
    var started := StartStopped(t, s);
    TicksBeforeDeadline(started, [s + 50, s + 2050, s + 1500000]);
  }

  // ---------------------------------------------------------------------------
  // The reload effect and the equal-durations case
  // ---------------------------------------------------------------------------

  /**
   * When the next mode's total differs from the finished one's, completing a
   * segment and letting the effect run loads the next mode's full length, stopped.
   */
  lemma CompletionLoadsNextTotal(t: Timer, d: Durations, now: int)
    requires Armed(t) && Settled(t, d) && t.endTime.value <= now
    requires TotalSecondsForMode(NextMode(t.mode, t.cycles), d) != TotalSecondsForMode(t.mode, d)
    ensures var r := TotalChecked(Ticked(t, now), d);
      r.mode == NextMode(t.mode, t.cycles) && !r.isRunning && r.endTime.None? &&
      r.timeLeft == TotalSecondsForMode(r.mode, d)
  {
  }

  /**
   * When the next mode's total equals the finished one's, the effect does not
   * run: the switched-to mode keeps the 0 the completing tick left.
   */
  lemma CompletionWithEqualTotalsKeepsZero(t: Timer, d: Durations, now: int)
    requires Armed(t) && Settled(t, d) && t.endTime.value <= now
    requires TotalSecondsForMode(NextMode(t.mode, t.cycles), d) == TotalSecondsForMode(t.mode, d)
    ensures var r := TotalChecked(Ticked(t, now), d);
      r.mode == NextMode(t.mode, t.cycles) && !r.isRunning && r.timeLeft == 0
  {
  }

  /** Likewise, skipping between two modes of equal length keeps whatever `timeLeft` was showing. */
  lemma SkipWithEqualTotalsKeepsTimeLeft(t: Timer, d: Durations)
    requires Settled(t, d)
    requires TotalSecondsForMode(NextMode(t.mode, t.cycles), d) == TotalSecondsForMode(t.mode, d)
    ensures TotalChecked(ModeSwitched(t), d).timeLeft == t.timeLeft
  {
  }

  /** Editing the current mode's duration while stopped shows the new length at once. */
  lemma ConfigureReloadsCurrentMode(t: Timer, d: Durations, d': Durations)
    requires Settled(t, d)
    requires TotalSecondsForMode(t.mode, d') != TotalSecondsForMode(t.mode, d)
    ensures var r := TotalChecked(t, d');
      r.timeLeft == TotalSecondsForMode(t.mode, d') && !r.isRunning && r.mode == t.mode
  {
  }

  // ---------------------------------------------------------------------------
  // Sessions: any sequence of user actions, ticks and configuration changes
  // ---------------------------------------------------------------------------

  datatype Event =
    | StartStop(now: int)           // the Start/Stop button
    | Tick(now: int)                // one run of the interval callback
    | Skip                          // the Skip button
    | Configure(settings: Durations) // the store's durations were replaced

  /** One event followed by the render and the reset effect it causes. */
  function Step(t: Timer, d: Durations, e: Event): (r: (Timer, Durations))
    ensures Settled(r.0, r.1)
    ensures e.Configure? ==> r.1 == e.settings
    ensures !e.Configure? ==> r.1 == d
    ensures e.Skip? ==> !r.0.isRunning && r.0.endTime.None?
  {
    match e
    case StartStop(now) => (TotalChecked(StartStopped(t, now), d), d)
    case Tick(now) => (TotalChecked(Ticked(t, now), d), d)
    case Skip => (TotalChecked(ModeSwitched(t), d), d)
    case Configure(d') => (TotalChecked(t, d'), d')
  }

  /** The state after a whole session of events, one `Step` after another. */
  function Run(t: Timer, d: Durations, events: seq<Event>): (r: (Timer, Durations))
    ensures events == [] ==> r == (t, d)
    ensures events != [] ==> Settled(r.0, r.1)
    ensures (forall i :: 0 <= i < |events| ==> !events[i].Configure?) ==> r.1 == d
    decreases |events|
  {
    if events == [] then (t, d)
    else
      var next := Step(t, d, events[0]);
      Run(next.0, next.1, events[1..])
  }

  predicate NonNegative(d: Durations)
  {
    d.pomodoro >= 0 && d.shortBreak >= 0 && d.longBreak >= 0
  }

  /** Every configuration an event list installs is non-negative. */
  predicate ConfiguresNonNegative(events: seq<Event>)
  {
    forall i :: 0 <= i < |events| ==> events[i].Configure? ==> NonNegative(events[i].settings)
  }

  /** The engine's invariant: `endTime` set iff running, the effect caught up, time left not negative. */
  predicate Consistent(t: Timer, d: Durations)
  {
    EndTimeMatchesRunning(t) && Settled(t, d) && NonNegative(d) && t.timeLeft >= 0
  }

  lemma StepKeepsConsistent(t: Timer, d: Durations, e: Event)
    requires Consistent(t, d)
    requires e.Configure? ==> NonNegative(e.settings)
    ensures Consistent(Step(t, d, e).0, Step(t, d, e).1)
    ensures Step(t, d, e).0.cycles >= t.cycles
  {
  }

  /**
   * Over any session the invariant holds after every event, and the cycle
   * count never decreases.
   */
  lemma {:induction false} RunKeepsConsistent(t: Timer, d: Durations, events: seq<Event>)
    requires Consistent(t, d) && ConfiguresNonNegative(events)
    ensures Consistent(Run(t, d, events).0, Run(t, d, events).1)
    ensures Run(t, d, events).0.cycles >= t.cycles
    decreases |events|
  {
    if events != [] {
      StepKeepsConsistent(t, d, events[0]);
      var next := Step(t, d, events[0]);
      assert ConfiguresNonNegative(events[1..]) by {
        forall i | 0 <= i < |events[1..]| && events[1..][i].Configure?
          ensures NonNegative(events[1..][i].settings)
        {
          assert events[1..][i] == events[i + 1];
        }
      }
      RunKeepsConsistent(next.0, next.1, events[1..]);
    }
  }

  /** Switches applied `n` times in a row. */
  function Switches(t: Timer, n: nat): (r: Timer)
    decreases n
  {
    if n == 0 then t else Switches(ModeSwitched(t), n - 1)
  }

  /**
   * Pomodoro and breaks alternate: after `2n` switches from Pomodoro the mode
   * is Pomodoro again and exactly `n` cycles have been counted.
   */
  lemma {:induction false} SwitchesAlternate(t: Timer, n: nat)
    requires t.mode == Pomodoro
    ensures Switches(t, 2 * n).mode == Pomodoro
    ensures Switches(t, 2 * n).cycles == t.cycles + n
    decreases n
  {
    if n > 0 {
      var t2 := ModeSwitched(ModeSwitched(t));
      assert Switches(t, 2 * n) == Switches(t2, 2 * (n - 1));
      SwitchesAlternate(t2, n - 1);
    }
  }

  /** From 0 cycles, the k-th break (counting from 1) is a long one exactly when k is a multiple of 4. */
  lemma LongBreakCadence(t: Timer, k: nat)
    requires t.mode == Pomodoro && t.cycles == 0 && k >= 1
    ensures Switches(t, 2 * k - 1).mode == (if k % 4 == 0 then LongBreak else ShortBreak)
  {
    SwitchesAlternate(t, k - 1);
    var before := Switches(t, 2 * (k - 1));
    assert Switches(t, 2 * k - 1) == Switches(before, 1) by {
      SwitchesSplit(t, 2 * (k - 1), 1);
    }
  }

  lemma {:induction false} SwitchesSplit(t: Timer, m: nat, n: nat)
    ensures Switches(t, m + n) == Switches(Switches(t, m), n)
    decreases m
  {
    if m > 0 {
      SwitchesSplit(ModeSwitched(t), m - 1, n);
    }
  }

  /** From 3 cycles a completed Pomodoro gives the long break; from 0 a short one. */
  lemma CycleRuleExamples(t: Timer)
    requires t.mode == Pomodoro
    ensures t.cycles == 3 ==> ModeSwitched(t).mode == LongBreak && ModeSwitched(t).cycles == 4
    ensures t.cycles == 0 ==> ModeSwitched(t).mode == ShortBreak && ModeSwitched(t).cycles == 1
  {
  }

  // ---------------------------------------------------------------------------
  // The component's state, updated in place
  // ---------------------------------------------------------------------------

  /**
   * The component instance: its own timer fields, plus the shared store it
   * reads durations from and writes the cycle count to.
   */
  class Engine {
    const store: PomodoroStore
    var mode: Mode
    var endTime: Option<int>
    var timeLeft: int
    var isRunning: bool
    var effectTotal: int

    function State(): (r: Timer)
      reads this, store
    {
      Timer(mode, endTime, timeLeft, isRunning, store.cyclesCompleted, effectTotal)
    }

    ghost predicate Valid()
      reads this, store
    {
      EndTimeMatchesRunning(State())
    }

    /** Mounting: Pomodoro, stopped, a full Pomodoro loaded (the mount-time reset loads the same value). */
    constructor (store: PomodoroStore)
      ensures this.store == store && Valid()
      ensures State() == Initial(store.Settings(), store.cyclesCompleted)
    {
      this.store := store;
      mode := Pomodoro;
      endTime := None;
      timeLeft := store.pomodoroTime * 60;
      isRunning := false;
      effectTotal := store.pomodoroTime * 60;
    }

    /** `totalSecondsForMode` as memoised for the current render. */
    function TotalSeconds(): (r: int)
      reads this, store
    {
      TotalSecondsForMode(mode, store.Settings())
    }

    method ResetTimer()
      modifies this
      ensures Valid()
      ensures State() == Reset(old(State()), store.Settings())
    {
      timeLeft := TotalSeconds();
      isRunning := false;
      endTime := None;
    }

    /** The effect keyed on `totalSecondsForMode`. */
    method OnTotalChanged()
      requires Valid()
      modifies this
      ensures Valid()
      ensures State() == TotalChecked(old(State()), store.Settings())
    {
      var total := TotalSeconds();
      if total != effectTotal {
        ResetTimer();
        effectTotal := total;
      }
    }

    method HandleModeSwitch()
      modifies this, store
      ensures Valid()
      ensures State() == ModeSwitched(old(State()))
      ensures store.Settings() == old(store.Settings())
    {
      if mode == Pomodoro {
        var nextCycle := store.cyclesCompleted + 1;
        store.SetCyclesCompleted(nextCycle);
        mode := if nextCycle % LongBreakEvery == 0 then LongBreak else ShortBreak;
      } else {
        mode := Pomodoro;
      }
      isRunning := false;
      endTime := None;
    }

    /** The Skip button calls the mode switch directly. */
    method HandleSkip()
      modifies this, store
      ensures Valid()
      ensures State() == ModeSwitched(old(State()))
      ensures store.Settings() == old(store.Settings())
    {
      HandleModeSwitch();
    }

    method HandleStartStop(now: int)
      requires Valid()
      modifies this
      ensures Valid()
      ensures State() == StartStopped(old(State()), now)
    {
      if !isRunning {
        endTime := Some(now + timeLeft * 1000);
      } else {
        endTime := None;
      }
      isRunning := !isRunning;
    }

    /** The interval callback at `now`; without a scheduled interval it does nothing. */
    method Tick(now: int)
      requires Valid()
      modifies this, store
      ensures Valid()
      ensures State() == Ticked(old(State()), now)
      ensures store.Settings() == old(store.Settings())
    {
      if isRunning && endTime.Some? && endTime.value != 0 {
        var difference := CeilDiv(endTime.value - now, 1000);
        if difference <= 0 {
          timeLeft := 0;
          HandleModeSwitch();
        } else {
          timeLeft := difference;
        }
      }
    }

    /** The text the component shows. */
    function Display(): (r: string)
      reads this
      ensures 0 <= timeLeft < 6000 ==> |r| == 5 && r[2] == ':'
      ensures timeLeft >= 6000 ==> |r| > 5 && r[|r| - 3] == ':'
    {
      FormatTime(timeLeft)
    }
  }
}
