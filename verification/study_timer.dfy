/**
 * The study timer screen: a three-field state machine (seconds elapsed, running,
 * completed) driven by one-second ticks, the pause/resume toggle and the Finish button,
 * with the clock display, the progress ring value and the goal-met test.
 * The interval scheduling itself is not modelled: one tick is one transition.
 */
module StudyTimer {
  import opened Wrappers
  import opened Text
  import opened Reward

  datatype TimerState = TimerState(elapsed: nat, running: bool, completed: bool)

  /** A timer starts at zero seconds, already running. */
  const Start: TimerState := TimerState(0, true, false)

  const SecondsPerMinute: nat := 60
  const SecondsPerHour: nat := 3600
  /** The Finish button stays disabled until this many whole minutes have passed. */
  const MinFinishMinutes: nat := 5

  /** One second of the interval: counted only while running and not yet completed. */
  function Tick(t: TimerState): (r: TimerState)
    ensures r.running == t.running && r.completed == t.completed
    ensures t.running && !t.completed ==> r.elapsed == t.elapsed + 1
    ensures !t.running || t.completed ==> r == t
  {
    if t.running && !t.completed then t.(elapsed := t.elapsed + 1) else t
  }

  /** Pause/Resume flips whether the timer runs and nothing else. */
  function Toggle(t: TimerState): (r: TimerState)
    ensures r.running != t.running
    ensures r.elapsed == t.elapsed && r.completed == t.completed
  {
    t.(running := !t.running)
  }

  /** Whole minutes elapsed so far. */
  function CurrentMinutes(t: TimerState): (m: nat)
    ensures m * SecondsPerMinute <= t.elapsed < (m + 1) * SecondsPerMinute
  {
    t.elapsed / SecondsPerMinute
  }

  /** What Finish leaves behind: the stopped, completed timer and the minutes it reports. */
  datatype Finished = Finished(state: TimerState, actualMinutes: nat)

  /** `handleFinish`: reports the whole minutes elapsed, marks the timer completed and stops it. */
  function HandleFinish(t: TimerState): (f: Finished)
    ensures f.actualMinutes * SecondsPerMinute <= t.elapsed < (f.actualMinutes + 1) * SecondsPerMinute
    ensures f.state.elapsed == t.elapsed && f.state.completed && !f.state.running
  {
    Finished(TimerState(t.elapsed, false, true), CurrentMinutes(t))
  }

  /** The Finish button is enabled once at least five whole minutes have passed. */
  predicate FinishEnabled(t: TimerState)
    ensures FinishEnabled(t) <==> t.elapsed >= MinFinishMinutes * SecondsPerMinute
  {
    CurrentMinutes(t) >= MinFinishMinutes
  }

  /** Pressing Finish: nothing happens while the button is disabled. */
  function PressFinish(t: TimerState): (r: Option<Finished>)
    ensures r.Some? <==> FinishEnabled(t)
    ensures r.Some? ==> r.value == HandleFinish(t) && r.value.actualMinutes >= MinFinishMinutes
  {
    if FinishEnabled(t) then Some(HandleFinish(t)) else None
  }

  /** The goal counts as met once the whole minutes elapsed reach it. */
  predicate GoalMet(t: TimerState, goalMinutes: nat)
    ensures GoalMet(t, goalMinutes) <==> t.elapsed >= goalMinutes * SecondsPerMinute
  {
    CurrentMinutes(t) >= goalMinutes
  }

  /**
   * The progress ring value, in percent: the exact minutes elapsed as a share of the
   * goal, capped at 100.
   */
  function Progress(elapsed: nat, goalMinutes: nat): (p: real)
    requires goalMinutes > 0
    ensures 0.0 <= p <= 100.0
    ensures p == 100.0 <==> elapsed >= goalMinutes * SecondsPerMinute
    ensures p < 100.0 ==> p * (goalMinutes as real) * 60.0 == 100.0 * (elapsed as real)
  {
    var minutes := elapsed as real / 60.0;
    var share := (minutes / goalMinutes as real) * 100.0;
    if share >= 100.0 then 100.0 else share
  }

  /** The ring is full exactly when the goal-met banner shows: both compare against the goal in whole minutes. */
  lemma ProgressFullIffGoalMet(t: TimerState, goalMinutes: nat)
    requires goalMinutes > 0
    ensures Progress(t.elapsed, goalMinutes) == 100.0 <==> GoalMet(t, goalMinutes)
  {
  }

  /** The minutes Finish reports complete the session's goal exactly when the timer showed the goal as met. */
  lemma FinishedRewardMatchesGoalMet(t: TimerState, goalMinutes: nat)
    ensures ComputeReward(HandleFinish(t).actualMinutes, goalMinutes).completed <==> GoalMet(t, goalMinutes)
  {
  }

  /** What the user can do to a running timer. `Finish` is a press of the Finish button. */
  datatype Event = TickEvent | ToggleEvent | FinishEvent

  function Step(t: TimerState, e: Event): TimerState {
    match e
    case TickEvent => Tick(t)
    case ToggleEvent => Toggle(t)
    case FinishEvent => PressFinish(t).GetOr(Finished(t, 0)).state
  }

  /** The timer after a sequence of events, in order. */
  function Run(t: TimerState, events: seq<Event>): TimerState
    decreases |events|
  {
    if |events| == 0 then t else Run(Step(t, events[0]), events[1..])
  }

  function TickCount(events: seq<Event>): (n: nat)
    ensures n <= |events|
  {
    if |events| == 0 then 0 else (if events[0] == TickEvent then 1 else 0) + TickCount(events[1..])
  }

  /** Elapsed time never goes back, and grows by at most one second per tick. */
  lemma {:induction false} RunBounds(t: TimerState, events: seq<Event>)
    ensures t.elapsed <= Run(t, events).elapsed <= t.elapsed + TickCount(events)
    decreases |events|
  {
    if |events| > 0 {
      RunBounds(Step(t, events[0]), events[1..]);
    }
  }

  /**
   * From a fresh start the elapsed seconds never exceed the ticks, so Finish can only
   * be enabled after at least five minutes' worth of ticks.
   */
  lemma StartCountsTicks(events: seq<Event>)
    ensures Run(Start, events).elapsed <= TickCount(events)
    ensures FinishEnabled(Run(Start, events)) ==> TickCount(events) >= MinFinishMinutes * SecondsPerMinute
  {
    RunBounds(Start, events);
  }

  /** Once completed, the timer stays completed and its elapsed time never changes again. */
  lemma {:induction false} CompletedIsFrozen(t: TimerState, events: seq<Event>)
    requires t.completed
    ensures Run(t, events).completed && Run(t, events).elapsed == t.elapsed
    decreases |events|
  {
    if |events| > 0 {
      CompletedIsFrozen(Step(t, events[0]), events[1..]);
    }
  }

  /** Left running, the timer counts every tick. */
  lemma {:induction false} RunningCountsEveryTick(t: TimerState, n: nat)
    requires t.running && !t.completed
    ensures Run(t, seq(n, _ => TickEvent)) == t.(elapsed := t.elapsed + n)
    decreases n
  {
    if n > 0 {
      var ticks := seq(n, _ => TickEvent);
      assert ticks[1..] == seq(n - 1, _ => TickEvent);
      RunningCountsEveryTick(Tick(t), n - 1);
    }
  }

  /** Seconds split into hours, minutes within the hour and seconds within the minute. */
  datatype Clock = Clock(hours: nat, minutes: nat, seconds: nat)

  function SplitSeconds(s: nat): (c: Clock)
    ensures c.hours * SecondsPerHour + c.minutes * SecondsPerMinute + c.seconds == s
    ensures c.minutes < 60 && c.seconds < 60
  {
    Clock(s / SecondsPerHour, (s % SecondsPerHour) / SecondsPerMinute, s % SecondsPerMinute)
  }

  /**
   * The fields of a clock display: three from one hour on and two below, each a
   * non-empty run of digits, every field after the first exactly two digits wide.
   */
  predicate DisplayFields(fields: seq<string>, withHours: bool) {
    && |fields| == (if withHours then 3 else 2)
    && (forall k :: 0 <= k < |fields| ==> |fields[k]| > 0 && AllDigits(fields[k]))
    && (forall k :: 1 <= k < |fields| ==> |fields[k]| == 2)
  }

  /**
   * The fields hold the clock: from one hour on, the hours in plain decimal and
   * then the minutes and the seconds; below one hour, the minutes in plain
   * decimal and then the seconds.
   */
  predicate ShowsClock(fields: seq<string>, c: Clock) {
    if c.hours > 0 then
      && |fields| == 3
      && fields[0] == Digits(c.hours)
      && ParseNat(fields[1]) == Some(c.minutes)
      && ParseNat(fields[2]) == Some(c.seconds)
    else
      && |fields| == 2
      && fields[0] == Digits(c.minutes)
      && ParseNat(fields[1]) == Some(c.seconds)
  }

  /** `formatTime`: `H:MM:SS` from one hour on, `M:SS` below, minutes and seconds zero-padded. */
  function FormatTime(s: nat): (str: string)
    ensures DisplayFields(Split(str, ':'), s >= SecondsPerHour)
    ensures ShowsClock(Split(str, ':'), SplitSeconds(s))
  {
    var c := SplitSeconds(s);
    if c.hours > 0 then
      HourClockShape(c);
      FormatClock(c)
    else
      MinuteClockShape(c);
      FormatClock(c)
  }

  /** The display of split seconds: minutes and seconds padded to two digits after an hour field. */
  function FormatClock(c: Clock): string {
    if c.hours > 0 then
      Digits(c.hours) + ":" + PadStart2(Digits(c.minutes)) + ":" + PadStart2(Digits(c.seconds))
    else
      Digits(c.minutes) + ":" + PadStart2(Digits(c.seconds))
  }

  /** Reads a clock display back: `M:SS` or `H:MM:SS`. */
  function ParseTime(str: string): Option<nat> {
    var fields := Split(str, ':');
    if |fields| == 2 then
      match (ParseNat(fields[0]), ParseNat(fields[1]))
      case (Some(m), Some(sec)) => Some(m * SecondsPerMinute + sec)
      case _ => None
    else if |fields| == 3 then
      match (ParseNat(fields[0]), ParseNat(fields[1]), ParseNat(fields[2]))
      case (Some(h), Some(m), Some(sec)) => Some(h * SecondsPerHour + m * SecondsPerMinute + sec)
      case _ => None
    else None
  }

  /** Two digit fields joined by a colon split back into those fields. */
  lemma TwoFields(a: string, b: string)
    requires AllDigits(a) && AllDigits(b)
    ensures Split(a + ":" + b, ':') == [a, b]
  {
    assert a + ":" + b == a + [':'] + b;
    DigitsHaveNoColon(a);
    DigitsHaveNoColon(b);
    SplitField(b, ':');
    SplitFirstField(a, ':', b);
    assert [a] + [b] == [a, b];
  }

  /** Three digit fields joined by colons split back into those fields. */
  lemma ThreeFields(a: string, b: string, c: string)
    requires AllDigits(a) && AllDigits(b) && AllDigits(c)
    ensures Split(a + ":" + b + ":" + c, ':') == [a, b, c]
  {
    var rest := b + ":" + c;
    assert a + ":" + b + ":" + c == a + [':'] + rest;
    DigitsHaveNoColon(a);
    TwoFields(b, c);
    SplitFirstField(a, ':', rest);
    assert [a] + [b, c] == [a, b, c];
  }

  /** An `M:SS` display reads back as minutes and seconds. */
  lemma ParseTwo(a: string, b: string, m: nat, sec: nat)
    requires ParseNat(a) == Some(m) && ParseNat(b) == Some(sec)
    ensures ParseTime(a + ":" + b) == Some(m * SecondsPerMinute + sec)
  {
    TwoFields(a, b);
  }

  /** An `H:MM:SS` display reads back as hours, minutes and seconds. */
  lemma ParseThree(a: string, b: string, c: string, h: nat, m: nat, sec: nat)
    requires ParseNat(a) == Some(h) && ParseNat(b) == Some(m) && ParseNat(c) == Some(sec)
    ensures ParseTime(a + ":" + b + ":" + c) == Some(h * SecondsPerHour + m * SecondsPerMinute + sec)
  {
    ThreeFields(a, b, c);
  }

  /** Two digit fields, the second two wide, joined by a colon have the shape of a display below one hour. */
  lemma TwoFieldShape(a: string, b: string)
    requires |a| > 0 && AllDigits(a) && |b| == 2 && AllDigits(b)
    ensures DisplayFields(Split(a + ":" + b, ':'), false)
  {
    TwoFields(a, b);
  }

  /** Three digit fields, the last two two wide, joined by colons have the shape of a display from one hour on. */
  lemma ThreeFieldShape(a: string, b: string, c: string)
    requires |a| > 0 && AllDigits(a) && |b| == 2 && AllDigits(b) && |c| == 2 && AllDigits(c)
    ensures DisplayFields(Split(a + ":" + b + ":" + c, ':'), true)
  {
    ThreeFields(a, b, c);
  }

  /** From one hour on, the display is hours, then minutes and seconds padded to two digits. */
  lemma HourClockShape(c: Clock)
    requires c.hours > 0 && c.minutes < 60 && c.seconds < 60
    ensures DisplayFields(Split(FormatClock(c), ':'), true)
    ensures ShowsClock(Split(FormatClock(c), ':'), c)
  {
    var h, m, sec := Digits(c.hours), PadStart2(Digits(c.minutes)), PadStart2(Digits(c.seconds));
    PadDigits(c.seconds);
    PadDigits(c.minutes);
    assert FormatClock(c) == h + ":" + m + ":" + sec;
    ThreeFieldShape(h, m, sec);
    ThreeFields(h, m, sec);
  }

  /** Below one hour, the display is minutes, then seconds padded to two digits. */
  lemma MinuteClockShape(c: Clock)
    requires c.hours == 0 && c.seconds < 60
    ensures DisplayFields(Split(FormatClock(c), ':'), false)
    ensures ShowsClock(Split(FormatClock(c), ':'), c)
  {
    var m, sec := Digits(c.minutes), PadStart2(Digits(c.seconds));
    PadDigits(c.seconds);
    assert FormatClock(c) == m + ":" + sec;
    TwoFieldShape(m, sec);
    TwoFields(m, sec);
  }

  /** From one hour on, the display reads back as the clock's seconds. */
  lemma ParseHourClock(c: Clock)
    requires c.hours > 0 && c.minutes < 60 && c.seconds < 60
    ensures ParseTime(FormatClock(c)) == Some(c.hours * SecondsPerHour + c.minutes * SecondsPerMinute + c.seconds)
  {
    var h, m, sec := Digits(c.hours), PadStart2(Digits(c.minutes)), PadStart2(Digits(c.seconds));
    PadDigits(c.seconds);
    PadDigits(c.minutes);
    ParseDigits(c.hours);
    assert FormatClock(c) == h + ":" + m + ":" + sec;
    ParseThree(h, m, sec, c.hours, c.minutes, c.seconds);
  }

  /** Below one hour, the display reads back as the clock's seconds. */
  lemma ParseMinuteClock(c: Clock)
    requires c.hours == 0 && c.seconds < 60
    ensures ParseTime(FormatClock(c)) == Some(c.minutes * SecondsPerMinute + c.seconds)
  {
    var m, sec := Digits(c.minutes), PadStart2(Digits(c.seconds));
    PadDigits(c.seconds);
    ParseDigits(c.minutes);
    assert FormatClock(c) == m + ":" + sec;
    ParseTwo(m, sec, c.minutes, c.seconds);
  }

  /** Reading the display back gives the number of seconds it was made from. */
  lemma FormatParseRoundTrip(s: nat)
    ensures ParseTime(FormatTime(s)) == Some(s)
  {
    var c := SplitSeconds(s);
    if c.hours > 0 {
      ParseHourClock(c);
    } else {
      ParseMinuteClock(c);
    }
  }
}
