/**
  The pomodoro countdown: a two-field state machine. The one-second timeout
  scheduled by the component's effect is the `Tick` event; the effect itself,
  which re-runs after every change of either field, is `Settle`.
 */
module PomodoroTimer {
  import Decimal

  /** Twenty-five minutes, the initial and the reset value. */
  const InitialSeconds: nat := 1500

  datatype Timer = Timer(timeLeft: nat, isRunning: bool)

  /** The three buttons and the firing of the pending one-second timeout. */
  datatype Event = Start | Pause | Reset | Tick

  const Initial: Timer := Timer(InitialSeconds, false)

  /** The timeout callback. A timeout is pending only while the timer runs with
      time left; any other change cancels it, so a tick otherwise does nothing. */
  function OnTick(t: Timer): (r: Timer)
    ensures t.isRunning && t.timeLeft > 0 ==> r.timeLeft + 1 == t.timeLeft
    ensures !(t.isRunning && t.timeLeft > 0) ==> r == t
    ensures r.isRunning == t.isRunning
  {
    if t.isRunning && t.timeLeft > 0 then t.(timeLeft := t.timeLeft - 1) else t
  }

  /** The effect's second branch: once no time is left the timer stops. */
  function Settle(t: Timer): (r: Timer)
    ensures r.timeLeft == t.timeLeft
    ensures r.isRunning <==> t.isRunning && t.timeLeft > 0
  {
    if t.timeLeft == 0 then t.(isRunning := false) else t
  }

  /** The state change an event makes, before the effect runs. */
  function Apply(t: Timer, e: Event): (r: Timer)
    ensures e == Start || e == Pause ==> r.timeLeft == t.timeLeft && (r.isRunning <==> e == Start)
    ensures e == Reset ==> r == Initial
    ensures e == Tick ==> r.isRunning == t.isRunning && r.timeLeft <= t.timeLeft
    ensures e == Tick ==> (r.timeLeft < t.timeLeft <==> t.isRunning && t.timeLeft > 0)
  {
    match e
    case Start => t.(isRunning := true)
    case Pause => t.(isRunning := false)
    case Reset => Timer(InitialSeconds, false)
    case Tick => OnTick(t)
  }

  /** One event followed by the effect run it triggers. */
  function Step(t: Timer, e: Event): (r: Timer)
    ensures r.timeLeft == 0 ==> !r.isRunning
    ensures e == Reset ==> r == Initial
    ensures e == Pause ==> r == Timer(t.timeLeft, false)
    ensures e == Start ==> r.timeLeft == t.timeLeft && (r.isRunning <==> t.timeLeft > 0)
    ensures e == Tick && t.isRunning && t.timeLeft > 0 ==>
              r.timeLeft + 1 == t.timeLeft && (r.isRunning <==> r.timeLeft > 0)
    ensures e == Tick && !(t.isRunning && t.timeLeft > 0) ==> r == Settle(t)
  {
    Settle(Apply(t, e))
  }

  /** A sequence of events, each followed by its effect run. */
  function Run(t: Timer, events: seq<Event>): Timer
    decreases |events|
  {
    if events == [] then t else Run(Step(t, events[0]), events[1..])
  }

  /** What every reachable state satisfies. */
  predicate Valid(t: Timer) {
    && t.timeLeft <= InitialSeconds
    && (t.timeLeft == 0 ==> !t.isRunning)
  }

  lemma {:induction false} RunPreservesValid(t: Timer, events: seq<Event>)
    requires Valid(t)
    ensures Valid(Run(t, events))
    decreases |events|
  {
    if events != [] {
      RunPreservesValid(Step(t, events[0]), events[1..]);
    }
  }

  /** From the initial state, no event sequence leaves 0..1500 or leaves a
      finished timer running. */
  lemma {:induction false} ReachableStatesValid(events: seq<Event>)
    ensures 0 <= Run(Initial, events).timeLeft <= InitialSeconds
    ensures Run(Initial, events).timeLeft == 0 ==> !Run(Initial, events).isRunning
  {
    RunPreservesValid(Initial, events);
  }

  function Ticks(n: nat): (r: seq<Event>)
    ensures |r| == n
    ensures forall i :: 0 <= i < n ==> r[i] == Tick
  {
    seq(n, _ => Tick)
  }

  /** A running timer with `n > 0` seconds left stops at zero after `n` ticks. */
  lemma {:induction false} Countdown(n: nat)
    requires n > 0
    ensures Run(Timer(n, true), Ticks(n)) == Timer(0, false)
    decreases n
  {
    var evs := Ticks(n);
    assert evs[0] == Tick && evs[1..] == Ticks(n - 1);
    if n > 1 {
      Countdown(n - 1);
    }
  }

  /** The full pomodoro: 1500 ticks from a freshly started timer. */
  lemma {:induction false} FullPomodoro()
    ensures Run(Timer(InitialSeconds, true), Ticks(InitialSeconds)) == Timer(0, false)
  {
    Countdown(InitialSeconds);
  }

  /** The seconds field: `rest` with a leading '0' when it is a single digit. */
  function PaddedSeconds(rest: nat): (r: string)
    requires rest < 60
    ensures |r| == 2 && Decimal.AllDigits(r) && Decimal.Value(r) == rest
  {
    Decimal.ValueOfRender(rest);
    if rest < 10 then
      var r := "0" + Decimal.Render(rest);
      assert r[..1] == "0";
      r
    else
      Decimal.Render(rest)
  }

  /** `formatTime`: whole minutes, a colon, and the remaining seconds padded
      to two digits. */
  function FormatTime(seconds: nat): (r: string)
    ensures |r| >= 4 && r[|r| - 3] == ':'
    ensures Decimal.IsNumeral(r[..|r| - 3])
    ensures Decimal.AllDigits(r[|r| - 2..]) && Decimal.Value(r[|r| - 2..]) < 60
    ensures Decimal.Value(r[..|r| - 3]) * 60 + Decimal.Value(r[|r| - 2..]) == seconds
  {
    var minutes := Decimal.Render(seconds / 60);
    var secs := PaddedSeconds(seconds % 60);
    Decimal.ValueOfRender(seconds / 60);
    var r := minutes + ":" + secs;
    assert r[..|r| - 3] == minutes;
    assert r[|r| - 2..] == secs;
    r
  }
}
