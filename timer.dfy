/**
 * The focus timer: a single countdown of whole seconds that can be started,
 * paused and resumed, stopped, and that ends itself when it reaches zero.
 * A "tick" is one firing of the once-per-second callback; the callback is
 * scheduled exactly while the timer is running, so a tick of an idle timer does
 * nothing.
 */
module Focus {
  import opened Optional

  /** Minutes used when the minutes field is empty, unparsable, or 0. */
  const DefaultMinutes: int := 25

  datatype TimerState = TimerState(running: bool, paused: bool, timeLeft: int)

  const Idle: TimerState := TimerState(false, false, 0)

  /** The session length in minutes for a parsed minutes field (None: not a number). */
  function SessionMinutes(input: Option<int>): (m: int)
    ensures m != 0
    ensures input == None || input == Some(0) ==> m == DefaultMinutes
    ensures input.Some? && input.value != 0 ==> m == input.value
  {
    match input
    case None => DefaultMinutes
    case Some(v) => if v == 0 then DefaultMinutes else v
  }

  /** Start is refused while a session runs; otherwise the countdown is (re)initialised. */
  function Started(s: TimerState, input: Option<int>): TimerState {
    if s.running then s else TimerState(true, false, SessionMinutes(input) * 60)
  }

  /** Whether this tick ends the session (and so fires the end-of-session signal). */
  predicate TickFinishes(s: TimerState) {
    s.running && !s.paused && s.timeLeft - 1 <= 0
  }

  function Ticked(s: TimerState): TimerState {
    if !s.running || s.paused then s
    else if s.timeLeft - 1 <= 0 then TimerState(false, false, s.timeLeft - 1)
    else s.(timeLeft := s.timeLeft - 1)
  }

  function PauseToggled(s: TimerState): TimerState {
    s.(paused := !s.paused)
  }

  function Stopped(s: TimerState): TimerState {
    s.(running := false, paused := false)
  }

  /** The state after `k` ticks from `s`, and how many of them ended a session. */
  function RunTicks(s: TimerState, k: nat): (TimerState, nat)
    decreases k
  {
    if k == 0 then (s, 0)
    else
      var (last, signals) := RunTicks(Ticked(s), k - 1);
      (last, signals + (if TickFinishes(s) then 1 else 0))
  }

  class FocusTimer {
    var running: bool
    var paused: bool
    var timeLeft: int

    function State(): TimerState
      reads this
    {
      TimerState(running, paused, timeLeft)
    }

    constructor ()
      ensures State() == Idle
    {
      running, paused, timeLeft := false, false, 0;
    }

    /** Start a session from the minutes field; refused (no change) while one runs. */
    method StartTimer(minutesInput: Option<int>) returns (started: bool)
      modifies this
      ensures started <==> !old(running)
      ensures State() == Started(old(State()), minutesInput)
      ensures started ==> running && !paused && timeLeft == SessionMinutes(minutesInput) * 60
      ensures !started ==> State() == old(State())
    {
      if running {
        return false;
      }
      var minutes := SessionMinutes(minutesInput);
      timeLeft := minutes * 60;
      paused := false;
      running := true;
      started := true;
    }

    /** One firing of the interval callback. */
    method Tick() returns (finished: bool)
      modifies this
      ensures finished <==> TickFinishes(old(State()))
      ensures State() == Ticked(old(State()))
      ensures old(running) && !old(paused) ==> timeLeft == old(timeLeft) - 1
      ensures old(paused) || !old(running) ==> State() == old(State())
      ensures finished ==> !running && !paused
    {
      finished := false;
      if running && !paused {
        timeLeft := timeLeft - 1;
        if timeLeft <= 0 {
          running := false;
          finished := true;
          StopTimer();
        }
      }
    }

    /** Flip pause; the source does not check that a session is running. */
    method TogglePause()
      modifies this`paused
      ensures State() == PauseToggled(old(State()))
      ensures paused == !old(paused)
    {
      paused := !paused;
    }

    /** End the session early (or again): no longer running nor paused; time left is kept. */
    method StopTimer()
      modifies this`running, this`paused
      ensures State() == Stopped(old(State()))
      ensures !running && !paused && timeLeft == old(timeLeft)
    {
      running := false;
      paused := false;
    }
  }

  // ---- Properties of the state machine ----

  /** Stopping is idempotent. */
  lemma StopIdempotent(s: TimerState)
    ensures Stopped(Stopped(s)) == Stopped(s)
    ensures !Stopped(s).running
  {
  }

  /** While a session runs, no event increases the time left. */
  lemma TimeLeftNeverGrows(s: TimerState, input: Option<int>)
    requires s.running
    ensures Started(s, input).timeLeft == s.timeLeft
    ensures Ticked(s).timeLeft <= s.timeLeft
    ensures PauseToggled(s).timeLeft == s.timeLeft
    ensures Stopped(s).timeLeft == s.timeLeft
  {
  }

  /** Ticks of an idle or paused timer change nothing and signal nothing. */
  lemma {:induction false} TicksWhileHeld(s: TimerState, k: nat)
    requires !s.running || s.paused
    ensures RunTicks(s, k) == (s, 0)
  {
    if k > 0 {
      TicksWhileHeld(Ticked(s), k - 1);
    }
  }

  /**
   * An unpaused session with `n` seconds left keeps running for `n - 1` ticks, ends
   * on tick `n` with exactly one end-of-session signal, and then stays idle.
   */
  lemma {:induction false} SessionRunsOut(s: TimerState, n: nat, k: nat)
    requires s.running && !s.paused && s.timeLeft == n && n >= 1
    ensures k < n ==> RunTicks(s, k) == (TimerState(true, false, n - k), 0)
    ensures k >= n ==> RunTicks(s, k) == (TimerState(false, false, 0), 1)
    decreases k
  {
    if k > 0 {
      if n == 1 {
        assert Ticked(s) == TimerState(false, false, 0);
        TicksWhileHeld(Ticked(s), k - 1);
      } else {
        SessionRunsOut(Ticked(s), n - 1, k - 1);
      }
    }
  }

  /**
   * A session started from idle with a positive number of minutes `m` finishes after
   * exactly m * 60 unpaused ticks, firing the end-of-session signal once.
   */
  lemma StartedSessionLength(s: TimerState, m: int)
    requires !s.running && m > 0
    ensures RunTicks(Started(s, Some(m)), m * 60)
         == (TimerState(false, false, 0), 1)
    ensures RunTicks(Started(s, Some(m)), m * 60 - 1).0.running
  {
    SessionRunsOut(Started(s, Some(m)), m * 60, m * 60);
    SessionRunsOut(Started(s, Some(m)), m * 60, m * 60 - 1);
  }

  /** A negative minutes value is accepted and the session ends on its first tick. */
  lemma NegativeSessionEndsAtOnce(s: TimerState, m: int)
    requires !s.running && m < 0
    ensures Started(s, Some(m)).running
    ensures TickFinishes(Started(s, Some(m)))
    ensures RunTicks(Started(s, Some(m)), 1) == (TimerState(false, false, m * 60 - 1), 1)
  {
  }

  /** Pausing before a start has no effect on the started session. */
  lemma StartResetsPause(s: TimerState, input: Option<int>)
    requires !s.running
    ensures Started(s, input) == Started(PauseToggled(s), input)
    ensures !Started(s, input).paused
  {
  }
}
