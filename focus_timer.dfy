/**
 * The focus-time screen's state machine: the configured minutes, the PAUSED / FOCUS /
 * REST state, the start of the open focus period and the two countdowns, changed by
 * the screen's handlers. The API call that stores a finished session is recorded in a
 * ghost trace of effects, together with the restarts and pauses of the countdowns, in
 * the order the handlers issue them.
 */
module FocusTimer {
  import opened Wrappers
  import opened Calendar

  /** Minutes entered for focus and for rest (`Number(input.value)`; an empty field is 0). */
  datatype Timers = Timers(focus: int, rest: int)

  datatype TimerState = Paused | Focus | Rest

  datatype InputKind = FocusInput | RestInput

  /** A react-timer-hook countdown, reduced to its expiry instant and whether it is counting. */
  datatype Countdown = Countdown(expiry: Instant, running: bool)
  {
    /** `restart(at)`: count again, towards a new expiry. */
    function Restart(at: Instant): Countdown {
      Countdown(at, true)
    }

    /** `pause()`: stop counting; the expiry is kept. */
    function Pause(): Countdown {
      Countdown(expiry, false)
    }

    /** The library fires the countdown's expiry when it is counting and its instant has come. */
    predicate Due(now: Instant) {
      running && expiry <= now
    }
  }

  /** The body of `POST /focus-time`. */
  datatype Session = Session(timeFrom: Option<Instant>, timeTo: Instant)

  /** What a handler does outside the component's own state, in order. */
  datatype Effect =
    | RestartFocus(expiry: Instant)
    | PauseFocus
    | RestartRest(expiry: Instant)
    | PauseRest
    | Post(session: Session)

  /** dayjs `add(seconds, "seconds")` on an instant in milliseconds. */
  function AddSeconds(date: Instant, seconds: int): (r: Instant)
    ensures seconds % 60 == 0 ==> r == date + 60_000 * (seconds / 60)
    ensures date < r <==> seconds > 0
    ensures r == date <==> seconds == 0
  {
    date + seconds * 1000
  }

  /** The sessions sent to the API, in the order they were sent. */
  function Posted(effects: seq<Effect>): (sessions: seq<Session>)
    ensures |sessions| <= |effects|
  {
    if effects == [] then []
    else
      Posted(effects[..|effects| - 1]) +
      match effects[|effects| - 1]
      case Post(s) => [s]
      case _ => []
  }

  lemma {:induction false} PostedAppend(a: seq<Effect>, b: seq<Effect>)
    ensures Posted(a + b) == Posted(a) + Posted(b)
    decreases |b|
  {
    if b == [] {
      assert a + b == a;
    } else {
      var b' := b[..|b| - 1];
      assert (a + b)[..|a + b| - 1] == a + b';
      PostedAppend(a, b');
    }
  }

  /** Restarting and pausing countdowns posts nothing. */
  lemma PostedWithoutPost(a: seq<Effect>, b: seq<Effect>)
    requires forall i :: 0 <= i < |b| ==> !b[i].Post?
    ensures Posted(a + b) == Posted(a)
  {
    PostedAppend(a, b);
    PostedNone(b);
  }

  lemma {:induction false} PostedNone(b: seq<Effect>)
    requires forall i :: 0 <= i < |b| ==> !b[i].Post?
    ensures Posted(b) == []
    decreases |b|
  {
    if b != [] {
      PostedNone(b[..|b| - 1]);
    }
  }

  /** Closing a period (`handleEnd`) posts exactly its session. */
  lemma PostedEnd(a: seq<Effect>, s: Session)
    ensures Posted(a + [PauseFocus, Post(s)]) == Posted(a) + [s]
  {
    var b := [PauseFocus, Post(s)];
    assert b[..1] == [PauseFocus];
    assert [PauseFocus][..0] == [];
    PostedAppend(a, b);
  }

  /**
   * Every posted session has a start no later than its end and than `clock`, and
   * sessions follow each other without overlapping.
   */
  ghost predicate Chronicle(sessions: seq<Session>, clock: Instant) {
    && (forall i :: 0 <= i < |sessions| ==>
          sessions[i].timeFrom.Some? && sessions[i].timeFrom.value <= sessions[i].timeTo <= clock)
    && (forall i, j :: 0 <= i < j < |sessions| && sessions[j].timeFrom.Some? ==>
          sessions[i].timeTo <= sessions[j].timeFrom.value)
  }

  ghost predicate StrictlyIncreasing(s: seq<nat>) {
    forall i, j :: 0 <= i < j < |s| ==> s[i] < s[j]
  }

  class FocusTimeScreen {
    var timers: Timers
    var timerState: TimerState
    var timeFrom: Option<Instant>
    var focusTimer: Countdown
    var restTimer: Countdown

    /** Countdown calls and API posts issued so far. */
    ghost var effects: seq<Effect>
    /** The latest instant a handler ran at; the wall clock does not go back. */
    ghost var clock: Instant
    /** Focus periods opened so far; the open one, if any, is number `period`. */
    ghost var period: nat
    /** For each posted session, the focus period it closed. */
    ghost var postedPeriods: seq<nat>

    ghost predicate Valid()
      reads this
    {
      var sessions := Posted(effects);
      && (focusTimer.running && timerState != Paused ==> timeFrom.Some?)
      && Chronicle(sessions, clock)
      && |postedPeriods| == |sessions|
      && StrictlyIncreasing(postedPeriods)
      && (forall i :: 0 <= i < |postedPeriods| ==> postedPeriods[i] <= period)
      && (timeFrom.Some? ==>
            && timeFrom.value <= clock
            && (forall i :: 0 <= i < |postedPeriods| ==> postedPeriods[i] < period)
            && (forall i :: 0 <= i < |sessions| ==> sessions[i].timeTo <= timeFrom.value))
    }

    /** The screen as mounted at `mount`: both countdowns start already due. */
    constructor (mount: Instant)
      ensures Valid()
      ensures timers == Timers(0, 0) && timerState == Paused && timeFrom == None
      ensures focusTimer == Countdown(mount, true) && restTimer == Countdown(mount, true)
      ensures effects == [] && clock == mount
    {
      timers := Timers(0, 0);
      timerState := Paused;
      timeFrom := None;
      focusTimer := Countdown(mount, true);
      restTimer := Countdown(mount, true);
      effects := [];
      clock := mount;
      period := 0;
      postedPeriods := [];
    }

    /** The start button's guard (and the negation of its `disabled`). */
    predicate StartEnabled(): (enabled: bool)
      reads this
      ensures enabled <==> !(timers.focus <= 0 || timers.rest <= 0)
    {
      timers.focus > 0 && timers.rest > 0
    }

    /** `handleEnd`: pause the focus countdown, post the open period, forget its start. */
    method HandleEnd(now: Instant)
      requires Valid() && clock <= now && timeFrom.Some?
      modifies this
      ensures Valid() && clock == now
      ensures focusTimer == old(focusTimer).Pause()
      ensures effects == old(effects) + [PauseFocus, Post(Session(old(timeFrom), now))]
      ensures Posted(effects) == Posted(old(effects)) + [Session(old(timeFrom), now)]
      ensures timeFrom == None
      ensures timers == old(timers) && timerState == old(timerState) && restTimer == old(restTimer)
    {
      PostedEnd(effects, Session(timeFrom, now));
      focusTimer := focusTimer.Pause();
      effects := effects + [PauseFocus, Post(Session(timeFrom, now))];
      postedPeriods := postedPeriods + [period];
      clock := now;
      timeFrom := None;
    }

    /** The focus countdown's `onExpire`, called by the library once the countdown is due. */
    method OnFocusExpire(now: Instant)
      requires Valid() && clock <= now && focusTimer.Due(now)
      modifies this
      ensures Valid() && clock == now
      ensures focusTimer == old(focusTimer).Pause()
      ensures timerState == old(timerState) && timers == old(timers) && restTimer == old(restTimer)
      ensures old(timerState) == Paused ==> effects == old(effects) && timeFrom == old(timeFrom)
      ensures old(timerState) != Paused ==>
                && old(timeFrom).Some?
                && effects == old(effects) + [PauseFocus, Post(Session(old(timeFrom), now))]
                && Posted(effects) == Posted(old(effects)) + [Session(old(timeFrom), now)]
                && timeFrom == None
    {
      clock := now;
      focusTimer := focusTimer.Pause();
      if timerState != Paused {
        HandleEnd(now);
      }
    }

    /** `handleStart`: open a focus period at `now` and restart the focus countdown. */
    method HandleStart(now: Instant)
      requires Valid() && clock <= now
      modifies this
      ensures Valid() && clock == now
      ensures focusTimer == Countdown(now + 60_000 * timers.focus, true)
      ensures timeFrom == Some(now)
      ensures effects == old(effects) + [RestartFocus(now + 60_000 * timers.focus)]
      ensures Posted(effects) == Posted(old(effects))
      ensures timers == old(timers) && timerState == old(timerState) && restTimer == old(restTimer)
    {
      var expiry := AddSeconds(now, timers.focus * 60);
      PostedWithoutPost(effects, [RestartFocus(expiry)]);
      focusTimer := focusTimer.Restart(expiry);
      effects := effects + [RestartFocus(expiry)];
      period := period + 1;
      clock := now;
      timeFrom := Some(now);
    }

    /** `handleInput`: store the number typed into one of the two fields. */
    method HandleInput(kind: InputKind, value: int)
      requires Valid()
      modifies this
      ensures Valid()
      ensures kind == FocusInput ==> timers == Timers(value, old(timers).rest)
      ensures kind == RestInput ==> timers == Timers(old(timers).focus, value)
      ensures timerState == old(timerState) && timeFrom == old(timeFrom)
      ensures focusTimer == old(focusTimer) && restTimer == old(restTimer) && effects == old(effects)
      ensures clock == old(clock)
    {
      match kind
      case FocusInput => timers := timers.(focus := value);
      case RestInput => timers := timers.(rest := value);
    }

    /** `handleFocus`: start focusing, but only with both durations positive. */
    method HandleFocus(now: Instant)
      requires Valid() && clock <= now
      modifies this
      ensures Valid()
      ensures !old(StartEnabled()) ==>
                && timers == old(timers) && timerState == old(timerState) && timeFrom == old(timeFrom)
                && focusTimer == old(focusTimer) && restTimer == old(restTimer) && effects == old(effects)
                && clock == old(clock)
      ensures old(StartEnabled()) ==>
                && timerState == Focus && timeFrom == Some(now) && clock == now
                && focusTimer == Countdown(now + 60_000 * timers.focus, true)
                && effects == old(effects) + [RestartFocus(now + 60_000 * timers.focus)]
                && timers == old(timers) && restTimer == old(restTimer)
      ensures Posted(effects) == Posted(old(effects))
    {
      if timers.focus <= 0 || timers.rest <= 0 {
        return;
      }
      HandleStart(now);
      timerState := Focus;
    }

    /**
     * `handleRest`: close the open focus period, if any, by posting it; then restart
     * the rest countdown and pause the focus one.
     */
    method HandleRest(now: Instant)
      requires Valid() && clock <= now
      modifies this
      ensures Valid() && clock == now
      ensures effects == old(effects)
                         + (if old(timeFrom).Some? then [PauseFocus, Post(Session(old(timeFrom), now))] else [])
                         + [RestartRest(now + 60_000 * timers.rest), PauseFocus]
      ensures Posted(effects) ==
                Posted(old(effects)) + (if old(timeFrom).Some? then [Session(old(timeFrom), now)] else [])
      ensures timeFrom == None && timerState == Rest && timers == old(timers)
      ensures focusTimer == old(focusTimer).Pause()
      ensures restTimer == Countdown(now + 60_000 * timers.rest, true)
    {
      if timeFrom.Some? {
        HandleEnd(now);
      }
      clock := now;
      var expiry := AddSeconds(now, timers.rest * 60);
      PostedWithoutPost(effects, [RestartRest(expiry), PauseFocus]);
      restTimer := restTimer.Restart(expiry);
      focusTimer := focusTimer.Pause();
      effects := effects + [RestartRest(expiry), PauseFocus];
      timerState := Rest;
    }

    /** `handleResume`: open a new focus period and pause the rest countdown. */
    method HandleResume(now: Instant)
      requires Valid() && clock <= now
      modifies this
      ensures Valid() && clock == now
      ensures timerState == Focus && timeFrom == Some(now) && timers == old(timers)
      ensures focusTimer == Countdown(now + 60_000 * timers.focus, true)
      ensures restTimer == old(restTimer).Pause()
      ensures effects == old(effects) + [RestartFocus(now + 60_000 * timers.focus), PauseRest]
      ensures Posted(effects) == Posted(old(effects))
    {
      HandleStart(now);
      PostedWithoutPost(effects, [PauseRest]);
      restTimer := restTimer.Pause();
      effects := effects + [PauseRest];
      timerState := Focus;
    }

    /**
     * `handleCancel`: zero both durations, go back to PAUSED and pause both
     * countdowns; an open focus period is dropped without being posted.
     */
    method HandleCancel()
      requires Valid()
      modifies this
      ensures Valid()
      ensures timers == Timers(0, 0) && timerState == Paused && timeFrom == old(timeFrom)
      ensures focusTimer == old(focusTimer).Pause() && restTimer == old(restTimer).Pause()
      ensures effects == old(effects) + [PauseFocus, PauseRest]
      ensures Posted(effects) == Posted(old(effects)) && clock == old(clock)
    {
      PostedWithoutPost(effects, [PauseFocus, PauseRest]);
      timers := Timers(0, 0);
      timerState := Paused;
      focusTimer := focusTimer.Pause();
      restTimer := restTimer.Pause();
      effects := effects + [PauseFocus, PauseRest];
    }
  }

  /**
   * One focus period that runs out before the user starts the rest: the expiry posts
   * the session, and the later "start rest" posts nothing more.
   */
  method ExpiredFocusThenRest(mount: Instant, start: Instant, expired: Instant, rest: Instant)
    requires mount <= start <= expired <= rest
    requires start + 60_000 * 25 <= expired
  {
    var screen := new FocusTimeScreen(mount);
    screen.HandleInput(FocusInput, 25);
    screen.HandleInput(RestInput, 5);
    screen.HandleFocus(start);
    screen.OnFocusExpire(expired);
    ghost var before := Posted(screen.effects);
    assert before == [Session(Some(start), expired)];
    screen.HandleRest(rest);
    assert Posted(screen.effects) == before && screen.timerState == Rest;
  }
}
