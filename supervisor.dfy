/**
  The supervisory state machine of the boiler monitor, as functions on values:
  the health state with its debounce, the recovery scheduler, one pass of the
  control loop (with the faults it catches) and a whole run of the loop.
  Timestamps are integer clock readings; durations are natural numbers in the
  same unit.
 */
module Supervisor {

  import opened Optional
  import opened Notification

  /** The settings `main` fixes at start-up. */
  datatype Config = Config(
    redTimeout: nat,      // no red for longer than this => boiler OK
    recoverDelay: nat,    // delay until the first button press, and between presses
    prod: bool,           // production mode: notifications are really sent
    sshHost: string,
    sshUser: string,
    mailAddress: string)

  /** Whether a notification under `cfg` makes a transport call (the only
      part of `boiler_notification_send` that can raise). */
  predicate Notifies(cfg: Config) {
    CallsTransport(ChooseRoute(cfg.prod, cfg.sshHost, cfg.sshUser, cfg.mailAddress))
  }

  /** The four module-level state variables: `boiler_ok`, `last_red_seen`,
      `boiler_failed_time` and `boiler_next_recover_time`. */
  datatype Health = Health(ok: bool, lastRedSeen: Option<int>, failedTime: Option<int>, nextRecoverTime: int)

  /** The state at start-up: OK, no red seen yet, and the recovery time set to
      the clock reading `start` taken when the module is loaded. */
  function Initial(start: int): Health {
    Health(true, None, None, start)
  }

  /** While the boiler is failed, both timestamps are set: this is what makes
      the comparison in `check_red_timeout` well defined. */
  predicate Wellformed(h: Health) {
    !h.ok ==> h.lastRedSeen.Some? && h.failedTime.Some?
  }

  /** The invariant of the state with respect to the latest clock reading. */
  ghost predicate Consistent(cfg: Config, h: Health, clock: int) {
    && Wellformed(h)
    && (h.lastRedSeen.Some? <==> h.failedTime.Some?)
    && (h.lastRedSeen.Some? ==> h.lastRedSeen.value <= clock)
    && (h.failedTime.Some? ==> h.failedTime.value <= clock)
    && (!h.ok ==> h.failedTime.value + cfg.recoverDelay <= h.nextRecoverTime)
  }

  /** While failed, the next recovery time is the `k`-th slot after the failure. */
  ghost predicate OnSchedule(cfg: Config, h: Health, k: nat) {
    !h.ok ==> k >= 1 && h.failedTime.Some? && h.nextRecoverTime == h.failedTime.value + k * cfg.recoverDelay
  }

  /** The new state and the events announced by one step of the health machine. */
  datatype Update = Update(health: Health, events: seq<Event>)

  /** `handle_red_seen`: a red observation at `now`. */
  function SeeRed(cfg: Config, h: Health, now: int): (r: Update)
    ensures r.health.lastRedSeen == Some(now) && !r.health.ok
    ensures h.ok ==> && r.health.failedTime == Some(now)
                     && r.health.nextRecoverTime == now + cfg.recoverDelay
                     && r.events == [Failed]
    ensures !h.ok ==> r.health == h.(lastRedSeen := Some(now)) && r.events == []
  {
    var seen := h.(lastRedSeen := Some(now));
    if h.ok then
      Update(seen.(ok := false, failedTime := Some(now), nextRecoverTime := now + cfg.recoverDelay), [Failed])
    else
      Update(seen, [])
  }

  /** `check_red_timeout`: no red observed at `now`. The boiler recovers only
      when strictly more than the timeout has passed since the last red. */
  function CheckTimeout(cfg: Config, h: Health, now: int): (r: Update)
    requires Wellformed(h)
    ensures r.health == h.(ok := r.health.ok)
    ensures r.health.ok <==> h.ok || h.lastRedSeen.value + cfg.redTimeout < now
    ensures r.events == if h.ok == r.health.ok then [] else [Recovered]
  {
    if !h.ok then
      if h.lastRedSeen.value + cfg.redTimeout < now then
        Update(h.(ok := true), [Recovered])
      else
        Update(h, [])
    else
      Update(h, [])
  }

  /** The health part of the loop body (lines 413-417 of the monitor): a red
      observation is handled, otherwise the timeout is checked. Exactly one
      event per change of health, none otherwise. */
  function HealthStep(cfg: Config, h: Health, now: int, red: bool): (u: Update)
    requires Wellformed(h)
    ensures Wellformed(u.health)
    ensures u.events == if h.ok == u.health.ok then [] else if h.ok then [Failed] else [Recovered]
    ensures red ==> !u.health.ok && u.health.lastRedSeen == Some(now)
    ensures !h.ok && u.health.ok <==> !h.ok && !red && h.lastRedSeen.value + cfg.redTimeout < now
    ensures !red ==> u.health == h.(ok := u.health.ok)
    ensures red && !h.ok ==> u.health == h.(lastRedSeen := Some(now))
    // An OK boiler fails only on red, and then arms the failure and recovery times.
    ensures h.ok && !red ==> u == Update(h, [])
    ensures h.ok && red ==> && u.health.failedTime == Some(now)
                            && u.health.nextRecoverTime == now + cfg.recoverDelay
  {
    if red then SeeRed(cfg, h, now) else CheckTimeout(cfg, h, now)
  }

  /** What `run_servo` does: completes the press, reports that the serial
      port could not be opened, or raises after opening it. */
  datatype Servo = ServoPressed | ServoUnavailable | ServoRaises

  /** The result of the recovery step: new state, announced events, whether
      the actuator was run, and whether an exception left the step. */
  datatype Attempt = Attempt(health: Health, events: seq<Event>, attempted: bool, faulted: bool)

  /** The recovery step of the loop body, read at `now`. An exception from the
      servo or from the notification's transport skips the rest of the step,
      including the advance of the schedule. */
  function Recover(cfg: Config, h: Health, now: int, servo: Servo, sendRaises: bool): (r: Attempt)
    ensures r.attempted <==> !h.ok && now > h.nextRecoverTime
    ensures r.health == h.(nextRecoverTime := r.health.nextRecoverTime)
    ensures r.health.nextRecoverTime
      == if r.attempted && !r.faulted then h.nextRecoverTime + cfg.recoverDelay else h.nextRecoverTime
    ensures r.attempted && servo == ServoPressed ==> r.events == [ButtonPressed]
    ensures r.attempted && servo == ServoUnavailable ==> r.events == [ButtonPressFailed]
    ensures !r.attempted || servo == ServoRaises ==> r.events == []
    ensures r.faulted <==> r.attempted && (servo == ServoRaises || (sendRaises && Notifies(cfg)))
  {
    if !h.ok && now > h.nextRecoverTime then
      if servo == ServoRaises then
        Attempt(h, [], true, true)
      else
        var e := if servo == ServoPressed then ButtonPressed else ButtonPressFailed;
        if sendRaises && Notifies(cfg) then
          Attempt(h, [e], true, true)
        else
          Attempt(h.(nextRecoverTime := h.nextRecoverTime + cfg.recoverDelay), [e], true, false)
    else
      Attempt(h, [], false, false)
  }

  /** What the frame capture yields: an exception, or whether red is present. */
  datatype Sense = SenseFault | Seen(red: bool)

  /** Everything from outside that one pass of the loop depends on: the clock
      reading of the health check and of the recovery check, the camera, the
      servo, whether the transport raises for the health notification and
      for the recovery notification, and whether the operator pressed ESC. */
  datatype TickInput = TickInput(
    now: int,
    recoverNow: int,
    sense: Sense,
    healthSendRaises: bool,
    servo: Servo,
    recoverySendRaises: bool,
    stop: bool)

  /** How a pass ends: the loop goes on, the loop stops (ESC), or an exception
      was caught by the handler and the loop goes on after the cooldown. */
  datatype Outcome = Continue | Stop | Fault

  datatype TickResult = TickResult(health: Health, events: seq<Event>, attempted: bool, outcome: Outcome)

  /** The announcement of a change of health: FAIL on the way down, OK on the way up. */
  function EdgeEvents(before: Health, after: Health): seq<Event> {
    if before.ok == after.ok then [] else if before.ok then [Failed] else [Recovered]
  }

  /** The announcement of an actuator run; none when the servo raised. */
  function PressEvents(attempted: bool, servo: Servo): seq<Event> {
    if !attempted then []
    else match servo
      case ServoPressed => [ButtonPressed]
      case ServoUnavailable => [ButtonPressFailed]
      case ServoRaises => []
  }

  /** The recovery time the recovery check of a pass compares against: armed
      afresh when this pass fails the boiler, otherwise the one already set. */
  function ScheduleBefore(cfg: Config, h: Health, input: TickInput): int {
    if h.ok && input.sense == Seen(true) then input.now + cfg.recoverDelay else h.nextRecoverTime
  }

  /** The notification of the health change of a pass (`before` to `after`)
      made a transport call that raised. */
  predicate HealthNoticeRaised(cfg: Config, before: Health, after: Health, input: TickInput) {
    input.sense.Seen? && EdgeEvents(before, after) != [] && input.healthSendRaises && Notifies(cfg)
  }

  /** One pass of the body of the `while True` loop in `main`. A caught
      exception leaves the state as the interrupted step left it. */
  function TickStep(cfg: Config, h: Health, input: TickInput): (r: TickResult)
    requires Wellformed(h)
    ensures Wellformed(r.health)
    // Events: the health edge of this pass, then the announcement of the actuator run.
    ensures r.events == EdgeEvents(h, r.health) + PressEvents(r.attempted, input.servo)
    // The schedule: armed from the failure time, then advanced from its
    // previous value (not from the clock) after each completed attempt.
    ensures r.attempted ==> !r.health.ok && input.sense.Seen? && input.recoverNow > ScheduleBefore(cfg, h, input)
    ensures input.sense.Seen? && !r.health.ok && !HealthNoticeRaised(cfg, h, r.health, input)
            && input.recoverNow > ScheduleBefore(cfg, h, input)
      ==> r.attempted
    // A raising health notification ends the pass before the recovery step.
    ensures HealthNoticeRaised(cfg, h, r.health, input) ==> !r.attempted
    ensures r.health.nextRecoverTime
      == ScheduleBefore(cfg, h, input) + if r.attempted && r.outcome != Fault then cfg.recoverDelay else 0
    // A tick that sees red leaves the boiler failed; recovery needs a tick
    // without red strictly after the last red plus the timeout.
    ensures input.sense == Seen(true) ==> !r.health.ok && r.health.lastRedSeen == Some(input.now)
    ensures !h.ok && r.health.ok <==>
      !h.ok && input.sense == Seen(false) && h.lastRedSeen.value + cfg.redTimeout < input.now
    ensures input.sense != Seen(true) ==> r.health.lastRedSeen == h.lastRedSeen && r.health.failedTime == h.failedTime
    // Faults: a failed capture changes nothing; the others come from the servo or a transport call.
    ensures input.sense == SenseFault ==> r == TickResult(h, [], false, Fault)
    ensures r.outcome == Fault <==>
      || input.sense == SenseFault
      || HealthNoticeRaised(cfg, h, r.health, input)
      || (r.attempted && (input.servo == ServoRaises || (input.recoverySendRaises && Notifies(cfg))))
    ensures r.outcome != Fault ==> (r.outcome == Stop <==> input.stop)
  {
    match input.sense
    case SenseFault =>
      TickResult(h, [], false, Fault)
    case Seen(red) =>
      var u := HealthStep(cfg, h, input.now, red);
      if u.events != [] && input.healthSendRaises && Notifies(cfg) then
        TickResult(u.health, u.events, false, Fault)
      else
        var a := Recover(cfg, u.health, input.recoverNow, input.servo, input.recoverySendRaises);
        var outcome := if a.faulted then Fault else if input.stop then Stop else Continue;
        TickResult(a.health, u.events + a.events, a.attempted, outcome)
  }

  /** The recovery step advanced the schedule in this pass. */
  predicate Advanced(r: TickResult) {
    r.attempted && r.outcome != Fault
  }

  /** The result of running the loop over a list of inputs. */
  datatype RunResult = RunResult(health: Health, events: seq<Event>, stopped: bool, ticks: nat)

  /** The `while True` loop of `main` over the given passes: it ends only on
      ESC; a caught exception is followed by the next pass with the state kept. */
  function Run(cfg: Config, h: Health, inputs: seq<TickInput>): (r: RunResult)
    requires Wellformed(h)
    ensures Wellformed(r.health)
    ensures r.ticks <= |inputs|
    ensures !r.stopped ==> r.ticks == |inputs|
    ensures r.stopped ==> r.ticks >= 1 && inputs[r.ticks - 1].stop
    decreases |inputs|
  {
    if inputs == [] then
      RunResult(h, [], false, 0)
    else
      var t := TickStep(cfg, h, inputs[0]);
      if t.outcome == Stop then
        RunResult(t.health, t.events, true, 1)
      else
        var rest := Run(cfg, t.health, inputs[1..]);
        RunResult(rest.health, t.events + rest.events, rest.stopped, rest.ticks + 1)
  }

  /** How the first pass ends the loop: the run stops after exactly one pass
      iff that pass completed without an exception and ESC was pressed; a pass
      that faulted, ESC or not, is followed by the next pass with the state it
      left. */
  lemma RunStopsOnlyOnCompletedEsc(cfg: Config, h: Health, inputs: seq<TickInput>)
    requires Wellformed(h) && inputs != []
    ensures var t := TickStep(cfg, h, inputs[0]);
      Run(cfg, h, inputs).stopped && Run(cfg, h, inputs).ticks == 1 <==> t.outcome != Fault && inputs[0].stop
    ensures var t := TickStep(cfg, h, inputs[0]);
      t.outcome == Fault ==> Run(cfg, h, inputs) == After(t.events, 1, Run(cfg, t.health, inputs[1..]))
  {
    var t := TickStep(cfg, h, inputs[0]);
    if t.outcome != Stop {
      var rest := Run(cfg, t.health, inputs[1..]);
      assert Run(cfg, h, inputs).ticks == rest.ticks + 1;
    }
  }

  /** Each change of health is announced exactly once in its pass, and at
      most one actuator run is announced. */
  lemma TickAnnouncesEachEdgeOnce(cfg: Config, h: Health, input: TickInput)
    requires Wellformed(h)
    ensures var r := TickStep(cfg, h, input);
      && multiset(r.events)[Failed] == (if h.ok && !r.health.ok then 1 else 0)
      && multiset(r.events)[Recovered] == (if !h.ok && r.health.ok then 1 else 0)
      && multiset(r.events)[ButtonPressed] + multiset(r.events)[ButtonPressFailed]
         == (if r.attempted && input.servo != ServoRaises then 1 else 0)
  {
    var r := TickStep(cfg, h, input);
    var edge, press := EdgeEvents(h, r.health), PressEvents(r.attempted, input.servo);
    assert multiset(r.events) == multiset(edge) + multiset(press);
  }

  /** One pass keeps the invariant, with the clock moved to its last reading. */
  lemma TickKeepsConsistent(cfg: Config, h: Health, clock: int, input: TickInput)
    requires Consistent(cfg, h, clock)
    requires clock <= input.now <= input.recoverNow
    ensures Consistent(cfg, TickStep(cfg, h, input).health, input.recoverNow)
  {
  }

  /** While failed, the recovery time stays on the grid of slots laid from the
      failure time: a pass that fails the boiler arms slot 1, a completed
      attempt moves to the next slot, and nothing else moves it. */
  lemma TickKeepsSchedule(cfg: Config, h: Health, k: nat, input: TickInput)
    requires Wellformed(h) && OnSchedule(cfg, h, k)
    ensures var r := TickStep(cfg, h, input);
      OnSchedule(cfg, r.health, (if h.ok then 1 else k) + if Advanced(r) then 1 else 0)
  {
    var r := TickStep(cfg, h, input);
    var k0: nat := if h.ok then 1 else k;
    if !r.health.ok {
      assert r.health.failedTime.value == if h.ok then input.now else h.failedTime.value;
      assert ScheduleBefore(cfg, h, input) == r.health.failedTime.value + k0 * cfg.recoverDelay;
      if Advanced(r) {
        assert (k0 + 1) * cfg.recoverDelay == k0 * cfg.recoverDelay + cfg.recoverDelay;
      }
    }
  }

  /** Overdue attempts are not skipped: when the recovery time is more than one
      delay behind the clock, the next pass that still sees red makes another
      attempt right away. */
  lemma OverdueAttemptsRunBackToBack(cfg: Config, h: Health, first: TickInput, second: TickInput)
    requires Wellformed(h) && !h.ok
    requires first.sense == Seen(true) && second.sense == Seen(true)
    requires !first.healthSendRaises && !second.healthSendRaises
    requires first.servo != ServoRaises && !first.recoverySendRaises
    requires first.recoverNow > h.nextRecoverTime + cfg.recoverDelay
    requires second.recoverNow >= first.recoverNow
    ensures TickStep(cfg, h, first).attempted
    ensures TickStep(cfg, TickStep(cfg, h, first).health, second).attempted
  {
  }

  /** The clock readings of the passes never go backwards. */
  ghost predicate Monotone(clock: int, inputs: seq<TickInput>)
    decreases |inputs|
  {
    inputs == [] ||
    (clock <= inputs[0].now <= inputs[0].recoverNow && Monotone(inputs[0].recoverNow, inputs[1..]))
  }

  /** The last clock reading of the passes (or `clock` if there are none). */
  function LastReading(clock: int, inputs: seq<TickInput>): int
    decreases |inputs|
  {
    if inputs == [] then clock else LastReading(inputs[0].recoverNow, inputs[1..])
  }

  lemma {:induction false} LastReadingIsLatest(clock: int, inputs: seq<TickInput>)
    requires Monotone(clock, inputs)
    ensures clock <= LastReading(clock, inputs)
    decreases |inputs|
  {
    if inputs != [] {
      LastReadingIsLatest(inputs[0].recoverNow, inputs[1..]);
    }
  }

  /** Every run of the loop keeps the invariant: in particular the last red and
      the failure time never lie after the latest clock reading, and both are
      set whenever the boiler is failed. */
  lemma {:induction false} RunKeepsConsistent(cfg: Config, h: Health, clock: int, inputs: seq<TickInput>)
    requires Consistent(cfg, h, clock) && Monotone(clock, inputs)
    ensures Consistent(cfg, Run(cfg, h, inputs).health, LastReading(clock, inputs))
    decreases |inputs|
  {
    if inputs != [] {
      var t := TickStep(cfg, h, inputs[0]);
      TickKeepsConsistent(cfg, h, clock, inputs[0]);
      LastReadingIsLatest(inputs[0].recoverNow, inputs[1..]);
      if t.outcome != Stop {
        RunKeepsConsistent(cfg, t.health, inputs[0].recoverNow, inputs[1..]);
      }
    }
  }

  /** Every run of the loop keeps the recovery time on the grid of slots. */
  lemma {:induction false} RunKeepsSchedule(cfg: Config, h: Health, k: nat, inputs: seq<TickInput>)
    requires Wellformed(h) && OnSchedule(cfg, h, k)
    ensures exists k': nat :: OnSchedule(cfg, Run(cfg, h, inputs).health, k')
    decreases |inputs|
  {
    if inputs == [] {
      assert OnSchedule(cfg, Run(cfg, h, inputs).health, k);
    } else {
      var t := TickStep(cfg, h, inputs[0]);
      var k1: nat := (if h.ok then 1 else k) + if Advanced(t) then 1 else 0;
      TickKeepsSchedule(cfg, h, k, inputs[0]);
      if t.outcome == Stop {
        assert OnSchedule(cfg, Run(cfg, h, inputs).health, k1);
      } else {
        RunKeepsSchedule(cfg, t.health, k1, inputs[1..]);
        var k2: nat :| OnSchedule(cfg, Run(cfg, t.health, inputs[1..]).health, k2);
        assert Run(cfg, h, inputs).health == Run(cfg, t.health, inputs[1..]).health;
        assert OnSchedule(cfg, Run(cfg, h, inputs).health, k2);
      }
    }
  }

  /** A run result with `events` announced and `ticks` passes made before it. */
  function After(events: seq<Event>, ticks: nat, r: RunResult): RunResult {
    RunResult(r.health, events + r.events, r.stopped, ticks + r.ticks)
  }

  /** Running from pass `i` is that pass followed by the run from pass `i + 1`,
      unless the pass stops the loop. */
  lemma RunFromPass(cfg: Config, h: Health, inputs: seq<TickInput>, i: nat, events: seq<Event>)
    requires Wellformed(h) && i < |inputs|
    ensures var t := TickStep(cfg, h, inputs[i]);
      After(events, i, Run(cfg, h, inputs[i..])) ==
        if t.outcome == Stop then RunResult(t.health, events + t.events, true, i + 1)
        else After(events + t.events, i + 1, Run(cfg, t.health, inputs[i + 1..]))
  {
    var t := TickStep(cfg, h, inputs[i]);
    assert inputs[i..][0] == inputs[i] && inputs[i..][1..] == inputs[i + 1..];
    if t.outcome != Stop {
      var rest := Run(cfg, t.health, inputs[i + 1..]);
      assert events + (t.events + rest.events) == (events + t.events) + rest.events;
    }
  }

  /** Until red is first seen the boiler stays OK and nothing is announced. */
  lemma {:induction false} RunWithoutRedStaysOk(cfg: Config, h: Health, inputs: seq<TickInput>)
    requires h.ok
    requires forall i :: 0 <= i < |inputs| ==> inputs[i].sense != Seen(true)
    ensures Run(cfg, h, inputs).health.ok && Run(cfg, h, inputs).events == []
    decreases |inputs|
  {
    if inputs != [] {
      var t := TickStep(cfg, h, inputs[0]);
      assert t.health.ok && t.events == [];
      if t.outcome != Stop {
        RunWithoutRedStaysOk(cfg, t.health, inputs[1..]);
      }
    }
  }
}
