/**
  The boiler monitor as the program runs it: one object holding the four
  module-level state variables, updated in place by the health check, the
  recovery step and the control loop. Each method is tied to the function of
  the `Supervisor` module that specifies it.
 */
module Monitor {

  import opened Optional
  import opened Notification
  import opened Supervisor

  class BoilerMonitor {
    const config: Config

    // `boiler_ok`, `last_red_seen`, `boiler_failed_time`, `boiler_next_recover_time`
    var boilerOk: bool
    var lastRedSeen: Option<int>
    var failedTime: Option<int>
    var nextRecoverTime: int

    // The latest clock reading, and the slot the recovery time is on.
    ghost var clock: int
    ghost var slot: nat

    function State(): Health
      reads this
    {
      Health(boilerOk, lastRedSeen, failedTime, nextRecoverTime)
    }

    ghost predicate Valid()
      reads this
    {
      Consistent(config, State(), clock) && OnSchedule(config, State(), slot)
    }

    /** The state at start-up; `start` is the clock reading taken when the
        module is loaded. */
    constructor (config: Config, start: int)
      ensures Valid()
      ensures this.config == config && State() == Initial(start) && clock == start
    {
      this.config := config;
      boilerOk := true;
      lastRedSeen := None;
      failedTime := None;
      nextRecoverTime := start;
      clock := start;
      slot := 1;
    }

    /** `boiler_notification_send` for one event: the delivery it makes, and
        whether the transport call raised (only a call that is made can). */
    method Notify(e: Event, transportRaises: bool) returns (delivery: Delivery, raised: bool)
      ensures delivery.Sent? <==> Notifies(config)
      ensures delivery.Sent? ==> && delivery.via == ChooseRoute(config.prod, config.sshHost, config.sshUser, config.mailAddress)
                                 && ParseMailCommand(delivery.command) == Some((StateName(e), config.mailAddress))
      ensures delivery.Dropped? ==> delivery.why == if config.prod then NoAddress else NotProd
      ensures raised <==> transportRaises && delivery.Sent?
    {
      TransportCalledIff(config.prod, config.sshHost, config.sshUser, config.mailAddress);
      delivery := Dispatch(config.prod, config.sshHost, config.sshUser, config.mailAddress, e);
      raised := transportRaises && delivery.Sent?;
    }

    /** `handle_red_seen`, with the clock read at `now`. */
    method HandleRedSeen(now: int, sendRaises: bool) returns (events: seq<Event>, raised: bool)
      requires Valid() && clock <= now
      modifies this
      ensures Valid() && clock == now
      ensures Update(State(), events) == SeeRed(config, old(State()), now)
      ensures raised <==> sendRaises && events != [] && Notifies(config)
    {
      lastRedSeen := Some(now);
      events, raised := [], false;
      if boilerOk {
        boilerOk := false;
        failedTime := Some(now);
        nextRecoverTime := now + config.recoverDelay;
        slot := 1;
        var delivery;
        delivery, raised := Notify(Failed, sendRaises);
        events := [Failed];
      }
      clock := now;
    }

    /** `check_red_timeout`, with the clock read at `now`. */
    method CheckRedTimeout(now: int, sendRaises: bool) returns (events: seq<Event>, raised: bool)
      requires Valid() && clock <= now
      modifies this
      ensures Valid() && clock == now
      ensures Update(State(), events) == CheckTimeout(config, old(State()), now)
      ensures raised <==> sendRaises && events != [] && Notifies(config)
    {
      events, raised := [], false;
      if !boilerOk {
        if lastRedSeen.value + config.redTimeout < now {
          boilerOk := true;
          var delivery;
          delivery, raised := Notify(Recovered, sendRaises);
          events := [Recovered];
        }
      }
      clock := now;
    }

    /** The recovery step of the loop body, with the clock read at `now`. When
        the servo raises, nothing after it runs; when the notification
        raises, the schedule is not advanced. */
    method RecoveryStep(now: int, servo: Servo, sendRaises: bool) returns (attempted: bool, events: seq<Event>, raised: bool)
      requires Valid() && clock <= now
      modifies this
      ensures Valid() && clock == now
      ensures Attempt(State(), events, attempted, raised) == Recover(config, old(State()), now, servo, sendRaises)
    {
      attempted, events, raised := false, [], false;
      if !boilerOk {
        if now > nextRecoverTime {
          attempted := true;
          if servo == ServoRaises {
            raised := true;
          } else {
            var e := if servo == ServoPressed then ButtonPressed else ButtonPressFailed;
            var delivery;
            delivery, raised := Notify(e, sendRaises);
            events := [e];
            if !raised {
              nextRecoverTime := nextRecoverTime + config.recoverDelay;
              slot := slot + 1;
              assert slot * config.recoverDelay == (slot - 1) * config.recoverDelay + config.recoverDelay;
            }
          }
        }
      }
      clock := now;
    }

    /** One pass of the `while True` loop in `main`, with its exception
        handler: an exception ends the pass and leaves the state as it was
        when the exception was raised. */
    method Tick(input: TickInput) returns (events: seq<Event>, attempted: bool, outcome: Outcome)
      requires Valid() && clock <= input.now <= input.recoverNow
      modifies this
      ensures Valid() && clock == input.recoverNow
      ensures TickResult(State(), events, attempted, outcome) == TickStep(config, old(State()), input)
    {
      match input.sense {
        case SenseFault =>
          events, attempted, outcome := [], false, Fault;
        case Seen(red) =>
          var raised;
          if red {
            events, raised := HandleRedSeen(input.now, input.healthSendRaises);
          } else {
            events, raised := CheckRedTimeout(input.now, input.healthSendRaises);
          }
          attempted := false;
          if raised {
            outcome := Fault;
          } else {
            var more;
            attempted, more, raised := RecoveryStep(input.recoverNow, input.servo, input.recoverySendRaises);
            events := events + more;
            outcome := if raised then Fault else if input.stop then Stop else Continue;
          }
      }
      clock := input.recoverNow;
    }

    /** The control loop over the given passes: it ends when the operator
        presses ESC, and otherwise goes on after every pass, faulted or not. */
    method Loop(inputs: seq<TickInput>) returns (events: seq<Event>, stopped: bool, ticks: nat)
      requires Valid() && Monotone(clock, inputs)
      modifies this
      ensures Valid()
      ensures RunResult(State(), events, stopped, ticks) == Run(config, old(State()), inputs)
    {
      ghost var start := State();
      events, stopped := [], false;
      var i := 0;
      assert inputs[0..] == inputs;
      while i < |inputs|
        invariant 0 <= i <= |inputs|
        invariant Valid() && Monotone(clock, inputs[i..])
        invariant Run(config, start, inputs) == After(events, i, Run(config, State(), inputs[i..]))
      {
        ghost var before := State();
        ghost var done := events;
        var more, attempted, outcome := Tick(inputs[i]);
        RunFromPass(config, before, inputs, i, done);
        events := events + more;
        i := i + 1;
        if outcome == Stop {
          stopped := true;
          break;
        }
      }
      ticks := i;
    }
  }
}
