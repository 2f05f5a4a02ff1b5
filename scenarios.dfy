/**
  Concrete runs of the supervisor with the default settings of the monitor's
  command line: a red timeout of 20 and a recovery delay of 600 (seconds).
 */
module Scenarios {

  import opened Optional
  import opened Notification
  import opened Supervisor

  const Defaults := Config(20, 600, false, "", "", "")

  /** A pass without faults or ESC, with both clock readings at `t`. */
  function Pass(t: int, red: bool, servo: Servo): TickInput {
    TickInput(t, t, Seen(red), false, servo, false, false)
  }

  /** Red at 0 and 5, then none: the boiler is still failed at 25 (the
      timeout is strict and counts from the last red) and recovers at 26. */
  lemma DebounceCountsFromLastRed()
    ensures var r1 := TickStep(Defaults, Initial(0), Pass(0, true, ServoPressed));
            var r2 := TickStep(Defaults, r1.health, Pass(5, true, ServoPressed));
            var r3 := TickStep(Defaults, r2.health, Pass(25, false, ServoPressed));
            var r4 := TickStep(Defaults, r3.health, Pass(26, false, ServoPressed));
            && r1.events == [Failed] && r2.events == [] && r3.events == []
            && !r3.health.ok && r4.health.ok && r4.events == [Recovered]
            && !r1.attempted && !r2.attempted && !r3.attempted && !r4.attempted
  {
  }

  /** Red at 0 only: recovered at 21, long before the first press at 600. */
  lemma RecoveryBeforeFirstPress()
    ensures var r1 := TickStep(Defaults, Initial(0), Pass(0, true, ServoPressed));
            var r2 := TickStep(Defaults, r1.health, Pass(20, false, ServoPressed));
            var r3 := TickStep(Defaults, r2.health, Pass(21, false, ServoPressed));
            && r1.health.nextRecoverTime == 600
            && !r2.health.ok && r2.events == []
            && r3.health.ok && r3.events == [Recovered]
  {
  }

  /** A servo that raises at 601 announces nothing and leaves the recovery
      time at 600, so the pass after the cooldown presses again; that press
      moves the recovery time to 1200. */
  lemma ServoFaultRetriesAfterCooldown()
    ensures var r1 := TickStep(Defaults, Initial(0), Pass(0, true, ServoPressed));
            var r2 := TickStep(Defaults, r1.health, Pass(601, true, ServoRaises));
            var r3 := TickStep(Defaults, r2.health, Pass(611, true, ServoPressed));
            && r2.attempted && r2.outcome == Fault && r2.events == []
            && r2.health == r1.health.(lastRedSeen := Some(601))
            && r3.attempted && r3.outcome == Continue && r3.events == [ButtonPressed]
            && r3.health.nextRecoverTime == 1200
  {
  }

  /** In production mode, a press whose notification raises is announced
      again on the next pass, because the schedule was not advanced. */
  lemma NotificationFaultRepeatsPress()
    ensures var cfg := Defaults.(prod := true, mailAddress := "ops@example.org");
            var r1 := TickStep(cfg, Initial(0), Pass(0, true, ServoPressed));
            var r2 := TickStep(cfg, r1.health, TickInput(601, 601, Seen(true), false, ServoUnavailable, true, false));
            var r3 := TickStep(cfg, r2.health, Pass(611, true, ServoUnavailable));
            && r2.outcome == Fault && r2.events == [ButtonPressFailed] && r2.health.nextRecoverTime == 600
            && r3.outcome == Continue && r3.events == [ButtonPressFailed] && r3.health.nextRecoverTime == 1200
  {
  }
}
