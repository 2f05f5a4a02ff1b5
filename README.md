# Boiler monitor: the supervisory state machine

The boiler monitor watches a boiler's warning light through a camera. A red
light fails the boiler. While the boiler is failed, a servo presses the
boiler's reset button every `delay` seconds. The monitor mails a notification
when the boiler fails, when it recovers, and on every button press. This
project models the supervisory core of `boiler-monitor.py` in Dafny:

- **Health state machine** (`handle_red_seen`, `check_red_timeout`). The four
  module-level variables (`boiler_ok`, `last_red_seen`, `boiler_failed_time`,
  `boiler_next_recover_time`) go OK → FAILED on a red observation. They go
  back to OK only when strictly more than the red timeout has passed since the
  *last* red observation (the debounce).
- **Recovery scheduler** (the FAILED branch of the loop body). One servo
  attempt per pass once the clock passes the recovery time. A notification
  chosen by the attempt's outcome. The schedule is advanced from its previous
  value, not from the clock.
- **Notification routing** (`boiler_notification_send` and its four wrappers).
  Each event has one fixed state string. The transport choice is no send (not
  production mode), no send (no address), ssh, or local shell. The mail
  command string is built from the state string and the address.
- **Control loop** (the body of `while True` in `main` and its `except`
  handler). A caught exception keeps the state. Within the model the loop
  ends only on ESC (an interrupt that the handler does not catch is left out).

Layout:

- `optional.dfy`: `Option`, the model of a Python `None` timestamp.
- `notification.dfy` (module `Notification`): pure functions. These are the
  event names, the route, the mail command, a parser that reads the command
  back, and the dispatch of an event.
- `supervisor.dfy` (module `Supervisor`): the specification on values.
  - One function per step: `SeeRed`, `CheckTimeout`, `Recover`, `TickStep`
    and `Run`.
  - The invariants: `Consistent` (timestamps set while failed and never ahead
    of the clock) and `OnSchedule` (the recovery time is the failure time
    plus k delays, k ≥ 1).
  - The lemmas about runs.
- `monitor.dfy` (module `Monitor`): class `BoilerMonitor`. Its mutable fields
  are the four globals. Its methods `HandleRedSeen`, `CheckRedTimeout`,
  `RecoveryStep`, `Tick` and `Loop` update them in place. Each method is
  proved to produce exactly the state and events of the matching `Supervisor`
  function. `Valid()` (the two invariants) is kept by every method.
- `scenarios.dfy`: concrete runs with the command line's default settings
  (timeout 20, delay 600).

Time is an integer clock reading supplied by the caller. `TickStep` takes two
readings: one for the health check (lines 268 and 289) and one for the
recovery check (line 421). A notification sent over ssh can come between
them. Exceptions are an outcome (`Fault`). They can come from the frame
capture, from a transport call, or from the servo after the port opened.

Behaviour the code has and the model keeps:

- The debounce is strict (`<` at line 269). After a red at 5 with a timeout of
  20, a reading at 25 leaves the boiler failed. The boiler recovers at the
  first reading after 25 (`Scenarios.DebounceCountsFromLastRed`).
- In the recovery step, an exception raised by `run_servo` after the port
  opened skips everything after it. No BUTTON_PRESS_FAILED_ERROR is sent and
  line 428 does not run. Only a failure to open the port gives that
  notification. An exception from the notification's transport also skips
  line 428. In both cases the recovery time stays where it was, so the next
  pass after the 10-second cooldown tries again
  (`Scenarios.ServoFaultRetriesAfterCooldown`,
  `Scenarios.NotificationFaultRepeatsPress`).
- Overdue attempts are not skipped. Advancing from the scheduled value can
  leave the recovery time behind the clock. Then the following passes press
  back to back (`Supervisor.OverdueAttemptsRunBackToBack`).

## Model

| member | source | states |
|---|---|---|
| `Notification.StateName` | boiler-monitor.py:234-256 | FAIL, BUTTON_PRESS, BUTTON_PRESS_FAILED_ERROR, OK: each event has one fixed, non-empty state string without a single quote |
| `Notification.StateNameInjective` | boiler-monitor.py:234-256 | two events share a state string iff they are the same event |
| `Notification.ChooseRoute` | boiler-monitor.py:214-227 | no send iff not production mode; no address iff production mode with an empty address; ssh iff production mode with host, user and address all set; local shell iff production mode with an address and host or user empty |
| `Notification.TransportCalledIff` | boiler-monitor.py:214-227 | a transport call is made iff production mode is on and an address is set |
| `Notification.MailCommand` | boiler-monitor.py:212 | the command starts with `echo 'Boiler <state>`, ends with the address, and its length is that of its pieces |
| `Notification.ParseMailCommand` | boiler-monitor.py:212 | any command the parser accepts is the mail command of the state and address it returns |
| `Notification.ParseMailCommandRoundTrip` | boiler-monitor.py:212 | for a state string without a single quote, parsing the mail command gives back the state and the address |
| `Notification.MailCommandIdentifiesEvent` | boiler-monitor.py:212-256 | two mail commands are equal iff they announce the same event to the same address |
| `Notification.Dispatch` | boiler-monitor.py:206-231 | one event leads to a transport call iff production mode is on and an address is set; the call goes by the chosen route, with a command that parses back to the event's state string and the address; otherwise the drop reason is "not production mode" or "no address" |
| `Notification.DispatchAll` | boiler-monitor.py:206-231 | the deliveries of a list of events are, in order, the dispatch of each event |
| `Notification.TransportCallsCounted` | boiler-monitor.py:214-227 | outside production mode no number of events makes a transport call; with an address, every event makes exactly one |
| `Supervisor.SeeRed` | boiler-monitor.py:277-299 | a red observation always sets the last red to now and leaves the boiler failed; from OK it sets the failure time to now, arms the recovery time at now + delay and announces exactly one FAIL; when already failed only the last red changes and nothing is announced |
| `Supervisor.CheckTimeout` | boiler-monitor.py:259-274 | only the health flag can change; the boiler is OK afterwards iff it was OK or last red + timeout < now (strict); exactly one OK is announced on that change, nothing otherwise |
| `Supervisor.HealthStep` | boiler-monitor.py:412-417 | red and timeout handling are exclusive: an OK boiler without red stays exactly as it was and announces nothing; an OK boiler seeing red fails with the failure time now and the recovery time now + delay; a red pass leaves the boiler failed, and the boiler recovers iff it was failed, saw no red, and the timeout has passed strictly; one event per change of health, none otherwise |
| `Supervisor.Recover` | boiler-monitor.py:419-430 | an attempt is made iff the boiler is failed and now > the recovery time (strict); it announces BUTTON_PRESS on success, BUTTON_PRESS_FAILED_ERROR when the port could not be opened, and nothing when the servo raises; the recovery time moves by exactly one delay from its previous value iff the attempt completed without an exception; no other field changes |
| `Supervisor.TickStep` | boiler-monitor.py:405-443 | one pass announces the health change, then the press; a red pass never recovers; recovery iff failed, no red, and the timeout has passed strictly; the recovery time is armed on failure and moved only by a completed attempt; a failed capture changes nothing; the pass faults iff the capture raised, the health notification's transport raised, or an attempt was made and the servo or the press notification's transport raised; a raising health notification ends the pass before the recovery step; without a fault, the pass stops iff ESC was pressed |
| `Supervisor.Run` | boiler-monitor.py:405-443 | if the loop stops, it stops on a pass where ESC was pressed; if it does not stop, every pass is made; the state stays well formed (that a completed ESC pass does stop the loop and a faulted pass never does is `Supervisor.RunStopsOnlyOnCompletedEsc`) |
| `Supervisor.RunStopsOnlyOnCompletedEsc` | boiler-monitor.py:405-443 | the loop stops after the first pass iff that pass completed without an exception and ESC was pressed; after a faulted pass, ESC or not, the run goes on from the next pass with the state the pass left |
| `Supervisor.RunFromPass` | boiler-monitor.py:405-443 | running from pass i is that pass followed by the run from pass i + 1, unless the pass stops the loop |
| `Supervisor.TickAnnouncesEachEdgeOnce` | boiler-monitor.py:266-299 | in each pass, FAIL is announced exactly once on an OK-to-FAILED change and never otherwise; OK is announced exactly once on a FAILED-to-OK change and never otherwise; at most one press is announced |
| `Supervisor.TickKeepsConsistent` | boiler-monitor.py:289-296 | a pass keeps the invariant: while failed, the last red and the failure time are set (so the comparison at line 269 is defined), and neither lies after the latest clock reading |
| `Supervisor.TickKeepsSchedule` | boiler-monitor.py:419-430 | while failed, the recovery time is the failure time + k delays; a pass that fails the boiler arms k = 1, and a completed attempt moves to k + 1 |
| `Supervisor.OverdueAttemptsRunBackToBack` | boiler-monitor.py:421-428 | when the boiler is failed, both passes see red with no raising health notification, the first attempt completes without a raise (servo does not raise, its notification does not raise), and the first pass's recovery reading is more than one delay past the recovery time, then the first pass attempts and so does the second, read no earlier |
| `Supervisor.RunKeepsConsistent` | boiler-monitor.py:405-443 | every run with clock readings that never go backwards keeps the invariant up to its last reading |
| `Supervisor.RunKeepsSchedule` | boiler-monitor.py:405-443 | after every run the recovery time is on the failure time + k delays grid for some k |
| `Supervisor.RunWithoutRedStaysOk` | boiler-monitor.py:413-417 | starting OK, a run that never sees red stays OK and announces nothing |
| `Monitor.BoilerMonitor.constructor` | boiler-monitor.py:116-129 | start-up state: OK, no red seen, no failure time, recovery time at the load-time clock reading |
| `Monitor.BoilerMonitor.Notify` | boiler-monitor.py:206-231 | the delivery is a transport call iff notifications are enabled; it goes by the chosen route with a command that parses back to the event and address; only a call that is made can raise |
| `Monitor.BoilerMonitor.HandleRedSeen` | boiler-monitor.py:277-299 | the new fields and the events are exactly those of `SeeRed`; a raise is possible only when FAIL is actually sent |
| `Monitor.BoilerMonitor.CheckRedTimeout` | boiler-monitor.py:259-274 | the new fields and the events are exactly those of `CheckTimeout` |
| `Monitor.BoilerMonitor.RecoveryStep` | boiler-monitor.py:419-430 | the new fields, events, attempt and fault are exactly those of `Recover`; the invariant and the schedule grid are kept |
| `Monitor.BoilerMonitor.Tick` | boiler-monitor.py:405-443 | the new fields, events, attempt and outcome are exactly those of `TickStep`; the exception handler changes no field |
| `Monitor.BoilerMonitor.Loop` | boiler-monitor.py:405-443 | the final fields, the events, whether ESC stopped the loop, and the pass count are exactly those of `Run` |
| `Scenarios.DebounceCountsFromLastRed` | boiler-monitor.py:266-299 | red at 0 and 5: FAIL at 0, still failed at 25, OK at 26, no press |
| `Scenarios.RecoveryBeforeFirstPress` | boiler-monitor.py:266-299 | red at 0 only: press scheduled at 600, still failed at 20, OK at 21 |
| `Scenarios.ServoFaultRetriesAfterCooldown` | boiler-monitor.py:419-443 | a servo raising at 601 announces nothing and keeps 600 as the recovery time; the press at 611 announces BUTTON_PRESS and moves it to 1200 |
| `Scenarios.NotificationFaultRepeatsPress` | boiler-monitor.py:419-443 | a notification raising at 601 keeps the recovery time at 600, so the next pass announces BUTTON_PRESS_FAILED_ERROR again |

## Left out

- `check_for_red` (lines 29-110): frame capture, HSV thresholding, morphology, contours and display are image-library calls. Each pass gets their effect as an input: red present, red absent, or an exception.
- `run_servo` (lines 141-171): serial I/O and its sleeps. Only its outcome is an input: pressed, port not opened (`False`), or raised after opening.
- `run_ssh_cmd` / `run_shell_cmd` (lines 174-203): networking and processes. The model records which transport is chosen and whether the call raises. Their boolean result is only logged, so it is not modelled.
- `get_args` and the setup in `main` (lines 305-403): argument parsing, logging setup and the `--trigger-finger` mode. The settings are a fixed `Config`. Durations are natural numbers; a negative `--delay` or `--red-timeout` is not modelled, nor durations so large that `datetime` arithmetic overflows (the `+` of lines 269, 296 and 428 raising `OverflowError` past year 9999); clock values are unbounded integers.
- Real time: `datetime.now`, `time.sleep(0.095)`, the 10-second cooldown and `cv2.waitKey`. Time is integer readings supplied per pass. The cooldown shows only as a later reading in the next pass. ESC is an input flag.
- `Supervisor.Run`, `Supervisor.RunStopsOnlyOnCompletedEsc`: the handler at line 439 catches only `Exception`; a `KeyboardInterrupt` (Ctrl-C, e.g. during `time.sleep` at lines 438 or 442) or `SystemExit` ends the loop without ESC. Such interrupts are not modelled.
- `Supervisor.SeeRed`: `handle_red_seen` reads the clock twice (lines 289 and 295) with only a log call between. The model uses one reading for both `last_red_seen` and `boiler_failed_time`.
- `Supervisor.TickStep`: the only raising points modelled are the capture, the servo and the transport call. An exception inside logging or inside `cv2.waitKey` is not modelled.
- `Monitor.BoilerMonitor.Tick`, `Monitor.BoilerMonitor.Loop`, `Supervisor.TickKeepsConsistent`, `Supervisor.RunKeepsConsistent`: the clock readings are assumed never to go backwards (`Monotone`). `datetime.now` is a local wall clock that can step back; the invariant `Consistent` (no timestamp after the latest reading) relies on that assumption.
- The `notification_sent` global (line 121) is never read, and the log lines carry no state.
