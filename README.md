# Pump controller: a Dafny model

This project models the firmware of a remotely operated irrigation pump. The
device takes JSON commands over MQTT: `On` with an `irr_time` in minutes,
`Emergency Halt` and `Stop`. It only runs inside a daily window, 07:00–09:00
and 16:00–19:00 local time. It tracks the total and the remaining run time
across a halt and a resume, turns the relay on and off, and publishes a
status message after each transition.

The model has five files:

- `clock.dfy` (module `Clock`): the local time of day the firmware reads,
  the irrigation-window predicate `isIrrigationTime`, and the `HH:MM:SS`
  text of the status message's `current_time` field.
- `controller.dfy` (module `PumpController`): the five global state
  variables as a `ControllerState` value. It holds the command handler
  (`callback` after JSON parsing) as the function `OnCommand`, the
  once-per-second `handleStateTransitions` as `OnTick`, and the fields of
  `publishStatus` as `Snapshot`. Class `Controller` holds the same five
  variables as mutable fields. Its methods `HandleCommand` and `Tick` update
  them step by step, in the order the firmware does, through `ControlPump`
  for the relay flag, and publish through `PublishStatus`, which changes
  nothing and returns `Snapshot` of the current fields. `HandleCommand` and
  `Tick` are proved to agree with `OnCommand` and `OnTick`, and keep the
  invariant `Inv`:
  - the pump runs exactly while the controller is irrigating;
  - an idle controller holds no duration and no remaining time;
  - the remaining time never exceeds the duration, and the duration never
    exceeds 480 minutes.
- `controller_props.dfy` (module `PumpControllerProperties`): the command
  table branch by branch, the tick case by case, the rejections, and
  invariants over whole chronological runs of commands and ticks. It also
  holds the status fields, two worked scenarios, and the finding below.
- `web_portal.dfy` (module `WebPortal`): the provisioning portal's
  configuration rules. These are the `Config` record and its defaults,
  `isConfigValid`, the update and validation rules of the `/save` handler
  (including `String::toInt` for the port), and the mapping of fields to and
  from `/config.json`. It also has the `portalActive` guard of
  `startPortal`/`stopPortal`.
- `wrappers.dfy` (module `Wrappers`): `Option`.

The model takes these things as parameters:

- `millis()` is a `nat` argument `nowMs`. The only requirement is that it
  is not earlier than the stored start time, because the clock is monotonic.
- `getLocalTime` is an argument `clock: Option<LocalTime>`, where `None`
  means no local time is available.
- The parsed message is `Option<Message>`, where `None` means the JSON did
  not parse.
- The file system's ability to create `/config.json` is a `bool`.

Points of the code that the model follows as written:

- Unlike the halt command (src/main.cpp:282-283), the halt forced by the
  tick when the window closes (src/main.cpp:315-318) does not recompute the
  remaining time. It keeps the value stored by the last in-window tick, at
  most one tick stale.
- `Stop` is accepted in every state, FAULT included (src/main.cpp:288).
- No command or tick enters FAULT. A tick in FAULT only turns the pump off.
- A missing `irr_time` reads as 0 and is rejected by the lower bound, not
  as a missing field.

## Model

| member | source | states |
|---|---|---|
| `Clock.IsIrrigationTime` | src/main.cpp:390-398 | the window is never open without a local time, and never at or after 19:00 |
| `Clock.WindowIsFiveHours` | src/main.cpp:390-398 | the window is open iff a local time is available and its hour is one of 7, 8, 16, 17, 18 |
| `Clock.WindowIgnoresMinutesAndSeconds` | src/main.cpp:396-397 | two times with the same hour get the same answer: minutes and seconds never matter |
| `Clock.FormatClock` | src/main.cpp:378-380 | `%H:%M:%S` is eight characters with colons at positions 2 and 5 |
| `Clock.ParseFormatClock` | src/main.cpp:376-381 | the printed `current_time` reads back as exactly the time it was printed from |
| `PumpController.DurationMs` | src/main.cpp:265 | the duration is `irr_time` minutes truncated to whole milliseconds (within 1 ms below the exact value) and at most 28 800 000 ms for an accepted `irr_time` |
| `PumpController.HaltRemainingAsWritten` | src/main.cpp:282-283 | the halt's `unsigned long` subtraction is exact while elapsed ≤ duration and otherwise yields 2^32 − (elapsed − duration) |
| `PumpController.HaltRemaining` | src/main.cpp:282-283 | the corrected halt subtraction: duration − elapsed while elapsed ≤ duration, 0 past the end, never above the duration |
| `PumpController.StateName` | src/main.cpp:362-368 | each state's published name reads back as that state |
| `PumpController.Snapshot` | src/main.cpp:359-381 | the status's state name reads back as the state, its minutes are floor(remaining / 60000), and the window is reported open only when a time (and so `current_time`) is present |
| `PumpController.OnCommand` | src/main.cpp:215-305 | a command never sets the start time in the future and never enters FAULT |
| `PumpController.OnTick` | src/main.cpp:307-348 | a tick never changes the start time and neither enters nor leaves FAULT |
| `PumpController.CommandKeepsInv` | src/main.cpp:262-295 | every command keeps pump-on iff irrigating, idle ⇒ zero durations, remaining ≤ duration ≤ 480 min |
| `PumpController.TickKeepsInv` | src/main.cpp:310-346 | every tick keeps the same invariant |
| `PumpController.Controller.constructor` | src/main.cpp:19-23 | the globals start IDLE with zero times and the pump off, which satisfies the invariant |
| `PumpController.Controller.ControlPump` | src/main.cpp:350-351 | `pumpActive` records the last value sent to the relay |
| `PumpController.Controller.PublishStatus` | src/main.cpp:359-381 | the status carries the device id, a state name that reads back as the state, `pumpActive`, the remaining time in whole minutes rounded down, the window verdict, and a `current_time` present iff a clock is available |
| `PumpController.Controller.HandleCommand` | src/main.cpp:215-305 | the in-place update of the five globals equals `OnCommand`, the invariant is kept, and a status is published exactly when `OnCommand` says so |
| `PumpController.Controller.Tick` | src/main.cpp:307-348 | the in-place update equals `OnTick`, the invariant is kept, and publishing follows `OnTick` |
| `PumpControllerProperties.RejectedMessageChangesNothing` | src/main.cpp:228-260 | a malformed message, a foreign device id, or `On` with `irr_time` ≤ 0 or > 480 leaves all five variables unchanged and publishes nothing |
| `PumpControllerProperties.PublishedIffBranchTaken` | src/main.cpp:262-304 | an accepted message publishes iff it is `On` in IDLE or EMERGENCY_HALT inside the window, `Emergency Halt` while IRRIGATING, or `Stop`; otherwise nothing changes |
| `PumpControllerProperties.UnmatchedPairsAreNoOps` | src/main.cpp:296-304 | for a message addressed to this device, whatever its `irr_time`: `On` while IRRIGATING, `On` outside the window and `Emergency Halt` outside IRRIGATING are no-ops |
| `PumpControllerProperties.StartFromIdle` | src/main.cpp:263-271 | `On` from IDLE inside the window starts IRRIGATING at `now` with duration = remaining = `irr_time` minutes truncated to ms, pump on, published |
| `PumpControllerProperties.ResumeFromHalt` | src/main.cpp:272-279 | `On` from EMERGENCY_HALT inside the window resumes with the stored remaining time as the new duration, start = now, pump on |
| `PumpControllerProperties.HaltWhileIrrigating` | src/main.cpp:280-287 | every `Emergency Halt` while IRRIGATING moves to EMERGENCY_HALT with the pump off, publishes, and stores `HaltRemaining(duration, elapsed)`; a halt no later than the run's end stores remaining + elapsed = duration |
| `PumpControllerProperties.StopFromAnyState` | src/main.cpp:288-295 | `Stop` from any state, FAULT included, gives IDLE with both durations 0 and the pump off, and always publishes |
| `PumpControllerProperties.HaltedStateMoves` | src/main.cpp:272-295 | from EMERGENCY_HALT a command either changes nothing, resumes with the stored remaining time, or stops; a tick changes nothing |
| `PumpControllerProperties.TickOutsideWindowHalts` | src/main.cpp:314-318 | outside the window an irrigating controller halts with the pump off and its remaining time left as it was, and publishes |
| `PumpControllerProperties.TickCompletesRun` | src/main.cpp:319-327 | once elapsed ≥ duration the tick goes IDLE with zeros and the pump off, and the next tick is a no-op |
| `PumpControllerProperties.TickCountsDown` | src/main.cpp:328-329 | before the end the tick only sets remaining = duration − elapsed and does not publish |
| `PumpControllerProperties.TickOtherStates` | src/main.cpp:310-346 | IDLE and EMERGENCY_HALT ignore the tick; FAULT only turns the pump off; nothing is published |
| `PumpControllerProperties.Step` | src/main.cpp:122-127 | one event (a delivered message or a loop pass) never sets the start time in the future and never enters FAULT |
| `PumpControllerProperties.RunKeepsInv` | src/main.cpp:104-129 | the invariant holds after any chronological sequence of commands and ticks |
| `PumpControllerProperties.RunNeverFaults` | src/main.cpp:11-16 | starting outside FAULT, no sequence of commands and ticks reaches FAULT |
| `PumpControllerProperties.HaltHeldUntilResumeOrStop` | src/main.cpp:272-295 | a halted controller stays exactly as it is, stored remaining time included, through any events other than `On` and `Stop` |
| `PumpControllerProperties.SnapshotFields` | src/main.cpp:362-381 | every status field reads back as the state it came from: the state name, `pump_active`, the remaining minutes as floor(remaining / 60000), the window verdict, and `current_time` iff a clock is available |
| `PumpControllerProperties.StateNamesDistinct` | src/main.cpp:362-368 | the four states publish four distinct names |
| `PumpControllerProperties.ScenarioTenMinuteRun` | src/main.cpp:263-327 | device P-1 at 07:30 with `On` for 10 min starts a 600 000 ms run; the tick ten minutes later publishes IDLE, pump off, 0 minutes, `07:40:00` |
| `PumpControllerProperties.ScenarioWindowCloses` | src/main.cpp:314-318 | irrigating with 20 minutes stored, the tick at 19:00 halts the pump and publishes 20 minutes with the window closed |
| `PumpControllerProperties.HaltRemainingAgrees` | src/main.cpp:282-283 | the as-written and corrected halt subtractions agree whenever the halt comes no later than the end of the run |
| `PumpControllerProperties.LateHaltWrapsAround` | src/main.cpp:280-287 | a reachable halt 1 s after a one-minute run's end stores 4294966296 ms (71582 min) as written and 0 when corrected |
| `WebPortal.IsConfigValid` | lib/WebPortal/src/WebPortal.cpp:73-77 | a valid configuration is never the constructor's defaults, so a device with nothing loaded is not valid |
| `WebPortal.Decode` | lib/WebPortal/src/WebPortal.cpp:38-44 | a file without a numeric `mqttPort` loads the default port 1883 |
| `WebPortal.ToInt` | lib/WebPortal/src/WebPortal.cpp:131 | text with no digit in it reads as 0 |
| `WebPortal.Submitted` | lib/WebPortal/src/WebPortal.cpp:127-138 | the device id and server are taken from the form, and a stored password is never replaced by an empty one |
| `WebPortal.Verdict` | lib/WebPortal/src/WebPortal.cpp:136-154 | the password check comes first: a missing-password rejection leaves an empty password, and a missing-field rejection happens only with a password present |
| `WebPortal.Encode` | lib/WebPortal/src/WebPortal.cpp:57-64 | `saveConfig` writes exactly the seven configuration keys |
| `WebPortal.DecodeEncode` | lib/WebPortal/src/WebPortal.cpp:38-64 | loading what `saveConfig` wrote gives back all seven fields |
| `WebPortal.ToIntDecimal` | lib/WebPortal/src/WebPortal.cpp:131 | `toInt` reads the decimal digits of any natural number back as that number |
| `WebPortal.ProceedIffValid` | lib/WebPortal/src/WebPortal.cpp:135-157 | a submission passes both checks of `handleSave` iff the configuration it leaves satisfies `isConfigValid` (lines 73-77) |
| `WebPortal.PasswordNeverCleared` | lib/WebPortal/src/WebPortal.cpp:129-145 | a non-blank password replaces the stored one, a blank one keeps it, so a stored password is never cleared |
| `WebPortal.RejectedSubmissionOverwrites` | lib/WebPortal/src/WebPortal.cpp:127-154 | a rejected submission has still overwritten the in-memory fields, and what it leaves is not valid |
| `WebPortal.SubmittedPort` | lib/WebPortal/src/WebPortal.cpp:131 | a port typed as decimal digits is stored as that number |
| `WebPortal.Portal.constructor` | lib/WebPortal/src/WebPortal.cpp:3-12 | the portal starts inactive with empty credentials, port 1883 and topics `topic/pump/command` / `topic/pump/status` |
| `WebPortal.Portal.StartPortal` | lib/WebPortal/src/WebPortal.cpp:80-100 | the portal is active afterwards; the access point and server are brought up only if it was inactive |
| `WebPortal.Portal.StopPortal` | lib/WebPortal/src/WebPortal.cpp:102-109 | the portal is inactive afterwards; they are brought down only if it was active |
| `WebPortal.Portal.IsPortalActive` | lib/WebPortal/src/WebPortal.cpp:117-119 | the flag says whether the last start/stop call brought the portal up |
| `WebPortal.Portal.LoadConfig` | lib/WebPortal/src/WebPortal.cpp:22-48 | a missing or unparsable file fails and leaves the configuration unchanged; a parsed one replaces it field by field |
| `WebPortal.Portal.SaveConfig` | lib/WebPortal/src/WebPortal.cpp:50-71 | when the file can be created it holds the encoded configuration; otherwise the call fails and the file is unchanged |
| `WebPortal.Portal.HandleSave` | lib/WebPortal/src/WebPortal.cpp:125-172 | the configuration becomes the submitted one. The answer is 400 iff a check fails, and then nothing is saved. Otherwise the configuration is valid and the answer is 200 with the file written, or 500 when the file cannot be created |
| `WebPortal.Portal.SaveThenLoad` | lib/WebPortal/src/WebPortal.cpp:22-71 | saving then loading leaves the configuration as it was |

## Findings

| source | as written | input that shows it | evidently intended | confidence | as-written member | corrected member |
|---|---|---|---|---|---|---|
| src/main.cpp:282-283 | `remainingTime = irrigationDuration - elapsed` in `unsigned long` wraps when an `Emergency Halt` arrives after the run's end but before the next 1 Hz tick has completed it | `On` for 1 min at 07:00:00 (t = 0), tick at t = 59.5 s, `Emergency Halt` at t = 61 s: elapsed 61000 > duration 60000 stores 4294966296 ms (71582 min), and a later `On` resumes for that long | the remaining time saturates at 0, so a late halt leaves nothing to resume | high (not executed) | `PumpController.HaltRemainingAsWritten`, `PumpControllerProperties.LateHaltWrapsAround` | `PumpController.HaltRemaining` |

The controller functions and the class use `HaltRemaining`. This is why
the invariant remaining ≤ duration ≤ 480 minutes holds in every state.

## Left out

- WiFi and MQTT connection, the reconnect loops, `setup`, and the body of
  `loop` (src/main.cpp:53-129, 147-173, 193-213) are left out. They are
  network I/O, blocking retries and delays. Only their sequencing is
  modelled, as `Run`: each message is applied fully, and ticks come in
  between.
- NTP synchronisation and `getLocalTime` (src/main.cpp:175-191) are left
  out. The local time is an argument. Within one command or tick, every read
  of the clock is assumed to return the same time.
- ArduinoJson parsing and serialisation are left out. The inbound message is
  the record `Message`, and the outbound message is the record `Status`
  rather than JSON text. A missing `id` or `signal` is not modelled
  separately.
- `irr_time` is a `real` truncated toward zero. Single-precision float
  rounding, and NaN or infinite values, are not modelled.
- `millis()` is unbounded. Its 32-bit wrap-around after about 49.7 days is
  not modelled, and callers must pass a time no earlier than the stored
  start.
- PumpController.OnCommand: does not model the wrap-around of the halt
  subtraction. It uses the corrected `HaltRemaining`; see Findings.
- PumpController.Controller.HandleCommand: does not model the wrap-around
  of the halt subtraction either. It stores the same corrected
  `HaltRemaining`; see Findings.
- GPIO (`pinMode`, `digitalWrite`, `digitalRead`) is left out, because it is
  hardware. So is the debounced configuration button `checkConfigButton`,
  which is hardware input that only starts the portal.
- The serial log output is left out.
- Entry into FAULT and recovery from it are left out. The firmware has none.
- The portal's HTTP server, the soft access point, the HTML page
  (`sendHTML`, `handleRoot`), `handleReset`, `handle`, `begin` (the SPIFFS
  mount), and the restart after a successful save are left out. They are
  foreign calls and UI. The start and stop calls to the access point and
  server are modelled only as a log of `Up`/`Down` events.
- ArduinoJson's `as<String>()` conversion of a missing or non-string value
  in `/config.json` is not modelled. The model reads such a key as the empty
  string (`TextField`).
- The file's JSON text is abstracted to a key-to-value map. A file that fails
  to parse is the `Unparsable` case.
- `String::toInt` is modelled as `atol` without the overflow of a 32-bit
  `long`.
