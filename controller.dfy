/**
 * The pump controller: the five state variables of the firmware, the command
 * handler run for each inbound MQTT message, the once-per-second tick, and the
 * status snapshot published after a transition.
 *
 * Each operation is first a pure function on a `ControllerState` value
 * (`OnCommand`, `OnTick`, `Snapshot`); class `Controller` holds the same five
 * variables as mutable fields and updates them step by step, proved to agree
 * with those functions.
 */
module PumpController {
  import opened Wrappers
  import opened Clock

  // Bounds on `irr_time`, in minutes: exclusive below, inclusive above.
  const MinIrrMinutes: real := 0.0
  const MaxIrrMinutes: real := 480.0

  const MsPerMinute: nat := 60000
  /** The longest run a command can request: 480 minutes in milliseconds. */
  const MaxDurationMs: nat := 28_800_000
  /** `unsigned long` is 32 bits wide on the target. */
  const ULongModulus: nat := 0x1_0000_0000

  const SignalOn: string := "On"
  const SignalHalt: string := "Emergency Halt"
  const SignalStop: string := "Stop"

  datatype PumpState = Idle | Irrigating | EmergencyHalt | Fault

  /** An inbound command after JSON parsing; a missing `irr_time` reads as 0. */
  datatype Message = Message(id: string, signal: string, irrTime: real)

  /** The five globals; times and durations are milliseconds of `millis()`. */
  datatype ControllerState = ControllerState(
    state: PumpState,
    irrigationStartTime: nat,
    irrigationDuration: nat,
    remainingTime: nat,
    pumpActive: bool)

  const Initial: ControllerState := ControllerState(Idle, 0, 0, 0, false)

  /** The fields of the outbound status message. */
  datatype Status = Status(
    id: string,
    state: string,
    pumpActive: bool,
    remainingTimeMinutes: nat,
    irrigationAllowed: bool,
    currentTime: Option<string>)

  /** The state after a command or tick, and whether a status is published. */
  datatype Outcome = Outcome(next: ControllerState, publish: bool)

  /**
   * What every command and tick keeps: the pump runs exactly while irrigating,
   * an idle controller holds no duration, and no run is longer than a command
   * can request.
   */
  ghost predicate Inv(s: ControllerState)
  {
    && s.pumpActive == (s.state == Irrigating)
    && (s.state == Idle ==> s.remainingTime == 0 && s.irrigationDuration == 0)
    && s.remainingTime <= s.irrigationDuration <= MaxDurationMs
  }

  /** `(unsigned long)(irr_time * 60 * 1000)` for an `irr_time` that passed validation. */
  function DurationMs(irrTime: real): (d: nat)
    requires MinIrrMinutes < irrTime <= MaxIrrMinutes
    ensures d as real <= irrTime * MsPerMinute as real < d as real + 1.0
    ensures d <= MaxDurationMs
  {
    var x := irrTime * MsPerMinute as real;
    assert 0.0 < x <= MaxDurationMs as real;
    x.Floor
  }

  /**
   * The remaining time stored by an emergency-halt command, as written: the
   * `unsigned long` subtraction wraps modulo 2^32 once `elapsed` exceeds
   * `duration`.
   */
  function HaltRemainingAsWritten(duration: nat, elapsed: nat): (r: nat)
    requires duration < ULongModulus && elapsed < ULongModulus
    ensures r < ULongModulus
    ensures elapsed <= duration ==> r + elapsed == duration
    ensures elapsed > duration ==> r == ULongModulus - (elapsed - duration)
  {
    (duration - elapsed) % ULongModulus
  }

  /** The remaining time stored by an emergency-halt command, never negative. */
  function HaltRemaining(duration: nat, elapsed: nat): (r: nat)
    ensures r <= duration
    ensures elapsed <= duration ==> r + elapsed == duration
    ensures elapsed >= duration ==> r == 0
  {
    if elapsed <= duration then duration - elapsed else 0
  }

  /**
   * The command handler, after JSON parsing (`None` is a message that did not
   * parse). Filters by device id and the `irr_time` bounds, then dispatches
   * on the signal and the current state; the first matching branch wins.
   */
  function OnCommand(deviceId: string, s: ControllerState, msg: Option<Message>,
                     nowMs: nat, clock: Option<LocalTime>): (r: Outcome)
    requires s.irrigationStartTime <= nowMs
    ensures r.next.irrigationStartTime <= nowMs
    ensures r.next.state == Fault ==> s.state == Fault
  {
    if msg.None? then Outcome(s, false)
    else
      var m := msg.value;
      if m.id != deviceId then Outcome(s, false)
      else if m.signal == SignalOn && m.irrTime <= MinIrrMinutes then Outcome(s, false)
      else if m.signal == SignalOn && m.irrTime > MaxIrrMinutes then Outcome(s, false)
      else if m.signal == SignalOn && s.state == Idle && IsIrrigationTime(clock) then
        var d := DurationMs(m.irrTime);
        Outcome(ControllerState(Irrigating, nowMs, d, d, true), true)
      else if m.signal == SignalOn && s.state == EmergencyHalt && IsIrrigationTime(clock) then
        Outcome(s.(state := Irrigating, irrigationStartTime := nowMs,
                   irrigationDuration := s.remainingTime, pumpActive := true), true)
      else if m.signal == SignalHalt && s.state == Irrigating then
        var elapsed := nowMs - s.irrigationStartTime;
        Outcome(s.(state := EmergencyHalt,
                   remainingTime := HaltRemaining(s.irrigationDuration, elapsed),
                   pumpActive := false), true)
      else if m.signal == SignalStop then
        Outcome(s.(state := Idle, irrigationDuration := 0, remainingTime := 0,
                   pumpActive := false), true)
      else Outcome(s, false)
  }

  /**
   * One evaluation of `handleStateTransitions`. Only an irrigating controller
   * changes: outside the window it halts (keeping the remaining time of the
   * last in-window tick), at the end of the run it goes idle, and otherwise it
   * counts the remaining time down. A faulted controller keeps its pump off.
   */
  function OnTick(s: ControllerState, nowMs: nat, clock: Option<LocalTime>): (r: Outcome)
    requires s.irrigationStartTime <= nowMs
    ensures r.next.irrigationStartTime == s.irrigationStartTime
    ensures r.next.state == Fault <==> s.state == Fault
  {
    match s.state
    case Idle => Outcome(s, false)
    case Irrigating =>
      if !IsIrrigationTime(clock) then
        Outcome(s.(state := EmergencyHalt, pumpActive := false), true)
      else
        var elapsed := nowMs - s.irrigationStartTime;
        if elapsed >= s.irrigationDuration then
          Outcome(s.(state := Idle, irrigationDuration := 0, remainingTime := 0,
                     pumpActive := false), true)
        else
          Outcome(s.(remainingTime := s.irrigationDuration - elapsed), false)
    case EmergencyHalt => Outcome(s, false)
    case Fault => Outcome(s.(pumpActive := false), false)
  }

  /** The `state` field of the status message; the subscriber can read it back. */
  function StateName(p: PumpState): (name: string)
    ensures ParseStateName(name) == Some(p)
  {
    match p
    case Idle => "IDLE"
    case Irrigating => "IRRIGATING"
    case EmergencyHalt => "EMERGENCY_HALT"
    case Fault => "FAULT"
  }

  /** How a subscriber reads the `state` field back. */
  function ParseStateName(name: string): Option<PumpState>
  {
    if name == "IDLE" then Some(Idle)
    else if name == "IRRIGATING" then Some(Irrigating)
    else if name == "EMERGENCY_HALT" then Some(EmergencyHalt)
    else if name == "FAULT" then Some(Fault)
    else None
  }

  /** The status message built by `publishStatus`, before serialisation. */
  function Snapshot(deviceId: string, s: ControllerState, clock: Option<LocalTime>): (st: Status)
    ensures ParseStateName(st.state) == Some(s.state)
    ensures st.remainingTimeMinutes * MsPerMinute <= s.remainingTime
              < (st.remainingTimeMinutes + 1) * MsPerMinute
    ensures st.irrigationAllowed ==> st.currentTime.Some?
  {
    Status(deviceId, StateName(s.state), s.pumpActive, s.remainingTime / MsPerMinute,
           IsIrrigationTime(clock),
           if clock.Some? then Some(FormatClock(clock.value)) else None)
  }

  function Published(deviceId: string, r: Outcome, clock: Option<LocalTime>): Option<Status>
  {
    if r.publish then Some(Snapshot(deviceId, r.next, clock)) else None
  }

  lemma CommandKeepsInv(deviceId: string, s: ControllerState, msg: Option<Message>,
                        nowMs: nat, clock: Option<LocalTime>)
    requires Inv(s) && s.irrigationStartTime <= nowMs
    ensures Inv(OnCommand(deviceId, s, msg, nowMs, clock).next)
  {
  }

  lemma TickKeepsInv(s: ControllerState, nowMs: nat, clock: Option<LocalTime>)
    requires Inv(s) && s.irrigationStartTime <= nowMs
    ensures Inv(OnTick(s, nowMs, clock).next)
  {
  }

  /** The controller: the five globals as fields, updated in place. */
  class Controller {
    const deviceId: string
    var state: PumpState
    var irrigationStartTime: nat
    var irrigationDuration: nat
    var remainingTime: nat
    var pumpActive: bool

    function Current(): ControllerState
      reads this
    {
      ControllerState(state, irrigationStartTime, irrigationDuration, remainingTime, pumpActive)
    }

    ghost predicate Valid()
      reads this
    {
      Inv(Current())
    }

    constructor (deviceId: string)
      ensures this.deviceId == deviceId
      ensures Current() == Initial && Valid()
    {
      this.deviceId := deviceId;
      state := Idle;
      irrigationStartTime := 0;
      irrigationDuration := 0;
      remainingTime := 0;
      pumpActive := false;
    }

    /** The state part of `controlPump`: record what the relay was told. */
    method ControlPump(on: bool)
      modifies this`pumpActive
      ensures pumpActive == on
    {
      pumpActive := on;
    }

    /** `publishStatus`: the snapshot of the current state; changes nothing. */
    method PublishStatus(clock: Option<LocalTime>) returns (status: Status)
      ensures status.id == deviceId && ParseStateName(status.state) == Some(state)
      ensures status.pumpActive == pumpActive
      ensures status.remainingTimeMinutes * MsPerMinute <= remainingTime
                < (status.remainingTimeMinutes + 1) * MsPerMinute
      ensures status.irrigationAllowed == IsIrrigationTime(clock)
      ensures status.currentTime.Some? <==> clock.Some?
      ensures clock.Some? ==> ParseClock(status.currentTime.value) == clock
      ensures status == Snapshot(deviceId, Current(), clock)
    {
      var stateStr := StateName(state);
      var current := None;
      if clock.Some? {
        current := Some(FormatClock(clock.value));
        ParseFormatClock(clock.value);
      }
      status := Status(deviceId, stateStr, pumpActive, remainingTime / MsPerMinute,
                       IsIrrigationTime(clock), current);
    }

    /** `callback`, from the parsed message on. */
    method HandleCommand(msg: Option<Message>, nowMs: nat, clock: Option<LocalTime>)
      returns (published: Option<Status>)
      requires Valid() && irrigationStartTime <= nowMs
      modifies this
      ensures Valid()
      ensures Current() == OnCommand(deviceId, old(Current()), msg, nowMs, clock).next
      ensures published == Published(deviceId, OnCommand(deviceId, old(Current()), msg, nowMs, clock), clock)
    {
      ghost var before := Current();
      CommandKeepsInv(deviceId, before, msg, nowMs, clock);
      published := None;
      if msg.None? {
        return;
      }
      var m := msg.value;
      if m.id != deviceId {
        return;
      }
      if m.signal == SignalOn && m.irrTime <= MinIrrMinutes {
        return;
      }
      if m.signal == SignalOn && m.irrTime > MaxIrrMinutes {
        return;
      }
      var allowed := IsIrrigationTime(clock);
      if m.signal == SignalOn && state == Idle && allowed {
        irrigationDuration := DurationMs(m.irrTime);
        remainingTime := irrigationDuration;
        irrigationStartTime := nowMs;
        state := Irrigating;
        ControlPump(true);
        var status := PublishStatus(clock);
        published := Some(status);
      } else if m.signal == SignalOn && state == EmergencyHalt && allowed {
        irrigationDuration := remainingTime;
        irrigationStartTime := nowMs;
        state := Irrigating;
        ControlPump(true);
        var status := PublishStatus(clock);
        published := Some(status);
      } else if m.signal == SignalHalt && state == Irrigating {
        var elapsed := nowMs - irrigationStartTime;
        remainingTime := HaltRemaining(irrigationDuration, elapsed);
        state := EmergencyHalt;
        ControlPump(false);
        var status := PublishStatus(clock);
        published := Some(status);
      } else if m.signal == SignalStop {
        state := Idle;
        irrigationDuration := 0;
        remainingTime := 0;
        ControlPump(false);
        var status := PublishStatus(clock);
        published := Some(status);
      }
    }

    /** `handleStateTransitions`, run once per pass of the main loop. */
    method Tick(nowMs: nat, clock: Option<LocalTime>) returns (published: Option<Status>)
      requires Valid() && irrigationStartTime <= nowMs
      modifies this
      ensures Valid()
      ensures Current() == OnTick(old(Current()), nowMs, clock).next
      ensures published == Published(deviceId, OnTick(old(Current()), nowMs, clock), clock)
    {
      TickKeepsInv(Current(), nowMs, clock);
      published := None;
      match state
      case Idle =>
      case Irrigating =>
        if !IsIrrigationTime(clock) {
          state := EmergencyHalt;
          ControlPump(false);
          var status := PublishStatus(clock);
          published := Some(status);
        } else {
          var elapsed := nowMs - irrigationStartTime;
          if elapsed >= irrigationDuration {
            state := Idle;
            irrigationDuration := 0;
            remainingTime := 0;
            ControlPump(false);
            var status := PublishStatus(clock);
            published := Some(status);
          } else {
            remainingTime := irrigationDuration - elapsed;
          }
        }
      case EmergencyHalt =>
      case Fault =>
        ControlPump(false);
    }
  }
}
