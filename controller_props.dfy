/**
 * What the controller promises, stated about the transition functions of
 * module PumpController: the rejected and unmatched commands, each branch of
 * the command table, each case of the tick, the invariants over whole runs of
 * commands and ticks, the status fields, and two worked scenarios.
 */
module PumpControllerProperties {
  import opened Wrappers
  import opened Clock
  import opened PumpController

  // ---- Rejections and no-ops ----

  /**
   * A message that did not parse, is addressed to another device, or asks for
   * a run outside (0, 480] minutes changes nothing and publishes nothing.
   */
  lemma RejectedMessageChangesNothing(deviceId: string, s: ControllerState, msg: Option<Message>,
                                      nowMs: nat, clock: Option<LocalTime>)
    requires s.irrigationStartTime <= nowMs
    requires || msg.None?
             || msg.value.id != deviceId
             || (msg.value.signal == SignalOn
                 && (msg.value.irrTime <= MinIrrMinutes || msg.value.irrTime > MaxIrrMinutes))
    ensures OnCommand(deviceId, s, msg, nowMs, clock) == Outcome(s, false)
  {
  }

  /**
   * A command is published exactly when it takes one of the four branches of
   * the table; every other command leaves the state as it was.
   */
  lemma PublishedIffBranchTaken(deviceId: string, s: ControllerState, m: Message,
                                nowMs: nat, clock: Option<LocalTime>)
    requires s.irrigationStartTime <= nowMs
    requires m.id == deviceId
    requires m.signal == SignalOn ==> MinIrrMinutes < m.irrTime <= MaxIrrMinutes
    ensures var r := OnCommand(deviceId, s, Some(m), nowMs, clock);
            && (r.publish <==>
                  || (m.signal == SignalOn && s.state in {Idle, EmergencyHalt} && IsIrrigationTime(clock))
                  || (m.signal == SignalHalt && s.state == Irrigating)
                  || m.signal == SignalStop)
            && (!r.publish ==> r.next == s)
  {
    assert SignalOn != SignalStop && SignalHalt != SignalStop && SignalOn != SignalHalt;
  }

  /** Examples of unmatched pairs: each is a no-op. */
  lemma UnmatchedPairsAreNoOps(deviceId: string, s: ControllerState, m: Message,
                               nowMs: nat, clock: Option<LocalTime>)
    requires s.irrigationStartTime <= nowMs
    requires m.id == deviceId
    requires || (m.signal == SignalOn && s.state == Irrigating)
             || (m.signal == SignalOn && !IsIrrigationTime(clock))
             || (m.signal == SignalHalt && s.state != Irrigating)
    ensures OnCommand(deviceId, s, Some(m), nowMs, clock) == Outcome(s, false)
  {
    assert SignalOn != SignalStop && SignalHalt != SignalStop && SignalOn != SignalHalt;
  }

  // ---- The command table ----

  /** `On` while idle and in the window starts a run of `irr_time` minutes, truncated to whole ms. */
  lemma StartFromIdle(deviceId: string, s: ControllerState, m: Message,
                      nowMs: nat, clock: Option<LocalTime>)
    requires s.irrigationStartTime <= nowMs
    requires s.state == Idle && IsIrrigationTime(clock)
    requires m.id == deviceId && m.signal == SignalOn && MinIrrMinutes < m.irrTime <= MaxIrrMinutes
    ensures var r := OnCommand(deviceId, s, Some(m), nowMs, clock);
            && r.publish
            && r.next.state == Irrigating && r.next.pumpActive
            && r.next.irrigationStartTime == nowMs
            && r.next.remainingTime == r.next.irrigationDuration
            && r.next.irrigationDuration as real <= m.irrTime * 60000.0
                 < r.next.irrigationDuration as real + 1.0
  {
  }

  /**
   * `On` while halted and in the window resumes with the time that was left,
   * not the original duration: the stored remaining time becomes the new
   * duration and is left as it was.
   */
  lemma ResumeFromHalt(deviceId: string, s: ControllerState, m: Message,
                       nowMs: nat, clock: Option<LocalTime>)
    requires s.irrigationStartTime <= nowMs
    requires s.state == EmergencyHalt && IsIrrigationTime(clock)
    requires m.id == deviceId && m.signal == SignalOn && MinIrrMinutes < m.irrTime <= MaxIrrMinutes
    ensures OnCommand(deviceId, s, Some(m), nowMs, clock)
            == Outcome(ControllerState(Irrigating, nowMs, s.remainingTime, s.remainingTime, true), true)
  {
  }

  /**
   * `Emergency Halt` while irrigating stores the halt remaining time, halts
   * and turns the pump off; a halt no later than the end of the run stores
   * exactly duration minus elapsed time.
   */
  lemma HaltWhileIrrigating(deviceId: string, s: ControllerState, m: Message,
                            nowMs: nat, clock: Option<LocalTime>)
    requires s.irrigationStartTime <= nowMs
    requires s.state == Irrigating
    requires m.id == deviceId && m.signal == SignalHalt
    ensures var r := OnCommand(deviceId, s, Some(m), nowMs, clock);
            && r.publish
            && r.next.state == EmergencyHalt && !r.next.pumpActive
            && r.next.remainingTime == HaltRemaining(s.irrigationDuration, nowMs - s.irrigationStartTime)
            && (nowMs - s.irrigationStartTime <= s.irrigationDuration ==>
                  r.next.remainingTime + (nowMs - s.irrigationStartTime) == s.irrigationDuration)
            && r.next.irrigationDuration == s.irrigationDuration
            && r.next.irrigationStartTime == s.irrigationStartTime
  {
    assert SignalHalt != SignalOn;
  }

  /** `Stop` is accepted from every state, FAULT included, and always publishes. */
  lemma StopFromAnyState(deviceId: string, s: ControllerState, m: Message,
                         nowMs: nat, clock: Option<LocalTime>)
    requires s.irrigationStartTime <= nowMs
    requires m.id == deviceId && m.signal == SignalStop
    ensures var r := OnCommand(deviceId, s, Some(m), nowMs, clock);
            && r.publish
            && r.next == s.(state := Idle, irrigationDuration := 0, remainingTime := 0, pumpActive := false)
  {
    assert SignalStop != SignalOn && SignalStop != SignalHalt;
  }

  /**
   * While halted, a command either leaves everything as it is, resumes with
   * the stored remaining time, or stops; and a tick changes nothing.
   */
  lemma HaltedStateMoves(deviceId: string, s: ControllerState, msg: Option<Message>,
                         nowMs: nat, clock: Option<LocalTime>)
    requires s.irrigationStartTime <= nowMs
    requires s.state == EmergencyHalt
    ensures var r := OnCommand(deviceId, s, msg, nowMs, clock);
            || r.next == s
            || r.next == ControllerState(Irrigating, nowMs, s.remainingTime, s.remainingTime, true)
            || r.next == s.(state := Idle, irrigationDuration := 0, remainingTime := 0, pumpActive := false)
    ensures OnTick(s, nowMs, clock) == Outcome(s, false)
  {
  }

  // ---- The tick ----

  /** Outside the window an irrigating controller halts, keeping the last stored remaining time. */
  lemma TickOutsideWindowHalts(s: ControllerState, nowMs: nat, clock: Option<LocalTime>)
    requires s.irrigationStartTime <= nowMs
    requires s.state == Irrigating && !IsIrrigationTime(clock)
    ensures OnTick(s, nowMs, clock)
            == Outcome(s.(state := EmergencyHalt, pumpActive := false), true)
  {
  }

  /** The run completes once the elapsed time reaches the duration; the next tick does nothing. */
  lemma TickCompletesRun(s: ControllerState, nowMs: nat, laterMs: nat,
                         clock: Option<LocalTime>, laterClock: Option<LocalTime>)
    requires s.irrigationStartTime <= nowMs <= laterMs
    requires s.state == Irrigating && IsIrrigationTime(clock)
    requires nowMs - s.irrigationStartTime >= s.irrigationDuration
    ensures var r := OnTick(s, nowMs, clock);
            && r.publish
            && r.next.state == Idle && !r.next.pumpActive
            && r.next.irrigationDuration == 0 && r.next.remainingTime == 0
            && OnTick(r.next, laterMs, laterClock) == Outcome(r.next, false)
  {
  }

  /** Before the end of the run a tick counts down the remaining time without publishing. */
  lemma TickCountsDown(s: ControllerState, nowMs: nat, clock: Option<LocalTime>)
    requires s.irrigationStartTime <= nowMs
    requires s.state == Irrigating && IsIrrigationTime(clock)
    requires nowMs - s.irrigationStartTime < s.irrigationDuration
    ensures var r := OnTick(s, nowMs, clock);
            && !r.publish
            && r.next.state == Irrigating
            && r.next.remainingTime + (nowMs - s.irrigationStartTime) == s.irrigationDuration
            && r.next == s.(remainingTime := r.next.remainingTime)
  {
  }

  /** Idle and halted controllers ignore the tick; a faulted one only turns its pump off. */
  lemma TickOtherStates(s: ControllerState, nowMs: nat, clock: Option<LocalTime>)
    requires s.irrigationStartTime <= nowMs
    requires s.state != Irrigating
    ensures var r := OnTick(s, nowMs, clock);
            && !r.publish
            && r.next == (if s.state == Fault then s.(pumpActive := false) else s)
  {
  }

  // ---- Runs of commands and ticks ----

  /** What reaches the controller: a parsed (or unparsable) message, or a pass of the main loop. */
  datatype Event =
    | Command(msg: Option<Message>, nowMs: nat, clock: Option<LocalTime>)
    | Tick(nowMs: nat, clock: Option<LocalTime>)

  /** Event times never go backwards, and none precedes `fromMs`. */
  ghost predicate Chronological(fromMs: nat, events: seq<Event>)
    decreases |events|
  {
    |events| == 0 || (fromMs <= events[0].nowMs && Chronological(events[0].nowMs, events[1..]))
  }

  function Step(deviceId: string, s: ControllerState, e: Event): (r: Outcome)
    requires s.irrigationStartTime <= e.nowMs
    ensures r.next.irrigationStartTime <= e.nowMs
    ensures r.next.state == Fault ==> s.state == Fault
  {
    match e
    case Command(msg, nowMs, clock) => OnCommand(deviceId, s, msg, nowMs, clock)
    case Tick(nowMs, clock) => OnTick(s, nowMs, clock)
  }

  /** Each event is applied completely before the next one is looked at. */
  ghost function Run(deviceId: string, s: ControllerState, events: seq<Event>): ControllerState
    requires Chronological(s.irrigationStartTime, events)
    decreases |events|
  {
    if |events| == 0 then s
    else
      var next := Step(deviceId, s, events[0]).next;
      ChronologicalFromEarlier(next.irrigationStartTime, events[0].nowMs, events[1..]);
      Run(deviceId, next, events[1..])
  }

  lemma ChronologicalFromEarlier(earlier: nat, fromMs: nat, events: seq<Event>)
    requires earlier <= fromMs && Chronological(fromMs, events)
    ensures Chronological(earlier, events)
  {
  }

  /** The invariants hold after any chronological run of commands and ticks. */
  lemma {:induction false} RunKeepsInv(deviceId: string, s: ControllerState, events: seq<Event>)
    requires Inv(s) && Chronological(s.irrigationStartTime, events)
    ensures Inv(Run(deviceId, s, events))
    decreases |events|
  {
    if |events| > 0 {
      var e := events[0];
      match e {
        case Command(msg, nowMs, clock) => CommandKeepsInv(deviceId, s, msg, nowMs, clock);
        case Tick(nowMs, clock) => TickKeepsInv(s, nowMs, clock);
      }
      RunKeepsInv(deviceId, Step(deviceId, s, e).next, events[1..]);
    }
  }

  /** No command and no tick ever enters FAULT. */
  lemma {:induction false} RunNeverFaults(deviceId: string, s: ControllerState, events: seq<Event>)
    requires s.state != Fault && Chronological(s.irrigationStartTime, events)
    ensures Run(deviceId, s, events).state != Fault
    decreases |events|
  {
    if |events| > 0 {
      RunNeverFaults(deviceId, Step(deviceId, s, events[0]).next, events[1..]);
    }
  }

  /** Whether an event could take a halted controller out of EMERGENCY_HALT. */
  predicate MayLeaveHalt(e: Event)
  {
    e.Command? && e.msg.Some? && (e.msg.value.signal == SignalOn || e.msg.value.signal == SignalStop)
  }

  /**
   * The remaining time stored at a halt is kept exactly: until an `On` or a
   * `Stop` arrives, neither commands nor ticks change anything.
   */
  lemma {:induction false} HaltHeldUntilResumeOrStop(deviceId: string, s: ControllerState, events: seq<Event>)
    requires s.state == EmergencyHalt && Chronological(s.irrigationStartTime, events)
    requires forall i :: 0 <= i < |events| ==> !MayLeaveHalt(events[i])
    ensures Run(deviceId, s, events) == s
    decreases |events|
  {
    if |events| > 0 {
      assert !MayLeaveHalt(events[0]);
      assert Step(deviceId, s, events[0]).next == s;
      forall i | 0 <= i < |events[1..]|
        ensures !MayLeaveHalt(events[1..][i])
      {
        assert events[1..][i] == events[i + 1];
      }
      HaltHeldUntilResumeOrStop(deviceId, s, events[1..]);
    }
  }

  // ---- The status snapshot ----

  /** Every field of the status message, read back, gives the state it was built from. */
  lemma SnapshotFields(deviceId: string, s: ControllerState, clock: Option<LocalTime>)
    ensures var st := Snapshot(deviceId, s, clock);
            && st.id == deviceId
            && ParseStateName(st.state) == Some(s.state)
            && st.pumpActive == s.pumpActive
            && st.remainingTimeMinutes * MsPerMinute <= s.remainingTime
               < (st.remainingTimeMinutes + 1) * MsPerMinute
            && st.irrigationAllowed == IsIrrigationTime(clock)
            && (st.currentTime.Some? <==> clock.Some?)
            && (clock.Some? ==> ParseClock(st.currentTime.value) == clock)
  {
    if clock.Some? {
      ParseFormatClock(clock.value);
    }
  }

  /** Distinct states publish distinct names. */
  lemma StateNamesDistinct(p: PumpState, q: PumpState)
    ensures StateName(p) == StateName(q) <==> p == q
  {
    assert ParseStateName(StateName(p)) == Some(p);
    assert ParseStateName(StateName(q)) == Some(q);
  }

  // ---- Scenarios ----

  const Morning: LocalTime := LocalTime(7, 30, 0)
  const MorningLater: LocalTime := LocalTime(7, 40, 0)

  /**
   * Device "P-1" at 07:30 receives `On` for 10 minutes: a 600000 ms run starts.
   * Ten minutes later the tick ends it and publishes IDLE, pump off, 0 minutes.
   */
  lemma ScenarioTenMinuteRun(t0: nat)
    ensures var m := Message("P-1", SignalOn, 10.0);
            var r1 := OnCommand("P-1", Initial, Some(m), t0, Some(Morning));
            && r1.publish
            && r1.next.state == Irrigating && r1.next.irrigationDuration == 600000
            && var r2 := OnTick(r1.next, t0 + 600000, Some(MorningLater));
            && r2.publish
            && Snapshot("P-1", r2.next, Some(MorningLater))
               == Status("P-1", "IDLE", false, 0, true, Some("07:40:00"))
  {
    var m := Message("P-1", SignalOn, 10.0);
    var r1 := OnCommand("P-1", Initial, Some(m), t0, Some(Morning));
    assert DurationMs(10.0) == 600000;
    assert r1.next == ControllerState(Irrigating, t0, 600000, 600000, true);
    var r2 := OnTick(r1.next, t0 + 600000, Some(MorningLater));
    assert r2.next == ControllerState(Idle, t0, 0, 0, false);
    assert FormatClock(MorningLater) == "07:40:00";
  }

  /**
   * Irrigating with 20 minutes stored at the last in-window tick, the first
   * tick at 19:00 halts the pump and publishes EMERGENCY_HALT with 20 minutes.
   */
  lemma ScenarioWindowCloses(start: nat, nowMs: nat)
    requires start <= nowMs
    ensures var s := ControllerState(Irrigating, start, 1_800_000, 1_200_000, true);
            var r := OnTick(s, nowMs, Some(LocalTime(19, 0, 0)));
            && r.publish
            && r.next.state == EmergencyHalt && !r.next.pumpActive
            && Snapshot("P-1", r.next, Some(LocalTime(19, 0, 0))).remainingTimeMinutes == 20
            && !Snapshot("P-1", r.next, Some(LocalTime(19, 0, 0))).irrigationAllowed
  {
  }

  // ---- The emergency-halt subtraction ----

  /**
   * As written, the halt subtraction agrees with the saturating one whenever
   * the halt comes no later than the end of the run.
   */
  lemma HaltRemainingAgrees(duration: nat, elapsed: nat)
    requires duration < ULongModulus && elapsed <= duration
    ensures HaltRemainingAsWritten(duration, elapsed) == HaltRemaining(duration, elapsed)
  {
  }

  /**
   * A one-minute run started at 07:00:00, counted down by a tick at 59.5 s, is
   * still IRRIGATING when an `Emergency Halt` arrives at 61 s, before the next
   * tick. As written the halt then stores 4294966296 ms (71582 minutes) as the
   * remaining time, far above the 60000 ms duration, and a resume would run
   * for that long; the saturating subtraction stores 0.
   */
  lemma LateHaltWrapsAround()
    ensures var start := OnCommand("P-1", Initial, Some(Message("P-1", SignalOn, 1.0)), 0,
                                   Some(LocalTime(7, 0, 0))).next;
            var counted := OnTick(start, 59_500, Some(LocalTime(7, 0, 59))).next;
            && counted.state == Irrigating && counted.irrigationDuration == 60000
            && 61_000 - counted.irrigationStartTime > counted.irrigationDuration
            && HaltRemainingAsWritten(counted.irrigationDuration, 61_000 - counted.irrigationStartTime)
               == 4294966296
            && HaltRemainingAsWritten(counted.irrigationDuration, 61_000 - counted.irrigationStartTime)
               / MsPerMinute == 71582
            && OnCommand("P-1", counted, Some(Message("P-1", SignalHalt, 0.0)), 61_000,
                         Some(LocalTime(7, 1, 1))).next.remainingTime == 0
  {
    assert DurationMs(1.0) == 60000;
  }
}
