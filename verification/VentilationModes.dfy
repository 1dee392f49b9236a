/** Who decides: posts, schedule and mode of the ventilation controller over whole runs. */
module VentilationModes {
  import opened Ventilation
  import opened VentilationSafety

  // ---- manual control ----

  /** Manual control is allowed exactly when a tick at that moment would do nothing. */
  lemma ManualIffIdle(s: State, now: nat)
    ensures ManualAllowed(s, now) <==> TickIdle(s, now)
    ensures TickIdle(s, now) ==> AutoUpdate(s, now) == s
  {
  }

  /** Sensor traffic, and ticks while manual control is allowed. */
  predicate Undisturbed(s: State, events: seq<Event>) {
    forall i :: 0 <= i < |events| ==>
      && !events[i].PostMode? && !events[i].PostSchedule? && !events[i].PostActuators?
      && (events[i].Tick? ==> ManualAllowed(s, events[i].now))
  }

  /** What was posted stays until a scheduled period becomes active or a post arrives. */
  lemma {:induction false} PostSurvives(s: State, events: seq<Event>)
    requires Undisturbed(s, events)
    ensures var t := Run(s, events);
      t.act == s.act && t.mode == s.mode && t.schedule == s.schedule && t.sent == s.sent
    decreases |events|
  {
    if events != [] {
      var t := Step(s, events[0]);
      assert events[0].Tick? ==> ManualAllowed(s, events[0].now);
      forall i | 0 <= i < |events| - 1 && events[1..][i].Tick?
        ensures ManualAllowed(t, events[1..][i].now)
      {
        assert events[1..][i] == events[i + 1];
        assert ManualAllowed(s, events[i + 1].now);
      }
      PostSurvives(t, events[1..]);
    }
  }

  /** An accepted post takes effect, and lasts through any undisturbed run. */
  lemma AcceptedPostHolds(s: State, now: nat, a: Actuators, events: seq<Event>)
    requires ActuatorsAnswer(s, now, a) == Accepted
    requires Undisturbed(s, events)
    ensures Run(ActuatorsPost(s, now, a), events).act == a
  {
    var t := ActuatorsPost(s, now, a);
    forall i | 0 <= i < |events| && events[i].Tick? ensures ManualAllowed(t, events[i].now) {
      assert ManualAllowed(s, events[i].now);
    }
    PostSurvives(t, events);
  }

  /** The last acceptable post of a run. */
  function Posted(a: Actuators, events: seq<Event>): Actuators
    decreases |events|
  {
    if events == [] then a
    else
      var e := events[0];
      Posted(if e.PostActuators? && (e.act.fan ==> e.act.window) then e.act else a, events[1..])
  }

  /** Only a mode post ends manual mode: until then the actuators are what was posted last,
    whatever the schedule and the sensors say. */
  lemma {:induction false} ManualSticks(s: State, events: seq<Event>)
    requires s.mode == MANUAL
    requires forall i :: 0 <= i < |events| ==> !events[i].PostMode?
    ensures Run(s, events).mode == MANUAL
    ensures Run(s, events).act == Posted(s.act, events)
    decreases |events|
  {
    if events != [] {
      assert !events[0].PostMode?;
      ManualSticks(Step(s, events[0]), events[1..]);
    }
  }

  // ---- the mode ----

  predicate NoModePost(events: seq<Event>) {
    forall i :: 0 <= i < |events| ==> !events[i].PostMode?
  }

  /** A tick that does something: it works in the mode `TickMode` names. */
  predicate Works(s: State, e: Event) {
    e.Tick? && !TickIdle(s, e.now)
  }

  /** The modes the working ticks of a run found, in order. */
  function Named(s: State, events: seq<Event>): seq<int>
    decreases |events|
  {
    if events == [] then []
    else
      (if Works(s, events[0]) then [TickMode(s, events[0].now)] else [])
      + Named(Step(s, events[0]), events[1..])
  }

  lemma StepMode(s: State, e: Event)
    requires !e.PostMode?
    ensures Step(s, e).mode == if Works(s, e) then TickMode(s, e.now) else s.mode
  {
  }

  /** Between mode posts the mode is the one the last working tick found. */
  lemma {:induction false} ModeIsLastNamed(s: State, events: seq<Event>)
    requires NoModePost(events)
    ensures var named := Named(s, events);
      Run(s, events).mode == if named == [] then s.mode else named[|named| - 1]
    decreases |events|
  {
    if events != [] {
      var e, t := events[0], Step(s, events[0]);
      StepMode(s, e);
      ModeIsLastNamed(t, events[1..]);
      var rest := Named(t, events[1..]);
      if !Works(s, e) {
        assert [] + rest == rest;
      }
    }
  }

  /** The selected mode has been there all along a run. */
  predicate Kept(s: State, events: seq<Event>, mode: int) {
    forall k :: 0 <= k <= |events| ==> Run(s, events[..k]).mode == mode
  }

  lemma KeptCons(s: State, events: seq<Event>, mode: int)
    requires events != []
    ensures Kept(s, events, mode) <==> s.mode == mode && Kept(Step(s, events[0]), events[1..], mode)
  {
    var t, rest := Step(s, events[0]), events[1..];
    forall k | 0 <= k <= |rest| ensures Run(s, events[..k + 1]) == Run(t, rest[..k]) {
      assert events[..k + 1][0] == events[0] && events[..k + 1][1..] == rest[..k];
    }
    assert Run(s, events[..0]) == s;
    if Kept(s, events, mode) {
      forall k | 0 <= k <= |rest| ensures Run(t, rest[..k]).mode == mode {
        assert Run(s, events[..k + 1]).mode == mode;
      }
    }
    if s.mode == mode && Kept(t, rest, mode) {
      forall k | 0 <= k <= |events| ensures Run(s, events[..k]).mode == mode {
        if k > 0 {
          assert Run(s, events[..(k - 1) + 1]) == Run(t, rest[..k - 1]);
        }
      }
    }
  }

  lemma KeptNow(s: State, events: seq<Event>, mode: int)
    requires Kept(s, events, mode)
    ensures s.mode == mode
  {
    assert Run(s, events[..0]) == s;
  }

  predicate AllName(named: seq<int>, mode: int) {
    forall m :: m in named ==> m == mode
  }

  lemma AllNameCons(first: int, rest: seq<int>, mode: int)
    ensures AllName([first] + rest, mode) <==> first == mode && AllName(rest, mode)
  {
    var all := [first] + rest;
    assert all[0] == first && first in all;
    if AllName(all, mode) {
      forall m | m in rest ensures m == mode {
        assert m in all;
      }
    }
  }

  lemma NamedCons(s: State, events: seq<Event>, mode: int)
    requires events != []
    ensures AllName(Named(s, events), mode) <==>
      && (Works(s, events[0]) ==> TickMode(s, events[0].now) == mode)
      && AllName(Named(Step(s, events[0]), events[1..]), mode)
  {
    var rest := Named(Step(s, events[0]), events[1..]);
    if Works(s, events[0]) {
      AllNameCons(TickMode(s, events[0].now), rest, mode);
    } else {
      assert [] + rest == rest;
    }
  }

  /** The selected mode survives a run exactly if every working tick found a period naming it (or
    no schedule). */
  lemma {:induction false} SelectedKeptIff(s: State, events: seq<Event>)
    requires NoModePost(events)
    ensures Kept(s, events, s.mode) <==> AllName(Named(s, events), s.mode)
    decreases |events|
  {
    if events == [] {
      assert Kept(s, events, s.mode);
    } else {
      var t, later := Step(s, events[0]), events[1..];
      StepMode(s, events[0]);
      KeptCons(s, events, s.mode);
      NamedCons(s, events, s.mode);
      if t.mode == s.mode {
        SelectedKeptIff(t, later);
      } else if Kept(t, later, s.mode) {
        KeptNow(t, later, s.mode);
      }
    }
  }

  predicate NoSchedulePost(events: seq<Event>) {
    forall i :: 0 <= i < |events| ==> !events[i].PostSchedule?
  }

  ghost predicate PlanNames(s: State) {
    forall now: nat :: !TickIdle(s, now) ==> TickMode(s, now) == s.mode
  }

  lemma {:induction false} PlanKeeps(s: State, events: seq<Event>)
    requires PlanNames(s) && NoModePost(events) && NoSchedulePost(events)
    ensures Run(s, events).mode == s.mode
    decreases |events|
  {
    if events != [] {
      var t := Step(s, events[0]);
      StepMode(s, events[0]);
      assert !events[0].PostSchedule?;
      assert t.mode == s.mode && t.schedule == s.schedule;
      forall now: nat | !TickIdle(t, now) ensures TickMode(t, now) == t.mode {
        assert !TickIdle(s, now);
      }
      PlanKeeps(t, events[1..]);
    }
  }

  /** A schedule never takes the selected mode away exactly if at every time of the day the first
    active period, where there is one, names that mode. */
  lemma ScheduleKeepsIff(s: State)
    ensures (forall events :: NoModePost(events) && NoSchedulePost(events) ==> Run(s, events).mode == s.mode)
            <==> PlanNames(s)
  {
    if PlanNames(s) {
      forall events | NoModePost(events) && NoSchedulePost(events) ensures Run(s, events).mode == s.mode {
        PlanKeeps(s, events);
      }
    } else {
      var now :| !TickIdle(s, now) && TickMode(s, now) != s.mode;
      var events := [Tick(now)];
      assert Run(s, events) == Run(Step(s, Tick(now)), events[1..]) == AutoUpdate(s, now);
      assert NoModePost(events) && NoSchedulePost(events);
    }
  }

  /** From an automatic mode, manual mode is entered without a mode post exactly if some working
    tick found a period naming it; then no later tick, period or schedule ends it. */
  lemma {:induction false} ManualTakenIff(s: State, events: seq<Event>)
    requires s.mode != MANUAL && NoModePost(events)
    ensures Run(s, events).mode == MANUAL <==> MANUAL in Named(s, events)
    decreases |events|
  {
    if events != [] {
      var e, t := events[0], Step(s, events[0]);
      StepMode(s, e);
      if t.mode == MANUAL {
        ManualSticks(t, events[1..]);
        assert Named(s, events)[0] == MANUAL;
      } else {
        ManualTakenIff(t, events[1..]);
        assert MANUAL in Named(s, events) <==> MANUAL in Named(t, events[1..]);
      }
    }
  }

  /** Once a tick has taken up a period that names manual mode, the actuators are what was posted
    last, whatever the schedule and the sensors say. */
  lemma ScheduledManualStays(s: State, now: nat, events: seq<Event>)
    requires Safe(s) && !TickIdle(s, now) && TickMode(s, now) == MANUAL
    requires NoModePost(events)
    ensures Run(AutoUpdate(s, now), events).mode == MANUAL
    ensures Run(AutoUpdate(s, now), events).act == Posted(s.act, events)
  {
    ManualSticks(AutoUpdate(s, now), events);
  }

  const EIGHT: Clock := [48, 56, 58, 48, 48, 0, 0]
  const NOON: Clock := [49, 50, 58, 48, 48, 0, 0]
  const MIDNIGHT: Clock := [50, 52, 58, 48, 48, 0, 0]

  function Morning(mode: int): seq<Period> {
    [Period(EIGHT, NOON, mode)]
  }

  lemma MorningEnds(mode: int)
    ensures FirstActive(Morning(mode), 540) == 0 && FirstActive(Morning(mode), 780) == 1
  {
    assert Minutes(EIGHT) == 480 && Minutes(NOON) == 720;
    assert Active(Morning(mode)[0], 540) && !Active(Morning(mode)[0], 780);
    assert FirstActive(Morning(mode)[1..], 780) == 0;
  }

  lemma RunFour(s: State, a: Event, b: Event, c: Event, d: Event)
    ensures Run(s, [a, b, c, d]) == Step(Step(Step(Step(s, a), b), c), d)
  {
    assert [a, b, c, d][1..] == [b, c, d] && [b, c, d][1..] == [c, d] && [c, d][1..] == [d];
    assert Run(Step(Step(s, a), b), [c, d]) == Run(Step(Step(Step(s, a), b), c), [d]);
    assert Run(Step(Step(Step(s, a), b), c), [d]) == Step(Step(Step(Step(s, a), b), c), d);
  }

  /** Best mode selected, manual mode scheduled from eight to twelve: at one o'clock no period is
    active, yet the controller is still in manual mode. */
  lemma ManualMorning()
    ensures var t := Run(INITIAL, [PostMode(AUTO_BEST), PostSchedule(Morning(MANUAL)), Tick(540), Tick(780)]);
      t.mode == MANUAL && FirstActive(t.schedule, 780) == |t.schedule|
  {
    MorningEnds(MANUAL);
    RunFour(INITIAL, PostMode(AUTO_BEST), PostSchedule(Morning(MANUAL)), Tick(540), Tick(780));
  }

  /** Best mode selected, economy scheduled, and the schedule cleared: the mode is economy, not the
    selected one. */
  lemma SelectedModeLost()
    ensures var t := Run(INITIAL, [PostMode(AUTO_BEST), PostSchedule(Morning(AUTO_ECO)), Tick(540), PostSchedule([])]);
      t.mode == AUTO_ECO && t.schedule == []
  {
    MorningEnds(AUTO_ECO);
    RunFour(INITIAL, PostMode(AUTO_BEST), PostSchedule(Morning(AUTO_ECO)), Tick(540), PostSchedule([]));
  }

  // ---- outside all periods ----

  /** While no period is active the actuators are all off exactly if they were when the last one
    ended: nothing turns them off. */
  lemma OffOutsideIff(s: State, events: seq<Event>)
    requires s.mode != MANUAL && s.schedule != [] && Undisturbed(s, events)
    ensures Run(s, events).act == OFF <==> s.act == OFF
  {
    PostSurvives(s, events);
  }

  const DAMP := IndoorMessage(22.0, 60.0, 10, 0)
  const DRY := OutdoorMessage(12.0, 40.0, 10, 0)
  const AIRED := Actuators(true, true, true, true)

  /** Nine o'clock in a scheduled morning of AUTO_BEST, with damp air inside: the tick airs. */
  lemma AirAtNine(s: State)
    requires s.mode == AUTO_BEST && s.schedule == Morning(AUTO_BEST)
    ensures var t := Step(Step(Step(s, DAMP), DRY), Tick(540));
      && t.act == AIRED && t.mode == AUTO_BEST && t.schedule == s.schedule
      && t.indoor.updated == t.outdoor.updated == 0
  {
    MorningEnds(AUTO_BEST);
    var t := Step(Step(s, DAMP), DRY);
    assert BestLogic(t) == AIRED;
  }

  /** The fan that a period started runs on after the period, and after both sensors timed out. */
  lemma FanOutlivesPeriod(s: State)
    requires s.mode == AUTO_BEST && s.schedule == Morning(AUTO_BEST)
    ensures var t := Step(Step(Step(Step(Step(s, DAMP), DRY), Tick(540)), TimeoutCheck(2000)), Tick(780));
      && FirstActive(t.schedule, 780) == |t.schedule|
      && !t.indoor.available && !t.outdoor.available
      && t.act == AIRED
  {
    AirAtNine(s);
    MorningEnds(AUTO_BEST);
    var t := Step(Step(Step(s, DAMP), DRY), Tick(540));
    var u := Step(t, TimeoutCheck(2000));
    TimeoutExact(t, 2000);
    assert u.act == AIRED && TickIdle(u, 780);
  }

  // ---- the schedule ----

  /** The distance from start to now, around the clock, is at most the one from start to end. */
  predicate Cyclic(now: nat, start: nat, end: nat) {
    (now - start) % 1440 <= (end - start) % 1440
  }

  predicate Agree(now: nat, start: nat, end: nat) {
    InPeriod(now, start, end) <==> Cyclic(now, start, end)
  }

  lemma AgreeWithinDay(now: nat, start: nat, end: nat)
    requires now < DAY && start < DAY && end < DAY
    ensures Agree(now, start, end)
  {
  }

  lemma EndsLate(start: nat, end: nat)
    requires start < DAY <= end
    ensures (forall now :: 0 <= now < DAY ==> Agree(now, start, end)) <==> end % DAY == DAY - 1
  {
    var e := end % DAY;
    assert (end - start) % DAY == if e >= start then e - start else e - start + DAY;
    if e != DAY - 1 {
      assert !Agree(if e >= start then e + 1 else e, start, end);
    }
  }

  lemma StartsLate(start: nat, end: nat)
    requires end < DAY <= start
    ensures (forall now :: 0 <= now < DAY ==> Agree(now, start, end)) <==> start % DAY == 0
  {
    var first := start % DAY;
    assert (end - start) % DAY == if end >= first then end - first else end - first + DAY;
    if first != 0 {
      var now := if first > end then first else 0;
      assert (now - start) % DAY == if now == first then 0 else DAY - first;
      assert !Agree(now, start, end);
    } else {
      forall now | 0 <= now < DAY ensures Agree(now, start, end) {
        assert (now - start) % DAY == now;
      }
    }
  }

  lemma BothLate(start: nat, end: nat)
    requires DAY <= start && DAY <= end
    ensures (forall now :: 0 <= now < DAY ==> Agree(now, start, end))
            <==> end < start && (end - start) % DAY == DAY - 1
  {
    var first, d := start % DAY, (end - start) % DAY;
    assert (first - start) % DAY == 0;
    assert Agree(first, start, end) ==> end < start;
    if end < start && d != DAY - 1 {
      var next := (first + d + 1) % DAY;
      assert (next - start) % DAY == d + 1;
      assert !Agree(next, start, end);
    }
  }

  /** The comparisons of `schedule_is_active` are the cyclic test for all times of day if both
    ends of the period are times of day, and otherwise only where the two sets of times happen to
    be the same. */
  lemma CyclicIff(start: nat, end: nat)
    ensures (forall now :: 0 <= now < DAY ==> Agree(now, start, end)) <==>
      || (start < DAY && end < DAY)
      || (start < DAY <= end && end % DAY == DAY - 1)
      || (end < DAY <= start && start % DAY == 0)
      || (DAY <= end < start && (end - start) % DAY == DAY - 1)
  {
    if start < DAY && end < DAY {
      forall now | 0 <= now < DAY ensures Agree(now, start, end) {
        AgreeWithinDay(now, start, end);
      }
    } else if start < DAY {
      EndsLate(start, end);
    } else if end < DAY {
      StartsLate(start, end);
    } else {
      BothLate(start, end);
    }
  }

  /** The four digits of a well-formed time give its minutes, below a day. */
  lemma WellFormedMinutes(t: Clock, h: nat, m: nat)
    requires h < 24 && m < 60
    requires t[0] as int == 48 + h / 10 && t[1] as int == 48 + h % 10
    requires t[3] as int == 48 + m / 10 && t[4] as int == 48 + m % 10
    ensures Minutes(t) == 60 * h + m < DAY
  {
  }

  /** "08:00" to "24:00": the comparisons miss midnight, which is in the cyclic period. */
  lemma LateEndDisagrees()
    ensures !Agree(0, Minutes(EIGHT), Minutes(MIDNIGHT))
  {
    assert Minutes(EIGHT) == 480 && Minutes(MIDNIGHT) == 1440;
  }

  /** `i` is the first position whose period holds `now`, going around the clock. */
  predicate FirstCyclic(schedule: seq<Period>, now: nat, i: nat) {
    && i <= |schedule|
    && (i < |schedule| ==> Cyclic(now, Minutes(schedule[i].start), Minutes(schedule[i].end)))
    && forall j :: 0 <= j < i ==> !Cyclic(now, Minutes(schedule[j].start), Minutes(schedule[j].end))
  }

  /** For a schedule of times of day, the period that decides is the first one whose cyclic
    interval holds the present time. */
  lemma {:induction false} DecidedByFirstCyclic(schedule: seq<Period>, now: nat)
    requires now < DAY
    requires forall i :: 0 <= i < |schedule| ==> Minutes(schedule[i].start) < DAY && Minutes(schedule[i].end) < DAY
    ensures forall i: nat :: FirstCyclic(schedule, now, i) <==> i == FirstActive(schedule, now)
  {
    var found := FirstActive(schedule, now);
    forall i | 0 <= i < |schedule|
      ensures Active(schedule[i], now) <==> Cyclic(now, Minutes(schedule[i].start), Minutes(schedule[i].end))
    {
      AgreeWithinDay(now, Minutes(schedule[i].start), Minutes(schedule[i].end));
    }
    assert FirstCyclic(schedule, now, found);
  }
}
