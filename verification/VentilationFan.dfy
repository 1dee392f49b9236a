/** The fan of the ventilation controller: its latch in AUTO_ECO, and the two automatic modes side
  by side. */
module VentilationFan {
  import opened Ventilation
  import opened VentilationModes
  import opened VentilationSafety

  // ---- the fan in AUTO_ECO ----

  /** Conditions that ventilate with the fan allowed. */
  predicate Venting(s: State) {
    && s.indoor.available && s.outdoor.available
    && s.outdoor.aq <= GOOD_AQ && DampInside(s)
    && !Windy(s)
  }

  predicate Held(s: State) {
    Venting(s) && FanHold(s)
  }

  /** The states the working ticks of a run saw. */
  function Seen(s: State, events: seq<Event>): seq<State>
    decreases |events|
  {
    if events == [] then []
    else (if Works(s, events[0]) then [s] else []) + Seen(Step(s, events[0]), events[1..])
  }

  /** Every working tick of the run works in AUTO_ECO, whether that is the selected mode or the one
    of a period, and no actuator post is accepted. Modes and schedules may be posted. */
  predicate EcoRun(s: State, events: seq<Event>)
    decreases |events|
  {
    events != [] ==>
      && (Works(s, events[0]) ==> TickMode(s, events[0].now) == AUTO_ECO)
      && (events[0].PostActuators? ==> ActuatorsAnswer(s, events[0].now, events[0].act) != Accepted)
      && EcoRun(Step(s, events[0]), events[1..])
  }

  predicate HeldFrom(seen: seq<State>, j: nat) {
    forall i :: j <= i < |seen| ==> Held(seen[i])
  }

  /** Some tick saw a start limit crossed, and from it on every tick saw the fan held. */
  predicate Latched(seen: seq<State>) {
    exists j :: 0 <= j < |seen| && FanStart(seen[j]) && HeldFrom(seen, j)
  }

  lemma HeldShift(s: State, seen: seq<State>, j: nat)
    ensures HeldFrom([s] + seen, j + 1) <==> HeldFrom(seen, j)
  {
    var all := [s] + seen;
    if HeldFrom(all, j + 1) {
      forall i | j <= i < |seen| ensures Held(seen[i]) {
        assert all[i + 1] == seen[i];
      }
    }
  }

  lemma LatchedCons(s: State, seen: seq<State>)
    ensures Latched([s] + seen) <==> Latched(seen) || (FanStart(s) && Held(s) && HeldFrom(seen, 0))
    ensures HeldFrom([s] + seen, 0) <==> Held(s) && HeldFrom(seen, 0)
  {
    var all := [s] + seen;
    HeldShift(s, seen, 0);
    assert all[0] == s;
    assert HeldFrom(all, 0) <==> Held(all[0]) && HeldFrom(all, 1);
    if Latched(all) {
      var j :| 0 <= j < |all| && FanStart(all[j]) && HeldFrom(all, j);
      if j > 0 {
        HeldShift(s, seen, j - 1);
        assert FanStart(seen[j - 1]);
      }
    }
    if Latched(seen) {
      var j :| 0 <= j < |seen| && FanStart(seen[j]) && HeldFrom(seen, j);
      HeldShift(s, seen, j);
      assert FanStart(all[j + 1]);
    }
    if FanStart(s) && HeldFrom(all, 0) {
      assert FanStart(all[0]);
    }
  }

  lemma EcoStep(s: State, e: Event)
    requires Works(s, e) ==> TickMode(s, e.now) == AUTO_ECO
    requires e.PostActuators? ==> ActuatorsAnswer(s, e.now, e.act) != Accepted
    ensures Step(s, e).act.fan <==> if Works(s, e) then Held(s) && (FanStart(s) || s.act.fan) else s.act.fan
  {
  }

  /** The fan after a run of economy ticks, from any state. */
  lemma {:induction false} EcoLatchFrom(s: State, events: seq<Event>)
    requires EcoRun(s, events)
    ensures Run(s, events).act.fan <==> Latched(Seen(s, events)) || (s.act.fan && HeldFrom(Seen(s, events), 0))
    decreases |events|
  {
    if events != [] {
      var e, t := events[0], Step(s, events[0]);
      EcoStep(s, e);
      if Works(s, e) {
        LatchedCons(s, Seen(t, events[1..]));
      } else {
        assert [] + Seen(t, events[1..]) == Seen(t, events[1..]);
      }
      EcoLatchFrom(t, events[1..]);
    }
  }

  /** In AUTO_ECO, from a fan that is off, the fan is on exactly if a tick crossed a start limit
    and every tick from that one on vented with humidity or temperature above the lower limits. */
  lemma EcoLatch(s: State, events: seq<Event>)
    requires EcoRun(s, events) && !s.act.fan
    ensures Run(s, events).act.fan <==> Latched(Seen(s, events))
  {
    EcoLatchFrom(s, events);
  }

  // ---- the two automatic modes ----

  /** With both sensors present the two automatic modes choose the same window, door and absorber.
    They differ in the fan alone: AUTO_ECO leaves it off under an open window exactly when it is
    windy or no limit that applies is crossed. */
  lemma ModesDifferInFan(s: State)
    requires s.indoor.available && s.outdoor.available
    ensures var best, eco := AutoLogic(s, AUTO_BEST), AutoLogic(s, AUTO_ECO);
      && best.(fan := false) == eco.(fan := false)
      && best.door == best.window == best.fan
      && (best.fan && !eco.fan <==> eco.window && (Windy(s) || !(FanStart(s) || (s.act.fan && FanHold(s)))))
  {
  }

  // ---- the documented rules ----

  /** The actuators by the rules api.md gives for the two modes; a wind sensor that is not available
    reads zero. */
  function Documented(s: State, mode: int): Actuators {
    var open := s.outdoor.aq <= GOOD_AQ && (mode == AUTO_BEST ==> DampInside(s));
    var fan := if mode == AUTO_BEST then s.indoor.aq > GOOD_AQ else !Windy(s) && FanStart(s);
    Actuators(open, open && fan, Windy(s), s.indoor.humidity > HIGH_HUMIDITY)
  }

  /** The code follows them exactly if the window opens just when it is windy (the documented door),
    bad indoor air is humid (the documented absorber), and an open window has damp air behind it
    and, in AUTO_BEST, bad indoor air (the documented window and fan). */
  lemma AsDocumentedIff(s: State, mode: int)
    requires s.indoor.available && s.outdoor.available && (mode == AUTO_BEST || mode == AUTO_ECO)
    ensures AutoLogic(s, mode) == Documented(s, mode) <==>
      && (Documented(s, mode).window <==> Windy(s))
      && (s.indoor.aq > GOOD_AQ ==> s.indoor.humidity > HIGH_HUMIDITY)
      && (Documented(s, mode).window ==>
            && DampInside(s)
            && (mode == AUTO_BEST ==> s.indoor.aq > GOOD_AQ))
  {
  }

  /** Damp air inside, dry air outside and no wind: the door opens with the window. */
  lemma DoorWithoutWind()
    ensures var s := Step(Step(INITIAL, DAMP), DRY);
      BestLogic(s).door && !Documented(s, AUTO_BEST).door
  {
  }

  // ---- AUTO_BEST for AUTO_ECO ----

  function Best(mode: int): int {
    if mode == AUTO_ECO then AUTO_BEST else mode
  }

  function BestPlan(schedule: seq<Period>): (plan: seq<Period>)
    ensures |plan| == |schedule|
    ensures forall i :: 0 <= i < |plan| ==> plan[i] == schedule[i].(mode := Best(schedule[i].mode))
  {
    if schedule == [] then []
    else [schedule[0].(mode := Best(schedule[0].mode))] + BestPlan(schedule[1..])
  }

  /** The same event for a user who asks for AUTO_BEST wherever another asks for AUTO_ECO. */
  function BestEvent(e: Event): Event {
    match e
    case PostMode(mode) => PostMode(Best(mode))
    case PostSchedule(periods) => PostSchedule(BestPlan(periods))
    case _ => e
  }

  function BestEvents(events: seq<Event>): (r: seq<Event>)
    ensures |r| == |events|
  {
    if events == [] then [] else [BestEvent(events[0])] + BestEvents(events[1..])
  }

  lemma {:induction false} SameFirst(schedule: seq<Period>, now: nat)
    ensures FirstActive(BestPlan(schedule), now) == FirstActive(schedule, now)
  {
    if schedule != [] {
      SameFirst(schedule[1..], now);
      assert BestPlan(schedule)[1..] == BestPlan(schedule[1..]);
    }
  }

  /** The same sensors, AUTO_BEST wherever the first has AUTO_ECO, and the fan of the first only on
    if that of the second is. */
  predicate Compared(eco: State, best: State) {
    && best.mode == Best(eco.mode) && best.schedule == BestPlan(eco.schedule)
    && eco.indoor == best.indoor && eco.outdoor == best.outdoor && eco.wind == best.wind
    && (eco.act.fan ==> best.act.fan) && Safe(best)
  }

  lemma ComparedLogic(eco: State, best: State, mode: int)
    requires eco.indoor == best.indoor && eco.outdoor == best.outdoor && eco.wind == best.wind
    requires (eco.act.fan ==> best.act.fan) && Safe(best)
    ensures Clamp(AutoLogic(eco, mode)).fan ==> Clamp(AutoLogic(best, Best(mode))).fan
  {
    ClampNeverFires(best, Best(mode));
  }

  lemma ComparedTick(eco: State, best: State, now: nat)
    requires Compared(eco, best)
    ensures TickIdle(best, now) == TickIdle(eco, now)
    ensures Compared(AutoUpdate(eco, now), AutoUpdate(best, now))
  {
    SameFirst(eco.schedule, now);
    StepSafe(best, Tick(now));
    if !TickIdle(eco, now) {
      var mode := TickMode(eco, now);
      assert TickMode(best, now) == Best(mode);
      ComparedLogic(eco.(mode := mode), best.(mode := Best(mode)), mode);
    }
  }

  lemma ComparedPost(eco: State, best: State, now: nat, act: Actuators)
    requires Compared(eco, best)
    ensures ActuatorsAnswer(best, now, act) == ActuatorsAnswer(eco, now, act)
    ensures Compared(ActuatorsPost(eco, now, act), ActuatorsPost(best, now, act))
  {
    SameFirst(eco.schedule, now);
  }

  lemma ComparedStep(eco: State, best: State, e: Event)
    requires Compared(eco, best)
    ensures Compared(Step(eco, e), Step(best, BestEvent(e)))
  {
    match e
    case Tick(now) =>
      ComparedTick(eco, best, now);
    case PostActuators(now, act) =>
      ComparedPost(eco, best, now, act);
    case PostSchedule(periods) =>
      if |periods| > MAX_PERIODS {
        assert BestPlan(periods)[..MAX_PERIODS] == BestPlan(periods[..MAX_PERIODS]);
      }
    case _ =>
  }

  /** Two controllers hear the same messages, ticks and posts, except that one is asked for
    AUTO_BEST, in mode posts and in schedules, wherever the other is asked for AUTO_ECO: whenever
    the second has its fan on, the first has. */
  lemma {:induction false} EcoWithinBest(eco: State, best: State, events: seq<Event>)
    requires Compared(eco, best)
    ensures Compared(Run(eco, events), Run(best, BestEvents(events)))
    decreases |events|
  {
    if events != [] {
      ComparedStep(eco, best, events[0]);
      assert BestEvents(events)[1..] == BestEvents(events[1..]);
      EcoWithinBest(Step(eco, events[0]), Step(best, BestEvent(events[0])), events[1..]);
    }
  }
}
