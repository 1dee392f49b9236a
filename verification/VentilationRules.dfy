/** The rules of the controller in numbers: what messages and posts change, when a tick works and in
  which mode, and what it then decides, with all sensors and without. */
module VentilationRules {
  import opened Common
  import opened Ventilation
  import opened VentilationModes
  import opened VentilationSafety

  // ---------- messages and posts ----------

  /** The controller starts in manual mode, with every actuator off, no schedule and no readings. */
  lemma StartsManual()
    ensures INITIAL.mode == 2 && INITIAL.schedule == [] && INITIAL.sent == []
    ensures INITIAL.act == INITIAL.last == Actuators(false, false, false, false)
    ensures !INITIAL.indoor.available && !INITIAL.outdoor.available && !INITIAL.wind.available
    ensures Safe(INITIAL) && Zeroed(INITIAL) && Mirrored(INITIAL)
  {
  }

  /** A sensor message sets the readings of its sensor, and nothing else. */
  lemma MessagesRead(s: State, temp: real, humidity: real, aq: byte, speed: real, at: int)
    ensures var t := Step(s, IndoorMessage(temp, humidity, aq, at));
      && t.indoor.temp == temp && t.indoor.humidity == humidity && t.indoor.aq == aq
      && t.indoor.available && t.indoor.updated == at && t == s.(indoor := t.indoor)
    ensures var t := Step(s, OutdoorMessage(temp, humidity, aq, at));
      && t.outdoor.temp == temp && t.outdoor.humidity == humidity && t.outdoor.aq == aq
      && t.outdoor.available && t.outdoor.updated == at && t == s.(outdoor := t.outdoor)
    ensures var t := Step(s, WindMessage(speed, at));
      && t.wind.speed == speed && t.wind.available && t.wind.updated == at && t == s.(wind := t.wind)
  {
  }

  /** A mode post sets the mode to 0, 1 or 2; a schedule post keeps the first eight periods. */
  lemma PostsChange(s: State, mode: int, periods: seq<Period>)
    ensures Step(s, PostMode(mode)) == if 0 <= mode <= 2 then s.(mode := mode) else s
    ensures var t := Step(s, PostSchedule(periods));
      && t == s.(schedule := t.schedule) && t.schedule <= periods
      && |t.schedule| == if |periods| < 8 then |periods| else 8
  {
  }

  predicate SomeActive(s: State, now: nat) {
    exists i :: 0 <= i < |s.schedule| && Active(s.schedule[i], now)
  }

  /** A tick does nothing in manual mode, and with a schedule of which no period is active. */
  lemma IdleIff(s: State, now: nat)
    ensures TickIdle(s, now) <==> s.mode == 2 || (s.schedule != [] && !SomeActive(s, now))
  {
  }

  predicate IsFirst(s: State, now: nat, i: nat)
    requires i < |s.schedule|
  {
    Active(s.schedule[i], now) && forall j :: 0 <= j < i ==> !Active(s.schedule[j], now)
  }

  /** Otherwise it works in the mode of the first active period, or without a schedule in the
    selected one. */
  lemma ModeIs(s: State, now: nat, i: nat)
    ensures s.schedule == [] ==> TickMode(s, now) == s.mode
    ensures i < |s.schedule| && IsFirst(s, now, i) ==> TickMode(s, now) == s.schedule[i].mode
  {
  }

  /** The flags: a schedule is there; it is in control; it is there but holds; manual control is allowed. */
  lemma FlagsAre(s: State, now: nat)
    ensures var flags := ControlFlags(s, now);
      && (flags.0 <==> s.schedule != [])
      && (flags.1 <==> s.mode != 2 && SomeActive(s, now))
      && (flags.2 <==> s.mode != 2 && s.schedule != [] && !SomeActive(s, now))
      && (flags.3 <==> s.mode == 2 || (s.schedule != [] && !SomeActive(s, now)))
  {
  }

  /** An actuator post is forbidden while the controller decides, refused if it would run the fan
    behind a closed window, and else it sets all four actuators. */
  lemma ActuatorPostIs(s: State, now: nat, a: Actuators)
    ensures ActuatorsAnswer(s, now, a) == Forbidden <==>
      s.mode != 2 && (s.schedule == [] || SomeActive(s, now))
    ensures ActuatorsAnswer(s, now, a) == BadRequest <==>
      (s.mode == 2 || (s.schedule != [] && !SomeActive(s, now))) && a.fan && !a.window
    ensures Step(s, PostActuators(now, a)).act == if ActuatorsAnswer(s, now, a) == Accepted then a else s.act
  {
  }

  // ---------- what a working tick decides ----------

  /** The mode of the tick cannot decide for want of readings: AUTO_BEST needs both sensors, AUTO_ECO
    the outdoor one. */
  predicate Lacking(s: State, mode: int) {
    (mode == 0 && !(s.indoor.available && s.outdoor.available)) || (mode == 1 && !s.outdoor.available)
  }

  /** Without the readings it needs a working tick leaves window and door as they were and turns fan
    and absorber off. */
  lemma LackingTick(s: State, now: nat)
    requires !TickIdle(s, now) && Lacking(s, TickMode(s, now))
    ensures Step(s, Tick(now)).act == Actuators(s.act.window, false, s.act.door, false)
  {
  }

  /** A mode that is neither automatic one decides nothing. */
  lemma ForeignTick(s: State, now: nat)
    requires Safe(s) && !TickIdle(s, now) && TickMode(s, now) != 0 && TickMode(s, now) != 1
    ensures Step(s, Tick(now)).act == s.act
  {
  }

  /** AUTO_BEST with both sensors: airing for more than ten percent of humidity, with outdoor air of
    at most 70; the absorber over 55 percent of humidity or an indoor air quality over 70. */
  lemma BestTick(s: State, now: nat)
    requires !TickIdle(s, now) && TickMode(s, now) == 0 && !Lacking(s, 0)
    ensures var open := s.indoor.humidity - s.outdoor.humidity > 10.0 && s.outdoor.aq <= 70;
      Step(s, Tick(now)).act ==
        Actuators(open, open, open, s.indoor.humidity > 55.0 || s.indoor.aq > 70)
  {
  }

  /** AUTO_ECO with the outdoor sensor: airing by the same rule; the fan only below a wind of 5, from
    55 percent or 25 degrees, and once on down to 52 percent or 24 degrees. */
  lemma EcoTick(s: State, now: nat)
    requires !TickIdle(s, now) && TickMode(s, now) == 1 && !Lacking(s, 1)
    ensures var t := Step(s, Tick(now)).act;
      && (t.window <==> s.indoor.humidity - s.outdoor.humidity > 10.0 && s.outdoor.aq <= 70)
      && (t.door <==> t.window)
      && (t.fan <==>
            && t.window && !(s.wind.available && s.wind.speed > 5.0) && s.indoor.available
            && (s.indoor.humidity > 55.0 || s.indoor.temp > 25.0
                || (s.act.fan && (s.indoor.humidity > 52.0 || s.indoor.temp > 24.0))))
      && (t.absorber <==> s.indoor.available && (s.indoor.humidity > 55.0 || s.indoor.aq > 70))
  {
  }

  /** Whatever it finds, a working tick leaves no fan running behind a closed window. */
  lemma TickMakesSafe(s: State, now: nat)
    requires !TickIdle(s, now)
    ensures Step(s, Tick(now)).act.fan ==> Step(s, Tick(now)).act.window
  {
  }

  // ---------- runs without readings ----------

  /** Every tick of the run that works lacks the readings its mode needs, and no actuator post is
    accepted. */
  predicate LackingRun(s: State, events: seq<Event>)
    decreases |events|
  {
    events != [] ==>
      && (Works(s, events[0]) ==> Lacking(s, TickMode(s, events[0].now)))
      && (events[0].PostActuators? ==> ActuatorsAnswer(s, events[0].now, events[0].act) != Accepted)
      && LackingRun(Step(s, events[0]), events[1..])
  }

  predicate SomeWorks(s: State, events: seq<Event>)
    decreases |events|
  {
    events != [] && (Works(s, events[0]) || SomeWorks(Step(s, events[0]), events[1..]))
  }

  /** While readings are missing no tick moves window or door, whatever else arrives or is posted; the
    first one that works turns fan and absorber off. */
  lemma {:induction false} MissingReadingsHold(s: State, events: seq<Event>)
    requires LackingRun(s, events)
    ensures var t := Run(s, events).act;
      && t.window == s.act.window && t.door == s.act.door
      && t.fan == (s.act.fan && !SomeWorks(s, events))
      && t.absorber == (s.act.absorber && !SomeWorks(s, events))
    decreases |events|
  {
    if events != [] {
      var e, t := events[0], Step(s, events[0]);
      if Works(s, e) {
        LackingTick(s, e.now);
      } else {
        assert t.act == s.act;
      }
      MissingReadingsHold(t, events[1..]);
    }
  }
}
