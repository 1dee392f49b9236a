/** What holds of the ventilation controller over whole runs of ticks, messages and posts. */
module VentilationSafety {
  import opened Ventilation

  // ---- fan and window ----

  predicate Safe(s: State) {
    s.act.fan ==> s.act.window
  }

  /** The automatic logic keeps the rule by itself: the clamp after it never changes anything. */
  lemma ClampNeverFires(s: State, mode: int)
    requires Safe(s)
    ensures Clamp(AutoLogic(s, mode)) == AutoLogic(s, mode)
  {
  }

  lemma StepSafe(s: State, e: Event)
    requires Safe(s)
    ensures Safe(Step(s, e))
  {
  }

  /** In every run the fan is on only while the window is open. */
  lemma {:induction false} RunSafe(s: State, events: seq<Event>)
    requires Safe(s)
    ensures Safe(Run(s, events))
    decreases |events|
  {
    if events != [] {
      StepSafe(s, events[0]);
      RunSafe(Step(s, events[0]), events[1..]);
    }
  }

  // ---- sensors ----

  /** A sensor that is not available reads zero. */
  predicate Zeroed(s: State) {
    && (!s.indoor.available ==> s.indoor.humidity == 0.0 && s.indoor.temp == 0.0 && s.indoor.aq == 0)
    && (!s.outdoor.available ==> s.outdoor.humidity == 0.0 && s.outdoor.temp == 0.0 && s.outdoor.aq == 0)
    && (!s.wind.available ==> s.wind.speed == 0.0)
  }

  lemma {:induction false} RunZeroed(s: State, events: seq<Event>)
    requires Zeroed(s)
    ensures Zeroed(Run(s, events))
    decreases |events|
  {
    if events != [] {
      RunZeroed(Step(s, events[0]), events[1..]);
    }
  }

  /** After a timeout check a sensor is available exactly if it was and its last message is recent
    enough, and then its readings are the ones it had. */
  lemma TimeoutExact(s: State, at: int)
    ensures var t := Timeouts(s, at);
      && (t.indoor.available <==> s.indoor.available && at - s.indoor.updated <= 1000)
      && (t.outdoor.available <==> s.outdoor.available && at - s.outdoor.updated <= 1000)
      && (t.wind.available <==> s.wind.available && at - s.wind.updated <= 5000)
      && (t.indoor.available ==> t.indoor == s.indoor)
      && (t.outdoor.available ==> t.outdoor == s.outdoor)
      && (t.wind.available ==> t.wind == s.wind)
  {
  }

  /** In AUTO_ECO without the indoor sensor but with the outdoor one, in any state a run can
    reach: a tick turns the fan off and leaves the window open only for an outdoor humidity below
    minus ten. */
  lemma EcoWithoutIndoor(s: State, now: nat)
    requires Zeroed(s) && !TickIdle(s, now) && TickMode(s, now) == AUTO_ECO
    requires !s.indoor.available && s.outdoor.available
    ensures var t := AutoUpdate(s, now);
      && !t.act.fan && !t.act.absorber
      && (t.act.window <==> s.outdoor.aq <= GOOD_AQ && s.outdoor.humidity < -10.0)
      && t.act.door == t.act.window
  {
    assert EcoLogic(s.(mode := AUTO_ECO)).window <==> s.outdoor.aq <= GOOD_AQ && s.outdoor.humidity < -10.0;
  }

  // ---- what was published ----

  function Apply(a: Actuators, m: Message): Actuators {
    match m.topic
    case WindowTopic => a.(window := m.value)
    case FanTopic => a.(fan := m.value)
    case DoorTopic => a.(door := m.value)
    case AbsorberTopic => a.(absorber := m.value)
  }

  /** What a subscriber knows after the messages, all actuators being off before them. */
  function Replay(sent: seq<Message>): Actuators {
    if sent == [] then OFF else Apply(Replay(sent[..|sent| - 1]), sent[|sent| - 1])
  }

  predicate Mirrored(s: State) {
    Replay(s.sent) == s.act == s.last
  }

  lemma ReplayDelta(sent: seq<Message>, topic: Topic, was: bool, now: bool)
    ensures Replay(sent + Delta(topic, was, now)) ==
            if now != was then Apply(Replay(sent), Message(topic, now)) else Replay(sent)
  {
    if now != was {
      assert (sent + [Message(topic, now)])[..|sent|] == sent;
    } else {
      assert sent + [] == sent;
    }
  }

  lemma PublishMirrors(s: State)
    requires Replay(s.sent) == s.last
    ensures Mirrored(Publish(s))
  {
    var w, f := Delta(WindowTopic, s.last.window, s.act.window), Delta(FanTopic, s.last.fan, s.act.fan);
    var d := Delta(DoorTopic, s.last.door, s.act.door);
    ReplayDelta(s.sent, WindowTopic, s.last.window, s.act.window);
    ReplayDelta(s.sent + w, FanTopic, s.last.fan, s.act.fan);
    ReplayDelta(s.sent + w + f, DoorTopic, s.last.door, s.act.door);
    ReplayDelta(s.sent + w + f + d, AbsorberTopic, s.last.absorber, s.act.absorber);
  }

  lemma StepMirrored(s: State, e: Event)
    requires Mirrored(s)
    ensures Mirrored(Step(s, e))
  {
    match e
    case Tick(now) =>
      if !TickIdle(s, now) {
        var t := s.(mode := TickMode(s, now));
        PublishMirrors(t.(act := Clamp(AutoLogic(t, t.mode))));
      }
    case PostActuators(now, act) =>
      if ActuatorsAnswer(s, now, act) == Accepted {
        PublishMirrors(s.(act := act));
      }
    case _ =>
  }

  /** In every run the published messages, replayed, give the present actuators. */
  lemma {:induction false} RunMirrored(s: State, events: seq<Event>)
    requires Mirrored(s)
    ensures Mirrored(Run(s, events))
    decreases |events|
  {
    if events != [] {
      StepMirrored(s, events[0]);
      RunMirrored(Step(s, events[0]), events[1..]);
    }
  }

  /** One message per actuator that changed, and none for the others. */
  lemma StepPublishesChanges(s: State, e: Event)
    requires Mirrored(s)
    ensures var t := Step(s, e);
      t.sent == s.sent + Delta(WindowTopic, s.act.window, t.act.window) + Delta(FanTopic, s.act.fan, t.act.fan)
                + Delta(DoorTopic, s.act.door, t.act.door) + Delta(AbsorberTopic, s.act.absorber, t.act.absorber)
  {
    assert s.sent + [] + [] + [] + [] == s.sent;
  }
}
