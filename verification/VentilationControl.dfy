/** The controller's functions as they work on its variables, each proved to be the step of
  `Ventilation` it stands for. */
module VentilationControl {
  import opened Common
  import opened Ventilation

  class Controller {
    var window: bool
    var fan: bool
    var door: bool
    var absorber: bool
    var lastWindow: bool
    var lastFan: bool
    var lastDoor: bool
    var lastAbsorber: bool
    var currentMode: int
    var indoor: Air
    var outdoor: Air
    var wind: Wind
    var schedule: array<Period>
    var scheduleCount: nat
    var sent: seq<Message>

    ghost predicate Valid()
      reads this
    {
      schedule.Length == MAX_PERIODS && scheduleCount <= MAX_PERIODS
    }

    ghost function Abs(): State
      requires Valid()
      reads this, schedule
    {
      State(Actuators(window, fan, door, absorber),
            Actuators(lastWindow, lastFan, lastDoor, lastAbsorber),
            currentMode, indoor, outdoor, wind, schedule[..scheduleCount], sent)
    }

    constructor (blank: Period)
      ensures Valid() && Abs() == INITIAL && fresh(schedule)
    {
      window, fan, door, absorber := false, false, false, false;
      lastWindow, lastFan, lastDoor, lastAbsorber := false, false, false, false;
      currentMode := MANUAL;
      indoor, outdoor, wind := NO_AIR, NO_AIR, NO_WIND;
      schedule := new Period[MAX_PERIODS](_ => blank);
      scheduleCount, sent := 0, [];
    }

    /** `system_state_update_indoor_sensor`. */
    method UpdateIndoor(temp: real, humidity: real, aq: byte, now: int)
      requires Valid()
      modifies this
      ensures Valid() && Abs() == Step(old(Abs()), IndoorMessage(temp, humidity, aq, now))
    {
      indoor := indoor.(temp := temp);
      indoor := indoor.(humidity := humidity);
      indoor := indoor.(aq := aq);
      indoor := indoor.(available := true);
      indoor := indoor.(updated := now);
    }

    /** `system_state_update_outdoor_sensor`. */
    method UpdateOutdoor(temp: real, humidity: real, aq: byte, now: int)
      requires Valid()
      modifies this
      ensures Valid() && Abs() == Step(old(Abs()), OutdoorMessage(temp, humidity, aq, now))
    {
      outdoor := outdoor.(temp := temp);
      outdoor := outdoor.(humidity := humidity);
      outdoor := outdoor.(aq := aq);
      outdoor := outdoor.(available := true);
      outdoor := outdoor.(updated := now);
    }

    /** `system_state_update_wind_speed`. */
    method UpdateWind(speed: real, now: int)
      requires Valid()
      modifies this
      ensures Valid() && Abs() == Step(old(Abs()), WindMessage(speed, now))
    {
      wind := wind.(speed := speed);
      wind := wind.(available := true);
      wind := wind.(updated := now);
    }

    /** `system_state_refresh_sensor_timeouts`. */
    method RefreshTimeouts(now: int)
      requires Valid()
      modifies this
      ensures Valid() && Abs() == Step(old(Abs()), TimeoutCheck(now))
    {
      if indoor.available && now - indoor.updated > INDOOR_TIMEOUT {
        indoor := indoor.(temp := 0.0, humidity := 0.0, aq := 0, available := false);
      }
      if outdoor.available && now - outdoor.updated > OUTDOOR_TIMEOUT {
        outdoor := outdoor.(temp := 0.0, humidity := 0.0, aq := 0, available := false);
      }
      if wind.available && now - wind.updated > WIND_TIMEOUT {
        wind := wind.(speed := 0.0, available := false);
      }
    }

    method PublishChange(topic: Topic, was: bool, now: bool)
      modifies `sent
      ensures sent == old(sent) + Delta(topic, was, now)
    {
      if now != was {
        sent := sent + [Message(topic, now)];
      }
    }

    /** `publish_state` of the present actuators. */
    method PublishState(w: bool, f: bool, d: bool, a: bool)
      requires Valid() && Actuators(w, f, d, a) == Abs().act
      modifies `sent, `lastWindow, `lastFan, `lastDoor, `lastAbsorber
      ensures Valid() && Abs() == Publish(old(Abs()))
    {
      PublishChange(WindowTopic, lastWindow, w);
      PublishChange(FanTopic, lastFan, f);
      PublishChange(DoorTopic, lastDoor, d);
      PublishChange(AbsorberTopic, lastAbsorber, a);
      lastWindow := w;
      lastFan := f;
      lastDoor := d;
      lastAbsorber := a;
    }

    /** `schedule_is_active`: the mode is set only if a period is active. */
    method ScheduleIsActive(nowMin: nat, modeIn: int) returns (active: bool, mode: int)
      requires Valid()
      ensures var i := FirstActive(Abs().schedule, nowMin);
        active == (i < scheduleCount) && mode == if active then schedule[i].mode else modeIn
    {
      active, mode := false, modeIn;
      var i := 0;
      while i < scheduleCount
        invariant i <= scheduleCount
        invariant forall j :: 0 <= j < i ==> !Active(schedule[j], nowMin)
      {
        var start := Minutes(schedule[i].start);
        var end := Minutes(schedule[i].end);
        if (start <= end && nowMin >= start && nowMin <= end) ||
           (start > end && (nowMin >= start || nowMin <= end)) {
          FirstActiveIs(schedule[..scheduleCount], nowMin, i);
          return true, schedule[i].mode;
        }
        i := i + 1;
      }
      FirstActiveIs(schedule[..scheduleCount], nowMin, scheduleCount);
    }

    /** `system_state_get_control_flags_locked`. */
    method GetControlFlags(nowMin: nat) returns (configured: bool, active: bool, holding: bool, manual: bool)
      requires Valid()
      ensures (configured, active, holding, manual) == ControlFlags(Abs(), nowMin)
    {
      configured := scheduleCount > 0;
      active := false;
      holding := false;
      manual := currentMode == MANUAL;
      var scheduledMode := currentMode;
      if !manual && configured {
        active, scheduledMode := ScheduleIsActive(nowMin, scheduledMode);
        holding := !active;
        manual := holding;
      }
    }

    /** `apply_auto_logic`, its branch for AUTO_BEST. */
    method ApplyBest()
      requires Valid()
      modifies `window, `door, `fan, `absorber
      ensures Valid() && Abs() == old(Abs()).(act := BestLogic(old(Abs())))
    {
      if !indoor.available || !outdoor.available {
        fan := false;
        absorber := false;
        return;
      }
      var humidityDiffHighEnough := indoor.humidity - outdoor.humidity > HUMIDITY_DIFF_THRESHOLD;
      var outdoorAirIsGood := outdoor.aq <= GOOD_AQ;
      window := humidityDiffHighEnough && outdoorAirIsGood;
      door := window;
      fan := window;
      absorber := indoor.humidity > HIGH_HUMIDITY || indoor.aq > GOOD_AQ;
    }

    /** `apply_auto_logic`, the fan in AUTO_ECO while the window is open. */
    method EcoFan(fanWasOn: bool) returns (on: bool)
      requires Valid()
      ensures var s := Abs(); on == (!Windy(s) && s.indoor.available && (FanStart(s) || (fanWasOn && FanHold(s))))
    {
      if wind.available && wind.speed > WIND_HIGH {
        on := false;
      } else if !indoor.available {
        on := false;
      } else {
        var fanShouldStart := indoor.humidity > HIGH_HUMIDITY || indoor.temp > FAN_ON_TEMP;
        var fanShouldKeepRunning := fanWasOn &&
          (indoor.humidity > HIGH_HUMIDITY - RELEASE_MARGIN || indoor.temp > FAN_OFF_TEMP);
        on := fanShouldStart || fanShouldKeepRunning;
      }
    }

    /** `apply_auto_logic`, its branch for AUTO_ECO. */
    method ApplyEco()
      requires Valid()
      modifies `window, `door, `fan, `absorber
      ensures Valid() && Abs() == old(Abs()).(act := EcoLogic(old(Abs())))
    {
      var fanWasOn := fan;
      var humidityDiffHighEnough := indoor.humidity - outdoor.humidity > HUMIDITY_DIFF_THRESHOLD;
      if !outdoor.available {
        fan := false;
        absorber := false;
        return;
      }
      if outdoor.aq <= GOOD_AQ && humidityDiffHighEnough {
        window := true;
        door := true;
        fan := EcoFan(fanWasOn);
      } else {
        window := false;
        door := false;
        fan := false;
      }
      absorber := indoor.available && (indoor.humidity > HIGH_HUMIDITY || indoor.aq > GOOD_AQ);
    }

    /** `apply_auto_logic`. */
    method ApplyAutoLogic(mode: int)
      requires Valid()
      modifies `window, `door, `fan, `absorber
      ensures Valid() && Abs() == old(Abs()).(act := AutoLogic(old(Abs()), mode))
    {
      if mode == AUTO_BEST {
        ApplyBest();
      } else if mode == AUTO_ECO {
        ApplyEco();
      }
    }

    /** `system_auto_update`. */
    method Update(nowMin: nat)
      requires Valid()
      modifies this
      ensures Valid() && schedule == old(schedule) && Abs() == Step(old(Abs()), Tick(nowMin))
    {
      ghost var was := Abs();
      var mode := currentMode;
      if mode == MANUAL {
        return;
      }
      if scheduleCount > 0 {
        var active;
        active, mode := ScheduleIsActive(nowMin, mode);
        if !active {
          return;
        }
        currentMode := mode;
      }
      assert Abs() == was.(mode := TickMode(was, nowMin));
      Decide(mode);
    }

    /** The rest of `system_auto_update`, once the mode is known. */
    method Decide(mode: int)
      requires Valid()
      modifies this
      ensures Valid() && schedule == old(schedule)
      ensures Abs() == Publish(old(Abs()).(act := Clamp(AutoLogic(old(Abs()), mode))))
    {
      ApplyAutoLogic(mode);
      if fan && !window {
        fan := false;
      }
      PublishState(window, fan, door, absorber);
    }

    /** `actuators_post_handler`, its effect on the state. */
    method PostActuators(nowMin: nat, newWindow: int, newFan: int, newDoor: int, newAbsorber: int)
      returns (answer: Answer)
      requires Valid()
      modifies this
      ensures var a := Actuators(newWindow != 0, newFan != 0, newDoor != 0, newAbsorber != 0);
        && Valid() && schedule == old(schedule)
        && answer == ActuatorsAnswer(old(Abs()), nowMin, a)
        && Abs() == Step(old(Abs()), Event.PostActuators(nowMin, a))
    {
      var _, _, _, manual := GetControlFlags(nowMin);
      if !manual {
        return Forbidden;
      }
      if newFan != 0 && newWindow == 0 {
        return BadRequest;
      }
      ApplyPost(newWindow != 0, newFan != 0, newDoor != 0, newAbsorber != 0);
      answer := Accepted;
    }

    method ApplyPost(w: bool, f: bool, d: bool, a: bool)
      requires Valid()
      modifies this
      ensures Valid() && schedule == old(schedule)
      ensures Abs() == Publish(old(Abs()).(act := Actuators(w, f, d, a)))
    {
      window := w;
      fan := f;
      absorber := a;
      door := d;
      PublishState(window, fan, door, absorber);
    }

    /** `mode_post_handler`, its effect on the state. */
    method PostMode(newMode: int) returns (answer: Answer)
      requires Valid()
      modifies `currentMode
      ensures Valid() && Abs() == Step(old(Abs()), Event.PostMode(newMode))
      ensures answer == if 0 <= newMode <= 2 then Accepted else BadRequest
    {
      if newMode < 0 || newMode > 2 {
        return BadRequest;
      }
      currentMode := newMode;
      answer := Accepted;
    }

    /** `schedule_post_handler`, its effect on the state: the periods read from the body go to the
      front of the array. */
    method PostSchedule(periods: seq<Period>)
      requires Valid()
      modifies `scheduleCount, schedule
      ensures Valid() && Abs() == Step(old(Abs()), Event.PostSchedule(periods))
    {
      ghost var was := Abs();
      var localCount := 0;
      while localCount < |periods| && localCount < MAX_PERIODS
        invariant localCount <= |periods| && localCount <= MAX_PERIODS
        invariant schedule[..localCount] == periods[..localCount]
      {
        schedule[localCount] := periods[localCount];
        localCount := localCount + 1;
      }
      scheduleCount := localCount;
      assert Abs().schedule == SchedulePost(was, periods).schedule;
    }
  }

  lemma {:induction false} FirstActiveIs(schedule: seq<Period>, now: nat, k: nat)
    requires k <= |schedule| && (k < |schedule| ==> Active(schedule[k], now))
    requires forall j :: 0 <= j < k ==> !Active(schedule[j], now)
    ensures FirstActive(schedule, now) == k
    decreases |schedule|
  {
    if k > 0 {
      FirstActiveIs(schedule[1..], now, k - 1);
    }
  }
}
