/** The ventilation controller: its global state and one step for each way the state changes.

  Times of day are minutes, uptimes are milliseconds, measurements are real numbers. */
module Ventilation {
  import opened Common

  const AUTO_BEST := 0
  const AUTO_ECO := 1
  const MANUAL := 2

  const HUMIDITY_DIFF_THRESHOLD := 10.0
  const HIGH_HUMIDITY := 55.0
  const RELEASE_MARGIN := 3.0
  const FAN_ON_TEMP := 25.0
  const FAN_OFF_TEMP := 24.0
  const GOOD_AQ := 70
  const WIND_HIGH := 5.0
  const MAX_PERIODS := 8
  const INDOOR_TIMEOUT := 1000
  const OUTDOOR_TIMEOUT := 1000
  const WIND_TIMEOUT := 5000
  const DAY := 1440

  type Clock = t: seq<byte> | |t| == 7 witness [0, 0, 0, 0, 0, 0, 0]

  datatype Period = Period(start: Clock, end: Clock, mode: int)
  datatype Air = Air(humidity: real, temp: real, aq: byte, available: bool, updated: int)
  datatype Wind = Wind(speed: real, available: bool, updated: int)
  datatype Actuators = Actuators(window: bool, fan: bool, door: bool, absorber: bool)
  datatype Topic = WindowTopic | FanTopic | DoorTopic | AbsorberTopic
  datatype Message = Message(topic: Topic, value: bool)

  /** Everything the ticks, the sensor messages and the posts share, and what was published. */
  datatype State = State(
    act: Actuators,
    last: Actuators,
    mode: int,
    indoor: Air,
    outdoor: Air,
    wind: Wind,
    schedule: seq<Period>,
    sent: seq<Message>)

  const OFF := Actuators(false, false, false, false)
  const NO_AIR := Air(0.0, 0.0, 0, false, 0)
  const NO_WIND := Wind(0.0, false, 0)
  const INITIAL := State(OFF, OFF, MANUAL, NO_AIR, NO_AIR, NO_WIND, [], [])

  // ---- the schedule ----

  /** `time_to_minutes`: two digits of hours, two of minutes, each in an eight-bit variable. */
  function Minutes(t: Clock): nat {
    var hh := ((t[0] as int - 48) * 10 + (t[1] as int - 48)) % 256;
    var mm := ((t[3] as int - 48) * 10 + (t[4] as int - 48)) % 256;
    hh * 60 + mm
  }

  predicate InPeriod(now: nat, start: nat, end: nat) {
    (start <= end && now >= start && now <= end) || (start > end && (now >= start || now <= end))
  }

  predicate Active(p: Period, now: nat) {
    InPeriod(now, Minutes(p.start), Minutes(p.end))
  }

  /** The position of the first active period, or the length of the schedule. */
  function FirstActive(schedule: seq<Period>, now: nat): (i: nat)
    ensures i <= |schedule|
    ensures i < |schedule| ==> Active(schedule[i], now)
    ensures forall j :: 0 <= j < i ==> !Active(schedule[j], now)
  {
    if schedule == [] || Active(schedule[0], now) then 0 else 1 + FirstActive(schedule[1..], now)
  }

  // ---- sensors ----

  function Timeouts(s: State, now: int): State {
    s.(indoor := if s.indoor.available && now - s.indoor.updated > INDOOR_TIMEOUT
                 then Air(0.0, 0.0, 0, false, s.indoor.updated) else s.indoor,
       outdoor := if s.outdoor.available && now - s.outdoor.updated > OUTDOOR_TIMEOUT
                  then Air(0.0, 0.0, 0, false, s.outdoor.updated) else s.outdoor,
       wind := if s.wind.available && now - s.wind.updated > WIND_TIMEOUT
               then Wind(0.0, false, s.wind.updated) else s.wind)
  }

  // ---- the automatic modes ----

  predicate DampInside(s: State) {
    s.indoor.humidity - s.outdoor.humidity > HUMIDITY_DIFF_THRESHOLD
  }

  predicate BadInside(s: State) {
    s.indoor.humidity > HIGH_HUMIDITY || s.indoor.aq > GOOD_AQ
  }

  function BestLogic(s: State): Actuators {
    if !s.indoor.available || !s.outdoor.available then s.act.(fan := false, absorber := false)
    else
      var open := DampInside(s) && s.outdoor.aq <= GOOD_AQ;
      Actuators(open, open, open, BadInside(s))
  }

  predicate FanStart(s: State) {
    s.indoor.humidity > HIGH_HUMIDITY || s.indoor.temp > FAN_ON_TEMP
  }

  predicate FanHold(s: State) {
    s.indoor.humidity > HIGH_HUMIDITY - RELEASE_MARGIN || s.indoor.temp > FAN_OFF_TEMP
  }

  predicate Windy(s: State) {
    s.wind.available && s.wind.speed > WIND_HIGH
  }

  function EcoLogic(s: State): Actuators {
    if !s.outdoor.available then s.act.(fan := false, absorber := false)
    else
      var open := s.outdoor.aq <= GOOD_AQ && DampInside(s);
      var fan := open && !Windy(s) && s.indoor.available && (FanStart(s) || (s.act.fan && FanHold(s)));
      Actuators(open, fan, open, s.indoor.available && BadInside(s))
  }

  /** `apply_auto_logic`: a mode that is neither automatic mode changes nothing. */
  function AutoLogic(s: State, mode: int): Actuators {
    if mode == AUTO_BEST then BestLogic(s)
    else if mode == AUTO_ECO then EcoLogic(s)
    else s.act
  }

  // ---- publishing ----

  function Delta(topic: Topic, was: bool, now: bool): seq<Message> {
    if now != was then [Message(topic, now)] else []
  }

  /** `publish_state`: one message for each actuator that changed since the last call. */
  function Publish(s: State): State {
    s.(sent := s.sent + Delta(WindowTopic, s.last.window, s.act.window)
                      + Delta(FanTopic, s.last.fan, s.act.fan)
                      + Delta(DoorTopic, s.last.door, s.act.door)
                      + Delta(AbsorberTopic, s.last.absorber, s.act.absorber),
       last := s.act)
  }

  // ---- ticks ----

  /** The mode a tick works in: the scheduled one when there is a schedule. */
  function TickMode(s: State, now: nat): int {
    var i := FirstActive(s.schedule, now);
    if i < |s.schedule| then s.schedule[i].mode else s.mode
  }

  /** A tick that changes nothing: manual mode, or a schedule with no period active. */
  predicate TickIdle(s: State, now: nat) {
    s.mode == MANUAL || (s.schedule != [] && FirstActive(s.schedule, now) == |s.schedule|)
  }

  /** Fan cannot be on if window is closed. */
  function Clamp(a: Actuators): Actuators {
    if a.fan && !a.window then a.(fan := false) else a
  }

  /** `system_auto_update`. */
  function AutoUpdate(s: State, now: nat): State {
    if TickIdle(s, now) then s
    else
      var mode := TickMode(s, now);
      var t := s.(mode := mode);
      Publish(t.(act := Clamp(AutoLogic(t, mode))))
  }

  // ---- posts ----

  /** `system_state_get_control_flags_locked`, its manual_control_allowed and holding flags. */
  function ControlFlags(s: State, now: nat): (bool, bool, bool, bool) {
    var configured := s.schedule != [];
    if s.mode != MANUAL && configured
    then
      var active := FirstActive(s.schedule, now) < |s.schedule|;
      (configured, active, !active, !active)
    else (configured, false, false, s.mode == MANUAL)
  }

  predicate ManualAllowed(s: State, now: nat) {
    ControlFlags(s, now).3
  }

  datatype Answer = Accepted | Forbidden | BadRequest

  /** `actuators_post_handler` once the body is read. */
  function ActuatorsAnswer(s: State, now: nat, a: Actuators): Answer {
    if !ManualAllowed(s, now) then Forbidden
    else if a.fan && !a.window then BadRequest
    else Accepted
  }

  function ActuatorsPost(s: State, now: nat, a: Actuators): State {
    if ActuatorsAnswer(s, now, a) == Accepted then Publish(s.(act := a)) else s
  }

  /** `mode_post_handler` once the body is read. */
  function ModePost(s: State, mode: int): State {
    if mode < 0 || mode > 2 then s else s.(mode := mode)
  }

  /** `schedule_post_handler`: at most the first eight periods read replace the schedule. */
  function SchedulePost(s: State, periods: seq<Period>): State {
    s.(schedule := if |periods| <= MAX_PERIODS then periods else periods[..MAX_PERIODS])
  }

  // ---- runs ----

  datatype Event =
    | IndoorMessage(temp: real, humidity: real, aq: byte, at: int)
    | OutdoorMessage(temp: real, humidity: real, aq: byte, at: int)
    | WindMessage(speed: real, at: int)
    | TimeoutCheck(at: int)
    | Tick(now: nat)
    | PostActuators(now: nat, act: Actuators)
    | PostMode(mode: int)
    | PostSchedule(periods: seq<Period>)

  function Step(s: State, e: Event): State {
    match e
    case IndoorMessage(temp, humidity, aq, at) => s.(indoor := Air(humidity, temp, aq, true, at))
    case OutdoorMessage(temp, humidity, aq, at) => s.(outdoor := Air(humidity, temp, aq, true, at))
    case WindMessage(speed, at) => s.(wind := Wind(speed, true, at))
    case TimeoutCheck(at) => Timeouts(s, at)
    case Tick(now) => AutoUpdate(s, now)
    case PostActuators(now, act) => ActuatorsPost(s, now, act)
    case PostMode(mode) => ModePost(s, mode)
    case PostSchedule(periods) => SchedulePost(s, periods)
  }

  function Run(s: State, events: seq<Event>): State
    decreases |events|
  {
    if events == [] then s else Run(Step(s, events[0]), events[1..])
  }
}
