/**
 * The single-intersection controller ("the brain"), stated as values.
 *
 * `Ctl` holds the process-wide globals of the controller, `World` adds what it has
 * emitted so far: every publish on the bus in order (signal commands, governor
 * commands, dashboard snapshots) and every audit row.  Each handler of the
 * controller is a function from the world before it to the world after it; the
 * class in module Brain runs the same handlers imperatively and is proved to end
 * in exactly these worlds.
 */
module Intersection {
  import opened Wrappers
  import GreenTiming
  import Governor

  /** The four approaches; North is the demand-actuated primary arm. */
  datatype Arm = North | East | South | West

  datatype Color = Red | Yellow | Green

  /** The secondary arms, in the order the cycling task grants them. */
  const SecondaryArms: seq<Arm> := [East, South, West]

  /** The per-arm vehicle counts: a dictionary whose four keys are fixed. */
  datatype Queues = Queues(north: nat, east: nat, south: nat, west: nat) {

    function Get(a: Arm): nat
    {
      match a
      case North => north
      case East => east
      case South => south
      case West => west
    }
  }

  /** The state pushed to the dashboard. */
  datatype Snapshot = Snapshot(activeArm: Arm, color: Color, queues: Queues, emergency: bool)

  /** One publish on the bus. */
  datatype Publish =
    | Signal(color: Color, duration: int)   // city/signal
    | GovernorCmd(pwm: int)                 // city/governor
    | Dashboard(state: Snapshot)            // city/dashboard/state

  /** The JSON payload column of an audit row. */
  datatype AuditPayload =
    | NorthGreenLog(duration: int, queue: nat)
    | EmergencyLog(action: string)
    | SettingsLog(danger: Option<bool>, manualLimit: Option<int>)

  datatype AuditRow = AuditRow(action: string, payload: AuditPayload)

  const NorthGreenAction: string := "SYS_1_NORTH_GREEN"
  const EmergencyAction: string := "SYS_2_EMERGENCY"
  const SettingsAction: string := "SYS_3_SETTINGS"
  const ForcedNorthGreen: string := "Forced North Green"
  const CycleComplete: string := "cycle_complete"

  /** Green time announced for an ambulance, in seconds. */
  const EmergencyGreen: int := 30
  /** An ambulance closer than this many metres is an emergency. */
  const EmergencyRadius: real := 200.0
  /** The distance assumed when a proximity report carries none. */
  const DefaultDistance: real := 1000.0

  /**
   * An inbound message after decoding.  `Undecodable` is a payload that does
   * not decode as text or is not JSON, on any topic; the other alternatives are the five subscribed topics
   * with the payload keys the controller reads.
   */
  datatype Event =
    | Undecodable
    | RoadIn                                                  // road/in
    | RoadOut                                                 // road/out
    | CityStatus(state: Option<string>)                       // city/status
    | CitySettings(danger: Option<bool>, manualLimit: Option<int>)  // city/settings
    | AmbulanceGps(distance: Option<real>)                    // v2i/ambulance/gps

  /** The controller's globals. */
  datatype Ctl = Ctl(
    queues: Queues,
    activeArm: Arm,
    color: Color,
    isCycling: bool,
    emergencyActive: bool,
    isDangerous: bool,
    manualLimit: int)

  /** The controller together with everything it has published and audited. */
  datatype World = World(ctl: Ctl, published: seq<Publish>, audit: seq<AuditRow>)

  /** Nothing emitted before `w` is lost or rewritten in `r`. */
  predicate Extends(w: World, r: World)
  {
    w.published <= r.published && w.audit <= r.audit
  }

  /** The start-up values of the globals. */
  const InitialQueues: Queues := Queues(0, 1, 0, 2)

  function Initial(): (w: World)
    ensures w.published == [] && w.audit == []
    ensures w.ctl.activeArm == North && w.ctl.color == Red
    ensures !w.ctl.isCycling && !w.ctl.emergencyActive && !w.ctl.isDangerous
    ensures w.ctl.manualLimit == 255
  {
    World(Ctl(InitialQueues, North, Red, false, false, false, 255), [], [])
  }

  function Snap(c: Ctl): Snapshot
  {
    Snapshot(c.activeArm, c.color, c.queues, c.emergencyActive)
  }

  /** broadcast_dashboard: publish the current snapshot. */
  function Broadcast(w: World): (r: World)
    ensures r.ctl == w.ctl && r.audit == w.audit
    ensures r.published == w.published + [Dashboard(Snap(w.ctl))]
  {
    w.(published := w.published + [Dashboard(Snap(w.ctl))])
  }

  function WithCtl(w: World, c: Ctl): World
  {
    w.(ctl := c)
  }

  /**
   * trigger_north: North becomes the active arm; it turns green for the green
   * duration of its queue when it has demand, and red otherwise.
   */
  function TriggerNorth(w: World): (r: World)
    ensures Extends(w, r)
    ensures r.ctl.queues == w.ctl.queues
    ensures r.ctl.emergencyActive == w.ctl.emergencyActive
    ensures r.ctl.isDangerous == w.ctl.isDangerous && r.ctl.manualLimit == w.ctl.manualLimit
  {
    var c := w.ctl.(activeArm := North);
    var q := c.queues.north;
    if q > 0 then
      var dur := GreenTiming.GreenSeconds(q);
      Broadcast(World(c.(isCycling := true, color := Green),
                      w.published + [Signal(Green, dur)],
                      w.audit + [AuditRow(NorthGreenAction, NorthGreenLog(dur, q))]))
    else
      Broadcast(WithCtl(w, c.(isCycling := false, color := Red)))
  }

  /**
   * One evaluation of `emergency_active` inside the cycling task.  The flag is
   * shared with the message handler, which may have changed it while the task
   * slept: the next value of `readings` is what the task sees.  Once the
   * readings run out the flag keeps its value.
   */
  function Checkpoint(w: World, readings: seq<bool>): (r: (World, seq<bool>))
    ensures r.0 == WithCtl(w, r.0.ctl) && r.0.ctl == w.ctl.(emergencyActive := r.0.ctl.emergencyActive)
    ensures readings != [] ==> r.0.ctl.emergencyActive == readings[0] && r.1 == readings[1..]
    ensures readings == [] ==> r.0 == w && r.1 == []
  {
    if readings == [] then (w, [])
    else (WithCtl(w, w.ctl.(emergencyActive := readings[0])), readings[1..])
  }

  /**
   * One granted arm of the cycling loop: show it green, check the flag, and
   * unless it is set show it yellow and check again.
   */
  function ShowArm(w: World, arm: Arm, readings: seq<bool>): (r: (World, seq<bool>))
    ensures Extends(w, r.0) && r.0.audit == w.audit
    ensures r.0.ctl.queues == w.ctl.queues && r.0.ctl.isCycling == w.ctl.isCycling
    ensures r.0.ctl.isDangerous == w.ctl.isDangerous && r.0.ctl.manualLimit == w.ctl.manualLimit
  {
    var green := Checkpoint(Broadcast(WithCtl(w, w.ctl.(activeArm := arm, color := Green))), readings);
    var w1, rs1 := green.0, green.1;
    if w1.ctl.emergencyActive then (w1, rs1)
    else Checkpoint(Broadcast(WithCtl(w1, w1.ctl.(color := Yellow))), rs1)
  }

  /**
   * The `for arm in ["East", "South", "West"]` loop of cycle_dummy_arms over
   * the arms still to visit: check the flag, skip an empty arm, show a granted
   * arm; any check that finds the flag set ends the loop.
   */
  function CycleLoop(w: World, arms: seq<Arm>, readings: seq<bool>): (r: World)
    ensures Extends(w, r) && r.audit == w.audit
    ensures r.ctl.queues == w.ctl.queues && r.ctl.isCycling == w.ctl.isCycling
    ensures r.ctl.isDangerous == w.ctl.isDangerous && r.ctl.manualLimit == w.ctl.manualLimit
    decreases |arms|
  {
    if arms == [] then w
    else
      var before := Checkpoint(w, readings);
      var w0, rs0 := before.0, before.1;
      if w0.ctl.emergencyActive then w0
      else if w0.ctl.queues.Get(arms[0]) == 0 then CycleLoop(w0, arms[1..], rs0)
      else
        var shown := ShowArm(w0, arms[0], rs0);
        var w2, rs2 := shown.0, shown.1;
        if w2.ctl.emergencyActive then w2
        else CycleLoop(w2, arms[1..], rs2)
  }

  /**
   * cycle_dummy_arms, run to completion: set is_cycling, walk the secondary arms,
   * hand control back to a red North, and re-grant North when it has demand and
   * there is no emergency.
   */
  function CycleDummyArms(w: World, readings: seq<bool>): (r: World)
    ensures Extends(w, r)
    ensures r.ctl.activeArm == North
  {
    var w1 := CycleLoop(WithCtl(w, w.ctl.(isCycling := true)), SecondaryArms, readings);
    var w2 := Broadcast(WithCtl(w1, w1.ctl.(activeArm := North, color := Red)));
    var w3 := WithCtl(w2, w2.ctl.(isCycling := false));
    if w3.ctl.queues.north > 0 && !w3.ctl.emergencyActive then TriggerNorth(w3) else w3
  }

  /** process_system_2: while the emergency flag is set, force North green for the ambulance. */
  function ProcessSystem2(w: World): (r: World)
    ensures Extends(w, r)
  {
    if w.ctl.emergencyActive then
      Broadcast(World(w.ctl.(activeArm := North, color := Green),
                      w.published + [Signal(Green, EmergencyGreen)],
                      w.audit + [AuditRow(EmergencyAction, EmergencyLog(ForcedNorthGreen))]))
    else w
  }

  /** process_system_3: publish the governor level for the current queue and settings. */
  function ProcessSystem3(w: World): (r: World)
    ensures r.ctl == w.ctl && r.audit == w.audit
    ensures r.published == w.published + [GovernorCmd(Governor.Pwm(w.ctl.queues.north, w.ctl.isDangerous, w.ctl.manualLimit))]
  {
    w.(published := w.published + [GovernorCmd(Governor.Pwm(w.ctl.queues.north, w.ctl.isDangerous, w.ctl.manualLimit))])
  }

  /** The wake-up condition an arrival tests before calling trigger_north. */
  predicate NorthAsleep(c: Ctl)
  {
    c.activeArm == North && c.color == Red && !c.isCycling && !c.emergencyActive
  }

  function ApplySettings(c: Ctl, danger: Option<bool>, manualLimit: Option<int>): Ctl
  {
    c.(isDangerous := danger.GetOr(c.isDangerous), manualLimit := manualLimit.GetOr(c.manualLimit))
  }

  /**
   * on_message: one inbound message, with the cycling task it may start run to
   * completion; `readings` feeds that task's emergency checks.
   */
  function OnMessage(w: World, ev: Event, readings: seq<bool>): (r: World)
    ensures Extends(w, r)
  {
    match ev
    case Undecodable => w
    case RoadIn =>
      var q := w.ctl.queues;
      var w1 := Broadcast(ProcessSystem3(WithCtl(w, w.ctl.(queues := q.(north := q.north + 1)))));
      if NorthAsleep(w1.ctl) then TriggerNorth(w1) else w1
    case RoadOut =>
      var q := w.ctl.queues;
      var left := if q.north >= 1 then q.north - 1 else 0;
      Broadcast(ProcessSystem3(WithCtl(w, w.ctl.(queues := q.(north := left)))))
    case CityStatus(state) =>
      if state == Some(CycleComplete) && w.ctl.activeArm == North && !w.ctl.emergencyActive then
        CycleDummyArms(Broadcast(WithCtl(w, w.ctl.(color := Red))), readings)
      else w
    case CitySettings(danger, manualLimit) =>
      var w1 := ProcessSystem3(WithCtl(w, ApplySettings(w.ctl, danger, manualLimit)));
      w1.(audit := w1.audit + [AuditRow(SettingsAction, SettingsLog(danger, manualLimit))])
    case AmbulanceGps(distance) =>
      ProcessSystem2(WithCtl(w, w.ctl.(emergencyActive := distance.GetOr(DefaultDistance) < EmergencyRadius)))
  }
}
