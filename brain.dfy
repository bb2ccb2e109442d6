/**
 * The intersection controller as the program runs it: the module-level globals
 * become the fields of one `Controller` object, each handler a method that
 * updates them in place.  Publishes on the bus and audit rows are appended to
 * ghost logs.  Every method but `LogEvent`, which appends one audit row, is
 * proved to leave the controller and its logs in exactly the world that the
 * corresponding function of module Intersection computes from the world before
 * the call.
 */
module Brain {
  import opened Wrappers
  import opened Intersection
  import GreenTiming
  import Governor
  import IntersectionProps

  class Controller {
    var queues: Queues
    var activeArm: Arm
    var signalColor: Color
    var isCycling: bool
    var emergencyActive: bool
    var isDangerous: bool
    var manualLimit: int

    /** Everything published on the bus so far, in order. */
    ghost var published: seq<Publish>
    /** The audit trail so far, in order. */
    ghost var audit: seq<AuditRow>

    /** The controller and its logs as a value. */
    ghost function Model(): World
      reads this
    {
      World(Ctl(queues, activeArm, signalColor, isCycling, emergencyActive, isDangerous, manualLimit),
            published, audit)
    }

    /** The globals at start-up, with nothing published or audited yet. */
    constructor ()
      ensures Model() == Initial()
    {
      queues := InitialQueues;
      activeArm := North;
      signalColor := Red;
      isCycling := false;
      emergencyActive := false;
      isDangerous := false;
      manualLimit := 255;
      published := [];
      audit := [];
    }

    /** broadcast_dashboard: publish the current snapshot to the dashboard topic. */
    method BroadcastDashboard()
      modifies this`published
      ensures Model() == Broadcast(old(Model()))
    {
      published := published + [Dashboard(Snap(Model().ctl))];
    }

    /** log_event: append one row to the audit trail. */
    method LogEvent(row: AuditRow)
      modifies this`audit
      ensures audit == old(audit) + [row]
    {
      audit := audit + [row];
    }

    /** trigger_north */
    method TriggerNorth()
      modifies this
      ensures Model() == Intersection.TriggerNorth(old(Model()))
    {
      activeArm := North;
      if queues.north > 0 {
        isCycling := true;
        var dur := GreenTiming.GreenSeconds(queues.north);
        signalColor := Green;
        published := published + [Signal(Green, dur)];
        LogEvent(AuditRow(NorthGreenAction, NorthGreenLog(dur, queues.north)));
      } else {
        isCycling := false;
        signalColor := Red;
      }
      BroadcastDashboard();
    }

    /**
     * One evaluation of `emergency_active` by the cycling task: the flag takes
     * the next value of `readings`, the value the message handler left in it
     * meanwhile; `rest` is what remains for the later checks.
     */
    method ReadEmergencyFlag(readings: seq<bool>) returns (rest: seq<bool>)
      modifies this`emergencyActive
      ensures Model() == Checkpoint(old(Model()), readings).0
      ensures rest == Checkpoint(old(Model()), readings).1
    {
      if readings == [] {
        rest := [];
      } else {
        emergencyActive := readings[0];
        rest := readings[1..];
      }
    }

    /**
     * The body of the cycling loop for an arm with demand: show it green, sleep
     * and check the flag, then (unless it was set) show it yellow, sleep and check.
     */
    method ShowArm(arm: Arm, readings: seq<bool>) returns (rest: seq<bool>)
      modifies this
      ensures Model() == Intersection.ShowArm(old(Model()), arm, readings).0
      ensures rest == Intersection.ShowArm(old(Model()), arm, readings).1
    {
      activeArm := arm;
      signalColor := Green;
      BroadcastDashboard();
      // time.sleep(dur) for the arm's green duration
      rest := ReadEmergencyFlag(readings);
      if emergencyActive {
        return;
      }
      signalColor := Yellow;
      BroadcastDashboard();
      // time.sleep(2) for the yellow clearance
      rest := ReadEmergencyFlag(rest);
    }

    /**
     * The `for arm in ["East", "South", "West"]` loop of cycle_dummy_arms.  Each
     * `time.sleep` is a checkpoint at which the emergency flag is read again
     * from `readings`.
     */
    method CycleSecondaryArms(readings: seq<bool>)
      modifies this
      ensures Model() == CycleLoop(old(Model()), SecondaryArms, readings)
    {
      ghost var target := CycleLoop(Model(), SecondaryArms, readings);
      var arms := SecondaryArms;
      var rest := readings;
      for i := 0 to |arms|
        invariant CycleLoop(Model(), arms[i..], rest) == target
      {
        ghost var head, headRest := Model(), rest;
        assert arms[i..][0] == arms[i] && arms[i..][1..] == arms[i + 1..];
        var arm := arms[i];
        rest := ReadEmergencyFlag(rest);
        if emergencyActive {
          break;
        }
        if queues.Get(arm) == 0 {
          IntersectionProps.CycleLoopSkips(head, arms[i..], headRest);
          continue;
        }
        IntersectionProps.CycleLoopGrants(head, arms[i..], headRest);
        rest := ShowArm(arm, rest);
        if emergencyActive {
          break;
        }
      }
    }

    /** cycle_dummy_arms, run synchronously, its flag checks reading `readings`. */
    method CycleDummyArms(readings: seq<bool>)
      modifies this
      ensures Model() == Intersection.CycleDummyArms(old(Model()), readings)
    {
      isCycling := true;
      CycleSecondaryArms(readings);
      activeArm := North;
      signalColor := Red;
      BroadcastDashboard();
      isCycling := false;
      if queues.north > 0 && !emergencyActive {
        TriggerNorth();
      }
    }

    /** process_system_2 */
    method ProcessSystem2()
      modifies this
      ensures Model() == Intersection.ProcessSystem2(old(Model()))
    {
      if emergencyActive {
        activeArm := North;
        signalColor := Green;
        published := published + [Signal(Green, EmergencyGreen)];
        LogEvent(AuditRow(EmergencyAction, EmergencyLog(ForcedNorthGreen)));
        BroadcastDashboard();
      }
    }

    /** process_system_3: publish the governor level. */
    method ProcessSystem3()
      modifies this`published
      ensures Model() == Intersection.ProcessSystem3(old(Model()))
    {
      var pwm := Governor.Pwm(queues.north, isDangerous, manualLimit);
      published := published + [GovernorCmd(pwm)];
    }

    /** The `road/in` branch of on_message: one more vehicle queued on North. */
    method OnArrival()
      modifies this
      ensures Model() == Intersection.OnMessage(old(Model()), RoadIn, [])
    {
      queues := queues.(north := queues.north + 1);
      ProcessSystem3();
      BroadcastDashboard();
      if activeArm == North && signalColor == Red && !isCycling && !emergencyActive {
        TriggerNorth();
      }
    }

    /** The `road/out` branch of on_message: one vehicle fewer on North, never below zero. */
    method OnDeparture()
      modifies this
      ensures Model() == Intersection.OnMessage(old(Model()), RoadOut, [])
    {
      queues := queues.(north := if queues.north >= 1 then queues.north - 1 else 0);
      ProcessSystem3();
      BroadcastDashboard();
    }

    /** The `city/status` branch of on_message: `cycle_complete` starts the cycling task. */
    method OnStatus(state: Option<string>, readings: seq<bool>)
      modifies this
      ensures Model() == Intersection.OnMessage(old(Model()), CityStatus(state), readings)
    {
      if state == Some(CycleComplete) && activeArm == North && !emergencyActive {
        signalColor := Red;
        BroadcastDashboard();
        CycleDummyArms(readings);
      }
    }

    /** The `city/settings` branch of on_message: overwrite the settings present, then audit them. */
    method OnSettings(danger: Option<bool>, limit: Option<int>)
      modifies this
      ensures Model() == Intersection.OnMessage(old(Model()), CitySettings(danger, limit), [])
    {
      if danger.Some? {
        isDangerous := danger.value;
      }
      if limit.Some? {
        manualLimit := limit.value;
      }
      ProcessSystem3();
      LogEvent(AuditRow(SettingsAction, SettingsLog(danger, limit)));
    }

    /** The `v2i/ambulance/gps` branch of on_message: an ambulance within 200 m is an emergency. */
    method OnAmbulance(distance: Option<real>)
      modifies this
      ensures Model() == Intersection.OnMessage(old(Model()), AmbulanceGps(distance), [])
    {
      emergencyActive := distance.GetOr(DefaultDistance) < EmergencyRadius;
      ProcessSystem2();
    }

    /**
     * on_message: dispatch one decoded message by topic.  A cycle that a
     * `cycle_complete` starts runs to completion here, its checks reading
     * `readings`; no other topic reads them.
     */
    method OnMessage(ev: Event, readings: seq<bool>)
      modifies this
      ensures Model() == Intersection.OnMessage(old(Model()), ev, readings)
    {
      match ev
      case Undecodable =>
      case RoadIn => OnArrival();
      case RoadOut => OnDeparture();
      case CityStatus(state) => OnStatus(state, readings);
      case CitySettings(danger, limit) => OnSettings(danger, limit);
      case AmbulanceGps(distance) => OnAmbulance(distance);
    }
  }
}
