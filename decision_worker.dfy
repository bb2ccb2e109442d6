/**
 * The rule-based decision worker: each sensor report on `sensor/road1/data`
 * becomes one control decision, published on `control/road1/cmd` and audited.
 */
module DecisionWorker {
  import opened Wrappers

  const PriorityMode: string := "priority_mode"
  const ReduceSpeed: string := "reduce_speed"
  const NormalAction: string := "normal"

  /** A published decision: the JSON object's `action`, optional `signal`, `speed_limit` and `reason`. */
  datatype Decision = Decision(action: string, signal: Option<string>, speedLimit: int, reason: string)

  /**
   * A sensor report after decoding; a key absent from the payload is `None`.
   * `Undecodable` is any payload that raises before a decision is made: one
   * that does not decode or parse, or one that parses to a non-object.
   */
  datatype SensorMessage =
    | Undecodable
    | Report(vehicleCount: Option<int>, avgSpeed: Option<real>, emergencyDetected: Option<bool>)

  /** One audit row: the action label and the decision as its payload. */
  datatype AuditRow = AuditRow(action: string, payload: Decision)

  const EmergencyDecision: Decision := Decision(PriorityMode, Some("green"), 30, "emergency")
  const HeavyDecision: Decision := Decision(ReduceSpeed, None, 40, "heavy_congestion")
  const ModerateDecision: Decision := Decision(ReduceSpeed, None, 50, "moderate_congestion")
  const NormalDecision: Decision := Decision(NormalAction, None, 60, "normal")

  /**
   * The rule table, first match wins: emergency, heavy congestion (more than
   * 25 vehicles below 30), moderate congestion (more than 15 below 40), normal.
   */
  function Decide(vehicleCount: int, avgSpeed: real, emergency: bool): (d: Decision)
    ensures d in {EmergencyDecision, HeavyDecision, ModerateDecision, NormalDecision}
    ensures d.speedLimit in {30, 40, 50, 60}
    ensures d.action == PriorityMode <==> emergency
    ensures d.action == ReduceSpeed <==> !emergency && vehicleCount > 15 && avgSpeed < 40.0
    ensures d.action == NormalAction <==> !emergency && (vehicleCount <= 15 || avgSpeed >= 40.0)
    ensures d == HeavyDecision <==> !emergency && vehicleCount > 25 && avgSpeed < 30.0
    ensures d == ModerateDecision <==> !emergency && vehicleCount > 15 && avgSpeed < 40.0 && !(vehicleCount > 25 && avgSpeed < 30.0)
    ensures d.signal.Some? <==> emergency
  {
    if emergency then EmergencyDecision
    else if vehicleCount > 25 && avgSpeed < 30.0 then HeavyDecision
    else if vehicleCount > 15 && avgSpeed < 40.0 then ModerateDecision
    else NormalDecision
  }

  /** An emergency decides priority mode at 30 whatever the count and the speed. */
  lemma EmergencyTakesPriority(vehicleCount: int, avgSpeed: real)
    ensures Decide(vehicleCount, avgSpeed, true) == EmergencyDecision
  {
  }

  /** Heavy congestion is tested first, although every heavy report is also a moderate one. */
  lemma HeavyShadowsModerate(vehicleCount: int, avgSpeed: real)
    requires vehicleCount > 25 && avgSpeed < 30.0
    ensures vehicleCount > 15 && avgSpeed < 40.0
    ensures Decide(vehicleCount, avgSpeed, false) == HeavyDecision
  {
  }

  /** More vehicles or slower traffic never raise the speed limit; neither does an emergency. */
  lemma SpeedLimitMonotone(vc1: int, s1: real, vc2: int, s2: real, emergency: bool)
    requires vc1 <= vc2 && s2 <= s1
    ensures Decide(vc2, s2, emergency).speedLimit <= Decide(vc1, s1, emergency).speedLimit
    ensures Decide(vc1, s1, true).speedLimit <= Decide(vc1, s1, emergency).speedLimit
  {
  }

  /** The decision for a report, with the defaults of a missing key: no vehicles, speed 0, no emergency. */
  function DecisionFor(vehicleCount: Option<int>, avgSpeed: Option<real>, emergencyDetected: Option<bool>): Decision
  {
    Decide(vehicleCount.GetOr(0), avgSpeed.GetOr(0.0), emergencyDetected.GetOr(false))
  }

  /** A report without any of the three keys is a normal decision at 60. */
  lemma EmptyReportIsNormal()
    ensures DecisionFor(None, None, None) == NormalDecision
  {
  }

  /**
   * on_message: a report that decodes yields exactly one published decision and
   * one audit row labelled with that decision's action; one that does not decode
   * yields neither.
   */
  function OnMessage(msg: SensorMessage): (r: (seq<Decision>, seq<AuditRow>))
    ensures msg.Undecodable? ==> r.0 == [] && r.1 == []
    ensures msg.Report? ==>
      && |r.0| == 1 && |r.1| == 1
      && r.0[0] == DecisionFor(msg.vehicleCount, msg.avgSpeed, msg.emergencyDetected)
      && r.1[0].action == r.0[0].action && r.1[0].payload == r.0[0]
  {
    match msg
    case Undecodable => ([], [])
    case Report(vc, speed, emergency) =>
      var decision := DecisionFor(vc, speed, emergency);
      ([decision], [AuditRow(decision.action, decision)])
  }
}
