/**
 * What the controller's handlers promise, proved about the functions of module
 * Intersection: the cycling order and skipping, how cycling ends, the effect of
 * every message kind, and invariants of every run of messages from start-up.
 */
module IntersectionProps {
  import opened Wrappers
  import opened Intersection
  import GreenTiming
  import Governor

  // ---------------------------------------------------------------------------
  // The cycling task
  // ---------------------------------------------------------------------------

  /** The dashboard snapshot of `arm` shown in `color` during cycling. */
  function Shown(q: Queues, arm: Arm, color: Color): Publish
  {
    Dashboard(Snapshot(arm, color, q, false))
  }

  /**
   * The reference schedule: what cycling shows when nothing interrupts it —
   * for each arm in order that has demand, green and then yellow; nothing for
   * an empty arm.
   */
  function Schedule(q: Queues, arms: seq<Arm>): seq<Publish>
    decreases |arms|
  {
    if arms == [] then []
    else
      (if q.Get(arms[0]) == 0 then [] else [Shown(q, arms[0], Green), Shown(q, arms[0], Yellow)])
      + Schedule(q, arms[1..])
  }

  /** Every phase of the schedule belongs to one of `arms`, has demand and is green or yellow. */
  lemma {:induction false} ScheduleGrantsOnlyDemand(q: Queues, arms: seq<Arm>)
    ensures forall i :: 0 <= i < |Schedule(q, arms)| ==>
      var p := Schedule(q, arms)[i];
      p.Dashboard? && p.state.activeArm in arms && q.Get(p.state.activeArm) > 0
      && p.state.color != Red && !p.state.emergency
    decreases |arms|
  {
    if arms != [] {
      ScheduleGrantsOnlyDemand(q, arms[1..]);
      var head := if q.Get(arms[0]) == 0 then [] else [Shown(q, arms[0], Green), Shown(q, arms[0], Yellow)];
      assert Schedule(q, arms) == head + Schedule(q, arms[1..]);
      forall i | 0 <= i < |Schedule(q, arms)|
        ensures var p := Schedule(q, arms)[i];
          p.Dashboard? && p.state.activeArm in arms && q.Get(p.state.activeArm) > 0
          && p.state.color != Red && !p.state.emergency
      {
        if i >= |head| {
          var p := Schedule(q, arms[1..])[i - |head|];
          assert p.state.activeArm in arms[1..];
        }
      }
    }
  }

  /** The secondary schedule, arm by arm: East, then South, then West. */
  lemma SecondaryScheduleOrder(q: Queues)
    ensures Schedule(q, SecondaryArms) ==
      (if q.east == 0 then [] else [Shown(q, East, Green), Shown(q, East, Yellow)])
      + (if q.south == 0 then [] else [Shown(q, South, Green), Shown(q, South, Yellow)])
      + (if q.west == 0 then [] else [Shown(q, West, Green), Shown(q, West, Yellow)])
  {
    assert SecondaryArms[1..] == [South, West];
    assert SecondaryArms[1..][1..] == [West];
    assert SecondaryArms[1..][1..][1..] == [];
  }

  /**
   * A granted arm shows green and then, unless a check found the flag set,
   * yellow; the flag it ends with was set before or read from `readings`.
   */
  lemma ShowArmPhases(w: World, arm: Arm, readings: seq<bool>)
    requires !w.ctl.emergencyActive
    ensures var step := ShowArm(w, arm, readings); var r, rest := step.0, step.1;
      var q := w.ctl.queues;
      && (r.published == w.published + [Shown(q, arm, Green)] || r.published == w.published + [Shown(q, arm, Green), Shown(q, arm, Yellow)])
      && (r.published == w.published + [Shown(q, arm, Green)] ==> r.ctl.emergencyActive)
      && (r.ctl.emergencyActive ==> true in readings)
      && (true in rest ==> true in readings)
  {
    var green := Broadcast(WithCtl(w, w.ctl.(activeArm := arm, color := Green)));
    var w1, rs1 := Checkpoint(green, readings).0, Checkpoint(green, readings).1;
    assert rs1 == [] || rs1 == readings[1..];
    if !w1.ctl.emergencyActive {
      var yellow := Broadcast(WithCtl(w1, w1.ctl.(color := Yellow)));
      assert Checkpoint(yellow, rs1).1 == [] || Checkpoint(yellow, rs1).1 == rs1[1..];
    }
  }

  /** One step of the cycling loop when the first check passes and the first arm is empty. */
  lemma CycleLoopSkips(w: World, arms: seq<Arm>, readings: seq<bool>)
    requires arms != []
    requires !Checkpoint(w, readings).0.ctl.emergencyActive && w.ctl.queues.Get(arms[0]) == 0
    ensures CycleLoop(w, arms, readings) == CycleLoop(Checkpoint(w, readings).0, arms[1..], Checkpoint(w, readings).1)
  {
  }

  /** One step of the cycling loop when the first check passes and the first arm has demand. */
  lemma CycleLoopGrants(w: World, arms: seq<Arm>, readings: seq<bool>)
    requires arms != []
    requires !Checkpoint(w, readings).0.ctl.emergencyActive && w.ctl.queues.Get(arms[0]) > 0
    ensures var s := ShowArm(Checkpoint(w, readings).0, arms[0], Checkpoint(w, readings).1);
      CycleLoop(w, arms, readings) == if s.0.ctl.emergencyActive then s.0 else CycleLoop(s.0, arms[1..], s.1)
  {
  }

  /**
   * The cycling loop shows a prefix of the reference schedule, `n` phases long;
   * it stops short only because a check found the emergency flag set, and the
   * flag it ends with was either set before the loop or read from `readings`.
   */
  lemma {:induction false} CycleLoopFollowsSchedule(w: World, arms: seq<Arm>, readings: seq<bool>)
    returns (n: nat)
    ensures n <= |Schedule(w.ctl.queues, arms)|
    ensures CycleLoop(w, arms, readings).published == w.published + Schedule(w.ctl.queues, arms)[..n]
    ensures n < |Schedule(w.ctl.queues, arms)| ==> CycleLoop(w, arms, readings).ctl.emergencyActive
    decreases |arms|, 1
  {
    if arms == [] {
      n := 0;
    } else if Checkpoint(w, readings).0.ctl.emergencyActive {
      n := 0;
    } else if w.ctl.queues.Get(arms[0]) == 0 {
      n := SkippedArmFollowsSchedule(w, arms, readings);
    } else {
      n := GrantedArmFollowsSchedule(w, arms, readings);
    }
  }

  /** CycleLoopFollowsSchedule, for a first arm that passes its check and is empty. */
  lemma {:induction false} SkippedArmFollowsSchedule(w: World, arms: seq<Arm>, readings: seq<bool>)
    returns (n: nat)
    requires arms != []
    requires !Checkpoint(w, readings).0.ctl.emergencyActive && w.ctl.queues.Get(arms[0]) == 0
    ensures n <= |Schedule(w.ctl.queues, arms)|
    ensures CycleLoop(w, arms, readings).published == w.published + Schedule(w.ctl.queues, arms)[..n]
    ensures n < |Schedule(w.ctl.queues, arms)| ==> CycleLoop(w, arms, readings).ctl.emergencyActive
    decreases |arms|, 0
  {
    var w0, rs0 := Checkpoint(w, readings).0, Checkpoint(w, readings).1;
    CycleLoopSkips(w, arms, readings);
    assert Schedule(w.ctl.queues, arms) == Schedule(w0.ctl.queues, arms[1..]);
    n := CycleLoopFollowsSchedule(w0, arms[1..], rs0);
  }

  /** CycleLoopFollowsSchedule, for a first arm that passes its check and has demand. */
  lemma {:induction false} GrantedArmFollowsSchedule(w: World, arms: seq<Arm>, readings: seq<bool>)
    returns (n: nat)
    requires arms != []
    requires !Checkpoint(w, readings).0.ctl.emergencyActive && w.ctl.queues.Get(arms[0]) > 0
    ensures n <= |Schedule(w.ctl.queues, arms)|
    ensures CycleLoop(w, arms, readings).published == w.published + Schedule(w.ctl.queues, arms)[..n]
    ensures n < |Schedule(w.ctl.queues, arms)| ==> CycleLoop(w, arms, readings).ctl.emergencyActive
    decreases |arms|, 0
  {
    var q := w.ctl.queues;
    var w0, rs0 := Checkpoint(w, readings).0, Checkpoint(w, readings).1;
    var w2, rs2 := ShowArm(w0, arms[0], rs0).0, ShowArm(w0, arms[0], rs0).1;
    ShowArmPhases(w0, arms[0], rs0);
    CycleLoopGrants(w, arms, readings);
    var green, yellow := Shown(q, arms[0], Green), Shown(q, arms[0], Yellow);
    var tail := Schedule(q, arms[1..]);
    assert Schedule(q, arms) == [green, yellow] + tail;
    if w2.ctl.emergencyActive {
      n := if w2.published == w.published + [green] then 1 else 2;
      assert ([green, yellow] + tail)[..n] == [green, yellow][..n];
    } else {
      var m := CycleLoopFollowsSchedule(w2, arms[1..], rs2);
      n := m + 2;
      PrefixAfterPhases(w.published, green, yellow, tail, m);
    }
  }

  /** Sequence bookkeeping for GrantedArmFollowsSchedule: both phases, then `m` more. */
  lemma PrefixAfterPhases(before: seq<Publish>, green: Publish, yellow: Publish, tail: seq<Publish>, m: nat)
    requires m <= |tail|
    ensures before + [green, yellow] + tail[..m] == before + ([green, yellow] + tail)[..m + 2]
  {
    assert ([green, yellow] + tail)[..m + 2] == [green, yellow] + tail[..m];
  }

  /**
   * The flag the cycling loop ends with was set before the loop or read set by
   * one of the checks the loop makes.
   */
  lemma CycleLoopFlagSource(w: World, arms: seq<Arm>, readings: seq<bool>)
    ensures CycleLoop(w, arms, readings).ctl.emergencyActive ==>
      w.ctl.emergencyActive
      || exists j :: 0 <= j < |readings| && j < Checks(w.ctl.queues, arms) && readings[j]
  {
    if !w.ctl.emergencyActive {
      CycleLoopExact(w, arms, readings);
      var k := FirstTrue(readings);
      assert k < |readings| ==> readings[k];
    }
  }

  /** Unless a check the loop makes reads the flag set, cycling shows the whole schedule. */
  lemma CycleLoopUninterrupted(w: World, arms: seq<Arm>, readings: seq<bool>)
    requires !w.ctl.emergencyActive
    requires forall j :: 0 <= j < |readings| && j < Checks(w.ctl.queues, arms) ==> !readings[j]
    ensures CycleLoop(w, arms, readings).published == w.published + Schedule(w.ctl.queues, arms)
    ensures !CycleLoop(w, arms, readings).ctl.emergencyActive
  {
    CycleLoopExact(w, arms, readings);
    var k := FirstTrue(readings);
    assert k < |readings| ==> readings[k];
    assert Schedule(w.ctl.queues, arms)[..|Schedule(w.ctl.queues, arms)|] == Schedule(w.ctl.queues, arms);
  }

  // The exact reference for the checks of the loop.

  /** The number of flag checks an uninterrupted loop makes: one per arm, one after each phase. */
  function Checks(q: Queues, arms: seq<Arm>): nat
  {
    |arms| + |Schedule(q, arms)|
  }

  /**
   * The number of schedule phases shown before check `k` of an uninterrupted
   * loop: an arm's head check comes before its phases, its green check after
   * one, its yellow check after two.
   */
  function PhasesBefore(q: Queues, arms: seq<Arm>, k: nat): (p: nat)
    ensures p <= |Schedule(q, arms)|
    decreases |arms|
  {
    if arms == [] || k == 0 then 0
    else if q.Get(arms[0]) == 0 then PhasesBefore(q, arms[1..], k - 1)
    else if k <= 2 then k
    else 2 + PhasesBefore(q, arms[1..], k - 3)
  }

  /** `k` is the index of the first set reading, or `|readings|` when none is set. */
  predicate FirstAlarm(readings: seq<bool>, k: nat)
  {
    k <= |readings| && (forall j :: 0 <= j < k ==> !readings[j]) && (k < |readings| ==> readings[k])
  }

  /** The index of the first set reading, `|readings|` when there is none. */
  function FirstTrue(readings: seq<bool>): (k: nat)
    ensures FirstAlarm(readings, k)
  {
    if readings == [] || readings[0] then 0
    else
      var k := 1 + FirstTrue(readings[1..]);
      assert forall j :: 1 <= j < k ==> readings[j] == readings[1..][j - 1];
      k
  }

  /** The loop is alarmed when one of its checks takes the first set reading. */
  predicate Alarmed(q: Queues, arms: seq<Arm>, readings: seq<bool>)
  {
    FirstTrue(readings) < |readings| && FirstTrue(readings) < Checks(q, arms)
  }

  /** How many schedule phases the loop shows for these readings. */
  function ShownPhases(q: Queues, arms: seq<Arm>, readings: seq<bool>): (n: nat)
    ensures n <= |Schedule(q, arms)|
  {
    if Alarmed(q, arms, readings) then PhasesBefore(q, arms, FirstTrue(readings)) else |Schedule(q, arms)|
  }

  /** Dropping `d` clear readings moves the first alarm `d` places forward. */
  lemma FirstAlarmSuffix(readings: seq<bool>, k: nat, d: nat)
    requires FirstAlarm(readings, k) && d <= k
    ensures FirstAlarm(readings[d..], k - d)
    ensures k - d < |readings[d..]| <==> k < |readings|
  {
    assert forall j :: 0 <= j < k - d ==> readings[d..][j] == readings[j + d];
  }

  /** A check with the flag clear: it stops exactly on the first alarm, otherwise drops a clear reading. */
  lemma CheckpointFirstAlarm(w: World, readings: seq<bool>, k: nat)
    requires !w.ctl.emergencyActive && FirstAlarm(readings, k)
    ensures var c := Checkpoint(w, readings); var d := if readings == [] then 0 else 1;
      && (c.0.ctl.emergencyActive <==> k < |readings| && k == 0)
      && (!c.0.ctl.emergencyActive ==> d <= k && |c.1| + d == |readings| && FirstAlarm(c.1, k - d))
  {
    if !Checkpoint(w, readings).0.ctl.emergencyActive {
      FirstAlarmSuffix(readings, k, if readings == [] then 0 else 1);
    }
  }

  /** A granted arm's two checks with the flag clear: they stop exactly on the first alarm. */
  lemma ShowArmFirstAlarm(w: World, arm: Arm, readings: seq<bool>, k: nat)
    requires !w.ctl.emergencyActive && FirstAlarm(readings, k)
    ensures var s := ShowArm(w, arm, readings); var q := w.ctl.queues;
      var d := if |readings| < 2 then |readings| else 2;
      && (k < |readings| && k < 2 ==>
            s.0.ctl.emergencyActive
            && s.0.published == w.published + [Shown(q, arm, Green), Shown(q, arm, Yellow)][..k + 1])
      && (!(k < |readings| && k < 2) ==>
            !s.0.ctl.emergencyActive
            && s.0.published == w.published + [Shown(q, arm, Green), Shown(q, arm, Yellow)]
            && d <= k && |s.1| + d == |readings| && FirstAlarm(s.1, k - d))
  {
    var q := w.ctl.queues;
    var green := Broadcast(WithCtl(w, w.ctl.(activeArm := arm, color := Green)));
    CheckpointFirstAlarm(green, readings, k);
    var w1, rs1 := Checkpoint(green, readings).0, Checkpoint(green, readings).1;
    if !w1.ctl.emergencyActive {
      var d1 := if readings == [] then 0 else 1;
      var yellow := Broadcast(WithCtl(w1, w1.ctl.(color := Yellow)));
      CheckpointFirstAlarm(yellow, rs1, k - d1);
      assert [Shown(q, arm, Green), Shown(q, arm, Yellow)][..2] == [Shown(q, arm, Green), Shown(q, arm, Yellow)];
    }
  }

  /**
   * With the flag clear at the start and the first alarm at index `k`: the
   * loop ends with the flag set exactly when one of its checks takes that
   * reading, having shown the phases before that check; otherwise it shows the
   * whole schedule and ends with the flag clear.
   */
  lemma {:induction false} CycleLoopFirstAlarm(w: World, arms: seq<Arm>, readings: seq<bool>, k: nat)
    requires !w.ctl.emergencyActive && FirstAlarm(readings, k)
    ensures var r := CycleLoop(w, arms, readings); var q := w.ctl.queues;
      var alarmed := k < |readings| && k < Checks(q, arms);
      && r.published == w.published + Schedule(q, arms)[..if alarmed then PhasesBefore(q, arms, k) else |Schedule(q, arms)|]
      && (r.ctl.emergencyActive <==> alarmed)
    decreases |arms|, 2
  {
    if arms == [] {
      assert Schedule(w.ctl.queues, arms) == [];
    } else {
      CheckpointFirstAlarm(w, readings, k);
      if Checkpoint(w, readings).0.ctl.emergencyActive {
        assert Schedule(w.ctl.queues, arms)[..0] == [];
      } else if w.ctl.queues.Get(arms[0]) == 0 {
        SkippedArmFirstAlarm(w, arms, readings, k);
      } else {
        GrantedArmFirstAlarm(w, arms, readings, k);
      }
    }
  }

  /** CycleLoopFirstAlarm, for a first arm that passes its check and is empty. */
  lemma {:induction false} SkippedArmFirstAlarm(w: World, arms: seq<Arm>, readings: seq<bool>, k: nat)
    requires !w.ctl.emergencyActive && FirstAlarm(readings, k) && arms != []
    requires !Checkpoint(w, readings).0.ctl.emergencyActive && w.ctl.queues.Get(arms[0]) == 0
    ensures var r := CycleLoop(w, arms, readings); var q := w.ctl.queues;
      var alarmed := k < |readings| && k < Checks(q, arms);
      && r.published == w.published + Schedule(q, arms)[..if alarmed then PhasesBefore(q, arms, k) else |Schedule(q, arms)|]
      && (r.ctl.emergencyActive <==> alarmed)
    decreases |arms|, 0
  {
    var q := w.ctl.queues;
    CheckpointFirstAlarm(w, readings, k);
    var w0, rs0 := Checkpoint(w, readings).0, Checkpoint(w, readings).1;
    var d := if readings == [] then 0 else 1;
    CycleLoopSkips(w, arms, readings);
    assert Schedule(q, arms) == Schedule(q, arms[1..]);
    assert Checks(q, arms) == 1 + Checks(q, arms[1..]);
    CycleLoopFirstAlarm(w0, arms[1..], rs0, k - d);
  }

  /** CycleLoopFirstAlarm, for a first arm that passes its check and has demand. */
  lemma {:induction false} GrantedArmFirstAlarm(w: World, arms: seq<Arm>, readings: seq<bool>, k: nat)
    requires !w.ctl.emergencyActive && FirstAlarm(readings, k) && arms != []
    requires !Checkpoint(w, readings).0.ctl.emergencyActive && w.ctl.queues.Get(arms[0]) > 0
    ensures var r := CycleLoop(w, arms, readings); var q := w.ctl.queues;
      var alarmed := k < |readings| && k < Checks(q, arms);
      && r.published == w.published + Schedule(q, arms)[..if alarmed then PhasesBefore(q, arms, k) else |Schedule(q, arms)|]
      && (r.ctl.emergencyActive <==> alarmed)
    decreases |arms|, 1
  {
    var q := w.ctl.queues;
    CheckpointFirstAlarm(w, readings, k);
    var w0, rs0 := Checkpoint(w, readings).0, Checkpoint(w, readings).1;
    var d1 := if readings == [] then 0 else 1;
    ShowArmFirstAlarm(w0, arms[0], rs0, k - d1);
    if ShowArm(w0, arms[0], rs0).0.ctl.emergencyActive {
      CycleLoopGrants(w, arms, readings);
      var green, yellow := Shown(q, arms[0], Green), Shown(q, arms[0], Yellow);
      var tail := Schedule(q, arms[1..]);
      assert Schedule(q, arms) == [green, yellow] + tail;
      assert d1 == 1 && 1 <= k <= 2 && PhasesBefore(q, arms, k) == k;
      assert ([green, yellow] + tail)[..k] == [green, yellow][..k];
    } else {
      ShownArmFirstAlarm(w, arms, readings, k);
    }
  }

  /** GrantedArmFirstAlarm, for a granted first arm whose two checks both read clear. */
  lemma {:induction false} ShownArmFirstAlarm(w: World, arms: seq<Arm>, readings: seq<bool>, k: nat)
    requires !w.ctl.emergencyActive && FirstAlarm(readings, k) && arms != []
    requires !Checkpoint(w, readings).0.ctl.emergencyActive && w.ctl.queues.Get(arms[0]) > 0
    requires !ShowArm(Checkpoint(w, readings).0, arms[0], Checkpoint(w, readings).1).0.ctl.emergencyActive
    ensures var r := CycleLoop(w, arms, readings); var q := w.ctl.queues;
      var alarmed := k < |readings| && k < Checks(q, arms);
      && r.published == w.published + Schedule(q, arms)[..if alarmed then PhasesBefore(q, arms, k) else |Schedule(q, arms)|]
      && (r.ctl.emergencyActive <==> alarmed)
    decreases |arms|, 0
  {
    var q := w.ctl.queues;
    CheckpointFirstAlarm(w, readings, k);
    var w0, rs0 := Checkpoint(w, readings).0, Checkpoint(w, readings).1;
    var d1 := if readings == [] then 0 else 1;
    ShowArmFirstAlarm(w0, arms[0], rs0, k - d1);
    CycleLoopGrants(w, arms, readings);
    var w2, rs2 := ShowArm(w0, arms[0], rs0).0, ShowArm(w0, arms[0], rs0).1;
    var green, yellow := Shown(q, arms[0], Green), Shown(q, arms[0], Yellow);
    var tail := Schedule(q, arms[1..]);
    assert Schedule(q, arms) == [green, yellow] + tail;
    assert Checks(q, arms) == 3 + Checks(q, arms[1..]);
    var d2 := if |rs0| < 2 then |rs0| else 2;
    var k2 := k - d1 - d2;
    CycleLoopFirstAlarm(w2, arms[1..], rs2, k2);
    var alarmed := k < |readings| && k < Checks(q, arms);
    var alarmed2 := k2 < |rs2| && k2 < Checks(q, arms[1..]);
    var m := if alarmed2 then PhasesBefore(q, arms[1..], k2) else |tail|;
    if k < |readings| {
      assert d1 == 1 && d2 == 2 && k >= 3;
      assert alarmed <==> alarmed2;
      assert PhasesBefore(q, arms, k) == 2 + PhasesBefore(q, arms[1..], k2);
    } else {
      assert !alarmed && !alarmed2;
    }
    assert (if alarmed then PhasesBefore(q, arms, k) else |Schedule(q, arms)|) == m + 2;
    PrefixAfterPhases(w.published, green, yellow, tail, m);
  }

  /**
   * The loop against the reference, for any readings: with the flag clear at
   * the start, it ends set exactly when a check it makes takes the first set
   * reading, and it shows exactly the phases before that check.
   */
  lemma CycleLoopExact(w: World, arms: seq<Arm>, readings: seq<bool>)
    requires !w.ctl.emergencyActive
    ensures CycleLoop(w, arms, readings).published
         == w.published + Schedule(w.ctl.queues, arms)[..ShownPhases(w.ctl.queues, arms, readings)]
    ensures CycleLoop(w, arms, readings).ctl.emergencyActive <==> Alarmed(w.ctl.queues, arms, readings)
  {
    CycleLoopFirstAlarm(w, arms, readings, FirstTrue(readings));
  }

  /**
   * A check whose reading is the alarm at index `k` sees the same world whether
   * or not the readings after `k` exist; if it is not itself that reading, the
   * alarm moves to index `k - 1` of what is left.
   */
  lemma CheckpointBeforeAlarm(w: World, readings: seq<bool>, k: nat)
    requires k < |readings| && readings[k]
    ensures Checkpoint(w, readings[..k + 1]).0 == Checkpoint(w, readings).0
    ensures k == 0 ==> Checkpoint(w, readings).0.ctl.emergencyActive
    ensures k > 0 ==>
      && k - 1 < |Checkpoint(w, readings).1| && Checkpoint(w, readings).1[k - 1]
      && Checkpoint(w, readings[..k + 1]).1 == Checkpoint(w, readings).1[..k]
  {
    assert readings[..k + 1][0] == readings[0];
    assert readings[..k + 1][1..] == readings[1..][..k];
  }

  /** CheckpointBeforeAlarm for a granted arm's two checks. */
  lemma ShowArmBeforeAlarm(w: World, arm: Arm, readings: seq<bool>, k: nat)
    requires k < |readings| && readings[k]
    ensures ShowArm(w, arm, readings[..k + 1]).0 == ShowArm(w, arm, readings).0
    ensures !ShowArm(w, arm, readings).0.ctl.emergencyActive ==>
      && k >= 2 && k - 2 < |ShowArm(w, arm, readings).1| && ShowArm(w, arm, readings).1[k - 2]
      && ShowArm(w, arm, readings[..k + 1]).1 == ShowArm(w, arm, readings).1[..k - 1]
  {
    var green := Broadcast(WithCtl(w, w.ctl.(activeArm := arm, color := Green)));
    CheckpointBeforeAlarm(green, readings, k);
    var w1, rs1 := Checkpoint(green, readings).0, Checkpoint(green, readings).1;
    if !w1.ctl.emergencyActive {
      var yellow := Broadcast(WithCtl(w1, w1.ctl.(color := Yellow)));
      CheckpointBeforeAlarm(yellow, rs1, k - 1);
    }
  }

  /**
   * The loop stops at the first check that reads the alarm: readings after an
   * alarm are never consumed, so dropping them changes nothing.
   */
  lemma {:induction false} CycleLoopStopsAtAlarm(w: World, arms: seq<Arm>, readings: seq<bool>, k: nat)
    requires k < |readings| && readings[k]
    ensures CycleLoop(w, arms, readings[..k + 1]) == CycleLoop(w, arms, readings)
    decreases |arms|
  {
    if arms != [] {
      CheckpointBeforeAlarm(w, readings, k);
      var w0, rs0 := Checkpoint(w, readings).0, Checkpoint(w, readings).1;
      if !w0.ctl.emergencyActive {
        if w.ctl.queues.Get(arms[0]) == 0 {
          CycleLoopSkips(w, arms, readings);
          CycleLoopSkips(w, arms, readings[..k + 1]);
          CycleLoopStopsAtAlarm(w0, arms[1..], rs0, k - 1);
        } else {
          CycleLoopGrants(w, arms, readings);
          CycleLoopGrants(w, arms, readings[..k + 1]);
          ShowArmBeforeAlarm(w0, arms[0], rs0, k - 1);
          var w2, rs2 := ShowArm(w0, arms[0], rs0).0, ShowArm(w0, arms[0], rs0).1;
          if !w2.ctl.emergencyActive {
            CycleLoopStopsAtAlarm(w2, arms[1..], rs2, k - 3);
          }
        }
      }
    }
  }

  /** cycle_dummy_arms never looks at a reading after the first alarm. */
  lemma CycleDummyArmsStopsAtAlarm(w: World, readings: seq<bool>, k: nat)
    requires k < |readings| && readings[k]
    ensures CycleDummyArms(w, readings[..k + 1]) == CycleDummyArms(w, readings)
  {
    CycleLoopStopsAtAlarm(WithCtl(w, w.ctl.(isCycling := true)), SecondaryArms, readings, k);
  }

  /** The North-red snapshot cycling ends with. */
  function NorthRed(q: Queues, emergency: bool): Publish
  {
    Dashboard(Snapshot(North, Red, q, emergency))
  }

  /**
   * How cycle_dummy_arms ends, however the loop exits: a prefix of the
   * schedule, then North red with cycling cleared; then North is re-granted,
   * with its signal command and audit row, exactly when it has demand and the
   * emergency flag is clear.
   */
  lemma CycleDummyArmsOutcome(w: World, readings: seq<bool>) returns (n: nat)
    ensures n <= |Schedule(w.ctl.queues, SecondaryArms)|
    ensures var r := CycleDummyArms(w, readings);
      var q := w.ctl.queues;
      var e := r.ctl.emergencyActive;
      var shown := w.published + Schedule(q, SecondaryArms)[..n] + [NorthRed(q, e)];
      && (n < |Schedule(q, SecondaryArms)| ==> e)
      && (e ==> w.ctl.emergencyActive ||
                exists j :: 0 <= j < |readings| && j < Checks(q, SecondaryArms) && readings[j])
      && r.ctl.activeArm == North && r.ctl.queues == q
      && r.ctl.isDangerous == w.ctl.isDangerous && r.ctl.manualLimit == w.ctl.manualLimit
      && (if q.north > 0 && !e then
            r.ctl.color == Green && r.ctl.isCycling
            && r.published == shown + [Signal(Green, GreenTiming.GreenSeconds(q.north)),
                                       Dashboard(Snapshot(North, Green, q, false))]
            && r.audit == w.audit + [AuditRow(NorthGreenAction,
                                              NorthGreenLog(GreenTiming.GreenSeconds(q.north), q.north))]
          else
            r.ctl.color == Red && !r.ctl.isCycling && r.published == shown && r.audit == w.audit)
  {
    n := CycleLoopFollowsSchedule(WithCtl(w, w.ctl.(isCycling := true)), SecondaryArms, readings);
    CycleLoopFlagSource(WithCtl(w, w.ctl.(isCycling := true)), SecondaryArms, readings);
  }

  /**
   * No ambulance before cycling and none read by a check it makes: the whole
   * schedule, then North red, then North again if it has demand.
   */
  lemma CycleDummyArmsUninterrupted(w: World, readings: seq<bool>)
    requires !w.ctl.emergencyActive
    requires forall j :: 0 <= j < |readings| && j < Checks(w.ctl.queues, SecondaryArms) ==> !readings[j]
    ensures !CycleDummyArms(w, readings).ctl.emergencyActive
    ensures w.published + Schedule(w.ctl.queues, SecondaryArms) + [NorthRed(w.ctl.queues, false)]
            <= CycleDummyArms(w, readings).published
    ensures CycleDummyArms(w, readings).ctl.color == Green <==> w.ctl.queues.north > 0
  {
    var n := CycleDummyArmsOutcome(w, readings);
    assert Schedule(w.ctl.queues, SecondaryArms)[..n] == Schedule(w.ctl.queues, SecondaryArms);
  }

  /**
   * cycle_dummy_arms against the reference, with the flag clear at the start:
   * it ends with the flag set exactly when one of its checks takes the first
   * set reading; it shows the schedule phases before that check, then North
   * red; and it re-grants North exactly when North has demand and no check
   * took an alarm.
   */
  lemma CycleDummyArmsFirstAlarm(w: World, readings: seq<bool>)
    requires !w.ctl.emergencyActive
    ensures var r := CycleDummyArms(w, readings);
      var q := w.ctl.queues;
      var a := Alarmed(q, SecondaryArms, readings);
      && (r.ctl.emergencyActive <==> a)
      && w.published + Schedule(q, SecondaryArms)[..ShownPhases(q, SecondaryArms, readings)] + [NorthRed(q, a)]
         <= r.published
      && (r.ctl.color == Green <==> q.north > 0 && !a)
  {
    var q := w.ctl.queues;
    var n := CycleDummyArmsOutcome(w, readings);
    var start := WithCtl(w, w.ctl.(isCycling := true));
    CycleLoopExact(start, SecondaryArms, readings);
    var m := ShownPhases(q, SecondaryArms, readings);
    assert |w.published + Schedule(q, SecondaryArms)[..n]| == |w.published + Schedule(q, SecondaryArms)[..m]|;
  }

  // ---------------------------------------------------------------------------
  // trigger_north
  // ---------------------------------------------------------------------------

  /**
   * trigger_north always makes North the active arm; with demand it turns
   * green, latches cycling, publishes one signal command and one audit row;
   * without demand it turns red, clears cycling and publishes no signal.
   */
  lemma TriggerNorthOutcome(w: World)
    ensures var r := TriggerNorth(w);
      var q := w.ctl.queues.north;
      var dur := GreenTiming.GreenSeconds(q);
      && r.ctl.activeArm == North
      && (q > 0 ==>
            r.ctl == w.ctl.(activeArm := North, color := Green, isCycling := true)
            && r.published == w.published + [Signal(Green, dur), Dashboard(Snap(r.ctl))]
            && r.audit == w.audit + [AuditRow(NorthGreenAction, NorthGreenLog(dur, q))])
      && (q == 0 ==>
            r.ctl == w.ctl.(activeArm := North, color := Red, isCycling := false)
            && r.published == w.published + [Dashboard(Snap(r.ctl))]
            && r.audit == w.audit)
  {
  }

  // ---------------------------------------------------------------------------
  // The message dispatcher
  // ---------------------------------------------------------------------------

  /** A payload that does not decode changes nothing and emits nothing. */
  lemma UndecodableIsIgnored(w: World, readings: seq<bool>)
    ensures OnMessage(w, Undecodable, readings) == w
  {
  }

  /** The queue after a message: +1 for an arrival, -1 floored at 0 for a departure, unchanged otherwise. */
  function ExpectedQueues(q: Queues, ev: Event): Queues
  {
    match ev
    case RoadIn => q.(north := q.north + 1)
    case RoadOut => q.(north := if q.north == 0 then 0 else q.north - 1)
    case _ => q
  }

  /** Only arrivals and departures change a queue, and only North's. */
  lemma OnMessageQueues(w: World, ev: Event, readings: seq<bool>)
    ensures OnMessage(w, ev, readings).ctl.queues == ExpectedQueues(w.ctl.queues, ev)
    ensures forall a :: a != North ==> OnMessage(w, ev, readings).ctl.queues.Get(a) == w.ctl.queues.Get(a)
  {
  }

  /**
   * An arrival recomputes the governor and broadcasts; it then wakes North —
   * which, having just gained a vehicle, always turns green — exactly when North
   * was the active arm, red, not cycling and not in an emergency.  Otherwise
   * nothing but the queue changes.
   */
  lemma ArrivalOutcome(w: World, readings: seq<bool>)
    ensures var r := OnMessage(w, RoadIn, readings);
      var c := w.ctl.(queues := w.ctl.queues.(north := w.ctl.queues.north + 1));
      var q := c.queues.north;
      var prefix := w.published + [GovernorCmd(Governor.Pwm(q, c.isDangerous, c.manualLimit)), Dashboard(Snap(c))];
      && (NorthAsleep(w.ctl) ==>
            r.ctl == c.(color := Green, isCycling := true)
            && r.published == prefix + [Signal(Green, GreenTiming.GreenSeconds(q)), Dashboard(Snap(r.ctl))]
            && r.audit == w.audit + [AuditRow(NorthGreenAction, NorthGreenLog(GreenTiming.GreenSeconds(q), q))])
      && (!NorthAsleep(w.ctl) ==> r == World(c, prefix, w.audit))
  {
  }

  /** A departure lowers North's queue (never below zero), recomputes the governor and broadcasts. */
  lemma DepartureOutcome(w: World, readings: seq<bool>)
    ensures var r := OnMessage(w, RoadOut, readings);
      var left := if w.ctl.queues.north == 0 then 0 else w.ctl.queues.north - 1;
      var c := w.ctl.(queues := w.ctl.queues.(north := left));
      r == World(c, w.published + [GovernorCmd(Governor.Pwm(left, c.isDangerous, c.manualLimit)), Dashboard(Snap(c))], w.audit)
  {
  }

  /**
   * A `cycle_complete` status starts cycling exactly when North is active and
   * there is no emergency, first broadcasting North red; any other status, or
   * that status at another moment, changes nothing.
   */
  lemma CycleCompleteOutcome(w: World, state: Option<string>, readings: seq<bool>)
    ensures var r := OnMessage(w, CityStatus(state), readings);
      var go := state == Some(CycleComplete) && w.ctl.activeArm == North && !w.ctl.emergencyActive;
      var red := w.ctl.(color := Red);
      && (go ==> r == CycleDummyArms(World(red, w.published + [NorthRed(w.ctl.queues, false)], w.audit), readings))
      && (go ==> |r.published| > |w.published| && r.published[|w.published|] == NorthRed(w.ctl.queues, false))
      && (!go ==> r == w)
  {
    var r := OnMessage(w, CityStatus(state), readings);
    var go := state == Some(CycleComplete) && w.ctl.activeArm == North && !w.ctl.emergencyActive;
    if go {
      var w1 := World(w.ctl.(color := Red), w.published + [NorthRed(w.ctl.queues, false)], w.audit);
      assert w1.published <= r.published;
      assert r.published[|w.published|] == w1.published[|w.published|];
    }
  }

  /**
   * There is no single-flight latch: a `cycle_complete` that arrives while
   * `is_cycling` is set runs the cycle exactly as one that arrives while it is
   * clear.
   */
  lemma CycleCompleteIgnoresLatch(w: World, readings: seq<bool>)
    requires w.ctl.activeArm == North && !w.ctl.emergencyActive
    ensures OnMessage(WithCtl(w, w.ctl.(isCycling := true)), CityStatus(Some(CycleComplete)), readings)
         == OnMessage(WithCtl(w, w.ctl.(isCycling := false)), CityStatus(Some(CycleComplete)), readings)
  {
  }

  /**
   * A settings message overwrites only the keys it carries, publishes the
   * governor level recomputed from the new settings, and audits the payload.
   */
  lemma SettingsOutcome(w: World, danger: Option<bool>, manualLimit: Option<int>, readings: seq<bool>)
    ensures var r := OnMessage(w, CitySettings(danger, manualLimit), readings);
      && r.ctl.isDangerous == (if danger.Some? then danger.value else w.ctl.isDangerous)
      && r.ctl.manualLimit == (if manualLimit.Some? then manualLimit.value else w.ctl.manualLimit)
      && r.ctl == w.ctl.(isDangerous := r.ctl.isDangerous, manualLimit := r.ctl.manualLimit)
      && r.published == w.published + [GovernorCmd(Governor.Pwm(w.ctl.queues.north, r.ctl.isDangerous, r.ctl.manualLimit))]
      && r.audit == w.audit + [AuditRow(SettingsAction, SettingsLog(danger, manualLimit))]
  {
  }

  /** Every governor level a message publishes respects the manual limit, and 90 while dangerous. */
  lemma GovernorCommandsCapped(w: World, ev: Event, readings: seq<bool>)
    ensures var r := OnMessage(w, ev, readings);
      forall i :: |w.published| <= i < |r.published| && r.published[i].GovernorCmd? ==>
        r.published[i].pwm <= r.ctl.manualLimit
        && (r.ctl.isDangerous ==> r.published[i].pwm <= Governor.DangerPwm)
  {
    match ev
    case Undecodable =>
    case RoadIn => ArrivalOutcome(w, readings);
    case RoadOut => DepartureOutcome(w, readings);
    case CityStatus(state) =>
      if state == Some(CycleComplete) && w.ctl.activeArm == North && !w.ctl.emergencyActive {
        CycleEmitsNoGovernorCommand(w, readings);
      }
    case CitySettings(danger, manualLimit) => SettingsOutcome(w, danger, manualLimit, readings);
    case AmbulanceGps(distance) => AmbulanceOutcome(w, distance, readings);
  }

  /** `b` extends `a` with publishes none of which is a governor command. */
  predicate AppendsNoGovernorCmd(a: seq<Publish>, b: seq<Publish>)
  {
    a <= b && forall i :: |a| <= i < |b| ==> !b[i].GovernorCmd?
  }

  lemma AppendsNoGovernorCmdTransitive(a: seq<Publish>, b: seq<Publish>, c: seq<Publish>)
    requires AppendsNoGovernorCmd(a, b) && AppendsNoGovernorCmd(b, c)
    ensures AppendsNoGovernorCmd(a, c)
  {
  }

  /** The cycling loop publishes dashboard snapshots only. */
  lemma CycleLoopNoGovernorCmd(w: World, arms: seq<Arm>, readings: seq<bool>)
    ensures AppendsNoGovernorCmd(w.published, CycleLoop(w, arms, readings).published)
  {
    var q := w.ctl.queues;
    var r := CycleLoop(w, arms, readings);
    var n := CycleLoopFollowsSchedule(w, arms, readings);
    ScheduleGrantsOnlyDemand(q, arms);
    forall i | |w.published| <= i < |r.published|
      ensures !r.published[i].GovernorCmd?
    {
      assert r.published[i] == Schedule(q, arms)[i - |w.published|];
    }
  }

  /** cycle_dummy_arms publishes snapshots and North's signal command, never a governor command. */
  lemma CycleDummyArmsNoGovernorCmd(w: World, readings: seq<bool>)
    ensures AppendsNoGovernorCmd(w.published, CycleDummyArms(w, readings).published)
  {
    var wc := WithCtl(w, w.ctl.(isCycling := true));
    var l := CycleLoop(wc, SecondaryArms, readings);
    CycleLoopNoGovernorCmd(wc, SecondaryArms, readings);
    var w2 := Broadcast(WithCtl(l, l.ctl.(activeArm := North, color := Red)));
    var w3 := WithCtl(w2, w2.ctl.(isCycling := false));
    assert AppendsNoGovernorCmd(l.published, w3.published);
    AppendsNoGovernorCmdTransitive(w.published, l.published, w3.published);
    if w3.ctl.queues.north > 0 && !w3.ctl.emergencyActive {
      TriggerNorthOutcome(w3);
      AppendsNoGovernorCmdTransitive(w.published, w3.published, TriggerNorth(w3).published);
    }
  }

  /** A cycle started by `cycle_complete` publishes no governor command at all. */
  lemma CycleEmitsNoGovernorCommand(w: World, readings: seq<bool>)
    requires w.ctl.activeArm == North && !w.ctl.emergencyActive
    ensures AppendsNoGovernorCmd(w.published, OnMessage(w, CityStatus(Some(CycleComplete)), readings).published)
  {
    var w1 := Broadcast(WithCtl(w, w.ctl.(color := Red)));
    CycleDummyArmsNoGovernorCmd(w1, readings);
    AppendsNoGovernorCmdTransitive(w.published, w1.published, CycleDummyArms(w1, readings).published);
  }

  /**
   * A proximity report sets the emergency flag to "closer than 200 m" (a report
   * without a distance counts as 1000 m).  When set, North is forced green and
   * one 30-second signal command and one audit row are emitted, leaving queues
   * and the cycling flag alone; when clear, nothing else changes.
   */
  lemma AmbulanceOutcome(w: World, distance: Option<real>, readings: seq<bool>)
    ensures var r := OnMessage(w, AmbulanceGps(distance), readings);
      var near := distance.Some? && distance.value < EmergencyRadius;
      && r.ctl.emergencyActive == near
      && (near ==>
            r.ctl == w.ctl.(emergencyActive := true, activeArm := North, color := Green)
            && r.published == w.published + [Signal(Green, EmergencyGreen), Dashboard(Snap(r.ctl))]
            && r.audit == w.audit + [AuditRow(EmergencyAction, EmergencyLog(ForcedNorthGreen))])
      && (!near ==> r == WithCtl(w, w.ctl.(emergencyActive := false)))
  {
  }

  // ---------------------------------------------------------------------------
  // Runs of messages
  // ---------------------------------------------------------------------------

  /** One message together with the emergency readings of any cycle it starts. */
  datatype Delivery = Delivery(event: Event, readings: seq<bool>)

  /** The controller after handling `ds` in order, one at a time. */
  function Run(w: World, ds: seq<Delivery>): World
    decreases |ds|
  {
    if ds == [] then w else Run(OnMessage(w, ds[0].event, ds[0].readings), ds[1..])
  }

  /**
   * The shape of the controller after each message of this model, in which a
   * cycle runs to completion inside the message that starts it: North is the
   * active arm, nothing is yellow, and the cycling flag is only ever left set by
   * a North green.  In the program the cycling task runs on its own thread, so
   * a message can arrive while East, South or West is active.
   */
  predicate Settled(c: Ctl)
  {
    c.activeArm == North && c.color != Yellow && (c.isCycling ==> c.color == Green)
  }

  lemma InitialSettled()
    ensures Settled(Initial().ctl)
  {
  }

  /** Every message takes a settled controller to a settled controller. */
  lemma OnMessageKeepsSettled(w: World, ev: Event, readings: seq<bool>)
    requires Settled(w.ctl)
    ensures Settled(OnMessage(w, ev, readings).ctl)
  {
    match ev
    case CityStatus(state) =>
      if state == Some(CycleComplete) && w.ctl.activeArm == North && !w.ctl.emergencyActive {
        var n := CycleDummyArmsOutcome(Broadcast(WithCtl(w, w.ctl.(color := Red))), readings);
      }
    case _ =>
  }

  /**
   * Over any run from start-up: the controller is settled after every message,
   * the audit trail and the publish log only grow, every queue but North's
   * keeps its start-up value.
   */
  lemma {:induction false} RunInvariants(w: World, ds: seq<Delivery>)
    requires Settled(w.ctl)
    ensures Settled(Run(w, ds).ctl)
    ensures Extends(w, Run(w, ds))
    ensures Run(w, ds).ctl.queues == w.ctl.queues.(north := Run(w, ds).ctl.queues.north)
    decreases |ds|
  {
    if ds != [] {
      var w1 := OnMessage(w, ds[0].event, ds[0].readings);
      OnMessageKeepsSettled(w, ds[0].event, ds[0].readings);
      OnMessageQueues(w, ds[0].event, ds[0].readings);
      RunInvariants(w1, ds[1..]);
    }
  }

  /** After each message of a run from start-up (cycles run to completion), North is the active arm. */
  lemma RunFromStartIsSettled(ds: seq<Delivery>)
    ensures Run(Initial(), ds).ctl.activeArm == North
    ensures Run(Initial(), ds).ctl.queues.east == 1 && Run(Initial(), ds).ctl.queues.south == 0
    ensures Run(Initial(), ds).ctl.queues.west == 2
  {
    InitialSettled();
    RunInvariants(Initial(), ds);
  }

  // ---------------------------------------------------------------------------
  // Scenarios
  // ---------------------------------------------------------------------------

  /** North holding three vehicles, asleep: a fourth arrival publishes a 13-second green. */
  lemma ArrivalGrantsThirteenSeconds(w: World, readings: seq<bool>)
    requires w.ctl.queues.north == 3 && NorthAsleep(w.ctl)
    ensures var r := OnMessage(w, RoadIn, readings);
      r.ctl.color == Green && r.published[|w.published| + 2] == Signal(Green, 13)
  {
    GreenTiming.GreenSecondsClosedForm(4);
  }

  /**
   * East empty, South 3, West 2, North empty: a `cycle_complete` shows North red,
   * skips East, shows South and then West green and yellow, and ends with North red.
   */
  lemma CycleSkipsEmptyEast(w: World)
    requires w.ctl.queues == Queues(0, 0, 3, 2) && w.ctl.activeArm == North && !w.ctl.emergencyActive
    ensures var r := OnMessage(w, CityStatus(Some(CycleComplete)), []);
      var q := w.ctl.queues;
      && r.published == w.published + [NorthRed(q, false),
           Shown(q, South, Green), Shown(q, South, Yellow),
           Shown(q, West, Green), Shown(q, West, Yellow),
           NorthRed(q, false)]
      && r.ctl.color == Red && !r.ctl.isCycling
  {
    var w1 := Broadcast(WithCtl(w, w.ctl.(color := Red)));
    CycleDummyArmsUninterrupted(w1, []);
    SecondaryScheduleOrder(w.ctl.queues);
  }

  /**
   * North 2 and every secondary arm empty: cycling makes only three checks, so
   * an alarm in a fourth reading is never taken; North red, then North green
   * again with the flag clear.
   */
  lemma LateAlarmIsNotTaken(w: World)
    requires w.ctl.queues == Queues(2, 0, 0, 0) && !w.ctl.emergencyActive
    ensures var r := CycleDummyArms(w, [false, false, false, true]);
      && !r.ctl.emergencyActive && r.ctl.color == Green && r.ctl.isCycling
      && w.published + [NorthRed(w.ctl.queues, false)] <= r.published
  {
    var readings := [false, false, false, true];
    assert Schedule(w.ctl.queues, SecondaryArms) == [];
    assert FirstTrue(readings) == 3;
    CycleDummyArmsFirstAlarm(w, readings);
    var n := CycleDummyArmsOutcome(w, readings);
  }

  /**
   * An ambulance seen after South's green: the yellow is never shown, North goes
   * red with the emergency flag set, and North is not re-granted.
   */
  lemma EmergencyDuringSouthGreen(w: World)
    requires w.ctl.queues == Queues(4, 0, 3, 2) && w.ctl.activeArm == North && !w.ctl.emergencyActive
    ensures var r := OnMessage(w, CityStatus(Some(CycleComplete)), [false, false, true]);
      var q := w.ctl.queues;
      && r.published == w.published + [NorthRed(q, false), Shown(q, South, Green), NorthRed(q, true)]
      && r.ctl.emergencyActive && r.ctl.color == Red && !r.ctl.isCycling
  {
    var w0 := Broadcast(WithCtl(w, w.ctl.(color := Red)));
    var w1 := WithCtl(w0, w0.ctl.(isCycling := true));
    assert SecondaryArms[1..] == [South, West];
    var l := CycleLoop(w1, SecondaryArms, [false, false, true]);
    assert [false, false, true][1..] == [false, true];
    assert [false, true][1..] == [true];
    assert l.published == w1.published + [Shown(w.ctl.queues, South, Green)];
    assert l.ctl.emergencyActive;
  }
}
