/** Green-phase timing of the intersection controller: the clamped, queue-proportional green. */
module GreenTiming {

  /** Shortest and longest green a queue can earn, in seconds. */
  const MinGreen: int := 3
  const MaxGreen: int := 15

  function Min(a: real, b: real): real { if a <= b then a else b }
  function Max(a: real, b: real): real { if a >= b then a else b }

  /** `max(MIN_GREEN, min(q * 2.5 + 3, MAX_GREEN))`, computed exactly. */
  function GreenDuration(q: nat): (d: real)
    ensures MinGreen as real <= d <= MaxGreen as real
    ensures q <= 4 ==> d == q as real * 2.5 + 3.0
    ensures q >= 5 ==> d == MaxGreen as real
  {
    Max(MinGreen as real, Min(q as real * 2.5 + 3.0, MaxGreen as real))
  }

  /** The duration as it is published: `int(dur)`, which truncates toward zero. */
  function GreenSeconds(q: nat): (s: int)
    ensures MinGreen <= s <= MaxGreen
  {
    GreenDuration(q).Floor
  }

  /** A longer queue never earns a shorter green. */
  lemma GreenDurationMonotone(q1: nat, q2: nat)
    requires q1 <= q2
    ensures GreenDuration(q1) <= GreenDuration(q2)
    ensures GreenSeconds(q1) <= GreenSeconds(q2)
  {
  }

  /** The published seconds in integer arithmetic only: 3, 5, 8, 10, 13, then 15 from five vehicles on. */
  lemma {:induction false} GreenSecondsClosedForm(q: nat)
    ensures GreenSeconds(q) == if q >= 5 then MaxGreen else (5 * q + 6) / 2
  {
    if q <= 4 {
      var t := (5 * q + 6) / 2;
      var d := GreenDuration(q);
      assert d == (5 * q + 6) as real / 2.0;
      assert t as real <= d < t as real + 1.0;
    }
  }
}
