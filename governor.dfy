/** The dynamic speed governor: a PWM level derived from the North queue and the operator settings. */
module Governor {

  /** The speed level the danger override imposes. */
  const DangerPwm: int := 90

  /** Level by queue tier: stop when empty, relaxed for 1-2, restricted for 3-5, heavy above 5. */
  function BasePwm(northQueue: nat): (b: int)
    ensures b in {0, 120, 180, 255}
    ensures b == 0 <==> northQueue == 0
    ensures b == 255 <==> 1 <= northQueue <= 2
    ensures b == 180 <==> 3 <= northQueue <= 5
    ensures b == 120 <==> northQueue > 5
  {
    if northQueue == 0 then 0
    else if northQueue <= 2 then 255
    else if northQueue <= 5 then 180
    else 120
  }

  /** `min(base, int(manual_limit))`, where danger replaces the tier level by 90. */
  function Pwm(northQueue: nat, danger: bool, manualLimit: int): (pwm: int)
    ensures pwm <= manualLimit
    ensures danger ==> pwm <= DangerPwm
    ensures pwm <= (if danger then DangerPwm else BasePwm(northQueue))
    ensures pwm == manualLimit || pwm == (if danger then DangerPwm else BasePwm(northQueue))
  {
    var base := if danger then DangerPwm else BasePwm(northQueue);
    if base <= manualLimit then base else manualLimit
  }

  /** Once there is any demand, more vehicles never raise the level. */
  lemma BasePwmAntitone(q1: nat, q2: nat)
    requires 1 <= q1 <= q2
    ensures BasePwm(q2) <= BasePwm(q1)
  {
  }

  /** The output never exceeds 255 however high the manual limit is set. */
  lemma PwmAtMost255(northQueue: nat, danger: bool, manualLimit: int)
    ensures Pwm(northQueue, danger, manualLimit) <= 255
  {
  }

  /** With the manual limit at 255 or above the limit has no effect. */
  lemma PwmUncapped(northQueue: nat, danger: bool, manualLimit: int)
    requires manualLimit >= 255
    ensures Pwm(northQueue, danger, manualLimit) == (if danger then DangerPwm else BasePwm(northQueue))
  {
  }
}
