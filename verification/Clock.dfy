/**
 The mixed-radix clock of the timing wheel: milliseconds, seconds, minutes,
 hours and an open-ended count of days.
 */
module Clock {
  import opened Arith

  /** The five wheels, lowest first. */
  type Level = l: nat | l <= DAY
  const MS: nat := 0
  const SEC: nat := 1
  const MIN: nat := 2
  const HOUR: nat := 3
  const DAY: nat := 4

  /** Milliseconds in one step of a wheel. */
  function Unit(l: Level): (u: nat)
    ensures u > 0
  {
    if l == MS then 1
    else if l == SEC then 1000
    else if l == MIN then 60_000
    else if l == HOUR then 3_600_000
    else 86_400_000
  }

  /** Slots on a wheel that wraps; the day wheel never does. */
  function Radix(l: Level): (r: nat)
    requires l < DAY
    ensures r > 1
    ensures Unit(l + 1) == Unit(l) * r
  {
    if l == MS then 1000 else if l == HOUR then 24 else 60
  }

  /** The position of wheel `l` at time `t`. */
  function Digit(l: Level, t: nat): (g: nat)
    ensures l < DAY ==> g < Radix(l)
  {
    if l == DAY then t / Unit(DAY) else (t / Unit(l)) % Radix(l)
  }

  /** A time is the sum of its digits. */
  lemma DigitsSum(t: nat)
    ensures t == Digit(MS, t) + Digit(SEC, t) * 1000 + Digit(MIN, t) * 60_000
                 + Digit(HOUR, t) * 3_600_000 + Digit(DAY, t) * 86_400_000
  {
    assert t / 60_000 == (t / 1000) / 60;
    assert t / 3_600_000 == (t / 60_000) / 60;
    assert t / 86_400_000 == (t / 3_600_000) / 24;
  }

  /** Each wheel is turned by one exactly when the time reaches a multiple of its unit. */
  lemma UnitStep(l: Level, t: nat)
    ensures (t + 1) / Unit(l) == if (t + 1) % Unit(l) == 0 then t / Unit(l) + 1 else t / Unit(l)
  {
  }

  /** A step of one wheel is a full turn of the wheel below it. */
  lemma FullTurn(l: Level, t: nat)
    requires l < DAY && t % Unit(l + 1) == 0
    ensures t % Unit(l) == 0 && Digit(l, t) == 0
  {
    var k, u, r := t / Unit(l + 1), Unit(l), Radix(l);
    DivMul(t, u * r);
    Reorder(k, r, u);
    DivIs(t, u, k * r, 0);
    ModUnique(k * r, k, 0, r);
  }

  /** A coarse unit is a multiple of every finer one. */
  lemma {:induction false} CoarseImpliesFine(fine: Level, coarse: Level, t: nat)
    requires fine <= coarse && t % Unit(coarse) == 0
    ensures t % Unit(fine) == 0
    ensures fine < coarse ==> Digit(fine, t) == 0
  {
    if fine < coarse {
      FullTurn(coarse - 1, t);
      CoarseImpliesFine(fine, coarse - 1, t);
    }
  }

  /** The highest wheel that moves when the clock arrives at `t`. */
  function Top(t: nat): (l: Level)
    ensures t % Unit(l) == 0
    ensures l < DAY ==> t % Unit(l + 1) != 0
  {
    if t % 86_400_000 == 0 then DAY
    else if t % 3_600_000 == 0 then HOUR
    else if t % 60_000 == 0 then MIN
    else if t % 1000 == 0 then SEC
    else MS
  }
}
