/**
 * The arithmetic shared by the points attribute sets: FMath::Clamp,
 * FMath::Abs, FMath::Max, and the attributes a points set dispatches on.
 * Attribute values are reals; float rounding is not modelled.
 */
module AttributeMath {

  /** The attributes of a points set (hit points or tactical points). */
  datatype PointsAttribute = CurrentPoints | MaxPoints | Damage | Healing | OtherAttribute

  /** FMath::Clamp(v, lo, hi): below lo gives lo, below hi gives v, otherwise hi. */
  function Clamp(v: real, lo: real, hi: real): (r: real)
    ensures lo <= hi ==> lo <= r <= hi
    ensures lo <= v <= hi ==> r == v
    ensures v < lo ==> r == lo
    ensures lo <= hi <= v ==> r == hi
  {
    if v < lo then lo else if v < hi then v else hi
  }

  function Abs(x: real): (r: real)
    ensures 0.0 <= r && (r == x || r == -x)
    ensures x >= 0.0 ==> r == x
  {
    if x < 0.0 then -x else x
  }

  function Max(a: real, b: real): (r: real)
    ensures r >= a && r >= b && (r == a || r == b)
  {
    if a < b then b else a
  }

  /**
   * The sign dispatch of PostGameplayEffectExecute: a Damage execution of
   * magnitude m damages by |m| when m is positive and otherwise heals by
   * |m|; a Healing execution is the mirror image. Either way the result is
   * the signed update clamped to [0, max].
   */
  function DispatchedPoints(current: real, max: real, attr: PointsAttribute, m: real): (r: real)
    requires attr == Damage || attr == Healing
    ensures attr == Damage ==> r == Clamp(current - m, 0.0, max)
    ensures attr == Healing ==> r == Clamp(current + m, 0.0, max)
  {
    var damages := if attr == Damage then m > 0.0 else !(m > 0.0);
    if damages then Clamp(current - Abs(m), 0.0, max)
    else Clamp(current + Abs(m), 0.0, max)
  }

  /** A Damage execution of m and a Healing execution of -m leave the same value. */
  lemma DamageMirrorsHealing(current: real, max: real, m: real)
    ensures DispatchedPoints(current, max, Damage, m) == DispatchedPoints(current, max, Healing, -m)
  {
  }
}
