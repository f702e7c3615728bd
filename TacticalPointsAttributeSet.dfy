/**
 * The tactical points attribute set: CurrentPoints clamped to
 * [0, MaxPoints], MaxPoints floored at 0, and the Damage and Healing meta
 * attributes dispatched on the sign of their magnitude.
 */
module TacticalPointsAttributes {
  import opened AttributeMath

  class TacticalPointsAttributeSet {
    var currentPoints: real
    var maxPoints: real
    var healing: real
    var damage: real

    /** Current points lie in [0, MaxPoints]. */
    ghost predicate Valid()
      reads this
    {
      0.0 <= currentPoints <= maxPoints
    }

    constructor ()
      ensures Valid()
      ensures currentPoints == 100.0 && maxPoints == 100.0 && healing == 0.0 && damage == 0.0
    {
      currentPoints := 100.0;
      maxPoints := 100.0;
      healing := 0.0;
      damage := 0.0;
    }

    /** ClampAttribute: current points into [0, MaxPoints], MaxPoints to at least 0, others as given. */
    function ClampAttribute(attr: PointsAttribute, v: real): (r: real)
      reads this
      ensures attr == CurrentPoints && 0.0 <= maxPoints ==> 0.0 <= r <= maxPoints
      ensures attr == CurrentPoints && 0.0 <= v <= maxPoints ==> r == v
      ensures attr == MaxPoints ==> r >= 0.0 && (v >= 0.0 ==> r == v) && (v < 0.0 ==> r == 0.0)
      ensures attr != CurrentPoints && attr != MaxPoints ==> r == v
    {
      match attr
      case CurrentPoints => Clamp(v, 0.0, maxPoints)
      case MaxPoints => Max(v, 0.0)
      case _ => v
    }

    /** HandleDamage: current points drop by |m|, clamped. */
    method HandleDamage(m: real)
      requires Valid()
      modifies this`currentPoints
      ensures Valid()
      ensures currentPoints == Clamp(old(currentPoints) - Abs(m), 0.0, maxPoints)
      ensures currentPoints <= old(currentPoints)
    {
      currentPoints := Clamp(currentPoints - Abs(m), 0.0, maxPoints);
    }

    /** HandleHealing: current points rise by |m|, clamped. */
    method HandleHealing(m: real)
      requires Valid()
      modifies this`currentPoints
      ensures Valid()
      ensures currentPoints == Clamp(old(currentPoints) + Abs(m), 0.0, maxPoints)
      ensures currentPoints >= old(currentPoints)
    {
      currentPoints := Clamp(currentPoints + Abs(m), 0.0, maxPoints);
    }

    /**
     * PostAttributeChange: once MaxPoints has changed to newValue, current
     * points above it are overridden to it (through the clamp).
     */
    method PostAttributeChange(attr: PointsAttribute, oldValue: real, newValue: real)
      requires 0.0 <= maxPoints && 0.0 <= currentPoints
      requires attr == MaxPoints ==> newValue == maxPoints
      requires attr != MaxPoints ==> currentPoints <= maxPoints
      modifies this`currentPoints
      ensures Valid()
      ensures attr == MaxPoints && old(currentPoints) > newValue ==> currentPoints == newValue
      ensures !(attr == MaxPoints && old(currentPoints) > newValue) ==> currentPoints == old(currentPoints)
    {
      if attr == MaxPoints {
        if currentPoints > newValue {
          currentPoints := ClampAttribute(CurrentPoints, newValue);
        }
      }
    }

    /**
     * The engine's write of an executed attribute: the value passes through
     * the clamp, then PostAttributeChange runs.
     */
    method SetAttributeValue(attr: PointsAttribute, v: real)
      requires Valid()
      modifies this`currentPoints, this`maxPoints, this`damage, this`healing
      ensures Valid()
      ensures attr == CurrentPoints ==> currentPoints == Clamp(v, 0.0, maxPoints) && maxPoints == old(maxPoints)
      ensures attr == MaxPoints ==> (maxPoints == Max(v, 0.0)
        && currentPoints == (if old(currentPoints) > maxPoints then maxPoints else old(currentPoints)))
      ensures attr != CurrentPoints && attr != MaxPoints ==>
        currentPoints == old(currentPoints) && maxPoints == old(maxPoints)
      ensures attr == Damage ==> damage == v && healing == old(healing)
      ensures attr == Healing ==> healing == v && damage == old(damage)
      ensures attr != Damage && attr != Healing ==> damage == old(damage) && healing == old(healing)
    {
      match attr {
        case CurrentPoints =>
          var oldValue := currentPoints;
          currentPoints := ClampAttribute(attr, v);
          PostAttributeChange(attr, oldValue, currentPoints);
        case MaxPoints =>
          var oldValue := maxPoints;
          maxPoints := ClampAttribute(attr, v);
          PostAttributeChange(attr, oldValue, maxPoints);
        case Damage =>
          damage := v;
        case Healing =>
          healing := v;
        case OtherAttribute =>
      }
    }

    /**
     * PostGameplayEffectExecute: re-clamp after a CurrentPoints execution,
     * dispatch Damage and Healing on the sign of the magnitude and reset the
     * meta attribute.
     */
    method PostGameplayEffectExecute(attr: PointsAttribute, m: real)
      requires Valid()
      modifies this`currentPoints, this`damage, this`healing
      ensures Valid()
      ensures attr == Damage || attr == Healing ==> currentPoints == DispatchedPoints(old(currentPoints), maxPoints, attr, m)
      ensures attr != Damage && attr != Healing ==> currentPoints == old(currentPoints)
      ensures attr == Damage ==> damage == 0.0 && healing == old(healing)
      ensures attr == Healing ==> healing == 0.0 && damage == old(damage)
      ensures attr != Damage && attr != Healing ==> damage == old(damage) && healing == old(healing)
    {
      match attr {
        case CurrentPoints =>
          currentPoints := Clamp(currentPoints, 0.0, maxPoints);
        case Damage =>
          if m > 0.0 {
            HandleDamage(m);
          } else {
            HandleHealing(m);
          }
          damage := 0.0;
        case Healing =>
          if m > 0.0 {
            HandleHealing(m);
          } else {
            HandleDamage(m);
          }
          healing := 0.0;
        case _ =>
      }
    }

    /**
     * One gameplay effect execution on attr with magnitude m, the engine
     * having computed v for the attribute: write, then post-process.
     * Afterwards current points lie in [0, MaxPoints].
     */
    method ExecuteGameplayEffect(attr: PointsAttribute, m: real, v: real)
      requires Valid()
      modifies this
      ensures Valid()
      ensures attr == Damage ==> currentPoints == Clamp(old(currentPoints) - m, 0.0, maxPoints) && damage == 0.0
      ensures attr == Healing ==> currentPoints == Clamp(old(currentPoints) + m, 0.0, maxPoints) && healing == 0.0
      ensures attr != MaxPoints ==> maxPoints == old(maxPoints)
      ensures attr == CurrentPoints ==> currentPoints == Clamp(v, 0.0, maxPoints)
      ensures attr == MaxPoints ==> (maxPoints == Max(v, 0.0)
        && currentPoints == (if old(currentPoints) > maxPoints then maxPoints else old(currentPoints)))
      ensures attr == OtherAttribute ==> currentPoints == old(currentPoints)
      ensures attr != Damage ==> damage == old(damage)
      ensures attr != Healing ==> healing == old(healing)
    {
      SetAttributeValue(attr, v);
      PostGameplayEffectExecute(attr, m);
    }
  }
}
