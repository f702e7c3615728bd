/**
 * The hit points attribute set: HitPoints clamped to [0, MaxHitPoints],
 * MaxHitPoints floored at 1, the Damage and Healing meta attributes, the
 * out-of-hit-points edge flag, and the four delegates it broadcasts on.
 * Broadcasts are recorded in order; bound listeners are kept as a multiset,
 * since binding the same listener twice makes it run twice.
 */
module HitPointsAttributes {
  import opened Common
  import opened AttributeMath

  datatype HitPointsDelegate = HitPointsUpdated | MaxHitPointsUpdated | OutOfHitPoints | HitPointsUpdatedFromZero

  /**
   * One broadcast: the magnitude, the old and new value, and whether an
   * effect spec is passed along (none on the replication path).
   */
  datatype Broadcast = Broadcast(
    delegate: HitPointsDelegate,
    magnitude: real,
    oldValue: real,
    newValue: real,
    withEffectSpec: bool)

  /** A listener object bound to one of the delegates. */
  datatype Binding = Binding(delegate: HitPointsDelegate, listener: Id)

  /**
   * The edge broadcast once hit points are known: out-of-hit-points when
   * they are at zero and the flag was clear, updated-from-zero when they are
   * positive and the flag was set.
   */
  function EdgeBroadcast(wasOut: bool, m: real, oldValue: real, newValue: real, withSpec: bool): (r: seq<Broadcast>)
    ensures |r| <= 1
    ensures (r != [] && r[0].delegate == OutOfHitPoints) <==> !wasOut && newValue <= 0.0
    ensures (r != [] && r[0].delegate == HitPointsUpdatedFromZero) <==> wasOut && newValue > 0.0
    ensures r != [] ==> r[0] == Broadcast(r[0].delegate, m, oldValue, newValue, withSpec)
  {
    if newValue <= 0.0 && !wasOut then [Broadcast(OutOfHitPoints, m, oldValue, newValue, withSpec)]
    else if newValue > 0.0 && wasOut then [Broadcast(HitPointsUpdatedFromZero, m, oldValue, newValue, withSpec)]
    else []
  }

  /**
   * When the flag tracked the old value, the edge broadcasts mark exactly the
   * crossings: out-of-hit-points on going from positive to zero,
   * updated-from-zero on going from zero to positive, nothing otherwise.
   */
  lemma EdgesMarkCrossings(m: real, oldValue: real, newValue: real, withSpec: bool)
    ensures var r := EdgeBroadcast(oldValue <= 0.0, m, oldValue, newValue, withSpec);
      && ((r != [] && r[0].delegate == OutOfHitPoints) <==> oldValue > 0.0 && newValue <= 0.0)
      && ((r != [] && r[0].delegate == HitPointsUpdatedFromZero) <==> oldValue <= 0.0 && newValue > 0.0)
      && (r == [] <==> (oldValue <= 0.0) == (newValue <= 0.0))
  {
  }

  /**
   * What PostGameplayEffectExecute broadcasts: the max update for a
   * MaxHitPoints execution, the hit points update when they differ from the
   * snapshot, then the edge broadcast.
   */
  function ExecutionBroadcasts(attr: PointsAttribute, m: real, hitPointsBefore: real, maxBefore: real,
                               hitPoints: real, maxHitPoints: real, wasOut: bool): (r: seq<Broadcast>)
    ensures |r| <= 3
    ensures (exists k :: 0 <= k < |r| && r[k].delegate == HitPointsUpdated) <==> hitPoints != hitPointsBefore
    ensures (exists k :: 0 <= k < |r| && r[k].delegate == MaxHitPointsUpdated) <==> attr == MaxPoints
    ensures forall k :: 0 <= k < |r| ==> r[k].withEffectSpec && r[k].magnitude == m
  {
    var maxUpdate := if attr == MaxPoints then [Broadcast(MaxHitPointsUpdated, m, maxBefore, maxHitPoints, true)] else [];
    var update := if hitPoints != hitPointsBefore then [Broadcast(HitPointsUpdated, m, hitPointsBefore, hitPoints, true)] else [];
    var edge := EdgeBroadcast(wasOut, m, hitPointsBefore, hitPoints, true);
    var r := maxUpdate + update + edge;
    assert forall k :: 0 <= k < |edge| ==> edge[k].delegate == OutOfHitPoints || edge[k].delegate == HitPointsUpdatedFromZero;
    assert forall k :: 0 <= k < |r| ==> r[k] in maxUpdate || r[k] in update || r[k] in edge;
    assert update != [] ==> r[|maxUpdate|] == update[0];
    assert maxUpdate != [] ==> r[0] == maxUpdate[0];
    r
  }

  class HitPointsAttributeSet {
    var hitPoints: real
    var maxHitPoints: real
    var healing: real
    var damage: real
    /** bOutOfHitPoints */
    var outOfHitPoints: bool
    /** The snapshots PreGameplayEffectExecute takes. */
    var hitPointsBefore: real
    var maxHitPointsBefore: real
    /** Every delegate broadcast, in order. */
    var broadcasts: seq<Broadcast>
    /** The listeners bound to the delegates, with multiplicity. */
    var bindings: multiset<Binding>

    /** Hit points lie in [0, MaxHitPoints] and MaxHitPoints is at least 1. */
    ghost predicate Valid()
      reads this
    {
      1.0 <= maxHitPoints && 0.0 <= hitPoints <= maxHitPoints
    }

    /** The out-of-hit-points flag says whether hit points are at zero. */
    ghost predicate FlagTracksHitPoints()
      reads this
    {
      outOfHitPoints == (hitPoints <= 0.0)
    }

    constructor ()
      ensures Valid() && FlagTracksHitPoints()
      ensures hitPoints == 100.0 && maxHitPoints == 100.0 && healing == 0.0 && damage == 0.0
      ensures !outOfHitPoints && broadcasts == [] && bindings == multiset{}
    {
      hitPoints := 100.0;
      maxHitPoints := 100.0;
      healing := 0.0;
      damage := 0.0;
      outOfHitPoints := false;
      hitPointsBefore := 0.0;
      maxHitPointsBefore := 0.0;
      broadcasts := [];
      bindings := multiset{};
    }

    /** ClampAttribute: hit points into [0, MaxHitPoints], MaxHitPoints to at least 1, others as given. */
    function ClampAttribute(attr: PointsAttribute, v: real): (r: real)
      reads this
      ensures attr == CurrentPoints && 0.0 <= maxHitPoints ==> 0.0 <= r <= maxHitPoints
      ensures attr == CurrentPoints && 0.0 <= v <= maxHitPoints ==> r == v
      ensures attr == MaxPoints ==> r >= 1.0 && (v >= 1.0 ==> r == v) && (v < 1.0 ==> r == 1.0)
      ensures attr != CurrentPoints && attr != MaxPoints ==> r == v
    {
      match attr
      case CurrentPoints => Clamp(v, 0.0, maxHitPoints)
      case MaxPoints => Max(v, 1.0)
      case _ => v
    }

    /** The number of times a broadcast on d runs the handler of listener. */
    function Deliveries(d: HitPointsDelegate, listener: Id): (n: nat)
      reads this
      ensures n > 0 <==> Binding(d, listener) in bindings
    {
      bindings[Binding(d, listener)]
    }

    /** HandleDamage: hit points drop by |m|, clamped. */
    method HandleDamage(m: real)
      requires Valid()
      modifies this`hitPoints
      ensures Valid()
      ensures hitPoints == Clamp(old(hitPoints) - Abs(m), 0.0, maxHitPoints)
      ensures hitPoints <= old(hitPoints)
    {
      hitPoints := Clamp(hitPoints - Abs(m), 0.0, maxHitPoints);
    }

    /** HandleHealing: hit points rise by |m|, clamped. */
    method HandleHealing(m: real)
      requires Valid()
      modifies this`hitPoints
      ensures Valid()
      ensures hitPoints == Clamp(old(hitPoints) + Abs(m), 0.0, maxHitPoints)
      ensures hitPoints >= old(hitPoints)
    {
      hitPoints := Clamp(hitPoints + Abs(m), 0.0, maxHitPoints);
    }

    /** PreGameplayEffectExecute: snapshot both values. */
    method PreGameplayEffectExecute()
      modifies this`hitPointsBefore, this`maxHitPointsBefore
      ensures hitPointsBefore == hitPoints && maxHitPointsBefore == maxHitPoints
    {
      hitPointsBefore := hitPoints;
      maxHitPointsBefore := maxHitPoints;
    }

    /**
     * PostAttributeChange: once MaxHitPoints has changed to newValue, hit
     * points above it are overridden to it (through the clamp).
     */
    method PostAttributeChange(attr: PointsAttribute, oldValue: real, newValue: real)
      requires 1.0 <= maxHitPoints && 0.0 <= hitPoints
      requires attr == MaxPoints ==> newValue == maxHitPoints
      requires attr != MaxPoints ==> hitPoints <= maxHitPoints
      modifies this`hitPoints
      ensures Valid()
      ensures attr == MaxPoints && old(hitPoints) > newValue ==> hitPoints == newValue
      ensures !(attr == MaxPoints && old(hitPoints) > newValue) ==> hitPoints == old(hitPoints)
    {
      if attr == MaxPoints {
        if hitPoints > newValue {
          hitPoints := ClampAttribute(CurrentPoints, newValue);
        }
      }
    }

    /**
     * The engine's write of an executed attribute: the value passes through
     * the clamp, then PostAttributeChange runs.
     */
    method SetAttributeValue(attr: PointsAttribute, v: real)
      requires Valid()
      modifies this`hitPoints, this`maxHitPoints, this`damage, this`healing
      ensures Valid()
      ensures attr == CurrentPoints ==> hitPoints == Clamp(v, 0.0, maxHitPoints) && maxHitPoints == old(maxHitPoints)
      ensures attr == MaxPoints ==> (maxHitPoints == Max(v, 1.0)
        && hitPoints == (if old(hitPoints) > maxHitPoints then maxHitPoints else old(hitPoints)))
      ensures attr != CurrentPoints && attr != MaxPoints ==>
        hitPoints == old(hitPoints) && maxHitPoints == old(maxHitPoints)
      ensures attr == Damage ==> damage == v && healing == old(healing)
      ensures attr == Healing ==> healing == v && damage == old(damage)
      ensures attr != Damage && attr != Healing ==> damage == old(damage) && healing == old(healing)
    {
      match attr {
        case CurrentPoints =>
          var oldValue := hitPoints;
          hitPoints := ClampAttribute(attr, v);
          PostAttributeChange(attr, oldValue, hitPoints);
        case MaxPoints =>
          var oldValue := maxHitPoints;
          maxHitPoints := ClampAttribute(attr, v);
          PostAttributeChange(attr, oldValue, maxHitPoints);
        case Damage =>
          damage := v;
        case Healing =>
          healing := v;
        case OtherAttribute =>
      }
    }

    /**
     * PostGameplayEffectExecute: re-clamp hit points after a HitPoints or
     * MaxHitPoints execution, dispatch Damage and Healing on the sign of the
     * magnitude and reset the meta attribute, then broadcast and update the
     * edge flag.
     */
    method PostGameplayEffectExecute(attr: PointsAttribute, m: real)
      requires Valid()
      modifies this`hitPoints, this`damage, this`healing, this`outOfHitPoints, this`broadcasts
      ensures Valid() && FlagTracksHitPoints()
      ensures attr == Damage || attr == Healing ==> hitPoints == DispatchedPoints(old(hitPoints), maxHitPoints, attr, m)
      ensures attr != Damage && attr != Healing ==> hitPoints == old(hitPoints)
      ensures attr == Damage ==> damage == 0.0 && healing == old(healing)
      ensures attr == Healing ==> healing == 0.0 && damage == old(damage)
      ensures attr != Damage && attr != Healing ==> damage == old(damage) && healing == old(healing)
      ensures broadcasts == old(broadcasts) + ExecutionBroadcasts(attr, m, hitPointsBefore, maxHitPointsBefore,
                                                                   hitPoints, maxHitPoints, old(outOfHitPoints))
    {
      DispatchExecutedAttribute(attr, m);
      if hitPoints != hitPointsBefore {
        broadcasts := broadcasts + [Broadcast(HitPointsUpdated, m, hitPointsBefore, hitPoints, true)];
      }
      broadcasts := broadcasts + EdgeBroadcast(outOfHitPoints, m, hitPointsBefore, hitPoints, true);
      outOfHitPoints := hitPoints <= 0.0;
    }

    /** The per-attribute part of PostGameplayEffectExecute. */
    method DispatchExecutedAttribute(attr: PointsAttribute, m: real)
      requires Valid()
      modifies this`hitPoints, this`damage, this`healing, this`broadcasts
      ensures Valid()
      ensures attr == Damage || attr == Healing ==> hitPoints == DispatchedPoints(old(hitPoints), maxHitPoints, attr, m)
      ensures attr != Damage && attr != Healing ==> hitPoints == old(hitPoints)
      ensures attr == Damage ==> damage == 0.0 && healing == old(healing)
      ensures attr == Healing ==> healing == 0.0 && damage == old(damage)
      ensures attr != Damage && attr != Healing ==> damage == old(damage) && healing == old(healing)
      ensures broadcasts == old(broadcasts)
        + (if attr == MaxPoints then [Broadcast(MaxHitPointsUpdated, m, maxHitPointsBefore, maxHitPoints, true)] else [])
    {
      match attr {
        case CurrentPoints =>
          hitPoints := Clamp(hitPoints, 0.0, maxHitPoints);
        case MaxPoints =>
          hitPoints := Clamp(hitPoints, 0.0, maxHitPoints);
          broadcasts := broadcasts + [Broadcast(MaxHitPointsUpdated, m, maxHitPointsBefore, maxHitPoints, true)];
        case Damage =>
          if m > 0.0 {
            HandleDamage(m);
          } else {
            HandleHealing(m);
          }
          damage := 0.0;
        case Healing =>
          if m > 0.0 {
            HandleHealing(m);
          } else {
            HandleDamage(m);
          }
          healing := 0.0;
        case OtherAttribute =>
      }
    }

    /**
     * One gameplay effect execution on attr with magnitude m, the engine
     * having computed v for the attribute: snapshot, write, post-process.
     * Afterwards hit points lie in [0, MaxHitPoints] whatever was executed.
     */
    method ExecuteGameplayEffect(attr: PointsAttribute, m: real, v: real)
      requires Valid()
      modifies this
      ensures Valid() && FlagTracksHitPoints()
      ensures attr == Damage ==> hitPoints == Clamp(old(hitPoints) - m, 0.0, maxHitPoints) && damage == 0.0
      ensures attr == Healing ==> hitPoints == Clamp(old(hitPoints) + m, 0.0, maxHitPoints) && healing == 0.0
      ensures attr != MaxPoints ==> maxHitPoints == old(maxHitPoints)
      ensures attr == CurrentPoints ==> hitPoints == Clamp(v, 0.0, maxHitPoints)
      ensures attr == MaxPoints ==> (maxHitPoints == Max(v, 1.0)
        && hitPoints == (if old(hitPoints) > maxHitPoints then maxHitPoints else old(hitPoints)))
      ensures attr == OtherAttribute ==> hitPoints == old(hitPoints)
      ensures broadcasts == old(broadcasts) + ExecutionBroadcasts(attr, m, old(hitPoints), old(maxHitPoints),
                                                                   hitPoints, maxHitPoints, old(outOfHitPoints))
      ensures bindings == old(bindings)
      ensures attr != Damage ==> damage == old(damage)
      ensures attr != Healing ==> healing == old(healing)
    {
      PreGameplayEffectExecute();
      SetAttributeValue(attr, v);
      PostGameplayEffectExecute(attr, m);
    }

    /**
     * OnRep_HitPoints on a client, hit points having been replicated to
     * newValue: broadcast the update with the estimated magnitude and no
     * effect spec, then the edge broadcast, then update the flag.
     */
    method OnRep_HitPoints(newValue: real)
      modifies this`hitPoints, this`outOfHitPoints, this`broadcasts
      ensures hitPoints == newValue && FlagTracksHitPoints()
      ensures broadcasts == old(broadcasts)
        + [Broadcast(HitPointsUpdated, newValue - old(hitPoints), old(hitPoints), newValue, false)]
        + EdgeBroadcast(old(outOfHitPoints), newValue - old(hitPoints), old(hitPoints), newValue, false)
    {
      var oldValue := hitPoints;
      hitPoints := newValue;
      var estimated := hitPoints - oldValue;
      broadcasts := broadcasts + [Broadcast(HitPointsUpdated, estimated, oldValue, hitPoints, false)];
      broadcasts := broadcasts + EdgeBroadcast(outOfHitPoints, estimated, oldValue, hitPoints, false);
      outOfHitPoints := hitPoints <= 0.0;
    }

    /**
     * OnRep_MaxHitPoints on a client, MaxHitPoints having been replicated to
     * newValue: broadcast the max update with the estimated magnitude and no
     * effect spec. Hit points and the edge flag are left alone.
     */
    method OnRep_MaxHitPoints(newValue: real)
      modifies this`maxHitPoints, this`broadcasts
      ensures maxHitPoints == newValue
      ensures broadcasts == old(broadcasts)
        + [Broadcast(MaxHitPointsUpdated, newValue - old(maxHitPoints), old(maxHitPoints), newValue, false)]
    {
      var oldValue := maxHitPoints;
      maxHitPoints := newValue;
      broadcasts := broadcasts + [Broadcast(MaxHitPointsUpdated, maxHitPoints - oldValue, oldValue, maxHitPoints, false)];
    }

    /** Delegate AddUObject: one more binding, even if the listener is already bound. */
    method Bind(d: HitPointsDelegate, listener: Id)
      modifies this`bindings
      ensures bindings == old(bindings) + multiset{Binding(d, listener)}
      ensures Deliveries(d, listener) == old(Deliveries(d, listener)) + 1
    {
      bindings := bindings + multiset{Binding(d, listener)};
    }

    /** Delegate RemoveAll: every binding of the listener to d goes. */
    method Unbind(d: HitPointsDelegate, listener: Id)
      modifies this`bindings
      ensures bindings == old(bindings)[Binding(d, listener) := 0]
      ensures Deliveries(d, listener) == 0
    {
      bindings := bindings[Binding(d, listener) := 0];
    }
  }
}
