/**
 * The hit points component: the replicated death state machine, the three
 * death loose tags it keeps on the ability system component, replication of
 * the state by replaying transitions, and the delegate bindings it makes on
 * the hit points attribute set.
 */
module HitPointsComponents {
  import opened Common
  import opened GameplayTags
  import opened AbilitySystem
  import opened HitPointsAttributes

  datatype DeathState = Alive | ReviveStarted | DeathStarted | DeathFinished

  predicate IsDeadOrDying(s: DeathState) { s == DeathStarted || s == DeathFinished }
  predicate IsAliveOrReviving(s: DeathState) { s == Alive || s == ReviveStarted }

  /** Every state is either dead or dying, or alive or reviving, and never both. */
  lemma DeathStatePartition(s: DeathState)
    ensures IsDeadOrDying(s) != IsAliveOrReviving(s)
  {
  }

  /** The component's own delegate broadcasts, in order. */
  datatype ComponentEvent =
    | DeathStartedEvent
    | DeathFinishedEvent
    | ReviveStartedEvent
    | ReviveFinishedEvent
    | HitPointsChangedEvent(oldValue: real, newValue: real)
    | MaxHitPointsChangedEvent(oldValue: real, newValue: real)

  /** The event a transition into s broadcasts. */
  function EnteredEvent(s: DeathState): ComponentEvent {
    match s
    case Alive => ReviveFinishedEvent
    case ReviveStarted => ReviveStartedEvent
    case DeathStarted => DeathStartedEvent
    case DeathFinished => DeathFinishedEvent
  }

  /** The three death tags on the component show state s: the one for s is 1, the others 0. */
  ghost predicate DeathTagsShow(asc: AbilitySystemComponent, s: DeathState)
    reads asc`looseTagCounts
  {
    && asc.LooseTagCount(StateDeathDying) == (if s == DeathStarted then 1 else 0)
    && asc.LooseTagCount(StateDeathDead) == (if s == DeathFinished then 1 else 0)
    && asc.LooseTagCount(StateDeathReviving) == (if s == ReviveStarted then 1 else 0)
  }

  /**
   * When the tags show the state, at most one death tag is set; one is set
   * exactly when the owner is not alive, and then the owner has
   * Gameplay.State.Death (the tag the activation checks report IsDead on).
   */
  lemma DeathTagsAtMostOne(asc: AbilitySystemComponent, s: DeathState)
    requires DeathTagsShow(asc, s)
    ensures asc.LooseTagCount(StateDeathDying) + asc.LooseTagCount(StateDeathDead)
      + asc.LooseTagCount(StateDeathReviving) == (if s == Alive then 0 else 1)
    ensures s != Alive ==> asc.HasMatchingGameplayTag(StateDeath)
  {
    DeathTagsDistinct();
    if s != Alive {
      var t := if s == DeathStarted then StateDeathDying else if s == DeathFinished then StateDeathDead else StateDeathReviving;
      assert t in asc.looseTagCounts && asc.looseTagCounts[t] > 0 && MatchesTag(t, StateDeath);
    }
  }

  /** The transitions OnRep_DeathState replays, as written. */
  predicate ReplicationAcceptsAsWritten(o: DeathState, n: DeathState) {
    match o
    case Alive => n == DeathStarted || n == DeathFinished
    case DeathStarted => n == DeathFinished
    case DeathFinished => n == ReviveStarted || n == Alive
    case ReviveStarted => n == Alive
  }

  /** The replicated transitions with DeathStarted -> ReviveStarted added. */
  predicate ReplicationAccepts(o: DeathState, n: DeathState) {
    ReplicationAcceptsAsWritten(o, n) || (o == DeathStarted && n == ReviveStarted)
  }

  /** The broadcasts a replayed transition makes, one per transition method. */
  function ReplayEvents(o: DeathState, n: DeathState): (r: seq<ComponentEvent>)
    ensures ReplicationAcceptsAsWritten(o, n) ==> |r| > 0 && r[|r| - 1] == EnteredEvent(n)
    ensures !ReplicationAcceptsAsWritten(o, n) ==> r == []
  {
    match (o, n)
    case (Alive, DeathStarted) => [DeathStartedEvent]
    case (Alive, DeathFinished) => [DeathStartedEvent, DeathFinishedEvent]
    case (DeathStarted, DeathFinished) => [DeathFinishedEvent]
    case (DeathFinished, ReviveStarted) => [ReviveStartedEvent]
    case (DeathFinished, Alive) => [ReviveStartedEvent, ReviveFinishedEvent]
    case (ReviveStarted, Alive) => [ReviveFinishedEvent]
    case _ => []
  }

  /** What a component handler does on one delivered attribute broadcast: its own rebroadcast, if any. */
  function HandlerEvents(b: Broadcast): seq<ComponentEvent> {
    match b.delegate
    case HitPointsUpdated => [HitPointsChangedEvent(b.oldValue, b.newValue)]
    case MaxHitPointsUpdated => [MaxHitPointsChangedEvent(b.oldValue, b.newValue)]
    case _ => []
  }

  /**
   * The gameplay event a handler sends through the ability system: Death on
   * running out of hit points, Revive on leaving zero, and only when the
   * broadcast carries an effect spec.
   */
  function HandlerGameplayEvent(b: Broadcast): (r: seq<EngineCall>)
    ensures |r| <= 1
    ensures r != [] <==> b.withEffectSpec && (b.delegate == OutOfHitPoints || b.delegate == HitPointsUpdatedFromZero)
  {
    if !b.withEffectSpec then []
    else if b.delegate == OutOfHitPoints then [GameplayEventSent(GameplayEventDeath, b.magnitude)]
    else if b.delegate == HitPointsUpdatedFromZero then [GameplayEventSent(GameplayEventRevive, b.magnitude)]
    else []
  }

  /** The ability system component whose death tags hp writes, as a frame. */
  function TagHolder(hp: HitPointsComponent?): set<AbilitySystemComponent?>
    reads hp
  {
    if hp == null then {} else {hp.asc}
  }

  class HitPointsComponent {
    /** This component's identity as a delegate listener. */
    const id: Id
    var deathState: DeathState
    /** AbilitySystemComponent (null until initialized). */
    var asc: AbilitySystemComponent?
    /** HitPointsSet (null until initialized). */
    var hitPointsSet: HitPointsAttributeSet?
    /** The component's delegate broadcasts, in order. */
    var events: seq<ComponentEvent>

    constructor (listener: Id)
      ensures id == listener && deathState == Alive && asc == null && hitPointsSet == null && events == []
    {
      id := listener;
      deathState := Alive;
      asc := null;
      hitPointsSet := null;
      events := [];
    }

    /** The death tags on the component, while there is one, show the death state. */
    ghost predicate DeathTagsMatch()
      reads this, {asc}`looseTagCounts
    {
      asc != null ==> DeathTagsShow(asc, deathState)
    }

    // ---- Death state transitions ---------------------------------------------

    /** StartDeath: DeathStarted, with only the Dying tag set. */
    method StartDeath()
      modifies this`deathState, this`events, {asc}`looseTagCounts
      ensures deathState == DeathStarted && events == old(events) + [DeathStartedEvent]
      ensures asc != null ==> (asc.looseTagCounts
        == old(asc.looseTagCounts)[StateDeathDying := 1][StateDeathReviving := 0][StateDeathDead := 0])
      ensures asc != null ==> DeathTagsShow(asc, deathState)
    {
      deathState := DeathStarted;
      if asc != null {
        asc.SetLooseGameplayTagCount(StateDeathDying, 1);
        asc.SetLooseGameplayTagCount(StateDeathReviving, 0);
        asc.SetLooseGameplayTagCount(StateDeathDead, 0);
      }
      events := events + [DeathStartedEvent];
    }

    /** FinishDeath: DeathFinished, with only the Dead tag set. */
    method FinishDeath()
      modifies this`deathState, this`events, {asc}`looseTagCounts
      ensures deathState == DeathFinished && events == old(events) + [DeathFinishedEvent]
      ensures asc != null ==> (asc.looseTagCounts
        == old(asc.looseTagCounts)[StateDeathDead := 1][StateDeathDying := 0][StateDeathReviving := 0])
      ensures asc != null ==> DeathTagsShow(asc, deathState)
    {
      deathState := DeathFinished;
      if asc != null {
        asc.SetLooseGameplayTagCount(StateDeathDead, 1);
        asc.SetLooseGameplayTagCount(StateDeathDying, 0);
        asc.SetLooseGameplayTagCount(StateDeathReviving, 0);
      }
      events := events + [DeathFinishedEvent];
    }

    /** StartRevive: ReviveStarted, with only the Reviving tag set. */
    method StartRevive()
      modifies this`deathState, this`events, {asc}`looseTagCounts
      ensures deathState == ReviveStarted && events == old(events) + [ReviveStartedEvent]
      ensures asc != null ==> (asc.looseTagCounts
        == old(asc.looseTagCounts)[StateDeathReviving := 1][StateDeathDead := 0][StateDeathDying := 0])
      ensures asc != null ==> DeathTagsShow(asc, deathState)
    {
      deathState := ReviveStarted;
      if asc != null {
        asc.SetLooseGameplayTagCount(StateDeathReviving, 1);
        asc.SetLooseGameplayTagCount(StateDeathDead, 0);
        asc.SetLooseGameplayTagCount(StateDeathDying, 0);
      }
      events := events + [ReviveStartedEvent];
    }

    /** FinishRevive: Alive, with all three death tags cleared. */
    method FinishRevive()
      modifies this`deathState, this`events, {asc}`looseTagCounts
      ensures deathState == Alive && events == old(events) + [ReviveFinishedEvent]
      ensures asc != null ==> (asc.looseTagCounts
        == old(asc.looseTagCounts)[StateDeathDead := 0][StateDeathDying := 0][StateDeathReviving := 0])
      ensures asc != null ==> DeathTagsShow(asc, deathState)
    {
      deathState := Alive;
      if asc != null {
        asc.SetLooseGameplayTagCount(StateDeathDead, 0);
        asc.SetLooseGameplayTagCount(StateDeathDying, 0);
        asc.SetLooseGameplayTagCount(StateDeathReviving, 0);
      }
      events := events + [ReviveFinishedEvent];
    }

    /** ClearGameplayTags: all three death tags to 0. */
    method ClearGameplayTags()
      modifies {asc}`looseTagCounts
      ensures asc != null ==> (asc.looseTagCounts
        == old(asc.looseTagCounts)[StateDeathDying := 0][StateDeathDead := 0][StateDeathReviving := 0])
      ensures asc != null ==> DeathTagsShow(asc, Alive)
    {
      if asc != null {
        asc.SetLooseGameplayTagCount(StateDeathDying, 0);
        asc.SetLooseGameplayTagCount(StateDeathDead, 0);
        asc.SetLooseGameplayTagCount(StateDeathReviving, 0);
      }
    }

    // ---- Replication -----------------------------------------------------------

    /**
     * OnRep_DeathState, the replicated state having arrived in deathState:
     * revert to the old state, then replay the transition methods for an
     * accepted transition; any other transition leaves the old state.
     */
    method OnRep_DeathState(oldDeathState: DeathState)
      modifies this`deathState, this`events, {asc}`looseTagCounts
      ensures deathState == (if ReplicationAcceptsAsWritten(oldDeathState, old(deathState)) then old(deathState) else oldDeathState)
      ensures events == old(events) + ReplayEvents(oldDeathState, old(deathState))
      ensures asc != null && ReplicationAcceptsAsWritten(oldDeathState, old(deathState)) ==> DeathTagsShow(asc, deathState)
      ensures asc != null && !ReplicationAcceptsAsWritten(oldDeathState, old(deathState)) ==>
        asc.looseTagCounts == old(asc.looseTagCounts)
    {
      var newDeathState := deathState;
      deathState := oldDeathState;
      match oldDeathState {
        case Alive =>
          if newDeathState == DeathStarted {
            StartDeath();
          } else if newDeathState == DeathFinished {
            StartDeath();
            FinishDeath();
          }
        case DeathStarted =>
          if newDeathState == DeathFinished {
            FinishDeath();
          }
        case DeathFinished =>
          if newDeathState == ReviveStarted {
            StartRevive();
          } else if newDeathState == Alive {
            StartRevive();
            FinishRevive();
          }
        case ReviveStarted =>
          if newDeathState == Alive {
            FinishRevive();
          }
      }
    }

    /**
     * OnRep_DeathState with the missing DeathStarted -> ReviveStarted branch
     * (a revive started while dying), replayed by StartRevive.
     */
    method OnRep_DeathStateCorrected(oldDeathState: DeathState)
      modifies this`deathState, this`events, {asc}`looseTagCounts
      ensures deathState == (if ReplicationAccepts(oldDeathState, old(deathState)) then old(deathState) else oldDeathState)
      ensures asc != null && ReplicationAccepts(oldDeathState, old(deathState)) ==> DeathTagsShow(asc, deathState)
      ensures asc != null && !ReplicationAccepts(oldDeathState, old(deathState)) ==>
        asc.looseTagCounts == old(asc.looseTagCounts)
    {
      if oldDeathState == DeathStarted && deathState == ReviveStarted {
        StartRevive();
      } else {
        OnRep_DeathState(oldDeathState);
      }
    }

    // ---- Initialization and delegate bindings ---------------------------------

    /**
     * InitializeWithAbilitySystem with the component and the HitPoints set it
     * holds (GetSet): a no-op when already initialized; a null component or
     * a missing set leaves it uninitialized; otherwise both are stored, the
     * four delegates bound, and the current values broadcast.
     */
    method InitializeWithAbilitySystem(inAsc: AbilitySystemComponent?, setOfAsc: HitPointsAttributeSet?)
      modifies this`asc, this`hitPointsSet, this`events, {setOfAsc}`bindings
      ensures old(asc) != null ==> asc == old(asc) && hitPointsSet == old(hitPointsSet) && events == old(events)
      ensures old(asc) == null && inAsc == null ==> asc == null && hitPointsSet == old(hitPointsSet)
      ensures old(asc) == null && inAsc != null && setOfAsc == null ==> asc == null && hitPointsSet == null
      ensures !(old(asc) == null && inAsc != null && setOfAsc != null) ==>
        events == old(events) && (setOfAsc != null ==> setOfAsc.bindings == old(setOfAsc.bindings))
      ensures old(asc) == null && inAsc != null && setOfAsc != null ==>
        && asc == inAsc && hitPointsSet == setOfAsc
        && setOfAsc.bindings == old(setOfAsc.bindings) + multiset{Binding(HitPointsUpdated, id),
             Binding(MaxHitPointsUpdated, id), Binding(OutOfHitPoints, id), Binding(HitPointsUpdatedFromZero, id)}
        && events == old(events) + [HitPointsChangedEvent(setOfAsc.hitPoints, setOfAsc.hitPoints),
                                    MaxHitPointsChangedEvent(setOfAsc.maxHitPoints, setOfAsc.maxHitPoints)]
    {
      if asc != null {
        return;
      }
      asc := inAsc;
      if asc == null {
        return;
      }
      hitPointsSet := setOfAsc;
      if hitPointsSet == null {
        asc := null;
        return;
      }
      hitPointsSet.Bind(HitPointsUpdated, id);
      hitPointsSet.Bind(MaxHitPointsUpdated, id);
      hitPointsSet.Bind(OutOfHitPoints, id);
      hitPointsSet.Bind(HitPointsUpdatedFromZero, id);
      events := events + [HitPointsChangedEvent(hitPointsSet.hitPoints, hitPointsSet.hitPoints),
                          MaxHitPointsChangedEvent(hitPointsSet.maxHitPoints, hitPointsSet.maxHitPoints)];
    }

    /**
     * UninitializeFromAbilitySystem as written: clear the death tags, unbind
     * three of the four delegates (updated-from-zero stays bound), and drop
     * both references.
     */
    method UninitializeFromAbilitySystem()
      modifies this`asc, this`hitPointsSet, {asc}`looseTagCounts, {hitPointsSet}`bindings
      ensures asc == null && hitPointsSet == null
      ensures old(asc) != null ==> (DeathTagsShow(old(asc), Alive)
        && old(asc).looseTagCounts == old(asc.looseTagCounts)[StateDeathDying := 0][StateDeathDead := 0][StateDeathReviving := 0])
      ensures old(hitPointsSet) != null ==> (old(hitPointsSet).bindings
        == old(hitPointsSet.bindings)[Binding(HitPointsUpdated, id) := 0][Binding(MaxHitPointsUpdated, id) := 0]
                                     [Binding(OutOfHitPoints, id) := 0])
    {
      ClearGameplayTags();
      if hitPointsSet != null {
        hitPointsSet.Unbind(HitPointsUpdated, id);
        hitPointsSet.Unbind(MaxHitPointsUpdated, id);
        hitPointsSet.Unbind(OutOfHitPoints, id);
      }
      hitPointsSet := null;
      asc := null;
    }

    /** UninitializeFromAbilitySystem that also unbinds updated-from-zero: no binding of the component remains. */
    method UninitializeFromAbilitySystemCorrected()
      modifies this`asc, this`hitPointsSet, {asc}`looseTagCounts, {hitPointsSet}`bindings
      ensures asc == null && hitPointsSet == null
      ensures old(asc) != null ==> DeathTagsShow(old(asc), Alive)
      ensures old(hitPointsSet) != null ==> forall d :: old(hitPointsSet).Deliveries(d, id) == 0
      ensures old(hitPointsSet) != null ==> forall b: Binding :: b.listener != id ==>
        old(hitPointsSet).bindings[b] == old(hitPointsSet.bindings)[b]
    {
      var s := hitPointsSet;
      UninitializeFromAbilitySystem();
      if s != null {
        s.Unbind(HitPointsUpdatedFromZero, id);
        forall d ensures s.Deliveries(d, id) == 0 {
          match d {
            case HitPointsUpdated =>
            case MaxHitPointsUpdated =>
            case OutOfHitPoints =>
            case HitPointsUpdatedFromZero =>
          }
        }
      }
    }

    // ---- Delegate handlers ------------------------------------------------------

    /**
     * One broadcast of set s reaching this component: its handler runs once
     * per binding, rebroadcasting hit point changes and sending the Death or
     * Revive gameplay event while initialized.
     */
    method DeliverBroadcast(s: HitPointsAttributeSet, b: Broadcast)
      modifies this`events, {asc}`engineLog
      ensures events == old(events) + Repeated(HandlerEvents(b), s.Deliveries(b.delegate, id))
      ensures asc != null ==> (asc.engineLog
        == old(asc.engineLog) + Repeated(HandlerGameplayEvent(b), s.Deliveries(b.delegate, id)))
    {
      var n := s.Deliveries(b.delegate, id);
      var k := 0;
      while k < n
        invariant 0 <= k <= n
        invariant events == old(events) + Repeated(HandlerEvents(b), k)
        invariant asc != null ==> asc.engineLog == old(asc.engineLog) + Repeated(HandlerGameplayEvent(b), k)
      {
        events := events + HandlerEvents(b);
        if asc != null {
          asc.engineLog := asc.engineLog + HandlerGameplayEvent(b);
        }
        k := k + 1;
      }
    }
  }

  /** n copies of x, one after the other. */
  function Repeated<T>(x: seq<T>, n: nat): seq<T>
  {
    if n == 0 then [] else Repeated(x, n - 1) + x
  }

  // ---- The unbinding omission ---------------------------------------------------

  /**
   * As written: initialize, uninitialize, initialize again with the same set
   * leaves the updated-from-zero handler bound twice, so every
   * updated-from-zero broadcast with an effect spec sends the Revive event
   * twice.
   */
  method ReinitializeAsWritten(c: HitPointsComponent, asc: AbilitySystemComponent, s: HitPointsAttributeSet, b: Broadcast)
    requires c.asc == null && c.hitPointsSet == null && s.bindings == multiset{}
    requires b.delegate == HitPointsUpdatedFromZero && b.withEffectSpec
    modifies c, asc`looseTagCounts, asc`engineLog, s`bindings
    ensures s.Deliveries(HitPointsUpdatedFromZero, c.id) == 2
    ensures asc.engineLog == old(asc.engineLog)
      + [GameplayEventSent(GameplayEventRevive, b.magnitude), GameplayEventSent(GameplayEventRevive, b.magnitude)]
  {
    c.InitializeWithAbilitySystem(asc, s);
    c.UninitializeFromAbilitySystem();
    c.InitializeWithAbilitySystem(asc, s);
    c.DeliverBroadcast(s, b);
    var e := HandlerGameplayEvent(b);
    assert Repeated(e, 2) == Repeated(e, 1) + e == e + e;
  }

  /** With the corrected uninitialization, the same sequence leaves every handler bound once. */
  method ReinitializeCorrected(c: HitPointsComponent, asc: AbilitySystemComponent, s: HitPointsAttributeSet, b: Broadcast)
    requires c.asc == null && c.hitPointsSet == null && s.bindings == multiset{}
    requires b.delegate == HitPointsUpdatedFromZero && b.withEffectSpec
    modifies c, asc`looseTagCounts, asc`engineLog, s`bindings
    ensures forall d :: s.Deliveries(d, c.id) == 1
    ensures asc.engineLog == old(asc.engineLog) + [GameplayEventSent(GameplayEventRevive, b.magnitude)]
  {
    c.InitializeWithAbilitySystem(asc, s);
    c.UninitializeFromAbilitySystemCorrected();
    ghost var unbound := s.bindings;
    forall d ensures unbound[Binding(d, c.id)] == 0 {
      assert s.Deliveries(d, c.id) == 0;
    }
    c.InitializeWithAbilitySystem(asc, s);
    forall d ensures s.Deliveries(d, c.id) == 1 {
      assert unbound[Binding(d, c.id)] == 0;
      match d {
        case HitPointsUpdated =>
        case MaxHitPointsUpdated =>
        case OutOfHitPoints =>
        case HitPointsUpdatedFromZero =>
      }
    }
    c.DeliverBroadcast(s, b);
    var e := HandlerGameplayEvent(b);
    assert Repeated(e, 1) == e;
  }
}
