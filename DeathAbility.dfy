/**
 * The death ability: an instanced, server-initiated ability activated by the
 * Ability.GameplayEvent.Death gameplay event. It makes itself non-cancelable
 * and moves the avatar's hit points component from Alive to DeathStarted and,
 * when it ends, from DeathStarted to DeathFinished.
 */
module DeathAbility {
  import opened Common
  import opened GameplayTags
  import opened AbilitySystem
  import opened GameplayAbility
  import opened HitPointsComponents

  // ---------------------------------------------------------------------------
  // Class defaults
  // ---------------------------------------------------------------------------

  /** The ability class as the constructor configures it: instanced per actor, server initiated, OnEvent. */
  function DeathAbilityDef(cls: Id, assetTags: TagContainer): (d: AbilityDef)
    ensures d.cls == cls && d.isCrim && d.instanced
    ensures d.netExecution == ServerInitiated && d.policy == OnEvent
  {
    AbilityDef(cls, true, true, OnEvent, ServerInitiated, Independent, assetTags)
  }

  /** The trigger the class default object carries: exactly the Death gameplay event activates it. */
  function DeathTriggers(): (r: seq<AbilityTrigger>)
    ensures forall t :: TriggeredByEvent(r, t) <==> t == GameplayEventDeath
  {
    var r := [AbilityTrigger(GameplayEventDeath, GameplayEventTrigger)];
    assert TriggeredByEvent(r, GameplayEventDeath) by { assert r[0] == AbilityTrigger(GameplayEventDeath, GameplayEventTrigger); }
    r
  }

  /** Being an OnEvent ability, a death spec is never activated on spawn. */
  lemma DeathNeverActivatedOnSpawn(ctx: SpawnContext, s: AbilitySpec, cls: Id, assetTags: TagContainer)
    requires s.ability == DeathAbilityDef(cls, assetTags)
    ensures !TryActivateAbilityOnSpawn(ctx, s)
  {
  }

  // ---------------------------------------------------------------------------
  // Guarded transitions
  // ---------------------------------------------------------------------------

  /** The state the guarded StartDeath leaves: only Alive moves, to DeathStarted. */
  function AfterStartDeath(s: DeathState): (n: DeathState)
    ensures n != s <==> s == Alive
    ensures n != s ==> n == DeathStarted
  {
    if s == Alive then DeathStarted else s
  }

  /** The state the guarded FinishDeath leaves: only DeathStarted moves, to DeathFinished. */
  function AfterFinishDeath(s: DeathState): (n: DeathState)
    ensures n != s <==> s == DeathStarted
    ensures n != s ==> n == DeathFinished
  {
    if s == DeathStarted then DeathFinished else s
  }

  /**
   * StartDeath on the avatar's hit points component (null when the avatar
   * has none, and then nothing happens): the component starts dying only
   * from Alive, and its death tags keep showing its state.
   */
  method StartDeath(hp: HitPointsComponent?)
    modifies {hp}`deathState, {hp}`events, TagHolder(hp)`looseTagCounts
    ensures hp != null ==> hp.deathState == AfterStartDeath(old(hp.deathState))
    ensures hp != null ==> hp.events == old(hp.events) + (if old(hp.deathState) == Alive then [DeathStartedEvent] else [])
    ensures hp != null && old(hp.DeathTagsMatch()) ==> hp.DeathTagsMatch()
  {
    if hp != null {
      if hp.deathState == Alive {
        hp.StartDeath();
      }
    }
  }

  /** FinishDeath on the avatar's hit points component: it finishes dying only from DeathStarted. */
  method FinishDeath(hp: HitPointsComponent?)
    modifies {hp}`deathState, {hp}`events, TagHolder(hp)`looseTagCounts
    ensures hp != null ==> hp.deathState == AfterFinishDeath(old(hp.deathState))
    ensures hp != null ==> hp.events == old(hp.events) + (if old(hp.deathState) == DeathStarted then [DeathFinishedEvent] else [])
    ensures hp != null && old(hp.DeathTagsMatch()) ==> hp.DeathTagsMatch()
  {
    if hp != null {
      if hp.deathState == DeathStarted {
        hp.FinishDeath();
      }
    }
  }

  // ---------------------------------------------------------------------------
  // Activation and ending
  // ---------------------------------------------------------------------------

  /**
   * ActivateAbility of the death ability on spec i: refuse cancellation,
   * then start dying when auto-start is configured.
   */
  method ActivateAbility(asc: AbilitySystemComponent, i: nat, hp: HitPointsComponent?, autoStartDeath: bool)
    requires asc.Valid() && i < |asc.specs|
    modifies asc`specs, {hp}`deathState, {hp}`events, TagHolder(hp)`looseTagCounts
    ensures asc.Valid()
    ensures asc.specs == WithCanBeCanceled(old(asc.specs), i, false)
    ensures hp != null ==> hp.deathState == (if autoStartDeath then AfterStartDeath(old(hp.deathState)) else old(hp.deathState))
    ensures hp != null && old(hp.DeathTagsMatch()) ==> hp.DeathTagsMatch()
  {
    SetCanBeCanceled(asc, i, false);
    if autoStartDeath {
      StartDeath(hp);
    }
  }

  /**
   * EndAbility of the death ability on spec i: finish a started death, then
   * end the ability; the component is never left in DeathStarted.
   */
  method EndAbility(asc: AbilitySystemComponent, i: nat, hp: HitPointsComponent?)
    requires asc.Valid() && i < |asc.specs|
    modifies asc`specs, asc.counts, {hp}`deathState, {hp}`events, TagHolder(hp)`looseTagCounts
    ensures asc.Valid()
    ensures asc.specs == old(asc.specs)[i := old(asc.specs[i]).(active := false)]
    ensures hp != null ==> hp.deathState == AfterFinishDeath(old(hp.deathState)) && hp.deathState != DeathStarted
    ensures hp != null && old(hp.DeathTagsMatch()) ==> hp.DeathTagsMatch()
  {
    FinishDeath(hp);
    GameplayAbility.EndAbility(asc, i);
  }
}
