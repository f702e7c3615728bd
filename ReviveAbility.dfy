/**
 * The revive ability: an instanced, server-initiated ability activated by the
 * Ability.GameplayEvent.Revive gameplay event. It makes itself
 * non-cancelable, moves itself to Exclusive_Blocking, and moves the avatar's
 * hit points component from dead or dying to ReviveStarted and, when it ends,
 * from ReviveStarted to Alive.
 */
module ReviveAbility {
  import opened Common
  import opened GameplayTags
  import opened AbilitySystem
  import opened GameplayAbility
  import opened HitPointsComponents
  import DeathAbility

  // ---------------------------------------------------------------------------
  // Class defaults
  // ---------------------------------------------------------------------------

  /**
   * The ability class as the constructor configures it: instanced per actor
   * and server initiated; the activation policy stays the Crim default,
   * OnInputTriggered.
   */
  function ReviveAbilityDef(cls: Id, assetTags: TagContainer): (d: AbilityDef)
    ensures d.cls == cls && d.isCrim && d.instanced
    ensures d.netExecution == ServerInitiated && d.policy == OnInputTriggered && d.defaultGroup == Independent
  {
    AbilityDef(cls, true, true, OnInputTriggered, ServerInitiated, Independent, assetTags)
  }

  /** The trigger the class default object carries: exactly the Revive gameplay event activates it. */
  function ReviveTriggers(): (r: seq<AbilityTrigger>)
    ensures forall t :: TriggeredByEvent(r, t) <==> t == GameplayEventRevive
  {
    var r := [AbilityTrigger(GameplayEventRevive, GameplayEventTrigger)];
    assert TriggeredByEvent(r, GameplayEventRevive) by { assert r[0] == AbilityTrigger(GameplayEventRevive, GameplayEventTrigger); }
    r
  }

  // ---------------------------------------------------------------------------
  // Guarded transitions
  // ---------------------------------------------------------------------------

  /** The state the guarded StartRevive leaves: a dead or dying component moves to ReviveStarted. */
  function AfterStartRevive(s: DeathState): (n: DeathState)
    ensures n != s <==> IsDeadOrDying(s)
    ensures n != s ==> n == ReviveStarted
  {
    if IsDeadOrDying(s) then ReviveStarted else s
  }

  /** The state the guarded FinishRevive leaves: only ReviveStarted moves, to Alive. */
  function AfterFinishRevive(s: DeathState): (n: DeathState)
    ensures n != s <==> s == ReviveStarted
    ensures n != s ==> n == Alive
  {
    if s == ReviveStarted then Alive else s
  }

  /** StartRevive on the avatar's hit points component (none: nothing happens). */
  method StartRevive(hp: HitPointsComponent?)
    modifies {hp}`deathState, {hp}`events, TagHolder(hp)`looseTagCounts
    ensures hp != null ==> hp.deathState == AfterStartRevive(old(hp.deathState))
    ensures hp != null ==> hp.events == old(hp.events) + (if IsDeadOrDying(old(hp.deathState)) then [ReviveStartedEvent] else [])
    ensures hp != null && old(hp.DeathTagsMatch()) ==> hp.DeathTagsMatch()
  {
    if hp != null {
      if IsDeadOrDying(hp.deathState) {
        hp.StartRevive();
      }
    }
  }

  /** FinishRevive on the avatar's hit points component: it comes back to life only from ReviveStarted. */
  method FinishRevive(hp: HitPointsComponent?)
    modifies {hp}`deathState, {hp}`events, TagHolder(hp)`looseTagCounts
    ensures hp != null ==> hp.deathState == AfterFinishRevive(old(hp.deathState))
    ensures hp != null ==> hp.events == old(hp.events) + (if old(hp.deathState) == ReviveStarted then [ReviveFinishedEvent] else [])
    ensures hp != null && old(hp.DeathTagsMatch()) ==> hp.DeathTagsMatch()
  {
    if hp != null {
      if hp.deathState == ReviveStarted {
        hp.FinishRevive();
      }
    }
  }

  // ---------------------------------------------------------------------------
  // Activation and ending
  // ---------------------------------------------------------------------------

  /**
   * ActivateAbility of the revive ability on spec i: refuse cancellation,
   * try to move to Exclusive_Blocking (a refusal is only logged), then start
   * the revive when auto-start is configured. Once the move succeeds no other
   * exclusive ability can activate while the revive runs.
   */
  method ActivateAbility(asc: AbilitySystemComponent, i: nat, hp: HitPointsComponent?, autoStartRevive: bool)
    requires asc.Valid() && i < |asc.specs| && asc.specs[i].ability.isCrim
    modifies asc`specs, asc.counts, {hp}`deathState, {hp}`events, TagHolder(hp)`looseTagCounts
    ensures asc.Valid()
    ensures asc.specs == (
      if old(CanChangeActivationGroup(asc, i, ExclusiveBlocking)) && old(asc.specs[i].group) != ExclusiveBlocking
      then GroupChanged(WithCanBeCanceled(old(asc.specs), i, false), i, ExclusiveBlocking)
      else WithCanBeCanceled(old(asc.specs), i, false))
    ensures asc.specs[i].group
      == if old(CanChangeActivationGroup(asc, i, ExclusiveBlocking)) then ExclusiveBlocking else old(asc.specs[i].group)
    ensures old(CanChangeActivationGroup(asc, i, ExclusiveBlocking)) ==>
      asc.IsActivationGroupBlocked(ExclusiveReplaceable) && asc.IsActivationGroupBlocked(ExclusiveBlocking)
    ensures hp != null ==> hp.deathState == (if autoStartRevive then AfterStartRevive(old(hp.deathState)) else old(hp.deathState))
    ensures hp != null && old(hp.DeathTagsMatch()) ==> hp.DeathTagsMatch()
  {
    BlockExclusiveAbilities(asc, i);
    if autoStartRevive {
      StartRevive(hp);
    }
  }

  /**
   * The ability part of the revive activation: refuse cancellation, then
   * move to Exclusive_Blocking, which blocks both exclusive groups.
   */
  method BlockExclusiveAbilities(asc: AbilitySystemComponent, i: nat)
    requires asc.Valid() && i < |asc.specs| && asc.specs[i].ability.isCrim
    modifies asc`specs, asc.counts
    ensures asc.Valid()
    ensures asc.specs == (
      if old(CanChangeActivationGroup(asc, i, ExclusiveBlocking)) && old(asc.specs[i].group) != ExclusiveBlocking
      then GroupChanged(WithCanBeCanceled(old(asc.specs), i, false), i, ExclusiveBlocking)
      else WithCanBeCanceled(old(asc.specs), i, false))
    ensures asc.specs[i].group
      == if old(CanChangeActivationGroup(asc, i, ExclusiveBlocking)) then ExclusiveBlocking else old(asc.specs[i].group)
    ensures old(CanChangeActivationGroup(asc, i, ExclusiveBlocking)) ==>
      asc.IsActivationGroupBlocked(ExclusiveReplaceable) && asc.IsActivationGroupBlocked(ExclusiveBlocking)
  {
    ghost var canChange := CanChangeActivationGroup(asc, i, ExclusiveBlocking);
    SetCanBeCanceled(asc, i, false);
    assert CanChangeActivationGroup(asc, i, ExclusiveBlocking) == canChange;
    var changed := ChangeActivationGroup(asc, i, ExclusiveBlocking);
    if changed {
      assert Running(asc.specs[i], ExclusiveBlocking);
      asc.BlockedIffBlockingRunning(ExclusiveReplaceable);
      asc.BlockedIffBlockingRunning(ExclusiveBlocking);
    }
  }

  /**
   * EndAbility of the revive ability on spec i: finish a started revive,
   * then end the ability; the component is never left in ReviveStarted.
   */
  method EndAbility(asc: AbilitySystemComponent, i: nat, hp: HitPointsComponent?)
    requires asc.Valid() && i < |asc.specs|
    modifies asc`specs, asc.counts, {hp}`deathState, {hp}`events, TagHolder(hp)`looseTagCounts
    ensures asc.Valid()
    ensures asc.specs == old(asc.specs)[i := old(asc.specs[i]).(active := false)]
    ensures hp != null ==> hp.deathState == AfterFinishRevive(old(hp.deathState)) && hp.deathState != ReviveStarted
    ensures hp != null && old(hp.DeathTagsMatch()) ==> hp.DeathTagsMatch()
  {
    FinishRevive(hp);
    GameplayAbility.EndAbility(asc, i);
  }

  // ---------------------------------------------------------------------------
  // Server transitions and their replication
  // ---------------------------------------------------------------------------

  /**
   * Every transition the death and revive abilities make on the server is
   * one the corrected replication handler replays; the handler as written
   * replays all of them except a revive started while dying.
   */
  lemma {:induction false} ServerTransitionsReplicate(s: DeathState)
    ensures DeathAbility.AfterStartDeath(s) == s || ReplicationAccepts(s, DeathAbility.AfterStartDeath(s))
    ensures DeathAbility.AfterFinishDeath(s) == s || ReplicationAccepts(s, DeathAbility.AfterFinishDeath(s))
    ensures AfterStartRevive(s) == s || ReplicationAccepts(s, AfterStartRevive(s))
    ensures AfterFinishRevive(s) == s || ReplicationAccepts(s, AfterFinishRevive(s))
    ensures (AfterStartRevive(s) == s || ReplicationAcceptsAsWritten(s, AfterStartRevive(s))) <==> s != DeathStarted
  {
  }

  /**
   * As written: the server's revive ability starts a revive while the
   * character is dying; the client, also at DeathStarted, receives
   * ReviveStarted and its replication handler keeps DeathStarted, so server
   * and client disagree (and the client keeps the Dying tag).
   */
  method ReviveWhileDyingAsWritten(server: HitPointsComponent, client: HitPointsComponent)
    requires server != client && server.deathState == DeathStarted && client.deathState == DeathStarted
    modifies server, client, TagHolder(server)`looseTagCounts, TagHolder(client)`looseTagCounts
    ensures server.deathState == ReviveStarted && client.deathState == DeathStarted
  {
    StartRevive(server);
    var previous := client.deathState;
    client.deathState := server.deathState;
    client.OnRep_DeathState(previous);
  }

  /** With the corrected handler the client follows the server into ReviveStarted, tags included. */
  method ReviveWhileDyingCorrected(server: HitPointsComponent, client: HitPointsComponent)
    requires server != client && server.deathState == DeathStarted && client.deathState == DeathStarted
    modifies server, client, TagHolder(server)`looseTagCounts, TagHolder(client)`looseTagCounts
    ensures server.deathState == ReviveStarted && client.deathState == ReviveStarted
    ensures client.DeathTagsMatch()
  {
    StartRevive(server);
    var previous := client.deathState;
    client.deathState := server.deathState;
    client.OnRep_DeathStateCorrected(previous);
  }
}
