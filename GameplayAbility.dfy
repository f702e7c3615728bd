/**
 * The Crim gameplay ability: activation-group changes and the cancelability
 * guard, the activation checks (group blocking, tag requirements, costs),
 * cost payment and activation on spawn. The engine's activation and ending
 * paths that the component's notifications hang on are modelled here too, so
 * the component invariant can be shown to hold across them.
 */
module GameplayAbility {
  import opened Common
  import opened GameplayTags
  import opened AbilitySystem

  // ---------------------------------------------------------------------------
  // Activation groups
  // ---------------------------------------------------------------------------

  /** CanChangeActivationGroup of the ability of spec i. */
  function CanChangeActivationGroup(asc: AbilitySystemComponent, i: nat, newGroup: ActivationGroup): (ok: bool)
    reads asc, asc.counts
    requires asc.counts.Length == NumGroups && i < |asc.specs|
    ensures !asc.specs[i].ability.instanced || !asc.specs[i].active ==> !ok
    ensures asc.specs[i].ability.instanced && asc.specs[i].active && asc.specs[i].group == newGroup ==> ok
    ensures ok && asc.specs[i].group != newGroup ==>
      (asc.specs[i].group == ExclusiveBlocking || !asc.IsActivationGroupBlocked(newGroup))
      && (newGroup == ExclusiveReplaceable ==> asc.specs[i].canBeCanceled)
    ensures !ok && asc.specs[i].ability.instanced && asc.specs[i].active ==>
      asc.specs[i].group != newGroup
      && ((asc.specs[i].group != ExclusiveBlocking && asc.IsActivationGroupBlocked(newGroup))
          || (newGroup == ExclusiveReplaceable && !asc.specs[i].canBeCanceled))
  {
    var s := asc.specs[i];
    if !s.ability.instanced || !s.active then false
    else if s.group == newGroup then true
    else if s.group != ExclusiveBlocking && asc.IsActivationGroupBlocked(newGroup) then false
    else if newGroup == ExclusiveReplaceable && !s.canBeCanceled then false
    else true
  }

  /** The specs after spec i moves from its group to newGroup. */
  function GroupChanged(specs: seq<AbilitySpec>, i: nat, newGroup: ActivationGroup): seq<AbilitySpec>
    requires i < |specs|
  {
    var c := if newGroup == Independent then specs
             else CancelAll(specs, GroupCancelFilter(ExclusiveReplaceable, specs[i].handle));
    c[i := c[i].(group := newGroup)]
  }

  /**
   * Moving a running spec to another group keeps handles unique and keeps
   * non-instanced and running replaceable abilities cancelable, provided it
   * is cancelable when it becomes replaceable; the moved spec is not itself
   * cancelled.
   */
  lemma GroupChangedStructure(specs: seq<AbilitySpec>, i: nat, newGroup: ActivationGroup)
    requires i < |specs| && HandlesUnique(specs) && NonInstancedCancelable(specs)
    requires RunningReplaceableCancelable(specs)
    requires newGroup == ExclusiveReplaceable ==> specs[i].canBeCanceled
    ensures |GroupChanged(specs, i, newGroup)| == |specs|
    ensures GroupChanged(specs, i, newGroup)[i] == specs[i].(group := newGroup)
    ensures HandlesUnique(GroupChanged(specs, i, newGroup))
    ensures NonInstancedCancelable(GroupChanged(specs, i, newGroup))
    ensures RunningReplaceableCancelable(GroupChanged(specs, i, newGroup))
  {
    var f := GroupCancelFilter(ExclusiveReplaceable, specs[i].handle);
    CancelAllPreserves(specs, f);
    var c := if newGroup == Independent then specs else CancelAll(specs, f);
    assert c[i] == specs[i];
    var r := GroupChanged(specs, i, newGroup);
    assert forall k :: 0 <= k < |r| ==> r[k].handle == specs[k].handle;
  }

  /**
   * ChangeActivationGroup: on refusal nothing changes; in the same group
   * nothing changes; otherwise spec i leaves its old counter and joins the new
   * one (cancelling the other replaceable abilities when the new group is
   * exclusive), and the component invariant still holds.
   */
  method ChangeActivationGroup(asc: AbilitySystemComponent, i: nat, newGroup: ActivationGroup) returns (ok: bool)
    requires asc.Valid() && i < |asc.specs| && asc.specs[i].ability.isCrim
    modifies asc`specs, asc.counts
    ensures asc.Valid()
    ensures ok == old(CanChangeActivationGroup(asc, i, newGroup))
    ensures !ok || old(asc.specs[i].group) == newGroup ==>
      asc.specs == old(asc.specs) && unchanged(asc.counts)
    ensures ok && old(asc.specs[i].group) != newGroup ==>
      asc.specs == GroupChanged(old(asc.specs), i, newGroup)
    ensures ok ==> asc.specs[i] == old(asc.specs[i]).(group := newGroup)
  {
    var s := asc.specs[i];
    if !s.ability.instanced {
      return false;
    }
    ok := CanChangeActivationGroup(asc, i, newGroup);
    if !ok || s.group == newGroup {
      return;
    }
    MoveToGroup(asc, i, newGroup);
  }

  /**
   * The accepted change of a running Crim spec to a different group: remove
   * it from the old counter, add it to the new one, then store the group.
   */
  method MoveToGroup(asc: AbilitySystemComponent, i: nat, newGroup: ActivationGroup)
    requires asc.Valid() && i < |asc.specs|
    requires Running(asc.specs[i], asc.specs[i].group) && asc.specs[i].group != newGroup
    requires asc.specs[i].group == ExclusiveBlocking || !asc.IsActivationGroupBlocked(newGroup)
    requires newGroup == ExclusiveReplaceable ==> asc.specs[i].canBeCanceled
    modifies asc`specs, asc.counts
    ensures asc.Valid()
    ensures asc.specs == GroupChanged(old(asc.specs), i, newGroup)
  {
    var s := asc.specs[i];
    ghost var specs0 := asc.specs;
    ghost var c0 := asc.counts[..];
    GroupChangedStructure(specs0, i, newGroup);
    CountRunningPositive(specs0, s.group);
    asc.RemoveAbilityFromActivationGroup(s.group);
    ghost var c1 := asc.counts[..];
    LeaveGroupCounts(specs0, i, newGroup, c0, c1);
    assert asc.CountsExcept(i);
    asc.AddAbilityToActivationGroup(newGroup, i);
    JoinGroupCounts(specs0, i, newGroup, c1, asc.counts[..]);
    asc.specs := asc.specs[i := asc.specs[i].(group := newGroup)];
  }

  /**
   * Leaving its old group: a running spec is counted there, so the counter
   * can be decremented; afterwards the counters count every spec but i, the
   * new group's counter can take one more, and an exclusive new group is not
   * blocked.
   */
  lemma LeaveGroupCounts(specs: seq<AbilitySpec>, i: nat, newGroup: ActivationGroup, c0: seq<int>, c1: seq<int>)
    requires i < |specs| && |specs| <= Int32Max && |c0| == NumGroups && |c1| == NumGroups
    requires forall h: ActivationGroup :: c0[Slot(h)] == CountRunning(specs, h)
    requires c0[Slot(ExclusiveReplaceable)] + c0[Slot(ExclusiveBlocking)] <= 1
    requires Running(specs[i], specs[i].group) && specs[i].group != newGroup
    requires specs[i].group == ExclusiveBlocking || newGroup == Independent || c0[Slot(ExclusiveBlocking)] == 0
    requires forall h: ActivationGroup :: c1[Slot(h)] == c0[Slot(h)] - (if h == specs[i].group then 1 else 0)
    ensures forall h: ActivationGroup :: c1[Slot(h)] + (if Running(specs[i], h) then 1 else 0) == CountRunning(specs, h)
    ensures c1[Slot(newGroup)] < Int32Max
    ensures c1[Slot(ExclusiveReplaceable)] + c1[Slot(ExclusiveBlocking)] <= 1
    ensures newGroup != Independent ==> c1[Slot(ExclusiveBlocking)] == 0
  {
    CountRunningPositive(specs, specs[i].group);
    CountRunningDisjoint(specs, specs[i].group, newGroup);
  }

  /**
   * Joining the new group and storing it: with the counters counting every
   * spec but i, adding i to the new group (and cancelling the other
   * replaceable abilities for an exclusive one) leaves counters that agree
   * with the changed specs and at most one exclusive ability.
   */
  lemma JoinGroupCounts(specs: seq<AbilitySpec>, i: nat, newGroup: ActivationGroup, c1: seq<int>, c2: seq<int>)
    requires i < |specs| && HandlesUnique(specs) && RunningReplaceableCancelable(specs)
    requires |c1| == NumGroups && |c2| == NumGroups && specs[i].active && specs[i].ability.isCrim
    requires forall h: ActivationGroup :: c1[Slot(h)] + (if Running(specs[i], h) then 1 else 0) == CountRunning(specs, h)
    requires c1[Slot(ExclusiveReplaceable)] + c1[Slot(ExclusiveBlocking)] <= 1
    requires newGroup != Independent ==> c1[Slot(ExclusiveBlocking)] == 0
    requires forall h: ActivationGroup :: (c2[Slot(h)] == c1[Slot(h)] + (if h == newGroup then 1 else 0)
      - (if newGroup == Independent then 0 else CountCancelled(specs, GroupCancelFilter(ExclusiveReplaceable, specs[i].handle), h)))
    ensures forall h: ActivationGroup :: c2[Slot(h)] == CountRunning(GroupChanged(specs, i, newGroup), h)
    ensures c2[Slot(ExclusiveReplaceable)] + c2[Slot(ExclusiveBlocking)] <= 1
  {
    var f := GroupCancelFilter(ExclusiveReplaceable, specs[i].handle);
    var c := if newGroup == Independent then specs else CancelAll(specs, f);
    assert !WillCancel(specs[i], f) && c[i] == specs[i];
    if newGroup != Independent {
      ExclusiveActivationCounts(specs, i, newGroup, c1, c2);
    }
    StoreGroupCounts(c, i, newGroup, c2);
  }

  /**
   * Storing the new group on spec i, already counted in that group, makes
   * the counters agree with the specs again.
   */
  lemma StoreGroupCounts(specs: seq<AbilitySpec>, i: nat, newGroup: ActivationGroup, c: seq<int>)
    requires i < |specs| && |c| == NumGroups && specs[i].active && specs[i].ability.isCrim
    requires forall h: ActivationGroup ::
      c[Slot(h)] + (if Running(specs[i], h) then 1 else 0) == CountRunning(specs, h) + (if h == newGroup then 1 else 0)
    ensures forall h: ActivationGroup :: c[Slot(h)] == CountRunning(specs[i := specs[i].(group := newGroup)], h)
  {
    forall h: ActivationGroup ensures c[Slot(h)] == CountRunning(specs[i := specs[i].(group := newGroup)], h) {
      CountRunningUpdate(specs, i, specs[i].(group := newGroup), h);
    }
  }

  /**
   * The specs after SetCanBeCanceled(b) on spec i: only spec i's flag can
   * change, a replaceable spec keeps a set flag, and a non-instanced one
   * keeps its flag altogether.
   */
  function WithCanBeCanceled(specs: seq<AbilitySpec>, i: nat, b: bool): (r: seq<AbilitySpec>)
    requires i < |specs|
    ensures |r| == |specs| && forall j :: 0 <= j < |r| && j != i ==> r[j] == specs[j]
    ensures r[i] == specs[i].(canBeCanceled := r[i].canBeCanceled)
    ensures specs[i].group == ExclusiveReplaceable && specs[i].canBeCanceled ==> r[i].canBeCanceled
    ensures specs[i].ability.instanced && (b || specs[i].group != ExclusiveReplaceable) ==> r[i].canBeCanceled == b
    ensures !specs[i].ability.instanced ==> r == specs
  {
    if (!b && specs[i].group == ExclusiveReplaceable) || !specs[i].ability.instanced then specs
    else specs[i := specs[i].(canBeCanceled := b)]
  }

  /**
   * SetCanBeCanceled: refusing cancellation is ignored while the group is
   * Exclusive_Replaceable, and the engine only stores the flag on an
   * instanced ability; so running replaceable abilities stay cancelable.
   */
  method SetCanBeCanceled(asc: AbilitySystemComponent, i: nat, canBeCanceled: bool)
    requires asc.Valid() && i < |asc.specs|
    modifies asc`specs
    ensures asc.Valid()
    ensures asc.specs == WithCanBeCanceled(old(asc.specs), i, canBeCanceled)
    ensures (!canBeCanceled && old(asc.specs[i].group) == ExclusiveReplaceable) || !old(asc.specs[i].ability.instanced)
      ==> asc.specs == old(asc.specs)
    ensures !(!canBeCanceled && old(asc.specs[i].group) == ExclusiveReplaceable) && old(asc.specs[i].ability.instanced)
      ==> asc.specs == old(asc.specs)[i := old(asc.specs[i]).(canBeCanceled := canBeCanceled)]
  {
    var s := asc.specs[i];
    if !canBeCanceled && s.group == ExclusiveReplaceable {
      return;
    }
    if s.ability.instanced {
      asc.specs := asc.specs[i := s.(canBeCanceled := canBeCanceled)];
      forall h: ActivationGroup ensures asc.counts[Slot(h)] == CountRunning(asc.specs, h) {
        CountRunningUpdate(old(asc.specs), i, asc.specs[i], h);
      }
    }
  }

  // ---------------------------------------------------------------------------
  // Activation checks
  // ---------------------------------------------------------------------------

  /** A yes/no answer together with the failure tags reported so far (null when none was requested). */
  datatype Decision = Decision(ok: bool, relevantTags: Option<TagContainer>)

  function AddRelevantTag(relevant: Option<TagContainer>, t: Tag): (r: Option<TagContainer>)
    ensures r.Some? <==> relevant.Some?
    ensures r.Some? ==> forall x :: x in r.value <==> x in relevant.value || (x == t && IsValid(t))
  {
    match relevant
    case None => None
    case Some(c) => Some(AddTag(c, t))
  }

  /**
   * CanActivateAbility of a Crim ability: no actor info means no; then the
   * engine's checks (superOk); then the ability fails, reporting the
   * ActivationGroup failure tag, when its group is blocked.
   */
  function CanActivateAbility(asc: AbilitySystemComponent, s: AbilitySpec, hasActorInfo: bool, superOk: bool,
                              relevant: Option<TagContainer>): (r: Decision)
    reads asc, asc.counts
    requires asc.counts.Length == NumGroups
    ensures r.ok <==> hasActorInfo && superOk && !asc.IsActivationGroupBlocked(s.group)
    ensures r.relevantTags.Some? <==> relevant.Some?
    ensures r.relevantTags.Some? ==> forall x :: x in r.relevantTags.value <==>
      x in relevant.value || (x == ActivateFailActivationGroup && hasActorInfo && superOk && asc.IsActivationGroupBlocked(s.group))
  {
    if !hasActorInfo || !superOk then Decision(false, relevant)
    else if asc.IsActivationGroupBlocked(s.group) then Decision(false, AddRelevantTag(relevant, ActivateFailActivationGroup))
    else Decision(true, relevant)
  }

  /** The requirement containers of an ability. */
  datatype TagRequirements = TagRequirements(
    activationRequired: TagContainer,
    activationBlocked: TagContainer,
    sourceRequired: TagContainer,
    sourceBlocked: TagContainer,
    targetRequired: TagContainer,
    targetBlocked: TagContainer)

  /**
   * The inputs of DoesAbilitySatisfyTagRequirements: the ability's asset tags
   * and requirements; the component's blocked ability tags and owned tags;
   * the tags the relationship mapping adds (empty on a non-Crim component);
   * the optional source and target tags; the failure tags the engine's
   * globals configure for blocked and missing tags.
   */
  datatype TagCheck = TagCheck(
    assetTags: TagContainer,
    req: TagRequirements,
    blockedAbilityTags: TagContainer,
    owned: TagContainer,
    mappedRequired: TagContainer,
    mappedBlocked: TagContainer,
    sourceTags: Option<TagContainer>,
    targetTags: Option<TagContainer>,
    blockedTag: Tag,
    missingTag: Tag)

  function AllRequired(c: TagCheck): TagContainer { c.req.activationRequired + c.mappedRequired }
  function AllBlocked(c: TagCheck): TagContainer { c.req.activationBlocked + c.mappedBlocked }

  /** Something blocks the ability: a blocked asset tag, or a blocked tag on the owner, source or target. */
  predicate TagsBlocked(c: TagCheck) {
    || HasAny(c.assetTags, c.blockedAbilityTags)
    || HasAny(c.owned, AllBlocked(c))
    || (c.sourceTags.Some? && HasAny(c.sourceTags.value, c.req.sourceBlocked))
    || (c.targetTags.Some? && HasAny(c.targetTags.value, c.req.targetBlocked))
  }

  /** Something the ability needs is missing on the owner, source or target. */
  predicate TagsMissing(c: TagCheck) {
    || !HasAll(c.owned, AllRequired(c))
    || (c.sourceTags.Some? && !HasAll(c.sourceTags.value, c.req.sourceRequired))
    || (c.targetTags.Some? && !HasAll(c.targetTags.value, c.req.targetRequired))
  }

  /**
   * DoesAbilitySatisfyTagRequirements: true exactly when nothing blocks and
   * nothing is missing. The failure tags reported are: IsDead when the
   * owner's tags block and the owner is dead; the blocked tag when anything
   * blocks; otherwise the missing tag when anything is missing.
   */
  function DoesAbilitySatisfyTagRequirements(c: TagCheck, relevant: Option<TagContainer>): (r: Decision)
    ensures r.ok <==> !TagsBlocked(c) && !TagsMissing(c)
    ensures r.relevantTags.Some? <==> relevant.Some?
    ensures r.relevantTags.Some? ==> forall x :: x in r.relevantTags.value <==>
      || x in relevant.value
      || (x == ActivateFailIsDead && HasAny(c.owned, AllBlocked(c)) && HasTag(c.owned, StateDeath))
      || (x == c.blockedTag && IsValid(c.blockedTag) && TagsBlocked(c))
      || (x == c.missingTag && IsValid(c.missingTag) && !TagsBlocked(c) && TagsMissing(c))
  {
    var assetBlocked := HasAny(c.assetTags, c.blockedAbilityTags);
    var allRequired := AllRequired(c);
    var allBlocked := AllBlocked(c);
    var ownerChecked := |allBlocked| > 0 || |allRequired| > 0;
    var ownerBlocked := ownerChecked && HasAny(c.owned, allBlocked);
    var relevant1 := if ownerBlocked && HasTag(c.owned, StateDeath) then AddRelevantTag(relevant, ActivateFailIsDead)
                     else relevant;
    var ownerMissing := ownerChecked && !HasAll(c.owned, allRequired);
    var sourceChecked := c.sourceTags.Some? && (|c.req.sourceBlocked| > 0 || |c.req.sourceRequired| > 0);
    var sourceBlocked := sourceChecked && HasAny(c.sourceTags.value, c.req.sourceBlocked);
    var sourceMissing := sourceChecked && !HasAll(c.sourceTags.value, c.req.sourceRequired);
    var targetChecked := c.targetTags.Some? && (|c.req.targetBlocked| > 0 || |c.req.targetRequired| > 0);
    var targetBlocked := targetChecked && HasAny(c.targetTags.value, c.req.targetBlocked);
    var targetMissing := targetChecked && !HasAll(c.targetTags.value, c.req.targetRequired);
    var blocked := assetBlocked || ownerBlocked || sourceBlocked || targetBlocked;
    var missing := ownerMissing || sourceMissing || targetMissing;
    if blocked then
      Decision(false, if IsValid(c.blockedTag) then AddRelevantTag(relevant1, c.blockedTag) else relevant1)
    else if missing then
      Decision(false, if IsValid(c.missingTag) then AddRelevantTag(relevant1, c.missingTag) else relevant1)
    else
      Decision(true, relevant1)
  }

  /** An additional cost: whether it is paid only on a hit, and whether it can be afforded now. */
  datatype AbilityCost = AbilityCost(onlyOnHit: bool, affordable: bool)

  /** Every non-null additional cost can be afforded. */
  function AdditionalCostsAffordable(costs: seq<Option<AbilityCost>>): (ok: bool)
    ensures ok <==> forall k :: 0 <= k < |costs| && costs[k].Some? ==> costs[k].value.affordable
  {
    if costs == [] then true
    else (costs[0].None? || costs[0].value.affordable) && AdditionalCostsAffordable(costs[1..])
  }

  /** CheckCost: the engine's check, actor info present, and every non-null additional cost affordable. */
  function CheckCost(superOk: bool, hasActorInfo: bool, costs: seq<Option<AbilityCost>>): (ok: bool)
    ensures ok <==> (superOk && hasActorInfo
      && forall k :: 0 <= k < |costs| && costs[k].Some? ==> costs[k].value.affordable)
  {
    superOk && hasActorInfo && AdditionalCostsAffordable(costs)
  }

  /** The hit test: on authority, a Crim component holding target data with some hit result. */
  predicate AbilityHitTarget(netAuthority: bool, crimComponent: bool, targetDataHits: seq<bool>) {
    netAuthority && crimComponent && true in targetDataHits
  }

  /**
   * ApplyCost (after the engine's own cost): the indices of the additional
   * costs paid, in order, and the number of hit tests made. Every non-null
   * cost is paid, except that on-hit-only costs need the hit test to pass;
   * the hit test runs at most once, and only if some cost is on-hit-only.
   */
  method ApplyCost(costs: seq<Option<AbilityCost>>, netAuthority: bool, crimComponent: bool, targetDataHits: seq<bool>)
    returns (paid: seq<nat>, hitTests: nat)
    ensures forall a, b :: 0 <= a < b < |paid| ==> paid[a] < paid[b]
    ensures forall k :: k in paid <==> (0 <= k < |costs| && costs[k].Some?
      && (costs[k].value.onlyOnHit ==> AbilityHitTarget(netAuthority, crimComponent, targetDataHits)))
    ensures hitTests <= 1
    ensures hitTests == 1 <==> exists k :: 0 <= k < |costs| && costs[k].Some? && costs[k].value.onlyOnHit
  {
    paid := [];
    hitTests := 0;
    var hit := false;
    var determined := false;
    var i := 0;
    while i < |costs|
      invariant 0 <= i <= |costs|
      invariant forall a, b :: 0 <= a < b < |paid| ==> paid[a] < paid[b]
      invariant forall a :: 0 <= a < |paid| ==> paid[a] < i
      invariant determined ==> hit == AbilityHitTarget(netAuthority, crimComponent, targetDataHits)
      invariant hitTests == (if determined then 1 else 0)
      invariant determined <==> exists k :: 0 <= k < i && costs[k].Some? && costs[k].value.onlyOnHit
      invariant forall k :: k in paid <==> (0 <= k < i && costs[k].Some?
        && (costs[k].value.onlyOnHit ==> AbilityHitTarget(netAuthority, crimComponent, targetDataHits)))
    {
      if costs[i].Some? {
        var cost := costs[i].value;
        if cost.onlyOnHit {
          if !determined {
            hit := netAuthority && crimComponent && true in targetDataHits;
            determined := true;
            hitTests := hitTests + 1;
          }
          if hit {
            paid := paid + [i];
          }
        } else {
          paid := paid + [i];
        }
      }
      i := i + 1;
    }
  }

  // ---------------------------------------------------------------------------
  // Activation on spawn
  // ---------------------------------------------------------------------------

  /** What TryActivateAbilityOnSpawn reads from the actor info and the avatar. */
  datatype SpawnContext = SpawnContext(
    hasActorInfo: bool,
    hasComponent: bool,
    hasAvatar: bool,
    avatarTornOff: bool,
    avatarLifeSpan: real,
    locallyControlled: bool,
    netAuthority: bool,
    predicting: bool)

  predicate IsLocalExecution(p: NetExecutionPolicy) { p == LocalPredicted || p == LocalOnly }
  predicate IsServerExecution(p: NetExecutionPolicy) { p == ServerOnly || p == ServerInitiated }

  /**
   * TryActivateAbilityOnSpawn: whether activation of the spec is attempted.
   * Only an inactive OnSpawn ability that is not predicting, with a
   * component and a live avatar, and only on the side its execution policy
   * names: the controlling client for local policies, the authority for
   * server policies.
   */
  function TryActivateAbilityOnSpawn(ctx: SpawnContext, s: AbilitySpec): (attempt: bool)
    ensures attempt ==> s.ability.policy == OnSpawn && !s.active && !ctx.predicting
    ensures attempt ==> ctx.hasActorInfo && ctx.hasComponent && ctx.hasAvatar && !ctx.avatarTornOff && ctx.avatarLifeSpan <= 0.0
    ensures attempt && IsLocalExecution(s.ability.netExecution) ==> ctx.locallyControlled
    ensures attempt && IsServerExecution(s.ability.netExecution) ==> ctx.netAuthority
    ensures s.ability.policy == OnSpawn && !s.active && !ctx.predicting && ctx.hasActorInfo && ctx.hasComponent
      && ctx.hasAvatar && !ctx.avatarTornOff && ctx.avatarLifeSpan <= 0.0
      && ((ctx.locallyControlled && IsLocalExecution(s.ability.netExecution))
          || (ctx.netAuthority && IsServerExecution(s.ability.netExecution)))
      ==> attempt
  {
    if ctx.hasActorInfo && !s.active && !ctx.predicting && s.ability.policy == OnSpawn then
      if ctx.hasComponent && ctx.hasAvatar && !ctx.avatarTornOff && ctx.avatarLifeSpan <= 0.0 then
        var local := s.ability.netExecution == LocalPredicted || s.ability.netExecution == LocalOnly;
        var server := s.ability.netExecution == ServerOnly || s.ability.netExecution == ServerInitiated;
        (ctx.locallyControlled && local) || (ctx.netAuthority && server)
      else false
    else false
  }

  // ---------------------------------------------------------------------------
  // The engine's activation and ending paths
  // ---------------------------------------------------------------------------

  /** The specs after spec i is activated and notified. */
  function Activated(specs: seq<AbilitySpec>, i: nat): seq<AbilitySpec>
    requires i < |specs|
  {
    var a := specs[i := specs[i].(active := true, canBeCanceled := true)];
    if !specs[i].ability.isCrim || specs[i].group == Independent then a
    else CancelAll(a, GroupCancelFilter(ExclusiveReplaceable, specs[i].handle))
  }

  /**
   * The engine's TryActivateAbility on spec i: an active spec is not
   * activated again; a Crim ability must pass CanActivateAbility (superOk
   * stands for the engine's own checks, tag requirements and cost included);
   * activation marks the spec active and cancelable and notifies the
   * component, and the component invariant still holds.
   */
  method TryActivateAbility(asc: AbilitySystemComponent, i: nat, superOk: bool) returns (activated: bool)
    requires asc.Valid() && i < |asc.specs|
    modifies asc`specs, asc.counts
    ensures asc.Valid()
    ensures activated <==> (!old(asc.specs[i].active) && superOk
      && (old(asc.specs[i].ability.isCrim) ==> !old(asc.IsActivationGroupBlocked(asc.specs[i].group))))
    ensures !activated ==> asc.specs == old(asc.specs) && unchanged(asc.counts)
    ensures activated ==> asc.specs == Activated(old(asc.specs), i)
    ensures activated ==> asc.specs[i] == old(asc.specs[i]).(active := true, canBeCanceled := true)
  {
    var s := asc.specs[i];
    if s.active {
      return false;
    }
    var ok := if s.ability.isCrim then CanActivateAbility(asc, s, true, superOk, None).ok else superOk;
    if !ok {
      return false;
    }
    ghost var specs0 := asc.specs;
    asc.specs := asc.specs[i := s.(active := true, canBeCanceled := true)];
    ghost var specs1 := asc.specs;
    forall h: ActivationGroup
      ensures asc.counts[Slot(h)] + (if Running(specs1[i], h) then 1 else 0) == CountRunning(specs1, h)
    {
      CountRunningUpdate(specs0, i, specs1[i], h);
    }
    if s.ability.isCrim {
      CountRunningDisjoint(specs0, s.group, if s.group == Independent then ExclusiveBlocking else Independent);
    }
    assert RunningReplaceableCancelable(specs1);
    CancelAllPreserves(specs1, GroupCancelFilter(ExclusiveReplaceable, s.handle));
    asc.NotifyAbilityActivated(i);
    activated := true;
  }

  /**
   * The engine's EndAbility on spec i: ending an inactive ability does
   * nothing; otherwise the spec becomes inactive, a Crim ability leaves its
   * group, and the component invariant still holds.
   */
  method EndAbility(asc: AbilitySystemComponent, i: nat)
    requires asc.Valid() && i < |asc.specs|
    modifies asc`specs, asc.counts
    ensures asc.Valid()
    ensures asc.specs == old(asc.specs)[i := old(asc.specs[i]).(active := false)]
    ensures !old(asc.specs[i].active) ==> unchanged(asc.counts)
  {
    var s := asc.specs[i];
    if !s.active {
      assert asc.specs == asc.specs[i := s.(active := false)];
      return;
    }
    ghost var specs0 := asc.specs;
    asc.specs := asc.specs[i := s.(active := false)];
    if s.ability.isCrim {
      assert Running(s, s.group);
      CountRunningPositive(specs0, s.group);
    }
    asc.NotifyAbilityEnded(s);
    forall h: ActivationGroup ensures asc.counts[Slot(h)] == CountRunning(asc.specs, h) {
      CountRunningUpdate(specs0, i, asc.specs[i], h);
    }
  }

  // ---------------------------------------------------------------------------
  // Ability triggers
  // ---------------------------------------------------------------------------

  datatype TriggerSource = GameplayEventTrigger | OwnedTagAdded | OwnedTagPresent

  /** FAbilityTriggerData: the tag and the kind of occurrence that activates the ability. */
  datatype AbilityTrigger = AbilityTrigger(triggerTag: Tag, source: TriggerSource)

  /** The engine activates an ability for a gameplay event whose tag equals one of its event triggers. */
  predicate TriggeredByEvent(triggers: seq<AbilityTrigger>, eventTag: Tag) {
    exists k :: 0 <= k < |triggers| && triggers[k] == AbilityTrigger(eventTag, GameplayEventTrigger)
  }
}
