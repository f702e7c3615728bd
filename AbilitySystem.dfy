/**
 * The Crim ability system component: the list of granted ability specs, the
 * three activation-group counters, spec lookups and dynamic spec tags, and a
 * record of the engine calls the plugin makes on the component.
 *
 * A spec and its single ability instance are one record here: the activation
 * group and the can-be-canceled flag live on the instance in the engine.
 */
module AbilitySystem {
  import opened Common
  import opened GameplayTags

  // ---------------------------------------------------------------------------
  // Ability types (CrimGameplayAbility.h)
  // ---------------------------------------------------------------------------

  datatype ActivationPolicy = OnInputTriggered | WhileInputActive | OnEvent | OnSpawn

  datatype ActivationGroup = Independent | ExclusiveReplaceable | ExclusiveBlocking

  datatype NetExecutionPolicy = LocalPredicted | LocalOnly | ServerInitiated | ServerOnly

  /** EAbilityActivationGroup::MAX, the size of the counter array. */
  const NumGroups: nat := 3

  /** The counter slot of a group, (uint8)Group. */
  function Slot(g: ActivationGroup): (k: nat)
    ensures k < NumGroups
  {
    match g
    case Independent => 0
    case ExclusiveReplaceable => 1
    case ExclusiveBlocking => 2
  }

  /** Spec and active-effect handles; INDEX_NONE is the invalid handle. */
  type Handle = int
  const InvalidHandle: Handle := -1
  predicate IsValidHandle(h: Handle) { h != InvalidHandle }

  /** The ability class (its default object) a spec was granted from. */
  datatype AbilityDef = AbilityDef(
    cls: Id,
    isCrim: bool,
    instanced: bool,
    policy: ActivationPolicy,
    netExecution: NetExecutionPolicy,
    defaultGroup: ActivationGroup,
    assetTags: TagContainer)

  datatype AbilitySpec = AbilitySpec(
    handle: Handle,
    ability: AbilityDef,
    level: int,
    sourceObject: Option<Id>,
    dynamicTags: TagContainer,
    active: bool,
    inputPressed: bool,
    group: ActivationGroup,
    canBeCanceled: bool)

  /** A gameplay effect class; the engine gives instant effects no active handle. */
  datatype EffectDef = EffectDef(cls: Id, instant: bool)

  /** Engine calls the plugin makes on the component, in order. */
  datatype EngineCall =
    | AbilityGranted(spec: AbilitySpec)
    | AbilityCleared(handle: Handle)
    | EffectApplied(effect: EffectDef, effectLevel: real, effectHandle: Handle)
    | EffectRemoved(effectHandle: Handle)
    | AttributeSetAdded(setClass: Id, attributeSet: Id)
    | AttributeSetRemoved(attributeSet: Id)
    | InputPressedEvent(handle: Handle)
    | InputReleasedEvent(handle: Handle)
    | GameplayEventSent(eventTag: Tag, eventMagnitude: real)

  // ---------------------------------------------------------------------------
  // Counting running abilities
  // ---------------------------------------------------------------------------

  /** A Crim ability counted in group g: the spec is active in that group. */
  predicate Running(s: AbilitySpec, g: ActivationGroup) {
    s.active && s.ability.isCrim && s.group == g
  }

  function CountRunning(specs: seq<AbilitySpec>, g: ActivationGroup): (n: nat)
    ensures n <= |specs|
  {
    if specs == [] then 0
    else CountRunning(specs[..|specs| - 1], g) + (if Running(specs[|specs| - 1], g) then 1 else 0)
  }

  predicate HandlesUnique(specs: seq<AbilitySpec>) {
    forall i, j :: 0 <= i < j < |specs| ==> specs[i].handle != specs[j].handle
  }

  /** Non-instanced abilities can always be canceled. */
  predicate NonInstancedCancelable(specs: seq<AbilitySpec>) {
    forall k :: 0 <= k < |specs| && !specs[k].ability.instanced ==> specs[k].canBeCanceled
  }

  /** A running replaceable ability can be canceled. */
  predicate RunningReplaceableCancelable(specs: seq<AbilitySpec>) {
    forall k :: 0 <= k < |specs| && Running(specs[k], ExclusiveReplaceable) ==> specs[k].canBeCanceled
  }

  /** Whether CancelAbilitiesByFunc cancels this spec under predicate f. */
  predicate WillCancel(s: AbilitySpec, f: AbilitySpec -> bool) {
    s.active && s.ability.isCrim && f(s) && (s.ability.instanced ==> s.canBeCanceled)
  }

  function Cancelled(s: AbilitySpec, f: AbilitySpec -> bool): AbilitySpec {
    if WillCancel(s, f) then s.(active := false) else s
  }

  function CancelAll(specs: seq<AbilitySpec>, f: AbilitySpec -> bool): (r: seq<AbilitySpec>)
    ensures |r| == |specs|
  {
    seq(|specs|, k requires 0 <= k < |specs| => Cancelled(specs[k], f))
  }

  function CountCancelled(specs: seq<AbilitySpec>, f: AbilitySpec -> bool, g: ActivationGroup): nat {
    if specs == [] then 0
    else
      var s := specs[|specs| - 1];
      CountCancelled(specs[..|specs| - 1], f, g) + (if WillCancel(s, f) && s.group == g then 1 else 0)
  }

  /** The predicate CancelActivationGroupAbilities hands to CancelAbilitiesByFunc. */
  function GroupCancelFilter(g: ActivationGroup, ignore: Handle): AbilitySpec -> bool {
    (s: AbilitySpec) => s.group == g && s.handle != ignore
  }

  /** Changing one spec changes each count by the difference it makes. */
  lemma {:induction false} CountRunningUpdate(specs: seq<AbilitySpec>, i: nat, s: AbilitySpec, g: ActivationGroup)
    requires i < |specs|
    ensures CountRunning(specs[i := s], g) + (if Running(specs[i], g) then 1 else 0)
         == CountRunning(specs, g) + (if Running(s, g) then 1 else 0)
    decreases |specs|
  {
    var n := |specs|;
    var u := specs[i := s];
    assert u[..n - 1] == if i < n - 1 then specs[..n - 1][i := s] else specs[..n - 1];
    if i < n - 1 {
      CountRunningUpdate(specs[..n - 1], i, s, g);
    }
  }

  /** Cancelling removes exactly the cancelled specs from each count. */
  lemma {:induction false} CancelAllCount(specs: seq<AbilitySpec>, f: AbilitySpec -> bool, g: ActivationGroup)
    ensures CountRunning(CancelAll(specs, f), g) + CountCancelled(specs, f, g) == CountRunning(specs, g)
    decreases |specs|
  {
    if specs != [] {
      var n := |specs|;
      assert CancelAll(specs, f)[..n - 1] == CancelAll(specs[..n - 1], f);
      CancelAllCount(specs[..n - 1], f, g);
    }
  }

  /**
   * A spec the predicate spares is not among the cancelled ones, so the
   * cancelled specs of g plus that spec are at most the running ones of g.
   */
  lemma {:induction false} CountCancelledSparing(specs: seq<AbilitySpec>, f: AbilitySpec -> bool, g: ActivationGroup, i: nat)
    requires i < |specs| && !WillCancel(specs[i], f)
    ensures CountCancelled(specs, f, g) + (if Running(specs[i], g) then 1 else 0) <= CountRunning(specs, g)
    decreases |specs|
  {
    var p := specs[..|specs| - 1];
    if i < |specs| - 1 {
      CountCancelledSparing(p, f, g, i);
    } else {
      CountCancelledAtMost(p, f, g);
    }
  }

  /** When it spares only spec i, the count of g is exactly the running specs but i. */
  lemma {:induction false} CountCancelledSparingExact(specs: seq<AbilitySpec>, f: AbilitySpec -> bool, g: ActivationGroup, i: nat)
    requires i < |specs| && !WillCancel(specs[i], f)
    requires forall k :: 0 <= k < |specs| && k != i && Running(specs[k], g) ==> WillCancel(specs[k], f)
    ensures CountCancelled(specs, f, g) + (if Running(specs[i], g) then 1 else 0) == CountRunning(specs, g)
    decreases |specs|
  {
    var n := |specs|;
    var p := specs[..n - 1];
    assert forall k :: 0 <= k < |p| ==> p[k] == specs[k];
    if i < n - 1 {
      CountCancelledSparingExact(p, f, g, i);
    } else {
      CountCancelledAll(p, f, g);
    }
  }

  /** Only running specs are cancelled. */
  lemma {:induction false} CountCancelledAtMost(specs: seq<AbilitySpec>, f: AbilitySpec -> bool, g: ActivationGroup)
    ensures CountCancelled(specs, f, g) <= CountRunning(specs, g)
    decreases |specs|
  {
    if specs != [] { CountCancelledAtMost(specs[..|specs| - 1], f, g); }
  }

  /** When every running spec of g is cancelled, the counts agree. */
  lemma {:induction false} CountCancelledAll(specs: seq<AbilitySpec>, f: AbilitySpec -> bool, g: ActivationGroup)
    requires forall k :: 0 <= k < |specs| && Running(specs[k], g) ==> WillCancel(specs[k], f)
    ensures CountCancelled(specs, f, g) == CountRunning(specs, g)
    decreases |specs|
  {
    if specs != [] {
      var p := specs[..|specs| - 1];
      assert forall k :: 0 <= k < |p| ==> p[k] == specs[k];
      CountCancelledAll(p, f, g);
    }
  }

  /** The cancelled specs of a prefix are among those of the whole list. */
  lemma {:induction false} CountCancelledPrefix(specs: seq<AbilitySpec>, f: AbilitySpec -> bool, g: ActivationGroup, j: nat)
    requires j <= |specs|
    ensures CountCancelled(specs[..j], f, g) <= CountCancelled(specs, f, g)
    decreases |specs|
  {
    if j < |specs| {
      var p := specs[..|specs| - 1];
      assert specs[..j] == p[..j];
      CountCancelledPrefix(p, f, g, j);
    } else {
      assert specs[..j] == specs;
    }
  }

  /** Extending the prefix by one spec adds that spec to the count of its group when it is cancelled. */
  lemma CountCancelledStep(specs: seq<AbilitySpec>, f: AbilitySpec -> bool, i: nat)
    requires i < |specs|
    ensures forall g: ActivationGroup :: (CountCancelled(specs[..i + 1], f, g)
      == CountCancelled(specs[..i], f, g) + (if WillCancel(specs[i], f) && specs[i].group == g then 1 else 0))
  {
    assert specs[..i + 1][..i] == specs[..i];
  }

  lemma SparingAllGroups(specs: seq<AbilitySpec>, f: AbilitySpec -> bool, i: nat)
    requires i < |specs| && !WillCancel(specs[i], f)
    ensures forall h: ActivationGroup ::
      CountCancelled(specs, f, h) + (if Running(specs[i], h) then 1 else 0) <= CountRunning(specs, h)
  {
    forall h: ActivationGroup
      ensures CountCancelled(specs, f, h) + (if Running(specs[i], h) then 1 else 0) <= CountRunning(specs, h)
    {
      CountCancelledSparing(specs, f, h, i);
    }
  }

  lemma CancelAllCountAllGroups(specs: seq<AbilitySpec>, f: AbilitySpec -> bool)
    ensures forall h: ActivationGroup ::
      CountRunning(CancelAll(specs, f), h) + CountCancelled(specs, f, h) == CountRunning(specs, h)
  {
    forall h: ActivationGroup
      ensures CountRunning(CancelAll(specs, f), h) + CountCancelled(specs, f, h) == CountRunning(specs, h)
    {
      CancelAllCount(specs, f, h);
    }
  }

  /**
   * Cancelling the replaceable abilities other than spec i leaves spec i as
   * the only running replaceable ability, if it is one.
   */
  lemma ExclusiveCancelLeavesOnlySelf(specs: seq<AbilitySpec>, i: nat)
    requires i < |specs| && HandlesUnique(specs) && RunningReplaceableCancelable(specs)
    ensures CountRunning(CancelAll(specs, GroupCancelFilter(ExclusiveReplaceable, specs[i].handle)), ExclusiveReplaceable)
         == (if Running(specs[i], ExclusiveReplaceable) then 1 else 0)
  {
    var f := GroupCancelFilter(ExclusiveReplaceable, specs[i].handle);
    forall k | 0 <= k < |specs| && k != i && Running(specs[k], ExclusiveReplaceable)
      ensures WillCancel(specs[k], f)
    {
      assert specs[k].handle != specs[i].handle;
    }
    CountCancelledSparingExact(specs, f, ExclusiveReplaceable, i);
    CancelAllCount(specs, f, ExclusiveReplaceable);
  }

  /**
   * The counter arithmetic of activating spec i in exclusive group g: with
   * the counts c consistent with every spec but i, incrementing g and
   * subtracting what the replaceable cancellation ends yields counts c2
   * consistent with the cancelled list; from no blocking ability and only
   * cancelable replaceable ones, exactly one exclusive ability remains.
   */
  lemma ExclusiveActivationCounts(o: seq<AbilitySpec>, i: nat, g: ActivationGroup, c: seq<int>, c2: seq<int>)
    requires i < |o| && |c| == NumGroups && |c2| == NumGroups && g != Independent && HandlesUnique(o)
    requires forall h: ActivationGroup :: c[Slot(h)] + (if Running(o[i], h) then 1 else 0) == CountRunning(o, h)
    requires forall h: ActivationGroup :: (c2[Slot(h)] == c[Slot(h)] + (if h == g then 1 else 0)
      - CountCancelled(o, GroupCancelFilter(ExclusiveReplaceable, o[i].handle), h))
    ensures forall h: ActivationGroup :: (c2[Slot(h)]
      + (if Running(CancelAll(o, GroupCancelFilter(ExclusiveReplaceable, o[i].handle))[i], h) then 1 else 0)
      == CountRunning(CancelAll(o, GroupCancelFilter(ExclusiveReplaceable, o[i].handle)), h) + (if h == g then 1 else 0))
    ensures c[Slot(ExclusiveBlocking)] == 0 && RunningReplaceableCancelable(o)
      ==> c2[Slot(ExclusiveReplaceable)] + c2[Slot(ExclusiveBlocking)] == 1
  {
    var f := GroupCancelFilter(ExclusiveReplaceable, o[i].handle);
    var r := CancelAll(o, f);
    assert !WillCancel(o[i], f) && r[i] == o[i];
    CancelAllCountAllGroups(o, f);
    SparingAllGroups(o, f, i);
    if c[Slot(ExclusiveBlocking)] == 0 && RunningReplaceableCancelable(o) {
      ExclusiveCancelLeavesOnlySelf(o, i);
    }
  }

  /** A positive count means a running spec of that group exists. */
  lemma {:induction false} CountRunningPositive(specs: seq<AbilitySpec>, g: ActivationGroup)
    ensures CountRunning(specs, g) > 0 <==> exists k :: 0 <= k < |specs| && Running(specs[k], g)
    decreases |specs|
  {
    if specs != [] {
      var n := |specs|;
      var p := specs[..n - 1];
      CountRunningPositive(p, g);
      if exists k :: 0 <= k < |p| && Running(p[k], g) {
        var k :| 0 <= k < |p| && Running(p[k], g);
        assert Running(specs[k], g);
      }
      if exists k :: 0 <= k < n && Running(specs[k], g) {
        var k :| 0 <= k < n && Running(specs[k], g);
        if k < n - 1 { assert Running(p[k], g); }
      }
    }
  }

  /** A spec runs in at most one group, so two groups never count more specs than exist. */
  lemma {:induction false} CountRunningDisjoint(specs: seq<AbilitySpec>, g: ActivationGroup, h: ActivationGroup)
    requires g != h
    ensures CountRunning(specs, g) + CountRunning(specs, h) <= |specs|
    decreases |specs|
  {
    if specs != [] {
      CountRunningDisjoint(specs[..|specs| - 1], g, h);
    }
  }

  /** Cancelling only clears active flags, so the structural invariants survive it. */
  lemma CancelAllPreserves(specs: seq<AbilitySpec>, f: AbilitySpec -> bool)
    ensures forall k :: 0 <= k < |specs| ==>
      CancelAll(specs, f)[k] == specs[k] || CancelAll(specs, f)[k] == specs[k].(active := false)
    ensures HandlesUnique(specs) ==> HandlesUnique(CancelAll(specs, f))
    ensures NonInstancedCancelable(specs) ==> NonInstancedCancelable(CancelAll(specs, f))
    ensures RunningReplaceableCancelable(specs) ==> RunningReplaceableCancelable(CancelAll(specs, f))
  {
    var r := CancelAll(specs, f);
    assert forall k :: 0 <= k < |specs| ==> r[k].handle == specs[k].handle;
  }

  // ---------------------------------------------------------------------------
  // Spec lookups
  // ---------------------------------------------------------------------------

  /** The three lookup keys: asset tag, dynamic tag, ability class (possibly null). */
  datatype SpecQuery = ByAbilityTag(tag: Tag) | ByDynamicTag(tag: Tag) | ByClass(cls: Option<Id>)

  /** An invalid tag or a null class finds nothing. */
  predicate QueryEnabled(q: SpecQuery) {
    match q
    case ByAbilityTag(t) => IsValid(t)
    case ByDynamicTag(t) => IsValid(t)
    case ByClass(c) => c.Some?
  }

  predicate QueryMatches(q: SpecQuery, s: AbilitySpec) {
    match q
    case ByAbilityTag(t) => HasTag(s.ability.assetTags, t)
    case ByDynamicTag(t) => HasTag(s.dynamicTags, t)
    case ByClass(c) => c.Some? && s.ability.cls == c.value
  }

  /** First matching index at or after `from`. */
  function FirstMatchFrom(specs: seq<AbilitySpec>, q: SpecQuery, from: nat): (r: Option<nat>)
    requires from <= |specs|
    ensures r.Some? ==> from <= r.value < |specs| && QueryMatches(q, specs[r.value])
    ensures r.Some? ==> forall k :: from <= k < r.value ==> !QueryMatches(q, specs[k])
    ensures r.None? ==> forall k :: from <= k < |specs| ==> !QueryMatches(q, specs[k])
    decreases |specs| - from
  {
    if from == |specs| then None
    else if QueryMatches(q, specs[from]) then Some(from)
    else FirstMatchFrom(specs, q, from + 1)
  }

  // ---------------------------------------------------------------------------
  // Dynamic spec tags
  // ---------------------------------------------------------------------------

  function StripDynamicTag(s: AbilitySpec, t: Tag): AbilitySpec {
    s.(dynamicTags := RemoveTag(s.dynamicTags, t))
  }

  /**
   * The specs after tag t moves to spec ti: specs whose dynamic tags match t
   * lose t itself, and ti gains it.
   */
  function DynamicTagMoved(specs: seq<AbilitySpec>, ti: nat, t: Tag): (r: seq<AbilitySpec>)
    requires ti < |specs|
    ensures |r| == |specs|
  {
    seq(|specs|, k requires 0 <= k < |specs| =>
      if k == ti then specs[k].(dynamicTags := AddTag(specs[k].dynamicTags, t))
      else if HasTag(specs[k].dynamicTags, t) then StripDynamicTag(specs[k], t)
      else specs[k])
  }

  /**
   * After a valid tag moves to a spec that did not match it, that spec is the
   * only one holding the tag itself; every spec keeps its other tags.
   */
  lemma DynamicTagMovedOnlyCarrier(specs: seq<AbilitySpec>, ti: nat, t: Tag)
    requires ti < |specs| && IsValid(t) && !HasTag(specs[ti].dynamicTags, t)
    ensures forall k :: 0 <= k < |specs| ==>
      (HasTagExact(DynamicTagMoved(specs, ti, t)[k].dynamicTags, t) <==> k == ti)
    ensures forall k, x :: 0 <= k < |specs| && x != t ==>
      (x in DynamicTagMoved(specs, ti, t)[k].dynamicTags <==> x in specs[k].dynamicTags)
  {
    var r := DynamicTagMoved(specs, ti, t);
    forall k | 0 <= k < |specs| && k != ti && !HasTag(specs[k].dynamicTags, t)
      ensures !HasTagExact(r[k].dynamicTags, t)
    {
      ExactImpliesHasTag(specs[k].dynamicTags, t);
    }
  }

  // ---------------------------------------------------------------------------
  // The component
  // ---------------------------------------------------------------------------

  class AbilitySystemComponent {
    /** ActivatableAbilities.Items */
    var specs: seq<AbilitySpec>
    /** ActivationGroupCounts, indexed by Slot. */
    const counts: array<int>
    /** Whether the owner actor has network authority. */
    var hasAuthority: bool
    /** Loose gameplay tag counts. */
    var looseTagCounts: map<Tag, int>
    /** Tags owned through active gameplay effects (maintained by the engine). */
    var effectTags: TagContainer
    /** Ability tags currently blocked by other abilities (maintained by the engine). */
    var blockedAbilityTags: TagContainer
    /** Source of fresh handles and object identities. */
    var nextId: nat
    /** Engine calls made on this component, in order. */
    var engineLog: seq<EngineCall>

    /**
     * The activation-group invariant: every counter equals the number of
     * running Crim abilities in its group, at most one exclusive ability runs,
     * running replaceable abilities and all non-instanced ones are cancelable,
     * and handles are unique.
     */
    ghost predicate Valid()
      reads this`specs, counts
    {
      && counts.Length == NumGroups
      && |specs| <= Int32Max
      && HandlesUnique(specs)
      && NonInstancedCancelable(specs)
      && RunningReplaceableCancelable(specs)
      && (forall g: ActivationGroup :: counts[Slot(g)] == CountRunning(specs, g))
      && counts[Slot(ExclusiveReplaceable)] + counts[Slot(ExclusiveBlocking)] <= 1
    }

    /** The counters with spec i not yet (or no longer) counted. */
    ghost predicate CountsExcept(i: nat)
      reads this`specs, counts
      requires counts.Length == NumGroups && i < |specs|
    {
      forall g: ActivationGroup ::
        counts[Slot(g)] + (if Running(specs[i], g) then 1 else 0) == CountRunning(specs, g)
    }

    constructor (authority: bool)
      ensures Valid() && fresh(counts)
      ensures specs == [] && hasAuthority == authority && engineLog == []
      ensures looseTagCounts == map[] && effectTags == [] && blockedAbilityTags == []
    {
      specs := [];
      counts := new int[NumGroups](_ => 0);
      hasAuthority := authority;
      looseTagCounts := map[];
      effectTags := [];
      blockedAbilityTags := [];
      nextId := 1;
      engineLog := [];
    }

    /** HasMatchingGameplayTag: a loose tag with a positive count or an effect tag matches t. */
    predicate HasMatchingGameplayTag(t: Tag)
      reads this
    {
      || HasTag(effectTags, t)
      || exists x :: x in looseTagCounts && looseTagCounts[x] > 0 && MatchesTag(x, t)
    }

    /** Engine SetLooseGameplayTagCount. */
    method SetLooseGameplayTagCount(t: Tag, n: int)
      modifies this`looseTagCounts
      ensures looseTagCounts == old(looseTagCounts)[t := n]
    {
      looseTagCounts := looseTagCounts[t := n];
    }

    function LooseTagCount(t: Tag): int
      reads this`looseTagCounts
    {
      if t in looseTagCounts then looseTagCounts[t] else 0
    }

    // ---- Activation groups --------------------------------------------------

    /** Independent is never blocked; the exclusive groups are blocked by a running blocking ability. */
    function IsActivationGroupBlocked(g: ActivationGroup): (blocked: bool)
      reads counts
      requires counts.Length == NumGroups
    {
      match g
      case Independent => false
      case _ => counts[Slot(ExclusiveBlocking)] > 0
    }

    /** Under the invariant, a group is blocked exactly when it is exclusive and a blocking ability runs. */
    lemma BlockedIffBlockingRunning(g: ActivationGroup)
      requires Valid()
      ensures IsActivationGroupBlocked(g) <==>
        g != Independent && exists k :: 0 <= k < |specs| && Running(specs[k], ExclusiveBlocking)
    {
      CountRunningPositive(specs, ExclusiveBlocking);
    }

    method RemoveAbilityFromActivationGroup(g: ActivationGroup)
      requires counts.Length == NumGroups && counts[Slot(g)] > 0
      modifies counts
      ensures forall h: ActivationGroup :: counts[Slot(h)] == old(counts[Slot(h)]) - (if h == g then 1 else 0)
    {
      counts[Slot(g)] := counts[Slot(g)] - 1;
    }

    /**
     * Cancels (ends) every active Crim spec the predicate selects, except
     * instanced ones that cannot be canceled; each cancellation decrements the
     * counter of the spec's group.
     */
    method CancelAbilitiesByFunc(f: AbilitySpec -> bool)
      requires counts.Length == NumGroups && NonInstancedCancelable(specs)
      requires forall g: ActivationGroup :: counts[Slot(g)] >= CountCancelled(specs, f, g)
      modifies this`specs, counts
      ensures specs == CancelAll(old(specs), f)
      ensures forall g: ActivationGroup :: counts[Slot(g)] == old(counts[Slot(g)]) - CountCancelled(old(specs), f, g)
    {
      ghost var o := specs;
      var i := 0;
      while i < |specs|
        invariant 0 <= i <= |specs| == |o|
        invariant forall k :: 0 <= k < i ==> specs[k] == Cancelled(o[k], f)
        invariant forall k :: i <= k < |specs| ==> specs[k] == o[k]
        invariant forall g: ActivationGroup :: counts[Slot(g)] == old(counts[Slot(g)]) - CountCancelled(o[..i], f, g)
      {
        CountCancelledStep(o, f, i);
        CountCancelledPrefix(o, f, specs[i].group, i + 1);
        CancelIfSelected(i, f);
        i := i + 1;
      }
      assert o[..i] == o;
    }

    /** One step of CancelAbilitiesByFunc: spec i is ended when the predicate selects it and it may be canceled. */
    method CancelIfSelected(i: nat, f: AbilitySpec -> bool)
      requires counts.Length == NumGroups && i < |specs|
      requires WillCancel(specs[i], f) ==> counts[Slot(specs[i].group)] > 0
      modifies this`specs, counts
      ensures specs == old(specs)[i := Cancelled(old(specs)[i], f)]
      ensures forall g: ActivationGroup :: (counts[Slot(g)]
        == old(counts[Slot(g)]) - (if WillCancel(old(specs)[i], f) && old(specs)[i].group == g then 1 else 0))
    {
      var s := specs[i];
      var cancel := false;
      if s.active && s.ability.isCrim {
        if s.ability.instanced {
          cancel := f(s) && s.canBeCanceled;
        } else {
          cancel := f(s);
        }
      }
      if cancel {
        specs := specs[i := s.(active := false)];
        NotifyAbilityEnded(s);
      }
    }

    /** Cancels the cancelable abilities of group g other than the one with handle ignore. */
    method CancelActivationGroupAbilities(g: ActivationGroup, ignore: Handle)
      requires counts.Length == NumGroups && NonInstancedCancelable(specs)
      requires forall h: ActivationGroup :: counts[Slot(h)] >= CountCancelled(specs, GroupCancelFilter(g, ignore), h)
      modifies this`specs, counts
      ensures specs == CancelAll(old(specs), GroupCancelFilter(g, ignore))
      ensures forall h: ActivationGroup ::
        counts[Slot(h)] == old(counts[Slot(h)]) - CountCancelled(old(specs), GroupCancelFilter(g, ignore), h)
    {
      CancelAbilitiesByFunc(GroupCancelFilter(g, ignore));
    }

    /**
     * Counts spec i, whose ability has just become active, in group g; an
     * exclusive group cancels every other cancelable replaceable ability.
     */
    method AddAbilityToActivationGroup(g: ActivationGroup, i: nat)
      requires counts.Length == NumGroups && i < |specs|
      requires HandlesUnique(specs) && NonInstancedCancelable(specs)
      requires specs[i].active && specs[i].ability.isCrim && CountsExcept(i)
      requires counts[Slot(g)] < Int32Max
      modifies this`specs, counts
      ensures g == Independent ==> specs == old(specs)
      ensures g != Independent ==> specs == CancelAll(old(specs), GroupCancelFilter(ExclusiveReplaceable, old(specs[i].handle)))
      ensures specs[i] == old(specs[i])
      ensures forall h: ActivationGroup :: (counts[Slot(h)] == old(counts[Slot(h)]) + (if h == g then 1 else 0)
        - (if g == Independent then 0 else CountCancelled(old(specs), GroupCancelFilter(ExclusiveReplaceable, old(specs[i].handle)), h)))
      ensures forall h: ActivationGroup ::
        counts[Slot(h)] + (if Running(specs[i], h) then 1 else 0) == CountRunning(specs, h) + (if h == g then 1 else 0)
      ensures g != Independent && old(counts[Slot(ExclusiveBlocking)]) == 0 && old(RunningReplaceableCancelable(specs))
        ==> counts[Slot(ExclusiveReplaceable)] + counts[Slot(ExclusiveBlocking)] == 1
    {
      ghost var o := specs;
      ghost var c := counts[..];
      counts[Slot(g)] := counts[Slot(g)] + 1;
      if g != Independent {
        var f := GroupCancelFilter(ExclusiveReplaceable, specs[i].handle);
        assert !WillCancel(specs[i], f);
        SparingAllGroups(specs, f, i);
        CancelActivationGroupAbilities(ExclusiveReplaceable, specs[i].handle);
        ExclusiveActivationCounts(o, i, g, c, counts[..]);
      }
    }

    /** The engine has activated spec i; a Crim ability is counted in its group. */
    method NotifyAbilityActivated(i: nat)
      requires counts.Length == NumGroups && i < |specs|
      requires HandlesUnique(specs) && NonInstancedCancelable(specs)
      requires specs[i].active && CountsExcept(i)
      requires specs[i].ability.isCrim ==> counts[Slot(specs[i].group)] < Int32Max
      modifies this`specs, counts
      ensures !old(specs[i].ability.isCrim) ==> specs == old(specs) && unchanged(counts)
      ensures old(specs[i].ability.isCrim) ==>
        specs == (if old(specs[i].group) == Independent then old(specs)
                  else CancelAll(old(specs), GroupCancelFilter(ExclusiveReplaceable, old(specs[i].handle))))
      ensures specs[i] == old(specs[i])
      ensures forall h: ActivationGroup :: counts[Slot(h)] == CountRunning(specs, h)
      ensures old(specs[i].ability.isCrim) && old(specs[i].group) != Independent
        && old(counts[Slot(ExclusiveBlocking)]) == 0 && old(RunningReplaceableCancelable(specs))
        ==> counts[Slot(ExclusiveReplaceable)] + counts[Slot(ExclusiveBlocking)] == 1
    {
      if specs[i].ability.isCrim {
        AddAbilityToActivationGroup(specs[i].group, i);
      }
    }

    /** The engine has ended the ability of spec s; a Crim ability leaves its group. */
    method NotifyAbilityEnded(s: AbilitySpec)
      requires counts.Length == NumGroups
      requires s.ability.isCrim ==> counts[Slot(s.group)] > 0
      modifies counts
      ensures forall h: ActivationGroup ::
        counts[Slot(h)] == old(counts[Slot(h)]) - (if s.ability.isCrim && h == s.group then 1 else 0)
    {
      if s.ability.isCrim {
        RemoveAbilityFromActivationGroup(s.group);
      }
    }

    // ---- Lookups --------------------------------------------------------------

    /** GetAbilitySpecWithAbilityTag / WithDynamicTag / ByClass: the first match, if any. */
    function GetAbilitySpec(q: SpecQuery): (r: Option<nat>)
      reads this
      ensures !QueryEnabled(q) ==> r.None?
      ensures r.Some? ==> (r.value < |specs| && QueryMatches(q, specs[r.value])
        && forall k :: 0 <= k < r.value ==> !QueryMatches(q, specs[k]))
      ensures r.None? && QueryEnabled(q) ==> forall k :: 0 <= k < |specs| ==> !QueryMatches(q, specs[k])
    {
      if QueryEnabled(q) then FirstMatchFrom(specs, q, 0) else None
    }

    /** GetAllAbilitySpecsWithAbilityTag / WithDynamicTag / ByClass: every match, in list order. */
    method GetAllAbilitySpecs(q: SpecQuery) returns (out: seq<nat>)
      ensures forall a, b :: 0 <= a < b < |out| ==> out[a] < out[b]
      ensures forall k :: k in out <==> 0 <= k < |specs| && QueryEnabled(q) && QueryMatches(q, specs[k])
    {
      out := [];
      if QueryEnabled(q) {
        var i := 0;
        while i < |specs|
          invariant 0 <= i <= |specs|
          invariant forall a, b :: 0 <= a < b < |out| ==> out[a] < out[b]
          invariant forall a :: 0 <= a < |out| ==> out[a] < i
          invariant forall k :: k in out <==> 0 <= k < i && QueryMatches(q, specs[k])
        {
          if QueryMatches(q, specs[i]) {
            out := out + [i];
          }
          i := i + 1;
        }
      }
    }

    // ---- Dynamic spec tags ----------------------------------------------------

    /**
     * Makes spec `target` the one spec carrying tag t: every spec whose dynamic
     * tags match t (parent-aware) loses t itself, then the target gains it.
     */
    method AddDynamicTagToAbilitySpec(target: Option<nat>, t: Tag)
      requires target.Some? ==> target.value < |specs|
      modifies this`specs
      ensures !hasAuthority || target.None? || HasTag(old(specs)[target.value].dynamicTags, t) ==> specs == old(specs)
      ensures hasAuthority && target.Some? && !HasTag(old(specs)[target.value].dynamicTags, t) ==>
        specs == DynamicTagMoved(old(specs), target.value, t)
    {
      if !hasAuthority || target.None? {
        return;
      }
      var ti := target.value;
      if HasTag(specs[ti].dynamicTags, t) {
        return;
      }
      var found := GetAllAbilitySpecs(ByDynamicTag(t));
      var j := 0;
      while j < |found|
        invariant 0 <= j <= |found| && |specs| == |old(specs)|
        invariant forall k :: 0 <= k < |specs| ==>
          specs[k] == if k in found[..j] then StripDynamicTag(old(specs)[k], t) else old(specs)[k]
      {
        var k := found[j];
        assert k in found && k < |specs|;
        assert k !in found[..j];
        assert found[..j + 1] == found[..j] + [k];
        specs := specs[k := StripDynamicTag(specs[k], t)];
        j := j + 1;
      }
      assert found[..j] == found;
      specs := specs[ti := specs[ti].(dynamicTags := AddTag(specs[ti].dynamicTags, t))];
    }

    /** Strips tag t itself from the target spec when its dynamic tags match t. */
    method RemoveDynamicTagFromAbilitySpec(target: Option<nat>, t: Tag)
      requires target.Some? ==> target.value < |specs|
      modifies this`specs
      ensures !hasAuthority || target.None? || !HasTag(old(specs)[target.value].dynamicTags, t) ==> specs == old(specs)
      ensures hasAuthority && target.Some? && HasTag(old(specs)[target.value].dynamicTags, t) ==>
        specs == old(specs)[target.value := StripDynamicTag(old(specs)[target.value], t)]
      ensures hasAuthority && target.Some? ==> !HasTagExact(specs[target.value].dynamicTags, t)
    {
      if !hasAuthority || target.None? {
        return;
      }
      var ti := target.value;
      ExactImpliesHasTag(specs[ti].dynamicTags, t);
      if !HasTag(specs[ti].dynamicTags, t) {
        return;
      }
      specs := specs[ti := StripDynamicTag(specs[ti], t)];
    }

    // ---- Engine calls (recorded) ----------------------------------------------

    /** Engine GiveAbility: records the grant and returns a fresh valid handle. */
    method GiveAbility(spec: AbilitySpec) returns (h: Handle)
      modifies this`nextId, this`engineLog
      ensures IsValidHandle(h) && h == old(nextId) && nextId == old(nextId) + 1
      ensures engineLog == old(engineLog) + [AbilityGranted(spec.(handle := h))]
    {
      h := nextId;
      nextId := nextId + 1;
      engineLog := engineLog + [AbilityGranted(spec.(handle := h))];
    }

    /** Engine ApplyGameplayEffectToSelf: an instant effect yields no active handle. */
    method ApplyGameplayEffectToSelf(effect: EffectDef, level: real) returns (h: Handle)
      modifies this`nextId, this`engineLog
      ensures IsValidHandle(h) <==> !effect.instant
      ensures h == (if effect.instant then InvalidHandle else old(nextId))
      ensures nextId == old(nextId) + (if effect.instant then 0 else 1)
      ensures engineLog == old(engineLog) + [EffectApplied(effect, level, h)]
    {
      if effect.instant {
        h := InvalidHandle;
      } else {
        h := nextId;
        nextId := nextId + 1;
      }
      engineLog := engineLog + [EffectApplied(effect, level, h)];
    }

    /** NewObject of an attribute set class on the owner, then AddAttributeSetSubobject. */
    method AddAttributeSetSubobject(setClass: Id) returns (attributeSet: Id)
      modifies this`nextId, this`engineLog
      ensures attributeSet == old(nextId) && nextId == old(nextId) + 1
      ensures engineLog == old(engineLog) + [AttributeSetAdded(setClass, attributeSet)]
    {
      attributeSet := nextId;
      nextId := nextId + 1;
      engineLog := engineLog + [AttributeSetAdded(setClass, attributeSet)];
    }

    method Record(call: EngineCall)
      modifies this`engineLog
      ensures engineLog == old(engineLog) + [call]
    {
      engineLog := engineLog + [call];
    }
  }
}
