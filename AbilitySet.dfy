/**
 * Ability sets: a data asset listing attribute sets, abilities and effects
 * to grant to an ability system component, and the record of what a grant
 * produced (FAbilitySet_GrantedHandles), which takes it all back later.
 *
 * What a grant does to the component is specified by folds over the entry
 * lists: each step states the engine call made, the handle or object
 * recorded, and how the component's counter of fresh identities advances.
 */
module AbilitySet {
  import opened Common
  import opened GameplayTags
  import opened AbilitySystem

  /** FAbilitySet_GameplayAbility: a null class is None. */
  datatype AbilityGrant = AbilityGrant(ability: Option<AbilityDef>, level: int, dynamicTags: TagContainer)

  /** FAbilitySet_GameplayEffect: a null class is None. */
  datatype EffectGrant = EffectGrant(effect: Option<EffectDef>, level: real)

  /** FAbilitySet_AttributeSet: a null class is None. */
  datatype AttributeSetGrant = AttributeSetGrant(setClass: Option<Id>)

  /**
   * The progress of a grant: the component's call log and counter, and the
   * lists a supplied handle record would hold.
   */
  datatype Grant = Grant(
    calls: seq<EngineCall>,
    abilityHandles: seq<Handle>,
    effectHandles: seq<Handle>,
    sets: seq<Id>,
    next: nat)

  /** The spec FGameplayAbilitySpec builds for an entry, before the component gives it a handle. */
  function NewSpec(def: AbilityDef, level: int, source: Option<Id>, tags: TagContainer): AbilitySpec {
    AbilitySpec(InvalidHandle, def, level, source, tags, false, false, def.defaultGroup, true)
  }

  // ---------------------------------------------------------------------------
  // Granting, one entry at a time
  // ---------------------------------------------------------------------------

  /** An attribute set entry: a new set object is added to the component and recorded. */
  function SetStep(e: AttributeSetGrant, g: Grant): Grant {
    match e.setClass
    case None => g
    case Some(cls) =>
      g.(calls := g.calls + [AttributeSetAdded(cls, g.next)], sets := g.sets + [g.next], next := g.next + 1)
  }

  /** An ability entry: the spec is given with the entry's level, source and dynamic tags. */
  function AbilityStep(e: AbilityGrant, source: Option<Id>, g: Grant): Grant {
    match e.ability
    case None => g
    case Some(def) =>
      var spec := NewSpec(def, e.level, source, e.dynamicTags).(handle := g.next);
      g.(calls := g.calls + [AbilityGranted(spec)], abilityHandles := g.abilityHandles + [g.next], next := g.next + 1)
  }

  /** An effect entry: applied to the owner; only a lasting effect's handle is valid and recorded. */
  function EffectStep(e: EffectGrant, g: Grant): Grant {
    match e.effect
    case None => g
    case Some(def) =>
      if def.instant then g.(calls := g.calls + [EffectApplied(def, e.level, InvalidHandle)])
      else g.(calls := g.calls + [EffectApplied(def, e.level, g.next)], effectHandles := g.effectHandles + [g.next],
              next := g.next + 1)
  }

  function GiveSets(es: seq<AttributeSetGrant>, g: Grant): Grant
    decreases |es|
  {
    if es == [] then g else SetStep(es[|es| - 1], GiveSets(es[..|es| - 1], g))
  }

  function GiveAbilities(es: seq<AbilityGrant>, source: Option<Id>, g: Grant): Grant
    decreases |es|
  {
    if es == [] then g else AbilityStep(es[|es| - 1], source, GiveAbilities(es[..|es| - 1], source, g))
  }

  function GiveEffects(es: seq<EffectGrant>, g: Grant): Grant
    decreases |es|
  {
    if es == [] then g else EffectStep(es[|es| - 1], GiveEffects(es[..|es| - 1], g))
  }

  /** GiveToAbilitySystem with authority: attribute sets, then abilities, then effects. */
  function GiveAll(sets: seq<AttributeSetGrant>, abilities: seq<AbilityGrant>, effects: seq<EffectGrant>,
                   source: Option<Id>, g: Grant): Grant {
    GiveEffects(effects, GiveAbilities(abilities, source, GiveSets(sets, g)))
  }

  // ---------------------------------------------------------------------------
  // The entries a grant acts on
  // ---------------------------------------------------------------------------

  function ValidSets(es: seq<AttributeSetGrant>): (r: seq<AttributeSetGrant>)
    ensures forall i :: 0 <= i < |r| ==> r[i].setClass.Some?
    ensures forall x :: x in r <==> x in es && x.setClass.Some?
    decreases |es|
  {
    if es == [] then []
    else
      var last := es[|es| - 1];
      assert forall x :: x in es <==> x in es[..|es| - 1] || x == last;
      ValidSets(es[..|es| - 1]) + (if last.setClass.Some? then [last] else [])
  }

  function ValidAbilities(es: seq<AbilityGrant>): (r: seq<AbilityGrant>)
    ensures forall i :: 0 <= i < |r| ==> r[i].ability.Some?
    ensures forall x :: x in r <==> x in es && x.ability.Some?
    decreases |es|
  {
    if es == [] then []
    else
      var last := es[|es| - 1];
      assert forall x :: x in es <==> x in es[..|es| - 1] || x == last;
      ValidAbilities(es[..|es| - 1]) + (if last.ability.Some? then [last] else [])
  }

  function ValidEffects(es: seq<EffectGrant>): (r: seq<EffectGrant>)
    ensures forall i :: 0 <= i < |r| ==> r[i].effect.Some?
    ensures forall x :: x in r <==> x in es && x.effect.Some?
    decreases |es|
  {
    if es == [] then []
    else
      var last := es[|es| - 1];
      assert forall x :: x in es <==> x in es[..|es| - 1] || x == last;
      ValidEffects(es[..|es| - 1]) + (if last.effect.Some? then [last] else [])
  }

  // ---------------------------------------------------------------------------
  // What each phase of a grant does
  // ---------------------------------------------------------------------------

  /**
   * The attribute-set phase adds one new set object per valid entry, in
   * order, with consecutive identities, records each, and touches nothing else.
   */
  lemma {:induction false} GiveSetsSpec(es: seq<AttributeSetGrant>, g: Grant)
    ensures var r := GiveSets(es, g); var v := ValidSets(es);
      && |r.calls| == |g.calls| + |v| && r.calls[..|g.calls|] == g.calls
      && (forall i :: |g.calls| <= i < |r.calls| ==>
            r.calls[i] == AttributeSetAdded(v[i - |g.calls|].setClass.value, g.next + (i - |g.calls|)))
      && |r.sets| == |g.sets| + |v| && r.sets[..|g.sets|] == g.sets
      && (forall i :: |g.sets| <= i < |r.sets| ==> r.sets[i] == g.next + (i - |g.sets|))
      && r.next == g.next + |v|
      && r.abilityHandles == g.abilityHandles && r.effectHandles == g.effectHandles
    decreases |es|
  {
    if es != [] {
      var p, last := es[..|es| - 1], es[|es| - 1];
      GiveSetsSpec(p, g);
      var q, vp := GiveSets(p, g), ValidSets(p);
      var r, v := GiveSets(es, g), ValidSets(es);
      if last.setClass.Some? {
        assert v == vp + [last];
        forall i | |g.calls| <= i < |r.calls|
          ensures r.calls[i] == AttributeSetAdded(v[i - |g.calls|].setClass.value, g.next + (i - |g.calls|))
        {
          if i < |q.calls| {
            assert v[i - |g.calls|] == vp[i - |g.calls|];
          }
        }
        assert r.calls[..|g.calls|] == q.calls[..|g.calls|];
        assert r.sets[..|g.sets|] == q.sets[..|g.sets|];
      } else {
        assert v == vp && r == q;
      }
    }
  }

  /**
   * The ability phase gives one spec per valid entry, in order: the k-th
   * carries the k-th valid entry's class, level and dynamic tags, the source
   * object, and the handle next + k, which is recorded.
   */
  lemma {:induction false} GiveAbilitiesSpec(es: seq<AbilityGrant>, source: Option<Id>, g: Grant)
    ensures var r := GiveAbilities(es, source, g); var v := ValidAbilities(es);
      && |r.calls| == |g.calls| + |v| && r.calls[..|g.calls|] == g.calls
      && (forall i :: |g.calls| <= i < |r.calls| ==>
            var e := v[i - |g.calls|];
            r.calls[i] == AbilityGranted(NewSpec(e.ability.value, e.level, source, e.dynamicTags).(handle := g.next + (i - |g.calls|))))
      && |r.abilityHandles| == |g.abilityHandles| + |v| && r.abilityHandles[..|g.abilityHandles|] == g.abilityHandles
      && (forall i :: |g.abilityHandles| <= i < |r.abilityHandles| ==> r.abilityHandles[i] == g.next + (i - |g.abilityHandles|))
      && r.next == g.next + |v|
      && r.effectHandles == g.effectHandles && r.sets == g.sets
    decreases |es|
  {
    if es != [] {
      var p, last := es[..|es| - 1], es[|es| - 1];
      GiveAbilitiesSpec(p, source, g);
      var q, vp := GiveAbilities(p, source, g), ValidAbilities(p);
      var r, v := GiveAbilities(es, source, g), ValidAbilities(es);
      if last.ability.Some? {
        assert v == vp + [last];
        forall i | |g.calls| <= i < |r.calls|
          ensures var e := v[i - |g.calls|];
            r.calls[i] == AbilityGranted(NewSpec(e.ability.value, e.level, source, e.dynamicTags).(handle := g.next + (i - |g.calls|)))
        {
          if i < |q.calls| {
            assert v[i - |g.calls|] == vp[i - |g.calls|];
          }
        }
        assert r.calls[..|g.calls|] == q.calls[..|g.calls|];
        assert r.abilityHandles[..|g.abilityHandles|] == q.abilityHandles[..|g.abilityHandles|];
      } else {
        assert v == vp && r == q;
      }
    }
  }

  /**
   * The effect phase applies one effect per valid entry, in order, at the
   * entry's level; the handle is valid exactly for a lasting effect, and the
   * recorded handles are valid ones issued by this phase.
   */
  lemma {:induction false} GiveEffectsSpec(es: seq<EffectGrant>, g: Grant)
    ensures var r := GiveEffects(es, g); var v := ValidEffects(es);
      && |r.calls| == |g.calls| + |v| && r.calls[..|g.calls|] == g.calls
      && (forall i :: |g.calls| <= i < |r.calls| ==>
            var e := v[i - |g.calls|];
            && r.calls[i].EffectApplied?
            && r.calls[i].effect == e.effect.value
            && r.calls[i].effectLevel == e.level
            && (IsValidHandle(r.calls[i].effectHandle) <==> !e.effect.value.instant))
      && |g.effectHandles| <= |r.effectHandles| && r.effectHandles[..|g.effectHandles|] == g.effectHandles
      && (forall i :: |g.effectHandles| <= i < |r.effectHandles| ==>
            IsValidHandle(r.effectHandles[i]) && g.next <= r.effectHandles[i] < r.next)
      && g.next <= r.next
      && r.abilityHandles == g.abilityHandles && r.sets == g.sets
    decreases |es|
  {
    if es != [] {
      var p, last := es[..|es| - 1], es[|es| - 1];
      GiveEffectsSpec(p, g);
      var q, vp := GiveEffects(p, g), ValidEffects(p);
      var r, v := GiveEffects(es, g), ValidEffects(es);
      if last.effect.Some? {
        assert v == vp + [last];
        forall i | |g.calls| <= i < |r.calls|
          ensures var e := v[i - |g.calls|];
            && r.calls[i].EffectApplied?
            && r.calls[i].effect == e.effect.value
            && r.calls[i].effectLevel == e.level
            && (IsValidHandle(r.calls[i].effectHandle) <==> !e.effect.value.instant)
        {
          if i < |q.calls| {
            assert v[i - |g.calls|] == vp[i - |g.calls|];
          }
        }
        assert r.calls[..|g.calls|] == q.calls[..|g.calls|];
        assert r.effectHandles[..|g.effectHandles|] == q.effectHandles[..|g.effectHandles|];
      } else {
        assert v == vp && r == q;
      }
    }
  }

  /** The phase a granting call belongs to. */
  function Rank(c: EngineCall): nat {
    match c
    case AttributeSetAdded(_, _) => 0
    case AbilityGranted(_) => 1
    case _ => 2
  }

  /** A grant makes all attribute-set calls first, then all ability calls, then all effect calls. */
  lemma GiveOrder(sets: seq<AttributeSetGrant>, abilities: seq<AbilityGrant>, effects: seq<EffectGrant>,
                  source: Option<Id>, g: Grant)
    ensures var r := GiveAll(sets, abilities, effects, source, g);
      forall i, j :: |g.calls| <= i < j < |r.calls| ==> Rank(r.calls[i]) <= Rank(r.calls[j])
  {
    var s1 := GiveSets(sets, g);
    var s2 := GiveAbilities(abilities, source, s1);
    var r := GiveEffects(effects, s2);
    GiveSetsSpec(sets, g);
    GiveAbilitiesSpec(abilities, source, s1);
    GiveEffectsSpec(effects, s2);
    forall i | |g.calls| <= i < |r.calls|
      ensures Rank(r.calls[i]) == if i < |s1.calls| then 0 else if i < |s2.calls| then 1 else 2
    {
      if i < |s2.calls| {
        assert r.calls[..|s2.calls|][i] == s2.calls[i];
        if i < |s1.calls| {
          assert s2.calls[..|s1.calls|][i] == s1.calls[i];
        }
      }
    }
  }

  // ---------------------------------------------------------------------------
  // Taking a grant back
  // ---------------------------------------------------------------------------

  /** The calls that take back a granting call: nothing for an effect without a valid handle. */
  function UndoCall(c: EngineCall): seq<EngineCall> {
    match c
    case AbilityGranted(spec) => [AbilityCleared(spec.handle)]
    case EffectApplied(_, _, h) => if IsValidHandle(h) then [EffectRemoved(h)] else []
    case AttributeSetAdded(_, s) => [AttributeSetRemoved(s)]
    case _ => []
  }

  function Undo(cs: seq<EngineCall>): seq<EngineCall>
    decreases |cs|
  {
    if cs == [] then [] else Undo(cs[..|cs| - 1]) + UndoCall(cs[|cs| - 1])
  }

  lemma {:induction false} UndoAppend(a: seq<EngineCall>, b: seq<EngineCall>)
    ensures Undo(a + b) == Undo(a) + Undo(b)
    decreases |b|
  {
    if b == [] {
      assert a + b == a;
    } else {
      var p := b[..|b| - 1];
      assert (a + b)[..|a + b| - 1] == a + p;
      UndoAppend(a, p);
    }
  }

  /** The first loop of TakeFromAbilitySystem: clears every valid ability handle, in order. */
  function ClearAbilityCalls(hs: seq<Handle>): seq<EngineCall>
    decreases |hs|
  {
    if hs == [] then []
    else
      var h := hs[|hs| - 1];
      ClearAbilityCalls(hs[..|hs| - 1]) + (if IsValidHandle(h) then [AbilityCleared(h)] else [])
  }

  /** The second loop: removes every valid effect handle, in order. */
  function RemoveEffectCalls(hs: seq<Handle>): seq<EngineCall>
    decreases |hs|
  {
    if hs == [] then []
    else
      var h := hs[|hs| - 1];
      RemoveEffectCalls(hs[..|hs| - 1]) + (if IsValidHandle(h) then [EffectRemoved(h)] else [])
  }

  /** The third loop: removes every recorded attribute set, in order. */
  function RemoveSetCalls(sets: seq<Id>): seq<EngineCall>
    decreases |sets|
  {
    if sets == [] then [] else RemoveSetCalls(sets[..|sets| - 1]) + [AttributeSetRemoved(sets[|sets| - 1])]
  }

  /** TakeFromAbilitySystem with authority: abilities, then effects, then attribute sets. */
  function TakeCalls(abilityHandles: seq<Handle>, effectHandles: seq<Handle>, sets: seq<Id>): seq<EngineCall> {
    ClearAbilityCalls(abilityHandles) + RemoveEffectCalls(effectHandles) + RemoveSetCalls(sets)
  }

  /** One more granting call: the undo of the calls since g grows by its undo. */
  lemma UndoSnoc(calls: seq<EngineCall>, from: nat, c: EngineCall)
    requires from <= |calls|
    ensures Undo((calls + [c])[from..]) == Undo(calls[from..]) + UndoCall(c)
  {
    assert (calls + [c])[from..] == calls[from..] + [c];
    UndoAppend(calls[from..], [c]);
    assert Undo([c]) == UndoCall(c) by {
      assert [c][..0] == [];
    }
  }

  /** One attribute-set entry: its undo is the removal of the set it records. */
  lemma SetStepUndo(e: AttributeSetGrant, q: Grant, from: nat)
    requires from <= |q.calls|
    ensures var r := SetStep(e, q);
      var x := if e.setClass.Some? then [AttributeSetRemoved(q.next)] else [];
      && |q.calls| <= |r.calls| && r.calls[..|q.calls|] == q.calls && r.calls[..from] == q.calls[..from]
      && Undo(r.calls[from..]) == Undo(q.calls[from..]) + x
      && RemoveSetCalls(r.sets) == RemoveSetCalls(q.sets) + x
      && r.abilityHandles == q.abilityHandles && r.effectHandles == q.effectHandles
  {
    if e.setClass.None? {
      assert SetStep(e, q) == q;
    } else {
      var r := SetStep(e, q);
      var c := AttributeSetAdded(e.setClass.value, q.next);
      assert r == q.(calls := q.calls + [c], sets := q.sets + [q.next], next := q.next + 1);
      UndoSnoc(q.calls, from, c);
      assert r.calls[..from] == q.calls[..from];
      assert r.sets == q.sets + [q.next];
      assert r.sets[..|r.sets| - 1] == q.sets;
      assert RemoveSetCalls(r.sets) == RemoveSetCalls(q.sets) + [AttributeSetRemoved(q.next)];
    }
  }

  /** One ability entry: its undo is the clearing of the handle it records. */
  lemma AbilityStepUndo(e: AbilityGrant, source: Option<Id>, q: Grant, from: nat)
    requires from <= |q.calls|
    ensures var r := AbilityStep(e, source, q);
      var x := if e.ability.Some? then [AbilityCleared(q.next)] else [];
      && |q.calls| <= |r.calls| && r.calls[..|q.calls|] == q.calls && r.calls[..from] == q.calls[..from]
      && Undo(r.calls[from..]) == Undo(q.calls[from..]) + x
      && ClearAbilityCalls(r.abilityHandles) == ClearAbilityCalls(q.abilityHandles) + x
      && r.effectHandles == q.effectHandles && r.sets == q.sets
  {
    if e.ability.Some? {
      var r := AbilityStep(e, source, q);
      var spec := NewSpec(e.ability.value, e.level, source, e.dynamicTags).(handle := q.next);
      assert r.calls == q.calls + [AbilityGranted(spec)];
      UndoSnoc(q.calls, from, AbilityGranted(spec));
      assert r.calls[..from] == q.calls[..from];
      assert r.abilityHandles == q.abilityHandles + [q.next];
      assert r.abilityHandles[..|r.abilityHandles| - 1] == q.abilityHandles;
    }
  }

  /** One effect entry: its undo is the removal of the handle it records, if it records one. */
  lemma EffectStepUndo(e: EffectGrant, q: Grant, from: nat)
    requires from <= |q.calls|
    ensures var r := EffectStep(e, q);
      var x := if e.effect.Some? && !e.effect.value.instant then [EffectRemoved(q.next)] else [];
      && |q.calls| <= |r.calls| && r.calls[..|q.calls|] == q.calls && r.calls[..from] == q.calls[..from]
      && Undo(r.calls[from..]) == Undo(q.calls[from..]) + x
      && RemoveEffectCalls(r.effectHandles) == RemoveEffectCalls(q.effectHandles) + x
      && r.abilityHandles == q.abilityHandles && r.sets == q.sets
  {
    if e.effect.Some? {
      var r := EffectStep(e, q);
      var def := e.effect.value;
      var h := if def.instant then InvalidHandle else q.next;
      assert r.calls == q.calls + [EffectApplied(def, e.level, h)];
      UndoSnoc(q.calls, from, EffectApplied(def, e.level, h));
      assert r.calls[..from] == q.calls[..from];
      if !def.instant {
        assert r.effectHandles == q.effectHandles + [q.next];
        assert r.effectHandles[..|r.effectHandles| - 1] == q.effectHandles;
      }
    }
  }

  /** The sets the attribute-set phase records are taken back by undoing its calls. */
  lemma {:induction false} UndoSetsPhase(es: seq<AttributeSetGrant>, g: Grant)
    ensures var r := GiveSets(es, g);
      && |g.calls| <= |r.calls| && r.calls[..|g.calls|] == g.calls
      && RemoveSetCalls(r.sets) == RemoveSetCalls(g.sets) + Undo(r.calls[|g.calls|..])
      && r.abilityHandles == g.abilityHandles && r.effectHandles == g.effectHandles
    decreases |es|
  {
    if es == [] {
      assert g.calls[|g.calls|..] == [];
    } else {
      var q := GiveSets(es[..|es| - 1], g);
      UndoSetsPhase(es[..|es| - 1], g);
      SetStepUndo(es[|es| - 1], q, |g.calls|);
      assert GiveSets(es, g) == SetStep(es[|es| - 1], q);
    }
  }

  /** The handles the ability phase records are cleared by undoing its calls. */
  lemma {:induction false} UndoAbilitiesPhase(es: seq<AbilityGrant>, source: Option<Id>, g: Grant)
    ensures var r := GiveAbilities(es, source, g);
      && |g.calls| <= |r.calls| && r.calls[..|g.calls|] == g.calls
      && ClearAbilityCalls(r.abilityHandles) == ClearAbilityCalls(g.abilityHandles) + Undo(r.calls[|g.calls|..])
      && r.effectHandles == g.effectHandles && r.sets == g.sets
    decreases |es|
  {
    if es == [] {
      assert g.calls[|g.calls|..] == [];
    } else {
      var q := GiveAbilities(es[..|es| - 1], source, g);
      UndoAbilitiesPhase(es[..|es| - 1], source, g);
      AbilityStepUndo(es[|es| - 1], source, q, |g.calls|);
      assert GiveAbilities(es, source, g) == AbilityStep(es[|es| - 1], source, q);
    }
  }

  /** The handles the effect phase records are removed by undoing its calls. */
  lemma {:induction false} UndoEffectsPhase(es: seq<EffectGrant>, g: Grant)
    ensures var r := GiveEffects(es, g);
      && |g.calls| <= |r.calls| && r.calls[..|g.calls|] == g.calls
      && RemoveEffectCalls(r.effectHandles) == RemoveEffectCalls(g.effectHandles) + Undo(r.calls[|g.calls|..])
      && r.abilityHandles == g.abilityHandles && r.sets == g.sets
    decreases |es|
  {
    if es == [] {
      assert g.calls[|g.calls|..] == [];
    } else {
      var q := GiveEffects(es[..|es| - 1], g);
      UndoEffectsPhase(es[..|es| - 1], g);
      EffectStepUndo(es[|es| - 1], q, |g.calls|);
      assert GiveEffects(es, g) == EffectStep(es[|es| - 1], q);
    }
  }

  /**
   * Taking back what a grant recorded into an empty record makes exactly the
   * calls that undo the grant's calls (one clear per given spec, one removal
   * per lasting effect and per added set), in the order abilities, effects,
   * attribute sets.
   */
  lemma TakeUndoesGive(sets: seq<AttributeSetGrant>, abilities: seq<AbilityGrant>, effects: seq<EffectGrant>,
                       source: Option<Id>, calls: seq<EngineCall>, next: nat)
    ensures var g := Grant(calls, [], [], [], next);
      var s1 := GiveSets(sets, g);
      var s2 := GiveAbilities(abilities, source, s1);
      var r := GiveEffects(effects, s2);
      && |calls| <= |s1.calls| <= |s2.calls| <= |r.calls|
      && TakeCalls(r.abilityHandles, r.effectHandles, r.sets)
        == Undo(s2.calls[|s1.calls|..]) + Undo(r.calls[|s2.calls|..]) + Undo(s1.calls[|calls|..])
      && multiset(TakeCalls(r.abilityHandles, r.effectHandles, r.sets)) == multiset(Undo(r.calls[|calls|..]))
  {
    var g := Grant(calls, [], [], [], next);
    var s1 := GiveSets(sets, g);
    var s2 := GiveAbilities(abilities, source, s1);
    var r := GiveEffects(effects, s2);
    UndoSetsPhase(sets, g);
    UndoAbilitiesPhase(abilities, source, s1);
    UndoEffectsPhase(effects, s2);
    UndoThreePhases(calls, s1.calls, s2.calls, r.calls);
    var ua, ub, uc := Undo(s1.calls[|calls|..]), Undo(s2.calls[|s1.calls|..]), Undo(r.calls[|s2.calls|..]);
    assert RemoveSetCalls(r.sets) == ua by {
      assert r.sets == s2.sets == s1.sets;
      assert RemoveSetCalls(g.sets) == [];
    }
    assert ClearAbilityCalls(r.abilityHandles) == ub by {
      assert r.abilityHandles == s2.abilityHandles && s1.abilityHandles == [];
      assert ClearAbilityCalls(s1.abilityHandles) == [];
    }
    assert RemoveEffectCalls(r.effectHandles) == uc by {
      assert s2.effectHandles == s1.effectHandles == [];
      assert RemoveEffectCalls(s2.effectHandles) == [];
    }
  }

  /** The calls since the start of three successive phases split into the three phases' calls. */
  lemma UndoThreePhases(c0: seq<EngineCall>, c1: seq<EngineCall>, c2: seq<EngineCall>, c3: seq<EngineCall>)
    requires |c0| <= |c1| <= |c2| <= |c3|
    requires c2[..|c1|] == c1 && c3[..|c2|] == c2
    ensures Undo(c3[|c0|..]) == Undo(c1[|c0|..]) + Undo(c2[|c1|..]) + Undo(c3[|c2|..])
  {
    var a, b, c := c1[|c0|..], c2[|c1|..], c3[|c2|..];
    assert c2 == c1 + b;
    assert c3 == c2 + c;
    assert c3[|c0|..] == a + b + c;
    UndoAppend(a, b);
    UndoAppend(a + b, c);
  }

  /** Every handle a grant records is valid and fresh, so the validity checks of the take loops never skip one. */
  lemma RecordedHandlesValid(sets: seq<AttributeSetGrant>, abilities: seq<AbilityGrant>, effects: seq<EffectGrant>,
                             source: Option<Id>, calls: seq<EngineCall>, next: nat)
    ensures var r := GiveAll(sets, abilities, effects, source, Grant(calls, [], [], [], next));
      && (forall h :: h in r.abilityHandles ==> IsValidHandle(h) && next <= h < r.next)
      && (forall h :: h in r.effectHandles ==> IsValidHandle(h) && next <= h < r.next)
      && (forall s :: s in r.sets ==> next <= s < r.next)
  {
    var g := Grant(calls, [], [], [], next);
    var s1 := GiveSets(sets, g);
    var s2 := GiveAbilities(abilities, source, s1);
    var r := GiveEffects(effects, s2);
    GiveSetsSpec(sets, g);
    GiveAbilitiesSpec(abilities, source, s1);
    GiveEffectsSpec(effects, s2);
    forall h | h in r.abilityHandles ensures IsValidHandle(h) && next <= h < r.next {
      var k :| 0 <= k < |r.abilityHandles| && r.abilityHandles[k] == h;
      assert r.abilityHandles[|s1.abilityHandles| + k] == s1.next + k;
    }
    forall s | s in r.sets ensures next <= s < r.next {
      var k :| 0 <= k < |r.sets| && r.sets[k] == s;
      assert r.sets[|g.sets| + k] == next + k;
    }
    forall h | h in r.effectHandles ensures IsValidHandle(h) && next <= h < r.next {
      var k :| 0 <= k < |r.effectHandles| && r.effectHandles[k] == h;
    }
  }

  // ---------------------------------------------------------------------------
  // The record of a grant (FAbilitySet_GrantedHandles)
  // ---------------------------------------------------------------------------

  class GrantedHandles {
    var abilitySpecHandles: seq<Handle>
    var gameplayEffectHandles: seq<Handle>
    var grantedAttributeSets: seq<Id>

    constructor()
      ensures abilitySpecHandles == [] && gameplayEffectHandles == [] && grantedAttributeSets == []
    {
      abilitySpecHandles := [];
      gameplayEffectHandles := [];
      grantedAttributeSets := [];
    }

    /** AddAbilitySpecHandle: an invalid handle is not recorded. */
    method AddAbilitySpecHandle(h: Handle)
      modifies this`abilitySpecHandles
      ensures abilitySpecHandles == old(abilitySpecHandles) + (if IsValidHandle(h) then [h] else [])
    {
      if IsValidHandle(h) {
        abilitySpecHandles := abilitySpecHandles + [h];
      }
    }

    /** AddGameplayEffectHandle: an invalid handle (an instant effect's) is not recorded. */
    method AddGameplayEffectHandle(h: Handle)
      modifies this`gameplayEffectHandles
      ensures gameplayEffectHandles == old(gameplayEffectHandles) + (if IsValidHandle(h) then [h] else [])
    {
      if IsValidHandle(h) {
        gameplayEffectHandles := gameplayEffectHandles + [h];
      }
    }

    /** AddAttributeSet: always recorded. */
    method AddAttributeSet(s: Id)
      modifies this`grantedAttributeSets
      ensures grantedAttributeSets == old(grantedAttributeSets) + [s]
    {
      grantedAttributeSets := grantedAttributeSets + [s];
    }

    /**
     * TakeFromAbilitySystem: without authority nothing happens; otherwise
     * every valid recorded handle is cleared or removed, every recorded set
     * removed, and the record emptied.
     */
    method TakeFromAbilitySystem(asc: AbilitySystemComponent)
      modifies this, asc`engineLog
      ensures !asc.hasAuthority ==> unchanged(this) && asc.engineLog == old(asc.engineLog)
      ensures asc.hasAuthority ==>
        && asc.engineLog == old(asc.engineLog)
             + TakeCalls(old(abilitySpecHandles), old(gameplayEffectHandles), old(grantedAttributeSets))
        && abilitySpecHandles == [] && gameplayEffectHandles == [] && grantedAttributeSets == []
    {
      if !asc.hasAuthority {
        return;
      }
      ClearAbilities(asc, abilitySpecHandles);
      RemoveEffects(asc, gameplayEffectHandles);
      RemoveSets(asc, grantedAttributeSets);
      abilitySpecHandles := [];
      gameplayEffectHandles := [];
      grantedAttributeSets := [];
    }
  }

  method ClearAbilities(asc: AbilitySystemComponent, hs: seq<Handle>)
    modifies asc`engineLog
    ensures asc.engineLog == old(asc.engineLog) + ClearAbilityCalls(hs)
  {
    var i := 0;
    while i < |hs|
      invariant 0 <= i <= |hs|
      invariant asc.engineLog == old(asc.engineLog) + ClearAbilityCalls(hs[..i])
    {
      assert hs[..i + 1][..i] == hs[..i];
      if IsValidHandle(hs[i]) {
        asc.Record(AbilityCleared(hs[i]));
      }
      i := i + 1;
    }
    assert hs[..i] == hs;
  }

  method RemoveEffects(asc: AbilitySystemComponent, hs: seq<Handle>)
    modifies asc`engineLog
    ensures asc.engineLog == old(asc.engineLog) + RemoveEffectCalls(hs)
  {
    var i := 0;
    while i < |hs|
      invariant 0 <= i <= |hs|
      invariant asc.engineLog == old(asc.engineLog) + RemoveEffectCalls(hs[..i])
    {
      assert hs[..i + 1][..i] == hs[..i];
      if IsValidHandle(hs[i]) {
        asc.Record(EffectRemoved(hs[i]));
      }
      i := i + 1;
    }
    assert hs[..i] == hs;
  }

  method RemoveSets(asc: AbilitySystemComponent, sets: seq<Id>)
    modifies asc`engineLog
    ensures asc.engineLog == old(asc.engineLog) + RemoveSetCalls(sets)
  {
    var i := 0;
    while i < |sets|
      invariant 0 <= i <= |sets|
      invariant asc.engineLog == old(asc.engineLog) + RemoveSetCalls(sets[..i])
    {
      assert sets[..i + 1][..i] == sets[..i];
      asc.Record(AttributeSetRemoved(sets[i]));
      i := i + 1;
    }
    assert sets[..i] == sets;
  }

  // ---------------------------------------------------------------------------
  // The data asset (UAbilitySet)
  // ---------------------------------------------------------------------------

  /** What the component and the optional record show of a grant in progress. */
  ghost function Progress(asc: AbilitySystemComponent, out: GrantedHandles?): Grant
    reads asc, out
  {
    if out == null then Grant(asc.engineLog, [], [], [], asc.nextId)
    else Grant(asc.engineLog, out.abilitySpecHandles, out.gameplayEffectHandles, out.grantedAttributeSets, asc.nextId)
  }

  /** The component and the record (when supplied) are as grant g describes. */
  ghost predicate Reflects(asc: AbilitySystemComponent, out: GrantedHandles?, g: Grant)
    reads asc, out
  {
    && asc.engineLog == g.calls
    && asc.nextId == g.next
    && (out != null ==>
      && out.abilitySpecHandles == g.abilityHandles
      && out.gameplayEffectHandles == g.effectHandles
      && out.grantedAttributeSets == g.sets)
  }

  class AbilitySet {
    const grantedGameplayAbilities: seq<AbilityGrant>
    const grantedGameplayEffects: seq<EffectGrant>
    const grantedAttributes: seq<AttributeSetGrant>

    constructor(abilities: seq<AbilityGrant>, effects: seq<EffectGrant>, sets: seq<AttributeSetGrant>)
      ensures grantedGameplayAbilities == abilities && grantedGameplayEffects == effects
      ensures grantedAttributes == sets
    {
      grantedGameplayAbilities := abilities;
      grantedGameplayEffects := effects;
      grantedAttributes := sets;
    }

    /**
     * GiveToAbilitySystem: without authority nothing is granted or recorded;
     * otherwise the attribute sets, abilities and effects are granted in that
     * order, skipping null classes, and recorded when a record is supplied.
     */
    method GiveToAbilitySystem(asc: AbilitySystemComponent, out: GrantedHandles?, source: Option<Id>)
      modifies asc`nextId, asc`engineLog, out
      ensures !asc.hasAuthority ==>
        asc.engineLog == old(asc.engineLog) && asc.nextId == old(asc.nextId) && (out != null ==> unchanged(out))
      ensures asc.hasAuthority ==>
        Reflects(asc, out, GiveAll(grantedAttributes, grantedGameplayAbilities, grantedGameplayEffects, source,
                                   old(Progress(asc, out))))
    {
      if !asc.hasAuthority {
        return;
      }
      ghost var g0 := Progress(asc, out);
      ghost var g1 := GiveSets(grantedAttributes, g0);
      ghost var g2 := GiveAbilities(grantedGameplayAbilities, source, g1);
      GrantAttributeSets(asc, out, grantedAttributes, g0);
      GrantAbilities(asc, out, grantedGameplayAbilities, source, g1);
      GrantEffects(asc, out, grantedGameplayEffects, g2);
    }
  }

  /** The attribute-set loop of GiveToAbilitySystem. */
  method GrantAttributeSets(asc: AbilitySystemComponent, out: GrantedHandles?, es: seq<AttributeSetGrant>, ghost g0: Grant)
    modifies asc`nextId, asc`engineLog, out
    requires Reflects(asc, out, g0)
    ensures Reflects(asc, out, GiveSets(es, g0))
  {
    var i := 0;
    while i < |es|
      invariant 0 <= i <= |es|
      invariant Reflects(asc, out, GiveSets(es[..i], g0))
    {
      assert es[..i + 1][..i] == es[..i];
      if es[i].setClass.Some? {
        var s := asc.AddAttributeSetSubobject(es[i].setClass.value);
        if out != null {
          out.AddAttributeSet(s);
        }
      }
      i := i + 1;
    }
    assert es[..i] == es;
  }

  /** The ability loop of GiveToAbilitySystem. */
  method GrantAbilities(asc: AbilitySystemComponent, out: GrantedHandles?, es: seq<AbilityGrant>, source: Option<Id>, ghost g0: Grant)
    modifies asc`nextId, asc`engineLog, out
    requires Reflects(asc, out, g0)
    ensures Reflects(asc, out, GiveAbilities(es, source, g0))
  {
    var i := 0;
    while i < |es|
      invariant 0 <= i <= |es|
      invariant Reflects(asc, out, GiveAbilities(es[..i], source, g0))
    {
      assert es[..i + 1][..i] == es[..i];
      if es[i].ability.Some? {
        var e := es[i];
        var h := asc.GiveAbility(NewSpec(e.ability.value, e.level, source, e.dynamicTags));
        if out != null {
          out.AddAbilitySpecHandle(h);
        }
      }
      i := i + 1;
    }
    assert es[..i] == es;
  }

  /** The effect loop of GiveToAbilitySystem. */
  method GrantEffects(asc: AbilitySystemComponent, out: GrantedHandles?, es: seq<EffectGrant>, ghost g0: Grant)
    modifies asc`nextId, asc`engineLog, out
    requires Reflects(asc, out, g0)
    ensures Reflects(asc, out, GiveEffects(es, g0))
  {
    var i := 0;
    while i < |es|
      invariant 0 <= i <= |es|
      invariant Reflects(asc, out, GiveEffects(es[..i], g0))
    {
      assert es[..i + 1][..i] == es[..i];
      if es[i].effect.Some? {
        var h := asc.ApplyGameplayEffectToSelf(es[i].effect.value, es[i].level);
        if out != null {
          out.AddGameplayEffectHandle(h);
        }
      }
      i := i + 1;
    }
    assert es[..i] == es;
  }
}
