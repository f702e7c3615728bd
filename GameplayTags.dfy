/**
 * Gameplay tags as dotted paths ("Gameplay.State.Death" is
 * ["Gameplay", "State", "Death"]) and the container queries the plugin uses.
 * The empty path stands for the invalid (None) tag.
 */
module GameplayTags {
  import opened Common

  type Tag = seq<string>

  /** A tag container, in insertion order. */
  type TagContainer = seq<Tag>

  predicate IsValid(t: Tag) { |t| > 0 }

  /** a.MatchesTag(b): a is the valid tag b or one of its descendants. */
  predicate MatchesTag(a: Tag, b: Tag) {
    0 < |b| <= |a| && a[..|b|] == b
  }

  /** container.HasTag(t): some contained tag matches t (parents are implied). */
  predicate HasTag(c: TagContainer, t: Tag) {
    exists x :: x in c && MatchesTag(x, t)
  }

  /** container.HasTagExact(t): t itself is in the container. */
  predicate HasTagExact(c: TagContainer, t: Tag) {
    IsValid(t) && t in c
  }

  /** container.HasAny(other): some tag of other is matched; false for an empty other. */
  predicate HasAny(c: TagContainer, other: TagContainer) {
    exists t :: t in other && HasTag(c, t)
  }

  /** container.HasAll(other): every tag of other is matched; true for an empty other. */
  predicate HasAll(c: TagContainer, other: TagContainer) {
    forall t :: t in other ==> HasTag(c, t)
  }

  /** container.AddTag(t): adds a valid tag once. */
  function AddTag(c: TagContainer, t: Tag): (r: TagContainer)
    ensures IsValid(t) ==> HasTagExact(r, t)
    ensures forall x :: x in r <==> x in c || (x == t && IsValid(t))
  {
    if IsValid(t) then AddUnique(c, t) else c
  }

  /** container.RemoveTag(t): removes exactly t, never its children. */
  function RemoveTag(c: TagContainer, t: Tag): (r: TagContainer)
    ensures !HasTagExact(r, t)
    ensures forall x :: x in r <==> x in c && x != t
  {
    RemoveAll(c, t)
  }

  /** Tags used by the plugin. */
  const ActivateFailActivationGroup: Tag := ["Ability", "ActivateFail", "ActivationGroup"]
  const ActivateFailIsDead: Tag := ["Ability", "ActivateFail", "IsDead"]
  const GameplayEventDeath: Tag := ["Ability", "GameplayEvent", "Death"]
  const GameplayEventRevive: Tag := ["Ability", "GameplayEvent", "Revive"]
  const InputBlocked: Tag := ["Ability", "InputBlocked"]
  const StateDeath: Tag := ["Gameplay", "State", "Death"]
  const StateDeathDead: Tag := ["Gameplay", "State", "Death", "Dead"]
  const StateDeathDying: Tag := ["Gameplay", "State", "Death", "Dying"]
  const StateDeathReviving: Tag := ["Gameplay", "State", "Death", "Reviving"]

  /** A valid tag matches itself, and matching is transitive. */
  lemma MatchesTagPreorder(a: Tag, b: Tag, c: Tag)
    ensures IsValid(a) ==> MatchesTag(a, a)
    ensures MatchesTag(a, b) && MatchesTag(b, c) ==> MatchesTag(a, c)
  {
    if MatchesTag(a, b) && MatchesTag(b, c) {
      assert a[..|c|] == a[..|b|][..|c|];
    }
  }

  /** Two ancestors-or-self of one tag are comparable: one matches the other. */
  lemma AncestorsComparable(t: Tag, a: Tag, b: Tag)
    requires MatchesTag(t, a) && MatchesTag(t, b)
    ensures MatchesTag(a, b) || MatchesTag(b, a)
  {
    if |b| <= |a| {
      assert a[..|b|] == t[..|a|][..|b|];
    } else {
      assert b[..|a|] == t[..|b|][..|a|];
    }
  }

  /** A tag held exactly is also matched. */
  lemma ExactImpliesHasTag(c: TagContainer, t: Tag)
    ensures HasTagExact(c, t) ==> HasTag(c, t)
  {
    if HasTagExact(c, t) {
      assert MatchesTag(t, t);
    }
  }

  /** HasTag of a single-tag container is MatchesTag. */
  lemma HasTagSingleton(x: Tag, t: Tag)
    ensures HasTag([x], t) <==> MatchesTag(x, t)
  {
    if MatchesTag(x, t) { assert x in [x]; }
  }

  /**
   * The three death tags are distinct descendants of Gameplay.State.Death,
   * and none matches another.
   */
  lemma DeathTagsDistinct()
    ensures MatchesTag(StateDeathDead, StateDeath) && MatchesTag(StateDeathDying, StateDeath)
    ensures MatchesTag(StateDeathReviving, StateDeath)
    ensures !MatchesTag(StateDeathDead, StateDeathDying) && !MatchesTag(StateDeathDying, StateDeathDead)
    ensures !MatchesTag(StateDeathReviving, StateDeathDead) && !MatchesTag(StateDeathReviving, StateDeathDying)
    ensures !MatchesTag(StateDeathDead, StateDeathReviving) && !MatchesTag(StateDeathDying, StateDeathReviving)
  {
    assert StateDeathDead[..3] == StateDeath;
    assert StateDeathDying[..3] == StateDeath;
    assert StateDeathReviving[..3] == StateDeath;
    assert StateDeathDead[3] != StateDeathDying[3];
    assert StateDeathReviving[3] != StateDeathDead[3];
    assert StateDeathReviving[3] != StateDeathDying[3];
  }
}
