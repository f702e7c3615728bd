/**
 * The ability input manager component: per-frame lists of pressed, released
 * and held spec handles fed by input tags; the processing step that activates
 * abilities by their activation policy and passes input events on to running
 * ones; and the authority-gated edits of its input container.
 */
module AbilityInputManager {
  import opened Common
  import opened GameplayTags
  import opened AbilitySystem
  import opened AbilityInputTypes
  import GameplayAbility

  // ---------------------------------------------------------------------------
  // Specs by handle
  // ---------------------------------------------------------------------------

  /** The ability class of a spec, as an input item lists it. */
  function SpecAbility(s: AbilitySpec): AbilityRef {
    AbilityClass(s.ability.cls)
  }

  /** FindAbilitySpecFromHandle from index k on: the first spec with handle h. */
  function FindSpecFrom(specs: seq<AbilitySpec>, h: Handle, k: nat): (r: Option<nat>)
    requires k <= |specs|
    ensures r.Some? ==> (k <= r.value < |specs| && specs[r.value].handle == h
      && forall j :: k <= j < r.value ==> specs[j].handle != h)
    ensures r.None? ==> forall j :: k <= j < |specs| ==> specs[j].handle != h
    decreases |specs| - k
  {
    if k == |specs| then None
    else if specs[k].handle == h then Some(k)
    else FindSpecFrom(specs, h, k + 1)
  }

  function FindSpec(specs: seq<AbilitySpec>, h: Handle): Option<nat> {
    FindSpecFrom(specs, h, 0)
  }

  /** With unique handles, looking up a spec's handle finds that spec. */
  lemma FindSpecUnique(specs: seq<AbilitySpec>, k: nat)
    requires HandlesUnique(specs) && k < |specs|
    ensures FindSpec(specs, specs[k].handle) == Some(k)
  {
  }

  /** Two lists with the same handles at the same positions find a handle at the same index. */
  lemma {:induction false} FindSpecSameHandles(a: seq<AbilitySpec>, b: seq<AbilitySpec>, h: Handle, k: nat)
    requires |a| == |b| && k <= |a|
    requires forall j :: 0 <= j < |a| ==> a[j].handle == b[j].handle
    ensures FindSpecFrom(a, h, k) == FindSpecFrom(b, h, k)
    decreases |a| - k
  {
    if k < |a| && a[k].handle != h {
      FindSpecSameHandles(a, b, h, k + 1);
    }
  }

  /** The two lists differ at most in the input-pressed flags of their specs. */
  ghost predicate SameButInput(a: seq<AbilitySpec>, b: seq<AbilitySpec>) {
    |a| == |b| && forall k :: 0 <= k < |a| ==> a[k] == b[k].(inputPressed := a[k].inputPressed)
  }

  /** Input-pressed flags play no part in the running counts or the component invariant. */
  lemma {:induction false} SameButInputRunning(a: seq<AbilitySpec>, b: seq<AbilitySpec>, g: ActivationGroup)
    requires SameButInput(a, b)
    ensures CountRunning(a, g) == CountRunning(b, g)
    decreases |a|
  {
    if a != [] {
      var n := |a|;
      var p, q := a[..n - 1], b[..n - 1];
      assert SameButInput(p, q) by {
        forall k | 0 <= k < n - 1 ensures p[k] == q[k].(inputPressed := p[k].inputPressed) {
          assert a[k] == b[k].(inputPressed := a[k].inputPressed);
        }
      }
      SameButInputRunning(p, q, g);
      assert a[n - 1] == b[n - 1].(inputPressed := a[n - 1].inputPressed);
    }
  }

  lemma SameButInputInvariant(a: seq<AbilitySpec>, b: seq<AbilitySpec>)
    requires SameButInput(a, b)
    ensures forall g: ActivationGroup :: CountRunning(a, g) == CountRunning(b, g)
    ensures HandlesUnique(b) ==> HandlesUnique(a)
    ensures NonInstancedCancelable(b) ==> NonInstancedCancelable(a)
    ensures RunningReplaceableCancelable(b) ==> RunningReplaceableCancelable(a)
  {
    forall g: ActivationGroup ensures CountRunning(a, g) == CountRunning(b, g) {
      SameButInputRunning(a, b, g);
    }
    assert forall k :: 0 <= k < |a| ==> (a[k].handle == b[k].handle && a[k].ability == b[k].ability
      && a[k].active == b[k].active && a[k].group == b[k].group && a[k].canBeCanceled == b[k].canBeCanceled);
  }

  // ---------------------------------------------------------------------------
  // Pressing and releasing an input tag
  // ---------------------------------------------------------------------------

  /** Whether the ability of spec s is mapped to input tag t. */
  predicate IsMapped(items: seq<AbilityInputItem>, t: Tag, s: AbilitySpec) {
    IsAbilityMappedToInput(items, t, SpecAbility(s))
  }

  /** The handles, in list order, of the specs whose ability is mapped to t. */
  function MappedHandles(specs: seq<AbilitySpec>, items: seq<AbilityInputItem>, t: Tag): seq<Handle>
    decreases |specs|
  {
    if specs == [] then []
    else
      var s := specs[|specs| - 1];
      MappedHandles(specs[..|specs| - 1], items, t) + (if IsMapped(items, t, s) then [s.handle] else [])
  }

  lemma MappedHandlesStep(specs: seq<AbilitySpec>, items: seq<AbilityInputItem>, t: Tag, k: nat)
    requires k < |specs|
    ensures MappedHandles(specs[..k + 1], items, t)
      == MappedHandles(specs[..k], items, t) + (if IsMapped(items, t, specs[k]) then [specs[k].handle] else [])
  {
    assert specs[..k + 1][..k] == specs[..k];
  }

  /** One step of a press: the next spec's handle is added once when its ability is mapped. */
  lemma PressStep(list: seq<Handle>, specs: seq<AbilitySpec>, items: seq<AbilityInputItem>, t: Tag, k: nat)
    requires k < |specs|
    ensures AddUniqueAll(list, MappedHandles(specs[..k + 1], items, t))
      == if IsMapped(items, t, specs[k]) then AddUnique(AddUniqueAll(list, MappedHandles(specs[..k], items, t)), specs[k].handle)
         else AddUniqueAll(list, MappedHandles(specs[..k], items, t))
  {
    MappedHandlesStep(specs, items, t, k);
    var m := MappedHandles(specs[..k], items, t);
    if IsMapped(items, t, specs[k]) {
      AddUniqueAllSnoc(list, m, specs[k].handle);
    } else {
      assert m + [] == m;
    }
  }

  /** One step of a release: the next spec's handle is dropped when its ability is mapped. */
  lemma ReleaseStep(list: seq<Handle>, specs: seq<AbilitySpec>, items: seq<AbilityInputItem>, t: Tag, k: nat)
    requires k < |specs|
    ensures RemoveEach(list, MappedHandles(specs[..k + 1], items, t))
      == if IsMapped(items, t, specs[k]) then RemoveAll(RemoveEach(list, MappedHandles(specs[..k], items, t)), specs[k].handle)
         else RemoveEach(list, MappedHandles(specs[..k], items, t))
  {
    MappedHandlesStep(specs, items, t, k);
    var m := MappedHandles(specs[..k], items, t);
    if IsMapped(items, t, specs[k]) {
      RemoveEachSnoc(list, m, specs[k].handle);
    } else {
      assert m + [] == m;
    }
  }

  /**
   * The loop of InputTagPressed over the specs: the handle of each mapped
   * spec is added once to both lists.
   */
  method PressLists(pressed: seq<Handle>, held: seq<Handle>, specs: seq<AbilitySpec>, items: seq<AbilityInputItem>, t: Tag)
    returns (p: seq<Handle>, h: seq<Handle>)
    ensures p == AddUniqueAll(pressed, MappedHandles(specs, items, t))
    ensures h == AddUniqueAll(held, MappedHandles(specs, items, t))
  {
    p, h := pressed, held;
    var k := 0;
    while k < |specs|
      invariant 0 <= k <= |specs|
      invariant p == AddUniqueAll(pressed, MappedHandles(specs[..k], items, t))
      invariant h == AddUniqueAll(held, MappedHandles(specs[..k], items, t))
    {
      PressStep(pressed, specs, items, t, k);
      PressStep(held, specs, items, t, k);
      if IsMapped(items, t, specs[k]) {
        p := AddUnique(p, specs[k].handle);
        h := AddUnique(h, specs[k].handle);
      }
      k := k + 1;
    }
    assert specs[..k] == specs;
  }

  /**
   * The loop of InputTagReleased over the specs: the handle of each mapped
   * spec is added once to the released list and dropped from the held list.
   */
  method ReleaseLists(released: seq<Handle>, held: seq<Handle>, specs: seq<AbilitySpec>, items: seq<AbilityInputItem>, t: Tag)
    returns (r: seq<Handle>, h: seq<Handle>)
    ensures r == AddUniqueAll(released, MappedHandles(specs, items, t))
    ensures h == RemoveEach(held, MappedHandles(specs, items, t))
  {
    r, h := released, held;
    var k := 0;
    while k < |specs|
      invariant 0 <= k <= |specs|
      invariant r == AddUniqueAll(released, MappedHandles(specs[..k], items, t))
      invariant h == RemoveEach(held, MappedHandles(specs[..k], items, t))
    {
      PressStep(released, specs, items, t, k);
      ReleaseStep(held, specs, items, t, k);
      if IsMapped(items, t, specs[k]) {
        r := AddUnique(r, specs[k].handle);
        h := RemoveAll(h, specs[k].handle);
      }
      k := k + 1;
    }
    assert specs[..k] == specs;
  }

  /** A handle is collected exactly when some spec with that handle has a mapped ability. */
  lemma {:induction false} MappedHandlesSpec(specs: seq<AbilitySpec>, items: seq<AbilityInputItem>, t: Tag)
    ensures forall h :: (h in MappedHandles(specs, items, t)
      <==> exists k :: 0 <= k < |specs| && specs[k].handle == h && IsMapped(items, t, specs[k]))
    decreases |specs|
  {
    if specs != [] {
      var n := |specs|;
      var p := specs[..n - 1];
      var last := if IsMapped(items, t, specs[n - 1]) then [specs[n - 1].handle] else [];
      assert MappedHandles(specs, items, t) == MappedHandles(p, items, t) + last;
      MappedHandlesSpec(p, items, t);
      forall h ensures h in MappedHandles(specs, items, t)
        <==> exists k :: 0 <= k < n && specs[k].handle == h && IsMapped(items, t, specs[k])
      {
        if h in MappedHandles(p, items, t) {
          var k :| 0 <= k < n - 1 && p[k].handle == h && IsMapped(items, t, p[k]);
          assert specs[k] == p[k];
        }
        if exists k :: 0 <= k < n && specs[k].handle == h && IsMapped(items, t, specs[k]) {
          var k :| 0 <= k < n && specs[k].handle == h && IsMapped(items, t, specs[k]);
          if k < n - 1 {
            assert p[k] == specs[k];
          }
        }
      }
    }
  }

  /**
   * A press extends a handle list by every handle of a mapped spec and by
   * nothing else, keeping the old handles in front and adding no duplicate.
   */
  lemma PressAddsMapped(list: seq<Handle>, specs: seq<AbilitySpec>, items: seq<AbilityInputItem>, t: Tag)
    ensures var r := AddUniqueAll(list, MappedHandles(specs, items, t));
      && |list| <= |r| && r[..|list|] == list
      && (forall h :: h in r <==> h in list || exists k :: 0 <= k < |specs| && specs[k].handle == h && IsMapped(items, t, specs[k]))
      && (NoDuplicates(list) ==> NoDuplicates(r))
  {
    AddUniqueAllSpec(list, MappedHandles(specs, items, t));
    MappedHandlesSpec(specs, items, t);
  }

  /** A release drops from the held list every handle of a mapped spec and keeps the others. */
  lemma ReleaseRemovesMapped(list: seq<Handle>, specs: seq<AbilitySpec>, items: seq<AbilityInputItem>, t: Tag)
    ensures var r := RemoveEach(list, MappedHandles(specs, items, t));
      && (forall h :: h in r <==> h in list && !exists k :: 0 <= k < |specs| && specs[k].handle == h && IsMapped(items, t, specs[k]))
      && (NoDuplicates(list) ==> NoDuplicates(r))
  {
    MappedHandlesSpec(specs, items, t);
  }

  // ---------------------------------------------------------------------------
  // Processing the lists
  // ---------------------------------------------------------------------------

  /** The spec with handle h exists, is not active, and its Crim ability has policy p. */
  predicate InactiveWithPolicy(specs: seq<AbilitySpec>, h: Handle, p: ActivationPolicy) {
    match FindSpec(specs, h)
    case Some(k) => !specs[k].active && specs[k].ability.isCrim && specs[k].ability.policy == p
    case None => false
  }

  /** The handles of hs, in order, whose spec is inactive with policy p. */
  function Select(specs: seq<AbilitySpec>, hs: seq<Handle>, p: ActivationPolicy): seq<Handle>
    decreases |hs|
  {
    if hs == [] then []
    else
      var h := hs[|hs| - 1];
      Select(specs, hs[..|hs| - 1], p) + (if InactiveWithPolicy(specs, h, p) then [h] else [])
  }

  lemma {:induction false} SelectSpec(specs: seq<AbilitySpec>, hs: seq<Handle>, p: ActivationPolicy)
    ensures forall h :: h in Select(specs, hs, p) <==> h in hs && InactiveWithPolicy(specs, h, p)
    ensures NoDuplicates(hs) ==> NoDuplicates(Select(specs, hs, p))
    decreases |hs|
  {
    if hs != [] {
      var n := |hs|;
      var q := hs[..n - 1];
      SelectSpec(specs, q, p);
      assert forall h :: h in hs <==> h in q || h == hs[n - 1];
      if NoDuplicates(hs) {
        assert hs[n - 1] !in q;
        assert NoDuplicates(q);
      }
    }
  }

  /**
   * The abilities to activate this frame: the held handles of inactive
   * while-input-active specs, then the pressed handles of inactive
   * on-input-triggered specs.
   */
  function ActivationCandidates(specs: seq<AbilitySpec>, held: seq<Handle>, pressed: seq<Handle>): seq<Handle> {
    Select(specs, held, WhileInputActive) + Select(specs, pressed, OnInputTriggered)
  }

  /**
   * A handle is a candidate exactly when it is held with a while-input-active
   * spec or pressed with an on-input-triggered one, the spec being inactive;
   * from duplicate-free lists the candidates are duplicate-free, as no spec
   * has both policies.
   */
  lemma CandidatesSpec(specs: seq<AbilitySpec>, held: seq<Handle>, pressed: seq<Handle>)
    ensures forall h :: h in ActivationCandidates(specs, held, pressed) <==>
      (h in held && InactiveWithPolicy(specs, h, WhileInputActive))
      || (h in pressed && InactiveWithPolicy(specs, h, OnInputTriggered))
    ensures NoDuplicates(held) && NoDuplicates(pressed) ==> NoDuplicates(ActivationCandidates(specs, held, pressed))
  {
    var a := Select(specs, held, WhileInputActive);
    var b := Select(specs, pressed, OnInputTriggered);
    SelectSpec(specs, held, WhileInputActive);
    SelectSpec(specs, pressed, OnInputTriggered);
    if NoDuplicates(held) && NoDuplicates(pressed) {
      var c := a + b;
      forall i, j | 0 <= i < j < |c| ensures c[i] != c[j] {
        if i < |a| && j >= |a| {
          assert c[i] in a && c[j] == b[j - |a|] && c[j] in b;
        }
      }
    }
  }

  /** Sets the input-pressed flag to v on the spec of every handle of hs, in order. */
  function MarkInput(specs: seq<AbilitySpec>, hs: seq<Handle>, v: bool): seq<AbilitySpec>
    decreases |hs|
  {
    if hs == [] then specs
    else
      var m := MarkInput(specs, hs[..|hs| - 1], v);
      match FindSpec(m, hs[|hs| - 1])
      case Some(k) => m[k := m[k].(inputPressed := v)]
      case None => m
  }

  lemma {:induction false} MarkInputShape(specs: seq<AbilitySpec>, hs: seq<Handle>, v: bool)
    ensures SameButInput(MarkInput(specs, hs, v), specs)
    decreases |hs|
  {
    if hs != [] {
      MarkInputShape(specs, hs[..|hs| - 1], v);
    }
  }

  /**
   * With unique handles, marking sets the flag of exactly the specs whose
   * handle is listed and leaves every other spec as it was.
   */
  lemma {:induction false} MarkInputSpec(specs: seq<AbilitySpec>, hs: seq<Handle>, v: bool)
    requires HandlesUnique(specs)
    ensures SameButInput(MarkInput(specs, hs, v), specs)
    ensures forall k :: 0 <= k < |specs| ==>
      MarkInput(specs, hs, v)[k].inputPressed == if specs[k].handle in hs then v else specs[k].inputPressed
    decreases |hs|
  {
    MarkInputShape(specs, hs, v);
    if hs != [] {
      var q := hs[..|hs| - 1];
      var h := hs[|hs| - 1];
      var m := MarkInput(specs, q, v);
      MarkInputSpec(specs, q, v);
      MarkInputShape(specs, q, v);
      assert forall x :: x in hs <==> x in q || x == h;
      FindSpecSameHandles(m, specs, h, 0);
      var r := MarkInput(specs, hs, v);
      forall k | 0 <= k < |specs|
        ensures r[k].inputPressed == if specs[k].handle in hs then v else specs[k].inputPressed
      {
        if specs[k].handle == h {
          FindSpecUnique(specs, k);
        }
      }
    }
  }

  /** The event an input change sends to the running ability of handle h. */
  function InputEvent(h: Handle, pressed: bool): EngineCall {
    if pressed then InputPressedEvent(h) else InputReleasedEvent(h)
  }

  /** The spec with handle h exists and is active. */
  predicate IsActiveHandle(specs: seq<AbilitySpec>, h: Handle) {
    match FindSpec(specs, h)
    case Some(k) => specs[k].active
    case None => false
  }

  /** The input events sent for the handles of hs whose spec is active, in order. */
  function InputEvents(specs: seq<AbilitySpec>, hs: seq<Handle>, pressed: bool): seq<EngineCall>
    decreases |hs|
  {
    if hs == [] then []
    else
      var h := hs[|hs| - 1];
      InputEvents(specs, hs[..|hs| - 1], pressed) + (if IsActiveHandle(specs, h) then [InputEvent(h, pressed)] else [])
  }

  /** An input event goes exactly to the listed handles whose spec is active, and no other event is sent. */
  lemma {:induction false} InputEventsSpec(specs: seq<AbilitySpec>, hs: seq<Handle>, pressed: bool)
    ensures forall h :: InputEvent(h, pressed) in InputEvents(specs, hs, pressed) <==> h in hs && IsActiveHandle(specs, h)
    ensures forall e :: e in InputEvents(specs, hs, pressed) ==> exists h :: h in hs && e == InputEvent(h, pressed)
    decreases |hs|
  {
    if hs != [] {
      var q := hs[..|hs| - 1];
      InputEventsSpec(specs, q, pressed);
      assert forall x :: x in hs <==> x in q || x == hs[|hs| - 1];
      forall h ensures InputEvent(h, pressed) in InputEvents(specs, hs, pressed) <==> h in hs && IsActiveHandle(specs, h) {
        if InputEvent(h, pressed) == InputEvent(hs[|hs| - 1], pressed) {
          assert h == hs[|hs| - 1];
        }
      }
    }
  }

  /**
   * TryActivateAbility on spec i, stated on the specs alone: under the
   * component invariant an exclusive group is blocked exactly when a
   * blocking ability runs.
   */
  function TryActivated(specs: seq<AbilitySpec>, i: nat, ok: bool): seq<AbilitySpec>
    requires i < |specs|
  {
    var s := specs[i];
    if s.active || !ok || (s.ability.isCrim && s.group != Independent && CountRunning(specs, ExclusiveBlocking) > 0)
    then specs
    else GameplayAbility.Activated(specs, i)
  }

  /** TryActivateAbility on the spec of every handle of hs, in order. */
  function ActivateAll(specs: seq<AbilitySpec>, hs: seq<Handle>, superOk: Handle -> bool): seq<AbilitySpec>
    decreases |hs|
  {
    if hs == [] then specs
    else
      var next := match FindSpec(specs, hs[0])
        case Some(k) => TryActivated(specs, k, superOk(hs[0]))
        case None => specs;
      ActivateAll(next, hs[1..], superOk)
  }

  /** Activating keeps every spec's handle and ability, and only the spec activated becomes active. */
  lemma TryActivatedOnly(specs: seq<AbilitySpec>, i: nat, ok: bool)
    requires i < |specs|
    ensures |TryActivated(specs, i, ok)| == |specs|
    ensures forall k :: 0 <= k < |specs| ==>
      TryActivated(specs, i, ok)[k].handle == specs[k].handle && TryActivated(specs, i, ok)[k].ability == specs[k].ability
    ensures forall k :: 0 <= k < |specs| && k != i && !specs[k].active ==> !TryActivated(specs, i, ok)[k].active
  {
    var a := specs[i := specs[i].(active := true, canBeCanceled := true)];
    var f := GroupCancelFilter(ExclusiveReplaceable, specs[i].handle);
    assert forall k :: 0 <= k < |a| ==> CancelAll(a, f)[k] == Cancelled(a[k], f);
  }

  /**
   * Processing activations only ever activates specs whose handle is a
   * candidate; every spec keeps its handle and ability.
   */
  lemma {:induction false} ActivateAllOnlyCandidates(specs: seq<AbilitySpec>, hs: seq<Handle>, superOk: Handle -> bool)
    ensures |ActivateAll(specs, hs, superOk)| == |specs|
    ensures forall k :: 0 <= k < |specs| ==> (ActivateAll(specs, hs, superOk)[k].handle == specs[k].handle
      && ActivateAll(specs, hs, superOk)[k].ability == specs[k].ability)
    ensures forall k :: 0 <= k < |specs| && !specs[k].active && specs[k].handle !in hs ==>
      !ActivateAll(specs, hs, superOk)[k].active
    decreases |hs|
  {
    if hs != [] {
      var next := match FindSpec(specs, hs[0])
        case Some(k) => TryActivated(specs, k, superOk(hs[0]))
        case None => specs;
      match FindSpec(specs, hs[0]) {
        case Some(i) => TryActivatedOnly(specs, i, superOk(hs[0]));
        case None =>
      }
      ActivateAllOnlyCandidates(next, hs[1..], superOk);
      forall k | 0 <= k < |specs| && !specs[k].active && specs[k].handle !in hs
        ensures !ActivateAll(specs, hs, superOk)[k].active
      {
        assert forall x :: x in hs[1..] ==> x in hs;
      }
    }
  }

  /** The specs after processing: mark the pressed, activate the candidates, clear the released. */
  function ProcessedSpecs(specs: seq<AbilitySpec>, held: seq<Handle>, pressed: seq<Handle>, released: seq<Handle>,
                          superOk: Handle -> bool): seq<AbilitySpec>
  {
    var activated := ActivateAll(MarkInput(specs, pressed, true), ActivationCandidates(specs, held, pressed), superOk);
    MarkInput(activated, released, false)
  }

  /** The events of processing: press events for the pressed, then release events after activation. */
  function ProcessedEvents(specs: seq<AbilitySpec>, held: seq<Handle>, pressed: seq<Handle>, released: seq<Handle>,
                           superOk: Handle -> bool): seq<EngineCall>
  {
    var activated := ActivateAll(MarkInput(specs, pressed, true), ActivationCandidates(specs, held, pressed), superOk);
    InputEvents(specs, pressed, true) + InputEvents(activated, released, false)
  }

  /** The result of processing in terms of the specs once the candidates are activated. */
  lemma ProcessedSteps(specs: seq<AbilitySpec>, held: seq<Handle>, pressed: seq<Handle>, released: seq<Handle>,
                       superOk: Handle -> bool, activated: seq<AbilitySpec>)
    requires activated == ActivateAll(MarkInput(specs, pressed, true),
      Select(specs, held, WhileInputActive) + Select(specs, pressed, OnInputTriggered), superOk)
    ensures ProcessedSpecs(specs, held, pressed, released, superOk) == MarkInput(activated, released, false)
    ensures ProcessedEvents(specs, held, pressed, released, superOk)
      == InputEvents(specs, pressed, true) + InputEvents(activated, released, false)
  {
  }

  /** Every spec with its input-pressed flag cleared. */
  function AllReleased(specs: seq<AbilitySpec>): seq<AbilitySpec> {
    seq(|specs|, k requires 0 <= k < |specs| => specs[k].(inputPressed := false))
  }

  /** A release event for every active spec, in list order. */
  function ReleaseAllEvents(specs: seq<AbilitySpec>): seq<EngineCall>
    decreases |specs|
  {
    if specs == [] then []
    else
      var s := specs[|specs| - 1];
      ReleaseAllEvents(specs[..|specs| - 1]) + (if s.active then [InputReleasedEvent(s.handle)] else [])
  }

  /** Clearing sends a release event to exactly the active specs, and no other event. */
  lemma {:induction false} ReleaseAllEventsSpec(specs: seq<AbilitySpec>)
    ensures forall e :: (e in ReleaseAllEvents(specs)
      <==> exists k :: 0 <= k < |specs| && specs[k].active && e == InputReleasedEvent(specs[k].handle))
    decreases |specs|
  {
    if specs != [] {
      var n := |specs|;
      var p := specs[..n - 1];
      var last := if specs[n - 1].active then [InputReleasedEvent(specs[n - 1].handle)] else [];
      assert ReleaseAllEvents(specs) == ReleaseAllEvents(p) + last;
      ReleaseAllEventsSpec(p);
      forall e ensures e in ReleaseAllEvents(specs)
        <==> exists k :: 0 <= k < n && specs[k].active && e == InputReleasedEvent(specs[k].handle)
      {
        if e in ReleaseAllEvents(p) {
          var k :| 0 <= k < n - 1 && p[k].active && e == InputReleasedEvent(p[k].handle);
          assert specs[k] == p[k];
        }
        if exists k :: 0 <= k < n && specs[k].active && e == InputReleasedEvent(specs[k].handle) {
          var k :| 0 <= k < n && specs[k].active && e == InputReleasedEvent(specs[k].handle);
          if k < n - 1 {
            assert p[k] == specs[k];
          }
        }
      }
    }
  }

  // ---------------------------------------------------------------------------
  // The steps of processing, on the ability system component
  // ---------------------------------------------------------------------------

  /** The held handles whose spec is inactive with the while-input-active policy. */
  method CollectHeld(specs: seq<AbilitySpec>, held: seq<Handle>) returns (selected: seq<Handle>)
    ensures selected == Select(specs, held, WhileInputActive)
  {
    selected := [];
    var j := 0;
    while j < |held|
      invariant 0 <= j <= |held|
      invariant selected == Select(specs, held[..j], WhileInputActive)
    {
      var h := held[j];
      assert held[..j + 1][..j] == held[..j] && held[..j + 1][j] == h;
      var f := FindSpec(specs, h);
      if f.Some? {
        var s := specs[f.value];
        if !s.active && s.ability.isCrim && s.ability.policy == WhileInputActive {
          selected := selected + [h];
        }
      }
      j := j + 1;
    }
    assert held[..j] == held;
  }

  /**
   * The pressed handles: each spec found is marked pressed; a running one
   * gets a press event, an inactive on-input-triggered one is selected.
   */
  method ProcessPressed(a: AbilitySystemComponent, pressed: seq<Handle>) returns (selected: seq<Handle>)
    requires a.Valid()
    modifies a`specs, a`engineLog
    ensures a.Valid()
    ensures a.specs == MarkInput(old(a.specs), pressed, true)
    ensures a.engineLog == old(a.engineLog) + InputEvents(old(a.specs), pressed, true)
    ensures selected == Select(old(a.specs), pressed, OnInputTriggered)
  {
    ghost var s0 := a.specs;
    selected := [];
    var j := 0;
    while j < |pressed|
      invariant 0 <= j <= |pressed|
      invariant a.specs == MarkInput(s0, pressed[..j], true)
      invariant a.engineLog == old(a.engineLog) + InputEvents(s0, pressed[..j], true)
      invariant selected == Select(s0, pressed[..j], OnInputTriggered)
    {
      var h := pressed[j];
      assert pressed[..j + 1][..j] == pressed[..j] && pressed[..j + 1][j] == h;
      MarkInputShape(s0, pressed[..j], true);
      FindSpecSameHandles(a.specs, s0, h, 0);
      var f := FindSpec(a.specs, h);
      if f.Some? {
        var k := f.value;
        var s := a.specs[k];
        a.specs := a.specs[k := s.(inputPressed := true)];
        if s.active {
          a.Record(InputPressedEvent(h));
        } else if s.ability.isCrim && s.ability.policy == OnInputTriggered {
          selected := selected + [h];
        }
      }
      j := j + 1;
    }
    assert pressed[..j] == pressed;
    MarkInputShape(s0, pressed, true);
    SameButInputInvariant(a.specs, s0);
  }

  /** TryActivateAbility on the spec of every candidate handle, in order. */
  method ActivateCandidates(a: AbilitySystemComponent, hs: seq<Handle>, superOk: Handle -> bool)
    requires a.Valid()
    modifies a`specs, a.counts
    ensures a.Valid()
    ensures a.specs == ActivateAll(old(a.specs), hs, superOk)
  {
    var j := 0;
    while j < |hs|
      invariant 0 <= j <= |hs| && a.Valid()
      invariant ActivateAll(a.specs, hs[j..], superOk) == ActivateAll(old(a.specs), hs, superOk)
    {
      var h := hs[j];
      assert hs[j..][0] == h && hs[j..][1..] == hs[j + 1..];
      var f := FindSpec(a.specs, h);
      if f.Some? {
        ghost var before := a.specs;
        a.BlockedIffBlockingRunning(before[f.value].group);
        CountRunningPositive(before, ExclusiveBlocking);
        var activated := GameplayAbility.TryActivateAbility(a, f.value, superOk(h));
        assert a.specs == TryActivated(before, f.value, superOk(h));
      }
      j := j + 1;
    }
  }

  /** The released handles: each spec found is unmarked, and a running one gets a release event. */
  method ProcessReleased(a: AbilitySystemComponent, released: seq<Handle>)
    requires a.Valid()
    modifies a`specs, a`engineLog
    ensures a.Valid()
    ensures a.specs == MarkInput(old(a.specs), released, false)
    ensures a.engineLog == old(a.engineLog) + InputEvents(old(a.specs), released, false)
  {
    ghost var s0 := a.specs;
    var j := 0;
    while j < |released|
      invariant 0 <= j <= |released|
      invariant a.specs == MarkInput(s0, released[..j], false)
      invariant a.engineLog == old(a.engineLog) + InputEvents(s0, released[..j], false)
    {
      var h := released[j];
      assert released[..j + 1][..j] == released[..j] && released[..j + 1][j] == h;
      MarkInputShape(s0, released[..j], false);
      FindSpecSameHandles(a.specs, s0, h, 0);
      var f := FindSpec(a.specs, h);
      if f.Some? {
        var k := f.value;
        var s := a.specs[k];
        a.specs := a.specs[k := s.(inputPressed := false)];
        if s.active {
          a.Record(InputReleasedEvent(h));
        }
      }
      j := j + 1;
    }
    assert released[..j] == released;
    MarkInputShape(s0, released, false);
    SameButInputInvariant(a.specs, s0);
  }

  /** The unblocked branch of ProcessAbilityInput, on the component's lists. */
  method ProcessLists(a: AbilitySystemComponent, held: seq<Handle>, pressed: seq<Handle>, released: seq<Handle>,
                      superOk: Handle -> bool)
    requires a.Valid()
    modifies a`specs, a`engineLog, a.counts
    ensures a.Valid()
    ensures a.specs == ProcessedSpecs(old(a.specs), held, pressed, released, superOk)
    ensures a.engineLog == old(a.engineLog) + ProcessedEvents(old(a.specs), held, pressed, released, superOk)
  {
    ghost var s0 := a.specs;
    var fromHeld := CollectHeld(a.specs, held);
    var fromPressed := ProcessPressed(a, pressed);
    ActivateCandidates(a, fromHeld + fromPressed, superOk);
    ghost var s2 := a.specs;
    ProcessReleased(a, released);
    ProcessedSteps(s0, held, pressed, released, superOk, s2);
  }

  /** The loop of ClearAbilityInput over the specs: unmark each, sending a release event to each running one. */
  method ReleaseAll(a: AbilitySystemComponent)
    requires a.Valid()
    modifies a`specs, a`engineLog
    ensures a.Valid()
    ensures a.specs == AllReleased(old(a.specs))
    ensures a.engineLog == old(a.engineLog) + ReleaseAllEvents(old(a.specs))
  {
    ghost var s0 := a.specs;
    var k := 0;
    while k < |a.specs|
      invariant 0 <= k <= |a.specs| == |s0|
      invariant forall j :: 0 <= j < k ==> a.specs[j] == s0[j].(inputPressed := false)
      invariant forall j :: k <= j < |s0| ==> a.specs[j] == s0[j]
      invariant a.engineLog == old(a.engineLog) + ReleaseAllEvents(s0[..k])
    {
      var s := a.specs[k];
      assert s0[..k + 1][..k] == s0[..k];
      a.specs := a.specs[k := s.(inputPressed := false)];
      if s.active {
        a.Record(InputReleasedEvent(s.handle));
      }
      k := k + 1;
    }
    assert s0[..k] == s0;
    assert a.specs == AllReleased(s0);
    SameButInputInvariant(a.specs, s0);
  }

  // ---------------------------------------------------------------------------
  // The component
  // ---------------------------------------------------------------------------

  /** The counter array of a possibly-null component, as a frame. */
  function CountsOf(asc: AbilitySystemComponent?): set<object> {
    if asc == null then {} else {asc.counts}
  }

  /** UAbilityInputManagerComponent. */
  class AbilityInputManagerComponent {
    var asc: AbilitySystemComponent?
    const container: AbilityInputContainer
    /** DefaultAbilityInputContainer's items. */
    const defaults: seq<AbilityInputItem>
    /** bCachedIsNetSimulated. */
    var netSimulated: bool
    var pressed: seq<Handle>
    var released: seq<Handle>
    var held: seq<Handle>

    /** The component once registered: an empty container owned by it, and empty lists. */
    constructor (defaultItems: seq<AbilityInputItem>, isNetSimulating: bool)
      ensures asc == null && defaults == defaultItems && netSimulated == isNetSimulating
      ensures fresh(container) && container.items == [] && container.hasOwner
      ensures pressed == [] && released == [] && held == []
    {
      asc := null;
      defaults := defaultItems;
      netSimulated := isNetSimulating;
      pressed := [];
      released := [];
      held := [];
      container := new AbilityInputContainer([]);
      new;
      container.RegisterWithOwner();
    }

    method InitializeAbilitySystemComponent(a: AbilitySystemComponent?)
      modifies this`asc
      ensures asc == a
    {
      asc := a;
    }

    /** HasAuthority: the component is not net-simulated. */
    predicate HasAuthority()
      reads this
    {
      !netSimulated
    }

    /**
     * InputTagPressed: with a component and a valid tag, the handle of every
     * spec mapped to the tag is added once to the pressed and held lists.
     */
    method InputTagPressed(t: Tag)
      modifies this`pressed, this`held
      ensures asc != null && IsValid(t) ==>
        && pressed == AddUniqueAll(old(pressed), MappedHandles(asc.specs, container.items, t))
        && held == AddUniqueAll(old(held), MappedHandles(asc.specs, container.items, t))
      ensures asc == null || !IsValid(t) ==> pressed == old(pressed) && held == old(held)
    {
      if asc == null || !IsValid(t) {
        return;
      }
      pressed, held := PressLists(pressed, held, asc.specs, container.items, t);
    }

    /**
     * InputTagReleased: with a component and a valid tag, the handle of every
     * spec mapped to the tag is added once to the released list and leaves
     * the held list.
     */
    method InputTagReleased(t: Tag)
      modifies this`released, this`held
      ensures asc != null && IsValid(t) ==>
        && released == AddUniqueAll(old(released), MappedHandles(asc.specs, container.items, t))
        && held == RemoveEach(old(held), MappedHandles(asc.specs, container.items, t))
      ensures asc == null || !IsValid(t) ==> released == old(released) && held == old(held)
    {
      if asc == null || !IsValid(t) {
        return;
      }
      released, held := ReleaseLists(released, held, asc.specs, container.items, t);
    }

    /**
     * ProcessAbilityInput: without a component, or while input is blocked,
     * everything is cleared. Otherwise the candidates are collected, the
     * pressed specs are marked (running ones get a press event), the
     * candidates are activated together, the released specs are unmarked
     * (running ones get a release event), and the pressed and released lists
     * are emptied; the held list stays. superOk stands for the engine's own
     * activation checks of each handle.
     */
    method ProcessAbilityInput(superOk: Handle -> bool)
      requires asc != null ==> asc.Valid()
      modifies this`pressed, this`released, this`held, {asc}`specs, {asc}`engineLog, CountsOf(asc)
      ensures asc != null ==> asc.Valid()
      ensures asc == null || old(asc.HasMatchingGameplayTag(InputBlocked)) ==>
        && pressed == [] && released == [] && held == []
        && (asc != null ==> (asc.specs == AllReleased(old(asc.specs))
            && asc.engineLog == old(asc.engineLog) + ReleaseAllEvents(old(asc.specs))))
      ensures asc != null && !old(asc.HasMatchingGameplayTag(InputBlocked)) ==>
        && pressed == [] && released == [] && held == old(held)
        && asc.specs == ProcessedSpecs(old(asc.specs), old(held), old(pressed), old(released), superOk)
        && asc.engineLog == old(asc.engineLog) + ProcessedEvents(old(asc.specs), old(held), old(pressed), old(released), superOk)
    {
      if asc == null || asc.HasMatchingGameplayTag(InputBlocked) {
        ClearAbilityInput();
        return;
      }
      ProcessLists(asc, held, pressed, released, superOk);
      pressed := [];
      released := [];
    }

    /**
     * ClearAbilityInput: the three lists are emptied and every spec is
     * unmarked, a running one getting a release event.
     */
    method ClearAbilityInput()
      requires asc != null ==> asc.Valid()
      modifies this`pressed, this`released, this`held, {asc}`specs, {asc}`engineLog
      ensures pressed == [] && released == [] && held == []
      ensures asc != null ==> (asc.Valid()
        && asc.specs == AllReleased(old(asc.specs))
        && asc.engineLog == old(asc.engineLog) + ReleaseAllEvents(old(asc.specs)))
    {
      pressed := [];
      released := [];
      held := [];
      if asc != null {
        ReleaseAll(asc);
      }
    }

    // ---- Container edits, on authority only ------------------------------------

    method AddAbilityInputItem(item: AbilityInputItem, replace: bool)
      modifies container`items
      ensures container.items == if HasAuthority() && container.hasOwner
        then WithValidItemAdded(old(container.items), item, replace) else old(container.items)
    {
      if HasAuthority() {
        container.AddAbilityInputItem(item, replace);
      }
    }

    method UpdateAbilityInputItem(tags: TagContainer, a: AbilityRef, replace: bool)
      modifies container`items
      ensures container.items == if HasAuthority() && container.hasOwner && |tags| > 0 && a != NullAbility
        then Updated(old(container.items), tags, a, replace) else old(container.items)
    {
      if HasAuthority() {
        container.UpdateAbilityInputItem(tags, a, replace);
      }
    }

    method RemoveAbilityInputItem(item: AbilityInputItem)
      modifies container`items
      ensures container.items == if HasAuthority() && container.hasOwner && IsValid(item.inputTag)
        then WithAbilitiesRemoved(old(container.items), item.inputTag, item.abilities) else old(container.items)
    {
      if HasAuthority() {
        container.RemoveAbilityInputItem(item);
      }
    }

    method RemoveAbilityInputItemByTag(t: Tag)
      modifies container`items
      ensures container.items == if HasAuthority() && container.hasOwner && IsValid(t)
        then WithoutTag(old(container.items), t) else old(container.items)
    {
      if HasAuthority() {
        container.RemoveAbilityInputItemByTag(t);
      }
    }

    method ResetAbilityInputContainer()
      modifies container`items
      ensures container.items == if HasAuthority() && container.hasOwner then [] else old(container.items)
    {
      if HasAuthority() {
        container.Reset();
      }
    }

    /**
     * ResetAbilityInputContainerToDefaults: on authority with an owner, the
     * container is emptied and the default items are added in order in
     * append mode; it is then well formed, and equal to the defaults when
     * they are well formed themselves.
     */
    method ResetAbilityInputContainerToDefaults()
      modifies container`items
      ensures container.items == if HasAuthority() && container.hasOwner
        then AddItems([], defaults, false) else old(container.items)
      ensures HasAuthority() && container.hasOwner ==> WellFormed(container.items)
      ensures HasAuthority() && container.hasOwner && WellFormed(defaults) ==> container.items == defaults
    {
      if HasAuthority() {
        container.Reset();
        if !container.hasOwner {
          return;
        }
        var k := 0;
        while k < |defaults|
          invariant 0 <= k <= |defaults|
          invariant AddItems(container.items, defaults[k..], false) == AddItems([], defaults, false)
        {
          AddItemsUnfold(container.items, defaults, k, false);
          container.AddAbilityInputItem(defaults[k], false);
          k := k + 1;
        }
        assert defaults[k..] == [];
        AddItemsWellFormed([], defaults, false);
        if WellFormed(defaults) {
          AddItemsReproduces(defaults);
        }
      }
    }
  }
}
