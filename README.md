# CrimAbilitySystem in Dafny

A verified model of the policy layer that the CrimAbilitySystem Unreal Engine
plugin adds to the engine's Gameplay Ability System. It covers:

- **Activation groups.** The ability system component keeps three counters of
  running abilities: Independent, Exclusive_Replaceable and
  Exclusive_Blocking. A blocking ability blocks the exclusive groups. An
  exclusive activation cancels the other replaceable abilities. An ability's
  group can change only under a guard that keeps replaceable abilities
  cancelable. These rules sit next to the component's spec lookups, the moving
  of dynamic tags, the tag-requirement check and the cost gating of Crim
  gameplay abilities.
- **Death and revive.** The hit points component runs a four-state machine
  with three death tags that are mutually exclusive. Its replication handler
  accepts only some transitions. The death and revive abilities move the
  machine forward only from specific states.
- **Input to ability mapping.** An ordered list of input items maps each
  input tag to a list of abilities without duplicates. A per-frame processor
  keeps the pressed, released and held handle lists and activates abilities
  according to their activation policy.
- **Game phases.** A registry of active phases and their observers. Starting a
  phase cancels every phase that is not an ancestor of the new one; a phase
  whose ability refuses cancellation stays active.
- **Bookkeeping.** The global ability system applies abilities and effects to
  every registered component. An ability set grants its entries and records
  the handles needed to take them back.
- **Attribute sets.** Hit points and tactical points are clamped. Damage and
  healing arrive as meta attributes and are dispatched by sign. Running out of
  hit points is detected on its edges.

## How the model is built

One Dafny module models one source file. Shared pieces live in two more
modules. `Common` holds an optional value and the engine array operations
`AddUnique` and `Remove`. `GameplayTags` holds tags as dotted paths and the
container queries.

Engine objects whose fields the plugin updates in place are classes with
those fields: the ability system component, the input manager and its
container, the phase subsystem, the global ability system, the granted-handles
record, the hit points component and the two attribute sets. Each method
states its new state in terms of a specification function on values. The
properties are proved about those functions, as lemmas or as invariants the
methods preserve.

Engine services are modelled as follows:

- Granting an ability, applying an effect and adding an attribute set append
  an `EngineCall` to the component's call log and draw a fresh handle from a
  counter.
- Delegate broadcasts and gameplay events are appended to event logs.
- Network authority is a boolean.
- Ending or cancelling an ability happens synchronously. The ability's active
  flag is cleared and its group counter is decremented.
- Attribute values are `real`.

## Model

| member | source | states |
|---|---|---|
| Common.AddUnique | Source/CrimAbilitySystem/Private/CrimGlobalAbilitySystem.cpp:138 | TArray::AddUnique: the result holds exactly the old elements and x. The old list is kept as a prefix, at most one element is added, nothing changes when x is present, and a duplicate-free list stays duplicate-free |
| Common.AddUniqueAllSpec | Source/CrimAbilitySystem/Private/Input/AbilityInputTypes.cpp:12-15 | AddUnique of a whole list, one element at a time, keeps the old list in front, holds exactly the old and the new elements and adds no duplicate |
| Common.AddUniqueAllPresent | Source/CrimAbilitySystem/Private/Input/AbilityInputTypes.cpp:60-63 | adding only elements that are already present leaves the list unchanged |
| Common.AddUniqueAllFresh | Source/CrimAbilitySystem/Private/Input/AbilityInputTypes.cpp:72-75 | adding a duplicate-free list of absent elements appends it unchanged |
| Common.AddUniqueAllSnoc | Source/CrimAbilitySystem/Private/Input/AbilityInputManagerComponent.cpp:43-52 | adding one more element at the end of the list to add is one more AddUnique on the result |
| Common.Pick | Source/CrimAbilitySystem/Private/CrimGlobalAbilitySystem.cpp:127-135 | the next key of an unordered map iteration is some key still to visit |
| Common.RemoveAll | Source/CrimAbilitySystem/Private/CrimGlobalAbilitySystem.cpp:153 | TArray::Remove: the result holds exactly the elements other than x. It is no longer than the input, is unchanged when x is absent and keeps a duplicate-free list duplicate-free |
| Common.RemoveEach | Source/CrimAbilitySystem/Private/Input/AbilityInputTypes.cpp:111-114 | removing every element of a list leaves exactly the elements not in it and keeps a duplicate-free list duplicate-free |
| Common.RemoveEachSnoc | Source/CrimAbilitySystem/Private/Input/AbilityInputManagerComponent.cpp:62-71 | removing one more element at the end is one more Remove on the result |
| GameplayTags.AddTag | Source/CrimAbilitySystem/Private/CrimAbilitySystemComponent.cpp:367 | a valid tag is held exactly afterwards; the container gains that tag only |
| GameplayTags.RemoveTag | Source/CrimAbilitySystem/Private/CrimAbilitySystemComponent.cpp:389 | the tag itself is no longer held exactly and every other tag, its children included, stays |
| GameplayTags.MatchesTagPreorder | Source/CrimAbilitySystem/Private/Phases/CrimGamePhaseSubsystem.cpp:147 | MatchesTag is reflexive on valid tags and transitive |
| GameplayTags.AncestorsComparable | Source/CrimAbilitySystem/Private/Phases/CrimGamePhaseSubsystem.cpp:142-155 | two ancestors of the same tag are on one chain: one matches the other |
| GameplayTags.ExactImpliesHasTag | Source/CrimAbilitySystem/Private/CrimAbilitySystemComponent.cpp:353-363 | a tag held exactly is also found by the parent-aware HasTag |
| GameplayTags.HasTagSingleton | Source/CrimAbilitySystem/Private/Input/AbilityInputTypes.cpp:93 | HasTag on a one-tag container holds iff the contained tag matches |
| GameplayTags.DeathTagsDistinct | Source/CrimAbilitySystem/Private/AbilityGameplayTags.cpp:24-27 | Dead, Dying and Reviving all descend from Gameplay.State.Death, and none of the three matches another in either direction |
| AbilitySystem.Slot | Source/CrimAbilitySystem/Public/CrimAbilitySystemComponent.h:132 | every group indexes one of the three counter slots |
| AbilitySystem.CountRunning | Source/CrimAbilitySystem/Private/CrimAbilitySystemComponent.cpp:437-445 | the number of running abilities in a group is at most the number of specs |
| AbilitySystem.CancelAll | Source/CrimAbilitySystem/Private/CrimAbilitySystemComponent.cpp:94-144 | cancelling keeps the spec list the same length |
| AbilitySystem.CountRunningUpdate | Source/CrimAbilitySystem/Private/CrimAbilitySystemComponent.cpp:437-469 | replacing one spec changes each group's running count by exactly what that spec contributes before and after |
| AbilitySystem.CancelAllCount | Source/CrimAbilitySystem/Private/CrimAbilitySystemComponent.cpp:94-144 | after cancelling, each group's running count drops by exactly the number of its specs that were cancelled |
| AbilitySystem.CountCancelledSparing | Source/CrimAbilitySystem/Private/CrimAbilitySystemComponent.cpp:211-218 | a spared spec is not among the cancelled, so the cancelled specs of a group plus the spared spec are at most that group's running specs |
| AbilitySystem.CountCancelledSparingExact | Source/CrimAbilitySystem/Private/CrimAbilitySystemComponent.cpp:211-218 | when every other running spec of the group is cancelled, the cancelled specs plus the spared one are exactly the running ones |
| AbilitySystem.CountCancelledAtMost | Source/CrimAbilitySystem/Private/CrimAbilitySystemComponent.cpp:97-102 | only running specs are cancelled |
| AbilitySystem.CountCancelledAll | Source/CrimAbilitySystem/Private/CrimAbilitySystemComponent.cpp:94-144 | when every running spec of a group is selected, the cancelled count equals the running count |
| AbilitySystem.CountCancelledPrefix | Source/CrimAbilitySystem/Private/CrimAbilitySystemComponent.cpp:97 | the specs a prefix of the list cancels are a subset of those the whole list cancels |
| AbilitySystem.CountCancelledStep | Source/CrimAbilitySystem/Private/CrimAbilitySystemComponent.cpp:97-143 | one more spec visited adds one to its group's cancelled count exactly when it is cancelled |
| AbilitySystem.SparingAllGroups | Source/CrimAbilitySystem/Private/CrimAbilitySystemComponent.cpp:211-218 | the sparing bound holds in every group at once |
| AbilitySystem.CancelAllCountAllGroups | Source/CrimAbilitySystem/Private/CrimAbilitySystemComponent.cpp:94-144 | the cancellation count identity holds in every group at once |
| AbilitySystem.ExclusiveCancelLeavesOnlySelf | Source/CrimAbilitySystem/Private/CrimAbilitySystemComponent.cpp:186-189 | cancelling the replaceable abilities other than the new one leaves it as the only running replaceable ability, if it is one |
| AbilitySystem.ExclusiveActivationCounts | Source/CrimAbilitySystem/Private/CrimAbilitySystemComponent.cpp:174-200 | the counter arithmetic of an exclusive activation yields counters that agree with the cancelled spec list. When no blocking ability ran and every running replaceable one was cancelable, exactly one exclusive ability runs, which is the check at lines 196-200 |
| AbilitySystem.CountRunningPositive | Source/CrimAbilitySystem/Private/CrimAbilitySystemComponent.cpp:160 | a group's running count is positive iff some spec runs in that group |
| AbilitySystem.CountRunningDisjoint | Source/CrimAbilitySystem/Private/CrimAbilitySystemComponent.cpp:196 | a spec runs in at most one group, so two groups together count no more than all the specs |
| AbilitySystem.CancelAllPreserves | Source/CrimAbilitySystem/Private/CrimAbilitySystemComponent.cpp:94-144 | cancelling changes a spec only by clearing its active flag. Unique handles, cancelable non-instanced abilities and cancelable running replaceable abilities all survive it |
| AbilitySystem.FirstMatchFrom | Source/CrimAbilitySystem/Private/CrimAbilitySystemComponent.cpp:248-254 | the index found is the first match at or after the start; no result means no match |
| AbilitySystem.DynamicTagMoved | Source/CrimAbilitySystem/Private/CrimAbilitySystemComponent.cpp:359-368 | moving a tag keeps the spec list the same length |
| AbilitySystem.DynamicTagMovedOnlyCarrier | Source/CrimAbilitySystem/Private/CrimAbilitySystemComponent.cpp:359-368 | after the move the target is the only spec holding the tag itself, and every spec keeps all its other tags |
| AbilitySystem.AbilitySystemComponent.constructor | Source/CrimAbilitySystem/Public/CrimAbilitySystemComponent.h:132 | a new component has no specs, zero counters, which satisfies the invariant, and an empty call log |
| AbilitySystem.AbilitySystemComponent.SetLooseGameplayTagCount | Source/CrimAbilitySystem/Private/Attribute/HitPointsComponent.cpp:121-123 | the count of that one loose tag is set and every other count is kept |
| AbilitySystem.AbilitySystemComponent.BlockedIffBlockingRunning | Source/CrimAbilitySystem/Private/CrimAbilitySystemComponent.cpp:146-169 | under the invariant, Independent is never blocked and an exclusive group is blocked iff a blocking ability is running |
| AbilitySystem.AbilitySystemComponent.RemoveAbilityFromActivationGroup | Source/CrimAbilitySystem/Private/CrimAbilitySystemComponent.cpp:203-209 | requires the group's counter to be positive, decrements that counter by one and leaves the others |
| AbilitySystem.AbilitySystemComponent.CancelAbilitiesByFunc | Source/CrimAbilitySystem/Private/CrimAbilitySystemComponent.cpp:94-144 | only active Crim specs are touched. An instanced one is ended when the predicate holds and it can be canceled, a non-instanced one whenever the predicate holds. Each group's counter drops by the number of its specs ended |
| AbilitySystem.AbilitySystemComponent.CancelIfSelected | Source/CrimAbilitySystem/Private/CrimAbilitySystemComponent.cpp:99-142 | one spec of the loop is ended exactly when the predicate selects it and it may be canceled, and its group's counter drops by one |
| AbilitySystem.AbilitySystemComponent.CancelActivationGroupAbilities | Source/CrimAbilitySystem/Private/CrimAbilitySystemComponent.cpp:211-219 | cancels the cancelable abilities of the group other than the ignored one, with the counters adjusted |
| AbilitySystem.AbilitySystemComponent.AddAbilityToActivationGroup | Source/CrimAbilitySystem/Private/CrimAbilitySystemComponent.cpp:171-201 | requires the counter to be below INT32_MAX and increments it. Independent cancels nothing; either exclusive group cancels every other cancelable replaceable ability but never the one added. The counters then match the running abilities, and at most one exclusive ability runs |
| AbilitySystem.AbilitySystemComponent.NotifyAbilityActivated | Source/CrimAbilitySystem/Private/CrimAbilitySystemComponent.cpp:437-445 | a non-Crim ability changes nothing; a Crim one is added to its current group, after which every counter equals the number of running abilities in its group |
| AbilitySystem.AbilitySystemComponent.NotifyAbilityEnded | Source/CrimAbilitySystem/Private/CrimAbilitySystemComponent.cpp:461-469 | a Crim ability's current group counter drops by one; nothing else changes |
| AbilitySystem.AbilitySystemComponent.GetAbilitySpec | Source/CrimAbilitySystem/Private/CrimAbilitySystemComponent.cpp:243-322 | an invalid tag or null class finds nothing; otherwise the result is the first matching spec in list order, or nothing when none matches |
| AbilitySystem.AbilitySystemComponent.GetAllAbilitySpecs | Source/CrimAbilitySystem/Private/CrimAbilitySystemComponent.cpp:259-339 | the output, started empty, lists exactly the matching specs in increasing list order, and nothing for an invalid tag or null class |
| AbilitySystem.AbilitySystemComponent.AddDynamicTagToAbilitySpec | Source/CrimAbilitySystem/Private/CrimAbilitySystemComponent.cpp:341-369 | does nothing without authority, with a null spec or when the spec already matches the tag. Otherwise the tag is stripped from every spec that matches it and added to the target |
| AbilitySystem.AbilitySystemComponent.RemoveDynamicTagFromAbilitySpec | Source/CrimAbilitySystem/Private/CrimAbilitySystemComponent.cpp:371-391 | does nothing without authority, with a null spec or when the tag does not match. Otherwise only the target loses the tag itself, and the target never holds the tag afterwards |
| AbilitySystem.AbilitySystemComponent.GiveAbility | Source/CrimAbilitySystem/Private/AbilitySet.cpp:141 | the engine grant returns a fresh valid handle and logs the spec under it |
| AbilitySystem.AbilitySystemComponent.ApplyGameplayEffectToSelf | Source/CrimAbilitySystem/Private/AbilitySet.cpp:160 | the handle is valid iff the effect is not instant; the application is logged |
| AbilitySystem.AbilitySystemComponent.AddAttributeSetSubobject | Source/CrimAbilitySystem/Private/AbilitySet.cpp:115-116 | a fresh set object is added and logged |
| AbilitySystem.AbilitySystemComponent.Record | Source/CrimAbilitySystem/Private/AbilitySet.cpp:64 | the call is appended to the log |
| AbilityInputTypes.AppendUnique | Source/CrimAbilitySystem/Private/Input/AbilityInputTypes.cpp:60-63 | the loop of AddUnique calls computes AddUniqueAll of the list and the new abilities |
| AbilityInputTypes.RemoveListed | Source/CrimAbilitySystem/Private/Input/AbilityInputTypes.cpp:111-114 | the loop of Remove calls computes RemoveEach |
| AbilityInputTypes.NewInputItem | Source/CrimAbilitySystem/Private/Input/AbilityInputTypes.cpp:8-16 | the item holds the tag and the abilities without duplicates in first-occurrence order, exactly the given ones |
| AbilityInputTypes.DeduplicatedFixesDuplicateFree | Source/CrimAbilitySystem/Private/Input/AbilityInputTypes.cpp:12-15 | a duplicate-free ability list passes through the constructor unchanged |
| AbilityInputTypes.FindItemFrom | Source/CrimAbilitySystem/Private/Input/AbilityInputTypes.cpp:51-53 | the index found is the first item with the tag; no result means no item has it |
| AbilityInputTypes.GetInputAbilityItem | Source/CrimAbilitySystem/Private/Input/AbilityInputTypes.cpp:153-163 | the first item with the tag, or the default item when there is none |
| AbilityInputTypes.IsAbilityMappedToInput | Source/CrimAbilitySystem/Private/Input/AbilityInputTypes.cpp:165-175 | holds iff the ability is listed in the first item with the tag; later items are not consulted |
| AbilityInputTypes.MappedInWellFormed | Source/CrimAbilitySystem/Private/Input/AbilityInputTypes.cpp:165-175 | with unique tags, the mapping holds iff some item with the tag lists the ability |
| AbilityInputTypes.WithItemAddedSpec | Source/CrimAbilitySystem/Private/Input/AbilityInputTypes.cpp:47-79 | for a valid tag the count grows by one exactly for a new tag, whose item is appended last. The tag's item lists the new abilities after the old ones in append mode, or alone in replace mode. Other tags read as before and the list stays well formed |
| AbilityInputTypes.WithItemAddedOthers | Source/CrimAbilitySystem/Private/Input/AbilityInputTypes.cpp:51-77 | adding an item leaves the lookup of every other tag unchanged |
| AbilityInputTypes.WithItemAddedWellFormed | Source/CrimAbilitySystem/Private/Input/AbilityInputTypes.cpp:51-77 | tags stay unique and valid and ability lists stay duplicate-free |
| AbilityInputTypes.FindItemSameTags | Source/CrimAbilitySystem/Private/Input/AbilityInputTypes.cpp:51-53 | the lookup depends only on the item tags, not on their ability lists |
| AbilityInputTypes.AddItemsUnfold | Source/CrimAbilitySystem/Private/Input/AbilityInputManagerComponent.cpp:218-221 | adding the items from k on is adding item k, then the rest |
| AbilityInputTypes.AddItemsWellFormed | Source/CrimAbilitySystem/Private/Input/AbilityInputManagerComponent.cpp:218-221 | adding a sequence of items keeps the list well formed |
| AbilityInputTypes.AddFreshItems | Source/CrimAbilitySystem/Private/Input/AbilityInputTypes.cpp:70-77 | in append mode, well-formed items with new tags are appended unchanged |
| AbilityInputTypes.AddItemsReproduces | Source/CrimAbilitySystem/Private/Input/AbilityInputManagerComponent.cpp:217-221 | adding a well-formed list to an empty container in append mode reproduces it |
| AbilityInputTypes.SingleAbilityItems | Source/CrimAbilitySystem/Private/Input/AbilityInputTypes.cpp:86-89 | one item per input tag, each listing only the ability |
| AbilityInputTypes.StripUnmatched | Source/CrimAbilitySystem/Private/Input/AbilityInputTypes.cpp:91-99 | same items and tags. An item whose tag the input tags match, parent-aware, is untouched; every other item loses the ability |
| AbilityInputTypes.WithItemAddedKeepsMapping | Source/CrimAbilitySystem/Private/Input/AbilityInputTypes.cpp:51-77 | adding an item that lists an ability maps it under the item's tag and keeps its other mappings |
| AbilityInputTypes.AddSingleItemsMaps | Source/CrimAbilitySystem/Private/Input/AbilityInputTypes.cpp:86-89 | after the first loop of an update the ability is mapped under every valid input tag and keeps its earlier mappings |
| AbilityInputTypes.StripKeepsMatched | Source/CrimAbilitySystem/Private/Input/AbilityInputTypes.cpp:91-99 | the second loop leaves the item of every matched tag as it was |
| AbilityInputTypes.UpdatedMaps | Source/CrimAbilitySystem/Private/Input/AbilityInputTypes.cpp:81-101 | after an update the ability is mapped under every valid input tag |
| AbilityInputTypes.UpdatedWellFormed | Source/CrimAbilitySystem/Private/Input/AbilityInputTypes.cpp:81-101 | an update keeps the list well formed |
| AbilityInputTypes.UpdatedSpec | Source/CrimAbilitySystem/Private/Input/AbilityInputTypes.cpp:81-101 | after an update the ability is listed under every valid input tag and in no item whose tag the input tags fail to match; the list stays well formed |
| AbilityInputTypes.WithAbilitiesRemoved | Source/CrimAbilitySystem/Private/Input/AbilityInputTypes.cpp:103-120 | items and tags are kept; only items with the tag lose the listed abilities |
| AbilityInputTypes.WithoutTagMembers | Source/CrimAbilitySystem/Private/Input/AbilityInputTypes.cpp:122-137 | removal by tag keeps exactly the items with another tag |
| AbilityInputTypes.WithoutTagStep | Source/CrimAbilitySystem/Private/Input/AbilityInputTypes.cpp:126-135 | one step of the back-to-front RemoveAt loop extends the filtered suffix by one |
| AbilityInputTypes.WithoutTagSpec | Source/CrimAbilitySystem/Private/Input/AbilityInputTypes.cpp:122-137 | afterwards the tag reads as the default item, every other tag reads as before, and the list stays well formed |
| AbilityInputTypes.WithoutTagLookup | Source/CrimAbilitySystem/Private/Input/AbilityInputTypes.cpp:122-137 | removing one tag leaves the lookup of every other tag unchanged |
| AbilityInputTypes.FrontLookup | Source/CrimAbilitySystem/Private/Input/AbilityInputTypes.cpp:155-160 | the first item is found for its own tag |
| AbilityInputTypes.ShiftedLookup | Source/CrimAbilitySystem/Private/Input/AbilityInputTypes.cpp:155-160 | an item with another tag in front does not change a lookup |
| AbilityInputTypes.WithoutTagWellFormed | Source/CrimAbilitySystem/Private/Input/AbilityInputTypes.cpp:122-137 | removal by tag keeps the list well formed |
| AbilityInputTypes.AbilityInputContainer.constructor | Source/CrimAbilitySystem/Public/Input/AbilityInputTypes.h:97-101 | a container holds its items and starts without an owner |
| AbilityInputTypes.AbilityInputContainer.RegisterWithOwner | Source/CrimAbilitySystem/Private/Input/AbilityInputTypes.cpp:177-180 | the container has an owner afterwards |
| AbilityInputTypes.AbilityInputContainer.AddAbilityInputItem | Source/CrimAbilitySystem/Private/Input/AbilityInputTypes.cpp:47-79 | without an owner or with an invalid tag nothing changes. Otherwise the first item with the tag is extended, or replaced, or a new item is appended |
| AbilityInputTypes.AbilityInputContainer.UpdateAbilityInputItem | Source/CrimAbilitySystem/Private/Input/AbilityInputTypes.cpp:81-101 | with an owner, a non-empty tag list and a non-null ability the items become the result of the update; otherwise nothing changes |
| AbilityInputTypes.AbilityInputContainer.AddUnderEachTag | Source/CrimAbilitySystem/Private/Input/AbilityInputTypes.cpp:86-89 | the first loop adds a single-ability item for each input tag in turn |
| AbilityInputTypes.AbilityInputContainer.StripFromUnmatched | Source/CrimAbilitySystem/Private/Input/AbilityInputTypes.cpp:91-99 | the second loop removes the ability from every item whose tag is not matched |
| AbilityInputTypes.AbilityInputContainer.RemoveAbilityInputItem | Source/CrimAbilitySystem/Private/Input/AbilityInputTypes.cpp:103-120 | with an owner and a valid tag the listed abilities leave every item with the tag; otherwise nothing changes |
| AbilityInputTypes.AbilityInputContainer.RemoveAbilityInputItemByTag | Source/CrimAbilitySystem/Private/Input/AbilityInputTypes.cpp:122-137 | with an owner and a valid tag every item with the tag goes and the others stay in order; otherwise nothing changes |
| AbilityInputTypes.AbilityInputContainer.Reset | Source/CrimAbilitySystem/Private/Input/AbilityInputTypes.cpp:139-151 | with an owner the container is emptied; otherwise nothing changes |
| AbilityInputManager.FindSpecFrom | Source/CrimAbilitySystem/Private/Input/AbilityInputManagerComponent.cpp:93 | FindAbilitySpecFromHandle: the first spec with the handle, or nothing when no spec has it |
| AbilityInputManager.FindSpecUnique | Source/CrimAbilitySystem/Private/Input/AbilityInputManagerComponent.cpp:111 | with unique handles, a spec's handle finds that spec |
| AbilityInputManager.FindSpecSameHandles | Source/CrimAbilitySystem/Private/Input/AbilityInputManagerComponent.cpp:148-154 | the lookup depends only on the handles, so marking input flags does not change it |
| AbilityInputManager.SameButInputRunning | Source/CrimAbilitySystem/Private/Input/AbilityInputManagerComponent.cpp:115 | changing input-pressed flags leaves every group's running count unchanged |
| AbilityInputManager.SameButInputInvariant | Source/CrimAbilitySystem/Private/Input/AbilityInputManagerComponent.cpp:115-154 | changing input-pressed flags preserves the counts and every part of the component invariant |
| AbilityInputManager.MappedHandlesStep | Source/CrimAbilitySystem/Private/Input/AbilityInputManagerComponent.cpp:43-52 | one more spec visited adds its handle exactly when its ability is mapped |
| AbilityInputManager.PressStep | Source/CrimAbilitySystem/Private/Input/AbilityInputManagerComponent.cpp:45-51 | one loop step adds the spec's handle once when its ability is mapped |
| AbilityInputManager.ReleaseStep | Source/CrimAbilitySystem/Private/Input/AbilityInputManagerComponent.cpp:64-70 | one loop step drops the spec's handle from the held list when its ability is mapped |
| AbilityInputManager.PressLists | Source/CrimAbilitySystem/Private/Input/AbilityInputManagerComponent.cpp:43-53 | the loop adds the handle of every mapped spec once to the pressed list and once to the held list |
| AbilityInputManager.ReleaseLists | Source/CrimAbilitySystem/Private/Input/AbilityInputManagerComponent.cpp:62-72 | the loop adds the handle of every mapped spec once to the released list and removes it from the held list |
| AbilityInputManager.MappedHandlesSpec | Source/CrimAbilitySystem/Private/Input/AbilityInputManagerComponent.cpp:43-52 | a handle is collected iff some spec with that handle has an ability mapped to the tag |
| AbilityInputManager.PressAddsMapped | Source/CrimAbilitySystem/Private/Input/AbilityInputManagerComponent.cpp:38-55 | a press keeps the old handles in front, adds the handle of every mapped spec and nothing else, and adds no duplicate |
| AbilityInputManager.ReleaseRemovesMapped | Source/CrimAbilitySystem/Private/Input/AbilityInputManagerComponent.cpp:57-74 | a release leaves in the held list exactly the handles of no mapped spec and adds no duplicate |
| AbilityInputManager.SelectSpec | Source/CrimAbilitySystem/Private/Input/AbilityInputManagerComponent.cpp:91-104 | the selection holds exactly the listed handles whose spec is inactive with the policy, and no duplicate |
| AbilityInputManager.CandidatesSpec | Source/CrimAbilitySystem/Private/Input/AbilityInputManagerComponent.cpp:91-133 | a handle is a candidate iff it is held with an inactive WhileInputActive spec or pressed with an inactive OnInputTriggered spec. From duplicate-free lists the candidates are duplicate-free |
| AbilityInputManager.MarkInputShape | Source/CrimAbilitySystem/Private/Input/AbilityInputManagerComponent.cpp:115 | marking changes only input-pressed flags |
| AbilityInputManager.MarkInputSpec | Source/CrimAbilitySystem/Private/Input/AbilityInputManagerComponent.cpp:109-163 | with unique handles, exactly the specs whose handle is listed get the flag and every other spec is unchanged |
| AbilityInputManager.InputEventsSpec | Source/CrimAbilitySystem/Private/Input/AbilityInputManagerComponent.cpp:117-121 | an input event goes exactly to the listed handles whose spec is active, and no other event is sent |
| AbilityInputManager.TryActivatedOnly | Source/CrimAbilitySystem/Private/Input/AbilityInputManagerComponent.cpp:142 | an activation keeps every spec's handle and ability, and no other inactive spec becomes active |
| AbilityInputManager.ActivateAllOnlyCandidates | Source/CrimAbilitySystem/Private/Input/AbilityInputManagerComponent.cpp:140-143 | the activation loop activates only specs whose handle is a candidate and keeps every handle and ability |
| AbilityInputManager.ProcessedSteps | Source/CrimAbilitySystem/Private/Input/AbilityInputManagerComponent.cpp:85-163 | processing is marking the pressed, activating the candidates and unmarking the released, with press events before the activations and release events after |
| AbilityInputManager.ReleaseAllEventsSpec | Source/CrimAbilitySystem/Private/Input/AbilityInputManagerComponent.cpp:301-313 | clearing sends a release event to exactly the active specs and no other event |
| AbilityInputManager.CollectHeld | Source/CrimAbilitySystem/Private/Input/AbilityInputManagerComponent.cpp:91-104 | the held loop selects the held handles whose spec is inactive with the WhileInputActive policy |
| AbilityInputManager.ProcessPressed | Source/CrimAbilitySystem/Private/Input/AbilityInputManagerComponent.cpp:109-133 | the pressed loop marks each found spec pressed and sends a press event to each active one. It selects the inactive OnInputTriggered specs and keeps the component invariant |
| AbilityInputManager.ActivateCandidates | Source/CrimAbilitySystem/Private/Input/AbilityInputManagerComponent.cpp:140-143 | the candidates are activated in order, keeping the component invariant |
| AbilityInputManager.ProcessReleased | Source/CrimAbilitySystem/Private/Input/AbilityInputManagerComponent.cpp:148-163 | the released loop unmarks each found spec and sends a release event to each active one |
| AbilityInputManager.ProcessLists | Source/CrimAbilitySystem/Private/Input/AbilityInputManagerComponent.cpp:85-163 | the unblocked branch leaves the specs and the log as the processing specification says |
| AbilityInputManager.ReleaseAll | Source/CrimAbilitySystem/Private/Input/AbilityInputManagerComponent.cpp:299-314 | every spec is unmarked and every active one gets a release event |
| AbilityInputManager.AbilityInputManagerComponent.constructor | Source/CrimAbilitySystem/Private/Input/AbilityInputManagerComponent.cpp:12-16 | a registered component has an owned empty container and three empty lists |
| AbilityInputManager.AbilityInputManagerComponent.InitializeAbilitySystemComponent | Source/CrimAbilitySystem/Private/Input/AbilityInputManagerComponent.cpp:18-21 | the component is stored |
| AbilityInputManager.AbilityInputManagerComponent.InputTagPressed | Source/CrimAbilitySystem/Private/Input/AbilityInputManagerComponent.cpp:38-55 | with a component and a valid tag, the handle of each mapped spec is added once to the pressed and held lists; otherwise nothing changes |
| AbilityInputManager.AbilityInputManagerComponent.InputTagReleased | Source/CrimAbilitySystem/Private/Input/AbilityInputManagerComponent.cpp:57-74 | with a component and a valid tag, each mapped handle is added once to the released list and removed from the held list; otherwise nothing changes |
| AbilityInputManager.AbilityInputManagerComponent.ProcessAbilityInput | Source/CrimAbilitySystem/Private/Input/AbilityInputManagerComponent.cpp:76-170 | without a component, or with InputBlocked, all three lists are emptied and every spec is released. Otherwise the frame is processed, the pressed and released lists are emptied and the held list is kept. The component invariant holds throughout |
| AbilityInputManager.AbilityInputManagerComponent.ClearAbilityInput | Source/CrimAbilitySystem/Private/Input/AbilityInputManagerComponent.cpp:292-315 | the three lists are emptied and every spec is unmarked, active ones getting a release event |
| AbilityInputManager.AbilityInputManagerComponent.AddAbilityInputItem | Source/CrimAbilitySystem/Private/Input/AbilityInputManagerComponent.cpp:172-178 | the container is changed only with authority |
| AbilityInputManager.AbilityInputManagerComponent.UpdateAbilityInputItem | Source/CrimAbilitySystem/Private/Input/AbilityInputManagerComponent.cpp:180-187 | the container is updated only with authority |
| AbilityInputManager.AbilityInputManagerComponent.RemoveAbilityInputItem | Source/CrimAbilitySystem/Private/Input/AbilityInputManagerComponent.cpp:189-195 | abilities are removed only with authority |
| AbilityInputManager.AbilityInputManagerComponent.RemoveAbilityInputItemByTag | Source/CrimAbilitySystem/Private/Input/AbilityInputManagerComponent.cpp:197-203 | items are removed only with authority |
| AbilityInputManager.AbilityInputManagerComponent.ResetAbilityInputContainer | Source/CrimAbilitySystem/Private/Input/AbilityInputManagerComponent.cpp:205-211 | the container is emptied only with authority |
| AbilityInputManager.AbilityInputManagerComponent.ResetAbilityInputContainerToDefaults | Source/CrimAbilitySystem/Private/Input/AbilityInputManagerComponent.cpp:213-223 | with authority the container becomes the default items added in order in append mode. It is then well formed, and equal to the defaults when they are well formed |
| GameplayAbility.CanChangeActivationGroup | Source/CrimAbilitySystem/Private/Ability/CrimGameplayAbility.cpp:107-135 | an inactive or non-instanced ability cannot change group, and a running one may always stay in its group. Moving elsewhere is allowed exactly when the new group is not blocked (or the ability is itself the blocking one) and, for Exclusive_Replaceable, the ability is cancelable |
| GameplayAbility.GroupChangedStructure | Source/CrimAbilitySystem/Private/CrimAbilitySystemComponent.cpp:171-201 | moving a running spec to another group changes only that spec's group and keeps handles unique, non-instanced abilities cancelable and running replaceable abilities cancelable |
| GameplayAbility.ChangeActivationGroup | Source/CrimAbilitySystem/Private/Ability/CrimGameplayAbility.cpp:137-158 | the answer is CanChangeActivationGroup. On refusal, or in the same group, nothing changes; otherwise the spec leaves its old counter and joins the new one, and the component invariant holds |
| GameplayAbility.MoveToGroup | Source/CrimAbilitySystem/Private/Ability/CrimGameplayAbility.cpp:151-154 | an accepted move removes the spec from the old group, adds it to the new one and stores the group, keeping the component invariant |
| GameplayAbility.LeaveGroupCounts | Source/CrimAbilitySystem/Private/CrimAbilitySystemComponent.cpp:203-209 | after leaving its old group the counters count every spec but the moved one, the new group's counter can take one more, and at most one exclusive ability is counted |
| GameplayAbility.JoinGroupCounts | Source/CrimAbilitySystem/Private/CrimAbilitySystemComponent.cpp:171-201 | joining the new group (cancelling the other replaceable abilities for an exclusive group) leaves counters that agree with the changed specs, with at most one exclusive ability |
| GameplayAbility.StoreGroupCounts | Source/CrimAbilitySystem/Private/Ability/CrimGameplayAbility.cpp:154 | storing the new group on the already counted spec makes the counters agree with the specs again |
| GameplayAbility.WithCanBeCanceled | Source/CrimAbilitySystem/Private/Ability/CrimGameplayAbility.cpp:209-219 | only the addressed spec's flag can change; a cancelable replaceable spec stays cancelable; a non-instanced spec keeps its flag |
| GameplayAbility.SetCanBeCanceled | Source/CrimAbilitySystem/Private/Ability/CrimGameplayAbility.cpp:209-219 | refusing cancellation while Exclusive_Replaceable is ignored, a non-instanced ability is unchanged, otherwise the flag is stored; the component invariant holds |
| GameplayAbility.AddRelevantTag | Source/CrimAbilitySystem/Private/Ability/CrimGameplayAbility.cpp:199-202 | a failure tag is added only when a container was supplied and the tag is valid, and nothing else is added or removed |
| GameplayAbility.CanActivateAbility | Source/CrimAbilitySystem/Private/Ability/CrimGameplayAbility.cpp:182-207 | activation is allowed exactly with actor info, the engine's checks passing and the ability's group not blocked; the ActivationGroup failure tag is reported exactly in the blocked case |
| GameplayAbility.DoesAbilitySatisfyTagRequirements | Source/CrimAbilitySystem/Private/Ability/CrimGameplayAbility.cpp:397-502 | the requirements hold exactly when nothing blocks and nothing is missing; IsDead is reported when the owner's tags block and the owner has the death tag, the blocked tag when anything blocks, otherwise the missing tag when anything is missing |
| GameplayAbility.AdditionalCostsAffordable | Source/CrimAbilitySystem/Private/Ability/CrimGameplayAbility.cpp:266-275 | true exactly when every non-null additional cost can be afforded |
| GameplayAbility.CheckCost | Source/CrimAbilitySystem/Private/Ability/CrimGameplayAbility.cpp:258-278 | costs are met exactly when the engine's check passes, actor info is present and every non-null additional cost is affordable |
| GameplayAbility.ApplyCost | Source/CrimAbilitySystem/Private/Ability/CrimGameplayAbility.cpp:280-331 | the costs paid are, in increasing order, exactly the non-null ones whose on-hit condition holds; the hit test runs at most once, and exactly when some cost is paid only on a hit |
| GameplayAbility.TryActivateAbilityOnSpawn | Source/CrimAbilitySystem/Private/Ability/CrimGameplayAbility.cpp:80-105 | activation is attempted exactly for an inactive OnSpawn ability, not predicting, with actor info, a component and a live avatar, on the locally controlled side for local policies or with authority for server policies |
| GameplayAbility.TryActivateAbility | Source/CrimAbilitySystem/Private/CrimAbilitySystemComponent.cpp:437-445 | activation happens exactly when the spec is inactive, the engine's checks pass and a Crim ability's group is not blocked; the spec becomes active and cancelable and the component invariant holds; a refusal changes nothing |
| GameplayAbility.EndAbility | Source/CrimAbilitySystem/Private/CrimAbilitySystemComponent.cpp:461-469 | the spec becomes inactive and a Crim ability leaves its group counter, keeping the component invariant; ending an inactive spec leaves the counters alone |
| GamePhaseSubsystem.IsMatchSpec | Source/CrimAbilitySystem/Private/Phases/CrimGamePhaseSubsystem.cpp:192-203 | an exact observer matches only its own tag; a partial one matches its valid tag and every descendant; a match is always a tag match |
| GamePhaseSubsystem.NotifySpec | Source/CrimAbilitySystem/Private/Phases/CrimGamePhaseSubsystem.cpp:161-168 | exactly the matching observers are notified, each with the phase tag |
| GamePhaseSubsystem.EndedSnoc | Source/CrimAbilitySystem/Private/Phases/CrimGamePhaseSubsystem.cpp:134-156 | ending one more phase removes it from what is left |
| GamePhaseSubsystem.EndedAreNonAncestors | Source/CrimAbilitySystem/Private/Phases/CrimGamePhaseSubsystem.cpp:134-156 | having ended exactly the phases the beginning ends leaves the survivors |
| GamePhaseSubsystem.AfterBeginOnChain | Source/CrimAbilitySystem/Private/Phases/CrimGamePhaseSubsystem.cpp:114-170 | after a phase begins it is active with its tag; a previously active phase survives, unchanged, exactly when its tag is the new tag or an ancestor or its ability refuses cancellation; when every active phase accepts cancellation, the active tags lie on one ancestor chain |
| GamePhaseSubsystem.AfterBeginActive | Source/CrimAbilitySystem/Private/Phases/CrimGamePhaseSubsystem.cpp:62-74 | once a valid phase has begun, it and each of its ancestors is active; any other tag is active only through a surviving phase |
| GamePhaseSubsystem.EndAllEventsSnoc | Source/CrimAbilitySystem/Private/Phases/CrimGamePhaseSubsystem.cpp:134-156 | ending one more phase appends its own end events |
| GamePhaseSubsystem.GamePhaseSubsystem.constructor | Source/CrimAbilitySystem/Private/Phases/CrimGamePhaseSubsystem.cpp:114-190 | a new subsystem has no active phase, no observer and no events |
| GamePhaseSubsystem.GamePhaseSubsystem.IsPhaseActive | Source/CrimAbilitySystem/Private/Phases/CrimGamePhaseSubsystem.cpp:62-74 | the answer is true exactly when some active phase has the tag or a descendant of it |
| GamePhaseSubsystem.GamePhaseSubsystem.WhenPhaseStartsOrIsActive | Source/CrimAbilitySystem/Private/Phases/CrimGamePhaseSubsystem.cpp:39-51 | the observer is appended and called at once exactly when a matching phase is active |
| GamePhaseSubsystem.GamePhaseSubsystem.WhenPhaseEnds | Source/CrimAbilitySystem/Private/Phases/CrimGamePhaseSubsystem.cpp:53-60 | the observer is appended and nothing is called |
| GamePhaseSubsystem.GamePhaseSubsystem.OnEndPhase | Source/CrimAbilitySystem/Private/Phases/CrimGamePhaseSubsystem.cpp:172-190 | the phase's entry goes, its ended callback runs if bound, and the matching end observers are notified |
| GamePhaseSubsystem.GamePhaseSubsystem.NotifyAll | Source/CrimAbilitySystem/Private/Phases/CrimGamePhaseSubsystem.cpp:161-168 | every matching observer is called, in order |
| GamePhaseSubsystem.GamePhaseSubsystem.OnBeginPhase | Source/CrimAbilitySystem/Private/Phases/CrimGamePhaseSubsystem.cpp:114-170 | without the game state's component nothing happens; otherwise exactly the active phases that are not the new tag or an ancestor and accept cancellation are ended, once each, with their end events; phases that refuse stay; then the new phase is recorded and its start observers notified |
| GamePhaseSubsystem.GamePhaseSubsystem.EndOneMore | Source/CrimAbilitySystem/Private/Phases/CrimGamePhaseSubsystem.cpp:144-155 | one more phase is ended: its entry goes and its end events follow |
| GamePhaseSubsystem.GamePhaseSubsystem.EndNonAncestors | Source/CrimAbilitySystem/Private/Phases/CrimGamePhaseSubsystem.cpp:134-156 | exactly the non-ancestor phases that accept cancellation are ended, once each, with their end events; every other phase, including one that refuses cancellation, survives unchanged |
| GamePhaseSubsystem.GamePhaseSubsystem.StartPhase | Source/CrimAbilitySystem/Private/Phases/CrimGamePhaseSubsystem.cpp:17-37 | without a component nothing happens; a phase that did not activate only runs its ended callback; one that ended during activation leaves the survivors; one still active keeps its callback |
| AttributeMath.Clamp | Source/CrimAbilitySystem/Private/Attribute/HitPointsAttributeSet.cpp:155-167 | the result lies in the bounds, is the value when it already lies there, and otherwise the nearer bound |
| AttributeMath.Abs | Source/CrimAbilitySystem/Private/Attribute/HitPointsAttributeSet.cpp:169-181 | the result is non-negative and is the value or its negation |
| AttributeMath.Max | Source/CrimAbilitySystem/Private/Attribute/TacticalPointsAttributeSet.cpp:103-115 | the result is one of the two and at least both |
| AttributeMath.DispatchedPoints | Source/CrimAbilitySystem/Private/Attribute/HitPointsAttributeSet.cpp:81-104 | a Damage execution of m leaves the points less m, a Healing execution the points plus m, clamped to [0, max] |
| AttributeMath.DamageMirrorsHealing | Source/CrimAbilitySystem/Private/Attribute/HitPointsAttributeSet.cpp:81-104 | damage by m and healing by -m leave the same value |
| HitPointsAttributes.EdgeBroadcast | Source/CrimAbilitySystem/Private/Attribute/HitPointsAttributeSet.cpp:113-119 | at most one broadcast: out-of-hit-points exactly when the flag was clear and the points are at zero, updated-from-zero exactly when the flag was set and the points are positive |
| HitPointsAttributes.EdgesMarkCrossings | Source/CrimAbilitySystem/Private/Attribute/HitPointsAttributeSet.cpp:106-121 | when the flag tracked the old value, the edge broadcasts mark exactly the crossings of zero and nothing else |
| HitPointsAttributes.ExecutionBroadcasts | Source/CrimAbilitySystem/Private/Attribute/HitPointsAttributeSet.cpp:106-119 | at most three broadcasts, all with the magnitude and an effect spec: the max update exactly for a MaxHitPoints execution, the hit points update exactly when they changed |
| HitPointsAttributes.HitPointsAttributeSet.constructor | Source/CrimAbilitySystem/Private/Attribute/HitPointsAttributeSet.cpp:10-13 | both values start at 100, the meta attributes at 0, no broadcast, the flag clear; the invariant holds |
| HitPointsAttributes.HitPointsAttributeSet.ClampAttribute | Source/CrimAbilitySystem/Private/Attribute/HitPointsAttributeSet.cpp:155-167 | hit points land in [0, MaxHitPoints], MaxHitPoints at least 1, other attributes unchanged |
| HitPointsAttributes.HitPointsAttributeSet.Deliveries | Source/CrimAbilitySystem/Private/Attribute/HitPointsAttributeSet.cpp:106-119 | a broadcast reaches a listener exactly when it is bound to that delegate |
| HitPointsAttributes.HitPointsAttributeSet.HandleDamage | Source/CrimAbilitySystem/Private/Attribute/HitPointsAttributeSet.cpp:169-174 | hit points drop by the absolute magnitude, clamped, never rising |
| HitPointsAttributes.HitPointsAttributeSet.HandleHealing | Source/CrimAbilitySystem/Private/Attribute/HitPointsAttributeSet.cpp:176-181 | hit points rise by the absolute magnitude, clamped, never falling |
| HitPointsAttributes.HitPointsAttributeSet.PreGameplayEffectExecute | Source/CrimAbilitySystem/Private/Attribute/HitPointsAttributeSet.cpp:51-62 | both values are snapshot |
| HitPointsAttributes.HitPointsAttributeSet.PostAttributeChange | Source/CrimAbilitySystem/Private/Attribute/HitPointsAttributeSet.cpp:138-153 | after MaxHitPoints changed, hit points above it are brought down to it; otherwise nothing changes; the invariant holds |
| HitPointsAttributes.HitPointsAttributeSet.SetAttributeValue | Source/CrimAbilitySystem/Private/Attribute/HitPointsAttributeSet.cpp:124-153 | the written value passes the clamp; a lowered maximum pulls hit points down; the meta attributes are stored as written |
| HitPointsAttributes.HitPointsAttributeSet.PostGameplayEffectExecute | Source/CrimAbilitySystem/Private/Attribute/HitPointsAttributeSet.cpp:64-122 | Damage and Healing are dispatched on the sign and reset, the expected broadcasts follow, and afterwards the flag tracks whether hit points are at zero |
| HitPointsAttributes.HitPointsAttributeSet.DispatchExecutedAttribute | Source/CrimAbilitySystem/Private/Attribute/HitPointsAttributeSet.cpp:72-104 | the per-attribute part: dispatch and reset of the meta attributes, and the max update broadcast for a MaxHitPoints execution |
| HitPointsAttributes.HitPointsAttributeSet.ExecuteGameplayEffect | Source/CrimAbilitySystem/Private/Attribute/HitPointsAttributeSet.cpp:51-122 | whatever is executed, hit points end in [0, MaxHitPoints] and the flag tracks zero; damage and healing move them by the magnitude, clamped; the broadcasts follow the snapshot |
| HitPointsAttributes.HitPointsAttributeSet.OnRep_HitPoints | Source/CrimAbilitySystem/Private/Attribute/HitPointsAttributeSet.cpp:23-42 | the replicated value is broadcast with the estimated magnitude and no effect spec, followed by the edge broadcast; the flag then tracks zero |
| HitPointsAttributes.HitPointsAttributeSet.OnRep_MaxHitPoints | Source/CrimAbilitySystem/Private/Attribute/HitPointsAttributeSet.cpp:44-49 | the replicated maximum is broadcast with the estimated magnitude and no effect spec; hit points and the flag are untouched |
| HitPointsAttributes.HitPointsAttributeSet.Bind | Source/CrimAbilitySystem/Private/Attribute/HitPointsComponent.cpp:57-60 | one more binding, even for a listener already bound, so one more delivery per broadcast |
| HitPointsAttributes.HitPointsAttributeSet.Unbind | Source/CrimAbilitySystem/Private/Attribute/HitPointsComponent.cpp:74-76 | every binding of the listener to that delegate goes, so it gets no delivery |
| TacticalPointsAttributes.TacticalPointsAttributeSet.constructor | Source/CrimAbilitySystem/Private/Attribute/TacticalPointsAttributeSet.cpp:10-13 | both values start at 100 and the meta attributes at 0; the invariant holds |
| TacticalPointsAttributes.TacticalPointsAttributeSet.ClampAttribute | Source/CrimAbilitySystem/Private/Attribute/TacticalPointsAttributeSet.cpp:103-115 | current points land in [0, MaxPoints], MaxPoints at least 0, other attributes unchanged |
| TacticalPointsAttributes.TacticalPointsAttributeSet.HandleDamage | Source/CrimAbilitySystem/Private/Attribute/TacticalPointsAttributeSet.cpp:117-122 | current points drop by the absolute magnitude, clamped |
| TacticalPointsAttributes.TacticalPointsAttributeSet.HandleHealing | Source/CrimAbilitySystem/Private/Attribute/TacticalPointsAttributeSet.cpp:124-129 | current points rise by the absolute magnitude, clamped |
| TacticalPointsAttributes.TacticalPointsAttributeSet.PostAttributeChange | Source/CrimAbilitySystem/Private/Attribute/TacticalPointsAttributeSet.cpp:86-101 | after MaxPoints changed, current points above it are brought down to it; otherwise nothing changes |
| TacticalPointsAttributes.TacticalPointsAttributeSet.SetAttributeValue | Source/CrimAbilitySystem/Private/Attribute/TacticalPointsAttributeSet.cpp:72-101 | the written value passes the clamp; a lowered maximum pulls current points down; the meta attributes are stored as written |
| TacticalPointsAttributes.TacticalPointsAttributeSet.PostGameplayEffectExecute | Source/CrimAbilitySystem/Private/Attribute/TacticalPointsAttributeSet.cpp:38-70 | Damage and Healing are dispatched on the sign of the magnitude and reset; the invariant holds |
| TacticalPointsAttributes.TacticalPointsAttributeSet.ExecuteGameplayEffect | Source/CrimAbilitySystem/Private/Attribute/TacticalPointsAttributeSet.cpp:33-70 | whatever is executed, current points end in [0, MaxPoints]; damage and healing move them by the magnitude, clamped |
| HitPointsComponents.DeathStatePartition | Source/CrimAbilitySystem/Private/Attribute/HitPointsComponent.cpp:105-113 | every state is dead or dying, or alive or reviving, and never both |
| HitPointsComponents.DeathTagsAtMostOne | Source/CrimAbilitySystem/Private/Attribute/HitPointsComponent.cpp:115-189 | at most one death tag is set, exactly when the owner is not alive, and then the owner has the death tag the activation checks look for |
| HitPointsComponents.ReplayEvents | Source/CrimAbilitySystem/Private/Attribute/HitPointsComponent.cpp:269-332 | an accepted transition replays broadcasts ending with entering the new state; any other transition broadcasts nothing |
| HitPointsComponents.HandlerGameplayEvent | Source/CrimAbilitySystem/Private/Attribute/HitPointsComponent.cpp:219-267 | the Death or Revive event is sent exactly for an out-of-hit-points or updated-from-zero broadcast carrying an effect spec |
| HitPointsComponents.HitPointsComponent.constructor | Source/CrimAbilitySystem/Private/Attribute/HitPointsComponent.cpp:30-66 | a new component is alive and uninitialized, with no events |
| HitPointsComponents.HitPointsComponent.StartDeath | Source/CrimAbilitySystem/Private/Attribute/HitPointsComponent.cpp:115-132 | DeathStarted, with only the Dying tag set, and the death-started broadcast |
| HitPointsComponents.HitPointsComponent.FinishDeath | Source/CrimAbilitySystem/Private/Attribute/HitPointsComponent.cpp:134-151 | DeathFinished, with only the Dead tag set, and the death-finished broadcast |
| HitPointsComponents.HitPointsComponent.StartRevive | Source/CrimAbilitySystem/Private/Attribute/HitPointsComponent.cpp:153-170 | ReviveStarted, with only the Reviving tag set, and the revive-started broadcast |
| HitPointsComponents.HitPointsComponent.FinishRevive | Source/CrimAbilitySystem/Private/Attribute/HitPointsComponent.cpp:172-189 | Alive, with all death tags cleared, and the revive-finished broadcast |
| HitPointsComponents.HitPointsComponent.ClearGameplayTags | Source/CrimAbilitySystem/Private/Attribute/HitPointsComponent.cpp:197-205 | all three death tags are cleared, as for an alive owner |
| HitPointsComponents.HitPointsComponent.OnRep_DeathState | Source/CrimAbilitySystem/Private/Attribute/HitPointsComponent.cpp:269-332 | an accepted transition is replayed with its broadcasts and the tags show the new state; any other keeps the old state and the tags |
| HitPointsComponents.HitPointsComponent.OnRep_DeathStateCorrected | Source/CrimAbilitySystem/Private/Attribute/HitPointsComponent.cpp:292-302 | the same, also accepting a revive started while dying |
| HitPointsComponents.HitPointsComponent.InitializeWithAbilitySystem | Source/CrimAbilitySystem/Private/Attribute/HitPointsComponent.cpp:30-66 | only a first initialization with a component and its set stores both, binds the four delegates and broadcasts the current values; otherwise nothing is bound or broadcast |
| HitPointsComponents.HitPointsComponent.UninitializeFromAbilitySystem | Source/CrimAbilitySystem/Private/Attribute/HitPointsComponent.cpp:68-81 | the death tags are cleared, three delegates are unbound, and both references dropped |
| HitPointsComponents.HitPointsComponent.UninitializeFromAbilitySystemCorrected | Source/CrimAbilitySystem/Private/Attribute/HitPointsComponent.cpp:68-81 | the same, with no binding of the component left and other listeners untouched |
| HitPointsComponents.HitPointsComponent.DeliverBroadcast | Source/CrimAbilitySystem/Private/Attribute/HitPointsComponent.cpp:207-267 | a broadcast runs the handler once per binding, each run rebroadcasting and sending its gameplay event |
| HitPointsComponents.ReinitializeAsWritten | Source/CrimAbilitySystem/Private/Attribute/HitPointsComponent.cpp:68-81 | after initialize, uninitialize, initialize, the updated-from-zero handler is bound twice and the Revive event is sent twice |
| HitPointsComponents.ReinitializeCorrected | Source/CrimAbilitySystem/Private/Attribute/HitPointsComponent.cpp:68-81 | with the corrected uninitialization each handler is bound once and the Revive event is sent once |
| DeathAbility.DeathAbilityDef | Source/CrimAbilitySystem/Private/Ability/DeathGameplayAbility.cpp:17-31 | the death ability is a Crim ability, instanced, server initiated, activated on event |
| DeathAbility.DeathTriggers | Source/CrimAbilitySystem/Private/Ability/DeathGameplayAbility.cpp:17-31 | exactly the Death gameplay event triggers it |
| DeathAbility.DeathNeverActivatedOnSpawn | Source/CrimAbilitySystem/Private/Ability/CrimGameplayAbility.cpp:80-105 | being activated on event, a death spec is never activated on spawn |
| DeathAbility.AfterStartDeath | Source/CrimAbilitySystem/Private/Ability/DeathGameplayAbility.cpp:66-75 | only Alive moves, to DeathStarted |
| DeathAbility.AfterFinishDeath | Source/CrimAbilitySystem/Private/Ability/DeathGameplayAbility.cpp:77-86 | only DeathStarted moves, to DeathFinished |
| DeathAbility.StartDeath | Source/CrimAbilitySystem/Private/Ability/DeathGameplayAbility.cpp:66-75 | the component starts dying only from Alive, broadcasting then, and its tags keep showing its state |
| DeathAbility.FinishDeath | Source/CrimAbilitySystem/Private/Ability/DeathGameplayAbility.cpp:77-86 | the component finishes dying only from DeathStarted, and its tags keep showing its state |
| DeathAbility.ActivateAbility | Source/CrimAbilitySystem/Private/Ability/DeathGameplayAbility.cpp:33-53 | cancellation is refused, and dying starts when auto-start is configured; the component invariant holds |
| DeathAbility.EndAbility | Source/CrimAbilitySystem/Private/Ability/DeathGameplayAbility.cpp:55-64 | a started death is finished, so the component is never left in DeathStarted, and the spec becomes inactive |
| ReviveAbility.ReviveAbilityDef | Source/CrimAbilitySystem/Private/Ability/ReviveGameplayAbility.cpp:17-30 | the revive ability is a Crim ability, instanced, server initiated, OnInputTriggered, Independent |
| ReviveAbility.ReviveTriggers | Source/CrimAbilitySystem/Private/Ability/ReviveGameplayAbility.cpp:17-30 | exactly the Revive gameplay event triggers it |
| ReviveAbility.AfterStartRevive | Source/CrimAbilitySystem/Private/Ability/ReviveGameplayAbility.cpp:70-79 | exactly a dead or dying state moves, to ReviveStarted |
| ReviveAbility.AfterFinishRevive | Source/CrimAbilitySystem/Private/Ability/ReviveGameplayAbility.cpp:81-90 | only ReviveStarted moves, to Alive |
| ReviveAbility.StartRevive | Source/CrimAbilitySystem/Private/Ability/ReviveGameplayAbility.cpp:70-79 | a dead or dying component starts reviving, broadcasting then, and its tags keep showing its state |
| ReviveAbility.FinishRevive | Source/CrimAbilitySystem/Private/Ability/ReviveGameplayAbility.cpp:81-90 | the component comes back to life only from ReviveStarted, and its tags keep showing its state |
| ReviveAbility.ActivateAbility | Source/CrimAbilitySystem/Private/Ability/ReviveGameplayAbility.cpp:32-57 | cancellation is refused and the move to Exclusive_Blocking tried; once it succeeds both exclusive groups are blocked; the revive starts when auto-start is configured |
| ReviveAbility.BlockExclusiveAbilities | Source/CrimAbilitySystem/Private/Ability/ReviveGameplayAbility.cpp:44-49 | the refusal of cancellation and the move to Exclusive_Blocking, after which both exclusive groups are blocked when the move was allowed |
| ReviveAbility.EndAbility | Source/CrimAbilitySystem/Private/Ability/ReviveGameplayAbility.cpp:59-68 | a started revive is finished, so the component is never left in ReviveStarted, and the spec becomes inactive |
| ReviveAbility.ServerTransitionsReplicate | Source/CrimAbilitySystem/Private/Attribute/HitPointsComponent.cpp:269-332 | every transition the two abilities make on the server is one the corrected handler replays; the handler as written replays all of them except a revive started while dying |
| ReviveAbility.ReviveWhileDyingAsWritten | Source/CrimAbilitySystem/Private/Attribute/HitPointsComponent.cpp:292-302 | a revive started while dying leaves the server in ReviveStarted and the client in DeathStarted |
| ReviveAbility.ReviveWhileDyingCorrected | Source/CrimAbilitySystem/Private/Ability/ReviveGameplayAbility.cpp:70-79 | with the corrected handler the client follows the server into ReviveStarted, tags included |
| GlobalAbilitySystem.NumberedKeys | Source/CrimAbilitySystem/Private/CrimGlobalAbilitySystem.cpp:81-103 | a new entry's list holds exactly the registered components |
| GlobalAbilitySystem.NumberedSnoc | Source/CrimAbilitySystem/Private/CrimGlobalAbilitySystem.cpp:81-103 | one more component gets the next handle |
| GlobalAbilitySystem.NumberedBounds | Source/CrimAbilitySystem/Private/CrimGlobalAbilitySystem.cpp:81-103 | the handles of a new list are fresh: from the counter to below it plus the number of components |
| GlobalAbilitySystem.NumberedAt | Source/CrimAbilitySystem/Private/CrimGlobalAbilitySystem.cpp:81-103 | the i-th registered component receives the i-th handle |
| GlobalAbilitySystem.GrantCallsSpec | Source/CrimAbilitySystem/Private/CrimGlobalAbilitySystem.cpp:81-103 | applying grants once per component, the i-th with the i-th handle, and nothing else |
| GlobalAbilitySystem.ClearCallsSpec | Source/CrimAbilitySystem/Private/CrimGlobalAbilitySystem.cpp:32-42 | removing from all takes back each listed component's handle and nothing else |
| GlobalAbilitySystem.RemoveUndoesApply | Source/CrimAbilitySystem/Private/CrimGlobalAbilitySystem.cpp:105-123 | removing an entry from all takes back exactly the handles applying it granted, whatever the visit order |
| GlobalAbilitySystem.RemovedWasGranted | Source/CrimAbilitySystem/Private/CrimGlobalAbilitySystem.cpp:32-42 | every handle taken back was granted |
| GlobalAbilitySystem.GrantedIsRemoved | Source/CrimAbilitySystem/Private/CrimGlobalAbilitySystem.cpp:10-21 | every handle granted is taken back |
| GlobalAbilitySystem.GrantStep | Source/CrimAbilitySystem/Private/CrimGlobalAbilitySystem.cpp:10-21 | granting to the next new component appends its grant call and its handle |
| GlobalAbilitySystem.ConsistentAfterApply | Source/CrimAbilitySystem/Private/CrimGlobalAbilitySystem.cpp:81-103 | applying a new entry keeps the invariant: the lists hold exactly the registered components and every handle is issued |
| GlobalAbilitySystem.RegrantedStep | Source/CrimAbilitySystem/Private/CrimGlobalAbilitySystem.cpp:125-139 | granting a component under one more entry changes that entry's list alone |
| GlobalAbilitySystem.AfterRegisterSpec | Source/CrimAbilitySystem/Private/CrimGlobalAbilitySystem.cpp:125-139 | registering gives the i-th visited entry the i-th handle for the component, leaves other components' handles and unvisited entries alone |
| GlobalAbilitySystem.RegisterCallsSpec | Source/CrimAbilitySystem/Private/CrimGlobalAbilitySystem.cpp:125-139 | each visited entry takes back what the component held, if anything, and grants afresh; no call concerns another component |
| GlobalAbilitySystem.ConsistentAfterRegister | Source/CrimAbilitySystem/Private/CrimGlobalAbilitySystem.cpp:125-139 | registering keeps the invariant, with the component registered once |
| GlobalAbilitySystem.Unregistered | Source/CrimAbilitySystem/Private/CrimGlobalAbilitySystem.cpp:141-154 | the component is gone from every list, and nothing else is |
| GlobalAbilitySystem.UnregisteredAll | Source/CrimAbilitySystem/Private/CrimGlobalAbilitySystem.cpp:141-154 | once every entry is visited, the component is gone from all |
| GlobalAbilitySystem.UnregisterCallsSpec | Source/CrimAbilitySystem/Private/CrimGlobalAbilitySystem.cpp:141-154 | unregistering takes back every handle the component holds and nothing else |
| GlobalAbilitySystem.ConsistentAfterUnregister | Source/CrimAbilitySystem/Private/CrimGlobalAbilitySystem.cpp:141-154 | unregistering keeps the invariant |
| GlobalAbilitySystem.RemoveAllAppended | Source/CrimAbilitySystem/Private/CrimGlobalAbilitySystem.cpp:141-154 | removing a component appended to a list without it gives the list back |
| GlobalAbilitySystem.RegisterThenUnregister | Source/CrimAbilitySystem/Private/CrimGlobalAbilitySystem.cpp:125-154 | registering a new component and then unregistering it restores the lists and the registrations |
| GlobalAbilitySystem.UnregisterRegranted | Source/CrimAbilitySystem/Private/CrimGlobalAbilitySystem.cpp:141-154 | taking the component out of every list undoes granting it to lists that did not hold it |
| GlobalAbilitySystem.AbilitiesFirst | Source/CrimAbilitySystem/Private/CrimGlobalAbilitySystem.cpp:125-139 | a visit of the ability lists followed by the effect lists puts every ability entry first |
| GlobalAbilitySystem.RegisterNothing | Source/CrimAbilitySystem/Private/CrimGlobalAbilitySystem.cpp:125-139 | before any entry is visited, registering has changed nothing |
| GlobalAbilitySystem.RegisterStep | Source/CrimAbilitySystem/Private/CrimGlobalAbilitySystem.cpp:125-139 | one more registering step grants the component under the next entry with the next handle |
| GlobalAbilitySystem.RegisterCallsSnoc | Source/CrimAbilitySystem/Private/CrimGlobalAbilitySystem.cpp:125-139 | the calls of one more step follow those made so far |
| GlobalAbilitySystem.UnregisterStep | Source/CrimAbilitySystem/Private/CrimGlobalAbilitySystem.cpp:141-154 | one more unregistering step removes the component from the next entry |
| GlobalAbilitySystem.AddToComponent | Source/CrimAbilitySystem/Private/CrimGlobalAbilitySystem.cpp:10-21 | what the component held is taken back, then it is granted afresh with the new handle |
| GlobalAbilitySystem.RemoveFromComponent | Source/CrimAbilitySystem/Private/CrimGlobalAbilitySystem.cpp:23-30 | what the component held, if anything, is taken back, and it leaves the list |
| GlobalAbilitySystem.RemoveFromAll | Source/CrimAbilitySystem/Private/CrimGlobalAbilitySystem.cpp:32-42 | every handle of the list is taken back, each component once, in the list's order |
| GlobalAbilitySystem.AddToEveryComponent | Source/CrimAbilitySystem/Private/CrimGlobalAbilitySystem.cpp:81-103 | a new entry is granted to every component in order with consecutive handles |
| GlobalAbilitySystem.AddToEach | Source/CrimAbilitySystem/Private/CrimGlobalAbilitySystem.cpp:125-139 | one loop of registering: the component is added to every entry of the loop, continuing the visit order |
| GlobalAbilitySystem.AddToNext | Source/CrimAbilitySystem/Private/CrimGlobalAbilitySystem.cpp:125-139 | one pass of the loop: the component is added to one more entry |
| GlobalAbilitySystem.AddToEveryEntry | Source/CrimAbilitySystem/Private/CrimGlobalAbilitySystem.cpp:125-139 | both loops of registering: every entry is visited once, ability entries first |
| GlobalAbilitySystem.RemoveFromEach | Source/CrimAbilitySystem/Private/CrimGlobalAbilitySystem.cpp:141-154 | one loop of unregistering: the component is taken out of every entry of the loop |
| GlobalAbilitySystem.RemoveFromEveryEntry | Source/CrimAbilitySystem/Private/CrimGlobalAbilitySystem.cpp:141-154 | both loops of unregistering: the component leaves every list, ability entries first |
| GlobalAbilitySystem.GlobalAbilitySystem.constructor | Source/CrimAbilitySystem/Private/CrimGlobalAbilitySystem.cpp:125-154 | a new subsystem has no entry, no registration and no calls; the invariant holds |
| GlobalAbilitySystem.GlobalAbilitySystem.ApplyToAll | Source/CrimAbilitySystem/Private/CrimGlobalAbilitySystem.cpp:81-103 | a new entry is granted to every registered component in registration order; an applied one changes nothing; the invariant holds |
| GlobalAbilitySystem.GlobalAbilitySystem.ApplyAbilityToAll | Source/CrimAbilitySystem/Private/CrimGlobalAbilitySystem.cpp:81-91 | a null class or one already applied changes nothing; otherwise it is granted to every registered component |
| GlobalAbilitySystem.GlobalAbilitySystem.ApplyEffectToAll | Source/CrimAbilitySystem/Private/CrimGlobalAbilitySystem.cpp:93-103 | a null class or one already applied changes nothing; otherwise it is applied to every registered component |
| GlobalAbilitySystem.GlobalAbilitySystem.RemoveEntryFromAll | Source/CrimAbilitySystem/Private/CrimGlobalAbilitySystem.cpp:105-123 | the entry is taken back from every registered component and forgotten; an absent entry changes nothing |
| GlobalAbilitySystem.GlobalAbilitySystem.RemoveAbilityFromAll | Source/CrimAbilitySystem/Private/CrimGlobalAbilitySystem.cpp:105-113 | a null class or one not applied changes nothing; otherwise it is taken back from every component |
| GlobalAbilitySystem.GlobalAbilitySystem.RemoveEffectFromAll | Source/CrimAbilitySystem/Private/CrimGlobalAbilitySystem.cpp:115-123 | a null class or one not applied changes nothing; otherwise it is removed from every component |
| GlobalAbilitySystem.GlobalAbilitySystem.Register | Source/CrimAbilitySystem/Private/CrimGlobalAbilitySystem.cpp:125-139 | every applied ability and then every applied effect is granted afresh, and the component is registered once; the invariant holds |
| GlobalAbilitySystem.GlobalAbilitySystem.Unregister | Source/CrimAbilitySystem/Private/CrimGlobalAbilitySystem.cpp:141-154 | everything the component holds is taken back, abilities first, and every registration of it removed; the invariant holds |
| AbilitySet.ValidSets | Source/CrimAbilitySystem/Private/AbilitySet.cpp:104-122 | exactly the attribute-set entries with a class, in order |
| AbilitySet.ValidAbilities | Source/CrimAbilitySystem/Private/AbilitySet.cpp:124-147 | exactly the ability entries with a class, in order |
| AbilitySet.ValidEffects | Source/CrimAbilitySystem/Private/AbilitySet.cpp:149-167 | exactly the effect entries with a class, in order |
| AbilitySet.GiveSetsSpec | Source/CrimAbilitySystem/Private/AbilitySet.cpp:104-122 | one new set per valid entry, in order, with consecutive identities, each recorded; nothing else changes |
| AbilitySet.GiveAbilitiesSpec | Source/CrimAbilitySystem/Private/AbilitySet.cpp:124-147 | one spec per valid entry, in order, with its class, level, dynamic tags and the source object, and consecutive handles, each recorded |
| AbilitySet.GiveEffectsSpec | Source/CrimAbilitySystem/Private/AbilitySet.cpp:149-167 | one application per valid entry at its level; the handle is valid exactly for a lasting effect, and only valid fresh handles are recorded |
| AbilitySet.GiveOrder | Source/CrimAbilitySystem/Private/AbilitySet.cpp:93-167 | a grant adds attribute sets first, then abilities, then effects |
| AbilitySet.UndoAppend | Source/CrimAbilitySystem/Private/AbilitySet.cpp:46-80 | undoing a concatenation undoes each part |
| AbilitySet.UndoSnoc | Source/CrimAbilitySystem/Private/AbilitySet.cpp:46-80 | one more granting call adds its own undo |
| AbilitySet.SetStepUndo | Source/CrimAbilitySystem/Private/AbilitySet.cpp:104-122 | an attribute-set entry's undo is the removal of the set it records |
| AbilitySet.AbilityStepUndo | Source/CrimAbilitySystem/Private/AbilitySet.cpp:124-147 | an ability entry's undo is clearing the handle it records |
| AbilitySet.EffectStepUndo | Source/CrimAbilitySystem/Private/AbilitySet.cpp:149-167 | an effect entry's undo is removing the handle it records, if any |
| AbilitySet.UndoSetsPhase | Source/CrimAbilitySystem/Private/AbilitySet.cpp:104-122 | the sets recorded are taken back by undoing the phase's calls |
| AbilitySet.UndoAbilitiesPhase | Source/CrimAbilitySystem/Private/AbilitySet.cpp:124-147 | the handles recorded are cleared by undoing the phase's calls |
| AbilitySet.UndoEffectsPhase | Source/CrimAbilitySystem/Private/AbilitySet.cpp:149-167 | the handles recorded are removed by undoing the phase's calls |
| AbilitySet.TakeUndoesGive | Source/CrimAbilitySystem/Private/AbilitySet.cpp:46-80 | taking back a fresh record of a grant makes exactly the calls that undo the grant, in the order abilities, effects, attribute sets |
| AbilitySet.UndoThreePhases | Source/CrimAbilitySystem/Private/AbilitySet.cpp:93-167 | the undo of a grant splits into the undo of its three phases |
| AbilitySet.RecordedHandlesValid | Source/CrimAbilitySystem/Private/AbilitySet.cpp:25-44 | every recorded handle is valid and fresh, so the take loops skip none |
| AbilitySet.GrantedHandles.constructor | Source/CrimAbilitySystem/Public/AbilitySet.h:108-132 | a new record is empty |
| AbilitySet.GrantedHandles.AddAbilitySpecHandle | Source/CrimAbilitySystem/Private/AbilitySet.cpp:25-31 | a valid handle is appended; an invalid one is not recorded |
| AbilitySet.GrantedHandles.AddGameplayEffectHandle | Source/CrimAbilitySystem/Private/AbilitySet.cpp:33-39 | a valid handle is appended; an invalid one, as an instant effect returns, is not recorded |
| AbilitySet.GrantedHandles.AddAttributeSet | Source/CrimAbilitySystem/Private/AbilitySet.cpp:41-44 | the set is appended |
| AbilitySet.GrantedHandles.TakeFromAbilitySystem | Source/CrimAbilitySystem/Private/AbilitySet.cpp:46-80 | without authority nothing happens; otherwise every valid recorded handle is cleared or removed, every set removed, in that order, and the record emptied |
| AbilitySet.ClearAbilities | Source/CrimAbilitySystem/Private/AbilitySet.cpp:56-62 | each valid handle is cleared, in order |
| AbilitySet.RemoveEffects | Source/CrimAbilitySystem/Private/AbilitySet.cpp:64-70 | each valid handle is removed, in order |
| AbilitySet.RemoveSets | Source/CrimAbilitySystem/Private/AbilitySet.cpp:72-75 | each recorded set is removed, in order |
| AbilitySet.AbilitySet.constructor | Source/CrimAbilitySystem/Public/AbilitySet.h:137-168 | the set holds the given entries |
| AbilitySet.AbilitySet.GiveToAbilitySystem | Source/CrimAbilitySystem/Private/AbilitySet.cpp:93-167 | without authority nothing is granted or recorded; otherwise attribute sets, abilities and effects are granted in that order, skipping null classes, and recorded when a record is supplied |
| AbilitySet.GrantAttributeSets | Source/CrimAbilitySystem/Private/AbilitySet.cpp:104-122 | the attribute-set loop does what the set phase specifies |
| AbilitySet.GrantAbilities | Source/CrimAbilitySystem/Private/AbilitySet.cpp:124-147 | the ability loop does what the ability phase specifies |
| AbilitySet.GrantEffects | Source/CrimAbilitySystem/Private/AbilitySet.cpp:149-167 | the effect loop does what the effect phase specifies |

## Left out

- Network replication is not modelled: replicated properties, fast-array dirty marking, the replication callbacks, ForceNetUpdate and the failure RPC. Authority is a boolean input, and the client side of a replicated value is modelled only through the OnRep handlers.
- Actor and component lifecycle glue is not modelled: InitAbilityActorInfo, avatar fan-out, BeginPlay, OnRegister, OnUnregister, EndPlay, PreNetReceive, and the iteration of TryActivateAbilitiesOnSpawn over the specs. The on-spawn decision itself is modelled for one spec.
- Engine internals are opaque. GiveAbility, ClearAbility, ApplyGameplayEffectToSelf, RemoveActiveGameplayEffect and the attribute set calls become logged calls whose handles come from a counter. The engine's own activation, tag and cost checks are a boolean input.
- The target-data hit test is a list of hit flags. The additional costs are records saying whether they are affordable and whether they apply only on a hit.
- The tag relationship mapping is not modelled. The tags it adds to an activation check are inputs of the check.
- Messaging and Blueprint hooks (the K2_ events, OnGiveAbility and OnRemoveAbility, the ability-failed message and the owner's input item callbacks) are left out. Delegate broadcasts and gameplay events are recorded in event logs.
- Attribute values are real numbers, so floating-point rounding in the clamps is not modelled. The getters GetHitPoints, GetMaxHitPoints and GetHitPointsNormalized are left out; the normalisation is a float division with no logic.
- The tactical points OnRep handlers are left out, because they only forward to the engine's replication notification.
- Cooldowns, MakeEffectContext, ApplyAbilityTagsToGameplayEffectSpec and the async listener tasks are left out. They build engine effect specs or register engine delegates.
- Map iteration order is not modelled. Where the source walks a map (the phase map, the global lists), the order is a ghost output whose only promise is that it visits every key once.
- Phase abilities are reduced to direct calls of OnBeginPhase and OnEndPhase. A phase spec carries its tag and whether its ability instance currently accepts cancellation. Cancelling a phase that accepts ends it synchronously; one that refuses is only logged and stays active.
- AbilitySystem.AbilitySystemComponent.CancelActivationGroupAbilities: a spec and its ability instance are one record, so an instanced-per-execution ability with several live instances is not modelled. The ignored ability is named by its spec handle, not by its instance. A second running instance of the same spec would be spared here but cancelled by the source.
- AbilitySystem.AbilitySystemComponent.AddAbilityToActivationGroup: the newly active ability is spared by its spec handle, under the same one-instance-per-spec simplification. Another live instance of the same replaceable spec would be cancelled by the source but is spared here.
- GlobalAbilitySystem.RemoveFromAll: the null-component check is not modelled, because registered components are identities that are never null.
- GlobalAbilitySystem.GlobalAbilitySystem.ApplyEffectToAll: every effect application is answered with a fresh handle. The model does not distinguish the invalid handle an instant effect returns, because the subsystem stores and later removes whatever handle it gets.
- GameplayAbility.TryActivateAbility: the engine's activation path is collapsed into one boolean for its checks. The model keeps only what the plugin adds: the group check, the activation notification and the counter update.
- GameplayAbility.ApplyCost: the effect of paying a cost is not modelled. The contract states which costs are paid and how often the hit test runs.
- GamePhaseSubsystem.GamePhaseSubsystem.StartPhase: for a phase that activated, the contract states the active phases but not the events of the begin and end calls made during activation. OnBeginPhase and OnEndPhase state those events.
- HitPointsComponents.HitPointsComponent.OnRep_DeathStateCorrected: states the new state and the tags, not the replayed broadcasts.
- ReviveAbility.ReviveWhileDyingAsWritten: states the two death states only. The client's tags follow from the contract of OnRep_DeathState.

## Findings

| source | as written | input that shows it | evidently intended | confidence | as-written member | corrected member |
|---|---|---|---|---|---|---|
| Source/CrimAbilitySystem/Private/Attribute/HitPointsComponent.cpp:68-81 | UninitializeFromAbilitySystem unbinds three of the four delegates that InitializeWithAbilitySystem binds; the updated-from-zero handler stays bound | initialize with a hit points set, uninitialize, initialize again with the same set, then a hit-points update from zero with an effect spec: the Revive gameplay event is sent twice | every delegate bound at initialization is unbound, so the handler runs once | not executed | HitPointsComponents.ReinitializeAsWritten | HitPointsComponents.ReinitializeCorrected |
| Source/CrimAbilitySystem/Private/Attribute/HitPointsComponent.cpp:292-302 | OnRep_DeathState accepts only DeathFinished after DeathStarted, although the revive ability starts a revive from DeathStarted (ReviveGameplayAbility.cpp:70-79) | server and client both at DeathStarted; the revive ability runs StartRevive on the server; the client receives ReviveStarted and keeps DeathStarted with the Dying tag | the client replays StartRevive and follows the server into ReviveStarted | not executed | ReviveAbility.ReviveWhileDyingAsWritten | ReviveAbility.ReviveWhileDyingCorrected |
