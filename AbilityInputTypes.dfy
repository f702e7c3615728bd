/**
 * The input-to-ability mapping: an ordered list of items, each an input tag
 * with the abilities it activates, and the container operations that add,
 * update, remove and look up items.
 */
module AbilityInputTypes {
  import opened Common
  import opened GameplayTags

  /** A soft reference to an ability class, possibly null. */
  datatype AbilityRef = NullAbility | AbilityClass(cls: Id)

  /** FAbilityInputItem. */
  datatype AbilityInputItem = AbilityInputItem(inputTag: Tag, abilities: seq<AbilityRef>)

  /** The default item: the invalid tag and no abilities. */
  const DefaultItem: AbilityInputItem := AbilityInputItem([], [])

  /** An item is valid when its input tag is. */
  predicate IsValidItem(item: AbilityInputItem) {
    IsValid(item.inputTag)
  }

  /** The abilities of xs with duplicates dropped, each at its first occurrence (AddUnique one by one). */
  function Deduplicated(xs: seq<AbilityRef>): seq<AbilityRef> {
    AddUniqueAll([], xs)
  }

  /** AddUnique of every element of xs onto list, one by one. */
  method AppendUnique(list: seq<AbilityRef>, xs: seq<AbilityRef>) returns (r: seq<AbilityRef>)
    ensures r == AddUniqueAll(list, xs)
  {
    r := list;
    var k := 0;
    while k < |xs|
      invariant 0 <= k <= |xs|
      invariant AddUniqueAll(r, xs[k..]) == AddUniqueAll(list, xs)
    {
      assert xs[k..][0] == xs[k] && xs[k..][1..] == xs[k + 1..];
      r := AddUnique(r, xs[k]);
      k := k + 1;
    }
    assert xs[k..] == [];
  }

  /** Remove of every element of xs from list, one by one. */
  method RemoveListed(list: seq<AbilityRef>, xs: seq<AbilityRef>) returns (r: seq<AbilityRef>)
    ensures r == RemoveEach(list, xs)
  {
    r := list;
    var k := 0;
    while k < |xs|
      invariant 0 <= k <= |xs|
      invariant RemoveEach(r, xs[k..]) == RemoveEach(list, xs)
    {
      assert xs[k..][0] == xs[k] && xs[k..][1..] == xs[k + 1..];
      r := RemoveAll(r, xs[k]);
      k := k + 1;
    }
    assert xs[k..] == [];
  }

  /**
   * The item constructor: the tag, and the abilities without duplicates in
   * the order of their first occurrence.
   */
  method NewInputItem(tag: Tag, abilities: seq<AbilityRef>) returns (item: AbilityInputItem)
    ensures item == AbilityInputItem(tag, Deduplicated(abilities))
    ensures NoDuplicates(item.abilities) && forall a :: a in item.abilities <==> a in abilities
  {
    var list := AppendUnique([], abilities);
    item := AbilityInputItem(tag, list);
    AddUniqueAllSpec([], abilities);
  }

  /** An item that lists abilities without duplicates keeps them all, in order. */
  lemma DeduplicatedFixesDuplicateFree(xs: seq<AbilityRef>)
    requires NoDuplicates(xs)
    ensures Deduplicated(xs) == xs
  {
    AddUniqueAllFresh([], xs);
  }

  // ---------------------------------------------------------------------------
  // Lookups
  // ---------------------------------------------------------------------------

  /** The index of the first item at or after k with tag t. */
  function FindItemFrom(items: seq<AbilityInputItem>, t: Tag, k: nat): (r: Option<nat>)
    requires k <= |items|
    ensures r.Some? ==> k <= r.value < |items| && items[r.value].inputTag == t
    ensures r.Some? ==> forall j :: k <= j < r.value ==> items[j].inputTag != t
    ensures r.None? ==> forall j :: k <= j < |items| ==> items[j].inputTag != t
    decreases |items| - k
  {
    if k == |items| then None
    else if items[k].inputTag == t then Some(k)
    else FindItemFrom(items, t, k + 1)
  }

  function FindItem(items: seq<AbilityInputItem>, t: Tag): Option<nat> {
    FindItemFrom(items, t, 0)
  }

  /** GetInputAbilityItem: the first item with tag t, or the default item when there is none. */
  function GetInputAbilityItem(items: seq<AbilityInputItem>, t: Tag): (r: AbilityInputItem)
    ensures (forall j :: 0 <= j < |items| ==> items[j].inputTag != t) ==> r == DefaultItem
    ensures forall k :: (0 <= k < |items| && items[k].inputTag == t && (forall j :: 0 <= j < k ==> items[j].inputTag != t)
                         ==> r == items[k])
  {
    match FindItem(items, t)
    case Some(k) => items[k]
    case None => DefaultItem
  }

  /** IsAbilityMappedToInput: a is listed in the first item with tag t (only that item is consulted). */
  function IsAbilityMappedToInput(items: seq<AbilityInputItem>, t: Tag, a: AbilityRef): (b: bool)
    ensures b <==> a in GetInputAbilityItem(items, t).abilities
  {
    match FindItem(items, t)
    case Some(k) => a in items[k].abilities
    case None => false
  }

  // ---------------------------------------------------------------------------
  // Well-formedness
  // ---------------------------------------------------------------------------

  /** Every tag is valid and appears once, and no item lists an ability twice. */
  ghost predicate WellFormed(items: seq<AbilityInputItem>) {
    && (forall i, j :: 0 <= i < j < |items| ==> items[i].inputTag != items[j].inputTag)
    && (forall k :: 0 <= k < |items| ==> IsValid(items[k].inputTag) && NoDuplicates(items[k].abilities))
  }

  /** In a well-formed list the first item with a tag is the only one, so a mapping can be read off any item. */
  lemma MappedInWellFormed(items: seq<AbilityInputItem>, t: Tag, a: AbilityRef)
    requires WellFormed(items)
    ensures IsAbilityMappedToInput(items, t, a)
      <==> exists k :: 0 <= k < |items| && items[k].inputTag == t && a in items[k].abilities
  {
    if k :| 0 <= k < |items| && items[k].inputTag == t && a in items[k].abilities {
      var r := FindItem(items, t);
      assert r.Some?;
      assert r.value == k;
    }
  }

  // ---------------------------------------------------------------------------
  // Adding
  // ---------------------------------------------------------------------------

  /**
   * The items after AddAbilityInputItem(item, replace) with an owner and a
   * valid tag: the first item with the tag gets the item's abilities (after
   * emptying its list in replace mode) without duplicates; with no such item
   * a new one is appended.
   */
  function WithItemAdded(items: seq<AbilityInputItem>, item: AbilityInputItem, replace: bool): seq<AbilityInputItem> {
    match FindItem(items, item.inputTag)
    case Some(k) =>
      items[k := AbilityInputItem(item.inputTag, AddUniqueAll(if replace then [] else items[k].abilities, item.abilities))]
    case None => items + [AbilityInputItem(item.inputTag, Deduplicated(item.abilities))]
  }

  /** AddAbilityInputItem on a container with an owner: an item with an invalid tag is ignored. */
  function WithValidItemAdded(items: seq<AbilityInputItem>, item: AbilityInputItem, replace: bool): seq<AbilityInputItem> {
    if IsValid(item.inputTag) then WithItemAdded(items, item, replace) else items
  }

  /**
   * Adding an item: the count grows by one exactly for a new tag, which is
   * appended last; the item for the tag then lists the new abilities
   * (after the old ones in append mode) and items for other tags read as
   * before; the list stays well formed.
   */
  lemma {:induction false} WithItemAddedSpec(items: seq<AbilityInputItem>, item: AbilityInputItem, replace: bool)
    requires IsValid(item.inputTag)
    ensures var r := WithItemAdded(items, item, replace);
      && |r| == |items| + (if FindItem(items, item.inputTag).None? then 1 else 0)
      && (FindItem(items, item.inputTag).None? ==> r[..|items|] == items && r[|items|].inputTag == item.inputTag)
      && GetInputAbilityItem(r, item.inputTag).abilities
        == AddUniqueAll(if replace then [] else GetInputAbilityItem(items, item.inputTag).abilities, item.abilities)
      && (forall t :: t != item.inputTag ==> GetInputAbilityItem(r, t) == GetInputAbilityItem(items, t))
      && (forall a :: a in item.abilities ==> IsAbilityMappedToInput(r, item.inputTag, a))
      && (WellFormed(items) ==> WellFormed(r))
  {
    var r := WithItemAdded(items, item, replace);
    var t0 := item.inputTag;
    var list := if replace then [] else GetInputAbilityItem(items, t0).abilities;
    match FindItem(items, t0) {
      case Some(k) =>
        assert list == if replace then [] else items[k].abilities;
        assert GetInputAbilityItem(r, t0) == r[k];
      case None =>
        assert GetInputAbilityItem(r, t0) == r[|items|];
    }
    WithItemAddedOthers(items, item, replace);
    if WellFormed(items) {
      WithItemAddedWellFormed(items, item, replace);
    }
    AddUniqueAllSpec(list, item.abilities);
  }

  /** Adding an item leaves the lookup of every other tag unchanged. */
  lemma WithItemAddedOthers(items: seq<AbilityInputItem>, item: AbilityInputItem, replace: bool)
    ensures forall t :: t != item.inputTag ==>
      GetInputAbilityItem(WithItemAdded(items, item, replace), t) == GetInputAbilityItem(items, t)
  {
    var r := WithItemAdded(items, item, replace);
    forall t | t != item.inputTag ensures GetInputAbilityItem(r, t) == GetInputAbilityItem(items, t) {
      match FindItem(items, item.inputTag) {
        case Some(k) =>
          FindItemSameTags(items, r, t, 0);
        case None =>
          match FindItem(items, t)
          case Some(k) =>
            assert r[k] == items[k];
          case None =>
      }
    }
  }

  /** Adding an item with a valid tag keeps a list well formed. */
  lemma WithItemAddedWellFormed(items: seq<AbilityInputItem>, item: AbilityInputItem, replace: bool)
    requires IsValid(item.inputTag) && WellFormed(items)
    ensures WellFormed(WithItemAdded(items, item, replace))
  {
    match FindItem(items, item.inputTag) {
      case Some(k) =>
        var list := if replace then [] else items[k].abilities;
        assert NoDuplicates(list);
        AddUniqueAllSpec(list, item.abilities);
      case None =>
        AddUniqueAllSpec([], item.abilities);
    }
  }

  /** Two lists with the same tags at the same positions find tag t at the same index. */
  lemma {:induction false} FindItemSameTags(a: seq<AbilityInputItem>, b: seq<AbilityInputItem>, t: Tag, k: nat)
    requires |a| == |b| && k <= |a|
    requires forall j :: 0 <= j < |a| ==> a[j].inputTag == b[j].inputTag
    ensures FindItemFrom(a, t, k) == FindItemFrom(b, t, k)
    decreases |a| - k
  {
    if k < |a| && a[k].inputTag != t {
      FindItemSameTags(a, b, t, k + 1);
    }
  }

  /** AddAbilityInputItem of every item of xs, in order. */
  function AddItems(items: seq<AbilityInputItem>, xs: seq<AbilityInputItem>, replace: bool): seq<AbilityInputItem>
    decreases |xs|
  {
    if xs == [] then items else AddItems(WithValidItemAdded(items, xs[0], replace), xs[1..], replace)
  }

  lemma AddItemsUnfold(items: seq<AbilityInputItem>, xs: seq<AbilityInputItem>, k: nat, replace: bool)
    requires k < |xs|
    ensures AddItems(items, xs[k..], replace) == AddItems(WithValidItemAdded(items, xs[k], replace), xs[k + 1..], replace)
  {
    assert xs[k..][0] == xs[k] && xs[k..][1..] == xs[k + 1..];
  }

  /** Adding items keeps a list well formed. */
  lemma {:induction false} AddItemsWellFormed(items: seq<AbilityInputItem>, xs: seq<AbilityInputItem>, replace: bool)
    requires WellFormed(items)
    ensures WellFormed(AddItems(items, xs, replace))
    decreases |xs|
  {
    if xs != [] {
      if IsValid(xs[0].inputTag) {
        WithItemAddedSpec(items, xs[0], replace);
      }
      AddItemsWellFormed(WithValidItemAdded(items, xs[0], replace), xs[1..], replace);
    }
  }

  /**
   * Adding, in append mode, the items of a well-formed list whose tags are
   * all new appends them unchanged; so adding a well-formed list to an empty
   * container reproduces it.
   */
  lemma {:induction false} AddFreshItems(items: seq<AbilityInputItem>, xs: seq<AbilityInputItem>)
    requires WellFormed(items + xs)
    ensures AddItems(items, xs, false) == items + xs
    decreases |xs|
  {
    if xs != [] {
      var x := xs[0];
      assert (items + xs)[|items|] == x;
      forall j | 0 <= j < |items| ensures items[j].inputTag != x.inputTag {
        assert (items + xs)[j] == items[j];
      }
      assert FindItem(items, x.inputTag).None?;
      DeduplicatedFixesDuplicateFree(x.abilities);
      assert WithValidItemAdded(items, x, false) == items + [x];
      assert items + [x] + xs[1..] == items + xs;
      AddFreshItems(items + [x], xs[1..]);
    }
  }

  lemma AddItemsReproduces(xs: seq<AbilityInputItem>)
    requires WellFormed(xs)
    ensures AddItems([], xs, false) == xs
  {
    assert [] + xs == xs;
    AddFreshItems([], xs);
  }

  // ---------------------------------------------------------------------------
  // Updating, removing
  // ---------------------------------------------------------------------------

  /** The single-ability items UpdateAbilityInputItem adds, one per input tag. */
  function SingleAbilityItems(tags: TagContainer, a: AbilityRef): (r: seq<AbilityInputItem>)
    ensures |r| == |tags| && forall k :: 0 <= k < |tags| ==> r[k] == AbilityInputItem(tags[k], [a])
  {
    if tags == [] then [] else [AbilityInputItem(tags[0], [a])] + SingleAbilityItems(tags[1..], a)
  }

  /** Ability a removed from every item whose tag the input tags do not match (parents included). */
  function StripUnmatched(items: seq<AbilityInputItem>, tags: TagContainer, a: AbilityRef): (r: seq<AbilityInputItem>)
    ensures |r| == |items|
    ensures forall k :: 0 <= k < |items| ==> r[k].inputTag == items[k].inputTag
    ensures forall k :: 0 <= k < |items| && HasTag(tags, items[k].inputTag) ==> r[k] == items[k]
    ensures forall k :: 0 <= k < |items| && !HasTag(tags, items[k].inputTag) ==>
      r[k].abilities == RemoveAll(items[k].abilities, a)
  {
    if items == [] then []
    else
      var x := items[0];
      [if HasTag(tags, x.inputTag) then x else x.(abilities := RemoveAll(x.abilities, a))]
        + StripUnmatched(items[1..], tags, a)
  }

  /** The items after UpdateAbilityInputItem(tags, a, replace) with an owner, a non-empty tag list and a non-null a. */
  function Updated(items: seq<AbilityInputItem>, tags: TagContainer, a: AbilityRef, replace: bool): seq<AbilityInputItem> {
    StripUnmatched(AddItems(items, SingleAbilityItems(tags, a), replace), tags, a)
  }

  /** Adding an item that lists a maps a under the item's tag and keeps every other mapping of a. */
  lemma WithItemAddedKeepsMapping(items: seq<AbilityInputItem>, item: AbilityInputItem, replace: bool, a: AbilityRef, t: Tag)
    requires IsValid(item.inputTag) && a in item.abilities
    requires t == item.inputTag || IsAbilityMappedToInput(items, t, a)
    ensures IsAbilityMappedToInput(WithItemAdded(items, item, replace), t, a)
  {
    if t == item.inputTag {
      WithItemAddedSpec(items, item, replace);
    } else {
      WithItemAddedOthers(items, item, replace);
    }
  }

  /** Once mapped under t, a stays mapped while single-a items are added; and it becomes mapped under every valid tag added. */
  lemma {:induction false} AddSingleItemsMaps(items: seq<AbilityInputItem>, tags: TagContainer, a: AbilityRef, replace: bool, t: Tag)
    requires (t in tags && IsValid(t)) || IsAbilityMappedToInput(items, t, a)
    ensures IsAbilityMappedToInput(AddItems(items, SingleAbilityItems(tags, a), replace), t, a)
    decreases |tags|
  {
    if tags != [] {
      var xs := SingleAbilityItems(tags, a);
      assert xs[1..] == SingleAbilityItems(tags[1..], a);
      var items1 := WithValidItemAdded(items, xs[0], replace);
      assert AddItems(items, xs, replace) == AddItems(items1, xs[1..], replace);
      if IsValid(tags[0]) && (t == tags[0] || IsAbilityMappedToInput(items, t, a)) {
        WithItemAddedKeepsMapping(items, xs[0], replace, a, t);
      } else if t in tags && t != tags[0] {
        var k :| 0 <= k < |tags| && tags[k] == t;
        assert tags[1..][k - 1] == t;
      }
      AddSingleItemsMaps(items1, tags[1..], a, replace, t);
    }
  }

  /** Stripping leaves the mapping under every tag the input tags match. */
  lemma StripKeepsMatched(items: seq<AbilityInputItem>, tags: TagContainer, a: AbilityRef, t: Tag)
    requires HasTag(tags, t)
    ensures GetInputAbilityItem(StripUnmatched(items, tags, a), t) == GetInputAbilityItem(items, t)
  {
    var r := StripUnmatched(items, tags, a);
    FindItemSameTags(items, r, t, 0);
  }

  /** After an update, a is mapped under every valid tag of the list. */
  lemma UpdatedMaps(items: seq<AbilityInputItem>, tags: TagContainer, a: AbilityRef, replace: bool, t: Tag)
    requires t in tags && IsValid(t)
    ensures IsAbilityMappedToInput(Updated(items, tags, a, replace), t, a)
  {
    var added := AddItems(items, SingleAbilityItems(tags, a), replace);
    AddSingleItemsMaps(items, tags, a, replace, t);
    assert MatchesTag(t, t);
    assert HasTag(tags, t);
    StripKeepsMatched(added, tags, a, t);
  }

  /** An update keeps every item list duplicate-free and every tag unique and valid. */
  lemma UpdatedWellFormed(items: seq<AbilityInputItem>, tags: TagContainer, a: AbilityRef, replace: bool)
    requires WellFormed(items)
    ensures WellFormed(Updated(items, tags, a, replace))
  {
    var added := AddItems(items, SingleAbilityItems(tags, a), replace);
    var r := StripUnmatched(added, tags, a);
    AddItemsWellFormed(items, SingleAbilityItems(tags, a), replace);
    forall k | 0 <= k < |r| ensures NoDuplicates(r[k].abilities) {
      assert NoDuplicates(added[k].abilities);
    }
  }

  /**
   * After an update, a is mapped under every valid input tag and listed in no
   * item whose tag the input tags do not match; the list stays well formed.
   */
  lemma UpdatedSpec(items: seq<AbilityInputItem>, tags: TagContainer, a: AbilityRef, replace: bool)
    ensures var r := Updated(items, tags, a, replace);
      && (forall t :: t in tags && IsValid(t) ==> IsAbilityMappedToInput(r, t, a))
      && (forall k :: 0 <= k < |r| && !HasTag(tags, r[k].inputTag) ==> a !in r[k].abilities)
      && (WellFormed(items) ==> WellFormed(r))
  {
    var r := Updated(items, tags, a, replace);
    forall t | t in tags && IsValid(t) ensures IsAbilityMappedToInput(r, t, a) {
      UpdatedMaps(items, tags, a, replace, t);
    }
    if WellFormed(items) {
      UpdatedWellFormed(items, tags, a, replace);
    }
  }

  /** Every ability of xs removed from every item with tag t. */
  function WithAbilitiesRemoved(items: seq<AbilityInputItem>, t: Tag, xs: seq<AbilityRef>): (r: seq<AbilityInputItem>)
    ensures |r| == |items|
    ensures forall k :: 0 <= k < |items| ==> r[k].inputTag == items[k].inputTag
    ensures forall k :: 0 <= k < |items| && items[k].inputTag != t ==> r[k] == items[k]
    ensures forall k :: 0 <= k < |items| && items[k].inputTag == t ==>
      r[k].abilities == RemoveEach(items[k].abilities, xs)
  {
    if items == [] then []
    else
      var x := items[0];
      [if x.inputTag == t then x.(abilities := RemoveEach(x.abilities, xs)) else x]
        + WithAbilitiesRemoved(items[1..], t, xs)
  }

  /** The items without those with tag t, the others in order. */
  function WithoutTag(items: seq<AbilityInputItem>, t: Tag): seq<AbilityInputItem> {
    if items == [] then []
    else (if items[0].inputTag == t then [] else [items[0]]) + WithoutTag(items[1..], t)
  }

  /** WithoutTag keeps exactly the items with another tag. */
  lemma {:induction false} WithoutTagMembers(items: seq<AbilityInputItem>, t: Tag)
    ensures forall x :: x in WithoutTag(items, t) <==> x in items && x.inputTag != t
    ensures |WithoutTag(items, t)| <= |items|
  {
    if items != [] {
      WithoutTagMembers(items[1..], t);
      assert forall x :: x in items <==> x == items[0] || x in items[1..];
    }
  }

  /** One step of the back-to-front removal: dropping item idx when it has tag t extends the filtered suffix. */
  lemma WithoutTagStep(o: seq<AbilityInputItem>, idx: nat, t: Tag, items: seq<AbilityInputItem>)
    requires idx < |o| && items == o[..idx + 1] + WithoutTag(o[idx + 1..], t)
    ensures idx < |items| && items[idx] == o[idx]
    ensures (if o[idx].inputTag == t then items[..idx] + items[idx + 1..] else items) == o[..idx] + WithoutTag(o[idx..], t)
  {
    assert o[idx..][0] == o[idx] && o[idx..][1..] == o[idx + 1..];
    var tail := WithoutTag(o[idx + 1..], t);
    assert o[..idx + 1] == o[..idx] + [o[idx]];
    assert items == o[..idx] + [o[idx]] + tail;
    assert items[..idx] == o[..idx] && items[idx + 1..] == tail;
  }

  /** Removing the items of tag t leaves no such item and every other tag reading as before. */
  lemma {:induction false} WithoutTagSpec(items: seq<AbilityInputItem>, t: Tag)
    ensures GetInputAbilityItem(WithoutTag(items, t), t) == DefaultItem
    ensures forall u :: u != t ==> GetInputAbilityItem(WithoutTag(items, t), u) == GetInputAbilityItem(items, u)
    ensures WellFormed(items) ==> WellFormed(WithoutTag(items, t))
  {
    var r := WithoutTag(items, t);
    WithoutTagMembers(items, t);
    forall j | 0 <= j < |r| ensures r[j].inputTag != t {
      assert r[j] in r;
    }
    forall u | u != t ensures GetInputAbilityItem(r, u) == GetInputAbilityItem(items, u) {
      WithoutTagLookup(items, t, u);
    }
    if WellFormed(items) {
      WithoutTagWellFormed(items, t);
    }
  }

  lemma {:induction false} WithoutTagLookup(items: seq<AbilityInputItem>, t: Tag, u: Tag)
    requires u != t
    ensures GetInputAbilityItem(WithoutTag(items, t), u) == GetInputAbilityItem(items, u)
  {
    if items != [] {
      var x := items[0];
      var tl := items[1..];
      var rest := WithoutTag(tl, t);
      assert items == [x] + tl;
      WithoutTagLookup(tl, t, u);
      if x.inputTag == u {
        assert WithoutTag(items, t) == [x] + rest;
        FrontLookup(x, rest);
        FrontLookup(x, tl);
      } else {
        ShiftedLookup(x, tl, u);
        if x.inputTag == t {
          assert WithoutTag(items, t) == rest;
        } else {
          assert WithoutTag(items, t) == [x] + rest;
          ShiftedLookup(x, rest, u);
        }
      }
    }
  }

  /** The first item with x's tag is x when x comes first. */
  lemma FrontLookup(x: AbilityInputItem, rest: seq<AbilityInputItem>)
    ensures GetInputAbilityItem([x] + rest, x.inputTag) == x
  {
    assert ([x] + rest)[0] == x;
  }

  /** The first item with tag u behind an item with another tag. */
  lemma ShiftedLookup(x: AbilityInputItem, rest: seq<AbilityInputItem>, u: Tag)
    requires x.inputTag != u
    ensures GetInputAbilityItem([x] + rest, u) == GetInputAbilityItem(rest, u)
  {
    var l := [x] + rest;
    match FindItem(rest, u)
    case Some(k) =>
      assert l[k + 1] == rest[k];
      assert forall j :: 0 <= j < k + 1 ==> l[j].inputTag != u by {
        forall j | 0 < j < k + 1 ensures l[j].inputTag != u { assert l[j] == rest[j - 1]; }
      }
    case None =>
      forall j | 0 < j < |l| ensures l[j].inputTag != u { assert l[j] == rest[j - 1]; }
  }

  lemma {:induction false} WithoutTagWellFormed(items: seq<AbilityInputItem>, t: Tag)
    requires WellFormed(items)
    ensures WellFormed(WithoutTag(items, t))
  {
    if items != [] {
      WithoutTagWellFormed(items[1..], t);
      WithoutTagMembers(items[1..], t);
      WithoutTagMembers(items, t);
      var rest := WithoutTag(items[1..], t);
      forall j | 0 <= j < |rest| ensures rest[j].inputTag != items[0].inputTag {
        assert rest[j] in rest;
        var k :| 0 <= k < |items[1..]| && items[1..][k] == rest[j];
        assert items[k + 1] == rest[j];
      }
      var r := WithoutTag(items, t);
      forall j | 0 <= j < |r| ensures IsValid(r[j].inputTag) && NoDuplicates(r[j].abilities) {
        assert r[j] in r;
      }
    }
  }

  // ---------------------------------------------------------------------------
  // The container
  // ---------------------------------------------------------------------------

  /** FAbilityInputContainer: the items and whether an owner is registered. */
  class AbilityInputContainer {
    var items: seq<AbilityInputItem>
    var hasOwner: bool

    constructor (initialItems: seq<AbilityInputItem>)
      ensures items == initialItems && !hasOwner
    {
      items := initialItems;
      hasOwner := false;
    }

    method RegisterWithOwner()
      modifies this`hasOwner
      ensures hasOwner
    {
      hasOwner := true;
    }

    /**
     * AddAbilityInputItem: without an owner or with an invalid tag nothing
     * happens; otherwise the first item with the tag is extended (or
     * replaced) or a new item appended.
     */
    method AddAbilityInputItem(item: AbilityInputItem, replace: bool)
      modifies this`items
      ensures items == if hasOwner then WithValidItemAdded(old(items), item, replace) else old(items)
    {
      if !hasOwner || !IsValid(item.inputTag) {
        return;
      }
      var k := 0;
      while k < |items|
        invariant 0 <= k <= |items| && items == old(items)
        invariant forall j :: 0 <= j < k ==> items[j].inputTag != item.inputTag
      {
        if items[k].inputTag == item.inputTag {
          var list := AppendUnique(if replace then [] else items[k].abilities, item.abilities);
          items := items[k := AbilityInputItem(item.inputTag, list)];
          return;
        }
        k := k + 1;
      }
      var list := AppendUnique([], item.abilities);
      items := items + [AbilityInputItem(item.inputTag, list)];
    }

    /**
     * UpdateAbilityInputItem: with an owner, a non-empty tag list and a
     * non-null ability, add the ability under every input tag, then remove
     * it from every item whose tag the input tags do not match.
     */
    method UpdateAbilityInputItem(tags: TagContainer, a: AbilityRef, replace: bool)
      modifies this`items
      ensures items == if hasOwner && |tags| > 0 && a != NullAbility then Updated(old(items), tags, a, replace) else old(items)
    {
      if !hasOwner || |tags| == 0 || a == NullAbility {
        return;
      }
      AddUnderEachTag(tags, a, replace);
      StripFromUnmatched(tags, a);
    }

    /** The first loop of UpdateAbilityInputItem: add a under each input tag in turn. */
    method AddUnderEachTag(tags: TagContainer, a: AbilityRef, replace: bool)
      requires hasOwner
      modifies this`items
      ensures items == AddItems(old(items), SingleAbilityItems(tags, a), replace)
    {
      var xs := SingleAbilityItems(tags, a);
      var k := 0;
      while k < |tags|
        invariant 0 <= k <= |tags|
        invariant AddItems(items, xs[k..], replace) == AddItems(old(items), xs, replace)
      {
        AddItemsUnfold(items, xs, k, replace);
        var item := NewInputItem(tags[k], [a]);
        DeduplicatedFixesDuplicateFree([a]);
        AddAbilityInputItem(item, replace);
        k := k + 1;
      }
      assert xs[k..] == [];
    }

    /** The second loop of UpdateAbilityInputItem: remove a from every item the input tags do not match. */
    method StripFromUnmatched(tags: TagContainer, a: AbilityRef)
      modifies this`items
      ensures items == StripUnmatched(old(items), tags, a)
    {
      ghost var target := StripUnmatched(items, tags, a);
      ghost var before := items;
      var i := 0;
      while i < |items|
        invariant 0 <= i <= |items| == |before| == |target|
        invariant forall j :: i <= j < |items| ==> items[j] == before[j]
        invariant forall j :: 0 <= j < i ==> items[j] == target[j]
      {
        if !HasTag(tags, items[i].inputTag) {
          items := items[i := items[i].(abilities := RemoveAll(items[i].abilities, a))];
        }
        i := i + 1;
      }
    }

    /** RemoveAbilityInputItem(item): with an owner and a valid tag, the listed abilities leave every item with the tag. */
    method RemoveAbilityInputItem(item: AbilityInputItem)
      modifies this`items
      ensures items == if hasOwner && IsValid(item.inputTag)
        then WithAbilitiesRemoved(old(items), item.inputTag, item.abilities) else old(items)
    {
      if !hasOwner || !IsValid(item.inputTag) {
        return;
      }
      ghost var target := WithAbilitiesRemoved(items, item.inputTag, item.abilities);
      ghost var before := items;
      var i := 0;
      while i < |items|
        invariant 0 <= i <= |items| == |before| == |target|
        invariant forall j :: i <= j < |items| ==> items[j] == before[j]
        invariant forall j :: 0 <= j < i ==> items[j] == target[j]
      {
        var x := items[i];
        if x.inputTag == item.inputTag {
          var list := RemoveListed(x.abilities, item.abilities);
          x := x.(abilities := list);
        }
        assert x == target[i];
        items := items[i := x];
        i := i + 1;
      }
      assert items == target;
    }

    /** RemoveAbilityInputItem(tag): with an owner and a valid tag, every item with the tag goes, back to front. */
    method RemoveAbilityInputItemByTag(t: Tag)
      modifies this`items
      ensures items == if hasOwner && IsValid(t) then WithoutTag(old(items), t) else old(items)
    {
      if !hasOwner || !IsValid(t) {
        return;
      }
      ghost var o := items;
      var idx := |items|;
      assert o[idx..] == [];
      while idx > 0
        invariant 0 <= idx <= |o|
        invariant items == o[..idx] + WithoutTag(o[idx..], t)
      {
        idx := idx - 1;
        WithoutTagStep(o, idx, t, items);
        if items[idx].inputTag == t {
          items := items[..idx] + items[idx + 1..];
        }
      }
      assert o[..0] == [];
    }

    /** Reset: with an owner, the container is emptied. */
    method Reset()
      modifies this`items
      ensures items == if hasOwner then [] else old(items)
    {
      if hasOwner {
        items := [];
      }
    }
  }
}
