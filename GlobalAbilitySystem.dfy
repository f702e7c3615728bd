/**
 * The world subsystem that grants abilities and applies effects to every
 * registered ability system component, and to each component that registers
 * later. Components are named by their identity; what the subsystem asks of
 * them (give, clear, apply, remove) is recorded as a call log, and each call
 * that grants something answers with the next handle of a counter.
 */
module GlobalAbilitySystem {
  import opened Common
  import opened AbilitySystem

  /** A globally applied ability class or effect class; each keeps its own list of handles. */
  datatype GlobalEntry = AbilityEntry(cls: Id) | EffectEntry(cls: Id)

  /** A call the subsystem makes on a component. */
  datatype GlobalCall =
    | GiveAbilityCall(asc: Id, ability: Id, handle: Handle)
    | ClearAbilityCall(asc: Id, handle: Handle)
    | ApplyEffectCall(asc: Id, effect: Id, level: real, handle: Handle)
    | RemoveEffectCall(asc: Id, handle: Handle)

  /** Global effects are applied at level 1. */
  const GlobalEffectLevel: real := 1.0

  /** One applied list: the handle each component received. */
  type Handles = map<Id, Handle>

  /** Every applied list, keyed by its ability or effect class. */
  type Applied = map<GlobalEntry, Handles>

  /** The call that grants entry e to component c, answered with handle h. */
  function AddCall(e: GlobalEntry, c: Id, h: Handle): GlobalCall {
    match e
    case AbilityEntry(cls) => GiveAbilityCall(c, cls, h)
    case EffectEntry(cls) => ApplyEffectCall(c, cls, GlobalEffectLevel, h)
  }

  /** The call that takes back what entry e granted to component c under handle h. */
  function RemoveCall(e: GlobalEntry, c: Id, h: Handle): GlobalCall {
    match e
    case AbilityEntry(_) => ClearAbilityCall(c, h)
    case EffectEntry(_) => RemoveEffectCall(c, h)
  }

  /**
   * The subsystem's invariant: no component is registered twice, every
   * applied list holds exactly the registered components, and every handle
   * was issued before next.
   */
  ghost predicate Consistent(applied: Applied, registered: seq<Id>, next: nat) {
    && NoDuplicates(registered)
    && (forall e, c :: e in applied ==> (c in applied[e] <==> c in registered))
    && (forall e, c :: e in applied && c in applied[e] ==> 0 <= applied[e][c] < next)
  }

  // ---------------------------------------------------------------------------
  // Applying one entry to every registered component
  // ---------------------------------------------------------------------------

  /**
   * Handles numbered in visiting order: cs[i] receives n + i. For a new entry
   * this is the list it ends with.
   */
  function Numbered<T(!new)>(cs: seq<T>, n: nat): map<T, Handle>
    decreases |cs|
  {
    if cs == [] then map[]
    else Numbered(cs[..|cs| - 1], n)[cs[|cs| - 1] := n + |cs| - 1]
  }

  /** The new list holds exactly the components of cs. */
  lemma {:induction false} NumberedKeys<T(!new)>(cs: seq<T>, n: nat)
    ensures forall c :: c in Numbered(cs, n) <==> c in cs
    decreases |cs|
  {
    if cs != [] {
      var p := cs[..|cs| - 1];
      NumberedKeys(p, n);
      assert forall c :: c in cs <==> c in p || c == cs[|cs| - 1];
    }
  }

  /** Numbering one more element gives it the next handle. */
  lemma NumberedSnoc<T(!new)>(cs: seq<T>, x: T, n: nat)
    ensures Numbered(cs + [x], n) == Numbered(cs, n)[x := n + |cs|]
  {
    assert (cs + [x])[..|cs|] == cs;
  }

  /** The handles of the new list run from n to below n + |cs|. */
  lemma {:induction false} NumberedBounds<T(!new)>(cs: seq<T>, n: nat)
    ensures forall c :: c in Numbered(cs, n) ==> n <= Numbered(cs, n)[c] < n + |cs|
    decreases |cs|
  {
    if cs != [] {
      var p := cs[..|cs| - 1];
      NumberedBounds(p, n);
      NumberedKeys(p, n);
    }
  }

  /** The calls that grant entry e to cs in order, handles counted from n. */
  function GrantCalls(e: GlobalEntry, cs: seq<Id>, n: nat): seq<GlobalCall>
    decreases |cs|
  {
    if cs == [] then []
    else GrantCalls(e, cs[..|cs| - 1], n) + [AddCall(e, cs[|cs| - 1], n + |cs| - 1)]
  }

  /** With no element twice, cs[i] holds handle n + i. */
  lemma {:induction false} NumberedAt<T(!new)>(cs: seq<T>, n: nat)
    requires NoDuplicates(cs)
    ensures forall i :: 0 <= i < |cs| ==> cs[i] in Numbered(cs, n) && Numbered(cs, n)[cs[i]] == n + i
    decreases |cs|
  {
    if cs != [] {
      var p := cs[..|cs| - 1];
      NumberedAt(p, n);
      forall i | 0 <= i < |cs| ensures cs[i] in Numbered(cs, n) && Numbered(cs, n)[cs[i]] == n + i {
        if i < |cs| - 1 {
          assert p[i] == cs[i] && cs[i] != cs[|cs| - 1];
        }
      }
    }
  }

  /** The grant calls are exactly one per component, cs[i] with handle n + i. */
  lemma {:induction false} GrantCallsSpec(e: GlobalEntry, cs: seq<Id>, n: nat)
    ensures |GrantCalls(e, cs, n)| == |cs|
    ensures forall call :: call in GrantCalls(e, cs, n) <==>
      exists i :: 0 <= i < |cs| && call == AddCall(e, cs[i], n + i)
    decreases |cs|
  {
    if cs != [] {
      var p := cs[..|cs| - 1];
      GrantCallsSpec(e, p, n);
      assert forall i :: 0 <= i < |p| ==> p[i] == cs[i];
    }
  }

  // ---------------------------------------------------------------------------
  // Removing one entry from every component
  // ---------------------------------------------------------------------------

  /** The calls that take back what list m of entry e granted, in the given key order. */
  function ClearCalls(e: GlobalEntry, m: Handles, order: seq<Id>): seq<GlobalCall>
    decreases |order|
  {
    if order == [] then []
    else
      var c := order[|order| - 1];
      ClearCalls(e, m, order[..|order| - 1]) + (if c in m then [RemoveCall(e, c, m[c])] else [])
  }

  /** The clear calls take back the handle of each component in the order, and nothing else. */
  lemma {:induction false} ClearCallsSpec(e: GlobalEntry, m: Handles, order: seq<Id>)
    requires forall c :: c in order ==> c in m
    ensures forall call :: call in ClearCalls(e, m, order) <==>
      exists i :: 0 <= i < |order| && call == RemoveCall(e, order[i], m[order[i]])
    decreases |order|
  {
    if order != [] {
      var p := order[..|order| - 1];
      ClearCallsSpec(e, m, p);
      assert forall i :: 0 <= i < |p| ==> p[i] == order[i];
    }
  }

  /**
   * Removing an entry from all components, in whatever order its list is
   * visited, takes back exactly the handles that applying it granted.
   */
  lemma RemoveUndoesApply(e: GlobalEntry, cs: seq<Id>, n: nat, order: seq<Id>)
    requires NoDuplicates(cs)
    requires forall c :: c in order <==> c in cs
    ensures forall c, h :: RemoveCall(e, c, h) in ClearCalls(e, Numbered(cs, n), order) <==>
      AddCall(e, c, h) in GrantCalls(e, cs, n)
  {
    var m := Numbered(cs, n);
    NumberedAt(cs, n);
    NumberedKeys(cs, n);
    ClearCallsSpec(e, m, order);
    GrantCallsSpec(e, cs, n);
    forall c, h | RemoveCall(e, c, h) in ClearCalls(e, m, order) ensures AddCall(e, c, h) in GrantCalls(e, cs, n) {
      RemovedWasGranted(e, cs, n, order, c, h);
    }
    forall c, h | AddCall(e, c, h) in GrantCalls(e, cs, n) ensures RemoveCall(e, c, h) in ClearCalls(e, m, order) {
      GrantedIsRemoved(e, cs, n, order, c, h);
    }
  }

  /** A handle the clear calls take back is one the grant calls issued. */
  lemma RemovedWasGranted(e: GlobalEntry, cs: seq<Id>, n: nat, order: seq<Id>, c: Id, h: Handle)
    requires NoDuplicates(cs)
    requires forall c :: c in order <==> c in cs
    requires forall c :: c in Numbered(cs, n) <==> c in cs
    requires forall i :: 0 <= i < |cs| ==> cs[i] in Numbered(cs, n) && Numbered(cs, n)[cs[i]] == n + i
    requires exists i :: 0 <= i < |order| && RemoveCall(e, c, h) == RemoveCall(e, order[i], Numbered(cs, n)[order[i]])
    ensures exists j :: 0 <= j < |cs| && AddCall(e, c, h) == AddCall(e, cs[j], n + j)
  {
    var m := Numbered(cs, n);
    var i :| 0 <= i < |order| && RemoveCall(e, c, h) == RemoveCall(e, order[i], m[order[i]]);
    assert c == order[i] && h == m[c];
    var j :| 0 <= j < |cs| && cs[j] == c;
    assert AddCall(e, c, h) == AddCall(e, cs[j], n + j);
  }

  /** A handle the grant calls issued is one the clear calls take back. */
  lemma GrantedIsRemoved(e: GlobalEntry, cs: seq<Id>, n: nat, order: seq<Id>, c: Id, h: Handle)
    requires NoDuplicates(cs)
    requires forall c :: c in order <==> c in cs
    requires forall c :: c in Numbered(cs, n) <==> c in cs
    requires forall i :: 0 <= i < |cs| ==> cs[i] in Numbered(cs, n) && Numbered(cs, n)[cs[i]] == n + i
    requires exists j :: 0 <= j < |cs| && AddCall(e, c, h) == AddCall(e, cs[j], n + j)
    ensures exists i :: 0 <= i < |order| && RemoveCall(e, c, h) == RemoveCall(e, order[i], Numbered(cs, n)[order[i]])
  {
    var m := Numbered(cs, n);
    var j :| 0 <= j < |cs| && AddCall(e, c, h) == AddCall(e, cs[j], n + j);
    assert c == cs[j] && h == m[c] && c in cs;
    var i :| 0 <= i < |order| && order[i] == c;
    assert RemoveCall(e, c, h) == RemoveCall(e, order[i], m[order[i]]);
  }

  /** Granting to the next component of a list without duplicates. */
  lemma GrantStep(e: GlobalEntry, cs: seq<Id>, i: nat, n: nat)
    requires NoDuplicates(cs) && i < |cs|
    ensures cs[i] !in Numbered(cs[..i], n)
    ensures Numbered(cs[..i + 1], n) == Granted(Numbered(cs[..i], n), cs[i], n + i)
    ensures RegisterOne(e, Numbered(cs[..i], n), cs[i], n + i) == [AddCall(e, cs[i], n + i)]
    ensures GrantCalls(e, cs[..i + 1], n) == GrantCalls(e, cs[..i], n) + [AddCall(e, cs[i], n + i)]
  {
    assert cs[..i + 1] == cs[..i] + [cs[i]];
    NumberedSnoc(cs[..i], cs[i], n);
    NumberedKeys(cs[..i], n);
    assert cs[i] !in cs[..i];
  }

  /** Applying a new entry keeps the invariant. */
  lemma ConsistentAfterApply(applied: Applied, registered: seq<Id>, n: nat, e: GlobalEntry)
    requires Consistent(applied, registered, n)
    ensures Consistent(applied[e := Numbered(registered, n)], registered, n + |registered|)
  {
    NumberedBounds(registered, n);
    NumberedKeys(registered, n);
  }

  // ---------------------------------------------------------------------------
  // Registering a component
  // ---------------------------------------------------------------------------

  /** List m once component c holds handle h. */
  function Granted(m: Handles, c: Id, h: Handle): Handles {
    m[c := h]
  }

  /**
   * The calls AddToAbilitySystemComponent makes on c for entry e with list m:
   * take back what c already holds, then grant afresh with handle h.
   */
  function RegisterOne(e: GlobalEntry, m: Handles, c: Id, h: Handle): seq<GlobalCall> {
    (if c in m then [RemoveCall(e, c, m[c])] else []) + [AddCall(e, c, h)]
  }

  /** The calls registering c makes, visiting the entries in order, handles counted from n. */
  function RegisterCalls(applied: Applied, order: seq<GlobalEntry>, c: Id, n: nat): seq<GlobalCall>
    requires forall e :: e in order ==> e in applied
    decreases |order|
  {
    if order == [] then []
    else
      var e := order[|order| - 1];
      RegisterCalls(applied, order[..|order| - 1], c, n) + RegisterOne(e, applied[e], c, n + |order| - 1)
  }

  /** The lists once c has been added to the entries in order, handles counted from n. */
  function AfterRegister(applied: Applied, order: seq<GlobalEntry>, c: Id, n: nat): Applied {
    Regranted(applied, Numbered(order, n), c)
  }

  /** The lists once c holds handle hs[e] under every entry e of hs. */
  function Regranted(applied: Applied, hs: map<GlobalEntry, Handle>, c: Id): Applied {
    map e | e in applied :: if e in hs then Granted(applied[e], c, hs[e]) else applied[e]
  }

  /** Granting c under one more entry e updates that entry's list alone. */
  lemma RegrantedStep(a0: Applied, hs: map<GlobalEntry, Handle>, e: GlobalEntry, c: Id, h: Handle)
    requires e in a0 && e !in hs
    ensures Regranted(a0, hs, c)[e] == a0[e]
    ensures Regranted(a0, hs[e := h], c) == Regranted(a0, hs, c)[e := Granted(a0[e], c, h)]
  {
  }

  /**
   * Registering c gives entry order[i] the handle n + i for c, leaves every
   * other component's handle alone, and leaves the entries not yet visited
   * untouched.
   */
  lemma AfterRegisterSpec(applied: Applied, order: seq<GlobalEntry>, c: Id, n: nat)
    requires forall e :: e in order ==> e in applied
    requires NoDuplicates(order)
    ensures forall e :: e in applied && e !in order ==> AfterRegister(applied, order, c, n)[e] == applied[e]
    ensures forall i :: 0 <= i < |order| ==>
      AfterRegister(applied, order, c, n)[order[i]] == applied[order[i]][c := n + i]
  {
    NumberedAt(order, n);
    NumberedKeys(order, n);
  }

  /**
   * Each visited entry takes back what c held under it, if anything, and
   * grants c afresh; no call concerns another component or another entry.
   */
  lemma {:induction false} RegisterCallsSpec(applied: Applied, order: seq<GlobalEntry>, c: Id, n: nat)
    requires forall e :: e in order ==> e in applied
    ensures forall call :: call in RegisterCalls(applied, order, c, n) <==>
      exists i :: 0 <= i < |order| && (
        || call == AddCall(order[i], c, n + i)
        || (c in applied[order[i]] && call == RemoveCall(order[i], c, applied[order[i]][c])))
    decreases |order|
  {
    if order != [] {
      var p := order[..|order| - 1];
      RegisterCallsSpec(applied, p, c, n);
      assert forall i :: 0 <= i < |p| ==> p[i] == order[i];
    }
  }

  /** Registering c, in any order over all entries, keeps the invariant. */
  lemma ConsistentAfterRegister(applied: Applied, registered: seq<Id>, n: nat, order: seq<GlobalEntry>, c: Id)
    requires Consistent(applied, registered, n)
    requires NoDuplicates(order)
    requires forall e :: e in order <==> e in applied
    ensures Consistent(AfterRegister(applied, order, c, n), AddUnique(registered, c), n + |order|)
  {
    var r := AfterRegister(applied, order, c, n);
    AfterRegisterSpec(applied, order, c, n);
    forall e | e in r
      ensures forall x :: x in r[e] <==> x in AddUnique(registered, c)
      ensures forall x :: x in r[e] ==> 0 <= r[e][x] < n + |order|
    {
      var i :| 0 <= i < |order| && order[i] == e;
      assert r[e] == applied[e][c := n + i];
    }
  }

  // ---------------------------------------------------------------------------
  // Unregistering a component
  // ---------------------------------------------------------------------------

  /** The lists once c has been removed from every entry. */
  function Unregistered(applied: Applied, c: Id): (r: Applied)
    ensures r.Keys == applied.Keys
    ensures forall e :: e in r ==> c !in r[e] && r[e].Keys == applied[e].Keys - {c}
  {
    map e | e in applied :: applied[e] - {c}
  }

  /** The lists once c has been removed from the entries in done. */
  function PartlyUnregistered(applied: Applied, done: seq<GlobalEntry>, c: Id): Applied {
    map e | e in applied :: if e in done then applied[e] - {c} else applied[e]
  }

  /** Once every entry has been visited, c is gone from all of them. */
  lemma UnregisteredAll(applied: Applied, order: seq<GlobalEntry>, c: Id)
    requires forall e :: e in applied ==> e in order
    ensures PartlyUnregistered(applied, order, c) == Unregistered(applied, c)
  {
  }

  /** The calls unregistering c makes, visiting the entries in order. */
  function UnregisterCalls(applied: Applied, order: seq<GlobalEntry>, c: Id): seq<GlobalCall>
    requires forall e :: e in order ==> e in applied
    decreases |order|
  {
    if order == [] then []
    else
      var e := order[|order| - 1];
      UnregisterCalls(applied, order[..|order| - 1], c)
        + (if c in applied[e] then [RemoveCall(e, c, applied[e][c])] else [])
  }

  /** Unregistering takes back every handle c holds and nothing else. */
  lemma {:induction false} UnregisterCallsSpec(applied: Applied, order: seq<GlobalEntry>, c: Id)
    requires forall e :: e in order ==> e in applied
    ensures forall call :: call in UnregisterCalls(applied, order, c) <==>
      exists i :: 0 <= i < |order| && c in applied[order[i]] && call == RemoveCall(order[i], c, applied[order[i]][c])
    decreases |order|
  {
    if order != [] {
      var p := order[..|order| - 1];
      UnregisterCallsSpec(applied, p, c);
      assert forall i :: 0 <= i < |p| ==> p[i] == order[i];
    }
  }

  /** Unregistering keeps the invariant. */
  lemma ConsistentAfterUnregister(applied: Applied, registered: seq<Id>, n: nat, c: Id)
    requires Consistent(applied, registered, n)
    ensures Consistent(Unregistered(applied, c), RemoveAll(registered, c), n)
  {
  }

  /** Appending c to a list without it and then removing every c gives the list back. */
  lemma {:induction false} RemoveAllAppended(s: seq<Id>, c: Id)
    requires c !in s
    ensures RemoveAll(s + [c], c) == s
    decreases |s|
  {
    if s != [] {
      assert (s + [c])[1..] == s[1..] + [c];
      RemoveAllAppended(s[1..], c);
    }
  }

  /**
   * Registering a component that was not registered and then unregistering
   * it gives back the lists and the registrations as they were.
   */
  lemma RegisterThenUnregister(applied: Applied, registered: seq<Id>, n: nat, order: seq<GlobalEntry>, c: Id)
    requires Consistent(applied, registered, n)
    requires c !in registered
    requires NoDuplicates(order)
    requires forall e :: e in order <==> e in applied
    ensures Unregistered(AfterRegister(applied, order, c, n), c) == applied
    ensures RemoveAll(AddUnique(registered, c), c) == registered
  {
    UnregisterRegranted(applied, Numbered(order, n), c);
    RemoveAllAppended(registered, c);
  }

  /** Taking c out of every list undoes granting it to lists that did not hold it. */
  lemma UnregisterRegranted(applied: Applied, hs: map<GlobalEntry, Handle>, c: Id)
    requires forall e :: e in applied ==> c !in applied[e]
    ensures Unregistered(Regranted(applied, hs, c), c) == applied
  {
    var r := Regranted(applied, hs, c);
    forall e | e in applied ensures r[e] - {c} == applied[e] {
      if e in hs {
        assert r[e] - {c} == applied[e][c := hs[e]] - {c};
      }
    }
  }

  /**
   * A visit order made of one loop over the ability entries followed by one
   * loop over the effect entries puts every ability entry first.
   */
  lemma AbilitiesFirst(first: seq<GlobalEntry>, order: seq<GlobalEntry>, abilities: set<GlobalEntry>,
                       effects: set<GlobalEntry>)
    requires forall e :: e in abilities ==> e.AbilityEntry?
    requires forall e :: e in effects ==> e.EffectEntry?
    requires forall e :: e in first <==> e in abilities
    requires |first| <= |order| && order[..|first|] == first
    requires NoDuplicates(order)
    requires forall e :: e in order <==> e in first || e in effects
    ensures forall i, j :: 0 <= i < j < |order| && order[j].AbilityEntry? ==> order[i].AbilityEntry?
  {
    forall k | 0 <= k < |first| ensures order[k].AbilityEntry? {
      assert order[k] == first[k];
    }
    forall k | |first| <= k < |order| ensures order[k].EffectEntry? {
      forall m | 0 <= m < |first| ensures first[m] != order[k] {
        assert first[m] == order[m];
      }
    }
  }

  /** Before any entry is visited, registering has changed nothing. */
  lemma RegisterNothing(applied: Applied, c: Id, n: nat)
    ensures AfterRegister(applied, [], c, n) == applied
    ensures RegisterCalls(applied, [], c, n) == []
  {
  }

  /** One step of registering: entry e, not yet visited, gets c with the next handle. */
  lemma RegisterStep(a0: Applied, order: seq<GlobalEntry>, e: GlobalEntry, c: Id, n0: nat)
    requires forall x :: x in order ==> x in a0
    requires NoDuplicates(order) && e in a0 && e !in order
    ensures AfterRegister(a0, order, c, n0)[e] == a0[e]
    ensures AfterRegister(a0, order + [e], c, n0)
      == AfterRegister(a0, order, c, n0)[e := Granted(a0[e], c, n0 + |order|)]
    ensures NoDuplicates(order + [e])
    ensures forall x :: x in order + [e] <==> x in order || x == e
  {
    NumberedSnoc(order, e, n0);
    NumberedKeys(order, n0);
    RegrantedStep(a0, Numbered(order, n0), e, c, n0 + |order|);
  }

  /** The calls of one more registering step follow the calls made so far. */
  lemma RegisterCallsSnoc(a0: Applied, order: seq<GlobalEntry>, e: GlobalEntry, c: Id, n0: nat)
    requires forall x :: x in order ==> x in a0
    requires e in a0
    ensures RegisterCalls(a0, order + [e], c, n0)
      == RegisterCalls(a0, order, c, n0) + RegisterOne(e, a0[e], c, n0 + |order|)
  {
    assert (order + [e])[..|order|] == order;
  }

  /** One step of unregistering: entry e, not yet visited, loses c. */
  lemma UnregisterStep(a0: Applied, order: seq<GlobalEntry>, e: GlobalEntry, c: Id)
    requires forall x :: x in order ==> x in a0
    requires NoDuplicates(order) && e in a0 && e !in order
    ensures PartlyUnregistered(a0, order, c)[e] == a0[e]
    ensures PartlyUnregistered(a0, order + [e], c) == PartlyUnregistered(a0, order, c)[e := a0[e] - {c}]
    ensures UnregisterCalls(a0, order + [e], c)
      == UnregisterCalls(a0, order, c) + (if c in a0[e] then [RemoveCall(e, c, a0[e][c])] else [])
    ensures NoDuplicates(order + [e])
    ensures forall x :: x in order + [e] <==> x in order || x == e
  {
    assert (order + [e])[..|order|] == order;
  }

  // ---------------------------------------------------------------------------
  // One applied list (FGlobalAppliedAbilityList / FGlobalAppliedEffectList).
  // The list is a value the subsystem keeps in its map, so each operation takes
  // the list and returns the new list with the calls it made.
  // ---------------------------------------------------------------------------

  /** AddToAbilitySystemComponent: takes back what c holds, then grants afresh with handle h. */
  method AddToComponent(e: GlobalEntry, m: Handles, c: Id, h: Handle) returns (m': Handles, calls: seq<GlobalCall>)
    ensures m' == Granted(m, c, h)
    ensures calls == RegisterOne(e, m, c, h)
  {
    m', calls := m, [];
    if c in m' {
      var removed;
      m', removed := RemoveFromComponent(e, m', c);
      calls := calls + removed;
      assert m'[c := h] == m[c := h];
    }
    calls := calls + [AddCall(e, c, h)];
    m' := m'[c := h];
  }

  /** RemoveFromAbilitySystemComponent: takes back what c holds, if anything. */
  method RemoveFromComponent(e: GlobalEntry, m: Handles, c: Id) returns (m': Handles, calls: seq<GlobalCall>)
    ensures m' == m - {c}
    ensures c in m ==> calls == [RemoveCall(e, c, m[c])]
    ensures c !in m ==> calls == []
  {
    if c in m {
      calls := [RemoveCall(e, c, m[c])];
      m' := m - {c};
    } else {
      calls := [];
      m' := m;
    }
  }

  /**
   * RemoveFromAll: takes back every handle of the list, in the list's own
   * order, after which the list is empty.
   */
  method RemoveFromAll(e: GlobalEntry, m: Handles) returns (calls: seq<GlobalCall>, ghost order: seq<Id>)
    ensures NoDuplicates(order)
    ensures forall c :: c in order <==> c in m
    ensures calls == ClearCalls(e, m, order)
  {
    calls, order := [], [];
    var todo := m.Keys;
    while todo != {}
      invariant todo <= m.Keys
      invariant NoDuplicates(order)
      invariant forall c :: c in order <==> c in m && c !in todo
      invariant calls == ClearCalls(e, m, order)
      decreases todo
    {
      var c := Pick(todo);
      todo := todo - {c};
      calls := calls + [RemoveCall(e, c, m[c])];
      assert (order + [c])[..|order|] == order;
      order := order + [c];
    }
  }

  /** The loop of ApplyAbilityToAll / ApplyEffectToAll: grants a new entry to every component of cs. */
  method AddToEveryComponent(e: GlobalEntry, cs: seq<Id>, n: nat) returns (m: Handles, calls: seq<GlobalCall>)
    requires NoDuplicates(cs)
    ensures m == Numbered(cs, n)
    ensures calls == GrantCalls(e, cs, n)
  {
    m, calls := map[], [];
    ghost var done: seq<Id> := [];
    var i := 0;
    while i < |cs|
      invariant 0 <= i <= |cs|
      invariant done == cs[..i]
      invariant m == Numbered(done, n)
      invariant calls == GrantCalls(e, done, n)
    {
      var c := cs[i];
      GrantStep(e, cs, i, n);
      var added;
      m, added := AddToComponent(e, m, c, n + i);
      calls := calls + added;
      done := cs[..i + 1];
      i := i + 1;
    }
    assert done == cs;
  }

  /**
   * One loop of RegisterAbilitySystemComponent: adds c to each entry of todo,
   * in the map's own order, continuing from the entries in done.
   */
  method AddToEach(applied: Applied, next: nat, calls: seq<GlobalCall>, todo: set<GlobalEntry>, c: Id,
                   ghost a0: Applied, ghost n0: nat, ghost calls0: seq<GlobalCall>, ghost done: seq<GlobalEntry>)
    returns (applied': Applied, next': nat, calls': seq<GlobalCall>, ghost order: seq<GlobalEntry>)
    requires todo <= a0.Keys
    requires NoDuplicates(done)
    requires forall e :: e in done ==> e in a0 && e !in todo
    requires applied == AfterRegister(a0, done, c, n0)
    requires next == n0 + |done|
    requires calls == calls0 + RegisterCalls(a0, done, c, n0)
    ensures |done| <= |order| && order[..|done|] == done
    ensures NoDuplicates(order)
    ensures forall e :: e in order <==> e in done || e in todo
    ensures applied' == AfterRegister(a0, order, c, n0)
    ensures next' == n0 + |order|
    ensures calls' == calls0 + RegisterCalls(a0, order, c, n0)
  {
    applied', next', calls', order := applied, next, calls, done;
    var rest := todo;
    while rest != {}
      invariant rest <= todo
      invariant |done| <= |order| && order[..|done|] == done
      invariant NoDuplicates(order)
      invariant forall e :: e in order <==> e in done || (e in todo && e !in rest)
      invariant RegisteredSoFar(applied', next', calls', c, a0, n0, calls0, order)
      decreases rest
    {
      var e := Pick(rest);
      rest := rest - {e};
      applied', next', calls', order := AddToNext(applied', next', calls', e, c, a0, n0, calls0, order);
    }
  }

  ghost predicate RegisteredSoFar(applied: Applied, next: nat, calls: seq<GlobalCall>, c: Id,
                                  a0: Applied, n0: nat, calls0: seq<GlobalCall>, order: seq<GlobalEntry>)
    requires forall x :: x in order ==> x in a0
  {
    && applied == AfterRegister(a0, order, c, n0)
    && next == n0 + |order|
    && calls == calls0 + RegisterCalls(a0, order, c, n0)
  }

  /** Both loops of RegisterAbilitySystemComponent: the ability entries, then the effect entries. */
  method AddToEveryEntry(applied: Applied, next: nat, calls: seq<GlobalCall>, c: Id)
    returns (applied': Applied, next': nat, calls': seq<GlobalCall>, ghost order: seq<GlobalEntry>)
    ensures NoDuplicates(order) && (forall e :: e in order <==> e in applied)
    ensures forall i, j :: 0 <= i < j < |order| && order[j].AbilityEntry? ==> order[i].AbilityEntry?
    ensures applied' == AfterRegister(applied, order, c, next)
    ensures next' == next + |order|
    ensures calls' == calls + RegisterCalls(applied, order, c, next)
  {
    var abilities := set e | e in applied && e.AbilityEntry?;
    var effects := set e | e in applied && e.EffectEntry?;
    ghost var first;
    RegisterNothing(applied, c, next);
    applied', next', calls', first := AddToEach(applied, next, calls, abilities, c, applied, next, calls, []);
    applied', next', calls', order := AddToEach(applied', next', calls', effects, c, applied, next, calls, first);
    AbilitiesFirst(first, order, abilities, effects);
  }

  /** One pass of the loop of RegisterAbilitySystemComponent: adds c to entry e with the next handle. */
  method AddToNext(applied: Applied, next: nat, calls: seq<GlobalCall>, e: GlobalEntry, c: Id,
                   ghost a0: Applied, ghost n0: nat, ghost calls0: seq<GlobalCall>, ghost order: seq<GlobalEntry>)
    returns (applied': Applied, next': nat, calls': seq<GlobalCall>, ghost order': seq<GlobalEntry>)
    requires forall x :: x in order ==> x in a0
    requires NoDuplicates(order) && e in a0 && e !in order
    requires RegisteredSoFar(applied, next, calls, c, a0, n0, calls0, order)
    ensures order' == order + [e] && NoDuplicates(order')
    ensures forall x :: x in order' <==> x in order || x == e
    ensures RegisteredSoFar(applied', next', calls', c, a0, n0, calls0, order')
  {
    RegisterStep(a0, order, e, c, n0);
    RegisterCallsSnoc(a0, order, e, c, n0);
    var m, added := AddToComponent(e, applied[e], c, next);
    assert calls + added == calls0 + (RegisterCalls(a0, order, c, n0) + added);
    applied' := applied[e := m];
    calls' := calls + added;
    next' := next + 1;
    order' := order + [e];
  }

  /** One loop of UnregisterAbilitySystemComponent: takes c out of each entry of todo. */
  method RemoveFromEach(applied: Applied, calls: seq<GlobalCall>, todo: set<GlobalEntry>, c: Id,
                        ghost a0: Applied, ghost calls0: seq<GlobalCall>, ghost done: seq<GlobalEntry>)
    returns (applied': Applied, calls': seq<GlobalCall>, ghost order: seq<GlobalEntry>)
    requires todo <= a0.Keys
    requires NoDuplicates(done)
    requires forall e :: e in done ==> e in a0 && e !in todo
    requires applied == PartlyUnregistered(a0, done, c)
    requires calls == calls0 + UnregisterCalls(a0, done, c)
    ensures |done| <= |order| && order[..|done|] == done
    ensures NoDuplicates(order)
    ensures forall e :: e in order <==> e in done || e in todo
    ensures applied' == PartlyUnregistered(a0, order, c)
    ensures calls' == calls0 + UnregisterCalls(a0, order, c)
  {
    applied', calls', order := applied, calls, done;
    var rest := todo;
    while rest != {}
      invariant rest <= todo
      invariant |done| <= |order| && order[..|done|] == done
      invariant NoDuplicates(order)
      invariant forall e :: e in order <==> e in done || (e in todo && e !in rest)
      invariant applied' == PartlyUnregistered(a0, order, c)
      invariant calls' == calls0 + UnregisterCalls(a0, order, c)
      decreases rest
    {
      var e := Pick(rest);
      rest := rest - {e};
      UnregisterStep(a0, order, e, c);
      var m, removed := RemoveFromComponent(e, applied'[e], c);
      applied' := applied'[e := m];
      calls' := calls' + removed;
      order := order + [e];
    }
  }

  /** Both loops of UnregisterAbilitySystemComponent: the ability entries, then the effect entries. */
  method RemoveFromEveryEntry(applied: Applied, calls: seq<GlobalCall>, c: Id)
    returns (applied': Applied, calls': seq<GlobalCall>, ghost order: seq<GlobalEntry>)
    ensures NoDuplicates(order) && (forall e :: e in order <==> e in applied)
    ensures forall i, j :: 0 <= i < j < |order| && order[j].AbilityEntry? ==> order[i].AbilityEntry?
    ensures applied' == Unregistered(applied, c)
    ensures calls' == calls + UnregisterCalls(applied, order, c)
  {
    var abilities := set e | e in applied && e.AbilityEntry?;
    var effects := set e | e in applied && e.EffectEntry?;
    assert PartlyUnregistered(applied, [], c) == applied;
    ghost var first;
    applied', calls', first := RemoveFromEach(applied, calls, abilities, c, applied, calls, []);
    applied', calls', order := RemoveFromEach(applied', calls', effects, c, applied, calls, first);
    UnregisteredAll(applied, order, c);
    AbilitiesFirst(first, order, abilities, effects);
  }

  // ---------------------------------------------------------------------------
  // The subsystem
  // ---------------------------------------------------------------------------

  class GlobalAbilitySystem {
    /** The applied ability lists and the applied effect lists. */
    var applied: Applied
    var registered: seq<Id>
    /** The handle the next grant is answered with. */
    var nextHandle: nat
    /** The calls made on components so far. */
    var log: seq<GlobalCall>

    ghost predicate Valid()
      reads this
    {
      Consistent(applied, registered, nextHandle)
    }

    constructor()
      ensures applied == map[] && registered == [] && log == []
      ensures Valid()
    {
      applied := map[];
      registered := [];
      nextHandle := 0;
      log := [];
    }

    /** Adds a new entry and grants it to every registered component, in registration order. */
    method ApplyToAll(e: GlobalEntry)
      requires Valid()
      modifies this`applied, this`nextHandle, this`log
      ensures Valid()
      ensures e in old(applied) ==> applied == old(applied) && log == old(log)
      ensures e !in old(applied) ==>
        && applied == old(applied)[e := Numbered(registered, old(nextHandle))]
        && log == old(log) + GrantCalls(e, registered, old(nextHandle))
    {
      if e in applied {
        return;
      }
      var m, calls := AddToEveryComponent(e, registered, nextHandle);
      ConsistentAfterApply(applied, registered, nextHandle, e);
      applied := applied[e := m];
      nextHandle := nextHandle + |registered|;
      log := log + calls;
    }

    /** ApplyAbilityToAll: a null class or one already applied changes nothing. */
    method ApplyAbilityToAll(ability: Option<Id>)
      requires Valid()
      modifies this`applied, this`nextHandle, this`log
      ensures Valid()
      ensures ability.None? ==> applied == old(applied) && log == old(log)
      ensures ability.Some? ==> (
        var e := AbilityEntry(ability.value);
        && (e in old(applied) ==> applied == old(applied) && log == old(log))
        && (e !in old(applied) ==>
          && applied == old(applied)[e := Numbered(registered, old(nextHandle))]
          && log == old(log) + GrantCalls(e, registered, old(nextHandle))))
    {
      if ability.Some? {
        ApplyToAll(AbilityEntry(ability.value));
      }
    }

    /** ApplyEffectToAll: a null class or one already applied changes nothing. */
    method ApplyEffectToAll(effect: Option<Id>)
      requires Valid()
      modifies this`applied, this`nextHandle, this`log
      ensures Valid()
      ensures effect.None? ==> applied == old(applied) && log == old(log)
      ensures effect.Some? ==> (
        var e := EffectEntry(effect.value);
        && (e in old(applied) ==> applied == old(applied) && log == old(log))
        && (e !in old(applied) ==>
          && applied == old(applied)[e := Numbered(registered, old(nextHandle))]
          && log == old(log) + GrantCalls(e, registered, old(nextHandle))))
    {
      if effect.Some? {
        ApplyToAll(EffectEntry(effect.value));
      }
    }

    /** Takes an entry back from every component and forgets it; an absent entry changes nothing. */
    method RemoveEntryFromAll(e: GlobalEntry) returns (ghost order: seq<Id>)
      requires Valid()
      modifies this`applied, this`log
      ensures Valid()
      ensures applied == old(applied) - {e}
      ensures e !in old(applied) ==> log == old(log)
      ensures e in old(applied) ==>
        && NoDuplicates(order)
        && (forall c :: c in order <==> c in registered)
        && log == old(log) + ClearCalls(e, old(applied)[e], order)
    {
      order := [];
      if e in applied {
        var calls;
        calls, order := RemoveFromAll(e, applied[e]);
        log := log + calls;
        applied := applied - {e};
      }
    }

    /** RemoveAbilityFromAll: a null class or one not applied changes nothing. */
    method RemoveAbilityFromAll(ability: Option<Id>) returns (ghost order: seq<Id>)
      requires Valid()
      modifies this`applied, this`log
      ensures Valid()
      ensures ability.None? ==> applied == old(applied) && log == old(log)
      ensures ability.Some? ==> (
        var e := AbilityEntry(ability.value);
        && applied == old(applied) - {e}
        && (e !in old(applied) ==> log == old(log))
        && (e in old(applied) ==>
          && NoDuplicates(order)
          && (forall c :: c in order <==> c in registered)
          && log == old(log) + ClearCalls(e, old(applied)[e], order)))
    {
      order := [];
      if ability.Some? {
        order := RemoveEntryFromAll(AbilityEntry(ability.value));
      }
    }

    /** RemoveEffectFromAll: a null class or one not applied changes nothing. */
    method RemoveEffectFromAll(effect: Option<Id>) returns (ghost order: seq<Id>)
      requires Valid()
      modifies this`applied, this`log
      ensures Valid()
      ensures effect.None? ==> applied == old(applied) && log == old(log)
      ensures effect.Some? ==> (
        var e := EffectEntry(effect.value);
        && applied == old(applied) - {e}
        && (e !in old(applied) ==> log == old(log))
        && (e in old(applied) ==>
          && NoDuplicates(order)
          && (forall c :: c in order <==> c in registered)
          && log == old(log) + ClearCalls(e, old(applied)[e], order)))
    {
      order := [];
      if effect.Some? {
        order := RemoveEntryFromAll(EffectEntry(effect.value));
      }
    }

    /**
     * RegisterAbilitySystemComponent: grants every applied ability, then
     * every applied effect, to c (afresh, when c was registered already), and
     * registers c once.
     */
    method Register(c: Id) returns (ghost order: seq<GlobalEntry>)
      requires Valid()
      modifies this`applied, this`registered, this`nextHandle, this`log
      ensures Valid()
      ensures NoDuplicates(order) && (forall e :: e in order <==> e in old(applied))
      ensures forall i, j :: 0 <= i < j < |order| && order[j].AbilityEntry? ==> order[i].AbilityEntry?
      ensures applied == AfterRegister(old(applied), order, c, old(nextHandle))
      ensures registered == AddUnique(old(registered), c)
      ensures log == old(log) + RegisterCalls(old(applied), order, c, old(nextHandle))
    {
      var a, n, calls;
      a, n, calls, order := AddToEveryEntry(applied, nextHandle, log, c);
      ConsistentAfterRegister(applied, registered, nextHandle, order, c);
      applied, nextHandle, log := a, n, calls;
      registered := AddUnique(registered, c);
    }

    /**
     * UnregisterAbilitySystemComponent: takes back from c everything any
     * entry granted it, abilities first, and removes every registration of c.
     */
    method Unregister(c: Id) returns (ghost order: seq<GlobalEntry>)
      requires Valid()
      modifies this`applied, this`registered, this`log
      ensures Valid()
      ensures NoDuplicates(order) && (forall e :: e in order <==> e in old(applied))
      ensures forall i, j :: 0 <= i < j < |order| && order[j].AbilityEntry? ==> order[i].AbilityEntry?
      ensures applied == Unregistered(old(applied), c)
      ensures registered == RemoveAll(old(registered), c)
      ensures log == old(log) + UnregisterCalls(old(applied), order, c)
    {
      ConsistentAfterUnregister(applied, registered, nextHandle, c);
      var a, calls;
      a, calls, order := RemoveFromEveryEntry(applied, log, c);
      applied, log, registered := a, calls, RemoveAll(registered, c);
    }
  }
}
