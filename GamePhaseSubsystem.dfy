/**
 * The game phase subsystem: phases are gameplay abilities on the game
 * state's component, each tagged with a phase tag. Phases nest along tag
 * ancestry: starting a phase ends every active phase whose tag is not the
 * incoming tag or one of its ancestors. Observers are notified when a
 * matching phase begins or ends.
 */
module GamePhaseSubsystem {
  import opened Common
  import opened GameplayTags
  import opened AbilitySystem

  // ---------------------------------------------------------------------------
  // Observers and entries
  // ---------------------------------------------------------------------------

  datatype MatchType = ExactMatch | PartialMatch

  /** A registered observer; its callback is an opaque identity. */
  datatype PhaseObserver = PhaseObserver(tag: Tag, matchType: MatchType, callback: Id)

  /** FPhaseObserver::IsMatch: the tag itself, or for a partial match also any descendant. */
  predicate IsMatch(o: PhaseObserver, t: Tag) {
    match o.matchType
    case ExactMatch => t == o.tag
    case PartialMatch => MatchesTag(t, o.tag)
  }

  /** An exact match is a partial match for a valid tag; a partial match also accepts descendants. */
  lemma IsMatchSpec(o: PhaseObserver, t: Tag)
    ensures o.matchType == ExactMatch ==> (IsMatch(o, t) <==> t == o.tag)
    ensures o.matchType == PartialMatch ==> (IsMatch(o, t) <==> IsValid(o.tag) && |o.tag| <= |t| && t[..|o.tag|] == o.tag)
    ensures IsValid(o.tag) && IsMatch(o, t) ==> MatchesTag(t, o.tag)
  {
    if IsValid(o.tag) && IsMatch(o, t) && o.matchType == ExactMatch {
      assert t[..|o.tag|] == o.tag;
    }
  }

  /** The ended-phase callback of an entry is bound or not; its phase tag is set on begin. */
  datatype PhaseEntry = PhaseEntry(tag: Tag, endedCallback: Option<Id>)

  /** Callbacks run by the subsystem, in order. */
  datatype PhaseEvent =
    | ObserverNotified(callback: Id, tag: Tag)
    | PhaseEndedCalled(callback: Id, phase: Option<Handle>)

  /** The notifications of the observers matching t, in registration order. */
  function Notify(observers: seq<PhaseObserver>, t: Tag): seq<PhaseEvent>
    decreases |observers|
  {
    if observers == [] then []
    else
      var o := observers[|observers| - 1];
      Notify(observers[..|observers| - 1], t) + (if IsMatch(o, t) then [ObserverNotified(o.callback, t)] else [])
  }

  /** Exactly the matching observers are notified, each with the phase tag. */
  lemma {:induction false} NotifySpec(observers: seq<PhaseObserver>, t: Tag)
    ensures forall e :: (e in Notify(observers, t)
      <==> exists k :: 0 <= k < |observers| && IsMatch(observers[k], t) && e == ObserverNotified(observers[k].callback, t))
    ensures |Notify(observers, t)| <= |observers|
    decreases |observers|
  {
    if observers != [] {
      var n := |observers|;
      var p := observers[..n - 1];
      var last := if IsMatch(observers[n - 1], t) then [ObserverNotified(observers[n - 1].callback, t)] else [];
      assert Notify(observers, t) == Notify(p, t) + last;
      NotifySpec(p, t);
      forall e ensures e in Notify(observers, t)
        <==> exists k :: 0 <= k < n && IsMatch(observers[k], t) && e == ObserverNotified(observers[k].callback, t)
      {
        if e in Notify(p, t) {
          var k :| 0 <= k < n - 1 && IsMatch(p[k], t) && e == ObserverNotified(p[k].callback, t);
          assert observers[k] == p[k];
        }
        if exists k :: 0 <= k < n && IsMatch(observers[k], t) && e == ObserverNotified(observers[k].callback, t) {
          var k :| 0 <= k < n && IsMatch(observers[k], t) && e == ObserverNotified(observers[k].callback, t);
          if k < n - 1 {
            assert p[k] == observers[k];
          }
        }
      }
    }
  }

  // ---------------------------------------------------------------------------
  // Active phases
  // ---------------------------------------------------------------------------

  /** IsPhaseActive, as a property: some active entry's tag is t or one of its descendants. */
  predicate PhaseActive(active: map<Handle, PhaseEntry>, t: Tag) {
    exists h :: h in active && MatchesTag(active[h].tag, t)
  }

  /**
   * A phase spec of the game state's component: the phase tag of its ability
   * and whether its ability instance can be cancelled at present (an ability
   * may refuse with SetCanBeCanceled(false)).
   */
  datatype PhaseSpec = PhaseSpec(tag: Tag, canBeCanceled: bool)

  /**
   * Every entry belongs to a phase spec of the game state's component and
   * records that phase's tag.
   */
  predicate Consistent(active: map<Handle, PhaseEntry>, world: map<Handle, PhaseSpec>) {
    forall h :: h in active ==> h in world && active[h].tag == world[h].tag
  }

  /** The active phase tags lie on one ancestor chain. */
  predicate OnOneChain(active: map<Handle, PhaseEntry>) {
    forall h1, h2 :: h1 in active && h2 in active && h1 != h2 ==>
      MatchesTag(active[h1].tag, active[h2].tag) || MatchesTag(active[h2].tag, active[h1].tag)
  }

  /**
   * Whether beginning a phase tagged t ends the active phase h: its tag is
   * not t or an ancestor of t, and its ability accepts the cancellation (one
   * that refuses is only logged, and stays active).
   */
  predicate EndsOnBegin(world: map<Handle, PhaseSpec>, t: Tag, h: Handle) {
    h in world && !MatchesTag(t, world[h].tag) && world[h].canBeCanceled
  }

  /** The entries beginning a phase tagged t leaves in place. */
  function Survivors(active: map<Handle, PhaseEntry>, world: map<Handle, PhaseSpec>, t: Tag): map<Handle, PhaseEntry> {
    map h | h in active && !EndsOnBegin(world, t, h) :: active[h]
  }

  /** Ending one more phase x removes x from what is left. */
  lemma EndedSnoc(a0: map<Handle, PhaseEntry>, ended: seq<Handle>, x: Handle)
    ensures (a0 - (set y | y in ended)) - {x} == a0 - (set y | y in ended + [x])
  {
    assert (set y | y in ended + [x]) == (set y | y in ended) + {x};
  }

  /** Having ended exactly the phases a beginning ends leaves the survivors. */
  lemma EndedAreNonAncestors(a0: map<Handle, PhaseEntry>, w: map<Handle, PhaseSpec>, t: Tag, ended: seq<Handle>)
    requires forall x :: x in ended <==> x in a0 && EndsOnBegin(w, t, x)
    ensures a0 - (set y | y in ended) == Survivors(a0, w, t)
  {
  }

  /** The active phases once a phase tagged t has begun with handle h. */
  function AfterBegin(active: map<Handle, PhaseEntry>, world: map<Handle, PhaseSpec>, t: Tag, h: Handle): map<Handle, PhaseEntry> {
    var s := Survivors(active, world, t);
    s[h := PhaseEntry(t, if h in s then s[h].endedCallback else None)]
  }

  /**
   * Beginning a phase ends exactly the phases that are not the incoming tag
   * or its ancestors and accept cancellation; every other phase stays as it
   * was. When every active phase accepts cancellation, each phase left
   * active is the incoming tag or one of its ancestors, so the active phases
   * lie on one chain.
   */
  lemma {:induction false} AfterBeginOnChain(active: map<Handle, PhaseEntry>, world: map<Handle, PhaseSpec>, t: Tag, h: Handle)
    requires Consistent(active, world)
    ensures var r := AfterBegin(active, world, t, h);
      && h in r && r[h].tag == t
      && (forall x :: x in r && x != h ==>
            x in active && r[x] == active[x] && (MatchesTag(t, r[x].tag) || !world[x].canBeCanceled))
      && (forall x :: x in active && x != h ==>
            (x in r <==> MatchesTag(t, active[x].tag) || !world[x].canBeCanceled))
      && ((forall x :: x in active ==> world[x].canBeCanceled) ==> OnOneChain(r))
  {
    var r := AfterBegin(active, world, t, h);
    if forall x :: x in active ==> world[x].canBeCanceled {
      forall h1, h2 | h1 in r && h2 in r && h1 != h2
        ensures MatchesTag(r[h1].tag, r[h2].tag) || MatchesTag(r[h2].tag, r[h1].tag)
      {
        if h1 == h {
          assert MatchesTag(t, r[h2].tag);
        } else if h2 == h {
          assert MatchesTag(t, r[h1].tag);
        } else {
          AncestorsComparable(t, r[h1].tag, r[h2].tag);
        }
      }
    }
  }

  /**
   * Once a valid phase tag t has begun, t and every ancestor of t are active
   * phases; any other tag is active only through a phase that survived.
   */
  lemma AfterBeginActive(active: map<Handle, PhaseEntry>, world: map<Handle, PhaseSpec>, t: Tag, h: Handle, q: Tag)
    requires IsValid(t)
    ensures MatchesTag(t, q) ==> PhaseActive(AfterBegin(active, world, t, h), q)
    ensures PhaseActive(AfterBegin(active, world, t, h), q) && !MatchesTag(t, q) ==>
      exists x :: x in active && x != h && !EndsOnBegin(world, t, x) && MatchesTag(active[x].tag, q)
  {
    var r := AfterBegin(active, world, t, h);
    if MatchesTag(t, q) {
      assert h in r && MatchesTag(r[h].tag, q);
    }
    if PhaseActive(r, q) && !MatchesTag(t, q) {
      var x :| x in r && MatchesTag(r[x].tag, q);
      assert x != h && x in active && r[x] == active[x];
    }
  }

  /** The events of ending phase h: its ended callback, if bound, then the matching end observers. */
  function EndEvents(entry: PhaseEntry, h: Handle, endedTag: Tag, observers: seq<PhaseObserver>): seq<PhaseEvent> {
    (if entry.endedCallback.Some? then [PhaseEndedCalled(entry.endedCallback.value, Some(h))] else [])
      + Notify(observers, endedTag)
  }

  /** The events of ending the phases hs in order, each with its tag from the component. */
  function EndAllEvents(active: map<Handle, PhaseEntry>, world: map<Handle, PhaseSpec>, hs: seq<Handle>,
                        observers: seq<PhaseObserver>): seq<PhaseEvent>
    requires forall x :: x in hs ==> x in active && x in world
    decreases |hs|
  {
    if hs == [] then []
    else
      var x := hs[|hs| - 1];
      EndAllEvents(active, world, hs[..|hs| - 1], observers) + EndEvents(active[x], x, world[x].tag, observers)
  }

  lemma EndAllEventsSnoc(active: map<Handle, PhaseEntry>, world: map<Handle, PhaseSpec>, hs: seq<Handle>, x: Handle,
                         observers: seq<PhaseObserver>)
    requires forall y :: y in hs + [x] ==> y in active && y in world
    ensures EndAllEvents(active, world, hs + [x], observers)
      == EndAllEvents(active, world, hs, observers) + EndEvents(active[x], x, world[x].tag, observers)
  {
    assert (hs + [x])[..|hs|] == hs;
  }

  // ---------------------------------------------------------------------------
  // The subsystem
  // ---------------------------------------------------------------------------

  /** How activating a newly granted phase spec turned out. */
  datatype StartOutcome =
    | NotActivated           // the activation failed: the phase never began
    | EndedDuringActivation  // it began and ended again before activation returned
    | StillActive            // it began and is still active

  class GamePhaseSubsystem {
    /** ActivePhaseMap. */
    var active: map<Handle, PhaseEntry>
    var startObservers: seq<PhaseObserver>
    var endObservers: seq<PhaseObserver>
    /** Callbacks run, in order. */
    var events: seq<PhaseEvent>

    constructor ()
      ensures active == map[] && startObservers == [] && endObservers == [] && events == []
    {
      active := map[];
      startObservers := [];
      endObservers := [];
      events := [];
    }

    /** IsPhaseActive: scans the active entries for one whose tag matches t. */
    method IsPhaseActive(t: Tag) returns (r: bool)
      ensures r <==> PhaseActive(active, t)
    {
      var todo := active.Keys;
      while todo != {}
        invariant todo <= active.Keys
        invariant forall h :: h in active && h !in todo ==> !MatchesTag(active[h].tag, t)
        decreases todo
      {
        var h := Pick(todo);
        if MatchesTag(active[h].tag, t) {
          return true;
        }
        todo := todo - {h};
      }
      return false;
    }

    /**
     * WhenPhaseStartsOrIsActive: the observer is appended, and is called at
     * once when a phase with the tag or a descendant is active, whatever its
     * match type.
     */
    method WhenPhaseStartsOrIsActive(t: Tag, matchType: MatchType, callback: Id)
      modifies this`startObservers, this`events
      ensures startObservers == old(startObservers) + [PhaseObserver(t, matchType, callback)]
      ensures events == old(events) + (if PhaseActive(active, t) then [ObserverNotified(callback, t)] else [])
    {
      startObservers := startObservers + [PhaseObserver(t, matchType, callback)];
      var isActive := IsPhaseActive(t);
      if isActive {
        events := events + [ObserverNotified(callback, t)];
      }
    }

    /** WhenPhaseEnds: the observer is appended; nothing is called. */
    method WhenPhaseEnds(t: Tag, matchType: MatchType, callback: Id)
      modifies this`endObservers
      ensures endObservers == old(endObservers) + [PhaseObserver(t, matchType, callback)]
    {
      endObservers := endObservers + [PhaseObserver(t, matchType, callback)];
    }

    /**
     * OnEndPhase of the phase h tagged endedTag: its entry must exist; its
     * ended callback runs with the phase, the entry goes, and the matching
     * end observers are notified.
     */
    method OnEndPhase(endedTag: Tag, h: Handle)
      requires h in active
      modifies this`active, this`events
      ensures active == old(active) - {h}
      ensures events == old(events) + EndEvents(old(active)[h], h, endedTag, endObservers)
    {
      var entry := active[h];
      if entry.endedCallback.Some? {
        events := events + [PhaseEndedCalled(entry.endedCallback.value, Some(h))];
      }
      active := active - {h};
      NotifyAll(endObservers, endedTag);
    }

    /** Calls every observer of the list that matches t, in order. */
    method NotifyAll(observers: seq<PhaseObserver>, t: Tag)
      modifies this`events
      ensures events == old(events) + Notify(observers, t)
    {
      var k := 0;
      while k < |observers|
        invariant 0 <= k <= |observers|
        invariant events == old(events) + Notify(observers[..k], t)
      {
        assert observers[..k + 1][..k] == observers[..k];
        if IsMatch(observers[k], t) {
          events := events + [ObserverNotified(observers[k].callback, t)];
        }
        k := k + 1;
      }
      assert observers[..k] == observers;
    }

    /**
     * OnBeginPhase of phase h tagged t. world stands for the phase specs of
     * the game state's component (None: there is no such component, and
     * nothing happens). Each active phase found there whose tag is not t or
     * an ancestor of t is cancelled, which ends it unless its ability refuses
     * cancellation; the entries are visited in the map's own order, given
     * here as ended. Then h is recorded with tag t and the matching start
     * observers are notified.
     */
    method OnBeginPhase(t: Tag, h: Handle, world: Option<map<Handle, PhaseSpec>>) returns (ghost ended: seq<Handle>)
      modifies this`active, this`events
      ensures world.None? ==> active == old(active) && events == old(events)
      ensures world.Some? ==>
        && active == AfterBegin(old(active), world.value, t, h)
        && NoDuplicates(ended)
        && (forall x :: x in ended <==> x in old(active) && EndsOnBegin(world.value, t, x))
        && events == old(events) + EndAllEvents(old(active), world.value, ended, endObservers) + Notify(startObservers, t)
    {
      ended := [];
      if world.None? {
        return;
      }
      var w := world.value;
      ended := EndNonAncestors(t, w);
      var cb := if h in active then active[h].endedCallback else None;
      active := active[h := PhaseEntry(t, cb)];
      NotifyAll(startObservers, t);
    }

    /** One step of EndNonAncestors: ends phase x, which is still active. */
    method EndOneMore(ghost a0: map<Handle, PhaseEntry>, w: map<Handle, PhaseSpec>, ghost ended: seq<Handle>, x: Handle,
                      ghost e0: seq<PhaseEvent>) returns (ghost ended': seq<Handle>)
      requires x in a0 && x in w && x !in ended
      requires forall y :: y in ended ==> y in a0 && y in w
      requires active == a0 - (set y | y in ended)
      requires events == e0 + EndAllEvents(a0, w, ended, endObservers)
      modifies this`active, this`events
      ensures ended' == ended + [x]
      ensures active == a0 - (set y | y in ended')
      ensures events == e0 + EndAllEvents(a0, w, ended', endObservers)
    {
      EndAllEventsSnoc(a0, w, ended, x, endObservers);
      EndedSnoc(a0, ended, x);
      assert active[x] == a0[x];
      OnEndPhase(w[x].tag, x);
      ended' := ended + [x];
    }

    /**
     * The first half of OnBeginPhase: every active phase of the component
     * whose tag is not t or an ancestor of t is cancelled, in the map's own
     * order; a phase whose ability accepts the cancellation ends, one that
     * refuses it is only logged and stays active.
     */
    method EndNonAncestors(t: Tag, w: map<Handle, PhaseSpec>) returns (ghost ended: seq<Handle>)
      modifies this`active, this`events
      ensures active == Survivors(old(active), w, t)
      ensures NoDuplicates(ended)
      ensures forall x :: x in ended <==> x in old(active) && EndsOnBegin(w, t, x)
      ensures events == old(events) + EndAllEvents(old(active), w, ended, endObservers)
    {
      ended := [];
      var a0 := active;
      var todo := set x | x in active && x in w;
      while todo != {}
        invariant todo <= a0.Keys
        invariant NoDuplicates(ended)
        invariant forall x :: x in ended <==> x in a0 && x !in todo && EndsOnBegin(w, t, x)
        invariant forall x :: x in todo ==> x in w
        invariant active == a0 - (set x | x in ended)
        invariant events == old(events) + EndAllEvents(a0, w, ended, endObservers)
        decreases todo
      {
        var x := Pick(todo);
        todo := todo - {x};
        if !MatchesTag(t, w[x].tag) && w[x].canBeCanceled {
          ended := EndOneMore(a0, w, ended, x, old(events));
        }
      }
      EndedAreNonAncestors(a0, w, t, ended);
    }

    /**
     * StartPhase of a phase ability tagged t, with ended callback cb. The
     * component grants it a spec with handle h and activates it at once;
     * outcome says how that went, and world stands for the component's phase
     * specs before the grant (None: no component, nothing happens); a newly
     * granted ability accepts cancellation, the engine's default. A phase
     * still active keeps cb as its ended callback; otherwise cb runs at once
     * with no phase.
     */
    method StartPhase(t: Tag, cb: Option<Id>, h: Handle, world: Option<map<Handle, PhaseSpec>>, outcome: StartOutcome)
      modifies this`active, this`events
      ensures world.None? ==> active == old(active) && events == old(events)
      ensures world.Some? && outcome.NotActivated? ==>
        && active == old(active)
        && events == old(events) + (if cb.Some? then [PhaseEndedCalled(cb.value, None)] else [])
      ensures world.Some? && outcome.EndedDuringActivation? ==>
        active == AfterBegin(old(active), world.value[h := PhaseSpec(t, true)], t, h) - {h}
      ensures world.Some? && outcome.StillActive? ==>
        active == AfterBegin(old(active), world.value[h := PhaseSpec(t, true)], t, h)[h := PhaseEntry(t, cb)]
    {
      if world.None? {
        return;
      }
      var w := world.value[h := PhaseSpec(t, true)];
      if outcome.NotActivated? {
        if cb.Some? {
          events := events + [PhaseEndedCalled(cb.value, None)];
        }
        return;
      }
      ghost var ended := OnBeginPhase(t, h, Some(w));
      if outcome.EndedDuringActivation? {
        OnEndPhase(t, h);
        if cb.Some? {
          events := events + [PhaseEndedCalled(cb.value, None)];
        }
      } else {
        active := active[h := PhaseEntry(t, cb)];
      }
    }
  }
}
