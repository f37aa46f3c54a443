/** Triggering notifications: whom a set of changes reaches, and what each subscriber gets to see. */
module NotificationEvents {
  import opened BlockTree
  import opened Notifications

  datatype Change = Change(key: Key, value: Option<nat>)

  datatype ChildChange = ChildChange(key: Key, changes: seq<Change>)

  /** A change as a subscriber sees it. */
  datatype Item = Item(child: Option<Key>, key: Key, value: Option<nat>)

  datatype Event = Event(changes: seq<Change>, children: seq<ChildChange>, sink: Sink)

  // ---------------------------------------------------------------- what a filter lets through

  predicate Matches(filter: Filter, k: Key) { filter.None? || k in filter.value }

  function Filtered(child: Option<Key>, filter: Filter, changes: seq<Change>): seq<Item> {
    if changes == [] then []
    else
      var c := changes[|changes| - 1];
      Filtered(child, filter, changes[..|changes| - 1])
      + if Matches(filter, c.key) then [Item(child, c.key, c.value)] else []
  }

  function FilteredChildren(filters: map<Key, Filter>, children: seq<ChildChange>): seq<Item> {
    if children == [] then []
    else
      var c := children[|children| - 1];
      FilteredChildren(filters, children[..|children| - 1])
      + if c.key in filters then Filtered(Some(c.key), filters[c.key], c.changes) else []
  }

  /** All the changes a subscriber asked for, in order: top ones first. */
  function WantedBy(sink: Sink, changes: seq<Change>, children: seq<ChildChange>): seq<Item> {
    Filtered(None, sink.filter, changes) + FilteredChildren(sink.ChildFilters(), children)
  }

  /** `StorageChangeSet::iter`. */
  function Iterate(e: Event): seq<Item> { WantedBy(e.sink, e.changes, e.children) }

  // ---------------------------------------------------------------- triggering

  /** The changes somebody listens to. */
  function Collected(ix: Index, changes: seq<Change>): seq<Change> {
    if changes == [] then []
    else
      var c := changes[|changes| - 1];
      Collected(ix, changes[..|changes| - 1]) + if ix.wildcards != {} || c.key in ix.listeners then [c] else []
  }

  function CollectedChildren(child: map<Key, Index>, children: seq<ChildChange>): seq<ChildChange> {
    if children == [] then []
    else
      var c := children[|children| - 1];
      CollectedChildren(child, children[..|children| - 1])
      + if c.key in child && Collected(child[c.key], c.changes) != []
        then [ChildChange(c.key, Collected(child[c.key], c.changes))] else []
  }

  /** The listeners of the changed keys, and with `wild` those of every key. */
  function Hit(ix: Index, changes: seq<Change>, wild: bool): set<Id> {
    if changes == [] then {}
    else
      var k := changes[|changes| - 1].key;
      Hit(ix, changes[..|changes| - 1], wild)
      + (if k in ix.listeners then ix.listeners[k] else {}) + (if wild then ix.wildcards else {})
  }

  function ChildHit(child: map<Key, Index>, children: seq<ChildChange>): set<Id> {
    if children == [] then {}
    else
      var c := children[|children| - 1];
      ChildHit(child, children[..|children| - 1]) + if c.key in child then Hit(child[c.key], c.changes, true) else {}
  }

  function Subscribers(s: State, changes: seq<Change>, children: seq<ChildChange>): set<Id> {
    s.top.wildcards + Hit(s.top, changes, false) + ChildHit(s.child, children)
  }

  /** Nothing is sent when nobody listens or no change is listened to. */
  predicate Silent(s: State, changes: seq<Change>, children: seq<ChildChange>) {
    || (s.top.IsEmpty() && s.child == map[])
    || (Collected(s.top, changes) == [] && CollectedChildren(s.child, children) == [])
  }

  /** Who is sent an event. */
  function Notified(s: State, changes: seq<Change>, children: seq<ChildChange>): set<Id> {
    if Silent(s, changes, children) then {} else Subscribers(s, changes, children)
  }

  function EventFor(s: State, changes: seq<Change>, children: seq<ChildChange>, id: Id): Event
    requires id in s.sinks
  {
    Event(Collected(s.top, changes), CollectedChildren(s.child, children), s.sinks[id])
  }

  // ---------------------------------------------------------------- correctness

  /** Dropping what nobody listens to hides nothing from anybody. */
  lemma {:induction false} CollectingHidesNothing(ix: Index, filters: map<Id, Filter>, id: Id, child: Option<Key>,
                                                  changes: seq<Change>)
    requires Inverts(ix, filters) && id in filters
    ensures Filtered(child, filters[id], Collected(ix, changes)) == Filtered(child, filters[id], changes)
  {
    if changes != [] {
      var front, c := changes[..|changes| - 1], changes[|changes| - 1];
      CollectingHidesNothing(ix, filters, id, child, front);
      assert WantsAll(filters, id) ==> id in ix.wildcards;
      assert WantsKey(filters, c.key, id) ==> KeyIn(ix, c.key, id);
      if ix.wildcards != {} || c.key in ix.listeners {
        FilteredLast(child, filters[id], Collected(ix, front), c);
      } else {
        assert Collected(ix, changes) == Collected(ix, front);
      }
    }
  }

  lemma FilteredLast(child: Option<Key>, filter: Filter, front: seq<Change>, c: Change)
    ensures Filtered(child, filter, front + [c]) ==
      Filtered(child, filter, front) + if Matches(filter, c.key) then [Item(child, c.key, c.value)] else []
  {
    assert (front + [c])[..|front|] == front;
  }

  /** Whoever has a visible change is hit. */
  lemma {:induction false} VisibleIsHit(ix: Index, filters: map<Id, Filter>, id: Id, child: Option<Key>,
                                        changes: seq<Change>)
    requires Inverts(ix, filters) && id in filters && Filtered(child, filters[id], changes) != []
    ensures id in Hit(ix, changes, true) && (id in ix.wildcards || id in Hit(ix, changes, false))
    ensures Collected(ix, changes) != []
  {
    var front, c := changes[..|changes| - 1], changes[|changes| - 1];
    assert WantsAll(filters, id) ==> id in ix.wildcards;
    assert WantsKey(filters, c.key, id) ==> KeyIn(ix, c.key, id);
    if Filtered(child, filters[id], front) != [] {
      VisibleIsHit(ix, filters, id, child, front);
    }
  }

  lemma {:induction false} HitIsWanted(ix: Index, filters: map<Id, Filter>, changes: seq<Change>, wild: bool)
    requires Inverts(ix, filters)
    ensures Hit(ix, changes, wild) <= filters.Keys
  {
    if changes != [] {
      var front, k := changes[..|changes| - 1], changes[|changes| - 1].key;
      HitIsWanted(ix, filters, front, wild);
      forall id | k in ix.listeners && id in ix.listeners[k]
        ensures id in filters
      {
        assert KeyIn(ix, k, id);
      }
    }
  }

  lemma FilteredChildrenLast(filters: map<Key, Filter>, front: seq<ChildChange>, c: ChildChange)
    ensures FilteredChildren(filters, front + [c]) ==
      FilteredChildren(filters, front)
      + if c.key in filters then Filtered(Some(c.key), filters[c.key], c.changes) else []
  {
    assert (front + [c])[..|front|] == front;
  }

  /** One child: what the sink sees of it survives collecting, and seeing something means being hit. */
  lemma ChildSurvives(s: State, id: Id, c: ChildChange)
    requires Inv(s) && id in s.sinks && c.key in s.sinks[id].ChildFilters()
    ensures var f := s.sinks[id].ChildFilters()[c.key];
      && Filtered(Some(c.key), f, Collected(At(s.child, c.key), c.changes)) == Filtered(Some(c.key), f, c.changes)
      && (Filtered(Some(c.key), f, c.changes) != [] ==>
            && c.key in s.child && id in Hit(s.child[c.key], c.changes, true)
            && Collected(s.child[c.key], c.changes) != [])
  {
    var filters := ChildFiltersAt(s.sinks, c.key);
    CollectingHidesNothing(At(s.child, c.key), filters, id, Some(c.key), c.changes);
    if Filtered(Some(c.key), filters[id], c.changes) != [] {
      VisibleIsHit(At(s.child, c.key), filters, id, Some(c.key), c.changes);
      if c.key !in s.child { NobodyCollects(c.changes); }
    }
  }

  lemma {:induction false} NobodyCollects(changes: seq<Change>)
    ensures Collected(NOBODY, changes) == []
  {
    if changes != [] { NobodyCollects(changes[..|changes| - 1]); }
  }

  lemma {:induction false} ChildrenSurvive(s: State, id: Id, children: seq<ChildChange>)
    requires Inv(s) && id in s.sinks
    ensures var f := s.sinks[id].ChildFilters();
      && FilteredChildren(f, CollectedChildren(s.child, children)) == FilteredChildren(f, children)
      && (FilteredChildren(f, children) != [] ==>
            id in ChildHit(s.child, children) && CollectedChildren(s.child, children) != [] && s.child != map[])
  {
    if children != [] {
      var front, c := children[..|children| - 1], children[|children| - 1];
      var f := s.sinks[id].ChildFilters();
      ChildrenSurvive(s, id, front);
      if c.key in f { ChildSurvives(s, id, c); }
      if c.key in s.child && Collected(s.child[c.key], c.changes) != [] {
        var passed := ChildChange(c.key, Collected(s.child[c.key], c.changes));
        FilteredChildrenLast(f, CollectedChildren(s.child, front), passed);
      } else {
        assert CollectedChildren(s.child, children) == CollectedChildren(s.child, front);
      }
    }
  }

  lemma {:induction false} ChildHitIsWanted(s: State, children: seq<ChildChange>)
    requires Inv(s)
    ensures ChildHit(s.child, children) <= s.sinks.Keys
  {
    if children != [] {
      var c := children[|children| - 1];
      ChildHitIsWanted(s, children[..|children| - 1]);
      if c.key in s.child {
        assert Inverts(At(s.child, c.key), ChildFiltersAt(s.sinks, c.key));
        HitIsWanted(s.child[c.key], ChildFiltersAt(s.sinks, c.key), c.changes, true);
      }
    }
  }

  /** Everybody notified has a sink, so looking it up cannot fail. */
  lemma NotifiedHaveSinks(s: State, changes: seq<Change>, children: seq<ChildChange>)
    requires Inv(s)
    ensures Notified(s, changes, children) <= s.sinks.Keys
  {
    HitIsWanted(s.top, TopFilters(s.sinks), changes, false);
    ChildHitIsWanted(s, children);
    assert forall id :: id in s.top.wildcards ==> WantsAll(TopFilters(s.sinks), id);
  }

  /** Every subscriber with something to see is notified, and its event iterates to exactly the
  changes it asked for, in order. */
  lemma EventsAreExact(s: State, changes: seq<Change>, children: seq<ChildChange>, id: Id)
    requires Inv(s) && id in s.sinks
    ensures Iterate(EventFor(s, changes, children, id)) == WantedBy(s.sinks[id], changes, children)
    ensures WantedBy(s.sinks[id], changes, children) != [] ==> id in Notified(s, changes, children)
  {
    var filters := TopFilters(s.sinks);
    CollectingHidesNothing(s.top, filters, id, None, changes);
    ChildrenSurvive(s, id, children);
    if Filtered(None, filters[id], changes) != [] {
      VisibleIsHit(s.top, filters, id, None, changes);
    }
    if s.top.IsEmpty() { assert s.top == NOBODY; NobodyCollects(changes); }
  }

  // ---------------------------------------------------------------- the object

  class StorageNotifications {
    var nextId: Id
    var top: Index
    var child: map<Key, Index>
    var sinks: map<Id, Sink>

    ghost function View(): State
      reads this
    {
      State(nextId, top, child, sinks)
    }

    constructor ()
      ensures View() == NO_SINKS
    {
      nextId, top, child, sinks := 0, NOBODY, map[], map[];
    }

    /** `listen_from`: enter the subscriber under each of its keys. */
    static method Enter(ix: Index, id: Id, keys: Option<seq<Key>>) returns (out: Index, filter: Filter)
      ensures out == ListenFrom(ix, id, AsFilter(keys)) && filter == AsFilter(keys)
    {
      if keys.None? { return ix.(wildcards := ix.wildcards + {id}), None; }
      var listeners, seen := ix.listeners, {};
      assert AddTo(ix.listeners, {}, id) == ix.listeners;
      for i := 0 to |keys.value|
        invariant seen == Keys(keys.value[..i]) && listeners == AddTo(ix.listeners, seen, id)
      {
        var k := keys.value[i];
        listeners := listeners[k := (if k in listeners then listeners[k] else {}) + {id}];
        seen := seen + {k};
        assert keys.value[..i + 1] == keys.value[..i] + [k];
      }
      assert keys.value[..|keys.value|] == keys.value;
      out, filter := ix.(listeners := listeners), Some(seen);
    }

    method Subscribe(keys: Option<seq<Key>>, children: Option<seq<ChildRequest>>) returns (id: Id)
      modifies this
      ensures View() == Listen(old(View()), keys, children) && id == nextId
    {
      nextId := nextId + 1;
      id := nextId;
      var filter;
      top, filter := Enter(top, id, keys);
      if children.None? {
        sinks := sinks[id := Sink(filter, None)];
        return;
      }
      var filters: map<Key, Filter> := map[];
      var requests := children.value;
      for i := 0 to |requests|
        invariant filters == FiltersOf(requests[..i]) && child == ListenChildren(old(child), id, requests[..i])
        invariant nextId == id == old(nextId) + 1 && sinks == old(sinks)
        invariant top == ListenFrom(old(top), id, AsFilter(keys))
      {
        assert requests[..i + 1][..i] == requests[..i];
        var ix, f := Enter(if requests[i].key in child then child[requests[i].key] else NOBODY, id, requests[i].keys);
        child, filters := child[requests[i].key := ix], filters[requests[i].key := f];
      }
      assert requests[..|requests|] == requests;
      sinks := sinks[id := Sink(filter, Some(filters))];
    }

    /** `remove_subscriber_from`: leave each of its keys, dropping entries that become empty. */
    static method Leave(ix: Index, id: Id, filter: Filter) returns (out: Index)
      ensures out == Unlisten(ix, id, filter)
    {
      if filter.None? { return ix.(wildcards := ix.wildcards - {id}); }
      var listeners, rest := ix.listeners, filter.value;
      while rest != {}
        invariant rest <= filter.value && listeners == DropFrom(ix.listeners, filter.value - rest, id)
        decreases rest
      {
        var k :| k in rest;
        if k in listeners {
          var left := listeners[k] - {id};
          listeners := if left == {} then listeners - {k} else listeners[k := left];
        }
        rest := rest - {k};
      }
      assert filter.value - {} == filter.value;
      out := ix.(listeners := listeners);
    }

    method LeaveChildren(id: Id, filters: map<Key, Filter>)
      modifies this`child
      ensures child == UnlistenChildren(old(child), id, filters)
    {
      var rest := filters.Keys;
      while rest != {}
        invariant rest <= filters.Keys
        invariant child == UnlistenChildren(old(child), id, map c | c in filters && c !in rest :: filters[c])
        decreases rest
      {
        var c :| c in rest;
        if c in child {
          var ix := Leave(child[c], id, filters[c]);
          child := if ix.listeners == map[] && ix.wildcards == {} then child - {c} else child[c := ix];
        }
        rest := rest - {c};
      }
      assert (map c | c in filters && c !in rest :: filters[c]) == filters;
    }

    method Remove(id: Id)
      modifies this
      ensures View() == RemoveSubscriber(old(View()), id)
    {
      if id in sinks {
        var sink := sinks[id];
        sinks := sinks - {id};
        top := Leave(top, id, sink.filter);
        LeaveChildren(id, sink.ChildFilters());
      }
    }

    /** The loop over the changes of one index: what to pass on, and to whom. */
    static method Collect(ix: Index, changes: seq<Change>, wild: bool) returns (passed: seq<Change>, hit: set<Id>)
      ensures passed == Collected(ix, changes) && hit == Hit(ix, changes, wild)
    {
      passed, hit := [], {};
      for i := 0 to |changes|
        invariant passed == Collected(ix, changes[..i]) && hit == Hit(ix, changes[..i], wild)
      {
        assert changes[..i + 1][..i] == changes[..i];
        var k := changes[i].key;
        if k in ix.listeners { hit := hit + ix.listeners[k]; }
        if wild { hit := hit + ix.wildcards; }
        if ix.wildcards != {} || k in ix.listeners { passed := passed + [changes[i]]; }
      }
      assert changes[..|changes|] == changes;
    }

    method CollectChildren(children: seq<ChildChange>) returns (passed: seq<ChildChange>, hit: set<Id>)
      ensures passed == CollectedChildren(child, children) && hit == ChildHit(child, children)
    {
      passed, hit := [], {};
      for i := 0 to |children|
        invariant passed == CollectedChildren(child, children[..i]) && hit == ChildHit(child, children[..i])
      {
        assert children[..i + 1][..i] == children[..i];
        if children[i].key in child {
          var p, h := Collect(child[children[i].key], children[i].changes, true);
          hit := hit + h;
          if p != [] { passed := passed + [ChildChange(children[i].key, p)]; }
        }
      }
      assert children[..|children|] == children;
    }

    /** `trigger`: send each subscriber one event; `dead` are those whose stream has been dropped,
    and they are removed on the way. */
    method Trigger(changes: seq<Change>, children: seq<ChildChange>, dead: set<Id>) returns (sent: map<Id, Event>)
      requires Inv(View())
      modifies this
      ensures Inv(View()) && nextId == old(nextId)
      ensures sent.Keys == Notified(old(View()), changes, children) <= old(sinks).Keys
      ensures forall id :: id in sent ==> sent[id] == EventFor(old(View()), changes, children, id)
      ensures sinks == old(sinks) - (sent.Keys * dead)
    {
      NotifiedHaveSinks(View(), changes, children);
      sent := map[];
      if top.wildcards == {} && top.listeners == map[] && child == map[] { return; }
      var passed, hit := Collect(top, changes, false);
      var passedChildren, childHit := CollectChildren(children);
      if passed == [] && passedChildren == [] { return; }
      sent := Send(top.wildcards + hit + childHit, passed, passedChildren, dead);
    }

    /** The sending loop; the sink of every subscriber is there when its turn comes. */
    method Send(subscribers: set<Id>, passed: seq<Change>, passedChildren: seq<ChildChange>, dead: set<Id>)
      returns (sent: map<Id, Event>)
      requires Inv(View()) && subscribers <= sinks.Keys
      modifies this
      ensures Inv(View()) && nextId == old(nextId) && sent.Keys == subscribers
      ensures forall id :: id in sent ==> sent[id] == Event(passed, passedChildren, old(sinks)[id])
      ensures sinks == old(sinks) - (subscribers * dead)
    {
      sent := map[];
      var rest := subscribers;
      while rest != {}
        invariant rest <= subscribers && Inv(View()) && nextId == old(nextId)
        invariant sent.Keys == subscribers - rest && sinks == old(sinks) - (sent.Keys * dead)
        invariant forall id :: id in sent ==> sent[id] == Event(passed, passedChildren, old(sinks)[id])
        decreases rest
      {
        var id :| id in rest;
        sent := sent[id := Event(passed, passedChildren, sinks[id])];
        if id in dead {
          RemoveKeepsInv(View(), id);
          Remove(id);
        }
        rest := rest - {id};
      }
      assert sent.Keys == subscribers;
    }
  }

  // ---------------------------------------------------------------- runs

  datatype Step = Listening(keys: Option<seq<Key>>, children: Option<seq<ChildRequest>>) | Leaving(id: Id)

  function Apply(s: State, step: Step): State {
    match step
    case Listening(keys, children) => Listen(s, keys, children)
    case Leaving(id) => RemoveSubscriber(s, id)
  }

  function Run(s: State, steps: seq<Step>): State
    decreases |steps|
  {
    if steps == [] then s else Run(Apply(s, steps[0]), steps[1..])
  }

  predicate AllConsistent(steps: seq<Step>) {
    forall i :: 0 <= i < |steps| && steps[i].Listening? && steps[i].children.Some? ==>
      Consistent(steps[i].children.value)
  }

  lemma {:induction false} RunKeepsInv(s: State, steps: seq<Step>)
    requires Inv(s) && AllConsistent(steps)
    ensures Inv(Run(s, steps))
    decreases |steps|
  {
    if steps != [] {
      match steps[0] {
        case Listening(keys, children) => ListenKeepsInvIff(s, keys, children);
        case Leaving(id) => RemoveKeepsInv(s, id);
      }
      RunKeepsInv(Apply(s, steps[0]), steps[1..]);
    }
  }

  /** After any run of consistent subscriptions and removals, a trigger reaches only subscribers that
  still have a sink, reaches all that have something to see, and shows each exactly what it asked for. */
  lemma TriggersAreExact(steps: seq<Step>, changes: seq<Change>, children: seq<ChildChange>, id: Id)
    requires AllConsistent(steps)
    ensures var s := Run(NO_SINKS, steps);
      && Inv(s)
      && Notified(s, changes, children) <= s.sinks.Keys
      && (id in s.sinks ==>
            && Iterate(EventFor(s, changes, children, id)) == WantedBy(s.sinks[id], changes, children)
            && (WantedBy(s.sinks[id], changes, children) != [] ==> id in Notified(s, changes, children)))
  {
    RunKeepsInv(NO_SINKS, steps);
    var s := Run(NO_SINKS, steps);
    NotifiedHaveSinks(s, changes, children);
    if id in s.sinks { EventsAreExact(s, changes, children, id); }
  }

  /** Naming a child key twice with different wishes leaves a trace behind: after the subscriber is
  gone, a change of that child still reaches for its sink. */
  lemma InconsistentRequestsLeaveResidue()
    ensures var requests := [ChildRequest(5, None), ChildRequest(5, Some([7]))];
      var s := RemoveSubscriber(Listen(NO_SINKS, Some([]), Some(requests)), 1);
      s.sinks == map[] && 1 in Notified(s, [], [ChildChange(5, [Change(9, None)])])
  {
    var requests := [ChildRequest(5, None), ChildRequest(5, Some([7]))];
    var s0 := Listen(NO_SINKS, Some([]), Some(requests));
    assert requests[..1] == [ChildRequest(5, None)];
    assert FiltersOf(requests)[5] == Some(Keys([7]));
    assert 1 in s0.child[5].wildcards by {
      ChildrenUnion(map[], 1, requests, 5, 0, 1);
      assert requests[0].key == 5 && requests[0].keys.None?;
    }
    var s := RemoveSubscriber(s0, 1);
    assert 5 in s.child && 1 in s.child[5].wildcards;
    var changes := [Change(9, None)];
    assert Collected(s.child[5], changes) == Collected(s.child[5], []) + changes;
    var children := [ChildChange(5, changes)];
    assert children[..0] == [];
    assert ChildHit(s.child, children) == ChildHit(s.child, []) + Hit(s.child[5], changes, true);
    assert CollectedChildren(s.child, children) != [];
  }
}
