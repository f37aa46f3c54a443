/** Storage change notifications: subscribers with filters over top and child keys, and the index from
keys back to subscribers that decides whom to notify. */
module Notifications {
  import opened BlockTree

  type Key = nat
  type Id = nat

  /** No filter means every key. */
  type Filter = Option<set<Key>>

  datatype Sink = Sink(filter: Filter, child: Option<map<Key, Filter>>) {
    function ChildFilters(): map<Key, Filter> { if child.Some? then child.value else map[] }
  }

  datatype Index = Index(listeners: map<Key, set<Id>>, wildcards: set<Id>) {
    predicate IsEmpty() { listeners == map[] && wildcards == {} }
  }

  const NOBODY := Index(map[], {})

  datatype State = State(nextId: Id, top: Index, child: map<Key, Index>, sinks: map<Id, Sink>)

  const NO_SINKS := State(0, NOBODY, map[], map[])

  function At(child: map<Key, Index>, c: Key): Index { if c in child then child[c] else NOBODY }

  // ---------------------------------------------------------------- operations on one index

  function Keys(keys: seq<Key>): set<Key> { set k | k in keys }

  function AddTo(listeners: map<Key, set<Id>>, keys: set<Key>, id: Id): map<Key, set<Id>> {
    map k | k in listeners.Keys + keys ::
      if k in keys then (if k in listeners then listeners[k] else {}) + {id} else listeners[k]
  }

  function ListenFrom(ix: Index, id: Id, filter: Filter): Index {
    if filter.None? then ix.(wildcards := ix.wildcards + {id})
    else ix.(listeners := AddTo(ix.listeners, filter.value, id))
  }

  function DropFrom(listeners: map<Key, set<Id>>, keys: set<Key>, id: Id): map<Key, set<Id>> {
    map k | k in listeners && !(k in keys && listeners[k] - {id} == {}) ::
      if k in keys then listeners[k] - {id} else listeners[k]
  }

  function Unlisten(ix: Index, id: Id, filter: Filter): Index {
    if filter.None? then ix.(wildcards := ix.wildcards - {id})
    else ix.(listeners := DropFrom(ix.listeners, filter.value, id))
  }

  // ---------------------------------------------------------------- subscribing

  datatype ChildRequest = ChildRequest(key: Key, keys: Option<seq<Key>>)

  function AsFilter(keys: Option<seq<Key>>): Filter {
    if keys.None? then None else Some(Keys(keys.value))
  }

  function ListenChildren(child: map<Key, Index>, id: Id, requests: seq<ChildRequest>): map<Key, Index> {
    if requests == [] then child
    else
      var before, r := ListenChildren(child, id, requests[..|requests| - 1]), requests[|requests| - 1];
      before[r.key := ListenFrom(At(before, r.key), id, AsFilter(r.keys))]
  }

  /** The filters by child key that the sink keeps; the last request for a key wins. */
  function FiltersOf(requests: seq<ChildRequest>): map<Key, Filter> {
    if requests == [] then map[]
    else
      var r := requests[|requests| - 1];
      FiltersOf(requests[..|requests| - 1])[r.key := AsFilter(r.keys)]
  }

  function Listen(s: State, keys: Option<seq<Key>>, children: Option<seq<ChildRequest>>): State {
    var id := s.nextId + 1;
    State(id, ListenFrom(s.top, id, AsFilter(keys)),
          if children.None? then s.child else ListenChildren(s.child, id, children.value),
          s.sinks[id := Sink(AsFilter(keys), if children.None? then None else Some(FiltersOf(children.value)))])
  }

  // ---------------------------------------------------------------- unsubscribing

  function UnlistenChildren(child: map<Key, Index>, id: Id, filters: map<Key, Filter>): map<Key, Index> {
    map c | c in child && !(c in filters && Unlisten(child[c], id, filters[c]).IsEmpty()) ::
      if c in filters then Unlisten(child[c], id, filters[c]) else child[c]
  }

  function RemoveSubscriber(s: State, id: Id): State {
    if id !in s.sinks then s
    else
      var sink := s.sinks[id];
      State(s.nextId, Unlisten(s.top, id, sink.filter), UnlistenChildren(s.child, id, sink.ChildFilters()),
        s.sinks - {id})
  }


  // ---------------------------------------------------------------- the reference: an inverted table

  predicate KeyIn(ix: Index, k: Key, id: Id) { k in ix.listeners && id in ix.listeners[k] }

  predicate WantsKey(filters: map<Id, Filter>, k: Key, id: Id) {
    id in filters && filters[id].Some? && k in filters[id].value
  }

  predicate WantsAll(filters: map<Id, Filter>, id: Id) { id in filters && filters[id].None? }

  /** No empty entry is left behind. */
  ghost predicate Tidy(ix: Index) { forall k :: k in ix.listeners ==> ix.listeners[k] != {} }

  /** The index lists exactly who wants what. */
  ghost predicate Inverts(ix: Index, filters: map<Id, Filter>) {
    && Tidy(ix)
    && (forall id :: id in ix.wildcards <==> WantsAll(filters, id))
    && (forall k, id :: KeyIn(ix, k, id) <==> WantsKey(filters, k, id))
  }

  function TopFilters(sinks: map<Id, Sink>): map<Id, Filter> { map id | id in sinks :: sinks[id].filter }

  function ChildFiltersAt(sinks: map<Id, Sink>, c: Key): map<Id, Filter> {
    map id | id in sinks && c in sinks[id].ChildFilters() :: sinks[id].ChildFilters()[c]
  }

  ghost predicate Inv(s: State) {
    && (forall id :: id in s.sinks ==> id <= s.nextId)
    && Inverts(s.top, TopFilters(s.sinks))
    && (forall c :: Inverts(At(s.child, c), ChildFiltersAt(s.sinks, c)))
    && (forall c :: c in s.child ==> ChildFiltersAt(s.sinks, c) != map[])
  }

  // ---------------------------------------------------------------- subscribing keeps it

  lemma ListenKeepsInverse(ix: Index, filters: map<Id, Filter>, id: Id, filter: Filter)
    requires Inverts(ix, filters) && id !in filters
    ensures Inverts(ListenFrom(ix, id, filter), filters[id := filter])
  {
    var out, next := ListenFrom(ix, id, filter), filters[id := filter];
    forall k, x
      ensures KeyIn(out, k, x) <==> WantsKey(next, k, x)
    {
      assert KeyIn(ix, k, x) <==> WantsKey(filters, k, x);
    }
    forall x
      ensures x in out.wildcards <==> WantsAll(next, x)
    {
      assert x in ix.wildcards <==> WantsAll(filters, x);
    }
  }

  lemma UnlistenKeepsInverse(ix: Index, filters: map<Id, Filter>, id: Id)
    requires Inverts(ix, filters) && id in filters
    ensures Inverts(Unlisten(ix, id, filters[id]), filters - {id})
  {
    var out, next := Unlisten(ix, id, filters[id]), filters - {id};
    forall k, x
      ensures KeyIn(out, k, x) <==> WantsKey(next, k, x)
    {
      assert KeyIn(ix, k, x) <==> WantsKey(filters, k, x);
      assert KeyIn(ix, k, id) <==> WantsKey(filters, k, id);
    }
    forall x
      ensures x in out.wildcards <==> WantsAll(next, x)
    {
      assert x in ix.wildcards <==> WantsAll(filters, x);
    }
  }

  // ---------------------------------------------------------------- child requests

  predicate Asks(requests: seq<ChildRequest>, c: Key, k: Key) {
    exists i :: 0 <= i < |requests| && requests[i].key == c && requests[i].keys.Some? && k in requests[i].keys.value
  }

  predicate AsksAll(requests: seq<ChildRequest>, c: Key) {
    exists i :: 0 <= i < |requests| && requests[i].key == c && requests[i].keys.None?
  }

  predicate Names(requests: seq<ChildRequest>, c: Key) {
    exists i :: 0 <= i < |requests| && requests[i].key == c
  }

  lemma AsksLast(front: seq<ChildRequest>, r: ChildRequest, c: Key, k: Key)
    ensures Asks(front + [r], c, k) <==> Asks(front, c, k) || (r.key == c && r.keys.Some? && k in r.keys.value)
    ensures AsksAll(front + [r], c) <==> AsksAll(front, c) || (r.key == c && r.keys.None?)
    ensures Names(front + [r], c) <==> Names(front, c) || r.key == c
  {
    var all := front + [r];
    assert all[|front|] == r;
    assert forall i :: 0 <= i < |front| ==> all[i] == front[i];
  }

  /** What the indexes know after a list of requests: the union of everything asked for. */
  lemma {:induction false} ChildrenUnion(child: map<Key, Index>, id: Id, requests: seq<ChildRequest>, c: Key, k: Key,
                                         x: Id)
    ensures var ix := At(ListenChildren(child, id, requests), c);
      && (KeyIn(ix, k, x) <==> KeyIn(At(child, c), k, x) || (x == id && Asks(requests, c, k)))
      && (x in ix.wildcards <==> x in At(child, c).wildcards || (x == id && AsksAll(requests, c)))
    ensures c in ListenChildren(child, id, requests) <==> c in child || Names(requests, c)
  {
    if requests != [] {
      var front, r := requests[..|requests| - 1], requests[|requests| - 1];
      ChildrenUnion(child, id, front, c, k, x);
      AsksLast(front, r, c, k);
      assert front + [r] == requests;
    }
  }

  lemma ListenTidy(ix: Index, id: Id, filter: Filter)
    requires Tidy(ix)
    ensures Tidy(ListenFrom(ix, id, filter))
  {
    var out := ListenFrom(ix, id, filter);
    forall k | k in out.listeners
      ensures out.listeners[k] != {}
    {
      assert filter.Some? && k in filter.value ==> id in out.listeners[k];
    }
  }

  lemma {:induction false} ChildrenTidy(child: map<Key, Index>, id: Id, requests: seq<ChildRequest>, c: Key)
    requires Tidy(At(child, c))
    ensures Tidy(At(ListenChildren(child, id, requests), c))
  {
    if requests != [] {
      var front, r := requests[..|requests| - 1], requests[|requests| - 1];
      ChildrenTidy(child, id, front, c);
      if r.key == c { ListenTidy(At(ListenChildren(child, id, front), c), id, AsFilter(r.keys)); }
    }
  }

  /** The kept filter of a child key is that of some request for it. */
  lemma {:induction false} FilterIsRequested(requests: seq<ChildRequest>, c: Key)
    ensures c in FiltersOf(requests) <==> Names(requests, c)
    ensures c in FiltersOf(requests) && FiltersOf(requests)[c].None? ==> AsksAll(requests, c)
    ensures c in FiltersOf(requests) && FiltersOf(requests)[c].Some? ==>
      forall k :: k in FiltersOf(requests)[c].value ==> Asks(requests, c, k)
  {
    if requests != [] {
      var front, r := requests[..|requests| - 1], requests[|requests| - 1];
      FilterIsRequested(front, c);
      assert front + [r] == requests;
      forall k
        ensures Asks(requests, c, k) <==> Asks(front, c, k) || (r.key == c && r.keys.Some? && k in r.keys.value)
      {
        AsksLast(front, r, c, k);
      }
      AsksLast(front, r, c, 0);
    }
  }

  /** What a request asks for is what the last request for the same child key asks for, or part of it. */
  predicate Covered(r: ChildRequest, last: Filter) {
    match r.keys
    case None => last.None?
    case Some(keys) => keys == [] || (last.Some? && forall k :: k in keys ==> k in last.value)
  }

  predicate Consistent(requests: seq<ChildRequest>) {
    forall i :: 0 <= i < |requests| ==>
      requests[i].key in FiltersOf(requests) && Covered(requests[i], FiltersOf(requests)[requests[i].key])
  }

  predicate KeepsKey(requests: seq<ChildRequest>, c: Key, k: Key) {
    c in FiltersOf(requests) && FiltersOf(requests)[c].Some? && k in FiltersOf(requests)[c].value
  }

  predicate KeepsAll(requests: seq<ChildRequest>, c: Key) {
    c in FiltersOf(requests) && FiltersOf(requests)[c].None?
  }

  /** Everything asked of a child key is in its kept filter. */
  ghost predicate KeptAt(requests: seq<ChildRequest>, c: Key) {
    && (AsksAll(requests, c) ==> KeepsAll(requests, c))
    && (forall k :: Asks(requests, c, k) ==> KeepsKey(requests, c, k))
  }

  ghost predicate Kept(requests: seq<ChildRequest>) {
    forall c :: KeptAt(requests, c)
  }

  lemma ConsistentIsKept(requests: seq<ChildRequest>)
    ensures Consistent(requests) <==> Kept(requests)
  {
    if Kept(requests) {
      forall i | 0 <= i < |requests|
        ensures requests[i].key in FiltersOf(requests) && Covered(requests[i], FiltersOf(requests)[requests[i].key])
      {
        var r := requests[i];
        FilterIsRequested(requests, r.key);
        assert KeptAt(requests, r.key);
        if r.keys.None? {
          assert AsksAll(requests, r.key);
        } else if r.keys.value != [] {
          assert Asks(requests, r.key, r.keys.value[0]);
          assert forall k :: k in r.keys.value ==> Asks(requests, r.key, k);
        }
      }
    }
  }

  /** Requests for different child keys are always consistent. */
  lemma {:induction false} DistinctIsConsistent(requests: seq<ChildRequest>)
    requires forall i, j :: 0 <= i < j < |requests| ==> requests[i].key != requests[j].key
    ensures Consistent(requests)
  {
    if requests != [] {
      var front, r := requests[..|requests| - 1], requests[|requests| - 1];
      DistinctIsConsistent(front);
      assert forall i :: 0 <= i < |front| ==> requests[i] == front[i];
    }
  }

  /** The filters of one child key after a new sink joined. */
  lemma JoinedFilters(sinks: map<Id, Sink>, id: Id, sink: Sink, c: Key)
    requires id !in sinks
    ensures ChildFiltersAt(sinks[id := sink], c) ==
      if c in sink.ChildFilters()
      then ChildFiltersAt(sinks, c)[id := sink.ChildFilters()[c]]
      else ChildFiltersAt(sinks, c)
    ensures TopFilters(sinks[id := sink]) == TopFilters(sinks)[id := sink.filter]
  {
  }

  /** Membership in one child index, before and after, against membership in the filters. */
  lemma ChildMembers(child: map<Key, Index>, filters: map<Id, Filter>, id: Id, requests: seq<ChildRequest>, c: Key,
                     k: Key, x: Id)
    requires Inverts(At(child, c), filters) && id !in filters
    ensures var kept := FiltersOf(requests);
      var next := if c in kept then filters[id := kept[c]] else filters;
      var ix := At(ListenChildren(child, id, requests), c);
      && (x != id ==> (KeyIn(ix, k, x) <==> WantsKey(next, k, x)) && (x in ix.wildcards <==> WantsAll(next, x)))
      && (KeyIn(ix, k, id) <==> Asks(requests, c, k)) && (id in ix.wildcards <==> AsksAll(requests, c))
      && (WantsKey(next, k, id) <==> KeepsKey(requests, c, k)) && (WantsAll(next, id) <==> KeepsAll(requests, c))
      && (KeepsKey(requests, c, k) ==> Asks(requests, c, k)) && (KeepsAll(requests, c) ==> AsksAll(requests, c))
  {
    ChildrenUnion(child, id, requests, c, k, x);
    ChildrenUnion(child, id, requests, c, k, id);
    FilterIsRequested(requests, c);
    assert KeyIn(At(child, c), k, x) <==> WantsKey(filters, k, x);
    assert KeyIn(At(child, c), k, id) <==> WantsKey(filters, k, id);
    assert x in At(child, c).wildcards <==> WantsAll(filters, x);
    assert id in At(child, c).wildcards <==> WantsAll(filters, id);
  }

  lemma ChildInverseIff(child: map<Key, Index>, filters: map<Id, Filter>, id: Id, requests: seq<ChildRequest>, c: Key)
    requires Inverts(At(child, c), filters) && id !in filters
    ensures var kept := FiltersOf(requests);
      var next := if c in kept then filters[id := kept[c]] else filters;
      Inverts(At(ListenChildren(child, id, requests), c), next) <==> KeptAt(requests, c)
  {
    var kept := FiltersOf(requests);
    var next := if c in kept then filters[id := kept[c]] else filters;
    var ix := At(ListenChildren(child, id, requests), c);
    ChildrenTidy(child, id, requests, c);
    if Inverts(ix, next) {
      ChildMembers(child, filters, id, requests, c, 0, id);
      forall k | Asks(requests, c, k)
        ensures KeepsKey(requests, c, k)
      {
        ChildMembers(child, filters, id, requests, c, k, id);
        assert KeyIn(ix, k, id) <==> WantsKey(next, k, id);
      }
    }
    if KeptAt(requests, c) {
      forall k, x
        ensures KeyIn(ix, k, x) <==> WantsKey(next, k, x)
      {
        ChildMembers(child, filters, id, requests, c, k, x);
      }
      forall x
        ensures x in ix.wildcards <==> WantsAll(next, x)
      {
        ChildMembers(child, filters, id, requests, c, 0, x);
      }
    }
  }

  lemma ListenChildAt(s: State, keys: Option<seq<Key>>, requests: seq<ChildRequest>,
                      children: Option<seq<ChildRequest>>, c: Key)
    requires Inv(s) && requests == if children.Some? then children.value else []
    ensures var next := Listen(s, keys, children);
      && (Inverts(At(next.child, c), ChildFiltersAt(next.sinks, c)) <==> KeptAt(requests, c))
      && (c in next.child ==> ChildFiltersAt(next.sinks, c) != map[])
  {
    var id, next := s.nextId + 1, Listen(s, keys, children);
    var sink := next.sinks[id];
    assert next.child == ListenChildren(s.child, id, requests) && sink.ChildFilters() == FiltersOf(requests);
    JoinedFilters(s.sinks, id, sink, c);
    ChildInverseIff(s.child, ChildFiltersAt(s.sinks, c), id, requests, c);
    ChildrenUnion(s.child, id, requests, c, 0, 0);
    FilterIsRequested(requests, c);
    if c in next.child && c in FiltersOf(requests) { assert id in ChildFiltersAt(next.sinks, c); }
  }

  /** Subscribing keeps the index exact if and only if requests that name one child key twice agree. */
  lemma ListenKeepsInvIff(s: State, keys: Option<seq<Key>>, children: Option<seq<ChildRequest>>)
    requires Inv(s)
    ensures Inv(Listen(s, keys, children)) <==> (children.Some? ==> Consistent(children.value))
  {
    var id, next := s.nextId + 1, Listen(s, keys, children);
    var requests := if children.Some? then children.value else [];
    ListenKeepsInverse(s.top, TopFilters(s.sinks), id, AsFilter(keys));
    JoinedFilters(s.sinks, id, next.sinks[id], 0);
    forall c
      ensures Inverts(At(next.child, c), ChildFiltersAt(next.sinks, c)) <==> KeptAt(requests, c)
      ensures c in next.child ==> ChildFiltersAt(next.sinks, c) != map[]
    {
      ListenChildAt(s, keys, requests, children, c);
    }
    ConsistentIsKept(requests);
  }

  /** Unsubscribing keeps it, and leaves no trace of the subscriber. */
  lemma RemoveKeepsInv(s: State, id: Id)
    requires Inv(s)
    ensures Inv(RemoveSubscriber(s, id))
  {
    if id in s.sinks {
      var next, kept := RemoveSubscriber(s, id), s.sinks[id].ChildFilters();
      UnlistenKeepsInverse(s.top, TopFilters(s.sinks), id);
      assert TopFilters(next.sinks) == TopFilters(s.sinks) - {id};
      forall c
        ensures Inverts(At(next.child, c), ChildFiltersAt(next.sinks, c))
        ensures c in next.child ==> ChildFiltersAt(next.sinks, c) != map[]
      {
        RemoveChild(s, id, c);
      }
    }
  }

  lemma RemoveChild(s: State, id: Id, c: Key)
    requires Inv(s) && id in s.sinks
    ensures var next := RemoveSubscriber(s, id);
      && Inverts(At(next.child, c), ChildFiltersAt(next.sinks, c))
      && (c in next.child ==> ChildFiltersAt(next.sinks, c) != map[])
  {
    var next, filters := RemoveSubscriber(s, id), ChildFiltersAt(s.sinks, c);
    assert ChildFiltersAt(next.sinks, c) == filters - {id};
    if id in filters {
      UnlistenKeepsInverse(At(s.child, c), filters, id);
      if c in next.child { NonEmptyIsWanted(next.child[c], filters - {id}); }
    } else {
      assert filters - {id} == filters;
    }
  }

  lemma NonEmptyIsWanted(ix: Index, filters: map<Id, Filter>)
    requires Inverts(ix, filters) && !ix.IsEmpty()
    ensures filters != map[]
  {
    if ix.wildcards != {} {
      var x :| x in ix.wildcards;
      assert WantsAll(filters, x);
    } else {
      assert ix.listeners.Keys != {};
      var k :| k in ix.listeners;
      var x :| x in ix.listeners[k];
      assert KeyIn(ix, k, x);
    }
  }
}
