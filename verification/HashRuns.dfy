/** Cached storage hashes: `sync` does not drop those of changed keys, so they follow a head switch only
under a condition on the window; under it, hash reads are coherent over whole runs. */
module HashRuns {
  import opened BlockTree
  import opened Fork
  import opened LruMap
  import opened StorageCache
  import opened StorageCoherence
  import opened StorageRuns

  ghost predicate HashesOk(w: World, head: Hash, s: Shared)
    requires head in w.tree.headers
  {
    AllTop(s.hashes.items) && Agrees(w, s.hashes.items, head)
  }

  ghost predicate LocalHashesOk(w: World, l: Local) {
    && WellKeyed(l.hashes) && (forall k :: k in l.hashes ==> k.Top?)
    && (l.block.Some? && l.block.value in w.tree.headers ==>
          forall k :: k in l.hashes ==> l.hashes[k].value == StateAt(w, l.block.value, k))
  }

  /** A block of the route is listed as having changed the key. */
  ghost predicate Touched(s: Shared, enacted: seq<Hash>, retracted: seq<Hash>, k: Key) {
    AllListed(s.mods, enacted + retracted) && k in ChangedByAny(s.mods, enacted + retracted, true)
  }

  /** The condition, on the window alone: no cached hash is of a key that a block of the route changed.
  A route with an unlisted block wipes the cache, which is safe as well. */
  ghost predicate HashesUntouched(s: Shared, enacted: seq<Hash>, retracted: seq<Hash>) {
    forall it :: it in s.hashes.items ==> !Touched(s, enacted, retracted, it.key)
  }

  // ---------------------------------------------------------------- the condition suffices

  lemma UntouchedHashFollows(w: World, known: set<Hash>, from: Hash, to: Hash, r: TreeRoute,
                             s: Shared, t: Shared, it: Entry)
    requires Coherent(w, known, from, s) && to in known && IsRoute(w.tree, from, to, r)
    requires Synced(s, t, r.Enacted(), r.Retracted()) && HashesOk(w, from, s)
    requires it in t.hashes.items && !Touched(s, r.Enacted(), r.Retracted(), it.key)
    ensures it.key.Top? && it.value == StateAt(w, to, it.key)
  {
    RouteKeepsValue(w, known, from, to, r, s.mods, it.key);
  }

  lemma UntouchedHashesFollow(w: World, known: set<Hash>, from: Hash, to: Hash, r: TreeRoute, s: Shared, t: Shared)
    requires Coherent(w, known, from, s) && to in known && IsRoute(w.tree, from, to, r)
    requires Synced(s, t, r.Enacted(), r.Retracted()) && HashesOk(w, from, s)
    requires HashesUntouched(s, r.Enacted(), r.Retracted())
    ensures HashesOk(w, to, t)
  {
    forall it | it in t.hashes.items
      ensures it.key.Top? && it.value == StateAt(w, to, it.key)
    {
      UntouchedHashFollows(w, known, from, to, r, s, t, it);
    }
  }

  // ---------------------------------------------------------------- the condition is necessary

  /** The same block tree, where the blocks of `blocks` write `v` whenever they write to `k`, and
  genesis writes it first when `seed` is set. */
  function Rewritten(w: World, blocks: set<Hash>, k: Key, v: Value, seed: bool): (x: World)
    requires k.Top?
    ensures x.tree == w.tree && x.childChanges == w.childChanges && x.changes.Keys == w.changes.Keys
    ensures forall h :: h in w.changes ==>
      x.changes[h] == Changes(w.changes[h], h in blocks, k, v, seed && h == w.tree.genesis)
  {
    var changes := map h | h in w.changes :: Changes(w.changes[h], h in blocks, k, v, seed && h == w.tree.genesis);
    forall h, e | h in changes && e in changes[h]
      ensures e.key.Top?
    {
      ChangesKeys(w.changes[h], h in blocks, k, v, seed && h == w.tree.genesis);
      assert e.key in Keys(changes[h]);
    }
    RawWorld(w.tree, changes, w.childChanges)
  }

  function Changes(entries: seq<Entry>, rewrite: bool, k: Key, v: Value, seed: bool): seq<Entry> {
    (if seed then [Item(k, 0, v, 0)] else []) + if rewrite then WithValue(entries, k, v) else entries
  }

  function WithValue(entries: seq<Entry>, k: Key, v: Value): (r: seq<Entry>)
    ensures |r| == |entries|
    ensures forall i :: 0 <= i < |entries| ==>
      r[i] == if entries[i].key == k then entries[i].(value := v) else entries[i]
  {
    if entries == [] then []
    else [if entries[0].key == k then entries[0].(value := v) else entries[0]] + WithValue(entries[1..], k, v)
  }

  lemma ChangesHold(entries: seq<Entry>, rewrite: bool, k: Key, v: Value, seed: bool, e: Entry)
    requires e in entries
    ensures e.key in Keys(Changes(entries, rewrite, k, v, seed))
  {
    var r, n := Changes(entries, rewrite, k, v, seed), if seed then 1 else 0;
    var i :| 0 <= i < |entries| && entries[i] == e;
    assert r[n + i].key == e.key && r[n + i] in r;
  }

  lemma ChangesCome(entries: seq<Entry>, rewrite: bool, k: Key, v: Value, seed: bool, e: Entry)
    requires e in Changes(entries, rewrite, k, v, seed)
    ensures e.key in Keys(entries) || (seed && e.key == k)
  {
    var r, n := Changes(entries, rewrite, k, v, seed), if seed then 1 else 0;
    var i :| 0 <= i < |r| && r[i] == e;
    if i >= n { assert entries[i - n].key == e.key && entries[i - n] in entries; }
  }

  lemma ChangesKeys(entries: seq<Entry>, rewrite: bool, k: Key, v: Value, seed: bool)
    ensures Keys(Changes(entries, rewrite, k, v, seed)) == Keys(entries) + if seed then {k} else {}
  {
    var r := Changes(entries, rewrite, k, v, seed);
    forall e | e in entries
      ensures e.key in Keys(r)
    {
      ChangesHold(entries, rewrite, k, v, seed, e);
    }
    if seed { assert r[0].key == k && r[0] in r; }
    forall e | e in r
      ensures e.key in Keys(entries) || (seed && e.key == k)
    {
      ChangesCome(entries, rewrite, k, v, seed, e);
    }
  }

  /** The last write to another key stays, that to `k` becomes `v` where there is one. */
  lemma {:induction false} LastRewrite(entries: seq<Entry>, k: Key, v: Value, j: Key)
    ensures LastWrite(WithValue(entries, k, v), j) ==
      if j == k && LastWrite(entries, k).Some? then Some(v) else LastWrite(entries, j)
  {
    if entries != [] {
      var r := WithValue(entries, k, v);
      assert r[1..] == WithValue(entries[1..], k, v);
      LastRewrite(entries[1..], k, v, j);
    }
  }

  lemma LastSeeded(e: Entry, entries: seq<Entry>, j: Key)
    ensures LastWrite([e] + entries, j) ==
      if LastWrite(entries, j).Some? then LastWrite(entries, j) else if e.key == j then Some(e.value) else None
  {
    assert ([e] + entries)[1..] == entries;
  }

  /** What a rewritten block writes last. */
  lemma LastChange(entries: seq<Entry>, rewrite: bool, k: Key, v: Value, seed: bool, j: Key)
    ensures var own := LastWrite(entries, j);
      LastWrite(Changes(entries, rewrite, k, v, seed), j) ==
        if j == k && ((own.Some? && rewrite) || (own.None? && seed)) then Some(v) else own
  {
    LastRewrite(entries, k, v, j);
    var rest := if rewrite then WithValue(entries, k, v) else entries;
    if seed {
      LastSeeded(Item(k, 0, v, 0), rest, j);
    } else {
      assert Changes(entries, rewrite, k, v, seed) == rest;
    }
  }

  /** Rewriting values does not show in the window. */
  lemma RewrittenWindow(w: World, known: set<Hash>, head: Hash, mods: seq<BlockChanges>, blocks: set<Hash>, k: Key,
                        v: Value, seed: bool)
    requires WindowOk(w, known, head, mods) && k.Top?
    ensures WindowOk(Rewritten(w, blocks, k, v, seed), known, head, mods)
  {
    var x := Rewritten(w, blocks, k, v, seed);
    forall i | 0 <= i < |mods|
      ensures Described(x, known, mods[i])
    {
      assert Described(w, known, mods[i]);
      ChangesKeys(w.changes[mods[i].hash], mods[i].hash in blocks, k, v, false);
    }
  }

  lemma {:induction false} OtherKeysStay(w: World, blocks: set<Hash>, k: Key, v: Value, seed: bool, h: Hash, j: Key)
    requires k.Top? && h in w.tree.headers && j != k
    ensures StateAt(Rewritten(w, blocks, k, v, seed), h, j) == StateAt(w, h, j)
    decreases Number(w.tree, h)
  {
    LastChange(w.changes[h], h in blocks, k, v, seed && h == w.tree.genesis, j);
    if h != w.tree.genesis { OtherKeysStay(w, blocks, k, v, seed, Parent(w.tree, h), j); }
  }

  /** Some block of the chain above height `n` writes to `k`. */
  ghost predicate WritesAbove(w: World, h: Hash, n: nat, k: Key)
    requires h in w.tree.headers && n <= Number(w.tree, h)
  {
    exists y :: y in Up(w.tree, h, n) && Modifies(w, y, k)
  }

  lemma WritesStep(w: World, h: Hash, n: nat, k: Key)
    requires h in w.tree.headers && n < Number(w.tree, h)
    ensures WritesAbove(w, h, n, k) <==> Modifies(w, h, k) || WritesAbove(w, Parent(w.tree, h), n, k)
    ensures LastWrite(w.changes[h], k).Some? <==> k in Keys(w.changes[h])
  {
    UpStep(w.tree, h, n);
    assert h in Up(w.tree, h, n);
    LastWriteKeys(w.changes[h], k);
  }

  /** Where the chain above `n` is not rewritten, its writes decide as before. */
  lemma {:induction false} UntouchedChain(w: World, blocks: set<Hash>, k: Key, v: Value, seed: bool, h: Hash, n: nat)
    requires k.Top? && h in w.tree.headers && n <= Number(w.tree, h)
    requires forall y :: y in Up(w.tree, h, n) ==> y !in blocks
    requires var x := Rewritten(w, blocks, k, v, seed);
      WritesAbove(w, h, n, k) || StateAt(x, AncestorAt(w.tree, h, n), k) == StateAt(w, AncestorAt(w.tree, h, n), k)
    ensures StateAt(Rewritten(w, blocks, k, v, seed), h, k) == StateAt(w, h, k)
    decreases Number(w.tree, h)
  {
    if n < Number(w.tree, h) {
      WritesStep(w, h, n, k);
      UpStep(w.tree, h, n);
      LastChange(w.changes[h], h in blocks, k, v, false, k);
      if !Modifies(w, h, k) { UntouchedChain(w, blocks, k, v, seed, Parent(w.tree, h), n); }
    }
  }

  /** Where it is rewritten throughout, the new value comes through. */
  lemma {:induction false} RewrittenChain(w: World, blocks: set<Hash>, k: Key, v: Value, seed: bool, h: Hash, n: nat)
    requires k.Top? && h in w.tree.headers && n <= Number(w.tree, h)
    requires forall y :: y in Up(w.tree, h, n) ==> y in blocks
    requires WritesAbove(w, h, n, k) || StateAt(Rewritten(w, blocks, k, v, seed), AncestorAt(w.tree, h, n), k) == v
    ensures StateAt(Rewritten(w, blocks, k, v, seed), h, k) == v
    decreases Number(w.tree, h)
  {
    if n < Number(w.tree, h) {
      WritesStep(w, h, n, k);
      UpStep(w.tree, h, n);
      LastChange(w.changes[h], h in blocks, k, v, false, k);
      if !Modifies(w, h, k) { RewrittenChain(w, blocks, k, v, seed, Parent(w.tree, h), n); }
    }
  }

  lemma GenesisState(w: World, blocks: set<Hash>, k: Key, v: Value, seed: bool)
    requires k.Top?
    ensures var x, g := Rewritten(w, blocks, k, v, seed), w.tree.genesis;
      && (g in blocks && seed ==> StateAt(x, g, k) == v)
      && (g !in blocks && !seed ==> StateAt(x, g, k) == StateAt(w, g, k))
  {
    LastChange(w.changes[w.tree.genesis], w.tree.genesis in blocks, k, v, seed, k);
  }

  /** The values a world may have given what the cache shows: same blocks, same window, same cached values. */
  ghost predicate Fits(x: World, tree: Tree, known: set<Hash>, head: Hash, s: Shared) {
    x.tree == tree && head in tree.headers && Coherent(x, known, head, s) && HashesOk(x, head, s)
  }

  lemma RewrittenFits(w: World, known: set<Hash>, from: Hash, s: Shared, blocks: set<Hash>, k: Key, v: Value,
                      seed: bool)
    requires Fits(w, w.tree, known, from, s) && k.Top?
    requires StateAt(Rewritten(w, blocks, k, v, seed), from, k) == StateAt(w, from, k)
    ensures Fits(Rewritten(w, blocks, k, v, seed), w.tree, known, from, s)
  {
    var x := Rewritten(w, blocks, k, v, seed);
    RewrittenWindow(w, known, from, s.mods, blocks, k, v, seed);
    forall j
      ensures StateAt(x, from, j) == StateAt(w, from, j)
    {
      if j != k { OtherKeysStay(w, blocks, k, v, seed, from, j); }
    }
  }

  /** A key that a retracted block writes: what lies below the fork may differ from the cached value. */
  lemma RetractedGoesStale(w: World, known: set<Hash>, from: Hash, to: Hash, r: TreeRoute, s: Shared, k: Key,
                           v: Value, b: Hash)
    returns (blocks: set<Hash>, seed: bool)
    requires Fits(w, w.tree, known, from, s) && to in known && IsRoute(w.tree, from, to, r)
    requires k.Top? && b in r.Retracted() && b in w.tree.headers && Modifies(w, b, k)
    ensures var x := Rewritten(w, blocks, k, v, seed); Fits(x, w.tree, known, from, s) && StateAt(x, to, k) == v
  {
    var t, n := w.tree, Number(w.tree, r.Common());
    blocks, seed := t.headers.Keys - (set y | y in r.Retracted()), true;
    forall y | y in Up(t, from, n)
      ensures y in r.Retracted()
    {
      UpContains(t, from, n, y);
      DownContains(t, from, n, y);
    }
    UpContains(t, from, n, b);
    DownContains(t, from, n, b);
    assert WritesAbove(w, from, n, k);
    UntouchedChain(w, blocks, k, v, true, from, n);
    RewrittenFits(w, known, from, s, blocks, k, v, true);
    forall y | y == t.genesis || y in Up(t, to, 0)
      ensures y in blocks
    {
      if y != t.genesis { UpContains(t, to, 0, y); }
      GenesisIsAncestor(t, to);
      RouteBlocks(t, from, to, r, y);
    }
    GenesisState(w, blocks, k, v, true);
    GenesisIsAncestor(t, to);
    RewrittenChain(w, blocks, k, v, true, to, 0);
  }

  /** A key that an enacted block writes: what it writes may differ from the cached value. */
  lemma EnactedGoesStale(w: World, known: set<Hash>, from: Hash, to: Hash, r: TreeRoute, s: Shared, k: Key, v: Value,
                         b: Hash)
    returns (blocks: set<Hash>, seed: bool)
    requires Fits(w, w.tree, known, from, s) && to in known && IsRoute(w.tree, from, to, r)
    requires k.Top? && b in r.Enacted() && b in w.tree.headers && Modifies(w, b, k)
    ensures var x := Rewritten(w, blocks, k, v, seed); Fits(x, w.tree, known, from, s) && StateAt(x, to, k) == v
  {
    var t, n := w.tree, Number(w.tree, r.Common());
    blocks, seed := (set y | y in r.Enacted()), false;
    forall y | y == t.genesis || y in Up(t, from, 0)
      ensures y !in blocks
    {
      if y != t.genesis { UpContains(t, from, 0, y); }
      GenesisIsAncestor(t, from);
      RouteBlocks(t, from, to, r, y);
    }
    GenesisState(w, blocks, k, v, false);
    GenesisIsAncestor(t, from);
    UntouchedChain(w, blocks, k, v, false, from, 0);
    RewrittenFits(w, known, from, s, blocks, k, v, false);
    assert WritesAbove(w, to, n, k);
    RewrittenChain(w, blocks, k, v, false, to, n);
  }

  /** If a block of the route changed the key of a cached hash, then for every value some world that fits
  everything the cache shows has it at the new head; it differs only in what is written to that key. */
  lemma TouchedHashGoesStale(w: World, known: set<Hash>, from: Hash, to: Hash, r: TreeRoute,
                             s: Shared, it: Entry, v: Value)
    returns (blocks: set<Hash>, seed: bool)
    requires Fits(w, w.tree, known, from, s) && to in known && IsRoute(w.tree, from, to, r)
    requires it in s.hashes.items && Touched(s, r.Enacted(), r.Retracted(), it.key)
    ensures var x := Rewritten(w, blocks, it.key, v, seed);
      Fits(x, w.tree, known, from, s) && StateAt(x, to, it.key) == v
  {
    var k := it.key;
    var b :| b in r.Enacted() + r.Retracted() && k in Changed(s.mods, b, true);
    assert Described(w, known, s.mods[Find(s.mods, b)]);
    assert Modifies(w, b, k);
    if b in r.Retracted() {
      blocks, seed := RetractedGoesStale(w, known, from, to, r, s, k, v, b);
    } else {
      blocks, seed := EnactedGoesStale(w, known, from, to, r, s, k, v, b);
    }
  }

  function OtherValue(v: Value): (u: Value)
    ensures u != v
  {
    if v == None then Some([]) else None
  }

  /** Cached hashes follow a head switch whatever values the blocks wrote, if and only if no cached
  hash is of a key that the window lists for a block of the route, or the cache is wiped. */
  lemma HashesFollowSwitchIff(w: World, known: set<Hash>, from: Hash, to: Hash, r: TreeRoute, s: Shared, t: Shared)
    requires Fits(w, w.tree, known, from, s) && to in known && IsRoute(w.tree, from, to, r)
    requires Synced(s, t, r.Enacted(), r.Retracted())
    ensures (forall x: World :: Fits(x, w.tree, known, from, s) ==> HashesOk(x, to, t)) <==>
      HashesUntouched(s, r.Enacted(), r.Retracted())
  {
    if HashesUntouched(s, r.Enacted(), r.Retracted()) {
      forall x: World | Fits(x, w.tree, known, from, s)
        ensures HashesOk(x, to, t)
      {
        UntouchedHashesFollow(x, known, from, to, r, s, t);
      }
    } else {
      var it :| it in s.hashes.items && Touched(s, r.Enacted(), r.Retracted(), it.key);
      var blocks, seed := TouchedHashGoesStale(w, known, from, to, r, s, it, OtherValue(it.value));
      var x := Rewritten(w, blocks, it.key, OtherValue(it.value), seed);
      assert Fits(x, w.tree, known, from, s) && !HashesOk(x, to, t);
    }
  }

  // ---------------------------------------------------------------- a best import that reorganises

  /** What is handed over replaces what was cached. */
  lemma ReceivedWins(s: Lru<Key, Value>, local: map<Key, Entry>, t: Lru<Key, Value>)
    requires Distinct(s.items) && Received(s, local, t) && WellKeyed(local)
    ensures forall it :: it in t.items ==> if it.key in local then local[it.key].value == it.value else it in s.items
  {
    var drained :| Enumerates(drained, local) && t == AddAll(s, drained);
    AddAllItems(s, drained);
    forall it | it in t.items
      ensures if it.key in local then local[it.key].value == it.value else it in s.items
    {
      LastWriteKeys(drained, it.key);
      if it.key in local { assert local[it.key] in drained && it.key in Keys(drained); }
    }
  }

  /** A best import of `h`, through the state `l` of its parent, along the route from the old head. */
  ghost predicate BestImport(w: World, known: set<Hash>, head: Hash, s: Shared, l: Local, h: Hash, r: TreeRoute,
                             via: Intermediate, t: Shared)
  {
    && h in w.tree.headers && h !in known && h != w.tree.genesis && Parent(w.tree, h) in known
    && Closed(w.tree, known) && head in known
    && l.block == Some(Parent(w.tree, h)) && IsRoute(w.tree, head, Parent(w.tree, h), r)
    && SyncCacheStep(s, l, r.Enacted(), r.Retracted(), w.changes[h], w.childChanges[h],
                     Some((h, Number(w.tree, h))), true, via.synced, via.handed, t, via.left)
  }

  /** The world also fits what the state under the block has read, and what the block writes. */
  ghost predicate FitsImport(x: World, w: World, known: set<Hash>, head: Hash, s: Shared, l: Local, h: Hash) {
    && Fits(x, w.tree, known, head, s) && LocalOk(x, known, l) && LocalHashesOk(x, l)
    && h in w.changes && x.changes[h] == w.changes[h] && x.childChanges[h] == w.childChanges[h]
  }

  /** The condition: a hash still cached after the import is of a key the route did not change, was read
  by the state under the block, or is of the value that state has read. */
  ghost predicate SurvivorsShown(s: Shared, l: Local, r: TreeRoute, t: Shared)
    requires r.Valid()
  {
    forall it :: it in t.hashes.items && Touched(s, r.Enacted(), r.Retracted(), it.key) ==>
      it.key in l.hashes || (it.key in l.storage && l.storage[it.key].value == it.value)
  }

  /** A hash still cached after the import is not of a key the block writes, and was handed over or cached before. */
  lemma SurvivorOrigin(w: World, known: set<Hash>, head: Hash, s: Shared, l: Local, h: Hash, r: TreeRoute,
                       via: Intermediate, t: Shared, it: Entry)
    requires BestImport(w, known, head, s, l, h, r, via, t) && Tidy(s) && LocalHashesOk(w, l) && it in t.hashes.items
    ensures Synced(s, via.synced, r.Enacted(), r.Retracted())
    ensures it.key !in Keys(w.changes[h])
    ensures if it.key in l.hashes then l.hashes[it.key].value == it.value else it in via.synced.hashes.items
    ensures Touched(s, r.Enacted(), r.Retracted(), it.key) && it.key !in l.hashes ==> it in s.hashes.items
  {
    FreshNotEnacted(w, known, head, Parent(w.tree, h), r, h);
    WithoutAbsentBlock(r.Enacted(), Some((h, Number(w.tree, h))));
    ReceivedWins(via.synced.hashes, l.hashes, via.handed.hashes);
  }

  lemma SurvivorIsRight(w: World, known: set<Hash>, head: Hash, s: Shared, l: Local, h: Hash, r: TreeRoute,
                        via: Intermediate, t: Shared, it: Entry)
    requires FitsImport(w, w, known, head, s, l, h) && BestImport(w, known, head, s, l, h, r, via, t)
    requires SurvivorsShown(s, l, r, t) && it in t.hashes.items
    ensures it.key.Top? && it.value == StateAt(w, h, it.key)
  {
    var p := Parent(w.tree, h);
    SurvivorOrigin(w, known, head, s, l, h, r, via, t, it);
    if it.key !in l.hashes && !Touched(s, r.Enacted(), r.Retracted(), it.key) {
      UntouchedHashFollows(w, known, head, p, r, s, via.synced, it);
    }
    assert it.key.Top? && it.value == StateAt(w, p, it.key);
    UnmodifiedState(w, h, it.key);
  }

  lemma SurvivorsAreRight(w: World, known: set<Hash>, head: Hash, s: Shared, l: Local, h: Hash, r: TreeRoute,
                          via: Intermediate, t: Shared)
    requires FitsImport(w, w, known, head, s, l, h) && BestImport(w, known, head, s, l, h, r, via, t)
    requires SurvivorsShown(s, l, r, t)
    ensures HashesOk(w, h, t)
  {
    forall it | it in t.hashes.items
      ensures it.key.Top? && it.value == StateAt(w, h, it.key)
    {
      SurvivorIsRight(w, known, head, s, l, h, r, via, t, it);
    }
  }

  lemma {:induction false} WithValueStays(entries: seq<Entry>, k: Key, v: Value)
    requires k !in Keys(entries)
    ensures WithValue(entries, k, v) == entries
  {
    forall i | 0 <= i < |entries|
      ensures WithValue(entries, k, v)[i] == entries[i]
    {
      assert entries[i] in entries && entries[i].key in Keys(entries);
    }
  }

  /** What a state has read is still right when no key it has read is rewritten. */
  lemma RewrittenFitsLocal(w: World, known: set<Hash>, l: Local, blocks: set<Hash>, k: Key, v: Value, seed: bool)
    requires LocalOk(w, known, l) && LocalHashesOk(w, l) && k.Top? && l.block.Some?
    requires k !in l.hashes && k !in l.storage
    ensures LocalOk(Rewritten(w, blocks, k, v, seed), known, l)
    ensures LocalHashesOk(Rewritten(w, blocks, k, v, seed), l)
  {
    var x, p := Rewritten(w, blocks, k, v, seed), l.block.value;
    forall j | j != k
      ensures StateAt(x, p, j) == StateAt(w, p, j)
    {
      OtherKeysStay(w, blocks, k, v, seed, p, j);
    }
  }

  /** Rewriting a key that neither the block writes nor the state under it has read goes unnoticed by both. */
  lemma RewrittenFitsImport(w: World, known: set<Hash>, head: Hash, s: Shared, l: Local, h: Hash,
                            blocks: set<Hash>, k: Key, v: Value, seed: bool)
    requires FitsImport(w, w, known, head, s, l, h) && k.Top? && h != w.tree.genesis && l.block.Some?
    requires Fits(Rewritten(w, blocks, k, v, seed), w.tree, known, head, s)
    requires k !in Keys(w.changes[h]) && k !in l.hashes && k !in l.storage
    ensures FitsImport(Rewritten(w, blocks, k, v, seed), w, known, head, s, l, h)
  {
    WithValueStays(w.changes[h], k, v);
    RewrittenFitsLocal(w, known, l, blocks, k, v, seed);
  }

  /** A surviving hash that nothing shows right is stale in some world that fits everything shown. */
  lemma SurvivorGoesStale(w: World, known: set<Hash>, head: Hash, s: Shared, l: Local, h: Hash, r: TreeRoute,
                          via: Intermediate, t: Shared, it: Entry) returns (x: World)
    requires FitsImport(w, w, known, head, s, l, h) && BestImport(w, known, head, s, l, h, r, via, t)
    requires it in t.hashes.items && Touched(s, r.Enacted(), r.Retracted(), it.key) && it.key !in l.hashes
    requires it.key in l.storage ==> l.storage[it.key].value != it.value
    ensures FitsImport(x, w, known, head, s, l, h) && StateAt(x, h, it.key) != it.value
  {
    var p, k, v := Parent(w.tree, h), it.key, OtherValue(it.value);
    SurvivorOrigin(w, known, head, s, l, h, r, via, t, it);
    if k in l.storage {
      x := w;
      UnmodifiedState(w, h, k);
    } else {
      var blocks, seed := TouchedHashGoesStale(w, known, head, p, r, s, it, v);
      x := Rewritten(w, blocks, k, v, seed);
      RewrittenFitsImport(w, known, head, s, l, h, blocks, k, v, seed);
      UnmodifiedState(x, h, k);
    }
  }

  /** The hashes still cached after a best import are right whatever values the blocks wrote, if and only
  if each is of a key that the route did not change, or is shown right by what the state read. */
  lemma HashesFollowImportIff(w: World, known: set<Hash>, head: Hash, s: Shared, l: Local, h: Hash, r: TreeRoute,
                              via: Intermediate, t: Shared)
    requires FitsImport(w, w, known, head, s, l, h) && BestImport(w, known, head, s, l, h, r, via, t)
    ensures (forall x: World :: FitsImport(x, w, known, head, s, l, h) ==> HashesOk(x, h, t)) <==>
      SurvivorsShown(s, l, r, t)
  {
    if SurvivorsShown(s, l, r, t) {
      forall x: World | FitsImport(x, w, known, head, s, l, h)
        ensures HashesOk(x, h, t)
      {
        SurvivorsAreRight(x, known, head, s, l, h, r, via, t);
      }
    } else {
      var it :| it in t.hashes.items && Touched(s, r.Enacted(), r.Retracted(), it.key) && it.key !in l.hashes &&
        !(it.key in l.storage && l.storage[it.key].value == it.value);
      var x := SurvivorGoesStale(w, known, head, s, l, h, r, via, t, it);
      assert FitsImport(x, w, known, head, s, l, h) && !HashesOk(x, h, t);
    }
  }

  // ---------------------------------------------------------------- runs

  ghost predicate HashInv(w: World, a: System) {
    && a.head in w.tree.headers && HashesOk(w, a.head, a.shared)
    && forall id :: id in a.states ==> LocalHashesOk(w, a.states[id])
  }

  /** The step leaves no cached hash of a key that its route changed, unless the values at hand show it right. */
  ghost predicate HashSafe(a: System, step: Step, b: System) {
    match step
    case SwitchHead(_, route) => route.Valid() && HashesUntouched(a.shared, route.Enacted(), route.Retracted())
    case Import(id, _, isBest, route, _) =>
      isBest && id in a.states ==> route.Valid() && SurvivorsShown(a.shared, a.states[id], route, b.shared)
    case _ => true
  }

  lemma HashReadIsCoherent(w: World, known: set<Hash>, head: Hash, s: Shared, l: Local, k: Key, t: Shared, m: Local,
                           answer: Value)
    requires Coherent(w, known, head, s) && HashesOk(w, head, s) && LocalHashesOk(w, l) && l.block.Some?
    requires l.block.value in known
    requires k.Top? && ReadHashStep(s, l, k, StateAt(w, l.block.value, k), t, m, answer)
    ensures answer == StateAt(w, l.block.value, k)
    ensures HashesOk(w, head, t) && LocalHashesOk(w, m)
  {
    if k !in l.hashes && SharedHashAnswers(s, l, k) {
      assert s.mods[0..] == s.mods;
      AllowedMeansUnmodified(w, known, head, s.mods, 0, l.block.value, k);
      GottenItems(s.hashes, k);
    }
  }

  lemma HandOverKeepsHashes(w: World, head: Hash, s: Shared, l: Local, isBest: bool, t: Shared, m: Local)
    requires head in w.tree.headers && Tidy(s) && LocalHashesOk(w, l) && HashesOk(w, head, s)
    requires isBest && l.block.Some? ==> l.block.value == head
    requires HandedOver(s, l, isBest, t, m)
    ensures HashesOk(w, head, t)
  {
    if l.block.Some? && isBest { ReceivedWins(s.hashes, l.hashes, t.hashes); }
  }

  /** Committing drops the hashes of the keys the block writes, and all others follow to it. */
  lemma CommitKeepsHashes(w: World, head: Hash, s: Shared, h: Hash, isBest: bool, t: Shared)
    requires head in w.tree.headers && h in w.tree.headers && h != w.tree.genesis
    requires isBest ==> Parent(w.tree, h) == head
    requires AllTop(s.hashes.items)
    requires forall it :: it in s.hashes.items ==>
      it.value == StateAt(w, head, it.key) || (isBest && it.key in Keys(w.changes[h]))
    requires Committed(s, Parent(w.tree, h), w.changes[h], w.childChanges[h], (h, Number(w.tree, h)), isBest, t)
    ensures HashesOk(w, if isBest then h else head, t)
  {
    forall it | it in t.hashes.items && isBest
      ensures it.value == StateAt(w, h, it.key)
    {
      UnmodifiedState(w, h, it.key);
    }
  }

  lemma CloseKeepsHashes(w: World, a: System, step: Step, b: System)
    requires Inv(w, a) && HashInv(w, a) && step.Close? && CloseNext(a, step, b)
    ensures HashInv(w, b)
  {
    var l := a.states[step.id];
    HandOverKeepsHashes(w, a.head, step.via.synced, l, a.head == l.block.value, step.via.handed, step.via.left);
  }

  lemma OtherImportKeepsHashes(w: World, head: Hash, s: Shared, l: Local, h: Hash, via: Intermediate, t: Shared)
    requires head in w.tree.headers && HashesOk(w, head, s) && LocalHashesOk(w, l)
    requires h in w.tree.headers && h != w.tree.genesis && l.block == Some(Parent(w.tree, h))
    requires SyncCacheStep(s, l, [], [], w.changes[h], w.childChanges[h],
                           Some((h, Number(w.tree, h))), false, via.synced, via.handed, t, via.left)
    ensures HashesOk(w, head, t)
  {
    HandOverKeepsHashes(w, head, via.synced, l, false, via.handed, via.left);
    CommitKeepsHashes(w, head, via.handed, h, false, t);
  }

  lemma ImportKeepsHashes(w: World, a: System, step: Step, b: System)
    requires Inv(w, a) && HashInv(w, a) && step.Import? && ImportNext(w, a, step, b) && HashSafe(a, step, b)
    ensures HashInv(w, b)
  {
    var h, l := step.block, a.states[step.id];
    if step.isBest {
      SurvivorsAreRight(w, a.known, a.head, a.shared, l, h, step.route, step.via, b.shared);
    } else {
      OtherImportKeepsHashes(w, a.head, a.shared, l, h, step.via, b.shared);
    }
  }

  lemma SwitchKeepsHashes(w: World, a: System, step: Step, b: System)
    requires Inv(w, a) && HashInv(w, a) && step.SwitchHead? && SwitchNext(w, a, step, b) && HashSafe(a, step, b)
    ensures HashInv(w, b)
  {
    UntouchedHashesFollow(w, a.known, a.head, step.block, step.route, a.shared, b.shared);
  }

  lemma HashReadKeepsHashes(w: World, a: System, step: Step, b: System)
    requires Inv(w, a) && HashInv(w, a) && step.ReadHash? && ReadHashNext(w, a, step, b)
    ensures HashInv(w, b) && step.answer == StateAt(w, a.states[step.id].block.value, step.key)
  {
    HashReadIsCoherent(w, a.known, a.head, a.shared, a.states[step.id], step.key, b.shared, b.states[step.id],
      step.answer);
  }

  lemma ReadKeepsHashes(w: World, a: System, step: Step, b: System)
    requires HashInv(w, a) && step.Read? && ReadNext(w, a, step, b)
    ensures HashInv(w, b)
  {
    assert b.shared.hashes == a.shared.hashes && b.states[step.id].hashes == a.states[step.id].hashes;
    assert b.states[step.id].block == a.states[step.id].block;
  }

  lemma NextKeepsHashes(w: World, a: System, step: Step, b: System)
    requires Inv(w, a) && HashInv(w, a) && Next(w, a, step, b) && HashSafe(a, step, b)
    ensures HashInv(w, b)
  {
    match step
    case Open(_, _) =>
    case Read(_, _, _) => ReadKeepsHashes(w, a, step, b);
    case ReadHash(_, _, _) => HashReadKeepsHashes(w, a, step, b);
    case Close(_, _) => CloseKeepsHashes(w, a, step, b);
    case Import(_, _, _, _, _) => ImportKeepsHashes(w, a, step, b);
    case SwitchHead(_, _) => SwitchKeepsHashes(w, a, step, b);
  }

  ghost predicate HashSafeRun(trace: seq<System>, steps: seq<Step>)
    requires |trace| == |steps| + 1
  {
    forall i {:trigger steps[i]} :: 0 <= i < |steps| ==> HashSafe(trace[i], steps[i], trace[i + 1])
  }

  lemma StepKeepsHashes(w: World, trace: seq<System>, steps: seq<Step>, i: nat)
    requires IsRun(w, trace, steps) && HashSafeRun(trace, steps) && i < |steps|
    requires Inv(w, trace[i]) && HashInv(w, trace[i])
    ensures HashInv(w, trace[i + 1])
  {
    var step := steps[i];
    NextKeepsHashes(w, trace[i], step, trace[i + 1]);
  }

  lemma {:induction false} RunKeepsHashes(w: World, trace: seq<System>, steps: seq<Step>, n: nat)
    requires IsRun(w, trace, steps) && HashSafeRun(trace, steps) && n < |trace|
    ensures HashInv(w, trace[n])
  {
    if n > 0 {
      RunKeepsHashes(w, trace, steps, n - 1);
      RunInv(w, trace, steps, n - 1);
      StepKeepsHashes(w, trace, steps, n - 1);
    }
  }

  /** Hash reads over whole runs: as long as the routes of switches and best imports are safe in this
  sense, every hash read returns the hash of the value at the block it reads at. */
  lemma HashReadsAreCoherent(w: World, trace: seq<System>, steps: seq<Step>, n: nat)
    requires IsRun(w, trace, steps) && HashSafeRun(trace, steps) && n < |steps| && steps[n].ReadHash?
    ensures steps[n].id in trace[n].states && trace[n].states[steps[n].id].block.Some?
    ensures trace[n].states[steps[n].id].block.value in w.tree.headers
    ensures steps[n].answer == StateAt(w, trace[n].states[steps[n].id].block.value, steps[n].key)
  {
    RunInv(w, trace, steps, n);
    RunKeepsHashes(w, trace, steps, n);
    var step := steps[n];
    HashReadKeepsHashes(w, trace[n], step, trace[n + 1]);
  }

  // ---------------------------------------------------------------- a stale hash

  const K := Top([])

  /** `A` and `B` write different values to one key; `C`, on top of `B`, writes nothing. */
  const FORK_WORLD := RawWorld(
    FORK,
    map[GENESIS := [], A := [Item(K, 0, Some([1]), 1)], B := [Item(K, 0, Some([2]), 1)], C := []],
    map[GENESIS := [], A := [], B := [], C := []])

  /** The cache with `A` as head, all three blocks in the window and the hash of `K` cached. */
  const AT_A := Shared(
    Lru([], 0, 10), Lru([], 0, 10), Lru([Item(K, 0, Some([1]), 1)], 1, 10),
    [BlockChanges(2, C, B, {}, {}, false), BlockChanges(1, A, GENESIS, {K}, {}, true),
     BlockChanges(1, B, GENESIS, {K}, {}, false)])

  lemma ForkState()
    ensures FORK.Valid() && FORK_WORLD.Valid()
    ensures StateAt(FORK_WORLD, A, K) == Some([1]) && StateAt(FORK_WORLD, C, K) == Some([2])
  {
    ForkAncestors();
    assert LastWrite([Item(K, 0, Some([1]), 1)], K) == Some(Some([1]));
    assert LastWrite([Item(K, 0, Some([2]), 1)], K) == Some(Some([2]));
    assert StateAt(FORK_WORLD, B, K) == Some([2]);
  }

  const EVERY := {GENESIS, A, B, C}

  lemma AtAWindow()
    ensures FORK_WORLD.Valid() && WindowOk(FORK_WORLD, EVERY, A, AT_A.mods)
  {
    ForkAncestors();
    ForkState();
    assert Keys([]) == {} && Keys([Item(K, 0, Some([1]), 1)]) == {K} && Keys([Item(K, 0, Some([2]), 1)]) == {K};
  }

  /** The cache is one that fits the world: coherent at `A`, with the right hash cached. */
  lemma AtAFits()
    ensures FORK_WORLD.Valid() && Fits(FORK_WORLD, FORK, EVERY, A, AT_A)
  {
    ForkState();
    AtAWindow();
  }

  lemma ForkRoute()
    ensures FORK.Valid() && IsRoute(FORK, A, C, TreeRoute([A, GENESIS, B, C], 1))
  {
    ForkAncestors();
    var t: Tree := FORK;
    var r := TreeRoute([A, GENESIS, B, C], 1);
    assert r.Retracted() == [A] && r.Enacted() == [B, C] && r.Common() == GENESIS;
    assert Down(t, A, 0) == [A] && Up(t, C, 0) == [B, C];
  }

  /** After the switch the window says that `C` is canonical, and the hash is still there. */
  lemma AfterSwitch(t: Shared)
    requires Synced(AT_A, t, [B, C], [A])
    ensures IsAllowed(t.mods, C, K) && t.hashes.items == [Item(K, 0, Some([1]), 1)]
  {
    var mods := AT_A.mods;
    assert Find(mods, C) == 0 && Find(mods, A) == 1;
    assert Find(mods[1..][1..], B) == 0;
    assert AllListed(mods, [B, C] + [A]);
    SwitchFlags(mods, Flag(Flag(Flag(mods, B, true), C, true), A, false));
    assert t.mods[0] == BlockChanges(2, C, B, {}, {}, true);
  }

  /** After the switch from `A` to `C` a hash read at `C` may use the shared cache, and finds there
  the hash of the value at `A`. */
  lemma StaleHashAfterSwitch(t: Shared)
    requires Synced(AT_A, t, [B, C], [A])
    ensures FORK_WORLD.Valid() && Fits(FORK_WORLD, FORK, EVERY, A, AT_A)
    ensures var r := TreeRoute([A, GENESIS, B, C], 1);
      IsRoute(FORK, A, C, r) && r.Enacted() == [B, C] && r.Retracted() == [A]
    ensures IsAllowed(t.mods, C, K) && t.hashes.items == [Item(K, 0, Some([1]), 1)]
    ensures StateAt(FORK_WORLD, C, K) == Some([2])
  {
    ForkState();
    AtAFits();
    ForkRoute();
    AfterSwitch(t);
  }

  lemma SwitchFlags(mods: seq<BlockChanges>, f: seq<BlockChanges>)
    requires f == Flag(Flag(Flag(mods, B, true), C, true), A, false)
    ensures FlagAll(FlagAll(mods, [B, C], true), [A], false) == f
  {
    var g := Flag(Flag(mods, B, true), C, true);
    assert [B, C][1..] == [C] && [C][1..] == [];
    assert FlagAll(Flag(mods, B, true), [C], true) == g;
    assert FlagAll(mods, [B, C], true) == g;
  }
}
