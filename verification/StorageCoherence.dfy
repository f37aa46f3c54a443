/** Whatever layer answers, a read at a block returns the value of that block's backing state:
over every run of imports, head switches, reads and drops, on every block tree. */
module StorageCoherence {
  import opened BlockTree
  import opened LruMap
  import opened StorageCache

  /** What every block of the tree writes, to the main trie and to child tries. */
  datatype RawWorld = RawWorld(tree: Tree, changes: map<Hash, seq<Entry>>, childChanges: map<Hash, seq<Entry>>) {
    ghost predicate Valid() {
      && changes.Keys == tree.headers.Keys && childChanges.Keys == tree.headers.Keys
      && (forall h, e :: h in changes && e in changes[h] ==> e.key.Top?)
      && (forall h, e :: h in childChanges && e in childChanges[h] ==> e.key.Child?)
    }
  }

  type World = w: RawWorld | w.Valid()
    witness RawWorld(LONE_GENESIS, map[Hash(1) := []], map[Hash(1) := []])

  function Writes(w: World, h: Hash, k: Key): seq<Entry>
    requires h in w.tree.headers
  {
    if k.Top? then w.changes[h] else w.childChanges[h]
  }

  /** The backing state of a block: its own writes over the state of its parent. */
  function StateAt(w: World, h: Hash, k: Key): Value
    requires h in w.tree.headers
    decreases Number(w.tree, h)
  {
    var own := LastWrite(Writes(w, h, k), k);
    if own.Some? then own.value
    else if h == w.tree.genesis then None
    else StateAt(w, Parent(w.tree, h), k)
  }

  ghost predicate Modifies(w: World, h: Hash, k: Key)
    requires h in w.tree.headers
  {
    k in Keys(Writes(w, h, k))
  }

  lemma UnmodifiedState(w: World, h: Hash, k: Key)
    requires h in w.tree.headers && h != w.tree.genesis && !Modifies(w, h, k)
    ensures StateAt(w, h, k) == StateAt(w, Parent(w.tree, h), k)
  {
    LastWriteKeys(Writes(w, h, k), k);
  }

  /** If no block of the chain above height `n` writes to `k`, its value is that of height `n`. */
  lemma {:induction false} UnmodifiedChain(w: World, h: Hash, n: nat, k: Key)
    requires h in w.tree.headers && n <= Number(w.tree, h)
    requires forall x :: x in w.tree.headers && IsAncestor(w.tree, x, h) && Number(w.tree, x) > n ==> !Modifies(w, x, k)
    ensures StateAt(w, h, k) == StateAt(w, AncestorAt(w.tree, h, n), k)
    decreases Number(w.tree, h)
  {
    if Number(w.tree, h) != n {
      var p := Parent(w.tree, h);
      assert IsAncestor(w.tree, h, h);
      UnmodifiedState(w, h, k);
      forall x | x in w.tree.headers && IsAncestor(w.tree, x, p) && Number(w.tree, x) > n
        ensures !Modifies(w, x, k)
      {
        ParentStep(w.tree, h, Number(w.tree, h));
        assert IsAncestor(w.tree, p, h);
        AncestorTransitive(w.tree, x, p, h);
      }
      UnmodifiedChain(w, p, n, k);
    }
  }

  // ---------------------------------------------------------------- the invariant

  ghost predicate Agrees(w: World, items: seq<Entry>, h: Hash)
    requires h in w.tree.headers
  {
    forall it :: it in items ==> it.value == StateAt(w, h, it.key)
  }

  ghost predicate AllTop(items: seq<Entry>) {
    forall it :: it in items ==> it.key.Top?
  }

  ghost predicate AllChild(items: seq<Entry>) {
    forall it :: it in items ==> it.key.Child?
  }

  ghost predicate Described(w: World, known: set<Hash>, m: BlockChanges)
    requires Closed(w.tree, known)
  {
    && m.hash in known && m.hash != w.tree.genesis
    && m.number == Number(w.tree, m.hash) && m.parent == Parent(w.tree, m.hash)
    && m.storage == Keys(w.changes[m.hash]) && m.childStorage == Keys(w.childChanges[m.hash])
  }

  /** The canonical blocks above any listed canonical block are listed themselves. */
  ghost predicate NoGaps(w: World, head: Hash, mods: seq<BlockChanges>)
    requires head in w.tree.headers
  {
    forall i, x ::
      (0 <= i < |mods| && mods[i].isCanon && x in w.tree.headers && IsAncestor(w.tree, x, head)
       && Number(w.tree, x) > mods[i].number) ==> Listed(mods, x)
  }

  ghost predicate Ordered(mods: seq<BlockChanges>) {
    forall i, j :: 0 <= i < j < |mods| ==> mods[i].number >= mods[j].number && mods[i].hash != mods[j].hash
  }

  ghost predicate WindowOk(w: World, known: set<Hash>, head: Hash, mods: seq<BlockChanges>) {
    && Closed(w.tree, known) && head in known
    && |mods| <= STATE_CACHE_BLOCKS
    && Ordered(mods)
    && (forall i :: 0 <= i < |mods| ==> Described(w, known, mods[i]))
    && (forall i :: 0 <= i < |mods| && mods[i].isCanon ==> IsAncestor(w.tree, mods[i].hash, head))
    && NoGaps(w, head, mods)
  }

  ghost predicate Coherent(w: World, known: set<Hash>, head: Hash, s: Shared) {
    && WindowOk(w, known, head, s.mods)
    && Tidy(s)
    && AllTop(s.top.items) && AllChild(s.child.items)
    && Agrees(w, s.top.items, head) && Agrees(w, s.child.items, head)
  }

  // ---------------------------------------------------------------- reading

  lemma ListedAt(mods: seq<BlockChanges>, i: nat)
    requires Ordered(mods) && i < |mods|
    ensures Find(mods, mods[i].hash) == i
  {
  }

  lemma TouchesIsModifies(w: World, known: set<Hash>, m: BlockChanges, k: Key)
    requires Closed(w.tree, known) && Described(w, known, m)
    ensures Touches(m, k) <==> Modifies(w, m.hash, k)
  {
  }

  /** The scan has passed the first `i` entries, none of which touches the key, and now looks for `p`. */
  lemma {:induction false} AllowedMeansUnmodified(
    w: World, known: set<Hash>, head: Hash, mods: seq<BlockChanges>, i: nat, p: Hash, k: Key)
    requires WindowOk(w, known, head, mods) && i <= |mods| && p in known
    requires forall j :: 0 <= j < i ==> !Touches(mods[j], k)
    requires IsAllowed(mods[i..], p, k)
    ensures StateAt(w, p, k) == StateAt(w, head, k)
    decreases |mods| - i
  {
    var m := mods[i];
    assert mods[i..][1..] == mods[i + 1..];
    assert Described(w, known, m);
    if m.hash == p && m.isCanon {
      forall x | x in w.tree.headers && IsAncestor(w.tree, x, head) && Number(w.tree, x) > m.number
        ensures !Modifies(w, x, k)
      {
        var j := Find(mods, x);
        assert Listed(mods, x);
        assert Described(w, known, mods[j]);
        assert j < i;
        TouchesIsModifies(w, known, mods[j], k);
      }
      UnmodifiedChain(w, head, m.number, k);
    } else if m.hash == p {
      TouchesIsModifies(w, known, m, k);
      UnmodifiedState(w, p, k);
      AllowedMeansUnmodified(w, known, head, mods, i + 1, m.parent, k);
    } else {
      AllowedMeansUnmodified(w, known, head, mods, i + 1, p, k);
    }
  }

  /** Local values are values of the state they were read at. */
  ghost predicate LocalOk(w: World, known: set<Hash>, l: Local) {
    && Closed(w.tree, known)
    && WellKeyed(l.storage) && WellKeyed(l.childStorage)
    && (forall k :: k in l.storage ==> k.Top?) && (forall k :: k in l.childStorage ==> k.Child?)
    && (l.block.Some? ==>
          && l.block.value in known
          && (forall k :: k in l.storage ==> l.storage[k].value == StateAt(w, l.block.value, k))
          && (forall k :: k in l.childStorage ==> l.childStorage[k].value == StateAt(w, l.block.value, k)))
  }

  /** Every read returns the backing value, whichever layer answers, and spoils nothing. */
  lemma ReadIsCoherent(w: World, known: set<Hash>, head: Hash, s: Shared, l: Local, k: Key, t: Shared, m: Local,
                       answer: Value)
    requires Coherent(w, known, head, s) && LocalOk(w, known, l) && l.block.Some?
    requires ReadStep(s, l, k, StateAt(w, l.block.value, k), t, m, answer)
    ensures answer == StateAt(w, l.block.value, k)
    ensures Coherent(w, known, head, t) && LocalOk(w, known, m) && m.block == l.block
  {
    if k !in LocalLayer(l, k) && SharedAnswers(s, l, k) {
      assert s.mods[0..] == s.mods;
      AllowedMeansUnmodified(w, known, head, s.mods, 0, l.block.value, k);
      GottenItems(Layer(s, k), k);
      TouchedIsCoherent(w, known, head, s, k, t);
    }
  }

  /** Moving an entry to the front of a layer keeps the cache coherent. */
  lemma TouchedIsCoherent(w: World, known: set<Hash>, head: Hash, s: Shared, k: Key, t: Shared)
    requires Coherent(w, known, head, s) && Tidy(t) && t == WithLayer(s, k, Get(Layer(s, k), k))
    ensures Coherent(w, known, head, t)
  {
    GottenItems(Layer(s, k), k);
  }

  // ---------------------------------------------------------------- following a route

  lemma {:induction false} FlagAllAt(mods: seq<BlockChanges>, blocks: seq<Hash>, isCanon: bool, i: nat)
    requires Ordered(mods) && i < |mods|
    ensures FlagAll(mods, blocks, isCanon)[i] ==
      if mods[i].hash in blocks then mods[i].(isCanon := isCanon) else mods[i]
    decreases |blocks|
  {
    if blocks != [] {
      ListedAt(mods, i);
      assert Flag(mods, blocks[0], isCanon)[i] ==
        if mods[i].hash == blocks[0] then mods[i].(isCanon := isCanon) else mods[i];
      FlagAllAt(Flag(mods, blocks[0], isCanon), blocks[1..], isCanon, i);
    }
  }

  /** Both flagging passes at once: an entry is canonical afterwards if the route enacts it, or if it
  was and the route does not retract it. */
  lemma RouteFlags(w: World, known: set<Hash>, from: Hash, to: Hash, r: TreeRoute, mods: seq<BlockChanges>)
    requires WindowOk(w, known, from, mods) && to in known && IsRoute(w.tree, from, to, r)
    ensures var f := FlagAll(FlagAll(mods, r.Enacted(), true), r.Retracted(), false);
            && |f| == |mods|
            && SameKeys(mods, f)
            && forall i :: 0 <= i < |mods| ==>
                 && f[i] == mods[i].(isCanon := f[i].isCanon)
                 && (f[i].isCanon <==>
                       mods[i].hash in r.Enacted() || (mods[i].isCanon && mods[i].hash !in r.Retracted()))
  {
    var g := FlagAll(mods, r.Enacted(), true);
    forall i | 0 <= i < |mods|
      ensures g[i] == if mods[i].hash in r.Enacted() then mods[i].(isCanon := true) else mods[i]
    {
      FlagAllAt(mods, r.Enacted(), true, i);
    }
    forall i | 0 <= i < |mods|
      ensures FlagAll(g, r.Retracted(), false)[i] ==
        if g[i].hash in r.Retracted() then g[i].(isCanon := false) else g[i]
    {
      FlagAllAt(g, r.Retracted(), false, i);
    }
    forall i | 0 <= i < |mods|
      ensures !(mods[i].hash in r.Enacted() && mods[i].hash in r.Retracted())
    {
      assert Described(w, known, mods[i]);
      RouteBlocks(w.tree, from, to, r, mods[i].hash);
    }
    FlagAllKeepsKeys(mods, r.Enacted(), true);
    FlagAllKeepsKeys(g, r.Retracted(), false);
  }

  lemma RouteKeepsWindow(w: World, known: set<Hash>, from: Hash, to: Hash, r: TreeRoute, mods: seq<BlockChanges>)
    requires WindowOk(w, known, from, mods) && to in known && IsRoute(w.tree, from, to, r)
    requires AllListed(mods, r.Enacted() + r.Retracted())
    ensures WindowOk(w, known, to, FlagAll(FlagAll(mods, r.Enacted(), true), r.Retracted(), false))
  {
    var f := FlagAll(FlagAll(mods, r.Enacted(), true), r.Retracted(), false);
    RouteFlags(w, known, from, to, r, mods);
    forall i | 0 <= i < |f|
      ensures Described(w, known, f[i]) && (f[i].isCanon ==> IsAncestor(w.tree, f[i].hash, to))
    {
      assert Described(w, known, mods[i]);
      RouteBlocks(w.tree, from, to, r, mods[i].hash);
    }
    forall i, x |
      && 0 <= i < |f| && f[i].isCanon && x in w.tree.headers
      && IsAncestor(w.tree, x, to) && Number(w.tree, x) > f[i].number
      ensures Listed(f, x)
    {
      RouteBlocks(w.tree, from, to, r, x);
      assert Described(w, known, mods[i]);
      RouteBlocks(w.tree, from, to, r, mods[i].hash);
      AllListedConcat(mods, r.Enacted(), r.Retracted());
      if !IsAncestor(w.tree, x, from) {
        assert Listed(mods, x);
      } else if !mods[i].isCanon {
        AncestorsOnOneChain(w.tree, mods[i].hash, x, to);
        AncestorTransitive(w.tree, mods[i].hash, x, from);
      }
      assert Find(f, x) == Find(mods, x);
    }
  }

  lemma RouteKeepsValue(w: World, known: set<Hash>, from: Hash, to: Hash, r: TreeRoute, mods: seq<BlockChanges>, k: Key)
    requires WindowOk(w, known, from, mods) && to in known && IsRoute(w.tree, from, to, r)
    requires AllListed(mods, r.Enacted() + r.Retracted())
    requires k !in ChangedByAny(mods, r.Enacted() + r.Retracted(), k.Top?)
    ensures StateAt(w, from, k) == StateAt(w, to, k)
  {
    var n := Number(w.tree, r.Common());
    forall x | x in w.tree.headers && (x in r.Enacted() || x in r.Retracted())
      ensures !Modifies(w, x, k)
    {
      assert x in r.Enacted() + r.Retracted();
      assert Listed(mods, x);
      assert Described(w, known, mods[Find(mods, x)]);
      assert k !in Changed(mods, x, k.Top?);
    }
    forall x | x in w.tree.headers && IsAncestor(w.tree, x, from) && Number(w.tree, x) > n
      ensures !Modifies(w, x, k)
    {
      DownContains(w.tree, from, n, x);
    }
    UnmodifiedChain(w, from, n, k);
    forall x | x in w.tree.headers && IsAncestor(w.tree, x, to) && Number(w.tree, x) > n
      ensures !Modifies(w, x, k)
    {
      UpContains(w.tree, to, n, x);
    }
    UnmodifiedChain(w, to, n, k);
  }

  /** Synchronising along the route to a block makes the cache reflect the state of that block. */
  lemma SyncIsCoherent(w: World, known: set<Hash>, from: Hash, to: Hash, r: TreeRoute, s: Shared, t: Shared)
    requires Coherent(w, known, from, s) && to in known && IsRoute(w.tree, from, to, r)
    requires Tidy(t) && Synced(s, t, r.Enacted(), r.Retracted())
    ensures Coherent(w, known, to, t)
  {
    if AllListed(s.mods, r.Enacted() + r.Retracted()) {
      RouteKeepsWindow(w, known, from, to, r, s.mods);
      forall it | it in t.top.items
        ensures it.value == StateAt(w, to, it.key)
      {
        RouteKeepsValue(w, known, from, to, r, s.mods, it.key);
      }
      forall it | it in t.child.items
        ensures it.value == StateAt(w, to, it.key)
      {
        RouteKeepsValue(w, known, from, to, r, s.mods, it.key);
      }
    }
  }

  // ---------------------------------------------------------------- handing over and committing

  lemma ReceivedItems(s: Lru<Key, Value>, local: map<Key, Entry>, t: Lru<Key, Value>)
    requires Distinct(s.items) && Received(s, local, t)
    ensures Distinct(t.items)
    ensures forall it :: it in t.items ==> it in s.items || (it.key in local && local[it.key].value == it.value)
  {
    var drained :| Enumerates(drained, local) && t == AddAll(s, drained);
    AddAllItems(s, drained);
    forall it | it in t.items
      ensures it in s.items || (it.key in local && local[it.key].value == it.value)
    {
      LastWriteKeys(drained, it.key);
    }
  }

  lemma HandOverIsCoherent(w: World, known: set<Hash>, head: Hash, s: Shared, l: Local, isBest: bool, t: Shared,
                           m: Local)
    requires Coherent(w, known, head, s) && LocalOk(w, known, l)
    requires isBest && l.block.Some? ==> l.block.value == head
    requires HandedOver(s, l, isBest, t, m)
    ensures Coherent(w, known, head, t) && LocalOk(w, known, m)
  {
    if l.block.Some? && isBest {
      ReceivedItems(s.top, l.storage, t.top);
      ReceivedItems(s.child, l.childStorage, t.child);
    }
  }

  /** The window after forgetting its last entry. */
  lemma ForgetKeepsWindow(w: World, known: set<Hash>, head: Hash, mods: seq<BlockChanges>)
    requires WindowOk(w, known, head, mods) && mods != []
    ensures WindowOk(w, known, head, mods[..|mods| - 1])
  {
    var f := mods[..|mods| - 1];
    forall i, x |
      && 0 <= i < |f| && f[i].isCanon && x in w.tree.headers
      && IsAncestor(w.tree, x, head) && Number(w.tree, x) > f[i].number
      ensures Listed(f, x)
    {
      assert mods[i].isCanon;
      var j := Find(mods, x);
      assert Listed(mods, x) && Described(w, known, mods[j]);
      assert j < i;
      assert f[j].hash == x;
    }
  }

  /** Where the entries of the window are after inserting `m`. */
  lemma InsertShape(mods: seq<BlockChanges>, m: BlockChanges)
    requires Ordered(mods) && |mods| < STATE_CACHE_BLOCKS && !Listed(mods, m.hash)
    ensures var f, i := Recorded(mods, m), InsertAt(mods, m.number);
            && Ordered(f) && |f| == |mods| + 1 && f[i] == m
            && (forall j :: 0 <= j < i ==> f[j] == mods[j]) && (forall j :: i < j < |f| ==> f[j] == mods[j - 1])
  {
    var i := InsertAt(mods, m.number);
    var f := mods[..i] + [m] + mods[i..];
    InsertOrdered(mods, m, i, f);
    Spliced(mods, m, i);
    assert Recorded(mods, m) == f;
  }

  lemma Spliced(mods: seq<BlockChanges>, m: BlockChanges, i: nat)
    requires i <= |mods|
    ensures var f := mods[..i] + [m] + mods[i..];
            && |f| == |mods| + 1 && f[i] == m
            && (forall j :: 0 <= j < i ==> f[j] == mods[j]) && (forall j :: i < j < |f| ==> f[j] == mods[j - 1])
  {
  }

  lemma InsertOrdered(mods: seq<BlockChanges>, m: BlockChanges, i: nat, f: seq<BlockChanges>)
    requires Ordered(mods) && !Listed(mods, m.hash) && i <= |mods| && f == mods[..i] + [m] + mods[i..]
    requires forall j :: 0 <= j < i ==> mods[j].number >= m.number
    requires i < |mods| ==> mods[i].number < m.number
    ensures Ordered(f)
  {
    assert forall j :: 0 <= j < |mods| ==> mods[j].hash != m.hash;
  }

  lemma InsertKeepsListed(mods: seq<BlockChanges>, m: BlockChanges, x: Hash)
    requires |mods| < STATE_CACHE_BLOCKS && (x == m.hash || Listed(mods, x))
    ensures Listed(Recorded(mods, m), x)
  {
    var f, i, o := Recorded(mods, m), InsertAt(mods, m.number), Find(mods, x);
    assert f == mods[..i] + [m] + mods[i..];
    assert f[i] == m && (o < i ==> f[o] == mods[o]) && (i <= o < |mods| ==> f[o + 1] == mods[o]);
  }

  lemma InsertKeepsGaps(w: World, known: set<Hash>, head: Hash, mods: seq<BlockChanges>, m: BlockChanges)
    requires WindowOk(w, known, head, mods) && |mods| < STATE_CACHE_BLOCKS && !Listed(mods, m.hash)
    requires m.hash in w.tree.headers && m.hash != w.tree.genesis && m.number == Number(w.tree, m.hash)
    requires m.isCanon ==> Parent(w.tree, m.hash) == head
    ensures NoGaps(w, if m.isCanon then m.hash else head, Recorded(mods, m))
  {
    InsertShape(mods, m);
    var f, i := Recorded(mods, m), InsertAt(mods, m.number);
    var newHead := if m.isCanon then m.hash else head;
    forall j, x |
      && 0 <= j < |f| && f[j].isCanon && x in w.tree.headers
      && IsAncestor(w.tree, x, newHead) && Number(w.tree, x) > f[j].number
      ensures Listed(f, x)
    {
      ChildHead(w.tree, x, head, m.hash);
      if x != m.hash {
        assert j != i;
        assert mods[if j < i then j else j - 1].isCanon;
        assert Listed(mods, x);
      }
      InsertKeepsListed(mods, m, x);
    }
  }

  lemma InsertKeepsWindow(w: World, known: set<Hash>, head: Hash, mods: seq<BlockChanges>, m: BlockChanges)
    requires WindowOk(w, known, head, mods) && |mods| < STATE_CACHE_BLOCKS
    requires m.hash in w.tree.headers && m.hash !in known && m.hash != w.tree.genesis
    requires Closed(w.tree, known + {m.hash}) && Described(w, known + {m.hash}, m)
    requires m.isCanon ==> m.parent == head
    ensures WindowOk(w, known + {m.hash}, if m.isCanon then m.hash else head, Recorded(mods, m))
  {
    var f, i := Recorded(mods, m), InsertAt(mods, m.number);
    forall j | 0 <= j < |mods|
      ensures mods[j].hash != m.hash
    {
      assert Described(w, known, mods[j]);
    }
    InsertShape(mods, m);
    InsertKeepsGaps(w, known, head, mods, m);
    forall j | 0 <= j < |f|
      ensures Described(w, known + {m.hash}, f[j])
      ensures f[j].isCanon ==> IsAncestor(w.tree, f[j].hash, if m.isCanon then m.hash else head)
    {
      if j != i {
        assert Described(w, known, mods[if j < i then j else j - 1]);
        ChildHead(w.tree, f[j].hash, head, m.hash);
      }
    }
  }

  /** The proper ancestors of a child are its parent and the ancestors of its parent. */
  lemma ChildHead(t: Tree, x: Hash, parent: Hash, child: Hash)
    requires x in t.headers && parent in t.headers && child in t.headers
    ensures child != t.genesis && Parent(t, child) == parent ==>
      (IsAncestor(t, x, child) <==> x == child || IsAncestor(t, x, parent))
  {
    if child != t.genesis && Parent(t, child) == parent {
      assert Number(t, child) == Number(t, parent) + 1;
    }
  }

  lemma RecordKeepsWindow(w: World, known: set<Hash>, head: Hash, mods: seq<BlockChanges>, m: BlockChanges)
    requires WindowOk(w, known, head, mods)
    requires m.hash in w.tree.headers && m.hash !in known && m.hash != w.tree.genesis
    requires Closed(w.tree, known + {m.hash}) && Described(w, known + {m.hash}, m)
    requires m.isCanon ==> m.parent == head
    ensures WindowOk(w, known + {m.hash}, if m.isCanon then m.hash else head, Recorded(mods, m))
  {
    if |mods| == STATE_CACHE_BLOCKS {
      ForgetKeepsWindow(w, known, head, mods);
      InsertKeepsWindow(w, known, head, mods[..|mods| - 1], m);
    } else {
      InsertKeepsWindow(w, known, head, mods, m);
    }
  }

  lemma WritesReachState(w: World, parent: Hash, child: Hash, l: Lru<Key, Value>, entries: seq<Entry>, top: bool)
    requires parent in w.tree.headers && child in w.tree.headers && child != w.tree.genesis
    requires Parent(w.tree, child) == parent
    requires entries == if top then w.changes[child] else w.childChanges[child]
    requires Distinct(l.items) && Agrees(w, l.items, parent) && forall it :: it in l.items ==> it.key.Top? == top
    ensures Agrees(w, AddAll(l, entries).items, child)
    ensures forall it :: it in AddAll(l, entries).items ==> it.key.Top? == top
  {
    AddAllItems(l, entries);
    forall it | it in AddAll(l, entries).items
      ensures it.value == StateAt(w, child, it.key) && it.key.Top? == top
    {
      LastWriteKeys(entries, it.key);
    }
  }

  /** Recording a fresh block keeps the cache coherent: at the block when it becomes the head, else at the old head. */
  lemma CommitIsCoherent(w: World, known: set<Hash>, head: Hash, s: Shared, h: Hash, isBest: bool, t: Shared)
    requires Coherent(w, known, head, s)
    requires h in w.tree.headers && h !in known && h != w.tree.genesis && Parent(w.tree, h) in known
    requires isBest ==> Parent(w.tree, h) == head
    requires Committed(s, Parent(w.tree, h), w.changes[h], w.childChanges[h], (h, Number(w.tree, h)), isBest, t)
    ensures Coherent(w, known + {h}, if isBest then h else head, t)
  {
    var m := BlockChanges(Number(w.tree, h), h, Parent(w.tree, h), Keys(w.changes[h]), Keys(w.childChanges[h]), isBest);
    RecordKeepsWindow(w, known, head, s.mods, m);
    if isBest {
      WritesReachState(w, head, h, s.top, w.changes[h], true);
      WritesReachState(w, head, h, s.child, w.childChanges[h], false);
    }
  }
}
