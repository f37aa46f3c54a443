/** The shared canonical state cache: three size-bounded maps that reflect the state of the head,
and a window of the most recent blocks with the keys each of them changed. */
module StorageCache {
  import opened BlockTree
  import opened LruMap

  const STATE_CACHE_BLOCKS := 12

  type Bytes = seq<nat>

  /** A key of the main trie, or of the child trie `child`. */
  datatype Key = Top(key: Bytes) | Child(child: Bytes, key: Bytes)

  /** `None` is a key known to be missing. */
  type Value = Option<Bytes>

  type Entry = Item<Key, Value>

  datatype BlockChanges = BlockChanges(
    number: nat, hash: Hash, parent: Hash, storage: set<Key>, childStorage: set<Key>, isCanon: bool)

  /** The contents of the cache. A cached hash is represented by the value it is the hash of. */
  datatype Shared = Shared(
    top: Lru<Key, Value>, child: Lru<Key, Value>, hashes: Lru<Key, Value>, mods: seq<BlockChanges>)

  ghost predicate Tidy(s: Shared) {
    Distinct(s.top.items) && Distinct(s.child.items) && Distinct(s.hashes.items)
  }

  // ---------------------------------------------------------------- synchronising with a route

  function Find(mods: seq<BlockChanges>, h: Hash): (i: nat)
    ensures i <= |mods|
    ensures i < |mods| ==> mods[i].hash == h
    ensures forall j :: 0 <= j < i ==> mods[j].hash != h
  {
    if mods == [] || mods[0].hash == h then 0 else 1 + Find(mods[1..], h)
  }

  predicate Listed(mods: seq<BlockChanges>, h: Hash) {
    Find(mods, h) < |mods|
  }

  /** The first entry of `h` with its flag set. */
  function Flag(mods: seq<BlockChanges>, h: Hash, isCanon: bool): (r: seq<BlockChanges>)
    ensures |r| == |mods|
    ensures forall i :: 0 <= i < |mods| ==> r[i] == mods[i] || r[i] == mods[i].(isCanon := isCanon)
    ensures forall i :: 0 <= i < |mods| && mods[i].hash != h ==> r[i] == mods[i]
  {
    var i := Find(mods, h);
    if i == |mods| then mods else mods[i := mods[i].(isCanon := isCanon)]
  }

  function FlagAll(mods: seq<BlockChanges>, blocks: seq<Hash>, isCanon: bool): (r: seq<BlockChanges>)
    ensures |r| == |mods|
    decreases |blocks|
  {
    if blocks == [] then mods else FlagAll(Flag(mods, blocks[0], isCanon), blocks[1..], isCanon)
  }

  /** The main-trie (`top`) or child-trie keys that the window holds for block `h`. */
  function Changed(mods: seq<BlockChanges>, h: Hash, top: bool): set<Key> {
    if !Listed(mods, h) then {}
    else if top then mods[Find(mods, h)].storage
    else mods[Find(mods, h)].childStorage
  }

  function ChangedByAny(mods: seq<BlockChanges>, blocks: seq<Hash>, top: bool): set<Key> {
    set b, k | b in blocks && k in Changed(mods, b, top) :: k
  }

  ghost predicate AllListed(mods: seq<BlockChanges>, blocks: seq<Hash>) {
    forall b :: b in blocks ==> Listed(mods, b)
  }

  /** `after` holds the items of `before` with other keys. */
  ghost predicate DroppedFrom(before: seq<Entry>, after: seq<Entry>, keys: set<Key>) {
    forall it :: it in after <==> it in before && it.key !in keys
  }

  ghost predicate Wiped(s: Shared) {
    s.top.items == [] && s.child.items == [] && s.hashes.items == [] && s.mods == []
  }

  /** What `sync` does: keep the entries untouched by the route, or forget everything when a block
  of the route is unknown. */
  ghost predicate Synced(s: Shared, t: Shared, enacted: seq<Hash>, retracted: seq<Hash>) {
    if AllListed(s.mods, enacted + retracted) then
      && t.mods == FlagAll(FlagAll(s.mods, enacted, true), retracted, false)
      && DroppedFrom(s.top.items, t.top.items, ChangedByAny(s.mods, enacted + retracted, true))
      && DroppedFrom(s.child.items, t.child.items, ChangedByAny(s.mods, enacted + retracted, false))
      && t.hashes == s.hashes
    else
      Wiped(t)
  }

  lemma ChangedByOne(mods: seq<BlockChanges>, b: Hash)
    ensures ChangedByAny(mods, [b], true) == Changed(mods, b, true)
    ensures ChangedByAny(mods, [b], false) == Changed(mods, b, false)
  {
    forall top: bool, k | k in Changed(mods, b, top)
      ensures k in ChangedByAny(mods, [b], top)
    {
      assert b in [b];
    }
  }

  lemma ChangedByMore(mods: seq<BlockChanges>, a: seq<Hash>, b: seq<Hash>)
    ensures ChangedByAny(mods, a + b, true) == ChangedByAny(mods, a, true) + ChangedByAny(mods, b, true)
    ensures ChangedByAny(mods, a + b, false) == ChangedByAny(mods, a, false) + ChangedByAny(mods, b, false)
  {
  }

  lemma AllListedConcat(mods: seq<BlockChanges>, a: seq<Hash>, b: seq<Hash>)
    ensures AllListed(mods, a + b) <==> AllListed(mods, a) && AllListed(mods, b)
  {
    if AllListed(mods, a + b) {
      forall h | h in a || h in b
        ensures Listed(mods, h)
      {
        assert h in a + b;
      }
    }
  }

  /** Flags do not change which blocks are listed, nor their keys. */
  ghost predicate SameKeys(a: seq<BlockChanges>, b: seq<BlockChanges>) {
    forall h ::
      && Find(a, h) == Find(b, h)
      && Changed(a, h, true) == Changed(b, h, true) && Changed(a, h, false) == Changed(b, h, false)
  }

  lemma FlagKeepsKeys(mods: seq<BlockChanges>, h: Hash, isCanon: bool)
    ensures SameKeys(mods, Flag(mods, h, isCanon))
  {
    var f := Flag(mods, h, isCanon);
    forall b
      ensures Find(f, b) == Find(mods, b)
    {
      assert forall k :: 0 <= k < |mods| ==> f[k].hash == mods[k].hash;
    }
  }

  lemma {:induction false} FlagAllKeepsKeys(mods: seq<BlockChanges>, blocks: seq<Hash>, isCanon: bool)
    ensures SameKeys(mods, FlagAll(mods, blocks, isCanon))
    decreases |blocks|
  {
    if blocks != [] {
      FlagKeepsKeys(mods, blocks[0], isCanon);
      FlagAllKeepsKeys(Flag(mods, blocks[0], isCanon), blocks[1..], isCanon);
    }
  }

  // ---------------------------------------------------------------- committing a block

  function AddAll(l: Lru<Key, Value>, entries: seq<Entry>): Lru<Key, Value>
    decreases |entries|
  {
    if entries == [] then l else AddAll(Add(l, entries[0]), entries[1..])
  }

  function Keys(entries: seq<Entry>): set<Key> {
    set e | e in entries :: e.key
  }

  /** Entries stay ordered by falling number; a new one goes behind those of its own height. */
  function InsertAt(mods: seq<BlockChanges>, number: nat): (i: nat)
    ensures i <= |mods|
    ensures i < |mods| ==> mods[i].number < number
    ensures forall j :: 0 <= j < i ==> mods[j].number >= number
  {
    if mods == [] || mods[0].number < number then 0 else 1 + InsertAt(mods[1..], number)
  }

  function Recorded(mods: seq<BlockChanges>, m: BlockChanges): seq<BlockChanges> {
    var window := if |mods| == STATE_CACHE_BLOCKS then mods[..|mods| - 1] else mods;
    var i := InsertAt(window, m.number);
    window[..i] + [m] + window[i..]
  }

  // ---------------------------------------------------------------- reading

  predicate Touches(m: BlockChanges, key: Key) {
    if key.Top? then key in m.storage else key in m.childStorage
  }

  /** May a state on top of `parent` be answered from the shared cache? */
  function IsAllowed(mods: seq<BlockChanges>, parent: Hash, key: Key): bool {
    if mods == [] then
      false
    else if mods[0].hash == parent && mods[0].isCanon then
      true
    else if Touches(mods[0], key) then
      false
    else
      IsAllowed(mods[1..], if mods[0].hash == parent then mods[0].parent else parent, key)
  }

  function Layer(s: Shared, key: Key): Lru<Key, Value> {
    if key.Top? then s.top else s.child
  }

  function WithLayer(s: Shared, key: Key, l: Lru<Key, Value>): Shared {
    if key.Top? then s.(top := l) else s.(child := l)
  }

  /** The values a state on top of `block` has read from its backing state. */
  datatype Local = Local(
    block: Option<Hash>, storage: map<Key, Entry>, childStorage: map<Key, Entry>, hashes: map<Key, Entry>)

  function LocalLayer(l: Local, key: Key): map<Key, Entry> {
    if key.Top? then l.storage else l.childStorage
  }

  ghost predicate SharedAnswers(s: Shared, l: Local, key: Key) {
    && l.block.Some? && IsAllowed(s.mods, l.block.value, key)
    && HasKey(Layer(s, key).items, key)
  }

  /** One read: the local cache answers first, then the shared cache, then the backing state. */
  ghost predicate ReadStep(s: Shared, l: Local, key: Key, backing: Value, t: Shared, m: Local, answer: Value) {
    if key in LocalLayer(l, key) then
      t == s && m == l && answer == LocalLayer(l, key)[key].value
    else if SharedAnswers(s, l, key) then
      && m == l && t == WithLayer(s, key, Get(Layer(s, key), key))
      && exists it :: it in Layer(s, key).items && it.key == key && it.value == answer
    else
      && t == s && answer == backing
      && exists keySize: nat, valueSize: nat ::
           var e := Item(key, keySize, backing, valueSize);
           m == if key.Top? then l.(storage := l.storage[key := e]) else l.(childStorage := l.childStorage[key := e])
  }

  ghost predicate SharedHashAnswers(s: Shared, l: Local, key: Key) {
    l.block.Some? && IsAllowed(s.mods, l.block.value, key) && HasKey(s.hashes.items, key)
  }

  /** One read of the hash of a main-trie value, through the same three layers. */
  ghost predicate ReadHashStep(s: Shared, l: Local, key: Key, backing: Value, t: Shared, m: Local, answer: Value) {
    if key in l.hashes then
      t == s && m == l && answer == l.hashes[key].value
    else if SharedHashAnswers(s, l, key) then
      && m == l && t == s.(hashes := Get(s.hashes, key))
      && exists it :: it in s.hashes.items && it.key == key && it.value == answer
    else
      && t == s && answer == backing
      && exists keySize: nat, valueSize: nat ::
           m == l.(hashes := l.hashes[key := Item(key, keySize, backing, valueSize)])
  }

  /** A sequence that lists the entries of a map, in any order. */
  ghost predicate Enumerates(entries: seq<Entry>, m: map<Key, Entry>) {
    && (forall e :: e in entries ==> e.key in m && m[e.key] == e)
    && (forall k :: k in m ==> m[k] in entries)
  }

  ghost predicate WellKeyed(m: map<Key, Entry>) {
    forall k :: k in m ==> m[k].key == k
  }

  /** Local values reach the shared maps only when the new head is on top of this state. */
  ghost predicate HandedOver(s: Shared, l: Local, isBest: bool, t: Shared, m: Local) {
    && Tidy(t) && t.mods == s.mods
    && if l.block.Some? && isBest then
         && m == Local(l.block, map[], map[], map[])
         && Received(s.top, l.storage, t.top) && Received(s.child, l.childStorage, t.child)
         && Received(s.hashes, l.hashes, t.hashes)
       else
         t == s && m == l
  }

  /** `t` is `s` after adding all entries of the map, in some order. */
  ghost predicate Received(s: Lru<Key, Value>, local: map<Key, Entry>, t: Lru<Key, Value>) {
    exists drained :: Enumerates(drained, local) && t == AddAll(s, drained)
  }

  /** Write the changes of the committed block and list the block. */
  ghost predicate Committed(s: Shared, parent: Hash, changes: seq<Entry>, childChanges: seq<Entry>,
                            commit: (Hash, nat), isBest: bool, t: Shared)
  {
    && Tidy(t)
    && t.mods == Recorded(s.mods, BlockChanges(commit.1, commit.0, parent, Keys(changes), Keys(childChanges), isBest))
    && if isBest then
         && t.top == AddAll(s.top, changes) && t.child == AddAll(s.child, childChanges)
         && DroppedFrom(s.hashes.items, t.hashes.items, Keys(changes))
       else
         t.top == s.top && t.child == s.child && t.hashes == s.hashes
  }

  /** The whole of `sync_cache`, through the states after synchronising and after the hand-over. */
  ghost predicate SyncCacheStep(
    s: Shared, l: Local, enacted: seq<Hash>, retracted: seq<Hash>, changes: seq<Entry>, childChanges: seq<Entry>,
    commit: Option<(Hash, nat)>, isBest: bool, synced: Shared, handed: Shared, t: Shared, m: Local)
  {
    && Tidy(synced) && Synced(s, synced, WithoutBlock(enacted, commit), retracted)
    && HandedOver(synced, l, isBest, handed, m)
    && if l.block.Some? && commit.Some?
       then Committed(handed, l.block.value, changes, childChanges, commit.value, isBest, t)
       else t == handed
  }

  /** The value that the last entry of `k` writes. */
  function LastWrite(entries: seq<Entry>, k: Key): Option<Value> {
    if entries == [] then None
    else if LastWrite(entries[1..], k).Some? then LastWrite(entries[1..], k)
    else if entries[0].key == k then Some(entries[0].value)
    else None
  }

  /** The share of a total that a ratio of numerator and denominator gives. */
  function Portion(total: nat, part: nat, whole: nat): nat
    requires whole > 0
  {
    total * part / whole
  }

  /** After adding, an item has the value last written to its key, or is an old one nobody wrote to. */
  lemma {:induction false} AddAllItems(l: Lru<Key, Value>, entries: seq<Entry>)
    requires Distinct(l.items)
    ensures Distinct(AddAll(l, entries).items)
    ensures forall it :: it in AddAll(l, entries).items ==>
              if LastWrite(entries, it.key).Some? then LastWrite(entries, it.key).value == it.value else it in l.items
    decreases |entries|
  {
    if entries != [] {
      AddedItems(l, entries[0]);
      AddAllItems(Add(l, entries[0]), entries[1..]);
    }
  }

  lemma {:induction false} LastWriteKeys(entries: seq<Entry>, k: Key)
    ensures LastWrite(entries, k).Some? <==> k in Keys(entries)
    ensures LastWrite(entries, k).Some? ==>
      exists e :: e in entries && e.key == k && e.value == LastWrite(entries, k).value
  {
    if entries != [] {
      LastWriteKeys(entries[1..], k);
      assert forall e :: e in entries <==> e == entries[0] || e in entries[1..];
    }
  }

  function WithoutBlock(blocks: seq<Hash>, commit: Option<(Hash, nat)>): seq<Hash> {
    if blocks == [] then []
    else (if commit.Some? && blocks[0] == commit.value.0 then [] else [blocks[0]]) + WithoutBlock(blocks[1..], commit)
  }

  lemma {:induction false} WithoutAbsentBlock(blocks: seq<Hash>, commit: Option<(Hash, nat)>)
    requires commit.Some? ==> commit.value.0 !in blocks
    ensures WithoutBlock(blocks, commit) == blocks
  {
    if blocks != [] {
      WithoutAbsentBlock(blocks[1..], commit);
    }
  }

  // ---------------------------------------------------------------- the objects

  class Cache {
    const top: LRUMap<Key, Value>
    const child: LRUMap<Key, Value>
    const hashes: LRUMap<Key, Value>
    var modifications: seq<BlockChanges>

    ghost predicate Valid()
      reads this, top, child, hashes
    {
      top != child && child != hashes && top != hashes && Tidy(View())
    }

    ghost function View(): Shared
      reads this, top, child, hashes
    {
      Shared(top.View(), child.View(), hashes.View(), modifications)
    }

    /** `new_shared_cache`: the child maps get `ratio.0 / ratio.1` of the memory. */
    constructor (size: nat, ratio: (nat, nat))
      requires ratio.1 > 0
      ensures Valid() && Wiped(View()) && fresh(top) && fresh(child) && fresh(hashes)
    {
      var part := if ratio.1 >= ratio.0 then ratio.1 - ratio.0 else 0;
      top := new LRUMap(Portion(size, part, ratio.1));
      child := new LRUMap(Portion(size, ratio.0, ratio.1));
      hashes := new LRUMap(65536);
      modifications := [];
    }

    /** Remove every key of a change-set. The iteration order and the capacities of the key
    vectors are whatever the set holds. */
    static method DropKeys(l: LRUMap<Key, Value>, keys: set<Key>)
      requires Distinct(l.items)
      modifies l
      ensures Distinct(l.items)
      ensures forall it :: it in l.items <==> it in old(l.items) && it.key !in keys
    {
      var rest := keys;
      while rest != {}
        invariant rest <= keys && Distinct(l.items)
        invariant forall it :: it in l.items <==> it in old(l.items) && it.key !in keys - rest
        decreases rest
      {
        var k :| k in rest;
        var capacity: nat := *;
        WithoutSpec(l.items, k);
        l.Drop(k, capacity);
        rest := rest - {k};
      }
    }

    /** Flag one block of the route and drop the keys it changed; false when it is unknown. */
    method Visit(block: Hash, isCanon: bool) returns (known: bool)
      requires Valid()
      modifies this, top, child
      ensures Valid() && hashes.View() == old(hashes.View())
      ensures known == Listed(old(modifications), block)
      ensures modifications == Flag(old(modifications), block, isCanon)
      ensures known ==> DroppedFrom(old(top.items), top.items, Changed(old(modifications), block, true))
      ensures known ==> DroppedFrom(old(child.items), child.items, Changed(old(modifications), block, false))
      ensures !known ==> View() == old(View())
    {
      var i := Find(modifications, block);
      known := i < |modifications|;
      if known {
        DropKeys(top, modifications[i].storage);
        DropKeys(child, modifications[i].childStorage);
        modifications := modifications[i := modifications[i].(isCanon := isCanon)];
      }
    }

    /** One of the two loops of `sync`: stop visiting at the first unknown block. */
    method VisitAll(blocks: seq<Hash>, isCanon: bool, clear: bool) returns (unknown: bool)
      requires Valid()
      modifies this, top, child
      ensures Valid() && hashes.View() == old(hashes.View())
      ensures unknown == (clear || !AllListed(old(modifications), blocks))
      ensures !unknown ==> modifications == FlagAll(old(modifications), blocks, isCanon)
      ensures !unknown ==> DroppedFrom(old(top.items), top.items, ChangedByAny(old(modifications), blocks, true))
      ensures !unknown ==> DroppedFrom(old(child.items), child.items, ChangedByAny(old(modifications), blocks, false))
    {
      unknown := clear;
      ghost var mods := modifications;
      for i := 0 to |blocks|
        invariant Valid() && hashes.View() == old(hashes.View())
        invariant unknown == (clear || !AllListed(mods, blocks[..i]))
        invariant SameKeys(mods, modifications)
        invariant !unknown ==> FlagAll(modifications, blocks[i..], isCanon) == FlagAll(mods, blocks, isCanon)
        invariant !unknown ==> DroppedFrom(old(top.items), top.items, ChangedByAny(mods, blocks[..i], true))
        invariant !unknown ==> DroppedFrom(old(child.items), child.items, ChangedByAny(mods, blocks[..i], false))
      {
        ghost var before := modifications;
        if !unknown {
          var known := Visit(blocks[i], isCanon);
          unknown := !known;
          FlagKeepsKeys(before, blocks[i], isCanon);
          assert blocks[i..][1..] == blocks[i + 1..];
        }
        assert blocks[..i + 1] == blocks[..i] + [blocks[i]];
        assert AllListed(mods, blocks[..i + 1]) <==> AllListed(mods, blocks[..i]) && Listed(mods, blocks[i]);
        ChangedByMore(mods, blocks[..i], [blocks[i]]);
        ChangedByOne(mods, blocks[i]);
      }
      assert blocks[..|blocks|] == blocks;
    }

    /** Put a block into the window, which forgets its last entry when it is full. */
    method List(m: BlockChanges)
      modifies this
      ensures modifications == Recorded(old(modifications), m)
    {
      if |modifications| == STATE_CACHE_BLOCKS {
        modifications := modifications[..|modifications| - 1];
      }
      var i := InsertAt(modifications, m.number);
      modifications := modifications[..i] + [m] + modifications[i..];
    }

    method Sync(enacted: seq<Hash>, retracted: seq<Hash>)
      requires Valid()
      modifies this, top, child, hashes
      ensures Valid() && Synced(old(View()), View(), enacted, retracted)
    {
      ghost var s := View();
      var clear := VisitAll(enacted, true, false);
      ghost var mid := modifications;
      FlagAllKeepsKeys(s.mods, enacted, true);
      clear := VisitAll(retracted, false, clear);
      if clear {
        top.Wipe();
        child.Wipe();
        hashes.Wipe();
        modifications := [];
      }
      AllListedConcat(s.mods, enacted, retracted);
      ChangedByMore(s.mods, enacted, retracted);
      assert !clear ==> ChangedByAny(mid, retracted, true) == ChangedByAny(s.mods, retracted, true);
      assert !clear ==> ChangedByAny(mid, retracted, false) == ChangedByAny(s.mods, retracted, false);
    }
  }

  /** A state read through the cache, and the pending changes it leads to. */
  class CachingState {
    const shared: Cache
    const parentHash: Option<Hash>
    /** The backing state of `parentHash`. */
    const backing: Key -> Value
    var storage: map<Key, Entry>
    var childStorage: map<Key, Entry>
    var localHashes: map<Key, Entry>
    var disableSyncing: bool

    ghost predicate Valid()
      reads this, shared, shared.top, shared.child, shared.hashes
    {
      && shared.Valid()
      && WellKeyed(storage) && WellKeyed(childStorage) && WellKeyed(localHashes)
    }

    ghost function LocalView(): Local
      reads this
    {
      Local(parentHash, storage, childStorage, localHashes)
    }

    constructor (shared: Cache, parentHash: Option<Hash>, backing: Key -> Value)
      requires shared.Valid()
      ensures Valid() && this.shared == shared && this.backing == backing
      ensures LocalView() == Local(parentHash, map[], map[], map[]) && !disableSyncing
    {
      this.shared, this.parentHash, this.backing := shared, parentHash, backing;
      storage, childStorage, localHashes, disableSyncing := map[], map[], map[], false;
    }

    /** The loop of `is_allowed` over the window. */
    method Allowed(key: Key) returns (allowed: bool)
      ensures allowed == (parentHash.Some? && IsAllowed(shared.modifications, parentHash.value, key))
    {
      if parentHash.None? { return false; }
      var parent := parentHash.value;
      var mods := shared.modifications;
      for i := 0 to |mods|
        invariant IsAllowed(mods[i..], parent, key) == IsAllowed(mods, parentHash.value, key)
      {
        var m := mods[i];
        assert mods[i..][1..] == mods[i + 1..];
        if m.hash == parent {
          if m.isCanon { return true; }
          parent := m.parent;
        }
        if Touches(m, key) { return false; }
      }
      return false;
    }

    /** `storage` for a main-trie key, `child_storage` for a child-trie key. */
    method Read(key: Key) returns (answer: Value)
      requires Valid()
      modifies this, shared.top, shared.child
      ensures Valid() && shared.modifications == old(shared.modifications) && disableSyncing == old(disableSyncing)
      ensures ReadStep(old(shared.View()), old(LocalView()), key, backing(key), shared.View(), LocalView(), answer)
    {
      var local := if key.Top? then storage else childStorage;
      if key in local { return local[key].value; }
      var allowed := Allowed(key);
      if allowed {
        var layer := if key.Top? then shared.top else shared.child;
        GottenItems(layer.View(), key);
        var found, entry := layer.Lookup(key);
        if found { return entry[0].value; }
      }
      answer := backing(key);
      var keySize: nat, valueSize: nat := *, *;
      var e := Item(key, keySize, answer, valueSize);
      if key.Top? { storage := storage[key := e]; } else { childStorage := childStorage[key := e]; }
      assert old(shared.View()) == shared.View();
    }

    /** `storage_hash`, for a main-trie key. */
    method ReadHash(key: Key) returns (answer: Value)
      requires Valid() && key.Top?
      modifies this, shared.hashes
      ensures Valid() && shared.modifications == old(shared.modifications) && disableSyncing == old(disableSyncing)
      ensures ReadHashStep(old(shared.View()), old(LocalView()), key, backing(key), shared.View(), LocalView(), answer)
    {
      if key in localHashes { return localHashes[key].value; }
      var allowed := Allowed(key);
      if allowed {
        GottenItems(shared.hashes.View(), key);
        var found, entry := shared.hashes.Lookup(key);
        if found { return entry[0].value; }
      }
      answer := backing(key);
      var keySize: nat, valueSize: nat := *, *;
      localHashes := localHashes[key := Item(key, keySize, answer, valueSize)];
      assert old(shared.View()) == shared.View();
    }

    /** Move a local map into a shared one, in whatever order the map yields its entries. */
    static method Drain(l: LRUMap<Key, Value>, local: map<Key, Entry>)
      requires Distinct(l.items) && WellKeyed(local)
      modifies l
      ensures Distinct(l.items) && Received(old(l.View()), local, l.View())
    {
      ghost var drained: seq<Entry> := [];
      var rest := local;
      while rest.Keys != {}
        invariant rest.Keys <= local.Keys && forall k :: k in rest ==> rest[k] == local[k]
        invariant Distinct(l.items) && l.View() == AddAll(old(l.View()), drained)
        invariant forall e :: e in drained ==> e.key in local && local[e.key] == e
        invariant forall k :: k in local && k !in rest ==> local[k] in drained
        decreases rest.Keys
      {
        var k :| k in rest.Keys;
        var e := rest[k];
        AddedItems(l.View(), e);
        AddAllAppend(old(l.View()), drained, e);
        l.Insert(e.key, e.keySize, e.value, e.valueSize);
        drained := drained + [e];
        rest := rest - {k};
      }
      assert Enumerates(drained, local);
    }

    static method AddChanges(l: LRUMap<Key, Value>, changes: seq<Entry>)
      requires Distinct(l.items)
      modifies l
      ensures Distinct(l.items) && l.View() == AddAll(old(l.View()), changes)
    {
      for i := 0 to |changes|
        invariant Distinct(l.items) && l.View() == AddAll(old(l.View()), changes[..i])
      {
        var e := changes[i];
        AddedItems(l.View(), e);
        AddAllAppend(old(l.View()), changes[..i], e);
        assert changes[..i + 1] == changes[..i] + [e];
        l.Insert(e.key, e.keySize, e.value, e.valueSize);
      }
      assert changes[..|changes|] == changes;
    }

    method HandOver(isBest: bool)
      requires Valid()
      modifies this, shared.top, shared.child, shared.hashes
      ensures Valid() && disableSyncing == old(disableSyncing)
      ensures HandedOver(old(shared.View()), old(LocalView()), isBest, shared.View(), LocalView())
    {
      if parentHash.Some? && isBest {
        Drain(shared.top, storage);
        Drain(shared.child, childStorage);
        Drain(shared.hashes, localHashes);
        storage, childStorage, localHashes := map[], map[], map[];
      }
    }

    method Record(changes: seq<Entry>, childChanges: seq<Entry>, commit: (Hash, nat), parent: Hash, isBest: bool)
      requires Valid()
      modifies shared, shared.top, shared.child, shared.hashes
      ensures Valid()
      ensures Committed(old(shared.View()), parent, changes, childChanges, commit, isBest, shared.View())
    {
      if isBest {
        AddChanges(shared.child, childChanges);
        Cache.DropKeys(shared.hashes, Keys(changes));
        AddChanges(shared.top, changes);
      }
      shared.List(BlockChanges(commit.1, commit.0, parent, Keys(changes), Keys(childChanges), isBest));
    }

    /** `sync_cache`: synchronise, propagate the local cache, then record the committed block. */
    method SyncCache(enacted: seq<Hash>, retracted: seq<Hash>, changes: seq<Entry>, childChanges: seq<Entry>,
                     commit: Option<(Hash, nat)>, isBest: bool)
      returns (ghost synced: Shared, ghost handed: Shared)
      requires Valid()
      modifies this, shared, shared.top, shared.child, shared.hashes
      ensures Valid() && disableSyncing == old(disableSyncing)
      ensures SyncCacheStep(old(shared.View()), old(LocalView()), enacted, retracted, changes, childChanges,
                            commit, isBest, synced, handed, shared.View(), LocalView())
    {
      shared.Sync(WithoutBlock(enacted, commit), retracted);
      synced := shared.View();
      HandOver(isBest);
      handed := shared.View();
      if parentHash.Some? && commit.Some? {
        Record(changes, childChanges, commit.value, parentHash.value, isBest);
      }
    }

    /** A state that goes out of scope hands its reads over when it is the state of the best block. */
    method Drop(bestHash: Hash) returns (ghost synced: Shared, ghost handed: Shared)
      requires Valid()
      modifies this, shared, shared.top, shared.child, shared.hashes
      ensures Valid()
      ensures disableSyncing || parentHash.None? ==> shared.View() == old(shared.View())
      ensures !disableSyncing && parentHash.Some? ==>
                SyncCacheStep(old(shared.View()), old(LocalView()), [], [], [], [], None, bestHash == parentHash.value,
                              synced, handed, shared.View(), LocalView())
    {
      synced, handed := shared.View(), shared.View();
      if !disableSyncing && parentHash.Some? {
        synced, handed := SyncCache([], [], [], [], None, bestHash == parentHash.value);
      }
    }
  }

  lemma {:induction false} AddAllAppend(l: Lru<Key, Value>, entries: seq<Entry>, e: Entry)
    ensures AddAll(l, entries + [e]) == Add(AddAll(l, entries), e)
    decreases |entries|
  {
    if entries == [] {
      assert entries + [e] == [e];
      assert AddAll(Add(l, e), []) == Add(l, e);
    } else {
      assert (entries + [e])[0] == entries[0];
      assert (entries + [e])[1..] == entries[1..] + [e];
      AddAllAppend(Add(l, entries[0]), entries[1..], e);
    }
  }
}
