/** The size-bounded map behind the shared state cache: an insertion-ordered map together with a
running estimate of the bytes it holds.

Sizes are the allocated capacities of the byte vectors. Two equal keys may have different
capacities, so every call carries the capacity of the key it was given. */
module LruMap {

  datatype Item<K, V> = Item(key: K, keySize: nat, value: V, valueSize: nat)

  /** `used` is the tracked size. A negative value is where the unsigned counter underflows. */
  datatype Lru<K, V> = Lru(items: seq<Item<K, V>>, used: int, limit: nat)

  function SizeOf<K, V>(items: seq<Item<K, V>>): nat {
    if items == [] then 0 else items[0].keySize + items[0].valueSize + SizeOf(items[1..])
  }

  ghost predicate Distinct<K, V>(items: seq<Item<K, V>>) {
    forall i, j :: 0 <= i < j < |items| ==> items[i].key != items[j].key
  }

  function IndexOf<K(==), V>(items: seq<Item<K, V>>, k: K): (i: nat)
    ensures i <= |items|
    ensures i < |items| ==> items[i].key == k
    ensures forall j :: 0 <= j < i ==> items[j].key != k
  {
    if items == [] || items[0].key == k then 0 else 1 + IndexOf(items[1..], k)
  }

  ghost predicate HasKey<K, V>(items: seq<Item<K, V>>, k: K) {
    exists i :: 0 <= i < |items| && items[i].key == k
  }

  /** The items with another key, in order. */
  function Without<K(==), V>(items: seq<Item<K, V>>, k: K): (r: seq<Item<K, V>>) {
    var i := IndexOf(items, k);
    if i == |items| then items else items[..i] + items[i + 1..]
  }

  function Upsert<K(==), V>(items: seq<Item<K, V>>, item: Item<K, V>): seq<Item<K, V>> {
    var i := IndexOf(items, item.key);
    if i == |items| then items + [item]
    else items[i := items[i].(value := item.value, valueSize := item.valueSize)]
  }

  /** Drop items from the front while the tracked size exceeds the limit. */
  function Evict<K, V>(l: Lru<K, V>): (r: Lru<K, V>)
    ensures r.limit == l.limit && |r.items| <= |l.items|
    decreases |l.items|
  {
    if l.used > l.limit && l.items != [] then
      Evict(Lru(l.items[1..], l.used - l.items[0].keySize - l.items[0].valueSize, l.limit))
    else
      l
  }

  /** The tracked size after adding: the value replaces an old one, the key is charged when new. */
  function UsedAfterUpsert<K(==), V>(l: Lru<K, V>, item: Item<K, V>): int {
    var i := IndexOf(l.items, item.key);
    if i == |l.items| then l.used + item.valueSize + item.keySize
    else l.used + item.valueSize - l.items[i].valueSize
  }

  function Add<K(==), V>(l: Lru<K, V>, item: Item<K, V>): Lru<K, V> {
    Evict(Lru(Upsert(l.items, item), UsedAfterUpsert(l, item), l.limit))
  }

  /** `keySize` is the capacity of the argument, not of the stored key. */
  function Remove<K(==), V>(l: Lru<K, V>, k: K, keySize: nat): Lru<K, V> {
    var i := IndexOf(l.items, k);
    if i == |l.items| then l
    else l.(items := Without(l.items, k), used := l.used - keySize - l.items[i].valueSize)
  }

  function Get<K(==), V>(l: Lru<K, V>, k: K): Lru<K, V> {
    var i := IndexOf(l.items, k);
    if i == |l.items| then l else l.(items := Without(l.items, k) + [l.items[i]])
  }

  function Clear<K, V>(l: Lru<K, V>): Lru<K, V> {
    l.(items := [], used := 0)
  }

  // ---------------------------------------------------------------- what the operations keep

  ghost predicate Accounted<K, V>(l: Lru<K, V>) {
    l.used == SizeOf(l.items)
  }

  ghost predicate Good<K, V>(l: Lru<K, V>) {
    Distinct(l.items) && Accounted(l) && l.used <= l.limit
  }

  lemma {:induction false} SizeOfConcat<K, V>(a: seq<Item<K, V>>, b: seq<Item<K, V>>)
    ensures SizeOf(a + b) == SizeOf(a) + SizeOf(b)
  {
    if a == [] {
      assert a + b == b;
    } else {
      assert (a + b)[1..] == a[1..] + b;
      SizeOfConcat(a[1..], b);
    }
  }

  lemma SizeOfSplit<K, V>(items: seq<Item<K, V>>, i: nat)
    requires i < |items|
    ensures SizeOf(items) == SizeOf(items[..i] + items[i + 1..]) + items[i].keySize + items[i].valueSize
  {
    assert items == items[..i] + ([items[i]] + items[i + 1..]);
    SizeOfConcat(items[..i], [items[i]] + items[i + 1..]);
    SizeOfConcat(items[..i], items[i + 1..]);
    assert ([items[i]] + items[i + 1..])[1..] == items[i + 1..];
  }

  lemma SizeOfUpsert<K, V>(items: seq<Item<K, V>>, item: Item<K, V>)
    ensures SizeOf(Upsert(items, item)) == UsedAfterUpsert(Lru(items, SizeOf(items), 0), item)
  {
    var i := IndexOf(items, item.key);
    if i == |items| {
      SizeOfConcat(items, [item]);
    } else {
      var up := Upsert(items, item);
      SizeOfSplit(items, i);
      SizeOfSplit(up, i);
      assert up[..i] + up[i + 1..] == items[..i] + items[i + 1..];
    }
  }

  /** Eviction leaves a suffix; with exact accounts, the longest one that fits the limit. */
  lemma {:induction false} EvictLeavesLongestFit<K, V>(l: Lru<K, V>) returns (d: nat)
    ensures d <= |l.items| && Evict(l).items == l.items[d..]
    ensures Accounted(l) ==> Accounted(Evict(l)) && Evict(l).used <= l.limit
    ensures Accounted(l) && d > 0 ==> SizeOf(l.items[d - 1..]) > l.limit
    decreases |l.items|
  {
    d := 0;
    if l.used > l.limit && l.items != [] {
      var rest := Lru(l.items[1..], l.used - l.items[0].keySize - l.items[0].valueSize, l.limit);
      var e := EvictLeavesLongestFit(rest);
      d := e + 1;
      assert rest.items[e..] == l.items[d..];
      assert l.items[d - 1..] == if e == 0 then l.items else rest.items[e - 1..];
    }
  }

  lemma UpsertDistinct<K, V>(items: seq<Item<K, V>>, item: Item<K, V>)
    requires Distinct(items)
    ensures Distinct(Upsert(items, item))
  {
  }

  lemma WithoutSpec<K(!new), V(!new)>(items: seq<Item<K, V>>, k: K)
    requires Distinct(items)
    ensures Distinct(Without(items, k))
    ensures forall it :: it in Without(items, k) <==> it in items && it.key != k
  {
    var i := IndexOf(items, k);
    var w := Without(items, k);
    if i < |items| {
      forall it | it in items && it.key != k
        ensures it in w
      {
        var j :| 0 <= j < |items| && items[j] == it;
        assert j < i ==> w[j] == it;
        assert j > i ==> w[j - 1] == it;
      }
    }
  }

  lemma UpsertAt<K(!new), V(!new)>(items: seq<Item<K, V>>, item: Item<K, V>, j: nat)
    requires Distinct(items) && j < |Upsert(items, item)|
    ensures var it := Upsert(items, item)[j];
      (it in items && it.key != item.key) || (it.key == item.key && it.value == item.value)
  {
  }

  /** After adding, every item is an old one with another key, or carries the new value. */
  lemma AddedItems<K(!new), V(!new)>(l: Lru<K, V>, item: Item<K, V>)
    requires Distinct(l.items)
    ensures Distinct(Add(l, item).items)
    ensures forall it :: it in Add(l, item).items ==>
              (it in l.items && it.key != item.key) || (it.key == item.key && it.value == item.value)
  {
    UpsertDistinct(l.items, item);
    var i := IndexOf(l.items, item.key);
    var up := Upsert(l.items, item);
    var d := EvictLeavesLongestFit(Lru(up, UsedAfterUpsert(l, item), l.limit));
    forall it | it in Add(l, item).items
      ensures (it in l.items && it.key != item.key) || (it.key == item.key && it.value == item.value)
    {
      assert it in up;
      var j :| 0 <= j < |up| && up[j] == it;
      UpsertAt(l.items, item, j);
    }
  }

  lemma GottenItems<K(!new), V(!new)>(l: Lru<K, V>, k: K)
    requires Distinct(l.items)
    ensures Distinct(Get(l, k).items) && SizeOf(Get(l, k).items) == SizeOf(l.items)
    ensures forall it :: it in Get(l, k).items <==> it in l.items
  {
    WithoutSpec(l.items, k);
    var i := IndexOf(l.items, k);
    if i < |l.items| {
      SizeOfSplit(l.items, i);
      SizeOfConcat(Without(l.items, k), [l.items[i]]);
      forall it | it in l.items
        ensures it in Get(l, k).items
      {
        if it.key == k {
          var j :| 0 <= j < |l.items| && l.items[j] == it;
        }
      }
    }
  }

  lemma AddKeepsGood<K(!new), V(!new)>(l: Lru<K, V>, item: Item<K, V>)
    requires Good(l)
    ensures Good(Add(l, item))
  {
    AddedItems(l, item);
    SizeOfUpsert(l.items, item);
    var _ := EvictLeavesLongestFit(Lru(Upsert(l.items, item), UsedAfterUpsert(l, item), l.limit));
  }

  /** The capacity the stored copy of `k` was charged with. */
  ghost predicate ChargedWith<K, V>(l: Lru<K, V>, k: K, keySize: nat) {
    var i := IndexOf(l.items, k);
    i < |l.items| ==> l.items[i].keySize == keySize
  }

  /** Removal keeps the accounts exact if and only if the argument has the capacity of the stored key. */
  lemma RemoveKeepsGoodIff<K(!new), V(!new)>(l: Lru<K, V>, k: K, keySize: nat)
    requires Good(l)
    ensures Distinct(Remove(l, k, keySize).items)
    ensures Accounted(Remove(l, k, keySize)) <==> ChargedWith(l, k, keySize)
    ensures ChargedWith(l, k, keySize) ==> Good(Remove(l, k, keySize))
  {
    WithoutSpec(l.items, k);
    var i := IndexOf(l.items, k);
    if i < |l.items| {
      SizeOfSplit(l.items, i);
    }
  }

  /** A key stored with capacity 4 and removed through an equal key of capacity 5 drives the counter below zero. */
  lemma RemoveCanUnderflow()
    ensures var empty: Lru<nat, nat> := Lru([], 0, 100);
            var l := Add(empty, Item(7, 4, 0, 0));
            Good(l) && Remove(l, 7, 5).used == -1
  {
    var empty: Lru<nat, nat> := Lru([], 0, 100);
    AddKeepsGood(empty, Item(7, 4, 0, 0));
    assert Upsert(empty.items, Item(7, 4, 0, 0)) == [Item(7, 4, 0, 0)];
  }

  datatype Op<K, V> = OpAdd(item: Item<K, V>) | OpGet(key: K) | OpRemove(key: K, keySize: nat) | OpClear

  function Apply<K(==), V>(l: Lru<K, V>, op: Op<K, V>): Lru<K, V> {
    match op
    case OpAdd(item) => Add(l, item)
    case OpGet(k) => Get(l, k)
    case OpRemove(k, keySize) => Remove(l, k, keySize)
    case OpClear => Clear(l)
  }

  function Run<K(==), V>(l: Lru<K, V>, ops: seq<Op<K, V>>): Lru<K, V>
    decreases |ops|
  {
    if ops == [] then l else Run(Apply(l, ops[0]), ops[1..])
  }

  ghost predicate ExactRun<K, V>(l: Lru<K, V>, ops: seq<Op<K, V>>)
    decreases |ops|
  {
    ops != [] ==>
      && (ops[0].OpRemove? ==> ChargedWith(l, ops[0].key, ops[0].keySize))
      && ExactRun(Apply(l, ops[0]), ops[1..])
  }

  /** Over every run, the tracked size is the sum of the estimates present and stays within the limit. */
  lemma {:induction false} RunKeepsAccounts<K(!new), V(!new)>(l: Lru<K, V>, ops: seq<Op<K, V>>)
    requires Good(l) && ExactRun(l, ops)
    ensures Good(Run(l, ops)) && 0 <= Run(l, ops).used
    decreases |ops|
  {
    if ops != [] {
      match ops[0] {
        case OpAdd(item) => AddKeepsGood(l, item);
        case OpGet(k) => GottenItems(l, k);
        case OpRemove(k, keySize) => RemoveKeepsGoodIff(l, k, keySize);
        case OpClear =>
      }
      RunKeepsAccounts(Apply(l, ops[0]), ops[1..]);
    }
  }

  /** The map as the cache holds it, updated in place. */
  class LRUMap<K(==), V> {
    var items: seq<Item<K, V>>
    var used: int
    const limit: nat

    ghost function View(): Lru<K, V>
      reads this
    {
      Lru(items, used, limit)
    }

    constructor (limit: nat)
      ensures View() == Lru([], 0, limit)
    {
      this.limit := limit;
      items, used := [], 0;
    }

    method Drop(k: K, keySize: nat)
      modifies this
      ensures View() == Remove(old(View()), k, keySize)
    {
      var i := IndexOf(items, k);
      if i < |items| {
        used := used - keySize;
        used := used - items[i].valueSize;
        items := items[..i] + items[i + 1..];
      }
    }

    method Insert(k: K, keySize: nat, v: V, valueSize: nat)
      modifies this
      ensures View() == Add(old(View()), Item(k, keySize, v, valueSize))
    {
      used := used + valueSize;
      var i := IndexOf(items, k);
      if i < |items| {
        used := used - items[i].valueSize;
        items := items[i := items[i].(value := v, valueSize := valueSize)];
      } else {
        used := used + keySize;
        items := items + [Item(k, keySize, v, valueSize)];
      }
      ghost var item := Item(k, keySize, v, valueSize);
      assert View() == Lru(Upsert(old(items), item), UsedAfterUpsert(old(View()), item), limit);
      TrimToLimit();
    }

    method TrimToLimit()
      modifies this
      ensures View() == Evict(old(View()))
    {
      while used > limit
        invariant Evict(View()) == Evict(old(View()))
        decreases |items|
      {
        if items != [] {
          used := used - items[0].keySize;
          used := used - items[0].valueSize;
          items := items[1..];
        } else {
          break;
        }
      }
    }

    /** Returns whether the key is present and its item, which becomes the most recent one. */
    method Lookup(k: K) returns (found: bool, entry: seq<Item<K, V>>)
      modifies this
      ensures View() == Get(old(View()), k)
      ensures found <==> HasKey(old(items), k)
      ensures found ==> |entry| == 1 && entry[0] in old(items) && entry[0].key == k
    {
      var i := IndexOf(items, k);
      found, entry := i < |items|, [];
      if found {
        entry := [items[i]];
        items := items[..i] + items[i + 1..] + [items[i]];
      }
    }

    method Wipe()
      modifies this
      ensures View() == Clear(old(View()))
    {
      items := [];
      used := 0;
    }
  }
}
