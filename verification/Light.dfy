/** The light client's header storage: the best chain by number, and old headers replaced by the
roots of canonical hash tries as finality advances. */
module Light {
  import opened BlockTree
  import opened ChainHead
  import opened Cht

  /** The fixed surroundings of a run; `roots` gives the changes-trie root in a header's digest. */
  datatype World = World(tree: Tree, size: Size, roots: map<Hash, Hash>)

  datatype LightDb = LightDb(
    headers: set<Hash>, index: map<nat, Hash>, chts: map<nat, Root>, changes: map<nat, Root>, meta: Meta)

  const EMPTY := LightDb({}, map[], map[], map[], Meta(DEFAULT_HASH, 0, DEFAULT_HASH, 0, DEFAULT_HASH))

  ghost predicate Stored(t: Tree, db: LightDb) {
    && (db.meta.best == DEFAULT_HASH || db.meta.best in t.headers)
    && forall h :: h in db.headers ==> h in t.headers
  }

  // ---------------------------------------------------------------- reads

  /** `hash(number)`: through the index to a stored header. */
  function HashAt(db: LightDb, n: nat): Option<Hash> {
    if n in db.index && db.index[n] in db.headers then Some(db.index[n]) else None
  }

  function ChangesRootAt(w: World, db: LightDb, n: nat): Option<Hash> {
    var h := HashAt(db, n);
    if h.Some? && h.value in w.roots then Some(w.roots[h.value]) else None
  }

  function Hashes(w: World, db: LightDb, cht: nat): (r: seq<Option<Hash>>)
    ensures |r| == w.size && forall i :: 0 <= i < w.size ==> r[i] == HashAt(db, StartNumber(w.size, cht) + i)
  {
    seq(w.size, i requires 0 <= i < w.size => HashAt(db, StartNumber(w.size, cht) + i))
  }

  function ChangesRoots(w: World, db: LightDb, cht: nat): (r: seq<Option<Hash>>)
    ensures |r| == w.size && forall i :: 0 <= i < w.size ==> r[i] == ChangesRootAt(w, db, StartNumber(w.size, cht) + i)
  {
    seq(w.size, i requires 0 <= i < w.size => ChangesRootAt(w, db, StartNumber(w.size, cht) + i))
  }

  /** `read_cht_root`: nothing for blocks whose CHT is not due yet, an error when one that is due is missing. */
  function ReadChtRoot(size: Size, db: LightDb, roots: map<nat, Root>, block: nat): Result<Option<Root>> {
    var cht := BlockToCht(size, block);
    if cht.None? then Err(NoChtForBlock)
    else
      var max := MaxCht(size, db.meta.finalizedNumber);
      if max.None? || cht.value > max.value then Ok(None)
      else
        var start := StartNumber(size, cht.value);
        if start in roots then Ok(Some(roots[start])) else Err(MissingCht)
  }

  // ---------------------------------------------------------------- writes
  // `db` is what is stored, `tx` what the transaction will store; reads go to `db`.

  /** The metadata of a block is at hand: its header is stored, or `cached`, whatever the metadata
  cache happens to hold, still has it. */
  predicate AtHand(db: LightDb, cached: set<Hash>, h: Hash) {
    h in db.headers || h in cached
  }

  predicate AllAtHand(db: LightDb, cached: set<Hash>, blocks: seq<Hash>) {
    forall b :: b in blocks ==> AtHand(db, cached, b)
  }

  /** `set_head_with_transaction`: unlike the full backend, it does not refuse to retract a finalized block. */
  function MoveHead(t: Tree, db: LightDb, cached: set<Hash>, tx: LightDb, routeTo: Hash, best: Hash): Result<LightDb>
    requires Stored(t, db) && best in t.headers
  {
    if db.meta.best == DEFAULT_HASH then Ok(tx.(index := tx.index[Number(t, best) := best]))
    else if routeTo !in t.headers || !AtHand(db, cached, routeTo) then Err(UnknownBlock)
    else if !AllAtHand(db, cached, Route(t, db.meta.best, routeTo).route) then Err(UnknownBlock)
    else Ok(tx.(index := Rerouted(t, tx.index, db.meta.best, routeTo)[Number(t, best) := best]))
  }

  /** The numbers of a CHT's range that resolve to a stored header. */
  function Due(size: Size, db: LightDb, cht: nat): set<nat> {
    set n | StartNumber(size, cht) <= n <= EndNumber(size, cht) && HashAt(db, n).Some?
  }

  function BlocksAt(db: LightDb, numbers: set<nat>): set<Hash> {
    set n | n in numbers && n in db.index :: db.index[n]
  }

  /** Drop the headers that a CHT replaces. */
  function Prune(size: Size, db: LightDb, tx: LightDb, cht: nat): LightDb {
    var due := Due(size, db, cht);
    tx.(index := tx.index - due, headers := tx.headers - BlocksAt(db, due))
  }

  function BuildCht(w: World, db: LightDb, tx: LightDb, h: Hash, cht: nat): Result<LightDb> {
    var start := StartNumber(w.size, cht);
    var root := RootOf(w.size, cht, Hashes(w, db, cht));
    if root.Err? then Err(root.error)
    else
      var tx1 := tx.(chts := tx.chts[start := root.value]);
      if h !in w.roots then Ok(Prune(w.size, db, tx1, cht))
      else
        var changes := RootOf(w.size, cht, ChangesRoots(w, db, cht));
        if changes.Err? then Err(changes.error)
        else Ok(Prune(w.size, db, tx1.(changes := tx1.changes[start := changes.value]), cht))
  }

  function NoteFinalized(w: World, db: LightDb, tx: LightDb, h: Hash): Result<LightDb>
    requires h in w.tree.headers
  {
    if db.meta.finalized != Parent(w.tree, h) then Err(NonSequentialFinalization)
    else
      var cht := IsBuildRequired(w.size, Number(w.tree, h));
      if cht.None? then Ok(tx) else BuildCht(w, db, tx, h, cht.value)
  }

  function Imported(w: World, db: LightDb, cached: set<Hash>, h: Hash, leaf: LeafState): Result<LightDb>
    requires Stored(w.tree, db) && h in w.tree.headers
  {
    var head := if leaf.IsBest() then MoveHead(w.tree, db, cached, db, Parent(w.tree, h), h) else Ok(db);
    if head.Err? then head
    else
      var tx := head.value.(headers := head.value.headers + {h});
      var final := Number(w.tree, h) == 0 || leaf.Final?;
      var done := if final then NoteFinalized(w, db, tx, h) else Ok(tx);
      if done.Err? then done
      else Ok(done.value.(meta := UpdateMeta(w.tree, db.meta, h, leaf.IsBest(), final)))
  }

  function HeadSet(w: World, db: LightDb, cached: set<Hash>, h: Hash): Result<LightDb>
    requires Stored(w.tree, db)
  {
    if h !in db.headers then Err(UnknownBlock)
    else
      var head := MoveHead(w.tree, db, cached, db, h, h);
      if head.Err? then head else Ok(head.value.(meta := UpdateMeta(w.tree, db.meta, h, true, false)))
  }

  function Finalized(w: World, db: LightDb, h: Hash): Result<LightDb>
    requires Stored(w.tree, db)
  {
    if h !in db.headers then Err(UnknownBlock)
    else
      var done := NoteFinalized(w, db, db, h);
      if done.Err? then done else Ok(done.value.(meta := UpdateMeta(w.tree, db.meta, h, false, true)))
  }

  // ---------------------------------------------------------------- the object

  class LightStorage {
    const w: World
    var headers: set<Hash>
    var index: map<nat, Hash>
    var chts: map<nat, Root>
    var changes: map<nat, Root>
    var meta: Meta

    function View(): LightDb
      reads this
    {
      LightDb(headers, index, chts, changes, meta)
    }

    constructor (w: World)
      ensures this.w == w && View() == EMPTY
    {
      this.w := w;
      headers, index, chts, changes := {}, map[], map[], map[];
      meta := Meta(DEFAULT_HASH, 0, DEFAULT_HASH, 0, DEFAULT_HASH);
    }

    method Hash(n: nat) returns (h: Option<Hash>)
      ensures h == HashAt(View(), n)
    {
      h := if n in index && index[n] in headers then Some(index[n]) else None;
    }

    /** Collect what a CHT is computed from. */
    method Collect(cht: nat) returns (hashes: seq<Option<Hash>>, roots: seq<Option<Hash>>)
      ensures hashes == Hashes(w, View(), cht) && roots == ChangesRoots(w, View(), cht)
    {
      hashes, roots := [], [];
      var current := StartNumber(w.size, cht);
      for i := 0 to w.size
        invariant current == StartNumber(w.size, cht) + i && |hashes| == |roots| == i
        invariant forall j :: 0 <= j < i ==>
          && hashes[j] == HashAt(View(), StartNumber(w.size, cht) + j)
          && roots[j] == ChangesRootAt(w, View(), StartNumber(w.size, cht) + j)
      {
        var h := Hash(current);
        hashes := hashes + [h];
        roots := roots + [if h.Some? && h.value in w.roots then Some(w.roots[h.value]) else None];
        current := current + 1;
      }
    }

    /** The pruning loop. */
    method PruneRange(tx: LightDb, cht: nat) returns (out: LightDb)
      ensures out == Prune(w.size, View(), tx, cht)
    {
      out := tx;
      ghost var numbers: set<nat> := {};
      var n, end := StartNumber(w.size, cht), EndNumber(w.size, cht);
      while n <= end
        invariant StartNumber(w.size, cht) <= n <= end + 1
        invariant numbers == set m | StartNumber(w.size, cht) <= m < n && HashAt(View(), m).Some?
        invariant out == tx.(index := tx.index - numbers, headers := tx.headers - BlocksAt(View(), numbers))
      {
        var h := Hash(n);
        if h.Some? {
          out := out.(index := out.index - {n}, headers := out.headers - {h.value});
          numbers := numbers + {n};
        }
        n := n + 1;
      }
      assert numbers == Due(w.size, View(), cht);
    }

    method NoteFinal(tx: LightDb, h: Hash) returns (r: Result<LightDb>)
      requires h in w.tree.headers
      ensures r == NoteFinalized(w, View(), tx, h)
    {
      if meta.finalized != Parent(w.tree, h) { return Err(NonSequentialFinalization); }
      var cht := IsBuildRequired(w.size, Number(w.tree, h));
      if cht.None? { return Ok(tx); }
      var start := StartNumber(w.size, cht.value);
      var hashes, roots := Collect(cht.value);
      var root := ComputeRoot(w.size, cht.value, hashes);
      if root.Err? { return Err(root.error); }
      var out := tx.(chts := tx.chts[start := root.value]);
      if h in w.roots {
        var changesRoot := ComputeRoot(w.size, cht.value, roots);
        if changesRoot.Err? { return Err(changesRoot.error); }
        out := out.(changes := out.changes[start := changesRoot.value]);
      }
      out := PruneRange(out, cht.value);
      r := Ok(out);
    }

    /** The header metadata of every block on the route must be at hand. */
    method CheckMetadata(blocks: seq<Hash>, cached: set<Hash>) returns (ok: bool)
      ensures ok == AllAtHand(View(), cached, blocks)
    {
      for i := 0 to |blocks|
        invariant forall j :: 0 <= j < i ==> AtHand(View(), cached, blocks[j])
      {
        if blocks[i] !in cached && blocks[i] !in headers {
          assert !AtHand(View(), cached, blocks[i]);
          return false;
        }
      }
      ok := true;
    }

    method MoveHeadTo(cached: set<Hash>, tx: LightDb, routeTo: Hash, best: Hash) returns (r: Result<LightDb>)
      requires Stored(w.tree, View()) && best in w.tree.headers
      ensures r == MoveHead(w.tree, View(), cached, tx, routeTo, best)
    {
      var out := tx.index;
      if meta.best != DEFAULT_HASH {
        if routeTo !in w.tree.headers || (routeTo !in cached && routeTo !in headers) { return Err(UnknownBlock); }
        var route := ComputeTreeRoute(w.tree, meta.best, routeTo);
        RouteIsUnique(w.tree, meta.best, routeTo, route);
        RouteInTree(w.tree, meta.best, routeTo);
        var atHand := CheckMetadata(route.route, cached);
        if !atHand { return Err(UnknownBlock); }
        out := Reroute(out, route.Retracted(), route.Enacted());
      }
      r := Ok(tx.(index := out[Number(w.tree, best) := best]));
    }

    method Reroute(index: map<nat, Hash>, retracted: seq<Hash>, enacted: seq<Hash>) returns (out: map<nat, Hash>)
      requires forall b :: b in retracted || b in enacted ==> b in w.tree.headers
      ensures out == Inserted(w.tree, index - Numbers(w.tree, retracted), enacted)
    {
      out := index;
      for i := 0 to |retracted|
        invariant out == index - Numbers(w.tree, retracted[..i])
      {
        out := out - {Number(w.tree, retracted[i])};
        assert retracted[..i + 1] == retracted[..i] + [retracted[i]];
        assert Numbers(w.tree, retracted[..i + 1]) == Numbers(w.tree, retracted[..i]) + {Number(w.tree, retracted[i])};
      }
      assert retracted[..|retracted|] == retracted;
      for i := 0 to |enacted|
        invariant out == Inserted(w.tree, index - Numbers(w.tree, retracted), enacted[..i])
      {
        out := out[Number(w.tree, enacted[i]) := enacted[i]];
        assert enacted[..i + 1][..i] == enacted[..i];
      }
      assert enacted[..|enacted|] == enacted;
    }

    /** Write the transaction and update the metadata. */
    method Store(tx: LightDb, h: Hash, isBest: bool, isFinal: bool)
      requires h in w.tree.headers
      modifies this
      ensures View() == tx.(meta := UpdateMeta(w.tree, old(meta), h, isBest, isFinal))
    {
      headers, index, chts, changes := tx.headers, tx.index, tx.chts, tx.changes;
      var n := Number(w.tree, h);
      if n == 0 { meta := meta.(genesis := h, finalized := h); }
      if isBest { meta := meta.(best := h, bestNumber := n); }
      if isFinal { meta := meta.(finalized := h, finalizedNumber := n); }
    }

    method ImportHeader(cached: set<Hash>, h: Hash, leaf: LeafState) returns (r: Result<()>)
      requires Stored(w.tree, View()) && h in w.tree.headers
      modifies this
      ensures match Imported(w, old(View()), cached, h, leaf)
        case Ok(db) => r == Ok(()) && View() == db
        case Err(e) => r == Err(e) && View() == old(View())
    {
      var tx := View();
      if leaf.IsBest() {
        var head := MoveHeadTo(cached, tx, Parent(w.tree, h), h);
        if head.Err? { return Err(head.error); }
        tx := head.value;
      }
      tx := tx.(headers := tx.headers + {h});
      var final := Number(w.tree, h) == 0 || leaf.Final?;
      if final {
        var done := NoteFinal(tx, h);
        if done.Err? { return Err(done.error); }
        tx := done.value;
      }
      Store(tx, h, leaf.IsBest(), final);
      r := Ok(());
    }

    method SetHeadTo(cached: set<Hash>, h: Hash) returns (r: Result<()>)
      requires Stored(w.tree, View())
      modifies this
      ensures match HeadSet(w, old(View()), cached, h)
        case Ok(db) => r == Ok(()) && View() == db
        case Err(e) => r == Err(e) && View() == old(View())
    {
      if h !in headers { return Err(UnknownBlock); }
      var head := MoveHeadTo(cached, View(), h, h);
      if head.Err? { return Err(head.error); }
      Store(head.value, h, true, false);
      r := Ok(());
    }

    method FinalizeHeader(h: Hash) returns (r: Result<()>)
      requires Stored(w.tree, View())
      modifies this
      ensures match Finalized(w, old(View()), h)
        case Ok(db) => r == Ok(()) && View() == db
        case Err(e) => r == Err(e) && View() == old(View())
    {
      if h !in headers { return Err(UnknownBlock); }
      var done := NoteFinal(View(), h);
      if done.Err? { return Err(done.error); }
      Store(done.value, h, false, true);
      r := Ok(());
    }

    /** `read_cht_root`: blocks above the replaced ones have no root yet, genesis never has one, and
    every other block has the root of the CHT whose range it lies in. */
    method ReadRoot(roots: map<nat, Root>, block: nat) returns (r: Result<Option<Root>>)
      ensures r == ReadChtRoot(w.size, View(), roots, block)
      ensures block == 0 <==> r == Err(NoChtForBlock)
      ensures block > Built(w.size, meta.finalizedNumber) * w.size <==> r == Ok(None)
      ensures forall c: nat |
        StartNumber(w.size, c) <= block <= EndNumber(w.size, c) && c < Built(w.size, meta.finalizedNumber) ::
        r == if StartNumber(w.size, c) in roots then Ok(Some(roots[StartNumber(w.size, c)])) else Err(MissingCht)
    {
      var max := MaxCht(w.size, meta.finalizedNumber);
      var cht := BlockToCht(w.size, block);
      if cht.None? { return Err(NoChtForBlock); }
      DueIffCovered(w.size, meta.finalizedNumber, block, cht.value);
      RangeIsUnique(w.size, block, cht.value);
      if max.None? || cht.value > max.value { return Ok(None); }
      var start := StartNumber(w.size, cht.value);
      if start !in roots { return Err(MissingCht); }
      r := Ok(Some(roots[start]));
    }

    method HeaderChtRoot(block: nat) returns (r: Result<Option<Root>>)
      ensures r == ReadChtRoot(w.size, View(), chts, block)
      ensures block == 0 <==> r == Err(NoChtForBlock)
      ensures block > Built(w.size, meta.finalizedNumber) * w.size <==> r == Ok(None)
    {
      r := ReadRoot(chts, block);
    }

    method ChangesTrieChtRoot(block: nat) returns (r: Result<Option<Root>>)
      ensures r == ReadChtRoot(w.size, View(), changes, block)
      ensures block == 0 <==> r == Err(NoChtForBlock)
      ensures block > Built(w.size, meta.finalizedNumber) * w.size <==> r == Ok(None)
    {
      r := ReadRoot(changes, block);
    }
  }
}
