/** The backend object: the commit and the head switch as loops over a transaction, the client's
finality walk, and the changes-trie root lookup that relies on the index. */
module ChainBackend {
  import opened BlockTree
  import opened ChainHead
  import opened FinalitySafety

  // ---------------------------------------------------------------- changes-trie roots

  /** `root`: find the block of height `block` on the anchor's chain, through the index where that is safe. */
  function Resolve(t: Tree, db: Db, anchor: Hash, number: nat, block: nat): Result<Hash>
    requires Sane(t, db)
  {
    if block > number then Err(UnknownBlock)
    else if block <= db.meta.finalizedNumber then ByNumber(db, block)
    else if number !in db.index then Err(UnknownBlock)
    else if db.index[number] == anchor then ByNumber(db, block)
    else WalkBack(t, db, anchor, number - block)
  }

  function ByNumber(db: Db, n: nat): Result<Hash> {
    if n in db.index then Ok(db.index[n]) else Err(UnknownBlock)
  }

  function WalkBack(t: Tree, db: Db, h: Hash, steps: nat): Result<Hash>
    requires Sane(t, db)
    decreases steps
  {
    if h !in db.known then Err(UnknownBlock)
    else if steps == 0 then Ok(h)
    else WalkBack(t, db, Parent(t, h), steps - 1)
  }

  lemma {:induction false} WalkBackIsAncestor(t: Tree, db: Db, h: Hash, steps: nat)
    requires Inv(t, db) && h in db.known && steps <= Number(t, h)
    ensures WalkBack(t, db, h, steps) == Ok(AncestorAt(t, h, Number(t, h) - steps))
    decreases steps
  {
    if steps > 0 {
      WalkBackIsAncestor(t, db, Parent(t, h), steps - 1);
    }
  }

  /** When the lookup fails, and when the block it finds is the anchor's ancestor: always above the
  finalized height, and below it exactly when anchor and finalized block share that ancestor. */
  lemma ResolveExactly(t: Tree, db: Db, anchor: Hash, block: nat)
    requires Inv(t, db) && anchor in db.known
    ensures var r, n := Resolve(t, db, anchor, Number(t, anchor), block), Number(t, anchor);
            && (r.Err? <==> block > n || (block > db.meta.finalizedNumber && n > db.meta.bestNumber))
            && (r.Ok? ==>
                  (r.value == AncestorAt(t, anchor, block) <==>
                   || block > db.meta.finalizedNumber
                   || AncestorAt(t, anchor, block) == AncestorAt(t, db.meta.finalized, block)))
  {
    if block > db.meta.finalizedNumber {
      ResolveAboveFinal(t, db, anchor, block);
    } else if block <= Number(t, anchor) {
      AncestorCompose(t, db.meta.best, db.meta.finalizedNumber, block);
    }
  }

  lemma ResolveAboveFinal(t: Tree, db: Db, anchor: Hash, block: nat)
    requires Inv(t, db) && anchor in db.known && block > db.meta.finalizedNumber
    ensures var r, n := Resolve(t, db, anchor, Number(t, anchor), block), Number(t, anchor);
            && (r.Err? <==> block > n || n > db.meta.bestNumber)
            && (r.Ok? ==> r.value == AncestorAt(t, anchor, block))
  {
    var n, best := Number(t, anchor), db.meta.best;
    if block <= n <= Number(t, best) {
      if AncestorAt(t, best, n) == anchor {
        AncestorCompose(t, best, n, block);
      } else {
        WalkBackIsAncestor(t, db, anchor, n - block);
      }
    }
  }

  /** The fast lookup refines the walk over parents for every anchor at or above the finalized block. */
  lemma RootLookupRefinesWalk(t: Tree, db: Db, anchor: Hash, block: nat)
    requires Inv(t, db) && anchor in db.known && IsAncestor(t, db.meta.finalized, anchor)
    ensures var r := Resolve(t, db, anchor, Number(t, anchor), block);
            r.Ok? ==> block <= Number(t, anchor) && r == WalkBack(t, db, anchor, Number(t, anchor) - block)
  {
    ResolveExactly(t, db, anchor, block);
    if block <= Number(t, anchor) {
      WalkBackIsAncestor(t, db, anchor, Number(t, anchor) - block);
      if block <= Number(t, db.meta.finalized) {
        AncestorCompose(t, anchor, Number(t, db.meta.finalized), block);
      }
    }
  }

  // ---------------------------------------------------------------- the object

  class Backend {
    const tree: Tree
    /** The changes-trie root in the digest of a header, if any. */
    const digest: Hash -> Option<Hash>
    var known: set<Hash>
    var index: map<nat, Hash>
    var meta: Meta

    ghost function View(): Db
      reads this
    {
      Db(known, index, meta)
    }

    constructor (tree: Tree, digest: Hash -> Option<Hash>)
      ensures View() == EMPTY_DB && this.tree == tree && this.digest == digest
    {
      this.tree, this.digest := tree, digest;
      known, index, meta := {}, map[], Meta(DEFAULT_HASH, 0, DEFAULT_HASH, 0, DEFAULT_HASH);
    }

    /** `tx` is the index as the transaction has left it so far. */
    method SetHeadWithTransaction(tx: map<nat, Hash>, routeTo: Hash, best: Hash) returns (r: Result<map<nat, Hash>>)
      requires Sane(tree, View()) && best in tree.headers
      ensures r == SetHead(tree, View(), tx, routeTo, best)
    {
      var out := tx;
      if meta.best != DEFAULT_HASH {
        if routeTo !in known { return Err(UnknownBlock); }
        var route := ComputeTreeRoute(tree, meta.best, routeTo);
        RouteIsUnique(tree, meta.best, routeTo, route);
        RouteInTree(tree, meta.best, routeTo);
        var cleared := ClearRetracted(tx, route.Retracted());
        if cleared.Err? { return cleared; }
        out := InsertEnacted(cleared.value, route.Enacted());
      }
      r := Ok(out[Number(tree, best) := best]);
    }

    /** Unmap the retracted numbers, refusing to retract the finalized block. */
    method ClearRetracted(tx: map<nat, Hash>, retracted: seq<Hash>) returns (r: Result<map<nat, Hash>>)
      requires forall b :: b in retracted ==> b in tree.headers
      ensures r == if meta.finalized in retracted then Err(NotInFinalizedChain) else Ok(tx - Numbers(tree, retracted))
    {
      var out := tx;
      for i := 0 to |retracted|
        invariant meta.finalized !in retracted[..i]
        invariant out == tx - Numbers(tree, retracted[..i])
      {
        if retracted[i] == meta.finalized { return Err(NotInFinalizedChain); }
        out := out - {Number(tree, retracted[i])};
        assert retracted[..i + 1] == retracted[..i] + [retracted[i]];
        assert Numbers(tree, retracted[..i + 1]) == Numbers(tree, retracted[..i]) + {Number(tree, retracted[i])};
      }
      assert retracted[..|retracted|] == retracted;
      r := Ok(out);
    }

    method InsertEnacted(tx: map<nat, Hash>, enacted: seq<Hash>) returns (out: map<nat, Hash>)
      requires forall b :: b in enacted ==> b in tree.headers
      ensures out == Inserted(tree, tx, enacted)
    {
      out := tx;
      for i := 0 to |enacted|
        invariant out == Inserted(tree, tx, enacted[..i])
      {
        out := out[Number(tree, enacted[i]) := enacted[i]];
        assert enacted[..i + 1][..i] == enacted[..i];
      }
      assert enacted[..|enacted|] == enacted;
    }

    /** The finalization loop of the commit: the last block accepted. */
    method FinalizeBlocks(blocks: seq<Hash>) returns (r: Result<Hash>)
      requires Sane(tree, View())
      ensures r == Finalize(tree, View(), blocks, meta.finalized)
    {
      var last := meta.finalized;
      for i := 0 to |blocks|
        invariant Finalize(tree, View(), blocks[i..], last) == Finalize(tree, View(), blocks, meta.finalized)
      {
        assert blocks[i..][1..] == blocks[i + 1..];
        if blocks[i] !in known { return Err(UnknownBlock); }
        if Parent(tree, blocks[i]) != last { return Err(NonSequentialFinalization); }
        last := blocks[i];
      }
      r := Ok(last);
    }

    /** Apply one update to the metadata, in place. */
    method NoteMeta(h: Hash, isBest: bool, isFinal: bool)
      requires h in tree.headers
      modifies this`meta
      ensures meta == UpdateMeta(tree, old(meta), h, isBest, isFinal)
    {
      var n := Number(tree, h);
      if n == 0 { meta := meta.(genesis := h, finalized := h); }
      if isBest { meta := meta.(best := h, bestNumber := n); }
      if isFinal { meta := meta.(finalized := h, finalizedNumber := n); }
    }

    method NoteFinalized(blocks: seq<Hash>)
      requires forall b :: b in blocks ==> b in tree.headers
      modifies this`meta
      ensures meta == FinalMeta(tree, old(meta), blocks)
    {
      for i := 0 to |blocks|
        invariant FinalMeta(tree, meta, blocks[i..]) == FinalMeta(tree, old(meta), blocks)
      {
        assert blocks[i..][1..] == blocks[i + 1..];
        NoteMeta(blocks[i], false, true);
      }
    }

    /** `try_commit_operation`. Nothing is written unless every check passes. */
    method TryCommit(op: Operation) returns (r: Result<()>)
      requires Sane(tree, View()) && (op.pending.Some? ==> op.pending.value.hash in tree.headers)
      modifies this
      ensures match Commit(tree, old(View()), op)
              case Ok(db) => r == Ok(()) && View() == db
              case Err(e) => r == Err(e) && View() == old(View())
    {
      var last := FinalizeBlocks(op.finalized);
      if last.Err? { return Err(last.error); }
      FinalizeKnown(tree, View(), op.finalized, meta.finalized);
      var tx := index;
      if op.pending.Some? {
        var staged := StagePending(op, last.value);
        if staged.Err? { return Err(staged.error); }
        tx := staged.value;
      }
      if op.setHead.Some? {
        if op.setHead.value !in known { return Err(UnknownBlock); }
        var head := SetHeadWithTransaction(tx, op.setHead.value, op.setHead.value);
        if head.Err? { return Err(head.error); }
        tx := head.value;
      }
      index := tx;
      NoteFinalized(op.finalized);
      if op.pending.Some? {
        known := known + {op.pending.value.hash};
        NoteMeta(op.pending.value.hash, op.pending.value.leafState.IsBest(), IsFinalized(tree, op));
      }
      if op.setHead.Some? { NoteMeta(op.setHead.value, true, false); }
      r := Ok(());
    }

    method StagePending(op: Operation, last: Hash) returns (r: Result<map<nat, Hash>>)
      requires Sane(tree, View()) && op.pending.Some? && op.pending.value.hash in tree.headers
      ensures r == CommitPending(tree, View(), op, last)
    {
      var h := op.pending.value.hash;
      r := Ok(index);
      if op.pending.value.leafState.IsBest() {
        r := SetHeadWithTransaction(index, Parent(tree, h), h);
        if r.Err? { return; }
      }
      if IsFinalized(tree, op) && Parent(tree, h) != last { r := Err(NonSequentialFinalization); }
    }

    /** `apply_finality_with_block_hash`: extend the operation by the route from the finalized block. */
    method ApplyFinalityWithBlockHash(op: Operation, block: Hash, best: Hash) returns (r: Result<Operation>)
      requires Running(tree, View()) && best in tree.headers
      ensures r == ApplyFinality(tree, View(), op, block, best)
    {
      if block == meta.finalized { return Ok(op); }
      if block !in known { return Err(UnknownBlock); }
      var route := ComputeTreeRoute(tree, meta.finalized, block);
      RouteIsUnique(tree, meta.finalized, block, route);
      RouteInTree(tree, meta.finalized, block);
      if route.Retracted() != [] { return Err(NotInFinalizedChain); }
      var fromBest := ComputeTreeRoute(tree, best, block);
      RouteIsUnique(tree, best, block, fromBest);
      var out := op;
      if fromBest.Common() != block { out := out.(setHead := Some(block)); }
      out := MarkFinalized(out, route.Enacted());
      r := Ok(out);
    }

    static method MarkFinalized(op: Operation, blocks: seq<Hash>) returns (out: Operation)
      ensures out == op.(finalized := op.finalized + blocks)
    {
      out := op;
      for i := 0 to |blocks|
        invariant out == op.(finalized := op.finalized + blocks[..i])
      {
        assert blocks[..i + 1] == blocks[..i] + [blocks[i]];
        out := out.(finalized := out.finalized + [blocks[i]]);
      }
      assert blocks[..|blocks|] == blocks;
    }

    /** `root`: the changes-trie root of the anchor's chain at height `block`. */
    method Root(anchor: Hash, number: nat, block: nat) returns (r: Result<Option<Hash>>)
      requires Sane(tree, View())
      ensures match Resolve(tree, View(), anchor, number, block)
              case Ok(h) => r == Ok(digest(h))
              case Err(e) => r == Err(e)
    {
      if block > number { return Err(UnknownBlock); }
      var byNumber := block <= meta.finalizedNumber;
      var current := anchor;
      if !byNumber {
        if number !in index { return Err(UnknownBlock); }
        if index[number] == anchor {
          byNumber := true;
        } else {
          var n := number;
          while n != block
            invariant block <= n
            invariant WalkBack(tree, View(), current, n - block) == WalkBack(tree, View(), anchor, number - block)
            decreases n
          {
            if current !in known { return Err(UnknownBlock); }
            current, n := Parent(tree, current), n - 1;
          }
          if current !in known { return Err(UnknownBlock); }
        }
      }
      if byNumber {
        if block !in index { return Err(UnknownBlock); }
        current := index[block];
      }
      r := Ok(digest(current));
    }
  }
}
