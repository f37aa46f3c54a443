/** Finality safety and the canonical index over every run of client requests. */
module FinalitySafety {
  import opened BlockTree
  import opened ChainHead
  import opened Fork

  /** The index lists exactly the best chain, and the finalized block is on it. */
  ghost predicate Inv(t: Tree, db: Db) {
    && Closed(t, db.known)
    && db.meta.best in db.known && db.meta.bestNumber == Number(t, db.meta.best)
    && db.meta.finalized in db.known && db.meta.finalizedNumber == Number(t, db.meta.finalized)
    && db.meta.genesis == t.genesis
    && db.index == CanonIndex(t, db.meta.best)
    && IsAncestor(t, db.meta.finalized, db.meta.best)
  }

  // ---------------------------------------------------------------- single parts of a commit

  lemma UpTail(t: Tree, b: Hash, n: nat)
    requires b in t.headers && n < Number(t, b)
    ensures Up(t, b, n)[0] == AncestorAt(t, b, n + 1) && Up(t, b, n)[1..] == Up(t, b, n + 1)
  {
  }

  lemma {:induction false} FinalizeAlongChain(t: Tree, db: Db, b: Hash, n: nat)
    requires Sane(t, db) && Closed(t, db.known) && b in db.known && n <= Number(t, b)
    ensures Finalize(t, db, Up(t, b, n), AncestorAt(t, b, n)) == Ok(b)
    decreases Number(t, b) - n
  {
    if n < Number(t, b) {
      UpTail(t, b, n);
      ParentStep(t, b, n + 1);
      ClosedUnderAncestors(t, db.known, b, n + 1);
      FinalizeAlongChain(t, db, b, n + 1);
    }
  }

  lemma {:induction false} FinalMetaAlongChain(t: Tree, m: Meta, b: Hash, n: nat)
    requires b in t.headers && n <= Number(t, b)
    ensures FinalMeta(t, m, Up(t, b, n)) ==
            if n == Number(t, b) then m else m.(finalized := b, finalizedNumber := Number(t, b))
    decreases Number(t, b) - n
  {
    if n < Number(t, b) {
      UpTail(t, b, n);
      FinalMetaAlongChain(t, UpdateMeta(t, m, AncestorAt(t, b, n + 1), false, true), b, n + 1);
    }
  }

  /** Exactly the known descendants of the finalized block are accepted, with the whole chain in
  between as the list to finalize. */
  lemma ApplyFinalityExactly(t: Tree, db: Db, op: Operation, block: Hash)
    requires Inv(t, db)
    ensures ApplyFinality(t, db, op, block, db.meta.best).Ok? <==>
              block in db.known && IsAncestor(t, db.meta.finalized, block)
    ensures ApplyFinality(t, db, op, block, db.meta.best).Ok? ==>
              ApplyFinality(t, db, op, block, db.meta.best).value ==
              op.(finalized := op.finalized + Up(t, block, Number(t, db.meta.finalized)),
                  setHead := if IsAncestor(t, block, db.meta.best) then op.setHead else Some(block))
  {
    var f, best := db.meta.finalized, db.meta.best;
    if block == f {
      assert op.finalized + Up(t, block, Number(t, f)) == op.finalized;
    } else if block in db.known {
      RouteIsRoute(t, f, block);
      RouteIsRoute(t, best, block);
      var r, rb := Route(t, f, block), Route(t, best, block);
      RouteBlocks(t, f, block, r, f);
      assert IsAncestor(t, f, f) && IsAncestor(t, block, block);
      assert IsAncestor(t, f, block) ==> r.Common() == f;
      assert rb.Common() == block <==> IsAncestor(t, block, best);
    }
  }

  /** Every list that the client accepts passes the backend's sequential-finalization check. */
  lemma AcceptedListIsSequential(t: Tree, db: Db, block: Hash)
    requires Inv(t, db)
    ensures var r := ApplyFinality(t, db, BLANK, block, db.meta.best);
            r.Ok? ==> Finalize(t, db, r.value.finalized, db.meta.finalized) == Ok(block)
  {
    ApplyFinalityExactly(t, db, BLANK, block);
    if ApplyFinality(t, db, BLANK, block, db.meta.best).Ok? {
      var n := Number(t, db.meta.finalized);
      var up := Up(t, block, n);
      assert [] + up == up;
      FinalizeAlongChain(t, db, block, n);
    }
  }

  /** The head may move to exactly the blocks above the finalized one, and the index follows. */
  lemma SetHeadExactly(t: Tree, db: Db, to: Hash, best: Hash)
    requires Inv(t, db) && to in db.known && best in t.headers
    ensures SetHead(t, db, db.index, to, best) ==
            if IsAncestor(t, db.meta.finalized, to)
            then Ok(CanonIndex(t, to)[Number(t, best) := best])
            else Err(NotInFinalizedChain)
  {
    var from := db.meta.best;
    RouteIsRoute(t, from, to);
    RouteBlocks(t, from, to, Route(t, from, to), db.meta.finalized);
    RerouteFollowsBest(t, from, to);
  }

  // ---------------------------------------------------------------- requests

  /** The metadata after finalizing the chain up to `block`. */
  function Finalized(t: Tree, m: Meta, block: Hash): Meta
    requires block in t.headers
  {
    m.(finalized := block, finalizedNumber := Number(t, block))
  }

  /** Committing a list of finalized blocks, with or without a head marker for the last one. */
  lemma CommitChain(t: Tree, db: Db, block: Hash, op: Operation)
    requires Inv(t, db) && block in db.known && IsAncestor(t, db.meta.finalized, block)
    requires op.finalized == Up(t, block, Number(t, db.meta.finalized)) && op.pending.None?
    requires op.setHead.None? || op.setHead.value == block
    ensures Commit(t, db, op) ==
            if op.setHead.None? then Ok(Db(db.known, db.index, Finalized(t, db.meta, block)))
            else Ok(Db(db.known, CanonIndex(t, block),
                       Finalized(t, db.meta, block).(best := block, bestNumber := Number(t, block))))
  {
    FinalizeAlongChain(t, db, block, Number(t, db.meta.finalized));
    FinalMetaAlongChain(t, db.meta, block, Number(t, db.meta.finalized));
    if op.setHead.Some? {
      SetHeadExactly(t, db, block, block);
      IndexOfHead(t, block);
    }
  }

  lemma IndexOfHead(t: Tree, h: Hash)
    requires h in t.headers
    ensures CanonIndex(t, h)[Number(t, h) := h] == CanonIndex(t, h)
  {
  }

  lemma FinalizeRequest(t: Tree, db: Db, block: Hash)
    requires Inv(t, db)
    ensures var r := Serve(t, db, FinalizeBlock(block));
            && (r.Ok? <==> block in db.known && IsAncestor(t, db.meta.finalized, block))
            && (r.Ok? ==> Inv(t, r.value) && r.value.meta.finalized == block && r.value.known == db.known)
  {
    ApplyFinalityExactly(t, db, BLANK, block);
    if block in db.known && IsAncestor(t, db.meta.finalized, block) {
      var up := Up(t, block, Number(t, db.meta.finalized));
      assert [] + up == up;
      var op := BLANK.(finalized := up, setHead := if IsAncestor(t, block, db.meta.best) then None else Some(block));
      CommitChain(t, db, block, op);
      assert IsAncestor(t, block, block);
    }
  }

  /** A final import whose parent is off the best chain makes one operation carry both a new block
  and a head marker. */
  ghost predicate Combined(t: Tree, db: Db, req: Request)
    requires Running(t, db) && (req.Import? ==> req.hash in t.headers)
  {
    && req.Import? && req.isFinal && req.hasState
    && Parent(t, req.hash) in db.known && !IsAncestor(t, Parent(t, req.hash), db.meta.best)
  }

  /** What committing a single block without finality does. */
  lemma PlainCommit(t: Tree, db: Db, h: Hash, leaf: LeafState, commitState: bool)
    requires Inv(t, db) && h in t.headers && h !in db.known && Parent(t, h) in db.known && !(commitState && leaf.Final?)
    ensures var r := Commit(t, db, Operation([], Some(Pending(h, leaf)), None, commitState));
            if leaf.IsBest() then
              && (r.Ok? <==> IsAncestor(t, db.meta.finalized, Parent(t, h)))
              && (r.Ok? ==>
                    r.value == Db(db.known + {h}, CanonIndex(t, h), db.meta.(best := h, bestNumber := Number(t, h))))
            else
              r == Ok(Db(db.known + {h}, db.index, db.meta))
  {
    NotGenesis(t, db, h);
    SetHeadExactly(t, db, Parent(t, h), h);
    ChildIndex(t, h);
  }

  lemma PlainImport(t: Tree, db: Db, req: Request)
    requires Inv(t, db) && req.Import? && req.hash in t.headers && !(req.isFinal && req.hasState)
    ensures var r := Serve(t, db, req); r.Ok? ==> Inv(t, r.value) && r.value.meta.finalized == db.meta.finalized
  {
    var h, op := req.hash, Prepare(t, db, req);
    if op.Ok? {
      PlainCommit(t, db, h, op.value.pending.value.leafState, req.hasState);
      NotGenesis(t, db, h);
      ClosedGrows(t, db.known, h);
      ParentIsAncestor(t, db.meta.finalized, h);
    }
  }

  lemma NotGenesis(t: Tree, db: Db, h: Hash)
    requires Inv(t, db) && h in t.headers && h !in db.known
    ensures h != t.genesis && Number(t, h) > 0
  {
    assert Number(t, h) == Number(t, Parent(t, h)) + 1;
  }

  lemma ParentIsAncestor(t: Tree, a: Hash, h: Hash)
    requires a in t.headers && h in t.headers && h != t.genesis
    ensures IsAncestor(t, Parent(t, h), h)
    ensures IsAncestor(t, a, Parent(t, h)) ==> IsAncestor(t, a, h)
  {
    ParentStep(t, h, Number(t, h));
    if IsAncestor(t, a, Parent(t, h)) { AncestorTransitive(t, a, Parent(t, h), h); }
  }

  lemma CommitFinalChild(t: Tree, db: Db, h: Hash, op: Operation)
    requires Inv(t, db) && h in t.headers && h !in db.known && Parent(t, h) in db.known
    requires IsAncestor(t, db.meta.finalized, Parent(t, h))
    requires op.finalized == Up(t, Parent(t, h), Number(t, db.meta.finalized)) && op.commitState
    requires op.pending == Some(Pending(h, Final))
    requires op.setHead.None? || (op.setHead.value == Parent(t, h) && Parent(t, h) != t.genesis)
    ensures var r, p := Commit(t, db, op), Parent(t, h);
            && r.Ok?
            && r.value.known == db.known + {h}
            && r.value.meta.finalized == h && r.value.meta.finalizedNumber == Number(t, h)
            && r.value.meta.genesis == db.meta.genesis
            && r.value.meta.best == (if op.setHead.None? then h else p)
            && (op.setHead.None? ==> r.value.meta.bestNumber == Number(t, h) && r.value.index == CanonIndex(t, h))
  {
    var p := Parent(t, h);
    NotGenesis(t, db, h);
    assert p != t.genesis ==> Number(t, p) == Number(t, Parent(t, p)) + 1;
    FinalizeAlongChain(t, db, p, Number(t, db.meta.finalized));
    FinalMetaAlongChain(t, db.meta, p, Number(t, db.meta.finalized));
    SetHeadExactly(t, db, p, h);
    ChildIndex(t, h);
    RouteIsRoute(t, db.meta.best, p);
    RouteBlocks(t, db.meta.best, p, Route(t, db.meta.best, p), db.meta.finalized);
  }

  /** What a final import commits: the chain up to the block becomes final and the block becomes the
  head, except that a head marker for its parent overrides it. */
  lemma FinalImport(t: Tree, db: Db, req: Request)
    requires Inv(t, db) && req.Import? && req.hash in t.headers && req.isFinal && req.hasState
    ensures var r, p := Serve(t, db, req), Parent(t, req.hash);
            && (r.Ok? <==> req.hash !in db.known && p in db.known && IsAncestor(t, db.meta.finalized, p))
            && (r.Ok? ==>
                  && r.value.known == db.known + {req.hash}
                  && r.value.meta.finalized == req.hash && r.value.meta.finalizedNumber == Number(t, req.hash)
                  && r.value.meta.genesis == db.meta.genesis
                  && r.value.meta.best == (if IsAncestor(t, p, db.meta.best) then req.hash else p)
                  && (IsAncestor(t, p, db.meta.best) ==>
                        r.value.meta.bestNumber == Number(t, req.hash) && r.value.index == CanonIndex(t, req.hash)))
  {
    var h, f := req.hash, db.meta.finalized;
    var p := Parent(t, h);
    if p in db.known && h !in db.known {
      NotGenesis(t, db, h);
      var started := BLANK.(commitState := true);
      ApplyFinalityExactly(t, db, started, p);
      if IsAncestor(t, f, p) {
        GenesisIsAncestor(t, db.meta.best);
        assert [] + Up(t, p, Number(t, f)) == Up(t, p, Number(t, f));
        CommitFinalChild(t, db, h, Operation(Up(t, p, Number(t, f)), Some(Pending(h, Final)),
                                             if IsAncestor(t, p, db.meta.best) then None else Some(p), true));
      }
    }
  }

  /** A successful request keeps the invariant if and only if it is not such a combined operation;
  in every case the finalized block moves only to a descendant. */
  lemma RequestKeepsInvIff(t: Tree, db: Db, req: Request)
    requires Inv(t, db) && (req.Import? ==> req.hash in t.headers)
    ensures var r := Serve(t, db, req);
            r.Ok? ==>
              && (Inv(t, r.value) <==> !Combined(t, db, req))
              && r.value.meta.finalized in t.headers
              && IsAncestor(t, db.meta.finalized, r.value.meta.finalized)
  {
    assert IsAncestor(t, db.meta.finalized, db.meta.finalized);
    match req {
      case FinalizeBlock(block) => FinalizeRequest(t, db, block);
      case Import(h, isFinal, hasState, _) =>
        if isFinal && hasState {
          FinalImport(t, db, req);
          if Serve(t, db, req).Ok? {
            NotGenesis(t, db, h);
            ClosedGrows(t, db.known, h);
            ParentIsAncestor(t, db.meta.finalized, h);
            assert IsAncestor(t, h, h);
          }
        } else {
          PlainImport(t, db, req);
        }
    }
  }

  // ---------------------------------------------------------------- runs

  function Exec(t: Tree, db: Db, reqs: seq<Request>): Db
    requires Running(t, db) && forall r :: r in reqs && r.Import? ==> r.hash in t.headers
    decreases |reqs|
  {
    if reqs == [] then db else Exec(t, After(t, db, reqs[0]), reqs[1..])
  }

  lemma ServeRunning(t: Tree, db: Db, req: Request)
    requires Running(t, db) && (req.Import? ==> req.hash in t.headers)
    ensures Serve(t, db, req).Ok? ==> Running(t, Serve(t, db, req).value)
  {
    PreparedPending(t, db, req);
    var op := Prepare(t, db, req);
    if op.Ok? {
      CommitRunning(t, db, op.value);
    }
  }

  lemma CommitRunning(t: Tree, db: Db, op: Operation)
    requires Running(t, db) && (op.pending.Some? ==> op.pending.value.hash in t.headers)
    ensures Commit(t, db, op).Ok? ==> Running(t, Commit(t, db, op).value)
  {
    if Finalize(t, db, op.finalized, db.meta.finalized).Ok? {
      FinalizeKnown(t, db, op.finalized, db.meta.finalized);
      FinalMetaInTree(t, db.meta, op.finalized);
    }
  }

  lemma {:induction false} FinalMetaInTree(t: Tree, m: Meta, blocks: seq<Hash>)
    requires m.finalized in t.headers && forall b :: b in blocks ==> b in t.headers
    ensures FinalMeta(t, m, blocks).finalized in t.headers && FinalMeta(t, m, blocks).best == m.best
    decreases |blocks|
  {
    if blocks != [] {
      FinalMetaInTree(t, UpdateMeta(t, m, blocks[0], false, true), blocks[1..]);
    }
  }

  function After(t: Tree, db: Db, req: Request): (next: Db)
    requires Running(t, db) && (req.Import? ==> req.hash in t.headers)
    ensures Running(t, next)
  {
    ServeRunning(t, db, req);
    if Serve(t, db, req).Ok? then Serve(t, db, req).value else db
  }

  /** No request of the run is served as a combined operation. */
  ghost predicate NeverCombined(t: Tree, db: Db, reqs: seq<Request>)
    requires Running(t, db) && forall r :: r in reqs && r.Import? ==> r.hash in t.headers
    decreases |reqs|
  {
    reqs != [] ==>
      && (Serve(t, db, reqs[0]).Ok? ==> !Combined(t, db, reqs[0]))
      && NeverCombined(t, After(t, db, reqs[0]), reqs[1..])
  }

  /** The invariant holds in every state of the run. */
  ghost predicate SafeThroughout(t: Tree, db: Db, reqs: seq<Request>)
    requires Running(t, db) && forall r :: r in reqs && r.Import? ==> r.hash in t.headers
    decreases |reqs|
  {
    Inv(t, db) && (reqs != [] ==> SafeThroughout(t, After(t, db, reqs[0]), reqs[1..]))
  }

  /** Finality safety over whole runs, exactly: from a state that satisfies the invariant, it holds in
  every state of the run if and only if no served request is a combined operation. */
  lemma {:induction false} RunIsSafeIff(t: Tree, db: Db, reqs: seq<Request>)
    requires Inv(t, db) && (forall r :: r in reqs && r.Import? ==> r.hash in t.headers)
    ensures SafeThroughout(t, db, reqs) <==> NeverCombined(t, db, reqs)
    decreases |reqs|
  {
    if reqs != [] {
      var next := After(t, db, reqs[0]);
      RequestKeepsInvIff(t, db, reqs[0]);
      if Inv(t, next) { RunIsSafeIff(t, next, reqs[1..]); }
    }
  }

  /** However many requests are served without a combined operation, the invariant holds at the end
  and the finalized block has only moved to descendants. */
  lemma {:induction false} RunIsSafe(t: Tree, db: Db, reqs: seq<Request>)
    requires Inv(t, db) && (forall r :: r in reqs && r.Import? ==> r.hash in t.headers)
    requires NeverCombined(t, db, reqs)
    ensures var end := Exec(t, db, reqs);
            Inv(t, end) && IsAncestor(t, db.meta.finalized, end.meta.finalized)
    decreases |reqs|
  {
    assert IsAncestor(t, db.meta.finalized, db.meta.finalized);
    if reqs != [] {
      var next := After(t, db, reqs[0]);
      RequestKeepsInvIff(t, db, reqs[0]);
      RunIsSafe(t, next, reqs[1..]);
      AncestorTransitive(t, db.meta.finalized, next.meta.finalized, Exec(t, db, reqs).meta.finalized);
    }
  }

  // ---------------------------------------------------------------- finality in every run

  /** What every request keeps, combined or not. */
  ghost predicate Rooted(t: Tree, db: Db) {
    Closed(t, db.known) && db.meta.best in db.known && db.meta.finalized in db.known
  }

  /** An accepted list ends in a known descendant of the block it starts from, and the metadata follows. */
  lemma {:induction false} FinalizeDescends(t: Tree, db: Db, m: Meta, blocks: seq<Hash>, last: Hash)
    requires Rooted(t, db) && last in db.known && m.finalized == last && Finalize(t, db, blocks, last).Ok?
    ensures var x := Finalize(t, db, blocks, last).value;
            && x in db.known && IsAncestor(t, last, x) && (forall b :: b in blocks ==> b in t.headers)
            && FinalMeta(t, m, blocks).finalized == x && FinalMeta(t, m, blocks).best == m.best
    decreases |blocks|
  {
    assert IsAncestor(t, last, last);
    if blocks != [] {
      var b := blocks[0];
      assert b != t.genesis by { assert last != DEFAULT_HASH; }
      FinalizeDescends(t, db, UpdateMeta(t, m, b, false, true), blocks[1..], b);
      ParentIsAncestor(t, last, b);
      AncestorTransitive(t, last, b, Finalize(t, db, blocks, last).value);
    }
  }

  /** Finalizing a block marks as head nothing but that block, which is then known and above genesis. */
  lemma MarkedHead(t: Tree, db: Db, op: Operation, block: Hash)
    requires Rooted(t, db) && Running(t, db) && block in db.known && op.setHead.None?
    ensures var r := ApplyFinality(t, db, op, block, db.meta.best);
            r.Ok? && r.value.setHead.Some? ==> r.value.setHead.value in db.known && r.value.setHead.value != t.genesis
  {
    GenesisIsAncestor(t, db.meta.best);
    RouteIsRoute(t, db.meta.best, t.genesis);
    assert IsAncestor(t, t.genesis, t.genesis);
  }

  /** What a prepared operation carries: a fresh block on a known parent, and a known head above genesis. */
  lemma PreparedShape(t: Tree, db: Db, req: Request)
    requires Rooted(t, db) && (req.Import? ==> req.hash in t.headers)
    ensures var op := Prepare(t, db, req);
            op.Ok? ==>
              && (op.value.pending.Some? ==>
                    var h := op.value.pending.value.hash;
                    h in t.headers && h !in db.known && Parent(t, h) in db.known)
              && (op.value.setHead.Some? ==> op.value.setHead.value in db.known && op.value.setHead.value != t.genesis)
  {
    if req.FinalizeBlock? && req.block in db.known { MarkedHead(t, db, BLANK, req.block); }
    if req.Import? && Parent(t, req.hash) in db.known {
      MarkedHead(t, db, BLANK.(commitState := req.hasState), Parent(t, req.hash));
    }
  }

  lemma CommitDescends(t: Tree, db: Db, op: Operation)
    requires Rooted(t, db)
    requires op.pending.Some? ==>
      var h := op.pending.value.hash; h in t.headers && h !in db.known && Parent(t, h) in db.known
    requires op.setHead.Some? ==> op.setHead.value in db.known && op.setHead.value != t.genesis
    ensures var r := Commit(t, db, op);
            r.Ok? ==> Rooted(t, r.value) && IsAncestor(t, db.meta.finalized, r.value.meta.finalized)
  {
    if Commit(t, db, op).Ok? {
      FinalizeDescends(t, db, db.meta, op.finalized, db.meta.finalized);
      var last := Finalize(t, db, op.finalized, db.meta.finalized).value;
      if op.pending.Some? {
        var h := op.pending.value.hash;
        assert h != t.genesis;
        ClosedGrows(t, db.known, h);
        ParentIsAncestor(t, db.meta.finalized, h);
      }
      assert op.setHead.Some? ==> Number(t, op.setHead.value) == Number(t, Parent(t, op.setHead.value)) + 1;
    }
  }

  /** In every run, combined operations included, the finalized block only ever moves to descendants. */
  lemma {:induction false} FinalityOnlyAdvances(t: Tree, db: Db, reqs: seq<Request>)
    requires Rooted(t, db) && (forall r :: r in reqs && r.Import? ==> r.hash in t.headers)
    ensures var end := Exec(t, db, reqs);
            Rooted(t, end) && IsAncestor(t, db.meta.finalized, end.meta.finalized)
    decreases |reqs|
  {
    assert IsAncestor(t, db.meta.finalized, db.meta.finalized);
    if reqs != [] {
      var op, next := Prepare(t, db, reqs[0]), After(t, db, reqs[0]);
      PreparedShape(t, db, reqs[0]);
      if op.Ok? { CommitDescends(t, db, op.value); }
      FinalityOnlyAdvances(t, next, reqs[1..]);
      AncestorTransitive(t, db.meta.finalized, next.meta.finalized, Exec(t, db, reqs).meta.finalized);
    }
  }

  /** The first import, of genesis into an empty database, establishes the invariant. */
  lemma GenesisStarts(t: Tree, leaf: LeafState)
    requires leaf.IsBest()
    ensures var r := Commit(t, EMPTY_DB, BLANK.(pending := Some(Pending(t.genesis, leaf)), commitState := true));
            r.Ok? && Inv(t, r.value)
  {
    assert IsAncestor(t, t.genesis, t.genesis);
    var index: map<nat, Hash> := map[0 := t.genesis];
    assert CanonIndex(t, t.genesis) == index;
  }

  // ---------------------------------------------------------------- a combined operation

  const BEST_A := Db({GENESIS, A, B}, map[0 := GENESIS, 1 := A], Meta(A, 1, GENESIS, 0, GENESIS))

  /** With best block `A`, importing the child `C` of the fork block `B` as final leaves `B` as best
  block below the finalized block `C`. */
  lemma FinalImportOffBestChain()
    ensures FORK.Valid() && Inv(FORK, BEST_A)
    ensures var r := Serve(FORK, BEST_A, Import(C, true, true, LongestChain));
            r.Ok? && r.value.meta.best == B && r.value.meta.finalized == C && !Inv(FORK, r.value)
  {
    ForkAncestors();
    var t: Tree := FORK;
    assert CanonIndex(t, A) == BEST_A.index;
    FinalImport(t, BEST_A, Import(C, true, true, LongestChain));
    RequestKeepsInvIff(t, BEST_A, Import(C, true, true, LongestChain));
  }
}
