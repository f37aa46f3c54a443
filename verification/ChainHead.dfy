/** The full backend's view of the chain: best block, finalized block and number-to-hash index,
and the commit that updates them together. */
module ChainHead {
  import opened BlockTree

  datatype Error =
    | NotInFinalizedChain | NonSequentialFinalization | UnknownBlock | AlreadyInChain | UnknownParent
    | MissingHashRequiredForCht | MissingCht | NoChtForBlock

  datatype Result<+T> = Ok(value: T) | Err(error: Error)

  datatype Meta = Meta(best: Hash, bestNumber: nat, finalized: Hash, finalizedNumber: nat, genesis: Hash)

  /** `known` are the stored headers, `index` maps numbers to the blocks of the best chain. */
  datatype Db = Db(known: set<Hash>, index: map<nat, Hash>, meta: Meta)

  const EMPTY_DB := Db({}, map[], Meta(DEFAULT_HASH, 0, DEFAULT_HASH, 0, DEFAULT_HASH))

  datatype LeafState = Normal | Best | Final {
    predicate IsBest() { Best? || Final? }
  }

  datatype Pending = Pending(hash: Hash, leafState: LeafState)

  datatype Operation = Operation(
    finalized: seq<Hash>, pending: Option<Pending>, setHead: Option<Hash>, commitState: bool)

  const BLANK := Operation([], None, None, false)

  // ---------------------------------------------------------------- reference definitions

  function Lca(t: Tree, a: Hash, b: Hash): (c: Hash)
    requires a in t.headers && b in t.headers
    ensures c in t.headers && Number(t, c) <= Number(t, a) && Number(t, c) <= Number(t, b)
    decreases Number(t, a) + Number(t, b)
  {
    if Number(t, a) > Number(t, b) then Lca(t, Parent(t, a), b)
    else if Number(t, a) < Number(t, b) then Lca(t, a, Parent(t, b))
    else if a == b then a
    else NotBothGenesis(t, a, b); NotBothGenesis(t, b, a); Lca(t, Parent(t, a), Parent(t, b))
  }

  lemma {:induction false} LcaIsLowest(t: Tree, a: Hash, b: Hash)
    requires a in t.headers && b in t.headers
    ensures IsLowestCommonAncestor(t, Lca(t, a, b), a, b)
    decreases Number(t, a) + Number(t, b)
  {
    if Number(t, a) > Number(t, b) {
      LcaIsLowest(t, Parent(t, a), b);
    } else if Number(t, a) < Number(t, b) {
      LcaIsLowest(t, a, Parent(t, b));
    } else if a != b {
      NotBothGenesis(t, a, b);
      NotBothGenesis(t, b, a);
      LcaIsLowest(t, Parent(t, a), Parent(t, b));
    }
  }

  function Route(t: Tree, from: Hash, to: Hash): TreeRoute
    requires from in t.headers && to in t.headers
  {
    var c := Lca(t, from, to);
    TreeRoute(Down(t, from, Number(t, c)) + [c] + Up(t, to, Number(t, c)), Number(t, from) - Number(t, c))
  }

  lemma RouteIsRoute(t: Tree, from: Hash, to: Hash)
    requires from in t.headers && to in t.headers
    ensures IsRoute(t, from, to, Route(t, from, to)) && Route(t, from, to).Common() == Lca(t, from, to)
  {
    LcaIsLowest(t, from, to);
    var r, n := Route(t, from, to), Number(t, Lca(t, from, to));
    assert r.Retracted() == Down(t, from, n) && r.Enacted() == Up(t, to, n);
  }

  lemma RouteIsUnique(t: Tree, from: Hash, to: Hash, r: TreeRoute)
    requires from in t.headers && to in t.headers && IsRoute(t, from, to, r)
    ensures r == Route(t, from, to)
  {
    LcaIsLowest(t, from, to);
    LowestCommonAncestorUnique(t, r.Common(), Lca(t, from, to), from, to);
    RouteParts(r);
  }

  lemma RouteParts(r: TreeRoute)
    requires r.Valid()
    ensures r == TreeRoute(r.Retracted() + [r.Common()] + r.Enacted(), |r.Retracted()|)
  {
  }

  /** The index that lists exactly the chain of `best`. */
  function CanonIndex(t: Tree, best: Hash): map<nat, Hash>
    requires best in t.headers
  {
    map n | 0 <= n <= Number(t, best) :: AncestorAt(t, best, n)
  }

  // ---------------------------------------------------------------- the head

  function Numbers(t: Tree, blocks: seq<Hash>): set<nat>
    requires forall b :: b in blocks ==> b in t.headers
  {
    set b | b in blocks :: Number(t, b)
  }

  function Inserted(t: Tree, index: map<nat, Hash>, blocks: seq<Hash>): map<nat, Hash>
    requires forall b :: b in blocks ==> b in t.headers
    decreases |blocks|
  {
    if blocks == [] then index
    else
      var last := blocks[|blocks| - 1];
      Inserted(t, index, blocks[..|blocks| - 1])[Number(t, last) := last]
  }

  lemma InsertedLast(t: Tree, index: map<nat, Hash>, blocks: seq<Hash>, h: Hash)
    requires h in t.headers && forall b :: b in blocks ==> b in t.headers
    ensures Inserted(t, index, blocks + [h]) == Inserted(t, index, blocks)[Number(t, h) := h]
  {
    assert (blocks + [h])[..|blocks|] == blocks;
  }

  lemma {:induction false} InsertedAt(t: Tree, index: map<nat, Hash>, h: Hash, low: nat, n: nat)
    requires h in t.headers && low <= Number(t, h)
    ensures n in Inserted(t, index, Up(t, h, low)) <==> n in index || low < n <= Number(t, h)
    ensures low < n <= Number(t, h) ==> Inserted(t, index, Up(t, h, low))[n] == AncestorAt(t, h, n)
    ensures n in index && !(low < n <= Number(t, h)) ==> Inserted(t, index, Up(t, h, low))[n] == index[n]
    decreases Number(t, h)
  {
    if low < Number(t, h) {
      var p := Parent(t, h);
      UpStep(t, h, low);
      InsertedLast(t, index, Up(t, p, low), h);
      InsertedAt(t, index, p, low, n);
    }
  }

  lemma RouteInTree(t: Tree, from: Hash, to: Hash)
    requires from in t.headers && to in t.headers
    ensures var r := Route(t, from, to);
            && r.Valid() && r.Common() in t.headers
            && (forall b :: b in r.Retracted() ==> b in t.headers) && (forall b :: b in r.Enacted() ==> b in t.headers)
  {
    RouteIsRoute(t, from, to);
  }

  /** The index after retracting and enacting the blocks of a route. */
  function Rerouted(t: Tree, index: map<nat, Hash>, from: Hash, to: Hash): map<nat, Hash>
    requires from in t.headers && to in t.headers
  {
    RouteInTree(t, from, to);
    var r := Route(t, from, to);
    Inserted(t, index - Numbers(t, r.Retracted()), r.Enacted())
  }

  /** The numbers a route retracts are those of `from` above the meeting point. */
  lemma RetractedNumbers(t: Tree, from: Hash, to: Hash, n: nat)
    requires from in t.headers && to in t.headers
    requires Route(t, from, to).Valid() && forall b :: b in Route(t, from, to).Retracted() ==> b in t.headers
    ensures n in Numbers(t, Route(t, from, to).Retracted()) <==> Number(t, Lca(t, from, to)) < n <= Number(t, from)
  {
    RouteIsRoute(t, from, to);
    var low, retracted := Number(t, Lca(t, from, to)), Route(t, from, to).Retracted();
    if low < n <= Number(t, from) {
      AncestorCompose(t, from, n, n);
      DownContains(t, from, low, AncestorAt(t, from, n));
      assert AncestorAt(t, from, n) in retracted;
    }
    forall b | b in retracted
      ensures low < Number(t, b) <= Number(t, from)
    {
      DownContains(t, from, low, b);
    }
  }

  /** Below the meeting point the two chains agree. */
  lemma SharedBelowLca(t: Tree, from: Hash, to: Hash, n: nat)
    requires from in t.headers && to in t.headers && n <= Number(t, Lca(t, from, to))
    ensures AncestorAt(t, from, n) == AncestorAt(t, to, n)
  {
    LcaIsLowest(t, from, to);
    AncestorCompose(t, from, Number(t, Lca(t, from, to)), n);
    AncestorCompose(t, to, Number(t, Lca(t, from, to)), n);
  }

  lemma ReroutedAt(t: Tree, from: Hash, to: Hash, n: nat)
    requires from in t.headers && to in t.headers
    ensures var r := Rerouted(t, CanonIndex(t, from), from, to);
            (n in r <==> n <= Number(t, to)) && (n in r ==> r[n] == AncestorAt(t, to, n))
  {
    RouteIsRoute(t, from, to);
    RouteInTree(t, from, to);
    var low := Number(t, Lca(t, from, to));
    RetractedNumbers(t, from, to, n);
    if n <= low { SharedBelowLca(t, from, to, n); }
    InsertedAt(t, CanonIndex(t, from) - Numbers(t, Route(t, from, to).Retracted()), to, low, n);
  }

  /** Following the route from one best block to another turns the index of the first into that of the second. */
  lemma RerouteFollowsBest(t: Tree, from: Hash, to: Hash)
    requires from in t.headers && to in t.headers
    ensures Rerouted(t, CanonIndex(t, from), from, to) == CanonIndex(t, to)
  {
    var r := Rerouted(t, CanonIndex(t, from), from, to);
    forall n: nat
      ensures (n in r <==> n in CanonIndex(t, to)) && (n in r ==> r[n] == CanonIndex(t, to)[n])
    {
      ReroutedAt(t, from, to, n);
    }
  }

  /** A new best block on top of `p` adds one number. */
  lemma ChildIndex(t: Tree, h: Hash)
    requires h in t.headers && h != t.genesis
    ensures CanonIndex(t, Parent(t, h))[Number(t, h) := h] == CanonIndex(t, h)
  {
    ParentStep(t, h, Number(t, h));
    forall n: nat | n < Number(t, h)
      ensures AncestorAt(t, h, n) == AncestorAt(t, Parent(t, h), n)
    {
      AncestorCompose(t, h, Number(t, h) - 1, n);
    }
  }

  /** `set_head_with_transaction`: reroute the index and map the new best block; refuses to retract
  the finalized block. `index` is the index as the transaction has left it so far. */
  function SetHead(t: Tree, db: Db, index: map<nat, Hash>, routeTo: Hash, best: Hash): Result<map<nat, Hash>>
    requires best in t.headers
    requires db.meta.best == DEFAULT_HASH || db.meta.best in t.headers
    requires forall h :: h in db.known ==> h in t.headers
  {
    if db.meta.best == DEFAULT_HASH then
      Ok(index[Number(t, best) := best])
    else if routeTo !in db.known then
      Err(UnknownBlock)
    else
      RouteInTree(t, db.meta.best, routeTo);
      if db.meta.finalized in Route(t, db.meta.best, routeTo).Retracted() then
        Err(NotInFinalizedChain)
      else
        Ok(Rerouted(t, index, db.meta.best, routeTo)[Number(t, best) := best])
  }

  // ---------------------------------------------------------------- the commit

  /** Each block must be a child of the one finalized before it. */
  function Finalize(t: Tree, db: Db, blocks: seq<Hash>, last: Hash): Result<Hash>
    requires forall h :: h in db.known ==> h in t.headers
    decreases |blocks|
  {
    if blocks == [] then Ok(last)
    else if blocks[0] !in db.known then Err(UnknownBlock)
    else if Parent(t, blocks[0]) != last then Err(NonSequentialFinalization)
    else Finalize(t, db, blocks[1..], blocks[0])
  }

  function UpdateMeta(t: Tree, m: Meta, h: Hash, isBest: bool, isFinal: bool): Meta
    requires h in t.headers
  {
    var n := Number(t, h);
    var m1 := if n == 0 then m.(genesis := h, finalized := h) else m;
    var m2 := if isBest then m1.(best := h, bestNumber := n) else m1;
    if isFinal then m2.(finalized := h, finalizedNumber := n) else m2
  }

  function FinalMeta(t: Tree, m: Meta, blocks: seq<Hash>): Meta
    requires forall b :: b in blocks ==> b in t.headers
    decreases |blocks|
  {
    if blocks == [] then m else FinalMeta(t, UpdateMeta(t, m, blocks[0], false, true), blocks[1..])
  }

  ghost predicate Sane(t: Tree, db: Db) {
    && (db.meta.best == DEFAULT_HASH || db.meta.best in t.headers)
    && forall h :: h in db.known ==> h in t.headers
  }

  function IsFinalized(t: Tree, op: Operation): bool
    requires op.pending.Some? && op.pending.value.hash in t.headers
  {
    op.commitState && (Number(t, op.pending.value.hash) == 0 || op.pending.value.leafState.Final?)
  }

  /** The pending block's part of the commit: head, sequential finality, index. */
  function CommitPending(t: Tree, db: Db, op: Operation, last: Hash): Result<map<nat, Hash>>
    requires Sane(t, db) && op.pending.Some? && op.pending.value.hash in t.headers
  {
    var h := op.pending.value.hash;
    var r := if op.pending.value.leafState.IsBest() then SetHead(t, db, db.index, Parent(t, h), h) else Ok(db.index);
    if r.Err? then r
    else if IsFinalized(t, op) && Parent(t, h) != last then Err(NonSequentialFinalization)
    else r
  }

  /** `try_commit_operation`: finalize, import the pending block, move the head; all or nothing. */
  function Commit(t: Tree, db: Db, op: Operation): Result<Db>
    requires Sane(t, db) && (op.pending.Some? ==> op.pending.value.hash in t.headers)
  {
    var last := Finalize(t, db, op.finalized, db.meta.finalized);
    if last.Err? then Err(last.error) else
    FinalizeKnown(t, db, op.finalized, db.meta.finalized);
    var m1 := FinalMeta(t, db.meta, op.finalized);
    var index := if op.pending.Some? then CommitPending(t, db, op, last.value) else Ok(db.index);
    if index.Err? then Err(index.error) else
    var m2 := if op.pending.Some?
              then UpdateMeta(t, m1, op.pending.value.hash, op.pending.value.leafState.IsBest(), IsFinalized(t, op))
              else m1;
    var known := if op.pending.Some? then db.known + {op.pending.value.hash} else db.known;
    if op.setHead.None? then Ok(Db(known, index.value, m2))
    else if op.setHead.value !in db.known then Err(UnknownBlock)
    else
      var index2 := SetHead(t, db, index.value, op.setHead.value, op.setHead.value);
      if index2.Err? then Err(index2.error)
      else Ok(Db(known, index2.value, UpdateMeta(t, m2, op.setHead.value, true, false)))
  }

  lemma {:induction false} FinalizeKnown(t: Tree, db: Db, blocks: seq<Hash>, last: Hash)
    requires Sane(t, db) && Finalize(t, db, blocks, last).Ok?
    ensures forall b :: b in blocks ==> b in db.known
    decreases |blocks|
  {
    if blocks != [] {
      FinalizeKnown(t, db, blocks[1..], blocks[0]);
    }
  }

  // ---------------------------------------------------------------- the client

  /** `apply_finality_with_block_hash`: finalize the chain from the last finalized block up to
  `block`, and make it the head when it is not on the best chain. */
  function ApplyFinality(t: Tree, db: Db, op: Operation, block: Hash, best: Hash): Result<Operation>
    requires Sane(t, db) && db.meta.finalized in t.headers && best in t.headers
  {
    if block == db.meta.finalized then Ok(op)
    else if block !in db.known then Err(UnknownBlock)
    else
      RouteInTree(t, db.meta.finalized, block);
      RouteInTree(t, best, block);
      var route := Route(t, db.meta.finalized, block);
      if route.Retracted() != [] then Err(NotInFinalizedChain)
      else
        var op1 := if Route(t, best, block).Common() != block then op.(setHead := Some(block)) else op;
        Ok(op1.(finalized := op1.finalized + route.Enacted()))
  }

  datatype ForkChoice = LongestChain | Custom(isBest: bool)

  /** A client request. `hasState` says whether the import brings storage changes. */
  datatype Request =
    | Import(hash: Hash, isFinal: bool, hasState: bool, forkChoice: ForkChoice)
    | FinalizeBlock(block: Hash)

  ghost predicate Running(t: Tree, db: Db) {
    Sane(t, db) && db.meta.finalized in t.headers && db.meta.best in t.headers && db.meta.best != DEFAULT_HASH
  }

  /** `execute_and_import_block` up to the point where the operation is handed to the backend. */
  function PrepareImport(t: Tree, db: Db, req: Request): Result<Operation>
    requires Running(t, db) && req.Import? && req.hash in t.headers
  {
    if Parent(t, req.hash) !in db.known then Err(UnknownParent)
    else if req.hash in db.known then Err(AlreadyInChain)
    else if Number(t, req.hash) <= db.meta.finalizedNumber then Err(NotInFinalizedChain)
    else
      var started := BLANK.(commitState := req.hasState);
      var op := if req.hasState && req.isFinal
                then ApplyFinality(t, db, started, Parent(t, req.hash), db.meta.best)
                else Ok(started);
      if op.Err? then op
      else
        var isNewBest := req.isFinal ||
                         match req.forkChoice
                         case LongestChain => Number(t, req.hash) > db.meta.bestNumber
                         case Custom(v) => v;
        var leaf := if req.isFinal then Final else if isNewBest then Best else Normal;
        Ok(op.value.(pending := Some(Pending(req.hash, leaf))))
  }

  function Prepare(t: Tree, db: Db, req: Request): Result<Operation>
    requires Running(t, db) && (req.Import? ==> req.hash in t.headers)
  {
    match req
    case Import(_, _, _, _) => PrepareImport(t, db, req)
    case FinalizeBlock(block) => ApplyFinality(t, db, BLANK, block, db.meta.best)
  }

  lemma PreparedPending(t: Tree, db: Db, req: Request)
    requires Running(t, db) && (req.Import? ==> req.hash in t.headers)
    ensures Prepare(t, db, req).Ok? && Prepare(t, db, req).value.pending.Some? ==>
              req.Import? && Prepare(t, db, req).value.pending.value.hash == req.hash
  {
  }

  /** Serve a request; a request that fails changes nothing. */
  function Serve(t: Tree, db: Db, req: Request): Result<Db>
    requires Running(t, db) && (req.Import? ==> req.hash in t.headers)
  {
    PreparedPending(t, db, req);
    var op := Prepare(t, db, req);
    if op.Err? then Err(op.error) else Commit(t, db, op.value)
  }
}
