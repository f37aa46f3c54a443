/** Runs of the light storage: imports, head switches and finalizations in any order. */
module LightRuns {
  import opened BlockTree
  import opened ChainHead
  import opened Cht
  import opened Fork
  import opened LightPruning
  import L = Light

  // ---------------------------------------------------------------- the head

  /** A route between two descendants of the finalized block stays at or above it. */
  lemma RouteAboveFinal(t: Tree, f: Hash, from: Hash, to: Hash)
    requires f in t.headers && from in t.headers && to in t.headers
    requires IsAncestor(t, f, from) && IsAncestor(t, f, to)
    ensures Number(t, f) <= Number(t, Lca(t, from, to))
    ensures forall b :: b in Route(t, from, to).route ==>
      b in t.headers && Number(t, f) <= Number(t, b) && (IsAncestor(t, b, from) || IsAncestor(t, b, to))
  {
    LcaIsLowest(t, from, to);
    var c := Lca(t, from, to);
    var down, up := Down(t, from, Number(t, c)), Up(t, to, Number(t, c));
    forall b | b in Route(t, from, to).route
      ensures b in t.headers && Number(t, f) <= Number(t, b) && (IsAncestor(t, b, from) || IsAncestor(t, b, to))
    {
      assert b in down || b == c || b in up;
      if b in down { DownContains(t, from, Number(t, c), b); }
      if b in up { UpContains(t, to, Number(t, c), b); }
    }
  }

  /** Nothing on such a route was pruned. */
  lemma RouteIsStored(w: L.World, known: set<Hash>, db: L.LightDb, to: Hash)
    requires Inv(w, known, db) && to in known && IsAncestor(w.tree, db.meta.finalized, to)
    ensures to in db.headers
    ensures forall b :: b in Route(w.tree, db.meta.best, to).route ==> b in db.headers
  {
    var t := w.tree;
    RouteAboveFinal(t, db.meta.finalized, db.meta.best, to);
    PrunedBelowFinal(w, db.meta.finalizedNumber);
    forall b | b in Route(t, db.meta.best, to).route
      ensures b in db.headers
    {
      if IsAncestor(t, b, to) {
        ClosedUnderAncestors(t, known, to, Number(t, b));
      } else {
        ClosedUnderAncestors(t, known, db.meta.best, Number(t, b));
      }
    }
  }

  lemma ReroutedPrunedAt(w: L.World, known: set<Hash>, db: L.LightDb, to: Hash, n: nat)
    requires Inv(w, known, db) && to in known && IsAncestor(w.tree, db.meta.finalized, to)
    ensures var r := Rerouted(w.tree, db.index, db.meta.best, to);
      && (n in r <==> n <= Number(w.tree, to) && !IsPruned(w, db.meta.finalizedNumber, n))
      && (n in r ==> r[n] == AncestorAt(w.tree, to, n))
  {
    var t, best := w.tree, db.meta.best;
    RouteAboveFinal(t, db.meta.finalized, best, to);
    PrunedBelowFinal(w, db.meta.finalizedNumber);
    RouteIsRoute(t, best, to);
    RouteInTree(t, best, to);
    var low := Number(t, Lca(t, best, to));
    RetractedNumbers(t, best, to, n);
    if n <= low { SharedBelowLca(t, best, to, n); }
    InsertedAt(t, db.index - Numbers(t, Route(t, best, to).Retracted()), to, low, n);
  }

  /** Rerouting the index keeps the pruned numbers out and follows the new chain above them. */
  lemma RerouteKeepsIndex(w: L.World, known: set<Hash>, db: L.LightDb, to: Hash)
    requires Inv(w, known, db) && to in known && IsAncestor(w.tree, db.meta.finalized, to)
    ensures IndexOk(w, Rerouted(w.tree, db.index, db.meta.best, to), to, db.meta.finalizedNumber)
  {
    var r := Rerouted(w.tree, db.index, db.meta.best, to);
    forall n: nat
      ensures (n in r <==> n <= Number(w.tree, to) && !IsPruned(w, db.meta.finalizedNumber, n))
      ensures n in r ==> r[n] == AncestorAt(w.tree, to, n)
    {
      ReroutedPrunedAt(w, known, db, to, n);
    }
  }

  /** Putting a child of `p` on top of the chain of `p`. */
  lemma ChildOnTop(w: L.World, index: map<nat, Hash>, p: Hash, h: Hash, f: nat)
    requires Child(w.tree, p, h) && IndexOk(w, index, p, f) && f <= Number(w.tree, p)
    ensures IndexOk(w, index[Number(w.tree, h) := h], h, f)
  {
    PrunedBelowFinal(w, f);
    forall n: nat | n <= Number(w.tree, p)
      ensures AncestorAt(w.tree, h, n) == AncestorAt(w.tree, p, n)
    {
      ChildAncestors(w.tree, p, h, n);
    }
  }

  lemma OwnOnTop(w: L.World, index: map<nat, Hash>, h: Hash, f: nat)
    requires h in w.tree.headers && IndexOk(w, index, h, f) && f <= Number(w.tree, h)
    ensures IndexOk(w, index[Number(w.tree, h) := h], h, f)
  {
    PrunedBelowFinal(w, f);
  }

  lemma NewHeader(w: L.World, known: set<Hash>, headers: set<Hash>, f: Hash, h: Hash)
    requires Closed(w.tree, known) && f in known && h in w.tree.headers && h !in known
    requires HeadersOk(w, known, headers, f)
    ensures HeadersOk(w, known + {h}, headers + {h}, f)
  {
    FreshHasNoDescendants(w.tree, known, h, f);
  }

  // ---------------------------------------------------------------- steps

  /** `cached` is whatever the cache of header metadata holds at the time. */
  datatype Step =
    | ImportHeader(h: Hash, leaf: LeafState, cached: set<Hash>)
    | SetHead(h: Hash, cached: set<Hash>)
    | FinalizeHeader(h: Hash)

  ghost function Apply(w: L.World, db: L.LightDb, step: Step): Result<L.LightDb>
    requires L.Stored(w.tree, db) && (step.ImportHeader? ==> step.h in w.tree.headers)
  {
    match step
    case ImportHeader(h, leaf, cached) => L.Imported(w, db, cached, h, leaf)
    case SetHead(h, cached) => L.HeadSet(w, db, cached, h)
    case FinalizeHeader(h) => L.Finalized(w, db, h)
  }

  /** Headers are imported once, after their parents. */
  ghost predicate Fresh(w: L.World, known: set<Hash>, step: Step) {
    step.ImportHeader? ==>
      && step.h in w.tree.headers && step.h !in known
      && step.h != w.tree.genesis && Parent(w.tree, step.h) in known
  }

  function Known(known: set<Hash>, step: Step): set<Hash> {
    if step.ImportHeader? then known + {step.h} else known
  }

  /** The step respects finality: a new head descends from the finalized block, and what is
  finalized is on the best chain. The storage itself does not check this. */
  ghost predicate Respectful(w: L.World, db: L.LightDb, step: Step)
    requires step.h in w.tree.headers && db.meta.finalized in w.tree.headers && db.meta.best in w.tree.headers
  {
    match step
    case ImportHeader(h, leaf, _) => leaf.Best? ==> IsAncestor(w.tree, db.meta.finalized, h)
    case SetHead(h, _) => IsAncestor(w.tree, db.meta.finalized, h)
    case FinalizeHeader(h) => IsAncestor(w.tree, h, db.meta.best)
  }

  /** The finalized header starts a CHT of changes-trie roots that lacks an entry. */
  ghost predicate ChangesMissing(w: L.World, db: L.LightDb, h: Hash)
    requires h in w.tree.headers && db.meta.finalized in w.tree.headers
  {
    var c := IsBuildRequired(w.size, Number(w.tree, h));
    c.Some? && h in w.roots && LacksChanges(w, db.meta.finalized, c.value)
  }

  lemma NoteFinalFailsIff(w: L.World, known: set<Hash>, db: L.LightDb, tx: L.LightDb, h: Hash)
    requires Inv(w, known, db) && h in w.tree.headers
    ensures L.NoteFinalized(w, db, tx, h).Err? <==> Parent(w.tree, h) != db.meta.finalized || ChangesMissing(w, db, h)
  {
    var c := IsBuildRequired(w.size, Number(w.tree, h));
    if Parent(w.tree, h) == db.meta.finalized && c.Some? {
      ChtIsCanonical(w, known, db, h, c.value);
      ChangesChtIff(w, known, db, h, c.value);
    }
  }

  lemma SetHeadStep(w: L.World, known: set<Hash>, db: L.LightDb, cached: set<Hash>, h: Hash)
    requires Inv(w, known, db)
    ensures L.Stored(w.tree, db)
    ensures h in known && IsAncestor(w.tree, db.meta.finalized, h) ==>
      var r := L.HeadSet(w, db, cached, h);
      r.Ok? && Inv(w, known, r.value)
    ensures var r := L.HeadSet(w, db, cached, h);
      r.Ok? && Inv(w, known, r.value) ==> h in known && IsAncestor(w.tree, db.meta.finalized, h)
  {
    InvIsStored(w, known, db);
    if h in known && IsAncestor(w.tree, db.meta.finalized, h) {
      RouteIsStored(w, known, db, h);
      RerouteKeepsIndex(w, known, db, h);
      OwnOnTop(w, Rerouted(w.tree, db.index, db.meta.best, h), h, db.meta.finalizedNumber);
    }
  }

  lemma FinalizeStep(w: L.World, known: set<Hash>, db: L.LightDb, h: Hash)
    requires Inv(w, known, db)
    ensures L.Stored(w.tree, db)
    ensures var r := L.Finalized(w, db, h);
      r.Ok? ==> (Inv(w, known, r.value) <==> IsAncestor(w.tree, h, db.meta.best))
    ensures L.Finalized(w, db, h).Err? <==>
      h !in db.headers || Parent(w.tree, h) != db.meta.finalized || ChangesMissing(w, db, h)
  {
    InvIsStored(w, known, db);
    if h in db.headers {
      NoteFinalFailsIff(w, known, db, db, h);
      if L.Finalized(w, db, h).Ok? && IsAncestor(w.tree, h, db.meta.best) {
        FinalKeepsParts(w, known, db, known, db, h, db.meta.best);
      }
    }
  }

  /** The head part of an import: the index then follows the new block. */
  lemma ImportMovesHead(w: L.World, known: set<Hash>, db: L.LightDb, cached: set<Hash>, h: Hash)
    requires Inv(w, known, db) && Fresh(w, known, ImportHeader(h, Best, cached))
    requires IsAncestor(w.tree, db.meta.finalized, Parent(w.tree, h))
    ensures L.Stored(w.tree, db)
    ensures var r := L.MoveHead(w.tree, db, cached, db, Parent(w.tree, h), h);
      r.Ok? && r.value == db.(index := r.value.index) && IndexOk(w, r.value.index, h, db.meta.finalizedNumber)
  {
    InvIsStored(w, known, db);
    var p := Parent(w.tree, h);
    RouteIsStored(w, known, db, p);
    RerouteKeepsIndex(w, known, db, p);
    ChildOnTop(w, Rerouted(w.tree, db.index, db.meta.best, p), p, h, db.meta.finalizedNumber);
  }

  lemma ImportNormal(w: L.World, known: set<Hash>, db: L.LightDb, cached: set<Hash>, h: Hash)
    requires Inv(w, known, db) && Fresh(w, known, ImportHeader(h, Normal, cached))
    ensures L.Stored(w.tree, db)
    ensures var r := L.Imported(w, db, cached, h, Normal); r.Ok? && Inv(w, known + {h}, r.value)
  {
    InvIsStored(w, known, db);
    NewHeader(w, known, db.headers, db.meta.finalized, h);
  }

  lemma ImportBest(w: L.World, known: set<Hash>, db: L.LightDb, cached: set<Hash>, h: Hash)
    requires Inv(w, known, db) && Fresh(w, known, ImportHeader(h, Best, cached))
    requires IsAncestor(w.tree, db.meta.finalized, h)
    ensures L.Stored(w.tree, db)
    ensures var r := L.Imported(w, db, cached, h, Best); r.Ok? && Inv(w, known + {h}, r.value)
  {
    InvIsStored(w, known, db);
    NewHeader(w, known, db.headers, db.meta.finalized, h);
    ClosedGrows(w.tree, known, h);
    ImportMovesHead(w, known, db, cached, h);
    var r := L.Imported(w, db, cached, h, Best);
    assert r.value.meta == db.meta.(best := h, bestNumber := Number(w.tree, h));
    assert MetaOk(w.tree, known + {h}, r.value.meta);
  }

  lemma ImportBestOnlyIf(w: L.World, known: set<Hash>, db: L.LightDb, cached: set<Hash>, h: Hash)
    requires Inv(w, known, db) && Fresh(w, known, ImportHeader(h, Best, cached)) && L.Stored(w.tree, db)
    requires var r := L.Imported(w, db, cached, h, Best); r.Ok? && MetaOk(w.tree, known + {h}, r.value.meta)
    ensures IsAncestor(w.tree, db.meta.finalized, h)
  {
  }

  lemma ImportFinal(w: L.World, known: set<Hash>, db: L.LightDb, cached: set<Hash>, h: Hash)
    requires Inv(w, known, db) && Fresh(w, known, ImportHeader(h, Final, cached))
    ensures L.Stored(w.tree, db)
    ensures var r := L.Imported(w, db, cached, h, Final); r.Ok? ==> Inv(w, known + {h}, r.value)
    ensures L.Imported(w, db, cached, h, Final).Err? <==>
      Parent(w.tree, h) != db.meta.finalized || ChangesMissing(w, db, h)
  {
    InvIsStored(w, known, db);
    NewHeader(w, known, db.headers, db.meta.finalized, h);
    var head := L.MoveHead(w.tree, db, cached, db, Parent(w.tree, h), h);
    if head.Ok? {
      var tx := head.value.(headers := head.value.headers + {h});
      NoteFinalFailsIff(w, known, db, tx, h);
      if Parent(w.tree, h) == db.meta.finalized {
        ImportMovesHead(w, known, db, cached, h);
        FinalKeepsParts(w, known, db, known + {h}, tx, h, h);
      }
    } else if Parent(w.tree, h) == db.meta.finalized {
      ImportMovesHead(w, known, db, cached, h);
    }
  }

  /** A step that succeeds keeps the invariant exactly when it respects finality. */
  lemma StepKeepsInvIff(w: L.World, known: set<Hash>, db: L.LightDb, step: Step)
    requires Inv(w, known, db) && Fresh(w, known, step)
    ensures L.Stored(w.tree, db)
    ensures var r := Apply(w, db, step);
      r.Ok? ==> step.h in w.tree.headers && (Inv(w, Known(known, step), r.value) <==> Respectful(w, db, step))
  {
    InvIsStored(w, known, db);
    match step
    case SetHead(h, cached) => SetHeadStep(w, known, db, cached, h);
    case FinalizeHeader(h) => FinalizeStep(w, known, db, h);
    case ImportHeader(h, leaf, cached) =>
      if leaf.Normal? {
        ImportNormal(w, known, db, cached, h);
      } else if leaf.Best? {
        if IsAncestor(w.tree, db.meta.finalized, h) { ImportBest(w, known, db, cached, h); }
        var r := Apply(w, db, step);
        if r.Ok? && Inv(w, known + {h}, r.value) { ImportBestOnlyIf(w, known, db, cached, h); }
      } else {
        ImportFinal(w, known, db, cached, h);
      }
  }

  // ---------------------------------------------------------------- a retracted finalized block

  const LIGHT_FORK := L.World(FORK, 2048, map[])

  /** `A` is best and finalized, and the header of its sibling `B` is stored too. */
  const FINAL_A := L.LightDb({GENESIS, A, B}, map[0 := GENESIS, 1 := A], map[], map[], Meta(A, 1, A, 1, GENESIS))

  lemma FinalAFits()
    ensures FORK.Valid() && Inv(LIGHT_FORK, {GENESIS, A, B}, FINAL_A) && L.Stored(FORK, FINAL_A)
    ensures FINAL_A.index == CanonIndex(FORK, A)
  {
    ForkAncestors();
    assert Built(2048, 1) == 0;
    assert Starts(2048, 0) == {};
  }

  lemma SiblingRoute()
    ensures FORK.Valid() && L.AllAtHand(FINAL_A, {}, Route(FORK, A, B).route)
  {
    ForkAncestors();
    RouteIsRoute(FORK, A, B);
    RouteInTree(FORK, A, B);
  }

  /** Setting the head to `B` succeeds although it retracts the finalized block: number 1 then leads to `B`. */
  lemma FinalizedBlockIsRetracted()
    ensures FORK.Valid() && Inv(LIGHT_FORK, {GENESIS, A, B}, FINAL_A) && L.Stored(FORK, FINAL_A)
    ensures var r := L.HeadSet(LIGHT_FORK, FINAL_A, {}, B);
      && r.Ok? && r.value.meta.best == B && r.value.meta.finalized == A
      && L.HashAt(r.value, 1) == Some(B) && !Inv(LIGHT_FORK, {GENESIS, A, B}, r.value)
  {
    ForkAncestors();
    FinalAFits();
    SiblingRoute();
    RerouteFollowsBest(FORK, A, B);
  }

  // ---------------------------------------------------------------- runs

  datatype State = State(known: set<Hash>, db: L.LightDb)

  /** Genesis has been imported, and the storage speaks of blocks of the tree only. */
  ghost predicate Started(w: L.World, db: L.LightDb) {
    L.Stored(w.tree, db) && db.meta.best in w.tree.headers && db.meta.finalized in w.tree.headers
  }

  lemma NotedStarted(w: L.World, db: L.LightDb, tx: L.LightDb, h: Hash)
    requires h in w.tree.headers && L.NoteFinalized(w, db, tx, h).Ok?
    ensures L.NoteFinalized(w, db, tx, h).value.headers <= tx.headers
  {
  }

  lemma ApplyStarted(w: L.World, db: L.LightDb, step: Step)
    requires Started(w, db) && (step.ImportHeader? ==> step.h in w.tree.headers)
    ensures Apply(w, db, step).Ok? ==> Started(w, Apply(w, db, step).value)
  {
    if step.ImportHeader? {
      var head := if step.leaf.IsBest()
                  then L.MoveHead(w.tree, db, step.cached, db, Parent(w.tree, step.h), step.h) else Ok(db);
      if head.Ok? {
        var tx := head.value.(headers := head.value.headers + {step.h});
        if L.NoteFinalized(w, db, tx, step.h).Ok? { NotedStarted(w, db, tx, step.h); }
      }
    } else if step.FinalizeHeader? && step.h in db.headers && L.NoteFinalized(w, db, db, step.h).Ok? {
      NotedStarted(w, db, db, step.h);
    }
  }

  /** A step that fails changes nothing. */
  ghost function Next(w: L.World, s: State, step: Step): (n: State)
    requires Started(w, s.db) && (step.ImportHeader? ==> step.h in w.tree.headers)
    ensures Started(w, n.db)
  {
    ApplyStarted(w, s.db, step);
    var r := Apply(w, s.db, step);
    if r.Ok? then State(Known(s.known, step), r.value) else s
  }

  /** Headers are imported once, after their parents; otherwise any steps in any order. */
  ghost predicate IsRun(w: L.World, s: State, steps: seq<Step>)
    requires Started(w, s.db)
    decreases |steps|
  {
    steps == [] || (Fresh(w, s.known, steps[0]) && IsRun(w, Next(w, s, steps[0]), steps[1..]))
  }

  ghost function After(w: L.World, s: State, steps: seq<Step>): State
    requires Started(w, s.db) && IsRun(w, s, steps)
    decreases |steps|
  {
    if steps == [] then s else After(w, Next(w, s, steps[0]), steps[1..])
  }

  /** Every step that succeeds respects finality. */
  ghost predicate AllRespectful(w: L.World, s: State, steps: seq<Step>)
    requires Started(w, s.db) && IsRun(w, s, steps)
    decreases |steps|
  {
    steps != [] ==>
      && (Apply(w, s.db, steps[0]).Ok? ==> Respectful(w, s.db, steps[0]))
      && AllRespectful(w, Next(w, s, steps[0]), steps[1..])
  }

  ghost predicate KeptThroughout(w: L.World, s: State, steps: seq<Step>)
    requires Started(w, s.db) && IsRun(w, s, steps)
    decreases |steps|
  {
    Inv(w, s.known, s.db) && (steps != [] ==> KeptThroughout(w, Next(w, s, steps[0]), steps[1..]))
  }

  /** Over whole runs, exactly: the invariant holds in every state if and only if every step that
  succeeds respects finality. */
  lemma {:induction false} RunKeepsInvIff(w: L.World, s: State, steps: seq<Step>)
    requires Inv(w, s.known, s.db) && Started(w, s.db) && IsRun(w, s, steps)
    ensures KeptThroughout(w, s, steps) <==> AllRespectful(w, s, steps)
    decreases |steps|
  {
    if steps != [] {
      var n := Next(w, s, steps[0]);
      StepKeepsInvIff(w, s.known, s.db, steps[0]);
      if Inv(w, n.known, n.db) { RunKeepsInvIff(w, n, steps[1..]); }
    }
  }

  lemma {:induction false} KeptAtEnd(w: L.World, s: State, steps: seq<Step>)
    requires Started(w, s.db) && IsRun(w, s, steps) && KeptThroughout(w, s, steps)
    ensures var e := After(w, s, steps); Inv(w, e.known, e.db)
    decreases |steps|
  {
    if steps != [] { KeptAtEnd(w, Next(w, s, steps[0]), steps[1..]); }
  }

  lemma GenesisStarts(w: L.World, leaf: LeafState)
    requires leaf.IsBest()
    ensures var r := L.Imported(w, L.EMPTY, {}, w.tree.genesis, leaf); r.Ok? && Inv(w, {w.tree.genesis}, r.value)
  {
    var g := w.tree.genesis;
    assert AncestorAt(w.tree, g, 0) == g;
    assert L.Imported(w, L.EMPTY, {}, g, leaf).Ok?;
    assert Starts(w.size, 0) == {};
  }

  /** The storage after the import of genesis. */
  ghost function Genesis(w: L.World, leaf: LeafState): (s: State)
    requires leaf.IsBest()
    ensures Started(w, s.db) && Inv(w, s.known, s.db)
  {
    GenesisStarts(w, leaf);
    InvIsStored(w, {w.tree.genesis}, L.Imported(w, L.EMPTY, {}, w.tree.genesis, leaf).value);
    State({w.tree.genesis}, L.Imported(w, L.EMPTY, {}, w.tree.genesis, leaf).value)
  }

  /** How a client can check the block of height `n`: by its header or by a root that commits to it. */
  ghost predicate Answered(w: L.World, db: L.LightDb, n: nat)
    requires db.meta.finalized in w.tree.headers && 0 < n <= Number(w.tree, db.meta.finalized)
  {
    var canon, header := AncestorAt(w.tree, db.meta.finalized, n), L.HashAt(db, n);
    var root := L.ReadChtRoot(w.size, db, db.chts, n);
    root.Ok? &&
    match root.value
    case None => header == Some(canon)
    case Some(r) => header == None && Entry(n, canon) in r.pairs
  }

  /** The root of a CHT that is due commits to the finalized block of height `n`. */
  lemma RootCommits(w: L.World, db: L.LightDb, n: nat, c: nat)
    requires db.meta.finalized in w.tree.headers && ChtsOk(w, db.chts, db.meta.finalized)
    requires n <= Number(w.tree, db.meta.finalized) && db.meta.finalizedNumber == Number(w.tree, db.meta.finalized)
    requires BlockToCht(w.size, n) == Some(c) && c < Built(w.size, db.meta.finalizedNumber)
    ensures var r := L.ReadChtRoot(w.size, db, db.chts, n);
      r.Ok? && r.value.Some? && Entry(n, AncestorAt(w.tree, db.meta.finalized, n)) in r.value.value.pairs
  {
    RangesPartition(w.size, n, c);
    assert HasRoot(w, db.chts, db.meta.finalized, c);
    var start := StartNumber(w.size, c);
    var root := db.chts[StartNumber(w.size, c)];
    assert 0 <= n - start < w.size;
    assert CanonHashes(w, db.meta.finalized, c)[n - start] ==
      Some(CanonAt(w.tree, db.meta.finalized, start + (n - start)));
    assert root.pairs[n - start] == Entry(n, AncestorAt(w.tree, db.meta.finalized, n));
  }

  lemma InvAnswers(w: L.World, known: set<Hash>, db: L.LightDb, n: nat)
    requires Inv(w, known, db) && 0 < n <= Number(w.tree, db.meta.finalized)
    ensures Answered(w, db, n)
  {
    var c := BlockToCht(w.size, n).value;
    LookupIsCanonical(w, known, db, n);
    AncestorCompose(w.tree, db.meta.best, db.meta.finalizedNumber, n);
    DueIffCovered(w.size, db.meta.finalizedNumber, n, c);
    if c < Built(w.size, db.meta.finalizedNumber) {
      RootCommits(w, db, n, c);
    }
  }

  /** In every state of every run that respects finality, each finalized block is answered for by
  exactly one of its stored header and a CHT root, the root never goes missing, and blocks above
  the finalized one are left alone. */
  lemma FinalizedBlocksAreAnswered(w: L.World, leaf: LeafState, steps: seq<Step>)
    requires leaf.IsBest() && IsRun(w, Genesis(w, leaf), steps) && AllRespectful(w, Genesis(w, leaf), steps)
    ensures var s := After(w, Genesis(w, leaf), steps);
      && s.db.meta.finalized in w.tree.headers
      && (forall n :: 0 < n <= Number(w.tree, s.db.meta.finalized) ==> Answered(w, s.db, n))
      && (forall n :: s.db.meta.finalizedNumber < n <= s.db.meta.bestNumber ==>
            L.HashAt(s.db, n).Some? && L.ReadChtRoot(w.size, s.db, s.db.chts, n) == Ok(None))
      && (forall h :: h in s.db.headers ==> h in s.known)
      && (forall h :: h in s.known && h !in s.db.headers ==>
            && h in w.tree.headers && IsAncestor(w.tree, h, s.db.meta.finalized)
            && IsPruned(w, s.db.meta.finalizedNumber, Number(w.tree, h)))
  {
    RunKeepsInvIff(w, Genesis(w, leaf), steps);
    KeptAtEnd(w, Genesis(w, leaf), steps);
    var s := After(w, Genesis(w, leaf), steps);
    forall n | 0 < n <= Number(w.tree, s.db.meta.finalized)
      ensures Answered(w, s.db, n)
    {
      InvAnswers(w, s.known, s.db, n);
    }
    forall n: nat | s.db.meta.finalizedNumber < n <= s.db.meta.bestNumber
      ensures L.HashAt(s.db, n).Some? && L.ReadChtRoot(w.size, s.db, s.db.chts, n) == Ok(None)
    {
      LookupIsCanonical(w, s.known, s.db, n);
      AboveFinalHasNoCht(w, s.db, n);
    }
  }

  lemma AboveFinalHasNoCht(w: L.World, db: L.LightDb, n: nat)
    requires db.meta.finalizedNumber < n
    ensures !IsPruned(w, db.meta.finalizedNumber, n) && L.ReadChtRoot(w.size, db, db.chts, n) == Ok(None)
  {
    PrunedBelowFinal(w, db.meta.finalizedNumber);
    if db.meta.finalizedNumber > 0 { ChtMonotone(w.size, db.meta.finalizedNumber, n); }
  }
}
