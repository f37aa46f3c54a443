/** What the light storage keeps over whole runs: every old canonical header is replaced by a CHT root
that commits to it, and nothing else is ever dropped. */
module LightPruning {
  import opened BlockTree
  import opened ChainHead
  import opened Cht
  import L = Light

  /** The highest number whose header has been replaced. */
  function PrunedTo(w: L.World, finalized: nat): nat { Built(w.size, finalized) * w.size }

  ghost predicate IsPruned(w: L.World, finalized: nat, n: nat) { 1 <= n <= PrunedTo(w, finalized) }

  /** The block of height `n` below `h`. */
  function CanonAt(t: Tree, h: Hash, n: nat): Hash
    requires h in t.headers
  {
    if n <= Number(t, h) then AncestorAt(t, h, n) else DEFAULT_HASH
  }

  /** The canonical hashes of one CHT's range. */
  function CanonHashes(w: L.World, h: Hash, cht: nat): (r: seq<Option<Hash>>)
    requires h in w.tree.headers
    ensures |r| == w.size && forall i :: 0 <= i < w.size ==>
      r[i] == Some(CanonAt(w.tree, h, StartNumber(w.size, cht) + i))
  {
    seq(w.size, i requires 0 <= i < w.size => Some(CanonAt(w.tree, h, StartNumber(w.size, cht) + i)))
  }

  // ---------------------------------------------------------------- the invariant

  ghost predicate MetaOk(t: Tree, known: set<Hash>, m: Meta) {
    && Closed(t, known) && m.best in known && m.finalized in known
    && m.bestNumber == Number(t, m.best) && m.finalizedNumber == Number(t, m.finalized)
    && IsAncestor(t, m.finalized, m.best)
  }

  ghost predicate IndexOk(w: L.World, index: map<nat, Hash>, best: Hash, f: nat)
    requires best in w.tree.headers
  {
    forall n: nat ::
      && (n in index <==> n <= Number(w.tree, best) && !IsPruned(w, f, n))
      && (n in index ==> index[n] == AncestorAt(w.tree, best, n))
  }

  ghost predicate HeadersOk(w: L.World, known: set<Hash>, headers: set<Hash>, finalized: Hash)
    requires finalized in w.tree.headers && forall h :: h in known ==> h in w.tree.headers
  {
    forall h :: h in headers <==>
      h in known && !(IsPruned(w, Number(w.tree, finalized), Number(w.tree, h)) && IsAncestor(w.tree, h, finalized))
  }

  function Starts(size: Size, count: nat): set<nat> {
    set c | 0 <= c < count :: StartNumber(size, c)
  }

  /** There is a root for exactly the CHTs that are due, and each commits to the finalized chain. */
  ghost predicate ChtsOk(w: L.World, chts: map<nat, Root>, finalized: Hash)
    requires finalized in w.tree.headers
  {
    && chts.Keys == Starts(w.size, Built(w.size, Number(w.tree, finalized)))
    && forall c: nat :: c < Built(w.size, Number(w.tree, finalized)) ==> HasRoot(w, chts, finalized, c)
  }

  ghost predicate HasRoot(w: L.World, chts: map<nat, Root>, finalized: Hash, c: nat)
    requires finalized in w.tree.headers
  {
    StartNumber(w.size, c) in chts && RootOf(w.size, c, CanonHashes(w, finalized, c)) ==
      Ok(chts[StartNumber(w.size, c)])
  }

  /** `known` are all the headers ever imported. */
  ghost predicate Inv(w: L.World, known: set<Hash>, db: L.LightDb) {
    && MetaOk(w.tree, known, db.meta)
    && IndexOk(w, db.index, db.meta.best, db.meta.finalizedNumber)
    && HeadersOk(w, known, db.headers, db.meta.finalized)
    && ChtsOk(w, db.chts, db.meta.finalized)
  }

  lemma InvIsStored(w: L.World, known: set<Hash>, db: L.LightDb)
    requires Inv(w, known, db)
    ensures L.Stored(w.tree, db) && db.meta.best != DEFAULT_HASH
  {
  }

  /** Everything pruned lies strictly below the finalized block. */
  lemma PrunedBelowFinal(w: L.World, f: nat)
    ensures PrunedTo(w, f) <= f && (PrunedTo(w, f) > 0 ==> PrunedTo(w, f) < f)
  {
    if f > 0 { BuildInOrder(w.size, f); }
  }

  /** Looking a number up gives the canonical block unless it was replaced. */
  lemma LookupIsCanonical(w: L.World, known: set<Hash>, db: L.LightDb, n: nat)
    requires Inv(w, known, db)
    ensures L.HashAt(db, n) ==
      if n <= db.meta.bestNumber && !IsPruned(w, db.meta.finalizedNumber, n)
      then Some(AncestorAt(w.tree, db.meta.best, n))
      else None
  {
    if n <= db.meta.bestNumber && !IsPruned(w, db.meta.finalizedNumber, n) {
      ClosedUnderAncestors(w.tree, known, db.meta.best, n);
      assert Number(w.tree, AncestorAt(w.tree, db.meta.best, n)) == n;
    }
  }

  // ---------------------------------------------------------------- finality

  /** When finalizing `h` builds a CHT, its range is the next one and all its headers are still there. */
  lemma RangeIsStored(w: L.World, known: set<Hash>, db: L.LightDb, h: Hash, c: nat, n: nat)
    requires Inv(w, known, db) && h in w.tree.headers && h != w.tree.genesis && Parent(w.tree, h) == db.meta.finalized
    requires IsBuildRequired(w.size, Number(w.tree, h)) == Some(c)
    requires StartNumber(w.size, c) <= n <= EndNumber(w.size, c)
    ensures n < db.meta.finalizedNumber && L.HashAt(db, n) == Some(AncestorAt(w.tree, db.meta.finalized, n))
  {
    BuildInOrder(w.size, Number(w.tree, h));
    assert c == Built(w.size, db.meta.finalizedNumber);
    LookupIsCanonical(w, known, db, n);
    AncestorCompose(w.tree, db.meta.best, db.meta.finalizedNumber, n);
  }

  /** The header CHT is built over the finalized chain. */
  lemma ChtIsCanonical(w: L.World, known: set<Hash>, db: L.LightDb, h: Hash, c: nat)
    requires Inv(w, known, db) && h in w.tree.headers && h != w.tree.genesis && Parent(w.tree, h) == db.meta.finalized
    requires IsBuildRequired(w.size, Number(w.tree, h)) == Some(c)
    ensures L.Hashes(w, db, c) == CanonHashes(w, h, c)
  {
    var stored, canon := L.Hashes(w, db, c), CanonHashes(w, h, c);
    forall i | 0 <= i < w.size
      ensures stored[i] == canon[i]
    {
      HashIsCanonical(w, known, db, h, c, i);
      assert stored[i] == L.HashAt(db, StartNumber(w.size, c) + i);
    }
    assert stored == canon;
  }

  lemma HashIsCanonical(w: L.World, known: set<Hash>, db: L.LightDb, h: Hash, c: nat, i: nat)
    requires Inv(w, known, db) && h in w.tree.headers && h != w.tree.genesis && Parent(w.tree, h) == db.meta.finalized
    requires IsBuildRequired(w.size, Number(w.tree, h)) == Some(c) && i < w.size
    ensures L.HashAt(db, StartNumber(w.size, c) + i) == Some(CanonAt(w.tree, h, StartNumber(w.size, c) + i))
  {
    RangeIsStored(w, known, db, h, c, StartNumber(w.size, c) + i);
  }

  /** A block of the range without a changes-trie root. */
  ghost predicate LacksChanges(w: L.World, finalized: Hash, c: nat)
    requires finalized in w.tree.headers
  {
    exists n: nat :: StartNumber(w.size, c) <= n <= EndNumber(w.size, c) && CanonAt(w.tree, finalized, n) !in w.roots
  }

  lemma ChangesChtIff(w: L.World, known: set<Hash>, db: L.LightDb, h: Hash, c: nat)
    requires Inv(w, known, db) && h in w.tree.headers && h != w.tree.genesis && Parent(w.tree, h) == db.meta.finalized
    requires IsBuildRequired(w.size, Number(w.tree, h)) == Some(c)
    ensures RootOf(w.size, c, L.ChangesRoots(w, db, c)).Err? <==> LacksChanges(w, db.meta.finalized, c)
  {
    var start, end := StartNumber(w.size, c), EndNumber(w.size, c);
    var roots := L.ChangesRoots(w, db, c);
    assert end == start + w.size - 1;
    forall n: nat | start <= n <= end
      ensures roots[n - start].None? <==> CanonAt(w.tree, db.meta.finalized, n) !in w.roots
    {
      RangeIsStored(w, known, db, h, c, n);
      assert roots[n - start] == L.ChangesRootAt(w, db, start + (n - start));
    }
    if RootOf(w.size, c, roots).Err? {
      var i :| 0 <= i < w.size && roots[i].None?;
      assert start <= start + i <= end && CanonAt(w.tree, db.meta.finalized, start + i) !in w.roots;
    }
    forall n: nat | start <= n <= end && CanonAt(w.tree, db.meta.finalized, n) !in w.roots
      ensures RootOf(w.size, c, roots).Err?
    {
      assert roots[n - start].None?;
    }
  }

  /** The finalized block moves from `f` to its child `h`. */
  ghost predicate Child(t: Tree, f: Hash, h: Hash) {
    f in t.headers && h in t.headers && h != t.genesis && Parent(t, h) == f
  }

  lemma ChildAncestors(t: Tree, f: Hash, h: Hash, n: nat)
    requires Child(t, f, h) && n <= Number(t, f)
    ensures AncestorAt(t, h, n) == AncestorAt(t, f, n)
  {
  }

  lemma ChildCanonHashes(w: L.World, f: Hash, h: Hash, c: nat)
    requires Child(w.tree, f, h) && c < Built(w.size, Number(w.tree, f))
    ensures CanonHashes(w, f, c) == CanonHashes(w, h, c)
  {
    PrunedBelowFinal(w, Number(w.tree, f));
    ScaleMonotone(w.size, c + 1, Built(w.size, Number(w.tree, f)));
    assert EndNumber(w.size, c) <= Number(w.tree, f);
    forall i | 0 <= i < w.size
      ensures CanonHashes(w, f, c)[i] == CanonHashes(w, h, c)[i]
    {
      ChildAncestors(w.tree, f, h, StartNumber(w.size, c) + i);
    }
  }

  /** The roots stay canonical; a new one is added exactly when one is due. */
  lemma ChtsKept(w: L.World, chts: map<nat, Root>, f: Hash, h: Hash, next: map<nat, Root>)
    requires Child(w.tree, f, h) && ChtsOk(w, chts, f)
    requires RootAdded(w, h, chts, next)
    ensures ChtsOk(w, next, h)
  {
    var built := Built(w.size, Number(w.tree, f));
    BuildInOrder(w.size, Number(w.tree, h));
    forall c: nat | c < Built(w.size, Number(w.tree, h))
      ensures HasRoot(w, next, h, c)
    {
      if c < built {
        assert HasRoot(w, chts, f, c);
        ChildCanonHashes(w, f, h, c);
        if built < Built(w.size, Number(w.tree, h)) { StartsDiffer(w.size, c, built); }
      }
    }
    StartsGrow(w.size, built);
  }

  lemma StartsDiffer(size: Size, c: nat, d: nat)
    requires c < d
    ensures StartNumber(size, c) != StartNumber(size, d)
  {
    ScaleMonotone(size, c + 1, d);
  }

  lemma StartsGrow(size: Size, count: nat)
    ensures Starts(size, count + 1) == Starts(size, count) + {StartNumber(size, count)}
  {
    forall s | s in Starts(size, count + 1)
      ensures s in Starts(size, count) + {StartNumber(size, count)}
    {
      var c :| 0 <= c < count + 1 && StartNumber(size, c) == s;
    }
  }

  /** What is due for pruning is exactly the range of the new CHT. */
  lemma DueIsRange(w: L.World, known: set<Hash>, db: L.LightDb, h: Hash, c: nat)
    requires Inv(w, known, db) && Child(w.tree, db.meta.finalized, h)
    requires IsBuildRequired(w.size, Number(w.tree, h)) == Some(c)
    ensures forall n: nat :: n in L.Due(w.size, db, c) <==>
      IsPruned(w, Number(w.tree, h), n) && !IsPruned(w, db.meta.finalizedNumber, n)
    ensures forall x :: x in L.BlocksAt(db, L.Due(w.size, db, c)) <==>
      x in w.tree.headers && Number(w.tree, x) in L.Due(w.size, db, c) && IsAncestor(w.tree, x, h)
  {
    BuildInOrder(w.size, Number(w.tree, h));
    var due := L.Due(w.size, db, c);
    forall n: nat | StartNumber(w.size, c) <= n <= EndNumber(w.size, c)
      ensures n in due && n in db.index && n <= db.meta.finalizedNumber && db.index[n] == AncestorAt(w.tree, h, n)
    {
      RangeIsStored(w, known, db, h, c, n);
      ChildAncestors(w.tree, db.meta.finalized, h, n);
    }
    assert PrunedTo(w, Number(w.tree, h)) == EndNumber(w.size, c);
    assert StartNumber(w.size, c) == PrunedTo(w, db.meta.finalizedNumber) + 1;
    forall x | x in w.tree.headers && Number(w.tree, x) in due && IsAncestor(w.tree, x, h)
      ensures x in L.BlocksAt(db, due)
    {
      assert db.index[Number(w.tree, x)] == x;
    }
  }

  /** Finalizing `h` on the chain of `best`: the stored parts follow. */
  lemma FinalKeepsParts(w: L.World, known: set<Hash>, db: L.LightDb, known': set<Hash>, tx: L.LightDb, h: Hash,
                        best: Hash)
    requires Inv(w, known, db) && Child(w.tree, db.meta.finalized, h)
    requires best in w.tree.headers && IsAncestor(w.tree, h, best)
    requires forall x :: x in known' ==> x in w.tree.headers
    requires IndexOk(w, tx.index, best, db.meta.finalizedNumber)
    requires HeadersOk(w, known', tx.headers, db.meta.finalized) && tx.chts == db.chts
    ensures var r := L.NoteFinalized(w, db, tx, h);
      r.Ok? ==>
        && IndexOk(w, r.value.index, best, Number(w.tree, h))
        && HeadersOk(w, known', r.value.headers, h)
        && ChtsOk(w, r.value.chts, h)
  {
    var r := L.NoteFinalized(w, db, tx, h);
    if r.Ok? {
      var due, gone := NoteFinalShape(w, known, db, tx, h);
      ChtsKept(w, db.chts, db.meta.finalized, h, r.value.chts);
      IndexKept(w, tx.index, best, db.meta.finalized, h, due);
      HeadersKept(w, known', tx.headers, db.meta.finalized, h, due, gone);
    }
  }

  /** A finalization that succeeds drops the numbers that become pruned with their blocks, and adds the root
  that is due. */
  lemma NoteFinalShape(w: L.World, known: set<Hash>, db: L.LightDb, tx: L.LightDb, h: Hash) returns (due: set<nat>,
                       gone: set<Hash>)
    requires Inv(w, known, db) && Child(w.tree, db.meta.finalized, h) && L.NoteFinalized(w, db, tx, h).Ok?
    ensures var r := L.NoteFinalized(w, db, tx, h).value;
      && r.index == tx.index - due && r.headers == tx.headers - gone
      && RootAdded(w, h, tx.chts, r.chts)
    ensures BecomesPruned(w, db.meta.finalized, h, due)
    ensures forall x :: x in gone <==> x in w.tree.headers && Number(w.tree, x) in due && IsAncestor(w.tree, x, h)
  {
    var c := IsBuildRequired(w.size, Number(w.tree, h));
    due, gone := {}, {};
    if c.Some? {
      ChtIsCanonical(w, known, db, h, c.value);
      DueIsRange(w, known, db, h, c.value);
      due := L.Due(w.size, db, c.value);
      gone := L.BlocksAt(db, due);
    } else {
      BuildInOrder(w.size, Number(w.tree, h));
    }
  }

  ghost predicate RootAdded(w: L.World, h: Hash, chts: map<nat, Root>, next: map<nat, Root>)
    requires h in w.tree.headers
  {
    var c := IsBuildRequired(w.size, Number(w.tree, h));
    if c.None? then next == chts
    else
      var root := RootOf(w.size, c.value, CanonHashes(w, h, c.value));
      root.Ok? && next == chts[StartNumber(w.size, c.value) := root.value]
  }

  /** `due` are the numbers that become pruned. */
  ghost predicate BecomesPruned(w: L.World, f: Hash, h: Hash, due: set<nat>)
    requires f in w.tree.headers && h in w.tree.headers
  {
    forall n: nat :: n in due <==> IsPruned(w, Number(w.tree, h), n) && !IsPruned(w, Number(w.tree, f), n)
  }

  lemma IndexKept(w: L.World, index: map<nat, Hash>, best: Hash, f: Hash, h: Hash, due: set<nat>)
    requires Child(w.tree, f, h) && best in w.tree.headers && BecomesPruned(w, f, h, due)
    requires IndexOk(w, index, best, Number(w.tree, f))
    ensures IndexOk(w, index - due, best, Number(w.tree, h))
  {
    BuildInOrder(w.size, Number(w.tree, h));
    forall n: nat
      ensures IsPruned(w, Number(w.tree, h), n) <==> n in due || IsPruned(w, Number(w.tree, f), n)
    {
      ScaleMonotone(w.size, Built(w.size, Number(w.tree, f)), Built(w.size, Number(w.tree, h)));
    }
  }

  lemma HeadersKept(w: L.World, known: set<Hash>, headers: set<Hash>, f: Hash, h: Hash, due: set<nat>, gone: set<Hash>)
    requires Child(w.tree, f, h) && BecomesPruned(w, f, h, due)
    requires forall x :: x in known ==> x in w.tree.headers
    requires HeadersOk(w, known, headers, f)
    requires forall x :: x in gone <==> x in w.tree.headers && Number(w.tree, x) in due && IsAncestor(w.tree, x, h)
    ensures HeadersOk(w, known, headers - gone, h)
  {
    BuildInOrder(w.size, Number(w.tree, h));
    PrunedBelowFinal(w, Number(w.tree, f));
    forall x | x in known
      ensures IsPruned(w, Number(w.tree, h), Number(w.tree, x)) <==>
        Number(w.tree, x) in due || IsPruned(w, Number(w.tree, f), Number(w.tree, x))
      ensures IsPruned(w, Number(w.tree, f), Number(w.tree, x)) ==>
        (IsAncestor(w.tree, x, f) <==> IsAncestor(w.tree, x, h))
    {
      ScaleMonotone(w.size, Built(w.size, Number(w.tree, f)), Built(w.size, Number(w.tree, h)));
      if IsPruned(w, Number(w.tree, f), Number(w.tree, x)) { ChildAncestors(w.tree, f, h, Number(w.tree, x)); }
    }
  }
}
