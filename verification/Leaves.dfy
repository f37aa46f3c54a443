/** The set of leaf blocks: rows of hashes by height in memory, a row per leaf in the database, and
the changes not yet written. */
module LeafSet {
  import opened BlockTree

  datatype Leaf = Leaf(hash: Hash, number: nat)

  type Rows = map<nat, seq<Hash>>

  datatype Leaves = Leaves(storage: Rows, added: seq<Leaf>, removed: seq<Hash>)

  const NO_LEAVES := Leaves(map[], [], [])

  // ---------------------------------------------------------------- rows

  predicate Has(rows: Rows, n: nat, h: Hash) { n in rows && h in rows[n] }

  function Row(rows: Rows, n: nat): seq<Hash> { if n in rows then rows[n] else [] }

  function WithLeaf(rows: Rows, n: nat, h: Hash): Rows { rows[n := Row(rows, n) + [h]] }

  function Retained(row: seq<Hash>, h: Hash): (r: seq<Hash>)
    ensures forall x :: x in r <==> x in row && x != h
    ensures |r| <= |row|
  {
    if row == [] then []
    else Retained(row[..|row| - 1], h) + if row[|row| - 1] == h then [] else [row[|row| - 1]]
  }

  function WithoutLeaf(rows: Rows, n: nat, h: Hash): Rows {
    if !Has(rows, n, h) then rows
    else if Retained(rows[n], h) == [] then rows - {n}
    else rows[n := Retained(rows[n], h)]
  }

  function From(rows: Rows, n: nat): Rows { map k | k in rows && k >= n :: rows[k] }

  function Below(rows: Rows, n: nat): Rows { map k | k in rows && k < n :: rows[k] }

  /** All the hashes below height `n`, highest row first. */
  function Flattened(rows: Rows, n: nat): seq<Hash> {
    if n == 0 then [] else Row(rows, n - 1) + Flattened(rows, n - 1)
  }

  lemma {:induction false} FlattenedHas(rows: Rows, n: nat, h: Hash)
    ensures h in Flattened(rows, n) <==> exists k :: 0 <= k < n && Has(rows, k, h)
  {
    if n > 0 {
      FlattenedHas(rows, n - 1, h);
      assert h in Row(rows, n - 1) ==> Has(rows, n - 1, h);
    }
  }

  // ---------------------------------------------------------------- operations

  function ImportLeaf(s: Leaves, h: Hash, n: nat, parent: Hash): Leaves {
    var displaces := n != 0 && Has(s.storage, n - 1, parent);
    var rest := if displaces then WithoutLeaf(s.storage, n - 1, parent) else s.storage;
    Leaves(WithLeaf(rest, n, h), s.added + [Leaf(h, n)], if displaces then s.removed + [parent] else s.removed)
  }

  function FinalizeHeight(s: Leaves, n: nat): Leaves {
    Leaves(From(s.storage, n), s.added, s.removed + Flattened(s.storage, n))
  }

  function Put(db: map<Hash, nat>, added: seq<Leaf>): map<Hash, nat> {
    if added == [] then db
    else Put(db, added[..|added| - 1])[added[|added| - 1].hash := added[|added| - 1].number]
  }

  /** `prepare_transaction`: first write every added leaf, then delete every removed one. */
  function Written(db: map<Hash, nat>, s: Leaves): map<Hash, nat> {
    Put(db, s.added) - (set h | h in s.removed)
  }

  /** `read_from_db`: group the stored leaves by their numbers. */
  function Grouped(rows: seq<Leaf>): Rows {
    if rows == [] then map[]
    else WithLeaf(Grouped(rows[..|rows| - 1]), rows[|rows| - 1].number, rows[|rows| - 1].hash)
  }

  // ---------------------------------------------------------------- the object

  class LeafSet {
    var storage: Rows
    var pendingAdded: seq<Leaf>
    var pendingRemoved: seq<Hash>

    ghost function View(): Leaves
      reads this
    {
      Leaves(storage, pendingAdded, pendingRemoved)
    }

    constructor ()
      ensures View() == NO_LEAVES
    {
      storage, pendingAdded, pendingRemoved := map[], [], [];
    }

    constructor ReadFromDb(rows: seq<Leaf>)
      ensures View() == Leaves(Grouped(rows), [], [])
    {
      storage, pendingAdded, pendingRemoved := map[], [], [];
      new;
      for i := 0 to |rows|
        invariant View() == Leaves(Grouped(rows[..i]), [], [])
      {
        InsertLeaf(rows[i].number, rows[i].hash);
        assert rows[..i + 1][..i] == rows[..i];
      }
      assert rows[..|rows|] == rows;
    }

    method InsertLeaf(n: nat, h: Hash)
      modifies this
      ensures View() == old(View()).(storage := WithLeaf(old(storage), n, h))
    {
      storage := storage[n := (if n in storage then storage[n] else []) + [h]];
    }

    method RemoveLeaf(n: nat, h: Hash) returns (removed: bool)
      modifies this
      ensures removed == Has(old(storage), n, h)
      ensures View() == old(View()).(storage := WithoutLeaf(old(storage), n, h))
    {
      removed := false;
      if n in storage {
        var row, kept := storage[n], [];
        for i := 0 to |row|
          invariant kept == Retained(row[..i], h) && removed == (h in row[..i])
        {
          assert row[..i + 1][..i] == row[..i];
          if row[i] == h { removed := true; } else { kept := kept + [row[i]]; }
        }
        assert row[..|row|] == row;
        if removed && kept == [] {
          storage := storage - {n};
        } else if removed {
          storage := storage[n := kept];
        }
      }
    }

    method Import(h: Hash, n: nat, parent: Hash) returns (displaced: Option<Leaf>)
      modifies this
      ensures View() == ImportLeaf(old(View()), h, n, parent)
      ensures displaced == if n != 0 && Has(old(storage), n - 1, parent) then Some(Leaf(parent, n - 1)) else None
    {
      displaced := None;
      if n != 0 {
        var was := RemoveLeaf(n - 1, parent);
        if was {
          pendingRemoved := pendingRemoved + [parent];
          displaced := Some(Leaf(parent, n - 1));
        }
      }
      InsertLeaf(n, h);
      pendingAdded := pendingAdded + [Leaf(h, n)];
    }

    method Finalize(n: nat) returns (displaced: Rows)
      modifies this
      ensures View() == FinalizeHeight(old(View()), n) && displaced == Below(old(storage), n)
    {
      if n == 0 {
        displaced := map[];
        assert From(storage, 0) == storage;
        return;
      }
      displaced := Below(storage, n);
      var hashes, k := [], 0;
      while k < n
        invariant k <= n && hashes == Flattened(storage, k)
      {
        hashes := (if k in displaced then displaced[k] else []) + hashes;
        k := k + 1;
      }
      storage := From(storage, n);
      pendingRemoved := pendingRemoved + hashes;
    }

    method PrepareTransaction(db: map<Hash, nat>) returns (tx: map<Hash, nat>)
      modifies this
      ensures tx == Written(db, old(View())) && View() == Leaves(old(storage), [], [])
    {
      tx := db;
      for i := 0 to |pendingAdded|
        invariant View() == old(View()) && tx == Put(db, pendingAdded[..i])
      {
        tx := tx[pendingAdded[i].hash := pendingAdded[i].number];
        assert pendingAdded[..i + 1][..i] == pendingAdded[..i];
      }
      assert pendingAdded[..|pendingAdded|] == pendingAdded;
      for i := 0 to |pendingRemoved|
        invariant View() == old(View()) && tx == Put(db, pendingAdded) - (set h | h in pendingRemoved[..i])
      {
        tx := tx - {pendingRemoved[i]};
        assert pendingRemoved[..i + 1] == pendingRemoved[..i] + [pendingRemoved[i]];
      }
      assert pendingRemoved[..|pendingRemoved|] == pendingRemoved;
      pendingAdded, pendingRemoved := [], [];
    }

    /** `undo_finalization` followed by the end of the undo, which forgets what was pending. */
    method UndoFinalization(displaced: Rows)
      modifies this
      ensures View() == Leaves(old(storage) + displaced, [], [])
    {
      storage := storage + displaced;
      pendingAdded, pendingRemoved := [], [];
    }
  }
}
