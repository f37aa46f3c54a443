/** What the leaf set means after any run, and that the database and undoing agree with it. */
module LeafRuns {
  import opened BlockTree
  import opened LeafSet

  datatype Event = Import(hash: Hash) | Finalize(number: nat) | Flush

  /** Every hash is imported once, before its children. */
  ghost predicate Orderly(t: Tree, events: seq<Event>) {
    && (forall i :: 0 <= i < |events| && events[i].Import? ==> events[i].hash in t.headers)
    && (forall i, j :: 0 <= i < j < |events| && events[i].Import? && events[j].Import? ==>
          events[i].hash != events[j].hash && Parent(t, events[i].hash) != events[j].hash)
  }

  // ---------------------------------------------------------------- reference definition

  /** The event takes `h` off the leaf set. */
  predicate Unseats(t: Tree, e: Event, h: Hash)
    requires h in t.headers && (e.Import? ==> e.hash in t.headers)
  {
    match e
    case Import(x) => x != t.genesis && Parent(t, x) == h
    case Finalize(n) => Number(t, h) < n
    case Flush => false
  }

  ghost predicate StandsSince(t: Tree, events: seq<Event>, h: Hash, i: nat)
    requires Orderly(t, events) && h in t.headers
  {
    && i < |events| && events[i] == Import(h)
    && forall j :: i < j < |events| ==> !Unseats(t, events[j], h)
  }

  /** `h` was imported, and since then it got no child and no greater height was finalized. */
  ghost predicate Standing(t: Tree, events: seq<Event>, h: Hash)
    requires Orderly(t, events)
  {
    h in t.headers && exists i :: StandsSince(t, events, h, i)
  }

  ghost predicate Seen(events: seq<Event>, h: Hash) {
    exists i :: 0 <= i < |events| && events[i] == Import(h)
  }

  lemma StandingStep(t: Tree, events: seq<Event>, e: Event, h: Hash)
    requires Orderly(t, events + [e]) && Orderly(t, events) && h in t.headers && (e.Import? ==> e.hash in t.headers)
    ensures Standing(t, events + [e], h) <==> e == Import(h) || (Standing(t, events, h) && !Unseats(t, e, h))
    ensures Seen(events + [e], h) <==> Seen(events, h) || e == Import(h)
  {
    var all := events + [e];
    assert all[|events|] == e;
    if e == Import(h) { assert StandsSince(t, all, h, |events|); }
    if Standing(t, events, h) && !Unseats(t, e, h) {
      var i: nat :| StandsSince(t, events, h, i);
      assert StandsSince(t, all, h, i);
    }
    if Standing(t, all, h) && e != Import(h) {
      var i: nat :| StandsSince(t, all, h, i);
      assert all[i] == events[i];
      assert !Unseats(t, all[|events|], h);
      forall j | i < j < |events|
        ensures !Unseats(t, events[j], h)
      {
        assert all[j] == events[j];
      }
      assert StandsSince(t, events, h, i);
    }
    if Seen(events, h) {
      var i :| 0 <= i < |events| && events[i] == Import(h);
      assert all[i] == Import(h);
    }
  }

  // ---------------------------------------------------------------- runs

  datatype Node = Node(leaves: Leaves, db: map<Hash, nat>)

  function Step(t: Tree, n: Node, e: Event): Node
    requires e.Import? ==> e.hash in t.headers
  {
    match e
    case Import(h) => n.(leaves := ImportLeaf(n.leaves, h, Number(t, h), Parent(t, h)))
    case Finalize(k) => n.(leaves := FinalizeHeight(n.leaves, k))
    case Flush => Node(Leaves(n.leaves.storage, [], []), Written(n.db, n.leaves))
  }

  function Run(t: Tree, events: seq<Event>): Node
    requires forall i :: 0 <= i < |events| && events[i].Import? ==> events[i].hash in t.headers
  {
    if events == [] then Node(NO_LEAVES, map[]) else Step(t, Run(t, events[..|events| - 1]), events[|events| - 1])
  }

  predicate Unique(row: seq<Hash>) {
    forall i, j :: 0 <= i < j < |row| ==> row[i] != row[j]
  }

  /** Rows are never empty and never repeat a hash. */
  ghost predicate TidyRows(rows: Rows) {
    forall n :: n in rows ==> rows[n] != [] && Unique(rows[n])
  }

  ghost predicate RowsMean(t: Tree, events: seq<Event>, rows: Rows)
    requires Orderly(t, events)
  {
    forall n, h :: Has(rows, n, h) <==> h in t.headers && Number(t, h) == n && Standing(t, events, h)
  }

  predicate Lists(added: seq<Leaf>, h: Hash) {
    exists i :: 0 <= i < |added| && added[i].hash == h
  }

  /** Everything written or waiting to be written is about imported blocks at their own heights. */
  ghost predicate Sound(t: Tree, events: seq<Event>, n: Node) {
    && (forall h :: h in n.db ==> Seen(events, h) && h in t.headers && n.db[h] == Number(t, h))
    && (forall l :: l in n.leaves.added ==>
          Seen(events, l.hash) && l.hash in t.headers && l.number == Number(t, l.hash))
    && (forall h :: h in n.leaves.removed ==> Seen(events, h))
  }

  /** The database with the pending changes is the set of leaves. */
  ghost predicate Balanced(t: Tree, n: Node) {
    forall h :: h in t.headers ==>
      (Has(n.leaves.storage, Number(t, h), h) <==> (h in n.db || Lists(n.leaves.added, h)) && h !in n.leaves.removed)
  }

  ghost predicate Inv(t: Tree, events: seq<Event>, n: Node)
    requires Orderly(t, events)
  {
    TidyRows(n.leaves.storage) && RowsMean(t, events, n.leaves.storage) && Sound(t, events, n) && Balanced(t, n)
  }

  // ---------------------------------------------------------------- each step

  lemma {:induction false} RetainedUnique(row: seq<Hash>, h: Hash)
    requires Unique(row)
    ensures Unique(Retained(row, h))
  {
    if row != [] {
      var front, last := row[..|row| - 1], row[|row| - 1];
      RetainedUnique(front, h);
      var kept := Retained(front, h);
      forall i | 0 <= i < |kept|
        ensures kept[i] != last
      {
        assert kept[i] in front;
      }
    }
  }

  lemma ImportRows(t: Tree, events: seq<Event>, rows: Rows, h: Hash)
    requires Orderly(t, events + [Import(h)]) && Orderly(t, events) && TidyRows(rows) && RowsMean(t, events, rows)
    requires h in t.headers && !Seen(events, h)
    ensures var n := Number(t, h);
      var rest := if n != 0 && Has(rows, n - 1, Parent(t, h)) then WithoutLeaf(rows, n - 1, Parent(t, h)) else rows;
      TidyRows(WithLeaf(rest, n, h)) && RowsMean(t, events + [Import(h)], WithLeaf(rest, n, h))
  {
    var n, p := Number(t, h), Parent(t, h);
    var rest := if n != 0 && Has(rows, n - 1, p) then WithoutLeaf(rows, n - 1, p) else rows;
    var out := WithLeaf(rest, n, h);
    if n != 0 && Has(rows, n - 1, p) { RetainedUnique(rows[n - 1], p); }
    assert !Standing(t, events, h);
    assert !Has(rows, n, h);
    forall k: nat, x
      ensures Has(out, k, x) <==> x in t.headers && Number(t, x) == k && Standing(t, events + [Import(h)], x)
    {
      if x in t.headers { StandingStep(t, events, Import(h), x); }
      assert Has(rows, k, x) <==> x in t.headers && Number(t, x) == k && Standing(t, events, x);
      assert Has(out, k, x) <==> (k == n && x == h) || Has(rest, k, x);
    }
  }

  /** Finalizing height `k` drops exactly the leaves below it. */
  lemma FinalizeRows(t: Tree, events: seq<Event>, rows: Rows, k: nat)
    requires Orderly(t, events + [Finalize(k)]) && Orderly(t, events) && TidyRows(rows) && RowsMean(t, events, rows)
    ensures TidyRows(From(rows, k)) && RowsMean(t, events + [Finalize(k)], From(rows, k))
  {
    forall n: nat, x
      ensures Has(From(rows, k), n, x) <==>
        x in t.headers && Number(t, x) == n && Standing(t, events + [Finalize(k)], x)
    {
      if x in t.headers { StandingStep(t, events, Finalize(k), x); }
      assert Has(rows, n, x) <==> x in t.headers && Number(t, x) == n && Standing(t, events, x);
      assert Has(From(rows, k), n, x) <==> n >= k && Has(rows, n, x);
    }
  }

  lemma FlushRows(t: Tree, events: seq<Event>, rows: Rows)
    requires Orderly(t, events + [Flush]) && Orderly(t, events) && RowsMean(t, events, rows)
    ensures RowsMean(t, events + [Flush], rows)
  {
    forall n: nat, x
      ensures Has(rows, n, x) <==> x in t.headers && Number(t, x) == n && Standing(t, events + [Flush], x)
    {
      if x in t.headers { StandingStep(t, events, Flush, x); }
    }
  }

  lemma SeenGrows(events: seq<Event>, e: Event, h: Hash)
    requires Seen(events, h) || e == Import(h)
    ensures Seen(events + [e], h)
  {
    var all := events + [e];
    assert all[|events|] == e;
    if Seen(events, h) {
      var i :| 0 <= i < |events| && events[i] == Import(h);
      assert all[i] == Import(h);
    }
  }

  lemma SoundGrows(t: Tree, events: seq<Event>, e: Event, n: Node)
    requires Sound(t, events, n)
    ensures Sound(t, events + [e], n)
  {
    forall h | Seen(events, h)
      ensures Seen(events + [e], h)
    {
      SeenGrows(events, e, h);
    }
  }

  lemma ImportSound(t: Tree, events: seq<Event>, n: Node, h: Hash)
    requires Orderly(t, events) && Inv(t, events, n) && h in t.headers
    ensures Sound(t, events + [Import(h)], Step(t, n, Import(h)))
  {
    var next, k, p := Step(t, n, Import(h)), Number(t, h), Parent(t, h);
    SoundGrows(t, events, Import(h), n);
    SeenGrows(events, Import(h), h);
    if k != 0 && Has(n.leaves.storage, k - 1, p) {
      StandingIsSeen(t, events, p);
      SeenGrows(events, Import(h), p);
    }
    assert next.leaves.added == n.leaves.added + [Leaf(h, k)];
  }

  lemma StandingIsSeen(t: Tree, events: seq<Event>, h: Hash)
    requires Orderly(t, events) && Standing(t, events, h)
    ensures Seen(events, h)
  {
    var i: nat :| StandsSince(t, events, h, i);
  }

  lemma ImportBalancedAt(t: Tree, n: Node, h: Hash, x: Hash)
    requires Balanced(t, n) && h in t.headers && h !in n.leaves.removed && x in t.headers
    ensures var next := Step(t, n, Import(h));
      Has(next.leaves.storage, Number(t, x), x) <==>
        (x in next.db || Lists(next.leaves.added, x)) && x !in next.leaves.removed
  {
    var k, p := Number(t, h), Parent(t, h);
    ListsStep(n.leaves.added, Leaf(h, k), x);
    ImportHas(n.leaves.storage, k, h, p, Number(t, x), x);
    if x == p && k != 0 { assert Number(t, x) == k - 1; }
  }

  lemma ImportBalanced(t: Tree, events: seq<Event>, n: Node, h: Hash)
    requires Orderly(t, events) && Inv(t, events, n) && h in t.headers && !Seen(events, h)
    ensures Balanced(t, Step(t, n, Import(h)))
  {
    var next := Step(t, n, Import(h));
    forall x | x in t.headers
      ensures Has(next.leaves.storage, Number(t, x), x) <==>
        (x in next.db || Lists(next.leaves.added, x)) && x !in next.leaves.removed
    {
      ImportBalancedAt(t, n, h, x);
    }
  }

  lemma ListsStep(added: seq<Leaf>, l: Leaf, x: Hash)
    ensures Lists(added + [l], x) <==> Lists(added, x) || l.hash == x
  {
    var all := added + [l];
    assert all[|added|] == l;
    if Lists(added, x) {
      var i :| 0 <= i < |added| && added[i].hash == x;
      assert all[i].hash == x;
    }
  }

  lemma ImportHas(rows: Rows, k: nat, h: Hash, p: Hash, n: nat, x: Hash)
    ensures var rest := if k != 0 && Has(rows, k - 1, p) then WithoutLeaf(rows, k - 1, p) else rows;
      Has(WithLeaf(rest, k, h), n, x) <==>
        (n == k && x == h) || (Has(rows, n, x) && !(k != 0 && n == k - 1 && x == p))
  {
  }

  lemma FinalizePending(t: Tree, events: seq<Event>, n: Node, k: nat)
    requires Orderly(t, events) && Inv(t, events, n)
    ensures var next := Step(t, n, Finalize(k)); Sound(t, events + [Finalize(k)], next) && Balanced(t, next)
  {
    var rows := n.leaves.storage;
    SoundGrows(t, events, Finalize(k), n);
    forall h
      ensures h in Flattened(rows, k) <==> h in t.headers && Number(t, h) < k && Has(rows, Number(t, h), h)
      ensures h in Flattened(rows, k) ==> Seen(events + [Finalize(k)], h)
    {
      FlattenedHas(rows, k, h);
      if h in Flattened(rows, k) {
        var m :| 0 <= m < k && Has(rows, m, h);
        assert Standing(t, events, h);
        StandingIsSeen(t, events, h);
        SeenGrows(events, Finalize(k), h);
      }
    }
    forall h | h in t.headers
      ensures Has(From(rows, k), Number(t, h), h) <==> Number(t, h) >= k && Has(rows, Number(t, h), h)
    {
    }
  }

  lemma {:induction false} PutIs(db: map<Hash, nat>, added: seq<Leaf>, h: Hash)
    ensures h in Put(db, added) <==> h in db || Lists(added, h)
    ensures var r := Put(db, added);
      h in r ==> (h in db && r[h] == db[h]) || (exists l :: l in added && l.hash == h && r[h] == l.number)
  {
    if added != [] {
      var front, last := added[..|added| - 1], added[|added| - 1];
      PutIs(db, front, h);
      ListsStep(front, last, h);
      assert front + [last] == added;
      assert last in added;
    }
  }

  /** After writing, the database holds exactly the leaves, each with its number. */
  lemma FlushPending(t: Tree, events: seq<Event>, n: Node)
    requires Orderly(t, events) && Inv(t, events, n)
    ensures var next := Step(t, n, Flush); Sound(t, events + [Flush], next) && Balanced(t, next)
  {
    var next := Step(t, n, Flush);
    SoundGrows(t, events, Flush, n);
    forall h
      ensures h in next.db <==> (h in n.db || Lists(n.leaves.added, h)) && h !in n.leaves.removed
      ensures h in next.db ==> Seen(events + [Flush], h) && h in t.headers && next.db[h] == Number(t, h)
    {
      PutIs(n.db, n.leaves.added, h);
      if h in next.db && h !in n.db {
        var l :| l in n.leaves.added && l.hash == h && next.db[h] == l.number;
      }
    }
  }

  lemma StepKeepsInv(t: Tree, events: seq<Event>, n: Node, e: Event)
    requires Orderly(t, events + [e]) && Orderly(t, events) && Inv(t, events, n)
    requires e.Import? ==> e.hash in t.headers && !Seen(events, e.hash)
    ensures Inv(t, events + [e], Step(t, n, e))
  {
    match e
    case Import(h) =>
      ImportRows(t, events, n.leaves.storage, h);
      ImportSound(t, events, n, h);
      ImportBalanced(t, events, n, h);
    case Finalize(k) =>
      FinalizeRows(t, events, n.leaves.storage, k);
      FinalizePending(t, events, n, k);
    case Flush =>
      FlushRows(t, events, n.leaves.storage);
      FlushPending(t, events, n);
  }

  lemma {:induction false} RunKeepsInv(t: Tree, events: seq<Event>)
    requires Orderly(t, events)
    ensures Inv(t, events, Run(t, events))
  {
    if events == [] {
    } else {
      var front, last := events[..|events| - 1], events[|events| - 1];
      RunKeepsInv(t, front);
      assert front + [last] == events;
      StepKeepsInv(t, front, Run(t, front), last);
    }
  }

  // ---------------------------------------------------------------- main results

  /** After any run, the rows hold exactly the imported blocks without a later child or a later
  finalization above them, each once, under its own height. */
  lemma LeavesAreChildless(t: Tree, events: seq<Event>, n: nat, h: Hash)
    requires Orderly(t, events)
    ensures var rows := Run(t, events).leaves.storage;
      && (Has(rows, n, h) <==> h in t.headers && Number(t, h) == n && Standing(t, events, h))
      && (n in rows ==> rows[n] != [] && Unique(rows[n]))
  {
    RunKeepsInv(t, events);
  }

  /** A listing of the database, in any order. */
  ghost predicate Enumerates(rows: seq<Leaf>, db: map<Hash, nat>) {
    && (forall l :: l in rows ==> l.hash in db && db[l.hash] == l.number)
    && (forall h :: h in db ==> Leaf(h, db[h]) in rows)
  }

  lemma {:induction false} GroupedHas(rows: seq<Leaf>, n: nat, h: Hash)
    ensures Has(Grouped(rows), n, h) <==> Leaf(h, n) in rows
    ensures n in Grouped(rows) ==> Grouped(rows)[n] != []
  {
    if rows != [] {
      var front, last := rows[..|rows| - 1], rows[|rows| - 1];
      GroupedHas(front, n, h);
      assert rows == front + [last];
    }
  }

  /** Restarting after a flush rebuilds the same rows, up to the order within a row. */
  lemma RestartRestoresLeaves(t: Tree, events: seq<Event>, rows: seq<Leaf>, n: nat)
    requires Orderly(t, events) && events != [] && events[|events| - 1] == Flush
    requires Enumerates(rows, Run(t, events).db)
    ensures var memory := Run(t, events).leaves.storage;
      && (n in Grouped(rows) <==> n in memory)
      && forall h :: Has(Grouped(rows), n, h) <==> Has(memory, n, h)
  {
    RunKeepsInv(t, events);
    var node := Run(t, events);
    var memory := node.leaves.storage;
    forall h
      ensures Has(Grouped(rows), n, h) <==> Has(memory, n, h)
    {
      GroupedHas(rows, n, h);
      if Has(memory, n, h) { assert h in node.db && Leaf(h, node.db[h]) in rows; }
    }
    if n in memory { assert Has(memory, n, memory[n][0]); }
    if n in Grouped(rows) {
      GroupedHas(rows, n, DEFAULT_HASH);
      assert Has(Grouped(rows), n, Grouped(rows)[n][0]);
    }
  }

  // ---------------------------------------------------------------- undoing finalization

  function FinalizeAll(s: Leaves, heights: seq<nat>): Leaves {
    if heights == [] then s else FinalizeHeight(FinalizeAll(s, heights[..|heights| - 1]), heights[|heights| - 1])
  }

  /** What the `i`-th call displaces. */
  function DisplacedBy(s: Leaves, heights: seq<nat>, i: nat): Rows
    requires i < |heights|
  {
    Below(FinalizeAll(s, heights[..i]).storage, heights[i])
  }

  /** The displaced rows of all calls, merged one after the other; on equal heights the later rows win. */
  function Merged(s: Leaves, heights: seq<nat>): Rows {
    if heights == [] then map[]
    else Merged(s, heights[..|heights| - 1]) + DisplacedBy(s, heights, |heights| - 1)
  }

  /** What has been displaced and what is left never share a height, and together are what there was. */
  lemma {:induction false} MergedComplements(s: Leaves, heights: seq<nat>)
    ensures var left := FinalizeAll(s, heights).storage;
      left.Keys !! Merged(s, heights).Keys && left + Merged(s, heights) == s.storage
  {
    if heights != [] {
      var front := heights[..|heights| - 1];
      MergedComplements(s, front);
    }
  }

  /** For any finalized heights in any order, the calls displace rows at disjoint heights. */
  lemma DisplacedDisjoint(s: Leaves, heights: seq<nat>, i: nat, j: nat)
    requires i < j < |heights|
    ensures DisplacedBy(s, heights, i).Keys !! DisplacedBy(s, heights, j).Keys
  {
    LaterIsSmaller(s, heights, i + 1, j);
    assert heights[..i + 1][..i] == heights[..i];
  }

  /** So merging what any such calls displaced and undoing it restores a written leaf set completely. */
  lemma UndoRestoresLeaves(s: Leaves, heights: seq<nat>)
    requires s.added == [] && s.removed == []
    ensures Leaves(FinalizeAll(s, heights).storage + Merged(s, heights), [], []) == s
  {
    MergedComplements(s, heights);
  }

  lemma {:induction false} LaterIsSmaller(s: Leaves, heights: seq<nat>, i: nat, j: nat)
    requires i <= j <= |heights|
    ensures FinalizeAll(s, heights[..j]).storage.Keys <= FinalizeAll(s, heights[..i]).storage.Keys
  {
    if i < j {
      LaterIsSmaller(s, heights, i, j - 1);
      assert heights[..j][..j - 1] == heights[..j - 1];
    }
  }
}
