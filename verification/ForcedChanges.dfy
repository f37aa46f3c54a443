/** Forced authority changes: at most one per fork, applied when the best block reaches the effective
number; and the limit that scheduled changes put on votes. */
module ForcedChanges {
  import opened BlockTree
  import opened ChainHead

  /** `median` is the last finalized number signalled with the change. */
  datatype Change = Change(authorities: nat, delay: nat, height: nat, hash: Hash, median: nat) {
    function Effective(): nat { height + delay }
  }

  // ---------------------------------------------------------------- ancestry

  /** `is_descendent_of`: whether `hash` lies strictly above `base`, through the lowest common
  ancestor. `current`, a block not stored yet, is replaced by its parent. */
  function IsDescendentOf(t: Tree, current: Option<(Hash, Hash)>, base: Hash, hash: Hash): bool
    requires base in t.headers && hash in t.headers
    requires current.Some? ==> current.value.1 in t.headers
  {
    if base == hash then false
    else if current.Some? && base == current.value.0 then false
    else if current.Some? && hash == current.value.0 then
      base == current.value.1 || Lca(t, current.value.1, base) == base
    else Lca(t, hash, base) == base
  }

  predicate StrictlyAbove(t: Tree, base: Hash, hash: Hash)
    requires base in t.headers && hash in t.headers
  {
    base != hash && IsAncestor(t, base, hash)
  }

  lemma LcaIsBaseIff(t: Tree, base: Hash, hash: Hash)
    requires base in t.headers && hash in t.headers
    ensures Lca(t, hash, base) == base <==> IsAncestor(t, base, hash)
  {
    LcaIsLowest(t, hash, base);
    assert IsAncestor(t, base, base);
    if IsAncestor(t, base, hash) {
      LowestCommonAncestorUnique(t, base, Lca(t, hash, base), hash, base);
    }
  }

  /** The answer is strict descent, and while a block is being imported it is that of the tree with
  the block already in it. */
  lemma DescendentIsStrictlyAbove(t: Tree, known: set<Hash>, current: Option<(Hash, Hash)>, base: Hash, hash: Hash)
    requires Closed(t, known) && base in t.headers && hash in t.headers
    requires current.Some? ==>
      var (c, p) := current.value;
      c in t.headers && c != t.genesis && c !in known && p == Parent(t, c) && p in known
    requires base in known || (current.Some? && base == current.value.0)
    requires hash in known || (current.Some? && hash == current.value.0)
    ensures IsDescendentOf(t, current, base, hash) <==> StrictlyAbove(t, base, hash)
  {
    LcaIsBaseIff(t, base, hash);
    if current.Some? {
      var (c, p) := current.value;
      LcaIsBaseIff(t, base, p);
      if base == c && hash in known { FreshHasNoDescendants(t, known, c, hash); }
      if hash == c && base != c { assert IsAncestor(t, base, c) <==> IsAncestor(t, base, p); }
    }
  }

  // ---------------------------------------------------------------- the pending list

  predicate KeyBefore(a: Change, b: Change) {
    a.Effective() < b.Effective() || (a.Effective() == b.Effective() && a.height <= b.height)
  }

  ghost predicate Sorted(list: seq<Change>) {
    forall i, j :: 0 <= i < j < |list| ==> KeyBefore(list[i], list[j])
  }

  ghost predicate InTree(t: Tree, list: seq<Change>) {
    forall i :: 0 <= i < |list| ==> list[i].hash in t.headers && list[i].height == Number(t, list[i].hash)
  }

  /** No two pending changes lie on one chain. */
  ghost predicate OnePerFork(t: Tree, list: seq<Change>)
    requires InTree(t, list)
  {
    forall i, j :: 0 <= i < |list| && 0 <= j < |list| && i != j ==> !IsAncestor(t, list[i].hash, list[j].hash)
  }

  /** The change is refused: a pending one was signalled in the same block or in an ancestor. */
  ghost predicate Refused(t: Tree, list: seq<Change>, c: Change)
    requires c.hash in t.headers
  {
    exists i :: 0 <= i < |list| && list[i].hash in t.headers && IsAncestor(t, list[i].hash, c.hash)
  }

  /** Where a search for the key may tell to insert: any place that keeps the order. */
  ghost predicate InsertsAt(list: seq<Change>, c: Change, idx: nat) {
    && idx <= |list|
    && (forall j :: 0 <= j < idx ==> KeyBefore(list[j], c))
    && (forall j :: idx <= j < |list| ==> KeyBefore(c, list[j]))
  }

  function Spliced(list: seq<Change>, c: Change, idx: nat): seq<Change>
    requires idx <= |list|
  {
    list[..idx] + [c] + list[idx..]
  }

  lemma InsertKeepsOrder(list: seq<Change>, c: Change, idx: nat)
    requires Sorted(list) && InsertsAt(list, c, idx)
    ensures Sorted(Spliced(list, c, idx))
  {
    var r := Spliced(list, c, idx);
    assert forall k :: 0 <= k < |r| ==> r[k] == if k < idx then list[k] else if k == idx then c else list[k - 1];
  }

  /** After a change is accepted there is still one per fork, if and only if it was not signalled
  below a pending one. The code relies on signals coming in the order of the chain for this. */
  lemma AcceptKeepsOnePerForkIff(t: Tree, list: seq<Change>, c: Change, idx: nat)
    requires InTree(t, list) && OnePerFork(t, list) && idx <= |list|
    requires c.hash in t.headers && c.height == Number(t, c.hash) && !Refused(t, list, c)
    ensures InTree(t, Spliced(list, c, idx))
    ensures OnePerFork(t, Spliced(list, c, idx)) <==>
      forall i :: 0 <= i < |list| ==> !IsAncestor(t, c.hash, list[i].hash)
  {
    var r := Spliced(list, c, idx);
    assert forall k :: 0 <= k < |r| ==> r[k] == if k < idx then list[k] else if k == idx then c else list[k - 1];
    if OnePerFork(t, r) {
      forall i | 0 <= i < |list|
        ensures !IsAncestor(t, c.hash, list[i].hash)
      {
        var k := if i < idx then i else i + 1;
        assert r[idx] == c && r[k] == list[i];
      }
    }
  }

  // ---------------------------------------------------------------- applying

  /** The change takes effect at this best block. */
  predicate AppliesAt(t: Tree, c: Change, best: Hash)
    requires best in t.headers
  {
    c.hash in t.headers && c.Effective() == Number(t, best) && StrictlyAbove(t, c.hash, best)
  }

  /** With one change per fork, at most one of them applies at any best block. */
  lemma AtMostOneApplies(t: Tree, list: seq<Change>, best: Hash, i: nat, j: nat)
    requires InTree(t, list) && OnePerFork(t, list) && best in t.headers && i < |list| && j < |list|
    requires AppliesAt(t, list[i], best) && AppliesAt(t, list[j], best)
    ensures i == j
  {
    var a, b := list[i].hash, list[j].hash;
    if Number(t, a) <= Number(t, b) {
      AncestorsOnOneChain(t, a, b, best);
    } else {
      AncestorsOnOneChain(t, b, a, best);
    }
  }

  // ---------------------------------------------------------------- the object

  datatype Authorities = Authorities(authorities: nat, setId: nat, standard: seq<Change>, forced: seq<Change>)

  /** What `is_descendent_of` needs: a closed set of stored blocks, and the block being imported. */
  ghost predicate Importing(t: Tree, known: set<Hash>, current: Option<(Hash, Hash)>) {
    && Closed(t, known)
    && (current.Some? ==>
          var (c, p) := current.value;
          c in t.headers && c != t.genesis && c !in known && p == Parent(t, c) && p in known)
  }

  ghost predicate Visible(known: set<Hash>, current: Option<(Hash, Hash)>, h: Hash) {
    h in known || (current.Some? && h == current.value.0)
  }

  ghost predicate AllVisible(known: set<Hash>, current: Option<(Hash, Hash)>, list: seq<Change>) {
    forall i :: 0 <= i < |list| ==> Visible(known, current, list[i].hash)
  }

  class AuthoritySet {
    const tree: Tree
    var authorities: nat
    var setId: nat
    /** The roots of the tree of scheduled changes. */
    var standard: seq<Change>
    var forced: seq<Change>

    ghost function View(): Authorities
      reads this
    {
      Authorities(authorities, setId, standard, forced)
    }

    constructor (tree: Tree, authorities: nat)
      ensures this.tree == tree && View() == Authorities(authorities, 0, [], [])
    {
      this.tree, this.authorities, setId, standard, forced := tree, authorities, 0, [], [];
    }

    /** `binary_search_by_key`: the place of an equal key, or where the key belongs. */
    method Search(c: Change) returns (idx: nat)
      requires Sorted(forced)
      ensures InsertsAt(forced, c, idx)
    {
      var lo, hi := 0, |forced|;
      while lo < hi
        invariant 0 <= lo <= hi <= |forced|
        invariant forall j :: 0 <= j < lo ==> KeyBefore(forced[j], c)
        invariant forall j :: hi <= j < |forced| ==> KeyBefore(c, forced[j])
      {
        var mid := (lo + hi) / 2;
        if KeyBefore(forced[mid], c) && KeyBefore(c, forced[mid]) {
          return mid;
        } else if KeyBefore(forced[mid], c) {
          lo := mid + 1;
        } else {
          hi := mid;
        }
      }
      idx := lo;
    }

    method AddForcedChange(c: Change, current: Option<(Hash, Hash)>, ghost known: set<Hash>) returns (ok: bool,
                           ghost idx: nat)
      requires Importing(tree, known, current) && InTree(tree, forced) && Sorted(forced)
      requires AllVisible(known, current, forced) && c.hash in tree.headers && Visible(known, current, c.hash)
      modifies this
      ensures ok <==> !Refused(tree, old(forced), c)
      ensures ok ==> InsertsAt(old(forced), c, idx) && View() == old(View()).(forced := Spliced(old(forced), c, idx))
      ensures !ok ==> View() == old(View())
    {
      idx := 0;
      for i := 0 to |forced|
        invariant View() == old(View())
        invariant forall j :: 0 <= j < i ==> !IsAncestor(tree, forced[j].hash, c.hash)
      {
        DescendentIsStrictlyAbove(tree, known, current, forced[i].hash, c.hash);
        if forced[i].hash == c.hash || IsDescendentOf(tree, current, forced[i].hash, c.hash) {
          assert IsAncestor(tree, forced[i].hash, c.hash);
          return false, 0;
        }
      }
      var at := Search(c);
      idx := at;
      forced := forced[..at] + [c] + forced[at..];
      ok := true;
    }

    /** Stops at the first change that is due later; still finds a change exactly when some pending
    change applies. */
    method ApplyForcedChanges(best: Hash, current: Option<(Hash, Hash)>, ghost known: set<Hash>)
      returns (r: Option<(nat, Authorities)>, ghost which: nat)
      requires Importing(tree, known, current) && InTree(tree, forced) && Sorted(forced)
      requires AllVisible(known, current, forced) && best in tree.headers && Visible(known, current, best)
      ensures r.None? <==> forall i :: 0 <= i < |forced| ==> !AppliesAt(tree, forced[i], best)
      ensures r.Some? ==> which < |forced| && AppliesAt(tree, forced[which], best)
                          && r.value.0 == forced[which].median
                          && r.value.1 == Authorities(forced[which].authorities, setId + 1, [], [])
    {
      which := 0;
      for i := 0 to |forced|
        invariant forall j :: 0 <= j < i ==> !AppliesAt(tree, forced[j], best)
      {
        if forced[i].Effective() > Number(tree, best) {
          forall j | i <= j < |forced|
            ensures !AppliesAt(tree, forced[j], best)
          {
            assert i < j ==> KeyBefore(forced[i], forced[j]);
          }
          return None, 0;
        }
        DescendentIsStrictlyAbove(tree, known, current, forced[i].hash, best);
        if forced[i].Effective() == Number(tree, best) && IsDescendentOf(tree, current, forced[i].hash, best) {
          return Some((forced[i].median, Authorities(forced[i].authorities, setId + 1, [], []))), i;
        }
      }
      r := None;
    }
  }

  // ---------------------------------------------------------------- runs

  ghost predicate SomeApplies(t: Tree, list: seq<Change>, best: Hash)
    requires best in t.headers
  {
    exists i :: 0 <= i < |list| && AppliesAt(t, list[i], best)
  }

  /** A signal carries the place the search told; a new best block, the pending change that applies. */
  datatype Step = Signal(change: Change, idx: nat) | NewBest(best: Hash, which: nat)

  ghost predicate Next(t: Tree, a: Authorities, step: Step, b: Authorities) {
    match step
    case Signal(c, idx) =>
      && c.hash in t.headers && c.height == Number(t, c.hash)
      && if Refused(t, a.forced, c) then b == a
         else InsertsAt(a.forced, c, idx) && b == a.(forced := Spliced(a.forced, c, idx))
    case NewBest(best, which) =>
      && best in t.headers
      && if !SomeApplies(t, a.forced, best) then b == a
         else which < |a.forced| && AppliesAt(t, a.forced[which], best)
              && b == Authorities(a.forced[which].authorities, a.setId + 1, [], [])
  }

  /** Signals on one branch come ancestors first. */
  ghost predicate InOrder(t: Tree, steps: seq<Step>) {
    forall i, j :: 0 <= i < j < |steps| && steps[i].Signal? && steps[j].Signal? ==>
      var a, b := steps[i].change.hash, steps[j].change.hash;
      a in t.headers && b in t.headers && (a == b || !IsAncestor(t, b, a))
  }

  ghost predicate Inv(t: Tree, a: Authorities) {
    InTree(t, a.forced) && Sorted(a.forced) && OnePerFork(t, a.forced)
  }

  ghost predicate Signalled(steps: seq<Step>, n: nat, c: Change)
    requires n <= |steps|
  {
    exists k :: 0 <= k < n && steps[k].Signal? && steps[k].change == c
  }

  /** Every pending change was signalled by one of the first `n` steps. */
  ghost predicate FromSignals(steps: seq<Step>, n: nat, list: seq<Change>)
    requires n <= |steps|
  {
    forall i :: 0 <= i < |list| ==> Signalled(steps, n, list[i])
  }

  ghost predicate IsRun(t: Tree, trace: seq<Authorities>, steps: seq<Step>) {
    && |trace| == |steps| + 1 && trace[0].forced == []
    && forall i {:trigger steps[i]} :: 0 <= i < |steps| ==> Next(t, trace[i], steps[i], trace[i + 1])
  }

  lemma SignalKeepsInv(t: Tree, a: Authorities, step: Step, b: Authorities)
    requires Inv(t, a) && step.Signal? && Next(t, a, step, b)
    requires forall i :: 0 <= i < |a.forced| ==>
      a.forced[i].hash == step.change.hash || !IsAncestor(t, step.change.hash, a.forced[i].hash)
    ensures Inv(t, b)
  {
    if !Refused(t, a.forced, step.change) {
      forall i | 0 <= i < |a.forced|
        ensures !IsAncestor(t, step.change.hash, a.forced[i].hash)
      {
        assert !IsAncestor(t, a.forced[i].hash, step.change.hash);
      }
      InsertKeepsOrder(a.forced, step.change, step.idx);
      AcceptKeepsOnePerForkIff(t, a.forced, step.change, step.idx);
    }
  }

  lemma SignalsKept(t: Tree, steps: seq<Step>, n: nat, a: Authorities, b: Authorities)
    requires n < |steps| && FromSignals(steps, n, a.forced) && Next(t, a, steps[n], b)
    ensures FromSignals(steps, n + 1, b.forced)
  {
    forall i | 0 <= i < |b.forced|
      ensures Signalled(steps, n + 1, b.forced[i])
    {
      if b.forced[i] in a.forced {
        var j :| 0 <= j < |a.forced| && a.forced[j] == b.forced[i];
        assert Signalled(steps, n, a.forced[j]);
        var k :| 0 <= k < n && steps[k].Signal? && steps[k].change == a.forced[j];
      } else {
        assert steps[n].Signal? && steps[n].change == b.forced[i];
      }
    }
  }

  lemma {:induction false} RunKeepsInv(t: Tree, trace: seq<Authorities>, steps: seq<Step>, n: nat)
    requires IsRun(t, trace, steps) && InOrder(t, steps) && n <= |steps|
    ensures Inv(t, trace[n]) && FromSignals(steps, n, trace[n].forced)
  {
    if n > 0 {
      RunKeepsInv(t, trace, steps, n - 1);
      var a, step, b := trace[n - 1], steps[n - 1], trace[n];
      SignalsKept(t, steps, n - 1, a, b);
      if step.Signal? {
        forall i | 0 <= i < |a.forced|
          ensures a.forced[i].hash == step.change.hash || !IsAncestor(t, step.change.hash, a.forced[i].hash)
        {
          assert Signalled(steps, n - 1, a.forced[i]);
          var k :| 0 <= k < n - 1 && steps[k].Signal? && steps[k].change == a.forced[i];
        }
        SignalKeepsInv(t, a, step, b);
      }
    }
  }

  /** How many of the first `n` steps are best blocks at which a pending change applies. */
  ghost function Applied(t: Tree, trace: seq<Authorities>, steps: seq<Step>, n: nat): nat
    requires n <= |steps| <= |trace|
  {
    if n == 0 then 0
    else
      var step := steps[n - 1];
      Applied(t, trace, steps, n - 1)
      + if step.NewBest? && step.best in t.headers && SomeApplies(t, trace[n - 1].forced, step.best) then 1 else 0
  }

  lemma {:induction false} SetIdCountsApplied(t: Tree, trace: seq<Authorities>, steps: seq<Step>, n: nat)
    requires IsRun(t, trace, steps) && n <= |steps|
    ensures trace[n].setId == trace[0].setId + Applied(t, trace, steps, n)
  {
    if n > 0 {
      SetIdCountsApplied(t, trace, steps, n - 1);
      var step := steps[n - 1];
      assert Next(t, trace[n - 1], step, trace[n]);
    }
  }

  /** Over any run with signals in order: the list stays sorted with one change per fork, a best block
  determines the change it applies, and the set id counts exactly the changes applied. */
  lemma ForcedChangesAreUnique(t: Tree, trace: seq<Authorities>, steps: seq<Step>, n: nat, i: nat, j: nat, best: Hash)
    requires IsRun(t, trace, steps) && InOrder(t, steps) && n <= |steps| && best in t.headers
    ensures Inv(t, trace[n])
    ensures i < |trace[n].forced| && j < |trace[n].forced| ==>
      (AppliesAt(t, trace[n].forced[i], best) && AppliesAt(t, trace[n].forced[j], best) ==> i == j)
    ensures trace[n].setId == trace[0].setId + Applied(t, trace, steps, n)
  {
    RunKeepsInv(t, trace, steps, n);
    SetIdCountsApplied(t, trace, steps, n);
    var list := trace[n].forced;
    if i < |list| && j < |list| && AppliesAt(t, list[i], best) && AppliesAt(t, list[j], best) {
      AtMostOneApplies(t, list, best, i, j);
    }
  }

  const CHAIN := RawTree(Hash(1), map[
    Hash(1) := Header(DEFAULT_HASH, 0), Hash(2) := Header(Hash(1), 1),
    Hash(3) := Header(Hash(2), 2), Hash(4) := Header(Hash(3), 3)])

  /** Out of order the promise fails: a signal of block 2 is accepted after one of its child 3, and
  then both apply at block 4. */
  lemma LateAncestorSignal()
    ensures CHAIN.Valid()
    ensures var t: Tree := CHAIN;
      var late, early := Change(7, 2, 1, Hash(2), 0), Change(8, 1, 2, Hash(3), 0);
      && InTree(t, [early]) && OnePerFork(t, [early]) && !Refused(t, [early], late)
      && InsertsAt([early], late, 0) && Spliced([early], late, 0) == [late, early]
      && AppliesAt(t, late, Hash(4)) && AppliesAt(t, early, Hash(4))
  {
    var t: Tree := CHAIN;
    assert AncestorAt(t, Hash(3), 1) == Hash(2);
    assert AncestorAt(t, Hash(4), 2) == Hash(3);
    assert AncestorAt(t, Hash(4), 1) == AncestorAt(t, Hash(3), 1);
    var late, early := Change(7, 2, 1, Hash(2), 0), Change(8, 1, 2, Hash(3), 0);
    assert Spliced([early], late, 0) == [late, early];
  }

  // ---------------------------------------------------------------- vote targets

  /** `limit` is the earliest effective number of a scheduled change at or above `min`. */
  ghost predicate IsLimit(roots: seq<Change>, min: nat, limit: Option<nat>) {
    match limit
    case None => forall i :: 0 <= i < |roots| ==> roots[i].Effective() < min
    case Some(x) =>
      && x >= min && (exists i :: 0 <= i < |roots| && roots[i].Effective() == x)
      && forall i :: 0 <= i < |roots| ==> roots[i].Effective() < min || roots[i].Effective() >= x
  }

  method CurrentLimit(roots: seq<Change>, min: nat) returns (limit: Option<nat>)
    ensures IsLimit(roots, min, limit)
  {
    limit := None;
    for i := 0 to |roots|
      invariant IsLimit(roots[..i], min, limit)
    {
      assert roots[..i + 1] == roots[..i] + [roots[i]];
      var x := roots[i].Effective();
      assert roots[..i + 1][i].Effective() == x;
      ghost var before := limit;
      if x >= min && (limit.None? || x < limit.value) { limit := Some(x); }
      if before.Some? {
        var k :| 0 <= k < i && roots[..i][k].Effective() == before.value;
        assert roots[..i + 1][k] == roots[..i][k];
      }
    }
    assert roots[..|roots|] == roots;
  }

  /** `best_chain_containing`: the block to vote for. `finalityTarget` is the choice of the
  chain-selection rule, which is a known descendant of the base, and `rule` is any voting rule. */
  method BestChainContaining(t: Tree, known: set<Hash>, setMatches: bool, roots: seq<Change>, base: Hash,
                             finalityTarget: Option<Hash>, rule: (Hash, Hash, Hash) -> Option<(Hash, nat)>)
    returns (target: Option<(Hash, nat)>)
    requires Closed(t, known)
    requires base in known && finalityTarget.Some? ==>
      finalityTarget.value in known && IsAncestor(t, base, finalityTarget.value)
    ensures target.Some? <==> setMatches && base in known && finalityTarget.Some?
    ensures target.Some? ==>
      var best := finalityTarget.value;
      && Number(t, base) <= target.value.1 <= Number(t, best)
      && (forall i :: 0 <= i < |roots| && roots[i].Effective() >= Number(t, base) ==>
            target.value.1 <= roots[i].Effective())
      && (target.value == (AncestorAt(t, best, target.value.1), target.value.1)
          || exists limited ::
               limited in t.headers && IsAncestor(t, limited, best) && rule(base, best, limited) == target)
  {
    if !setMatches || base !in known { return None; }
    var limit := CurrentLimit(roots, Number(t, base));
    if finalityTarget.None? { return None; }
    var best := finalityTarget.value;
    var header := best;
    if limit.Some? && limit.value < Number(t, best) {
      ghost var n: nat := Number(t, best);
      while Number(t, header) != limit.value
        invariant limit.value <= n <= Number(t, best) && header == AncestorAt(t, best, n)
        decreases n
      {
        ParentStep(t, best, n);
        ClosedUnderAncestors(t, known, best, n - 1);
        header, n := Parent(t, header), n - 1;
      }
      AncestorCompose(t, best, n, n);
    }
    var restricted := rule(base, best, header);
    if restricted.Some? && Number(t, base) <= restricted.value.1 < Number(t, header) {
      target := restricted;
    } else {
      target := Some((header, Number(t, header)));
    }
  }
}
