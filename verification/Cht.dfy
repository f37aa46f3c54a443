/** Canonical hash tries (CHTs): which blocks each covers, when one is built, and what it commits to. */
module Cht {
  import opened BlockTree
  import opened ChainHead

  type Size = n: nat | n > 0 witness 2048

  // ---------------------------------------------------------------- numbering

  function StartNumber(size: Size, cht: nat): nat { cht * size + 1 }

  function EndNumber(size: Size, cht: nat): nat { (cht + 1) * size }

  function BlockToCht(size: Size, block: nat): Option<nat> {
    if block == 0 then None else Some((block - 1) / size)
  }

  function IsBuildRequired(size: Size, block: nat): Option<nat> {
    match BlockToCht(size, block)
    case None => None
    case Some(c) => if c < 2 || StartNumber(size, c) != block then None else Some(c - 2)
  }

  function MaxCht(size: Size, block: nat): Option<nat> {
    match BlockToCht(size, block)
    case None => None
    case Some(c) => if c < 2 then None else Some(c - 2)
  }

  /** How many CHTs exist once `finalized` is final. */
  function Built(size: Size, finalized: nat): nat {
    var m := MaxCht(size, finalized);
    if m.Some? then m.value + 1 else 0
  }

  lemma QuotientIs(size: Size, x: nat, q: nat)
    ensures x / size == q <==> q * size <= x < (q + 1) * size
  {
    var d := x / size;
    assert d * size <= x < d * size + size;
    if q < d {
      ScaleMonotone(size, q + 1, d);
    } else if d < q {
      ScaleMonotone(size, d + 1, q);
    }
  }

  lemma ScaleMonotone(size: Size, a: nat, b: nat)
    requires a <= b
    ensures a * size <= b * size
  {
  }

  /** The ranges of the CHTs cut the blocks above genesis into pieces: each block lies in exactly one. */
  lemma RangesPartition(size: Size, block: nat, cht: nat)
    ensures StartNumber(size, cht) <= block <= EndNumber(size, cht) <==> BlockToCht(size, block) == Some(cht)
  {
    if block > 0 {
      QuotientIs(size, block - 1, cht);
    }
  }

  lemma PreviousQuotient(size: Size, x: nat)
    requires x > 0
    ensures var q := x / size; (x - 1) / size == if q * size == x then q - 1 else q
  {
    var q := x / size;
    QuotientIs(size, x, q);
    if q * size == x {
      assert (q - 1) * size == q * size - size;
      QuotientIs(size, x - 1, q - 1);
    } else {
      QuotientIs(size, x - 1, q);
    }
  }

  /** Finalizing one more block builds the next CHT in order or none, and what it covers lies more
  than a whole CHT below the finalized block. */
  lemma BuildInOrder(size: Size, block: nat)
    requires block > 0
    ensures IsBuildRequired(size, block) == Some(Built(size, block - 1)) || IsBuildRequired(size, block) == None
    ensures Built(size, block) == Built(size, block - 1) + (if IsBuildRequired(size, block).Some? then 1 else 0)
    ensures Built(size, block) > 0 ==> Built(size, block) * size + size < block
  {
    if block == 1 {
      QuotientIs(size, 0, 0);
    } else {
      PreviousQuotient(size, block - 1);
      BuiltBelow(size, block);
    }
  }

  lemma BuiltBelow(size: Size, block: nat)
    requires block > 0
    ensures Built(size, block) > 0 ==> Built(size, block) * size + size < block
  {
    var c := (block - 1) / size;
    QuotientIs(size, block - 1, c);
    assert (c - 1) * size + size == c * size;
  }

  /** A CHT is due exactly when it ends at or below the last replaced block. */
  lemma DueIffCovered(size: Size, finalized: nat, block: nat, cht: nat)
    requires BlockToCht(size, block) == Some(cht)
    ensures cht < Built(size, finalized) <==> block <= Built(size, finalized) * size
  {
    var built := Built(size, finalized);
    RangesPartition(size, block, cht);
    if cht < built {
      ScaleMonotone(size, cht + 1, built);
    } else {
      ScaleMonotone(size, built, cht);
    }
  }

  lemma RangeIsUnique(size: Size, block: nat, cht: nat)
    requires BlockToCht(size, block) == Some(cht)
    ensures forall c: nat :: StartNumber(size, c) <= block <= EndNumber(size, c) ==> c == cht
  {
    forall c: nat | StartNumber(size, c) <= block <= EndNumber(size, c)
      ensures c == cht
    {
      RangesPartition(size, block, c);
    }
  }

  // ---------------------------------------------------------------- roots

  /** A trie root, taken as standing for the pairs it commits to. */
  datatype Root = Root(pairs: seq<Entry>)

  datatype Entry = Entry(number: nat, value: Hash)

  /** The root of CHT `cht` over a list of values: it needs the first `size` of them, and pairs each
  with the number of its block. */
  function RootOf(size: Size, cht: nat, values: seq<Option<Hash>>): Result<Root> {
    if |values| < size || (exists i :: 0 <= i < size && values[i].None?) then Err(MissingHashRequiredForCht)
    else Ok(Root(seq(size, i requires 0 <= i < size => Entry(StartNumber(size, cht) + i, values[i].value))))
  }

  /** `build_pairs` with `compute_root`: fails on the first missing value or when there are too few. */
  method ComputeRoot(size: Size, cht: nat, values: seq<Option<Hash>>) returns (r: Result<Root>)
    ensures r == RootOf(size, cht, values)
  {
    var start := StartNumber(size, cht);
    var pairs := [];
    var i: nat := 0;
    while i < |values| && i < size
      invariant i <= |values| && i <= size && |pairs| == i
      invariant forall j :: 0 <= j < i ==> values[j].Some? && pairs[j] == Entry(start + j, values[j].value)
    {
      if values[i].None? { return Err(MissingHashRequiredForCht); }
      pairs := pairs + [Entry(start + i, values[i].value)];
      i := i + 1;
    }
    if i == size {
      r := Ok(Root(pairs));
      assert pairs == RootOf(size, cht, values).value.pairs;
    } else {
      r := Err(MissingHashRequiredForCht);
    }
  }

  // ---------------------------------------------------------------- grouping

  datatype Group = Group(cht: nat, blocks: seq<nat>)

  /** Reference definition: the blocks of one CHT, in the order given. */
  function Of(size: Size, blocks: seq<nat>, cht: nat): seq<nat> {
    if blocks == [] then []
    else
      var last := blocks[|blocks| - 1];
      Of(size, blocks[..|blocks| - 1], cht) + if BlockToCht(size, last) == Some(cht) then [last] else []
  }

  /** A group holds exactly the given blocks between the first and the last number of its CHT. */
  lemma {:induction false} OfIsRange(size: Size, blocks: seq<nat>, cht: nat, b: nat)
    ensures b in Of(size, blocks, cht) <==> b in blocks && StartNumber(size, cht) <= b <= EndNumber(size, cht)
  {
    if blocks != [] {
      OfIsRange(size, blocks[..|blocks| - 1], cht, b);
      RangesPartition(size, blocks[|blocks| - 1], cht);
      assert blocks == blocks[..|blocks| - 1] + [blocks[|blocks| - 1]];
    }
  }

  /** The groups joined together again. */
  function Joined(groups: seq<Group>): seq<nat> {
    if groups == [] then [] else Joined(groups[..|groups| - 1]) + groups[|groups| - 1].blocks
  }

  lemma JoinedLast(groups: seq<Group>, g: Group)
    ensures Joined(groups + [g]) == Joined(groups) + g.blocks
  {
    assert (groups + [g])[..|groups|] == groups;
  }

  predicate Ordered(blocks: seq<nat>) {
    forall i, j :: 0 <= i < j < |blocks| ==> blocks[i] <= blocks[j]
  }

  lemma QuotientMonotone(size: Size, x: nat, y: nat, p: nat, q: nat)
    requires x <= y && p == x / size && q == y / size
    ensures p <= q
  {
    QuotientIs(size, x, p);
    QuotientIs(size, y, q);
    if p > q { ScaleMonotone(size, q + 1, p); }
  }

  lemma ChtMonotone(size: Size, a: nat, b: nat)
    requires 0 < a <= b
    ensures (a - 1) / size <= (b - 1) / size
  {
    QuotientMonotone(size, a - 1, b - 1, (a - 1) / size, (b - 1) / size);
  }

  lemma {:induction false} NoneOf(size: Size, blocks: seq<nat>, cht: nat)
    requires forall b :: b in blocks ==> BlockToCht(size, b) != Some(cht)
    ensures Of(size, blocks, cht) == []
  {
    if blocks != [] {
      NoneOf(size, blocks[..|blocks| - 1], cht);
    }
  }

  ghost predicate HasGroup(size: Size, groups: seq<Group>, block: nat) {
    exists i :: 0 <= i < |groups| && BlockToCht(size, block) == Some(groups[i].cht)
  }

  predicate Increasing(groups: seq<Group>) {
    forall i, j :: 0 <= i < j < |groups| ==> groups[i].cht < groups[j].cht
  }

  ghost predicate Complete(size: Size, blocks: seq<nat>, groups: seq<Group>) {
    forall i :: 0 <= i < |groups| ==> groups[i].blocks != [] && groups[i].blocks == Of(size, blocks, groups[i].cht)
  }

  /** The groups list, in strictly increasing order, every CHT that has a block, with exactly its blocks. */
  ghost predicate Grouped(size: Size, blocks: seq<nat>, groups: seq<Group>) {
    Increasing(groups) && Complete(size, blocks, groups) && forall b :: b in blocks ==> HasGroup(size, groups, b)
  }

  /** A block of a CHT beyond the last group opens a new group. */
  lemma OpenGroup(size: Size, blocks: seq<nat>, groups: seq<Group>, b: nat, c: nat)
    requires Grouped(size, blocks, groups) && BlockToCht(size, b) == Some(c)
    requires forall i :: 0 <= i < |groups| ==> groups[i].cht < c
    ensures Grouped(size, blocks + [b], groups + [Group(c, [b])])
  {
    var all, next := blocks + [b], groups + [Group(c, [b])];
    assert all[..|blocks|] == blocks;
    forall x | x in blocks
      ensures BlockToCht(size, x) != Some(c) && HasGroup(size, next, x)
    {
      var i :| 0 <= i < |groups| && BlockToCht(size, x) == Some(groups[i].cht);
      assert next[i].cht == groups[i].cht;
    }
    NoneOf(size, blocks, c);
    assert next[|groups|].cht == c;
    assert HasGroup(size, next, b);
  }

  /** A block of the CHT of the last group extends that group. */
  lemma ExtendGroup(size: Size, blocks: seq<nat>, groups: seq<Group>, last: Group, b: nat)
    requires Grouped(size, blocks, groups + [last]) && BlockToCht(size, b) == Some(last.cht)
    ensures Grouped(size, blocks + [b], groups + [Group(last.cht, last.blocks + [b])])
  {
    var all, was, next := blocks + [b], groups + [last], groups + [Group(last.cht, last.blocks + [b])];
    assert all[..|blocks|] == blocks;
    forall i | 0 <= i < |next|
      ensures next[i].blocks != [] && next[i].blocks == Of(size, all, next[i].cht) && next[i].cht == was[i].cht
    {
      assert was[|groups|] == last;
      assert was[i].blocks == Of(size, blocks, was[i].cht);
      assert i < |groups| ==> was[i].cht < was[|groups|].cht;
    }
    forall x | x in all
      ensures HasGroup(size, next, x)
    {
      if x in blocks {
        var i :| 0 <= i < |was| && BlockToCht(size, x) == Some(was[i].cht);
        assert next[i].cht == was[i].cht;
      } else {
        assert next[|groups|].cht == last.cht;
      }
    }
  }

  predicate AboveGenesis(blocks: seq<nat>) {
    forall i :: 0 <= i < |blocks| ==> blocks[i] > 0
  }

  /** One more block extends the last group, or opens a new one. */
  function Placed(groups: seq<Group>, cht: nat, block: nat): seq<Group> {
    var n := |groups|;
    if n > 0 && groups[n - 1].cht == cht
    then groups[..n - 1] + [Group(cht, groups[n - 1].blocks + [block])]
    else groups + [Group(cht, [block])]
  }

  /** A block with the number of its CHT. */
  datatype Numbered = Numbered(cht: nat, block: nat)

  function ChtOf(size: Size, block: nat): nat {
    if block == 0 then 0 else (block - 1) / size
  }

  function NumberedBlocks(size: Size, blocks: seq<nat>): (r: seq<Numbered>)
    ensures |r| == |blocks| && forall i :: 0 <= i < |r| ==> r[i] == Numbered(ChtOf(size, blocks[i]), blocks[i])
  {
    seq(|blocks|, i requires 0 <= i < |blocks| => Numbered(ChtOf(size, blocks[i]), blocks[i]))
  }

  /** The groups of a list of numbered blocks. */
  function GroupsOf(items: seq<Numbered>): seq<Group> {
    if items == [] then []
    else Placed(GroupsOf(items[..|items| - 1]), items[|items| - 1].cht, items[|items| - 1].block)
  }

  lemma GroupsStep(items: seq<Numbered>, k: nat)
    requires k < |items|
    ensures GroupsOf(items[..k + 1]) == Placed(GroupsOf(items[..k]), items[k].cht, items[k].block)
  {
    assert items[..k + 1][..k] == items[..k];
  }

  lemma PlacedExtends(size: Size, blocks: seq<nat>, front: seq<Group>, last: Group, b: nat)
    requires Grouped(size, blocks, front + [last]) && Joined(front + [last]) == blocks
    requires BlockToCht(size, b) == Some(last.cht)
    ensures var next := front + [Group(last.cht, last.blocks + [b])];
      Grouped(size, blocks + [b], next) && Joined(next) == blocks + [b]
  {
    ExtendGroup(size, blocks, front, last, b);
    ExtendJoins(front, last.cht, last.blocks, b);
  }

  lemma PlacedOpens(size: Size, blocks: seq<nat>, groups: seq<Group>, b: nat, c: nat)
    requires Grouped(size, blocks, groups) && Joined(groups) == blocks && BlockToCht(size, b) == Some(c)
    requires groups != [] ==> groups[|groups| - 1].cht < c
    ensures var next := groups + [Group(c, [b])];
      Grouped(size, blocks + [b], next) && Joined(next) == blocks + [b]
  {
    BelowNext(groups, c);
    OpenGroup(size, blocks, groups, b, c);
    JoinedLast(groups, Group(c, [b]));
  }

  /** The groups join to the blocks, come in strictly increasing order of their CHTs, and each has exactly
  the blocks of its CHT; the last one is that of the last block. */
  ghost predicate Partitions(size: Size, blocks: seq<nat>, groups: seq<Group>) {
    && Grouped(size, blocks, groups) && Joined(groups) == blocks && (blocks == [] <==> groups == [])
    && (blocks != [] ==> BlockToCht(size, blocks[|blocks| - 1]) == Some(groups[|groups| - 1].cht))
  }

  lemma PartitionStep(size: Size, blocks: seq<nat>, groups: seq<Group>, b: nat, c: nat)
    requires Partitions(size, blocks, groups) && BlockToCht(size, b) == Some(c)
    requires groups != [] ==> groups[|groups| - 1].cht <= c
    ensures Partitions(size, blocks + [b], Placed(groups, c, b))
  {
    var n := |groups|;
    if n > 0 && groups[n - 1].cht == c {
      assert groups == groups[..n - 1] + [groups[n - 1]];
      PlacedExtends(size, blocks, groups[..n - 1], groups[n - 1], b);
    } else {
      PlacedOpens(size, blocks, groups, b, c);
    }
  }

  /** The next block of an ordered list belongs to the CHT of the last group or to a later one. */
  lemma NotBefore(size: Size, last: nat, b: nat, c: nat)
    requires 0 < last <= b && BlockToCht(size, last) == Some(c)
    ensures BlockToCht(size, b) == Some(ChtOf(size, b)) && c <= ChtOf(size, b)
  {
    ChtMonotone(size, last, b);
  }

  lemma PrefixStep(size: Size, blocks: seq<nat>, last: nat, groups: seq<Group>, b: nat)
    requires Partitions(size, blocks, groups) && b > 0
    requires blocks != [] ==> last == blocks[|blocks| - 1] && 0 < last <= b
    ensures Partitions(size, blocks + [b], Placed(groups, ChtOf(size, b), b))
  {
    if blocks != [] { NotBefore(size, last, b, groups[|groups| - 1].cht); }
    PartitionStep(size, blocks, groups, b, ChtOf(size, b));
  }

  lemma NextPartition(size: Size, blocks: seq<nat>, items: seq<Numbered>, k: nat, groups: seq<Group>)
    requires AboveGenesis(blocks) && Ordered(blocks) && k < |blocks| && items == NumberedBlocks(size, blocks)
    requires groups == GroupsOf(items[..k]) && Partitions(size, blocks[..k], groups)
    ensures Partitions(size, blocks[..k + 1], GroupsOf(items[..k + 1]))
  {
    GroupsStep(items, k);
    PrefixStep(size, blocks[..k], if k > 0 then blocks[k - 1] else 0, groups, blocks[k]);
    assert blocks[..k] + [blocks[k]] == blocks[..k + 1];
  }

  lemma {:induction false} PrefixPartition(size: Size, blocks: seq<nat>, items: seq<Numbered>, k: nat)
    requires AboveGenesis(blocks) && Ordered(blocks) && k <= |blocks| && items == NumberedBlocks(size, blocks)
    ensures Partitions(size, blocks[..k], GroupsOf(items[..k]))
  {
    if k > 0 {
      PrefixPartition(size, blocks, items, k - 1);
      NextPartition(size, blocks, items, k - 1, GroupsOf(items[..k - 1]));
    }
  }

  /** The groups of any ordered list without genesis partition it. */
  lemma GroupsPartition(size: Size, blocks: seq<nat>)
    requires AboveGenesis(blocks) && Ordered(blocks)
    ensures Partitions(size, blocks, GroupsOf(NumberedBlocks(size, blocks)))
  {
    var items := NumberedBlocks(size, blocks);
    PrefixPartition(size, blocks, items, |blocks|);
    assert blocks[..|blocks|] == blocks;
    assert items[..|items|] == items;
  }

  ghost predicate Within(g: seq<Group>, groups: seq<Group>) { g <= groups && |g| < |groups| }

  lemma PlacedStays(g: seq<Group>, groups: seq<Group>, c: nat, b: nat)
    requires g <= groups && (|g| < |groups| || (g != [] && g[|g| - 1].cht != c))
    ensures Within(g, Placed(groups, c, b))
  {
  }

  lemma StepStays(items: seq<Numbered>, k: nat, g: seq<Group>, groups: seq<Group>)
    requires k < |items| && groups == GroupsOf(items[..k])
    requires Within(g, groups) || (g == groups && g != [] && g[|g| - 1].cht != items[k].cht)
    ensures Within(g, GroupsOf(items[..k + 1]))
  {
    GroupsStep(items, k);
    PlacedStays(g, groups, items[k].cht, items[k].block);
  }

  /** Once a block of another CHT follows, the groups so far are final. */
  lemma {:induction false} GroupsStay(items: seq<Numbered>, k: nat, g: seq<Group>, m: nat)
    requires k < m <= |items| && g == GroupsOf(items[..k]) && g != [] && g[|g| - 1].cht != items[k].cht
    ensures Within(g, GroupsOf(items[..m]))
  {
    if m > k + 1 { GroupsStay(items, k, g, m - 1); }
    StepStays(items, m - 1, g, GroupsOf(items[..m - 1]));
  }

  lemma ExtendJoins(calls: seq<Group>, cht: nat, pending: seq<nat>, block: nat)
    ensures Joined(calls + [Group(cht, pending + [block])]) == Joined(calls + [Group(cht, pending)]) + [block]
  {
    JoinedLast(calls, Group(cht, pending));
    JoinedLast(calls, Group(cht, pending + [block]));
    AppendTwice(Joined(calls), pending, block);
  }

  lemma AppendTwice(a: seq<nat>, b: seq<nat>, x: nat)
    ensures a + (b + [x]) == a + b + [x]
  {
  }

  lemma BelowNext(groups: seq<Group>, c: nat)
    requires Increasing(groups) && (groups != [] ==> groups[|groups| - 1].cht < c)
    ensures forall i :: 0 <= i < |groups| ==> groups[i].cht < c
  {
    forall i | 0 <= i < |groups|
      ensures groups[i].cht < c
    {
      assert i < |groups| - 1 ==> groups[i].cht < groups[|groups| - 1].cht;
    }
  }

  // ---------------------------------------------------------------- calling the functor

  function Calls(calls: seq<Group>, current: Option<nat>, pending: seq<nat>): seq<Group> {
    if current.Some? then calls + [Group(current.value, pending)] else calls
  }

  /** The functor has accepted every call made so far; the group of the last block is still pending. */
  ghost predicate Halfway(items: seq<Numbered>, functor: Group -> Result<()>, k: nat,
                          calls: seq<Group>, current: Option<nat>, pending: seq<nat>)
  {
    && k <= |items| && Calls(calls, current, pending) == GroupsOf(items[..k])
    && (if k == 0 then current == None && pending == [] else current == Some(items[k - 1].cht))
    && forall i :: 0 <= i < |calls| ==> functor(calls[i]).Ok?
  }

  /** One round of the loop: call the functor when the block belongs to another CHT. */
  method Round(ghost items: seq<Numbered>, functor: Group -> Result<()>, ghost k: nat, cht: nat, block: nat,
               calls: seq<Group>, current: Option<nat>, pending: seq<nat>)
    returns (r: Result<()>, calls': seq<Group>, current': Option<nat>, pending': seq<nat>)
    requires Halfway(items, functor, k, calls, current, pending) && k < |items| && items[k] == Numbered(cht, block)
    ensures r.Ok? ==> Halfway(items, functor, k + 1, calls', current', pending')
    ensures r.Err? ==> current.Some? && current != Some(cht)
    ensures r.Err? ==> calls' == GroupsOf(items[..k]) == calls + [Group(current.value, pending)]
    ensures r.Err? ==> r == functor(Group(current.value, pending))
  {
    r, calls', current', pending' := Ok(()), calls, current, pending;
    if current.Some? && current != Some(cht) {
      calls', pending' := calls + [Group(current.value, pending)], [];
      r := functor(Group(current.value, pending));
      if r.Err? { return; }
    }
    pending', current' := pending' + [block], Some(cht);
    GroupsStep(items, k);
    assert current == Some(cht) ==> Calls(calls, current, pending)[..|calls|] == calls;
    assert current != Some(cht) ==> pending' == [block] && calls' == Calls(calls, current, pending);
  }

  /** What the calls tell: they are offered in the order of the groups, up to the first refused one. */
  ghost predicate Offered(items: seq<Numbered>, functor: Group -> Result<()>, r: Result<()>, calls: seq<Group>) {
    && calls <= GroupsOf(items)
    && (r.Ok? ==> calls == GroupsOf(items) && forall i :: 0 <= i < |calls| ==> functor(calls[i]).Ok?)
    && (r.Err? ==>
          && calls != [] && functor(calls[|calls| - 1]) == r
          && forall i :: 0 <= i < |calls| - 1 ==> functor(calls[i]).Ok?)
  }

  /** `for_each_cht_group`: the calls made to the functor, which may fail. Genesis is refused before any
  call is made. */
  method ForEachGroup(size: Size, blocks: seq<nat>, functor: Group -> Result<()>)
    returns (r: Result<()>, calls: seq<Group>)
    requires Ordered(blocks)
    ensures !AboveGenesis(blocks) ==> r == Err(NoChtForBlock) && calls == []
    ensures AboveGenesis(blocks) ==> Offered(NumberedBlocks(size, blocks), functor, r, calls)
  {
    ghost var items := NumberedBlocks(size, blocks);
    calls := [];
    var current: Option<nat>, pending: seq<nat> := None, [];
    for k := 0 to |blocks|
      invariant Halfway(items, functor, k, calls, current, pending)
      invariant k > 0 ==> AboveGenesis(blocks)
    {
      if blocks[k] == 0 {
        assert !AboveGenesis(blocks);
        return Err(NoChtForBlock), [];
      }
      if k == 0 { AllAboveGenesis(blocks); }
      var cht := BlockToCht(size, blocks[k]).value;
      r, calls, current, pending := Round(items, functor, k, cht, blocks[k], calls, current, pending);
      if r.Err? {
        GroupsStay(items, k, calls, |items|);
        assert items[..|items|] == items;
        return;
      }
    }
    assert items[..|items|] == items;
    r := Ok(());
    if current.Some? {
      r := functor(Group(current.value, pending));
      calls := calls + [Group(current.value, pending)];
    } else {
      assert |blocks| == 0;
    }
  }

  /** In an ordered list genesis comes first. */
  lemma AllAboveGenesis(blocks: seq<nat>)
    requires Ordered(blocks) && blocks != [] && blocks[0] > 0
    ensures AboveGenesis(blocks)
  {
    forall i | 0 <= i < |blocks|
      ensures blocks[i] > 0
    {
      assert i > 0 ==> blocks[0] <= blocks[i];
    }
  }
}
