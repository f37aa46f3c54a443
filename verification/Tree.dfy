/** The tree of block headers that every component of the node shares.

A header hash determines its header, so one fixed tree covers every run: the blocks a node
has imported at some moment are a subset of the tree that contains the parents of its members. */
module BlockTree {

  datatype Option<+T> = None | Some(value: T)

  datatype Hash = Hash(id: nat)

  /** The all-zero hash: the parent of genesis, and the best hash of an empty database. */
  const DEFAULT_HASH := Hash(0)

  datatype Header = Header(parent: Hash, number: nat)

  datatype RawTree = RawTree(genesis: Hash, headers: map<Hash, Header>) {
    ghost predicate Valid() {
      && DEFAULT_HASH !in headers
      && genesis in headers
      && headers[genesis] == Header(DEFAULT_HASH, 0)
      && forall h {:trigger headers[h].parent} :: h in headers && h != genesis ==>
            && headers[h].parent in headers
            && headers[h].number == headers[headers[h].parent].number + 1
    }
  }

  const LONE_GENESIS := RawTree(Hash(1), map[Hash(1) := Header(DEFAULT_HASH, 0)])

  type Tree = t: RawTree | t.Valid() witness LONE_GENESIS

  function Number(t: Tree, h: Hash): nat
    requires h in t.headers
  {
    t.headers[h].number
  }

  function Parent(t: Tree, h: Hash): Hash
    requires h in t.headers
  {
    t.headers[h].parent
  }

  /** The block of height `n` on the chain that ends in `h`. */
  function AncestorAt(t: Tree, h: Hash, n: nat): (r: Hash)
    requires h in t.headers && n <= Number(t, h)
    ensures r in t.headers && Number(t, r) == n
    decreases Number(t, h) - n
  {
    if Number(t, h) == n then h else AncestorAt(t, Parent(t, h), n)
  }

  /** `a` is `h` or one of its ancestors. */
  predicate IsAncestor(t: Tree, a: Hash, h: Hash)
    requires a in t.headers && h in t.headers
  {
    Number(t, a) <= Number(t, h) && AncestorAt(t, h, Number(t, a)) == a
  }

  lemma {:induction false} AncestorCompose(t: Tree, h: Hash, m: nat, n: nat)
    requires h in t.headers && n <= m <= Number(t, h)
    ensures AncestorAt(t, AncestorAt(t, h, m), n) == AncestorAt(t, h, n)
    decreases Number(t, h) - m
  {
    if Number(t, h) != m {
      AncestorCompose(t, Parent(t, h), m, n);
    }
  }

  /** Two blocks on one chain are comparable by their heights. */
  lemma AncestorsOnOneChain(t: Tree, a: Hash, b: Hash, h: Hash)
    requires a in t.headers && b in t.headers && h in t.headers
    requires IsAncestor(t, a, h) && Number(t, a) <= Number(t, b)
    ensures IsAncestor(t, b, h) ==> IsAncestor(t, a, b)
  {
    if IsAncestor(t, b, h) {
      AncestorCompose(t, h, Number(t, b), Number(t, a));
    }
  }

  lemma AncestorTransitive(t: Tree, a: Hash, b: Hash, c: Hash)
    requires a in t.headers && b in t.headers && c in t.headers
    requires IsAncestor(t, a, b) && IsAncestor(t, b, c)
    ensures IsAncestor(t, a, c)
  {
    AncestorCompose(t, c, Number(t, b), Number(t, a));
  }

  lemma GenesisIsAncestor(t: Tree, h: Hash)
    requires h in t.headers
    ensures IsAncestor(t, t.genesis, h)
  {
    assert AncestorAt(t, h, 0) == t.genesis;
  }

  /** The set holds the ancestors of its members. */
  ghost predicate Closed(t: Tree, known: set<Hash>) {
    && t.genesis in known
    && (forall h :: h in known ==> h in t.headers)
    && (forall h {:trigger Parent(t, h)} :: h in known && h != t.genesis ==> Parent(t, h) in known)
  }

  lemma {:induction false} ClosedUnderAncestors(t: Tree, known: set<Hash>, h: Hash, n: nat)
    requires Closed(t, known) && h in known && n <= Number(t, h)
    ensures AncestorAt(t, h, n) in known
    decreases Number(t, h) - n
  {
    if Number(t, h) != n {
      ClosedUnderAncestors(t, known, Parent(t, h), n);
    }
  }

  lemma ClosedGrows(t: Tree, known: set<Hash>, h: Hash)
    requires Closed(t, known) && h in t.headers && (h != t.genesis ==> Parent(t, h) in known)
    ensures Closed(t, known + {h})
  {
  }

  /** A block nobody has built upon is an ancestor of itself alone. */
  lemma FreshHasNoDescendants(t: Tree, known: set<Hash>, leaf: Hash, h: Hash)
    requires Closed(t, known) && leaf in t.headers && leaf !in known && h in known
    ensures !IsAncestor(t, leaf, h)
  {
    if Number(t, leaf) <= Number(t, h) {
      ClosedUnderAncestors(t, known, h, Number(t, leaf));
    }
  }

  // ---------------------------------------------------------------- routes

  /** The chain of `h` strictly above height `n`, from `h` downwards. */
  function Down(t: Tree, h: Hash, n: nat): (r: seq<Hash>)
    requires h in t.headers && n <= Number(t, h)
    ensures |r| == Number(t, h) - n && forall b :: b in r ==> b in t.headers
  {
    var r := seq(Number(t, h) - n, i requires 0 <= i < Number(t, h) - n => AncestorAt(t, h, Number(t, h) - i));
    assert forall i :: 0 <= i < |r| ==> r[i] == AncestorAt(t, h, Number(t, h) - i);
    r
  }

  /** The chain of `h` strictly above height `n`, ending in `h`. */
  function Up(t: Tree, h: Hash, n: nat): (r: seq<Hash>)
    requires h in t.headers && n <= Number(t, h)
    ensures |r| == Number(t, h) - n && forall b :: b in r ==> b in t.headers
  {
    var r := seq(Number(t, h) - n, i requires 0 <= i < Number(t, h) - n => AncestorAt(t, h, n + 1 + i));
    assert forall i :: 0 <= i < |r| ==> r[i] == AncestorAt(t, h, n + 1 + i);
    r
  }

  lemma DownContains(t: Tree, h: Hash, n: nat, x: Hash)
    requires h in t.headers && x in t.headers && n <= Number(t, h)
    ensures x in Down(t, h, n) <==> IsAncestor(t, x, h) && Number(t, x) > n
  {
    if IsAncestor(t, x, h) && Number(t, x) > n {
      DownAt(t, h, n, Number(t, h) - Number(t, x));
      assert Down(t, h, n)[Number(t, h) - Number(t, x)] == x;
    }
    if x in Down(t, h, n) {
      var i :| 0 <= i < |Down(t, h, n)| && Down(t, h, n)[i] == x;
      DownAt(t, h, n, i);
    }
  }

  lemma UpAt(t: Tree, h: Hash, n: nat, i: nat)
    requires h in t.headers && n <= Number(t, h) && i < Number(t, h) - n
    ensures Up(t, h, n)[i] == AncestorAt(t, h, n + 1 + i)
  {
  }

  lemma UpContains(t: Tree, h: Hash, n: nat, x: Hash)
    requires h in t.headers && x in t.headers && n <= Number(t, h)
    ensures x in Up(t, h, n) <==> IsAncestor(t, x, h) && Number(t, x) > n
  {
    if IsAncestor(t, x, h) && Number(t, x) > n {
      UpAt(t, h, n, Number(t, x) - n - 1);
      assert Up(t, h, n)[Number(t, x) - n - 1] == x;
    }
    if x in Up(t, h, n) {
      var i :| 0 <= i < |Up(t, h, n)| && Up(t, h, n)[i] == x;
      UpAt(t, h, n, i);
    }
  }

  /** `c` is the highest block that is an ancestor of both. */
  ghost predicate IsLowestCommonAncestor(t: Tree, c: Hash, a: Hash, b: Hash)
    requires a in t.headers && b in t.headers
  {
    && c in t.headers
    && IsAncestor(t, c, a) && IsAncestor(t, c, b)
    && forall x :: x in t.headers && IsAncestor(t, x, a) && IsAncestor(t, x, b) ==> Number(t, x) <= Number(t, c)
  }

  lemma LowestCommonAncestorUnique(t: Tree, c: Hash, d: Hash, a: Hash, b: Hash)
    requires a in t.headers && b in t.headers
    requires IsLowestCommonAncestor(t, c, a, b) && IsLowestCommonAncestor(t, d, a, b)
    ensures c == d
  {
  }

  datatype TreeRoute = TreeRoute(route: seq<Hash>, pivot: nat) {
    predicate Valid() { pivot < |route| }
    function Retracted(): seq<Hash> requires Valid() { route[..pivot] }
    function Common(): Hash requires Valid() { route[pivot] }
    function Enacted(): seq<Hash> requires Valid() { route[pivot + 1..] }
  }

  /** Go down from `from` to the lowest common ancestor, then up to `to`. */
  ghost predicate IsRoute(t: Tree, from: Hash, to: Hash, r: TreeRoute)
    requires from in t.headers && to in t.headers
  {
    && r.Valid()
    && IsLowestCommonAncestor(t, r.Common(), from, to)
    && r.Retracted() == Down(t, from, Number(t, r.Common()))
    && r.Enacted() == Up(t, to, Number(t, r.Common()))
  }

  function Reversed<T>(s: seq<T>): seq<T> {
    seq(|s|, i requires 0 <= i < |s| => s[|s| - 1 - i])
  }

  lemma ReversedDown(t: Tree, h: Hash, n: nat)
    requires h in t.headers && n <= Number(t, h)
    ensures Reversed(Down(t, h, n)) == Up(t, h, n)
  {
  }

  /** The heights at which the two chains are already known to differ. */
  ghost predicate DifferAbove(t: Tree, a: Hash, b: Hash, n: nat)
    requires a in t.headers && b in t.headers
  {
    forall k: nat :: n < k <= Number(t, a) && k <= Number(t, b) ==> AncestorAt(t, a, k) != AncestorAt(t, b, k)
  }

  lemma DifferStep(t: Tree, a: Hash, b: Hash, n: nat)
    requires a in t.headers && b in t.headers && n > 0 && DifferAbove(t, a, b, n)
    requires n <= Number(t, a) && n <= Number(t, b) ==> AncestorAt(t, a, n) != AncestorAt(t, b, n)
    ensures DifferAbove(t, a, b, n - 1)
  {
    forall k: nat | n - 1 < k <= Number(t, a) && k <= Number(t, b)
      ensures AncestorAt(t, a, k) != AncestorAt(t, b, k)
    {
      assert k == n || n < k;
    }
  }

  lemma MeetingPoint(t: Tree, a: Hash, b: Hash, n: nat)
    requires a in t.headers && b in t.headers
    requires n <= Number(t, a) && n <= Number(t, b)
    requires AncestorAt(t, a, n) == AncestorAt(t, b, n) && DifferAbove(t, a, b, n)
    ensures IsLowestCommonAncestor(t, AncestorAt(t, a, n), a, b)
  {
    forall x | x in t.headers && IsAncestor(t, x, a) && IsAncestor(t, x, b)
      ensures Number(t, x) <= n
    {
      assert AncestorAt(t, a, Number(t, x)) == AncestorAt(t, b, Number(t, x));
    }
  }

  lemma ParentStep(t: Tree, h: Hash, n: nat)
    requires h in t.headers && 0 < n <= Number(t, h)
    ensures Parent(t, AncestorAt(t, h, n)) == AncestorAt(t, h, n - 1)
  {
    AncestorCompose(t, h, n, n - 1);
  }

  lemma DownAt(t: Tree, h: Hash, n: nat, i: nat)
    requires h in t.headers && n <= Number(t, h) && i < Number(t, h) - n
    ensures Down(t, h, n)[i] == AncestorAt(t, h, Number(t, h) - i)
  {
  }

  lemma DownStep(t: Tree, h: Hash, n: nat)
    requires h in t.headers && 0 < n <= Number(t, h)
    ensures Down(t, h, n - 1) == Down(t, h, n) + [AncestorAt(t, h, n)]
  {
    var d := Down(t, h, n) + [AncestorAt(t, h, n)];
    forall i | 0 <= i < |d|
      ensures d[i] == Down(t, h, n - 1)[i]
    {
      DownAt(t, h, n - 1, i);
      if i < |d| - 1 { DownAt(t, h, n, i); }
    }
  }

  /** A walk from `h` has reached height `n`, leaving the blocks of `branch` behind. */
  ghost predicate Walked(t: Tree, h: Hash, n: nat, current: Hash, branch: seq<Hash>) {
    Reached(t, h, n, current) && branch == Down(t, h, n)
  }

  ghost predicate Reached(t: Tree, h: Hash, n: nat, current: Hash) {
    h in t.headers && n <= Number(t, h) && current == AncestorAt(t, h, n)
  }

  lemma WalkStep(t: Tree, h: Hash, n: nat, current: Hash, branch: seq<Hash>)
    requires Walked(t, h, n, current, branch) && n > 0
    ensures Walked(t, h, n - 1, Parent(t, current), branch + [current])
  {
    ParentStep(t, h, n);
    DownStep(t, h, n);
  }

  /** One of the two leading loops: walk from `h` down to height `floor`, collecting the blocks left. */
  method Walk(t: Tree, h: Hash, floor: nat) returns (current: Hash, branch: seq<Hash>)
    requires h in t.headers
    ensures Walked(t, h, if Number(t, h) <= floor then Number(t, h) else floor, current, branch)
  {
    current, branch := h, [];
    ghost var n: nat := Number(t, h);
    while Number(t, current) > floor
      invariant Walked(t, h, n, current, branch)
      invariant n >= floor || n == Number(t, h)
      decreases n
    {
      WalkStep(t, h, n, current, branch);
      branch, current, n := branch + [current], Parent(t, current), n - 1;
    }
  }

  lemma UpStep(t: Tree, h: Hash, n: nat)
    requires h in t.headers && n < Number(t, h)
    ensures Up(t, h, n) == Up(t, Parent(t, h), n) + [h]
  {
    var u := Up(t, Parent(t, h), n) + [h];
    forall i | 0 <= i < |u|
      ensures u[i] == Up(t, h, n)[i]
    {
      UpAt(t, h, n, i);
      if i < |u| - 1 { UpAt(t, Parent(t, h), n, i); }
    }
  }

  /** The last loop: walk both chains down together until they meet. */
  method WalkBoth(t: Tree, a: Hash, b: Hash, ghost start: nat, a0: Hash, aBranch0: seq<Hash>, b0: Hash,
                  bBranch0: seq<Hash>)
    returns (meet: Hash, aBranch: seq<Hash>, bBranch: seq<Hash>)
    requires Walked(t, a, start, a0, aBranch0) && Walked(t, b, start, b0, bBranch0) && DifferAbove(t, a, b, start)
    ensures meet in t.headers && IsLowestCommonAncestor(t, meet, a, b)
    ensures aBranch == Down(t, a, Number(t, meet)) && bBranch == Down(t, b, Number(t, meet))
  {
    var from, to := a0, b0;
    aBranch, bBranch := aBranch0, bBranch0;
    ghost var n: nat := start;
    while to != from
      invariant Walked(t, a, n, from, aBranch) && Walked(t, b, n, to, bBranch) && DifferAbove(t, a, b, n)
      decreases n
    {
      NotBothGenesis(t, from, to);
      WalkStep(t, a, n, from, aBranch);
      WalkStep(t, b, n, to, bBranch);
      DifferStep(t, a, b, n);
      bBranch, to := bBranch + [to], Parent(t, to);
      aBranch, from := aBranch + [from], Parent(t, from);
      n := n - 1;
    }
    MeetingPoint(t, a, b, n);
    meet := to;
  }

  /** `tree_route`: level the two blocks, then walk both chains down until they meet. */
  method ComputeTreeRoute(t: Tree, fromHash: Hash, toHash: Hash) returns (r: TreeRoute)
    requires fromHash in t.headers && toHash in t.headers
    ensures IsRoute(t, fromHash, toHash, r)
  {
    var to, toBranch := Walk(t, toHash, Number(t, fromHash));
    var from, fromBranch := Walk(t, fromHash, Number(t, to));
    var meet;
    meet, fromBranch, toBranch := WalkBoth(t, fromHash, toHash, Number(t, to), from, fromBranch, to, toBranch);
    ReversedDown(t, toHash, Number(t, meet));
    r := TreeRoute(fromBranch + [meet] + Reversed(toBranch), |fromBranch|);
    assert r.Retracted() == fromBranch && r.Common() == meet && r.Enacted() == Reversed(toBranch);
  }

  /** What a route says about single blocks: it retracts exactly the ancestors of `from` that
  `to` does not share, and enacts exactly those of `to` that `from` does not share. */
  lemma RouteBlocks(t: Tree, from: Hash, to: Hash, r: TreeRoute, x: Hash)
    requires from in t.headers && to in t.headers && x in t.headers && IsRoute(t, from, to, r)
    ensures x in r.Retracted() <==> IsAncestor(t, x, from) && !IsAncestor(t, x, to)
    ensures x in r.Enacted() <==> IsAncestor(t, x, to) && !IsAncestor(t, x, from)
  {
    var c := r.Common();
    DownContains(t, from, Number(t, c), x);
    UpContains(t, to, Number(t, c), x);
    if Number(t, x) <= Number(t, c) {
      if IsAncestor(t, x, from) { AncestorsOnOneChain(t, x, c, from); AncestorTransitive(t, x, c, to); }
      if IsAncestor(t, x, to) { AncestorsOnOneChain(t, x, c, to); AncestorTransitive(t, x, c, from); }
    }
  }

  function Linked(links: map<Hash, Hash>, h: Hash, link: Hash): map<Hash, Hash> {
    if h == link then links else links[h := link]
  }

  /** The metadata cache with its shortcut links: each cached block may carry, instead of its
  parent, any block known to lie below it on its chain. */
  class MetadataCache {
    const tree: Tree
    var links: map<Hash, Hash>

    ghost predicate Valid()
      reads this
    {
      forall h :: h in links ==>
        && h in tree.headers && links[h] in tree.headers
        && IsAncestor(tree, links[h], h) && Number(tree, links[h]) < Number(tree, h)
    }

    constructor (tree: Tree)
      ensures Valid() && this.tree == tree && links == map[]
    {
      this.tree := tree;
      links := map[];
    }

    /** The farthest block this cache can jump to in one step. */
    function Ancestor(h: Hash): (a: Hash)
      requires Valid() && h in tree.headers && Number(tree, h) > 0
      reads this
      ensures a in tree.headers && IsAncestor(tree, a, h) && Number(tree, a) < Number(tree, h)
    {
      if h in links then links[h] else Parent(tree, h)
    }

    /** One of the two leading loops: jump along links from `h`, never below height `floor`. */
    method Descend(h: Hash, floor: nat) returns (r: Hash)
      requires Valid() && h in tree.headers
      ensures r in tree.headers && IsAncestor(tree, r, h)
      ensures Number(tree, h) <= floor ==> r == h
      ensures Number(tree, h) >= floor ==> Number(tree, r) >= floor
    {
      r := h;
      while Number(tree, r) > floor
        invariant r in tree.headers && IsAncestor(tree, r, h)
        invariant Number(tree, h) <= floor ==> r == h
        invariant Number(tree, h) >= floor ==> Number(tree, r) >= floor
        decreases Number(tree, r)
      {
        var a := Ancestor(r);
        if Number(tree, a) < floor { break; }
        AncestorTransitive(tree, a, r, h);
        r := a;
      }
    }

    /** `lowest_common_ancestor`: jump as far as links allow, walk the rest by parents, then
    remember the answer as the new link of both arguments. */
    method LowestCommonAncestor(a: Hash, b: Hash) returns (c: Hash)
      requires Valid() && a in tree.headers && b in tree.headers
      modifies this
      ensures Valid()
      ensures IsLowestCommonAncestor(tree, c, a, b)
      ensures links == Linked(Linked(old(links), a, c), b, c)
    {
      var one := Descend(a, Number(tree, b));
      var two := Descend(b, Number(tree, one));
      c := WalkToMeeting(tree, a, b, one, two);
      Remember(a, c);
      Remember(b, c);
    }

    /** Cache `c` as the link of `h`, when it lies below `h`. */
    method Remember(h: Hash, c: Hash)
      requires Valid() && h in tree.headers && c in tree.headers && IsAncestor(tree, c, h)
      modifies this
      ensures Valid() && links == Linked(old(links), h, c)
    {
      if Number(tree, h) > Number(tree, c) { links := links[h := c]; }
    }
  }

  /** The trailing loop: step the higher of the two blocks to its parent until they are the same. */
  method WalkToMeeting(t: Tree, a: Hash, b: Hash, one0: Hash, two0: Hash) returns (c: Hash)
    requires a in t.headers && b in t.headers && one0 in t.headers && two0 in t.headers
    requires IsAncestor(t, one0, a) && IsAncestor(t, two0, b)
    requires Number(t, one0) >= Number(t, b) || one0 == a
    requires Number(t, two0) >= Number(t, one0) || two0 == b
    ensures IsLowestCommonAncestor(t, c, a, b)
  {
    var one, two := one0, two0;
    ghost var m: nat, n: nat := Number(t, one), Number(t, two);
    Level(t, a, b, one, two);
    while one != two
      invariant Approaching(t, a, b, m, n, one, two)
      decreases m + n
    {
      if Number(t, one) > Number(t, two) {
        StepFirst(t, a, b, m, n, one, two);
        one, m := Parent(t, one), m - 1;
      } else {
        StepSecond(t, a, b, m, n, one, two);
        two, n := Parent(t, two), n - 1;
      }
    }
    c := one;
    MeetingPoint(t, a, b, m);
  }

  /** The two walks have reached `one` and `two`, and the chains differ above both. */
  ghost predicate Approaching(t: Tree, a: Hash, b: Hash, m: nat, n: nat, one: Hash, two: Hash) {
    Reached(t, a, m, one) && Reached(t, b, n, two) && DifferAbove(t, a, b, m) && DifferAbove(t, a, b, n)
  }

  lemma Level(t: Tree, a: Hash, b: Hash, one: Hash, two: Hash)
    requires a in t.headers && b in t.headers && one in t.headers && two in t.headers
    requires IsAncestor(t, one, a) && IsAncestor(t, two, b)
    requires Number(t, one) >= Number(t, b) || one == a
    requires Number(t, two) >= Number(t, one) || two == b
    ensures Approaching(t, a, b, Number(t, one), Number(t, two), one, two)
  {
  }

  lemma StepFirst(t: Tree, a: Hash, b: Hash, m: nat, n: nat, one: Hash, two: Hash)
    requires Approaching(t, a, b, m, n, one, two) && m > n
    ensures Approaching(t, a, b, m - 1, n, Parent(t, one), two)
  {
    ParentStep(t, a, m);
    DifferStep(t, a, b, m);
  }

  lemma StepSecond(t: Tree, a: Hash, b: Hash, m: nat, n: nat, one: Hash, two: Hash)
    requires Approaching(t, a, b, m, n, one, two) && m <= n && one != two
    ensures n > 0 && Approaching(t, a, b, m, n - 1, one, Parent(t, two))
  {
    NotBothGenesis(t, one, two);
    ParentStep(t, b, n);
    DifferStep(t, a, b, n);
  }

  lemma NotBothGenesis(t: Tree, a: Hash, b: Hash)
    requires a in t.headers && b in t.headers && a != b && Number(t, a) <= Number(t, b)
    ensures Number(t, b) > 0
  {
    assert a != t.genesis ==> Number(t, a) == Number(t, Parent(t, a)) + 1;
    assert b != t.genesis ==> Number(t, b) == Number(t, Parent(t, b)) + 1;
  }
}
