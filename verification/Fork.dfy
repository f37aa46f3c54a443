/** The smallest tree with a fork, on which the examples of the other modules play. */
module Fork {
  import opened BlockTree

  const GENESIS := Hash(1)
  const A := Hash(2)
  const B := Hash(3)
  const C := Hash(4)

  /** Genesis has the children `A` and `B`, and `B` has the child `C`. */
  const FORK := RawTree(
    GENESIS,
    map[GENESIS := Header(DEFAULT_HASH, 0), A := Header(GENESIS, 1), B := Header(GENESIS, 1), C := Header(B, 2)])

  lemma ForkAncestors()
    ensures FORK.Valid()
    ensures var t: Tree := FORK;
      && AncestorAt(t, A, 0) == GENESIS && AncestorAt(t, B, 0) == GENESIS
      && AncestorAt(t, C, 1) == B && AncestorAt(t, C, 0) == GENESIS
      && !IsAncestor(t, B, A) && !IsAncestor(t, A, B) && !IsAncestor(t, A, C)
  {
    var t: Tree := FORK;
    assert AncestorAt(t, C, 0) == AncestorAt(t, B, 0);
  }
}
