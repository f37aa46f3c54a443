/** Finality proofs: the prover walks the canonical chain and collects justifications, the checker
verifies the fragments in order and derives what may be imported and finalized. */
module FinalityProof {
  import opened BlockTree

  type Justification = nat
  type StorageProof = nat
  type AuthorityList = seq<(nat, nat)>

  /** The cryptography: justification verification, and proofs of the authority list in a block's state. */
  datatype Oracle = Oracle(
    verify: (Justification, nat, AuthorityList) -> bool,
    prove: Hash -> StorageProof,
    check: (Hash, Hash, StorageProof) -> Option<AuthorityList>)

  /** The prover's blockchain. A header is represented by its hash. Reading or proving the authorities
  of a block fails unless its state is `available`. */
  datatype RawChain = RawChain(
    numbers: map<Hash, nat>, canonical: seq<Hash>, finalized: nat,
    justifications: map<nat, Justification>, authorities: Hash -> AuthorityList, available: Hash -> bool)
  {
    ghost predicate Valid() {
      && finalized < |canonical|
      && forall n :: 0 <= n < |canonical| ==> canonical[n] in numbers && numbers[canonical[n]] == n
    }
  }

  type Chain = c: RawChain | c.Valid()
    witness RawChain(map[Hash(1) := 0], [Hash(1)], 0, map[], _ => [], _ => true)

  datatype Fragment = Fragment(
    block: Hash, justification: Justification, unknown: seq<Hash>, authorities: Option<StorageProof>)

  datatype Effects = Effects(
    headers: seq<Hash>, block: Hash, justification: Justification, setId: nat, authorities: AuthorityList)

  // ---------------------------------------------------------------- the checker

  datatype Checked = Accepted(effects: Effects) | Rejected

  function CheckFragment(o: Oracle, known: set<Hash>, setId: nat, auths: AuthorityList, f: Fragment): Checked {
    if !o.verify(f.justification, setId, auths) then Rejected
    else if f.authorities.None? then Accepted(Effects(f.unknown, f.block, f.justification, setId, auths))
    else if f.unknown == [] && f.block !in known then Rejected
    else
      var header := if f.unknown != [] then f.unknown[|f.unknown| - 1] else f.block;
      var next := o.check(f.block, header, f.authorities.value);
      if next.None? then Rejected else Accepted(Effects(f.unknown, f.block, f.justification, setId + 1, next.value))
  }

  /** All fragments but the last must justify a set change and carry no headers. */
  function CheckProof(o: Oracle, known: set<Hash>, setId: nat, auths: AuthorityList, proof: seq<Fragment>): Checked
    decreases |proof|
  {
    if proof == [] then Rejected
    else if |proof| > 1 && (proof[0].unknown != [] || proof[0].authorities.None?) then Rejected
    else
      var r := CheckFragment(o, known, setId, auths, proof[0]);
      if r.Rejected? || |proof| == 1 then r
      else CheckProof(o, known, r.effects.setId, r.effects.authorities, proof[1..])
  }

  /** `do_check_finality_proof`: one pass over the fragments. */
  method DoCheck(o: Oracle, known: set<Hash>, setId: nat, auths: AuthorityList,
                 proof: seq<Fragment>) returns (r: Checked)
    ensures r == CheckProof(o, known, setId, auths, proof)
  {
    if proof == [] { return Rejected; }
    var currentId, current := setId, auths;
    r := Rejected;
    for i := 0 to |proof|
      invariant i < |proof| ==>
        CheckProof(o, known, currentId, current, proof[i..]) == CheckProof(o, known, setId, auths, proof)
      invariant i == |proof| ==> r == CheckProof(o, known, setId, auths, proof)
    {
      var f := proof[i];
      assert proof[i..][1..] == proof[i + 1..];
      if i != |proof| - 1 && (f.unknown != [] || f.authorities.None?) { return Rejected; }
      r := CheckFragment(o, known, currentId, current, f);
      if r.Rejected? { return; }
      currentId, current := r.effects.setId, r.effects.authorities;
    }
  }

  // ---------------------------------------------------------------- the prover

  const MAX_FRAGMENTS_IN_PROOF := 8

  datatype Proved = Nothing | Failed | Proof(fragments: seq<Fragment>)

  function Auth(c: Chain, n: nat): AuthorityList
    requires n < |c.canonical|
  {
    c.authorities(c.canonical[n])
  }

  /** The loop state: fragments so far, the newest justification not needed yet, headers the caller lacks. */
  datatype Scan = Scan(proof: seq<Fragment>, latest: Option<Fragment>, unknown: seq<Hash>, auths: AuthorityList)

  /** Request: the set id and the authorities at the first block, and the last block known to the caller. */
  datatype Request = Request(setId: nat, auths: AuthorityList, end: nat)

  function FragmentAt(c: Chain, o: Oracle, n: nat, s: Scan): Fragment
    requires n < |c.canonical| && n in c.justifications
  {
    Fragment(c.canonical[n], c.justifications[n], s.unknown,
             if s.auths != Auth(c, n) then Some(o.prove(c.canonical[n])) else None)
  }

  function ScanFrom(c: Chain, o: Oracle, q: Request, n: nat, s: Scan): Proved
    requires n <= c.finalized
    decreases c.finalized - n
  {
    var s1 := if n > q.end then s.(unknown := s.unknown + [c.canonical[n]]) else s;
    if n !in c.justifications then Continue(c, o, q, n, s1)
    else if !c.available(c.canonical[n]) then Failed
    else
      var f := FragmentAt(c, o, n, s1);
      var s2 := s1.(unknown := [], auths := Auth(c, n));
      if n >= q.end || f.authorities.Some? then
        if s2.proof == [] && !o.verify(f.justification, q.setId, q.auths) then Nothing
        else if n >= q.end then Proof(s2.proof + [f])
        else Continue(c, o, q, n, s2.(proof := s2.proof + [f], latest := None))
      else
        Continue(c, o, q, n, s2.(latest := Some(f)))
  }

  function Continue(c: Chain, o: Oracle, q: Request, n: nat, s: Scan): Proved
    requires n <= c.finalized
    decreases c.finalized - n, 0
  {
    if n < c.finalized then ScanFrom(c, o, q, n + 1, s)
    else
      var proof := if s.latest.Some? then s.proof + [s.latest.value] else s.proof;
      if proof == [] then Nothing else Proof(proof)
  }

  /** `prove_finality` for the range from `begin` (exclusive) to `end`. */
  function Prove(c: Chain, o: Oracle, setId: nat, begin: Hash, end: Hash): Proved {
    if begin !in c.numbers then Failed
    else if c.finalized <= c.numbers[begin] then Nothing
    else if end !in c.numbers then Failed
    else if c.numbers[begin] + 1 > c.numbers[end] then Failed
    else if c.canonical[c.numbers[begin]] != begin then Failed
    else if !c.available(begin) then Failed
    else
      var auths := c.authorities(begin);
      ScanFrom(c, o, Request(setId, auths, c.numbers[end]), c.numbers[begin] + 1, Scan([], None, [], auths))
  }

  method ProveFinality(c: Chain, o: Oracle, setId: nat, begin: Hash, end: Hash) returns (r: Proved)
    ensures r == Prove(c, o, setId, begin, end)
  {
    if begin !in c.numbers { return Failed; }
    var beginNumber := c.numbers[begin];
    if c.finalized <= beginNumber { return Nothing; }
    if end !in c.numbers { return Failed; }
    var endNumber := c.numbers[end];
    if beginNumber + 1 > endNumber { return Failed; }
    if c.canonical[beginNumber] != begin { return Failed; }
    if !c.available(begin) { return Failed; }
    var beginAuths := c.authorities(begin);
    ghost var q := Request(setId, beginAuths, endNumber);
    var fragmentIndex, auths := 0, beginAuths;
    var n := beginNumber + 1;
    var proof: seq<Fragment>, unknown: seq<Hash>, latest: Option<Fragment> := [], [], None;
    while true
      invariant n <= c.finalized
      invariant ScanFrom(c, o, q, n, Scan(proof, latest, unknown, auths)) == Prove(c, o, setId, begin, end)
      decreases c.finalized - n
    {
      if n > endNumber { unknown := unknown + [c.canonical[n]]; }
      if n in c.justifications {
        if !c.available(c.canonical[n]) { return Failed; }
        var authorities: Option<StorageProof> := None;
        if auths != c.authorities(c.canonical[n]) {
          auths := c.authorities(c.canonical[n]);
          authorities := Some(o.prove(c.canonical[n]));
        }
        var f := Fragment(c.canonical[n], c.justifications[n], unknown, authorities);
        unknown := [];
        if n >= endNumber || authorities.Some? {
          if proof == [] && !o.verify(f.justification, setId, beginAuths) { return Nothing; }
          proof, latest := proof + [f], None;
        } else {
          latest := Some(f);
        }
        if n >= endNumber { break; }
      }
      if n == c.finalized {
        if latest.Some? {
          proof := proof + [latest.value];
          fragmentIndex := fragmentIndex + 1;
          if fragmentIndex == MAX_FRAGMENTS_IN_PROOF { break; }
        }
        break;
      }
      n := n + 1;
    }
    r := if proof == [] then Nothing else Proof(proof);
  }

  // ---------------------------------------------------------------- the round trip

  /** The id of the authority set in force after block `n`. */
  function SetIdAt(c: Chain, begin: nat, setId: nat, n: nat): nat
    requires begin <= n < |c.canonical|
    decreases n
  {
    if n == begin then setId
    else SetIdAt(c, begin, setId, n - 1) + (if Auth(c, n) != Auth(c, n - 1) then 1 else 0)
  }

  /** Sets change only at justified blocks, justifications verify under the set in force before their
  block, and authority proofs are sound. */
  ghost predicate Honest(c: Chain, o: Oracle, begin: nat, setId: nat) {
    && (forall n {:trigger n in c.justifications} :: begin < n <= c.finalized && n !in c.justifications ==>
          Auth(c, n) == Auth(c, n - 1))
    && (forall n {:trigger n in c.justifications} :: begin < n <= c.finalized && n in c.justifications ==>
          o.verify(c.justifications[n], SetIdAt(c, begin, setId, n - 1), Auth(c, n - 1)))
    && (forall n {:trigger c.canonical[n]} :: begin < n <= c.finalized ==>
          o.check(c.canonical[n], c.canonical[n], o.prove(c.canonical[n])) == Some(Auth(c, n)))
  }

  /** The set after a series of set-change fragments. */
  function FoldChanges(o: Oracle, known: set<Hash>, setId: nat, auths: AuthorityList,
                       proof: seq<Fragment>): Option<(nat, AuthorityList)>
    decreases |proof|
  {
    if proof == [] then Some((setId, auths))
    else
      var f := proof[|proof| - 1];
      var before := FoldChanges(o, known, setId, auths, proof[..|proof| - 1]);
      if before.None? || f.unknown != [] || f.authorities.None? then None
      else
        var r := CheckFragment(o, known, before.value.0, before.value.1, f);
        if r.Rejected? then None else Some((r.effects.setId, r.effects.authorities))
  }

  lemma FoldOne(o: Oracle, known: set<Hash>, setId: nat, auths: AuthorityList, f: Fragment)
    ensures FoldChanges(o, known, setId, auths, [f]) ==
            if f.unknown != [] || f.authorities.None? then None
            else
              var r := CheckFragment(o, known, setId, auths, f);
              if r.Rejected? then None else Some((r.effects.setId, r.effects.authorities))
  {
    assert [f][..0] == [];
  }

  /** Folding peels from the front as the checker does. */
  lemma {:induction false} FoldFront(o: Oracle, known: set<Hash>, setId: nat, auths: AuthorityList, f: Fragment,
                                     rest: seq<Fragment>)
    ensures var first := FoldChanges(o, known, setId, auths, [f]);
            FoldChanges(o, known, setId, auths, [f] + rest) ==
            if first.None? then None else FoldChanges(o, known, first.value.0, first.value.1, rest)
    decreases |rest|
  {
    if rest == [] {
      assert [f] + rest == [f];
    } else {
      var n := |rest| - 1;
      assert ([f] + rest)[..n + 1] == [f] + rest[..n];
      FoldFront(o, known, setId, auths, f, rest[..n]);
    }
  }

  /** The checker accepts a proof exactly when every fragment but the last is a set change that
  verifies under the set before it, and the last verifies under the set they lead to. */
  lemma {:induction false} CheckAfterFold(o: Oracle, known: set<Hash>, setId: nat, auths: AuthorityList,
                                          proof: seq<Fragment>, f: Fragment)
    ensures var folded := FoldChanges(o, known, setId, auths, proof);
            CheckProof(o, known, setId, auths, proof + [f]) ==
            if folded.None? then Rejected else CheckFragment(o, known, folded.value.0, folded.value.1, f)
    decreases |proof|
  {
    if proof == [] {
      assert proof + [f] == [f];
    } else {
      var rest := proof[1..];
      assert proof == [proof[0]] + rest;
      FoldFront(o, known, setId, auths, proof[0], rest);
      FoldOne(o, known, setId, auths, proof[0]);
      var r := CheckFragment(o, known, setId, auths, proof[0]);
      assert (proof + [f])[1..] == rest + [f];
      if r.Accepted? {
        CheckAfterFold(o, known, r.effects.setId, r.effects.authorities, rest, f);
      }
    }
  }

  /** The headers above `end`, up to and including `n`. */
  function HeadersTo(c: Chain, end: nat, n: nat): seq<Hash>
    requires n < |c.canonical|
  {
    if n <= end then [] else c.canonical[end + 1..n + 1]
  }

  /** What the checker should conclude for block `n`. */
  function Expected(c: Chain, begin: nat, q: Request, n: nat): Effects
    requires begin <= n < |c.canonical| && n in c.justifications
  {
    Effects(HeadersTo(c, q.end, n), c.canonical[n], c.justifications[n], SetIdAt(c, begin, q.setId, n), Auth(c, n))
  }

  /** The block the proof should be about: the first justified one from `end` on, else the last justified one. */
  ghost predicate IsTarget(c: Chain, begin: nat, end: nat, n: nat) {
    && begin < n <= c.finalized && n in c.justifications
    && (forall k :: end <= k < n ==> k !in c.justifications)
    && (n < end ==> forall k :: n < k <= c.finalized ==> k !in c.justifications)
  }

  /** The scan reads the authorities of `k`: it is the first block, or justified with no justified
  block from `end` on before it. */
  ghost predicate Consulted(c: Chain, begin: nat, end: nat, k: nat) {
    || k == begin
    || (begin < k <= c.finalized && k in c.justifications && forall j :: end <= j < k ==> j !in c.justifications)
  }

  /** Every block up to `n` whose authorities the scan reads has its state available. */
  ghost predicate AvailableTo(c: Chain, begin: nat, end: nat, n: nat)
    requires begin <= n <= c.finalized
  {
    forall k :: begin <= k <= n && Consulted(c, begin, end, k) ==> c.available(c.canonical[k])
  }

  ghost predicate KnowsRange(c: Chain, known: set<Hash>, begin: nat, end: nat) {
    forall n :: begin < n <= end && n < |c.canonical| ==> c.canonical[n] in known
  }

  /** A fragment for block `m` that needs no headers and after which the set has not changed up to `n`. */
  ghost predicate Settled(c: Chain, begin: nat, q: Request, m: nat, n: nat, f: Fragment) {
    && begin < m <= n <= c.finalized && m < q.end && m in c.justifications
    && f.block == c.canonical[m] && f.justification == c.justifications[m] && f.unknown == []
    && SetIdAt(c, begin, q.setId, m) == SetIdAt(c, begin, q.setId, n) && Auth(c, m) == Auth(c, n)
    && (forall k :: m < k <= n ==> k !in c.justifications)
  }

  /** The fragments so far lead from the requested set to the set in force after block `n`. */
  ghost predicate Follows(c: Chain, o: Oracle, known: set<Hash>, begin: nat, q: Request, n: nat, s: Scan) {
    && begin <= n <= c.finalized && begin < q.end
    && s.auths == Auth(c, n)
    && s.unknown == HeadersTo(c, q.end, n)
    && FoldChanges(o, known, q.setId, q.auths, s.proof) == Some((SetIdAt(c, begin, q.setId, n), Auth(c, n)))
  }

  /** `m` is the last justified block up to `n`, or `begin`; none lies from `end` on, and what was read was
  available. */
  ghost predicate LastJustified(c: Chain, begin: nat, end: nat, n: nat, m: nat) {
    && begin <= m <= n <= c.finalized
    && (forall k :: m < k <= n ==> k !in c.justifications)
    && (forall k :: end <= k <= n ==> k !in c.justifications)
    && AvailableTo(c, begin, end, n)
  }

  /** The last justified block is that of the pending fragment, or of the last one collected. */
  ghost predicate Pending(c: Chain, begin: nat, q: Request, n: nat, s: Scan, m: nat) {
    if m <= begin then
      s.latest.None? && s.proof == []
    else if s.latest.Some? then
      && Settled(c, begin, q, m, n, s.latest.value) && s.latest.value.authorities.None?
      && SetIdAt(c, begin, q.setId, m - 1) == SetIdAt(c, begin, q.setId, m) && Auth(c, m - 1) == Auth(c, m)
    else
      s.proof != [] && Settled(c, begin, q, m, n, s.proof[|s.proof| - 1])
  }

  /** The scan has dealt with every block up to `n`. */
  ghost predicate ScanInv(c: Chain, o: Oracle, known: set<Hash>, begin: nat, q: Request, n: nat, s: Scan, m: nat) {
    Follows(c, o, known, begin, q, n, s) && LastJustified(c, begin, q.end, n, m) && Pending(c, begin, q, n, s, m)
  }

  /** The prover fails exactly when a state it needs is not available, finds nothing exactly when no
  block is justified, and otherwise gives a proof that is accepted for the right block. */
  ghost predicate GoodOutcome(c: Chain, o: Oracle, known: set<Hash>, begin: nat, q: Request, r: Proved)
    requires begin <= c.finalized
  {
    && (r.Failed? <==> !AvailableTo(c, begin, q.end, c.finalized))
    && (r.Nothing? ==> forall k :: begin < k <= c.finalized ==> k !in c.justifications)
    && (r.Proof? ==>
          exists n :: IsTarget(c, begin, q.end, n) &&
                      CheckProof(o, known, q.setId, q.auths, r.fragments) == Accepted(Expected(c, begin, q, n)))
  }

  // ---------------------------------------------------------------- single blocks of the scan

  /** The fragment for block `n` when the scan has followed the chain up to the block before. */
  function FragmentFor(c: Chain, o: Oracle, q: Request, n: nat): Fragment
    requires 0 < n < |c.canonical| && n in c.justifications
  {
    Fragment(c.canonical[n], c.justifications[n], HeadersTo(c, q.end, n),
             if Auth(c, n - 1) != Auth(c, n) then Some(o.prove(c.canonical[n])) else None)
  }

  /** Under the set in force before its block, a fragment is accepted with what the chain really has. */
  lemma FragmentIsAccepted(c: Chain, o: Oracle, known: set<Hash>, begin: nat, q: Request, n: nat)
    requires Honest(c, o, begin, q.setId) && KnowsRange(c, known, begin, q.end)
    requires begin < n <= c.finalized && n in c.justifications
    ensures CheckFragment(o, known, SetIdAt(c, begin, q.setId, n - 1), Auth(c, n - 1), FragmentFor(c, o, q, n)) ==
            Accepted(Expected(c, begin, q, n))
  {
    var f := FragmentFor(c, o, q, n);
    assert n <= q.end ==> f.unknown == [] && c.canonical[n] in known;
    assert n > q.end ==> f.unknown[|f.unknown| - 1] == c.canonical[n];
    assert o.check(c.canonical[n], c.canonical[n], o.prove(c.canonical[n])) == Some(Auth(c, n));
  }

  /** The first fragment of a proof verifies under the requested set. */
  lemma FirstVerifies(c: Chain, o: Oracle, known: set<Hash>, begin: nat, q: Request, n: nat, s: Scan)
    requires Honest(c, o, begin, q.setId) && begin < n <= c.finalized && n in c.justifications
    requires Follows(c, o, known, begin, q, n - 1, s) && s.proof == []
    ensures o.verify(c.justifications[n], q.setId, q.auths)
  {
    assert FoldChanges(o, known, q.setId, q.auths, []) == Some((q.setId, q.auths));
  }

  /** Collecting a fragment that changes the set. */
  lemma ChangeFollows(c: Chain, o: Oracle, known: set<Hash>, begin: nat, q: Request, n: nat, s: Scan)
    requires Honest(c, o, begin, q.setId) && KnowsRange(c, known, begin, q.end)
    requires begin < n <= c.finalized && n < q.end && n in c.justifications
    requires Follows(c, o, known, begin, q, n - 1, s) && Auth(c, n - 1) != Auth(c, n)
    ensures Follows(c, o, known, begin, q, n, Scan(s.proof + [FragmentFor(c, o, q, n)], None, [], Auth(c, n)))
  {
    var f := FragmentFor(c, o, q, n);
    FragmentIsAccepted(c, o, known, begin, q, n);
    assert (s.proof + [f])[..|s.proof|] == s.proof;
  }

  /** Blocks that change no set leave the fold as it is. */
  lemma SameFollows(c: Chain, o: Oracle, known: set<Hash>, begin: nat, q: Request, n: nat, s: Scan,
                    latest: Option<Fragment>)
    requires begin < n <= c.finalized && Follows(c, o, known, begin, q, n - 1, s) && Auth(c, n - 1) == Auth(c, n)
    ensures SetIdAt(c, begin, q.setId, n) == SetIdAt(c, begin, q.setId, n - 1)
    ensures Follows(c, o, known, begin, q, n, Scan(s.proof, latest, HeadersTo(c, q.end, n), Auth(c, n)))
  {
  }

  lemma JustifiedIsLast(c: Chain, begin: nat, end: nat, n: nat, m: nat)
    requires begin < n <= c.finalized && LastJustified(c, begin, end, n - 1, m)
    requires n in c.justifications && n < end && c.available(c.canonical[n])
    ensures LastJustified(c, begin, end, n, n)
  {
  }

  lemma UnjustifiedPasses(c: Chain, begin: nat, end: nat, n: nat, m: nat)
    requires begin < n <= c.finalized && LastJustified(c, begin, end, n - 1, m) && n !in c.justifications
    ensures LastJustified(c, begin, end, n, m)
  {
  }

  /** No authorities are read beyond the first justified block from `end` on. */
  lemma NothingReadBeyond(c: Chain, begin: nat, end: nat, n: nat, m: nat)
    requires begin < n <= c.finalized && LastJustified(c, begin, end, n - 1, m)
    requires n in c.justifications && n >= end
    ensures AvailableTo(c, begin, end, c.finalized) <==> c.available(c.canonical[n])
    ensures IsTarget(c, begin, end, n)
  {
    assert Consulted(c, begin, end, n);
  }

  /** A state that is missing where it is read makes the whole scan fail. */
  lemma UnavailableFails(c: Chain, begin: nat, end: nat, n: nat, m: nat)
    requires begin < n <= c.finalized && LastJustified(c, begin, end, n - 1, m)
    requires n in c.justifications && !c.available(c.canonical[n])
    ensures !AvailableTo(c, begin, end, c.finalized)
  {
    assert Consulted(c, begin, end, n);
  }

  lemma UnknownGrows(c: Chain, q: Request, n: nat)
    requires 0 < n < |c.canonical|
    ensures HeadersTo(c, q.end, n) ==
            if n > q.end then HeadersTo(c, q.end, n - 1) + [c.canonical[n]] else HeadersTo(c, q.end, n - 1)
  {
  }

  /** What the scan does at a justified block whose state is available. */
  lemma ScanJustified(c: Chain, o: Oracle, q: Request, n: nat, s: Scan)
    requires 0 < n <= c.finalized && n in c.justifications && c.available(c.canonical[n])
    requires s.auths == Auth(c, n - 1) && s.unknown == HeadersTo(c, q.end, n - 1)
    ensures var f, change := FragmentFor(c, o, q, n), Auth(c, n - 1) != Auth(c, n);
            ScanFrom(c, o, q, n, s) ==
            if (n >= q.end || change) && s.proof == [] && !o.verify(c.justifications[n], q.setId, q.auths) then Nothing
            else if n >= q.end then Proof(s.proof + [f])
            else if change then Continue(c, o, q, n, Scan(s.proof + [f], None, [], Auth(c, n)))
            else Continue(c, o, q, n, Scan(s.proof, Some(f), [], Auth(c, n)))
  {
    UnknownGrows(c, q, n);
  }

  // ---------------------------------------------------------------- the scan

  lemma {:induction false} ContinueAccepted(c: Chain, o: Oracle, known: set<Hash>, begin: nat, q: Request, n: nat,
                                            s: Scan, m: nat)
    requires Honest(c, o, begin, q.setId) && KnowsRange(c, known, begin, q.end)
    requires ScanInv(c, o, known, begin, q, n, s, m) && n > begin
    ensures GoodOutcome(c, o, known, begin, q, Continue(c, o, q, n, s))
    decreases c.finalized - n, 0
  {
    if n < c.finalized {
      ScanAccepted(c, o, known, begin, q, n + 1, s, m);
    } else if m > begin {
      assert IsTarget(c, begin, q.end, m);
      if s.latest.Some? {
        LatestAccepted(c, o, known, begin, q, n, s, m);
      } else {
        CollectedAccepted(c, o, known, begin, q, n, s, m);
      }
    }
  }

  lemma LatestAccepted(c: Chain, o: Oracle, known: set<Hash>, begin: nat, q: Request, n: nat, s: Scan, m: nat)
    requires Honest(c, o, begin, q.setId) && m > begin
    requires ScanInv(c, o, known, begin, q, n, s, m) && s.latest.Some?
    ensures CheckProof(o, known, q.setId, q.auths, s.proof + [s.latest.value]) == Accepted(Expected(c, begin, q, m))
  {
    CheckAfterFold(o, known, q.setId, q.auths, s.proof, s.latest.value);
  }

  lemma CollectedAccepted(c: Chain, o: Oracle, known: set<Hash>, begin: nat, q: Request, n: nat, s: Scan, m: nat)
    requires ScanInv(c, o, known, begin, q, n, s, m) && s.latest.None? && m > begin
    ensures CheckProof(o, known, q.setId, q.auths, s.proof) == Accepted(Expected(c, begin, q, m))
  {
    var k := |s.proof| - 1;
    CheckAfterFold(o, known, q.setId, q.auths, s.proof[..k], s.proof[k]);
    assert s.proof[..k] + [s.proof[k]] == s.proof;
  }

  lemma {:induction false} ScanAccepted(c: Chain, o: Oracle, known: set<Hash>, begin: nat, q: Request, n: nat,
                                        s: Scan, m: nat)
    requires Honest(c, o, begin, q.setId) && KnowsRange(c, known, begin, q.end)
    requires begin < n <= c.finalized && ScanInv(c, o, known, begin, q, n - 1, s, m)
    ensures GoodOutcome(c, o, known, begin, q, ScanFrom(c, o, q, n, s))
    decreases c.finalized - n, 1
  {
    UnknownGrows(c, q, n);
    if n !in c.justifications {
      UnjustifiedStep(c, o, known, begin, q, n, s, m);
      ContinueAccepted(c, o, known, begin, q, n, s.(unknown := HeadersTo(c, q.end, n)), m);
    } else if !c.available(c.canonical[n]) {
      UnavailableFails(c, begin, q.end, n, m);
    } else {
      ScanJustified(c, o, q, n, s);
      if s.proof == [] { FirstVerifies(c, o, known, begin, q, n, s); }
      if n >= q.end {
        EndAccepted(c, o, known, begin, q, n, s, m);
      } else if Auth(c, n - 1) != Auth(c, n) {
        ChangeStep(c, o, known, begin, q, n, s, m);
        ContinueAccepted(c, o, known, begin, q, n, Scan(s.proof + [FragmentFor(c, o, q, n)], None, [], Auth(c, n)), n);
      } else {
        PendingStep(c, o, known, begin, q, n, s, m);
        ContinueAccepted(c, o, known, begin, q, n, Scan(s.proof, Some(FragmentFor(c, o, q, n)), [], Auth(c, n)), n);
      }
    }
  }

  lemma UnjustifiedStep(c: Chain, o: Oracle, known: set<Hash>, begin: nat, q: Request, n: nat, s: Scan, m: nat)
    requires Honest(c, o, begin, q.setId)
    requires begin < n <= c.finalized && ScanInv(c, o, known, begin, q, n - 1, s, m) && n !in c.justifications
    ensures ScanInv(c, o, known, begin, q, n, s.(unknown := HeadersTo(c, q.end, n)), m)
  {
    SameFollows(c, o, known, begin, q, n, s, s.latest);
    UnjustifiedPasses(c, begin, q.end, n, m);
  }

  /** The first justified block from `end` on ends the scan with an accepted proof. */
  lemma EndAccepted(c: Chain, o: Oracle, known: set<Hash>, begin: nat, q: Request, n: nat, s: Scan, m: nat)
    requires Honest(c, o, begin, q.setId) && KnowsRange(c, known, begin, q.end)
    requires begin < n <= c.finalized && n >= q.end && n in c.justifications && c.available(c.canonical[n])
    requires ScanInv(c, o, known, begin, q, n - 1, s, m)
    ensures GoodOutcome(c, o, known, begin, q, Proof(s.proof + [FragmentFor(c, o, q, n)]))
  {
    FragmentIsAccepted(c, o, known, begin, q, n);
    CheckAfterFold(o, known, q.setId, q.auths, s.proof, FragmentFor(c, o, q, n));
    NothingReadBeyond(c, begin, q.end, n, m);
  }

  lemma ChangeStep(c: Chain, o: Oracle, known: set<Hash>, begin: nat, q: Request, n: nat, s: Scan, m: nat)
    requires Honest(c, o, begin, q.setId) && KnowsRange(c, known, begin, q.end)
    requires begin < n <= c.finalized && n < q.end && n in c.justifications && c.available(c.canonical[n])
    requires ScanInv(c, o, known, begin, q, n - 1, s, m) && Auth(c, n - 1) != Auth(c, n)
    ensures ScanInv(c, o, known, begin, q, n, Scan(s.proof + [FragmentFor(c, o, q, n)], None, [], Auth(c, n)), n)
  {
    ChangeFollows(c, o, known, begin, q, n, s);
    JustifiedIsLast(c, begin, q.end, n, m);
    assert Settled(c, begin, q, n, n, FragmentFor(c, o, q, n));
  }

  lemma PendingStep(c: Chain, o: Oracle, known: set<Hash>, begin: nat, q: Request, n: nat, s: Scan, m: nat)
    requires begin < n <= c.finalized && n < q.end && n in c.justifications && c.available(c.canonical[n])
    requires ScanInv(c, o, known, begin, q, n - 1, s, m) && Auth(c, n - 1) == Auth(c, n)
    ensures ScanInv(c, o, known, begin, q, n, Scan(s.proof, Some(FragmentFor(c, o, q, n)), [], Auth(c, n)), n)
  {
    SameFollows(c, o, known, begin, q, n, s, Some(FragmentFor(c, o, q, n)));
    JustifiedIsLast(c, begin, q.end, n, m);
    assert Settled(c, begin, q, n, n, FragmentFor(c, o, q, n));
  }

  /** The round trip: on an honest chain and a canonical range the prover fails exactly when a state it
  needs is not available; it returns nothing only when there is no justification to offer, and
  otherwise the checker accepts its proof with the block, set and headers the chain really has. */
  lemma ProofsAreAccepted(c: Chain, o: Oracle, known: set<Hash>, setId: nat, begin: Hash, end: Hash)
    requires begin in c.numbers && end in c.numbers
    requires var b := c.numbers[begin];
             b < c.finalized && b < c.numbers[end] && c.canonical[b] == begin &&
             Honest(c, o, b, setId) && KnowsRange(c, known, b, c.numbers[end])
    ensures GoodOutcome(c, o, known, c.numbers[begin], Request(setId, c.authorities(begin), c.numbers[end]),
                        Prove(c, o, setId, begin, end))
  {
    var b := c.numbers[begin];
    var q := Request(setId, c.authorities(begin), c.numbers[end]);
    assert Consulted(c, b, q.end, b);
    if c.available(begin) {
      ScanAccepted(c, o, known, b, q, b + 1, Scan([], None, [], q.auths), b);
    }
  }
}
