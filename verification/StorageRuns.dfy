/** Runs of the state cache: any interleaving of opened states, reads, drops, imports and head switches. */
module StorageRuns {
  import opened BlockTree
  import opened LruMap
  import opened StorageCache
  import opened StorageCoherence

  /** `states` are the states in use, each on top of some known block. */
  datatype System = System(shared: Shared, head: Hash, known: set<Hash>, states: map<nat, Local>)

  /** The states `sync_cache` passes through, and what it leaves of the local cache. */
  datatype Intermediate = Intermediate(synced: Shared, handed: Shared, left: Local)

  datatype Step =
    | Open(id: nat, block: Hash)
    | Read(id: nat, key: Key, answer: Value)
    | ReadHash(id: nat, key: Key, answer: Value)
    | Close(id: nat, via: Intermediate)
    | Import(id: nat, block: Hash, isBest: bool, route: TreeRoute, via: Intermediate)
    | SwitchHead(block: Hash, route: TreeRoute)

  ghost predicate Initial(w: World, a: System) {
    Wiped(a.shared) && a.head == w.tree.genesis && a.known == {w.tree.genesis} && a.states == map[]
  }

  ghost predicate OpenNext(a: System, step: Step, b: System)
    requires step.Open?
  {
    && step.block in a.known && step.id !in a.states
    && b == a.(states := a.states[step.id := Local(Some(step.block), map[], map[], map[])])
  }

  ghost predicate ReadNext(w: World, a: System, step: Step, b: System)
    requires step.Read?
  {
    && step.id in a.states && step.id in b.states
    && b == System(b.shared, a.head, a.known, a.states[step.id := b.states[step.id]])
    && var l := a.states[step.id];
       && l.block.Some? && l.block.value in w.tree.headers
       && ReadStep(a.shared, l, step.key, StateAt(w, l.block.value, step.key), b.shared, b.states[step.id], step.answer)
  }

  ghost predicate ReadHashNext(w: World, a: System, step: Step, b: System)
    requires step.ReadHash?
  {
    && step.id in a.states && step.id in b.states && step.key.Top?
    && b == System(b.shared, a.head, a.known, a.states[step.id := b.states[step.id]])
    && var l := a.states[step.id];
       && l.block.Some? && l.block.value in w.tree.headers
       && ReadHashStep(a.shared, l, step.key, StateAt(w, l.block.value, step.key),
                       b.shared, b.states[step.id], step.answer)
  }

  /** A dropped state hands its reads over when it is the state of the head. */
  ghost predicate CloseNext(a: System, step: Step, b: System)
    requires step.Close?
  {
    && step.id in a.states && b == System(b.shared, a.head, a.known, a.states - {step.id})
    && var l := a.states[step.id];
       && l.block.Some?
       && SyncCacheStep(a.shared, l, [], [], [], [], None, a.head == l.block.value,
                        step.via.synced, step.via.handed, b.shared, step.via.left)
  }

  /** A fresh block is committed through the state of its parent. */
  ghost predicate ImportNext(w: World, a: System, step: Step, b: System)
    requires step.Import?
  {
    var h := step.block;
    && h in w.tree.headers && h !in a.known && h != w.tree.genesis && Parent(w.tree, h) in a.known
    && a.head in w.tree.headers && Parent(w.tree, h) in w.tree.headers
    && step.id in a.states && a.states[step.id].block == Some(Parent(w.tree, h))
    && IsRoute(w.tree, a.head, Parent(w.tree, h), step.route)
    && b == System(b.shared, if step.isBest then h else a.head, a.known + {h}, a.states - {step.id})
    && SyncCacheStep(a.shared, a.states[step.id],
                     if step.isBest then step.route.Enacted() else [],
                     if step.isBest then step.route.Retracted() else [],
                     w.changes[h], w.childChanges[h], Some((h, Number(w.tree, h))), step.isBest,
                     step.via.synced, step.via.handed, b.shared, step.via.left)
  }

  ghost predicate SwitchNext(w: World, a: System, step: Step, b: System)
    requires step.SwitchHead?
  {
    && step.block in a.known && a.head in w.tree.headers && step.block in w.tree.headers
    && IsRoute(w.tree, a.head, step.block, step.route)
    && b == a.(shared := b.shared, head := step.block)
    && Tidy(b.shared) && Synced(a.shared, b.shared, step.route.Enacted(), step.route.Retracted())
  }

  ghost predicate Next(w: World, a: System, step: Step, b: System) {
    match step
    case Open(_, _) => OpenNext(a, step, b)
    case Read(_, _, _) => ReadNext(w, a, step, b)
    case ReadHash(_, _, _) => ReadHashNext(w, a, step, b)
    case Close(_, _) => CloseNext(a, step, b)
    case Import(_, _, _, _, _) => ImportNext(w, a, step, b)
    case SwitchHead(_, _) => SwitchNext(w, a, step, b)
  }

  ghost predicate Inv(w: World, a: System) {
    && Coherent(w, a.known, a.head, a.shared)
    && forall id :: id in a.states ==> LocalOk(w, a.known, a.states[id]) && a.states[id].block.Some?
  }

  lemma InitialInv(w: World, a: System)
    requires Initial(w, a)
    ensures Inv(w, a)
  {
    assert IsAncestor(w.tree, a.head, a.head);
  }

  lemma EmptyRoute(t: Tree, h: Hash)
    requires h in t.headers
    ensures IsRoute(t, h, h, TreeRoute([h], 0))
  {
    assert IsAncestor(t, h, h);
  }

  lemma CloseInv(w: World, a: System, step: Step, b: System)
    requires Inv(w, a) && step.Close? && CloseNext(a, step, b)
    ensures Inv(w, b)
  {
    var l := a.states[step.id];
    var Intermediate(synced, handed, m) := step.via;
    EmptyRoute(w.tree, a.head);
    SyncIsCoherent(w, a.known, a.head, a.head, TreeRoute([a.head], 0), a.shared, synced);
    HandOverIsCoherent(w, a.known, a.head, synced, l, a.head == l.block.value, handed, m);
  }

  lemma ImportInv(w: World, a: System, step: Step, b: System)
    requires Inv(w, a) && step.Import? && ImportNext(w, a, step, b)
    ensures Inv(w, b)
  {
    var h, l := step.block, a.states[step.id];
    if step.isBest {
      ImportBest(w, a.known, a.head, a.shared, l, h, step.route, step.via, b.shared);
    } else {
      ImportNormal(w, a.known, a.head, a.shared, l, h, step.via, b.shared);
    }
    StatesSurvive(w, a, b);
  }

  /** Learning more blocks spoils no open state. */
  lemma StatesSurvive(w: World, a: System, b: System)
    requires forall id :: id in a.states ==> LocalOk(w, a.known, a.states[id]) && a.states[id].block.Some?
    requires Closed(w.tree, b.known) && a.known <= b.known
    requires forall id :: id in b.states ==> id in a.states && b.states[id] == a.states[id]
    ensures forall id :: id in b.states ==> LocalOk(w, b.known, b.states[id]) && b.states[id].block.Some?
  {
  }

  lemma ReadInv(w: World, a: System, step: Step, b: System)
    requires Inv(w, a) && step.Read? && ReadNext(w, a, step, b)
    ensures Inv(w, b)
  {
    ReadIsCoherent(w, a.known, a.head, a.shared, a.states[step.id], step.key, b.shared, b.states[step.id], step.answer);
  }

  lemma ReadHashInv(w: World, a: System, step: Step, b: System)
    requires Inv(w, a) && step.ReadHash? && ReadHashNext(w, a, step, b)
    ensures Inv(w, b)
  {
    GottenItems(a.shared.hashes, step.key);
  }

  lemma SwitchInv(w: World, a: System, step: Step, b: System)
    requires Inv(w, a) && step.SwitchHead? && SwitchNext(w, a, step, b)
    ensures Inv(w, b)
  {
    SyncIsCoherent(w, a.known, a.head, step.block, step.route, a.shared, b.shared);
  }

  lemma ImportBest(w: World, known: set<Hash>, head: Hash, s: Shared, l: Local, h: Hash, r: TreeRoute,
                   via: Intermediate, t: Shared)
    requires Coherent(w, known, head, s) && LocalOk(w, known, l)
    requires h in w.tree.headers && h !in known && h != w.tree.genesis && Parent(w.tree, h) in known
    requires l.block == Some(Parent(w.tree, h)) && IsRoute(w.tree, head, Parent(w.tree, h), r)
    requires SyncCacheStep(s, l, r.Enacted(), r.Retracted(), w.changes[h], w.childChanges[h],
                           Some((h, Number(w.tree, h))), true, via.synced, via.handed, t, via.left)
    ensures Coherent(w, known + {h}, h, t)
  {
    var p := Parent(w.tree, h);
    FreshNotEnacted(w, known, head, p, r, h);
    WithoutAbsentBlock(r.Enacted(), Some((h, Number(w.tree, h))));
    SyncIsCoherent(w, known, head, p, r, s, via.synced);
    HandOverIsCoherent(w, known, p, via.synced, l, true, via.handed, via.left);
    CommitIsCoherent(w, known, p, via.handed, h, true, t);
  }

  lemma ImportNormal(w: World, known: set<Hash>, head: Hash, s: Shared, l: Local, h: Hash, via: Intermediate, t: Shared)
    requires Coherent(w, known, head, s) && LocalOk(w, known, l)
    requires h in w.tree.headers && h !in known && h != w.tree.genesis && Parent(w.tree, h) in known
    requires l.block == Some(Parent(w.tree, h))
    requires SyncCacheStep(s, l, [], [], w.changes[h], w.childChanges[h],
                           Some((h, Number(w.tree, h))), false, via.synced, via.handed, t, via.left)
    ensures Coherent(w, known + {h}, head, t)
  {
    EmptyRoute(w.tree, head);
    SyncIsCoherent(w, known, head, head, TreeRoute([head], 0), s, via.synced);
    HandOverIsCoherent(w, known, head, via.synced, l, false, via.handed, via.left);
    CommitIsCoherent(w, known, head, via.handed, h, false, t);
  }

  lemma FreshNotEnacted(w: World, known: set<Hash>, from: Hash, to: Hash, r: TreeRoute, h: Hash)
    requires Closed(w.tree, known) && from in known && to in known && h in w.tree.headers && h !in known
    requires IsRoute(w.tree, from, to, r)
    ensures h !in r.Enacted()
  {
    RouteBlocks(w.tree, from, to, r, h);
    FreshHasNoDescendants(w.tree, known, h, to);
  }

  lemma NextInv(w: World, a: System, step: Step, b: System)
    requires Inv(w, a) && Next(w, a, step, b)
    ensures Inv(w, b)
  {
    match step
    case Open(_, _) =>
    case Read(_, _, _) => ReadInv(w, a, step, b);
    case ReadHash(_, _, _) => ReadHashInv(w, a, step, b);
    case Close(_, _) => CloseInv(w, a, step, b);
    case Import(_, _, _, _, _) => ImportInv(w, a, step, b);
    case SwitchHead(_, _) => SwitchInv(w, a, step, b);
  }

  ghost predicate IsRun(w: World, trace: seq<System>, steps: seq<Step>) {
    && |trace| == |steps| + 1
    && Initial(w, trace[0])
    && forall i {:trigger steps[i]} :: 0 <= i < |steps| ==> Next(w, trace[i], steps[i], trace[i + 1])
  }

  lemma {:induction false} RunInv(w: World, trace: seq<System>, steps: seq<Step>, n: nat)
    requires IsRun(w, trace, steps) && n < |trace|
    ensures Inv(w, trace[n])
  {
    if n == 0 {
      InitialInv(w, trace[0]);
    } else {
      RunInv(w, trace, steps, n - 1);
      StepInv(w, trace, steps, n - 1);
    }
  }

  lemma StepInv(w: World, trace: seq<System>, steps: seq<Step>, i: nat)
    requires IsRun(w, trace, steps) && i < |steps| && Inv(w, trace[i])
    ensures Inv(w, trace[i + 1])
  {
    var step := steps[i];
    NextInv(w, trace[i], step, trace[i + 1]);
  }

  /** Cache coherence over whole runs: every read returns the backing value of the block it reads at. */
  lemma ReadsAreCoherent(w: World, trace: seq<System>, steps: seq<Step>, n: nat)
    requires IsRun(w, trace, steps) && n < |steps| && steps[n].Read?
    ensures steps[n].id in trace[n].states && trace[n].states[steps[n].id].block.Some?
    ensures trace[n].states[steps[n].id].block.value in w.tree.headers
    ensures steps[n].answer == StateAt(w, trace[n].states[steps[n].id].block.value, steps[n].key)
  {
    RunInv(w, trace, steps, n);
    var a, b := trace[n], trace[n + 1];
    var l := a.states[steps[n].id];
    ReadIsCoherent(w, a.known, a.head, a.shared, l, steps[n].key, b.shared, b.states[steps[n].id], steps[n].answer);
  }
}
