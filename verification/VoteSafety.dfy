/** Vote uniqueness across crashes: whatever is persisted for a round of a voter set only grows. */
module VoteSafety {
  import opened BlockTree
  import opened VoterState

  /** Every vote cast in `a` is cast, unchanged, in `b`. */
  ghost predicate Extends(a: HasVoted, b: HasVoted) {
    && (a.Proposal().Some? ==> b.Proposal() == a.Proposal())
    && (a.PrevoteCast().Some? ==> b.PrevoteCast() == a.PrevoteCast())
    && (a.PrecommitCast().Some? ==> b.PrecommitCast() == a.PrecommitCast())
  }

  /** Two states of the same voter set: the rounds live in both only gain votes. */
  ghost predicate Grows(a: VoterSetState, b: VoterSetState) {
    a.Live? && b.Live? && a.completed.setId == b.completed.setId ==>
      forall r :: r in a.current && r in b.current ==> Extends(a.current[r], b.current[r])
  }

  ghost predicate Blank(v: HasVoted) {
    v.Proposal().None? && v.PrevoteCast().None? && v.PrecommitCast().None?
  }

  // ---------------------------------------------------------------- how votes get lost

  /** A voter that is not the primary prevotes for 7, then its proposal is recorded, and it can prevote for 8. */
  lemma LateProposalForgetsPrevote()
    ensures var s1 := Decide(Fresh(0, 0, 0), Some(0), Prevoted(1, 7)).state;
            var s2 := Decide(s1, Some(0), Proposed(1, 5)).state;
            var s3 := Decide(s2, Some(0), Prevoted(1, 8)).state;
            s1.current[1].PrevoteCast() == Some(7) && s3.current[1].PrevoteCast() == Some(8)
  {
  }

  /** Completing round 0 again wipes the prevote of round 1. */
  lemma RepeatedCompletionForgetsPrevote()
    ensures var s1 := Decide(Fresh(0, 0, 0), Some(0), Prevoted(1, 7)).state;
            var s2 := Decide(s1, Some(0), Completed(0, 0, 0, [])).state;
            s1.current[1].PrevoteCast() == Some(7) && s2.current[1] == No
  {
  }

  /** Completing round 1 and then round 0 opens round 1 again without its votes. */
  lemma CompletionsReopen(s1: VoterSetState)
    requires s1.Live? && s1.current.Keys == {1}
    ensures var s2 := Decide(s1, Some(0), Completed(1, 0, 0, [])).state;
            var s3 := Decide(s2, Some(0), Completed(0, 0, 0, [])).state;
            s3.Live? && s3.current == map[1 := No, 2 := No] && Grows(s1, s2) && Grows(s2, s3)
  {
    var s2 := Decide(s1, Some(0), Completed(1, 0, 0, [])).state;
    assert s2.current == map[2 := No];
  }

  /** A round that was completed is opened again by completing the one before it, after its votes have
  left the state: each step looks harmless next to the one before, and both prevotes are persisted. */
  lemma ReopenedRoundGetsSecondPrevote()
    ensures var s0 := Fresh(0, 0, 0);
            var s1 := Decide(s0, Some(0), Prevoted(1, 7)).state;
            var s2 := Decide(s1, Some(0), Completed(1, 0, 0, [])).state;
            var s3 := Decide(s2, Some(0), Completed(0, 0, 0, [])).state;
            var s4 := Decide(s3, Some(0), Prevoted(1, 8)).state;
            && Grows(s0, s1) && Grows(s1, s2) && Grows(s2, s3) && Grows(s3, s4)
            && s1.current[1].PrevoteCast() == Some(7) && s4.current[1].PrevoteCast() == Some(8)
            && !Grows(s1, s4)
  {
    CompletionsReopen(Decide(Fresh(0, 0, 0), Some(0), Prevoted(1, 7)).state);
  }

  // ---------------------------------------------------------------- what the protocol guarantees

  function LastCompleted(s: VoterSetState): nat {
    if s.completed.rounds == [] then 0 else s.completed.rounds[0].number
  }

  /** The voter proposes before it prevotes, completes rounds in rising order, and set ids rise. */
  ghost predicate Disciplined(s: VoterSetState, id: Option<Blob>, call: Call) {
    match call
    case Proposed(round, _) =>
      s.Live? && id.Some? && round in s.current && s.current[round].Proposal().None? ==>
        s.current[round].PrevoteCast().None?
    case Completed(round, _, _, _) => round > LastCompleted(s)
    case ChangeAuthorities(setId, _, _) => setId > s.completed.setId
    case _ => true
  }

  ghost predicate WellFormed(s: VoterSetState) {
    && 1 <= |s.completed.rounds| <= NUM_LAST_COMPLETED_ROUNDS && Descending(s.completed.rounds)
    && (s.Live? ==> forall r :: r in s.current ==> r <= LastCompleted(s) + 1)
  }

  /** How an earlier persisted state relates to the latest one. */
  ghost predicate Precedes(a: VoterSetState, s: VoterSetState) {
    && a.completed.setId <= s.completed.setId
    && (a.completed.setId == s.completed.setId && s.Live? ==>
          && a.Live?
          && forall r :: r in a.current ==>
               r <= LastCompleted(s) + 1 && (r in s.current ==> Extends(a.current[r], s.current[r])))
  }

  lemma {:induction false} ConcludeKeepsNumbers(rounds: seq<CompletedRound>, round: nat, state: Blob, votes: seq<Blob>)
    ensures var c := Conclude(rounds, round, state, votes);
            |c| == |rounds| && forall i :: 0 <= i < |rounds| ==> c[i].number == rounds[i].number
  {
    if rounds != [] && rounds[0].number != round {
      ConcludeKeepsNumbers(rounds[1..], round, state, votes);
    }
  }

  lemma PushAbove(rounds: seq<CompletedRound>, r: CompletedRound)
    requires 1 <= |rounds| <= NUM_LAST_COMPLETED_ROUNDS && Descending(rounds) && r.number > rounds[0].number
    ensures Pushed(rounds, r) == [r, rounds[0]]
  {
    assert Position(rounds, r.number) == 0;
    assert ([r] + rounds)[..2] == [r, rounds[0]];
  }

  lemma StepPrecedes(a: VoterSetState, s: VoterSetState, id: Option<Blob>, call: Call)
    requires WellFormed(s) && Disciplined(s, id, call) && Decide(s, id, call).Write?
    requires Precedes(a, s)
    ensures Precedes(a, Decide(s, id, call).state) && WellFormed(Decide(s, id, call).state)
  {
    var t := Decide(s, id, call).state;
    match call
    case Completed(round, state, base, votes) =>
      PushAbove(s.completed.rounds, CompletedRound(round, state, base, votes));
    case Concluded(round, state, votes) =>
      ConcludeKeepsNumbers(s.completed.rounds, round, state, votes);
    case _ =>
  }

  lemma StateFollowsItself(s: VoterSetState, id: Option<Blob>, call: Call)
    requires WellFormed(s) && Disciplined(s, id, call) && Decide(s, id, call).Write?
    ensures Precedes(Decide(s, id, call).state, Decide(s, id, call).state)
  {
    StepPrecedes(s, s, id, call) by { assert Precedes(s, s); }
  }

  // ---------------------------------------------------------------- runs with crashes

  /** `log` is every state ever persisted, in order. */
  datatype Node = Node(up: bool, memory: VoterSetState, disk: VoterSetState, log: seq<VoterSetState>)

  datatype Event = Act(id: Option<Blob>, call: Call, fate: Fate) | Start

  function Next(n: Node, e: Event): Node {
    match e
    case Start => n.(up := true, memory := n.disk)
    case Act(id, call, fate) =>
      if !n.up then n
      else
        var d := Decide(n.memory, id, call);
        if !d.Write? then n.(up := !(fate.StopsBefore? || fate.StopsAfter?))
        else
          match fate
          case Fails => n
          case StopsBefore => n.(up := false)
          case StopsAfter => n.(up := false, disk := d.state, log := n.log + [d.state])
          case Succeeds => Node(true, d.state, d.state, n.log + [d.state])
  }

  function Run(n: Node, events: seq<Event>): Node
    decreases |events|
  {
    if events == [] then n else Run(Next(n, events[0]), events[1..])
  }

  ghost predicate DisciplinedRun(n: Node, events: seq<Event>)
    decreases |events|
  {
    events != [] ==>
      && (events[0].Act? && n.up ==> Disciplined(n.memory, events[0].id, events[0].call))
      && DisciplinedRun(Next(n, events[0]), events[1..])
  }

  ghost predicate Inv(n: Node) {
    && InStep(n)
    && WellFormed(n.disk)
    && (forall i :: 0 <= i < |n.log| ==> Precedes(n.log[i], n.disk))
    && Unique(n.log)
  }

  lemma PersistKeepsInv(n: Node, id: Option<Blob>, call: Call)
    requires Inv(n) && n.up && Disciplined(n.memory, id, call) && Decide(n.memory, id, call).Write?
    ensures var s := Decide(n.memory, id, call).state;
            Inv(Node(true, s, s, n.log + [s])) && Inv(n.(up := false, disk := s, log := n.log + [s]))
  {
    var s := Decide(n.memory, id, call).state;
    var log := n.log + [s];
    StateFollowsItself(n.disk, id, call);
    forall i | 0 <= i < |log|
      ensures Precedes(log[i], s)
    {
      if i < |n.log| { StepPrecedes(n.log[i], n.disk, id, call); }
    }
    StepPrecedes(n.disk, n.disk, id, call);
  }

  lemma NextKeepsInv(n: Node, e: Event)
    requires Inv(n) && (e.Act? && n.up ==> Disciplined(n.memory, e.id, e.call))
    ensures Inv(Next(n, e)) && n.log <= Next(n, e).log
  {
    if e.Act? && n.up && Decide(n.memory, e.id, e.call).Write? {
      PersistKeepsInv(n, e.id, e.call);
    }
  }

  lemma {:induction false} RunKeepsInv(n: Node, events: seq<Event>)
    requires Inv(n) && DisciplinedRun(n, events)
    ensures Inv(Run(n, events)) && n.log <= Run(n, events).log
    decreases |events|
  {
    if events != [] {
      NextKeepsInv(n, events[0]);
      RunKeepsInv(Next(n, events[0]), events[1..]);
    }
  }

  /** Over every run, with a crash at any point, all states ever persisted agree: of two that hold a
  round of the same set, the later one extends the votes of the earlier one. */
  lemma PersistedVotesAreUnique(setId: nat, voters: Blob, base: Blob, events: seq<Event>, i: nat, j: nat, r: nat)
    requires var s := Fresh(setId, voters, base); DisciplinedRun(Node(true, s, s, [s]), events)
    ensures var s := Fresh(setId, voters, base);
            var log := Run(Node(true, s, s, [s]), events).log;
            i <= j < |log| && log[i].Live? && log[j].Live? && log[i].completed.setId == log[j].completed.setId &&
            r in log[i].current && r in log[j].current ==>
              Extends(log[i].current[r], log[j].current[r])
  {
    var s := Fresh(setId, voters, base);
    var n := Node(true, s, s, [s]);
    assert Precedes(s, s);
    RunKeepsInv(n, events);
    var log := Run(n, events).log;
    if i <= j < |log| { assert Grows(log[i], log[j]); }
  }

  // ---------------------------------------------------------------- uniqueness, exactly

  /** Of any two persisted states that hold a round of the same set, the later extends the earlier. */
  ghost predicate Unique(log: seq<VoterSetState>) {
    forall i, j :: 0 <= i <= j < |log| ==> Grows(log[i], log[j])
  }

  /** The persisted state holds votes of the round of the set. */
  ghost predicate HasVotes(a: VoterSetState, setId: nat, round: nat) {
    a.Live? && a.completed.setId == setId && round in a.current && !Blank(a.current[round])
  }

  /** The step, taken in `s`, does not open a round anew for which `a` holds votes. */
  ghost predicate Spares(a: VoterSetState, s: VoterSetState, call: Call) {
    match call
    case Completed(round, _, _, _) => !HasVotes(a, s.completed.setId, round + 1)
    case ChangeAuthorities(setId, _, _) => !HasVotes(a, setId, 1)
    case _ => true
  }

  /** No proposal after the prevote of its round. */
  ghost predicate InTime(s: VoterSetState, id: Option<Blob>, call: Call) {
    call.Proposed? && s.Live? && id.Some? && call.round in s.current && s.current[call.round].Proposal().None? ==>
      s.current[call.round].PrevoteCast().None?
  }

  /** The step overwrites nothing that was ever persisted: no late proposal, and no round opened anew
  for which any persisted state of its set holds votes. */
  ghost predicate KeepsVotes(log: seq<VoterSetState>, s: VoterSetState, id: Option<Blob>, call: Call) {
    InTime(s, id, call) && forall i :: 0 <= i < |log| ==> Spares(log[i], s, call)
  }

  predicate Opens(call: Call) { call.Completed? || call.ChangeAuthorities? }

  /** Opening a round keeps the votes of an earlier state exactly when it spares them. */
  lemma OpenStep(a: VoterSetState, s: VoterSetState, id: Option<Blob>, call: Call)
    requires Opens(call) && Decide(s, id, call).Write? && Grows(a, s)
    ensures Grows(a, Decide(s, id, call).state) <==> Spares(a, s, call)
  {
    var round := if call.Completed? then call.round + 1 else 1;
    assert Decide(s, id, call).state.current[round] == No;
  }

  /** A vote that keeps the votes of the latest state keeps those of all earlier ones. */
  lemma VoteStep(a: VoterSetState, s: VoterSetState, id: Option<Blob>, call: Call)
    requires !Opens(call) && Decide(s, id, call).Write? && Grows(a, s) && Grows(s, Decide(s, id, call).state)
    ensures Grows(a, Decide(s, id, call).state)
  {
  }

  lemma VoteGrowsIff(s: VoterSetState, id: Option<Blob>, call: Call)
    requires !Opens(call) && Decide(s, id, call).Write?
    ensures Grows(s, Decide(s, id, call).state) <==> InTime(s, id, call)
  {
    var t := Decide(s, id, call).state;
    if call.Proposed? { assert call.round in s.current && call.round in t.current; }
  }

  lemma AppendUnique(log: seq<VoterSetState>, t: VoterSetState)
    requires Unique(log)
    ensures Unique(log + [t]) <==> forall i :: 0 <= i < |log| ==> Grows(log[i], t)
  {
    var all := log + [t];
    assert all[|log|] == t && forall i :: 0 <= i < |log| ==> all[i] == log[i];
    forall i | 0 <= i < |log| && Unique(all)
      ensures Grows(log[i], t)
    {
      assert Grows(all[i], all[|log|]);
    }
  }

  /** One persisted step keeps all votes ever persisted unique exactly when it overwrites none of them. */
  lemma StepUniqueIff(log: seq<VoterSetState>, id: Option<Blob>, call: Call)
    requires log != [] && Unique(log) && Decide(log[|log| - 1], id, call).Write?
    ensures Unique(log + [Decide(log[|log| - 1], id, call).state]) <==> KeepsVotes(log, log[|log| - 1], id, call)
  {
    var s := log[|log| - 1];
    var t := Decide(s, id, call).state;
    AppendUnique(log, t);
    if Opens(call) {
      forall i | 0 <= i < |log|
        ensures Grows(log[i], t) <==> Spares(log[i], s, call)
      {
        assert Grows(log[i], s);
        OpenStep(log[i], s, id, call);
      }
    } else {
      VoteGrowsIff(s, id, call);
      forall i | 0 <= i < |log| && InTime(s, id, call)
        ensures Grows(log[i], t)
      {
        assert Grows(log[i], s);
        VoteStep(log[i], s, id, call);
      }
    }
  }

  /** The log ends in what is on disk, and a running node has that in memory. */
  ghost predicate InStep(n: Node) {
    n.log != [] && n.log[|n.log| - 1] == n.disk && (n.up ==> n.memory == n.disk)
  }

  /** The event persists a new state. */
  ghost predicate Persists(n: Node, e: Event) {
    e.Act? && n.up && Decide(n.memory, e.id, e.call).Write? && (e.fate.Succeeds? || e.fate.StopsAfter?)
  }

  lemma NextLog(n: Node, e: Event)
    requires InStep(n)
    ensures InStep(Next(n, e))
    ensures Next(n, e).log == if Persists(n, e) then n.log + [Decide(n.memory, e.id, e.call).state] else n.log
  {
  }

  lemma {:induction false} LogOnlyGrows(n: Node, events: seq<Event>)
    requires InStep(n)
    ensures n.log <= Run(n, events).log
    decreases |events|
  {
    if events != [] {
      NextLog(n, events[0]);
      LogOnlyGrows(Next(n, events[0]), events[1..]);
    }
  }

  lemma UniquePrefix(a: seq<VoterSetState>, b: seq<VoterSetState>)
    requires a <= b && Unique(b)
    ensures Unique(a)
  {
    forall i, j | 0 <= i <= j < |a|
      ensures Grows(a[i], a[j])
    {
      assert Grows(b[i], b[j]);
    }
  }

  /** Every persisting step of the run overwrites nothing that was persisted before it. */
  ghost predicate AllKeepVotes(n: Node, events: seq<Event>)
    decreases |events|
  {
    events != [] ==>
      && (Persists(n, events[0]) ==> KeepsVotes(n.log, n.memory, events[0].id, events[0].call))
      && AllKeepVotes(Next(n, events[0]), events[1..])
  }

  /** Vote uniqueness over whole runs, exactly: with crashes, failed writes and restarts at any point, all
  votes ever persisted agree at the end if and only if every persisting step overwrites none of those
  persisted before it. */
  lemma {:induction false} VotesAreUniqueIff(n: Node, events: seq<Event>)
    requires InStep(n) && Unique(n.log)
    ensures Unique(Run(n, events).log) <==> AllKeepVotes(n, events)
    decreases |events|
  {
    if events != [] {
      var e, next := events[0], Next(n, events[0]);
      NextLog(n, e);
      if Persists(n, e) { StepUniqueIff(n.log, e.id, e.call); }
      if Unique(next.log) {
        VotesAreUniqueIff(next, events[1..]);
      } else {
        LogOnlyGrows(next, events[1..]);
        if Unique(Run(n, events).log) { UniquePrefix(next.log, Run(n, events).log); }
      }
    }
  }

  // ---------------------------------------------------------------- precommits and their prevotes

  /** `a` holds the prevote that the precommit of round `r` in `b` goes with. */
  ghost predicate Backs(a: VoterSetState, b: VoterSetState, r: nat) {
    && a.Live? && b.Live? && a.completed.setId == b.completed.setId && r in a.current && r in b.current
    && a.current[r].Yes? && a.current[r].vote.Prevote?
    && a.current[r].PrevoteCast() == b.current[r].PrevoteCast() && a.current[r].Proposal() == b.current[r].Proposal()
  }

  ghost predicate HasPrecommit(s: VoterSetState, r: nat) {
    s.Live? && r in s.current && s.current[r].PrecommitCast().Some?
  }

  ghost predicate BackedAt(log: seq<VoterSetState>, j: nat, r: nat)
    requires j < |log|
  {
    exists i :: 0 <= i < j && Backs(log[i], log[j], r)
  }

  ghost predicate Backed(n: Node) {
    && InStep(n)
    && forall j: nat, r: nat :: j < |n.log| && HasPrecommit(n.log[j], r) ==> BackedAt(n.log, j, r)
  }

  /** A step leaves a precommit as it was, or adds it over a recorded prevote. */
  lemma PrecommitOrigin(s: VoterSetState, id: Option<Blob>, call: Call, r: nat)
    requires Decide(s, id, call).Write? && HasPrecommit(Decide(s, id, call).state, r)
    ensures var t := Decide(s, id, call).state;
      || Backs(s, t, r)
      || (HasPrecommit(s, r) && s.current[r] == t.current[r] && s.completed.setId == t.completed.setId)
  {
  }

  lemma PersistKeepsBacked(n: Node, id: Option<Blob>, call: Call, up: bool)
    requires Backed(n) && n.up && Decide(n.memory, id, call).Write?
    ensures var s := Decide(n.memory, id, call).state;
      Backed(Node(up, if up then s else n.memory, s, n.log + [s]))
  {
    var s := Decide(n.memory, id, call).state;
    var log, last := n.log + [s], |n.log| - 1;
    forall j: nat, r: nat | j < |log| && HasPrecommit(log[j], r)
      ensures BackedAt(log, j, r)
    {
      if j < |n.log| {
        assert BackedAt(n.log, j, r);
        var i :| 0 <= i < j && Backs(n.log[i], n.log[j], r);
        assert Backs(log[i], log[j], r);
      } else {
        PrecommitOrigin(n.disk, id, call, r);
        if Backs(n.disk, s, r) {
          assert Backs(log[last], log[j], r);
        } else {
          assert BackedAt(n.log, last, r);
          var i :| 0 <= i < last && Backs(n.log[i], n.log[last], r);
          assert Backs(log[i], log[j], r);
        }
      }
    }
  }

  lemma {:induction false} RunKeepsBacked(n: Node, events: seq<Event>)
    requires Backed(n)
    ensures Backed(Run(n, events))
    decreases |events|
  {
    if events != [] {
      var e := events[0];
      if e.Act? && n.up && Decide(n.memory, e.id, e.call).Write? {
        PersistKeepsBacked(n, e.id, e.call, true);
        PersistKeepsBacked(n, e.id, e.call, false);
      }
      RunKeepsBacked(Next(n, e), events[1..]);
    }
  }

  /** Over every run, disciplined or not and with a crash at any point: whenever a persisted state
  holds a precommit of a round, an earlier persisted state of the same set holds a prevote of that
  round, and the precommit carries that prevote and its proposal. */
  lemma PrecommitCarriesPrevote(setId: nat, voters: Blob, base: Blob, events: seq<Event>, j: nat, r: nat)
    ensures var s := Fresh(setId, voters, base);
      var log := Run(Node(true, s, s, [s]), events).log;
      j < |log| && HasPrecommit(log[j], r) ==> exists i :: 0 <= i < j && Backs(log[i], log[j], r)
  {
    var s := Fresh(setId, voters, base);
    RunKeepsBacked(Node(true, s, s, [s]), events);
    var log := Run(Node(true, s, s, [s]), events).log;
    if j < |log| && HasPrecommit(log[j], r) { assert BackedAt(log, j, r); }
  }
}
