/** The GRANDPA voter's persisted state: completed rounds, and the votes cast in the live rounds. */
module VoterState {
  import opened BlockTree

  const NUM_LAST_COMPLETED_ROUNDS := 2

  /** Opaque payloads: authority keys, proposals, votes, round states, signed messages. */
  type Blob = nat

  datatype CompletedRound = CompletedRound(number: nat, state: Blob, base: Blob, votes: seq<Blob>)

  datatype CompletedRounds = CompletedRounds(rounds: seq<CompletedRound>, setId: nat, voters: Blob)

  // ---------------------------------------------------------------- completed rounds

  ghost predicate Descending(rounds: seq<CompletedRound>) {
    forall i, j :: 0 <= i < j < |rounds| ==> rounds[i].number > rounds[j].number
  }

  /** The position of the first round that is not above `number`. */
  function Position(rounds: seq<CompletedRound>, number: nat): (i: nat)
    ensures i <= |rounds|
    ensures forall j :: 0 <= j < i ==> rounds[j].number > number
    ensures i < |rounds| ==> rounds[i].number <= number
  {
    if rounds == [] || rounds[0].number <= number then 0 else 1 + Position(rounds[1..], number)
  }

  /** Replace the round of the same number or insert in order, then drop the oldest beyond the capacity. */
  function Pushed(rounds: seq<CompletedRound>, r: CompletedRound): seq<CompletedRound> {
    var i := Position(rounds, r.number);
    var all := if i < |rounds| && rounds[i].number == r.number then rounds[i := r] else rounds[..i] + [r] + rounds[i..];
    if |all| > NUM_LAST_COMPLETED_ROUNDS then all[..|all| - 1] else all
  }

  function PushAll(rounds: seq<CompletedRound>): seq<CompletedRound> {
    if rounds == [] then [] else Pushed(PushAll(rounds[..|rounds| - 1]), rounds[|rounds| - 1])
  }

  /** The last round of the history with this number. */
  function Latest(history: seq<CompletedRound>, number: nat): Option<CompletedRound> {
    if history == [] then None
    else if history[|history| - 1].number == number then Some(history[|history| - 1])
    else Latest(history[..|history| - 1], number)
  }

  ghost predicate Contains(rounds: seq<CompletedRound>, number: nat) {
    exists i :: 0 <= i < |rounds| && rounds[i].number == number
  }

  /** A round of this number is kept, or has been pushed out by two greater ones. */
  ghost predicate Accounted(rs: seq<CompletedRound>, number: nat) {
    Contains(rs, number) || (|rs| == NUM_LAST_COMPLETED_ROUNDS && number < rs[|rs| - 1].number)
  }

  /** The vector holds exactly the two greatest numbers of the history, newest data each, greatest first. */
  ghost predicate GreatestTwo(history: seq<CompletedRound>, rs: seq<CompletedRound>) {
    && 1 <= |rs| <= NUM_LAST_COMPLETED_ROUNDS && Descending(rs)
    && (forall i :: 0 <= i < |rs| ==> Latest(history, rs[i].number) == Some(rs[i]))
    && (forall r :: r in history ==> Accounted(rs, r.number))
  }

  lemma LatestStep(history: seq<CompletedRound>, last: CompletedRound, number: nat)
    ensures Latest(history + [last], number) == if last.number == number then Some(last) else Latest(history, number)
  {
    assert (history + [last])[..|history|] == history;
  }

  lemma PushStep(history: seq<CompletedRound>, rs: seq<CompletedRound>, last: CompletedRound)
    requires GreatestTwo(history, rs)
    ensures GreatestTwo(history + [last], Pushed(rs, last))
  {
    var p := Pushed(rs, last);
    PushedShape(rs, last);
    forall i | 0 <= i < |p|
      ensures Latest(history + [last], p[i].number) == Some(p[i])
    {
      LatestStep(history, last, p[i].number);
    }
    forall r | r in history + [last]
      ensures Accounted(p, r.number)
    {
      PushedAccounts(rs, last, r.number);
    }
  }

  /** After any pushes, in any order and with repeats, the vector holds exactly the two greatest
  numbers seen, newest data each, greatest first. */
  lemma {:induction false} PushKeepsGreatest(history: seq<CompletedRound>)
    requires history != []
    ensures GreatestTwo(history, PushAll(history))
  {
    var n := |history| - 1;
    var before, last := history[..n], history[n];
    assert history == before + [last];
    if before == [] {
      assert history == [last] && PushAll(before) == [] && Pushed([], last) == [last];
      assert [last][0].number == last.number && Contains([last], last.number);
    } else {
      PushKeepsGreatest(before);
      PushStep(before, PushAll(before), last);
    }
  }

  /** The four shapes a vector of at most two rounds can take after a push. */
  lemma PushedCases(rs: seq<CompletedRound>, r: CompletedRound)
    requires 1 <= |rs| <= NUM_LAST_COMPLETED_ROUNDS && Descending(rs)
    ensures var p := Pushed(rs, r);
      if r.number == rs[0].number then p == [r] + rs[1..]
      else if r.number > rs[0].number then p == [r, rs[0]]
      else if |rs| == 1 || r.number >= rs[1].number then p == [rs[0], r]
      else p == rs
  {
    if |rs| == 2 { assert rs == [rs[0], rs[1]]; } else { assert rs == [rs[0]]; }
  }

  lemma PushedShape(rs: seq<CompletedRound>, r: CompletedRound)
    requires 1 <= |rs| <= NUM_LAST_COMPLETED_ROUNDS && Descending(rs)
    ensures var p := Pushed(rs, r);
            && 1 <= |p| <= NUM_LAST_COMPLETED_ROUNDS && Descending(p)
            && (forall i :: 0 <= i < |p| ==> p[i] == r || (p[i] in rs && p[i].number != r.number))
  {
    PushedCases(rs, r);
  }

  /** Nothing that was accounted for is lost, and neither is the new round. */
  lemma PushedAccounts(rs: seq<CompletedRound>, r: CompletedRound, number: nat)
    requires 1 <= |rs| <= NUM_LAST_COMPLETED_ROUNDS && Descending(rs) && (number == r.number || Accounted(rs, number))
    ensures Accounted(Pushed(rs, r), number)
  {
    PushedCases(rs, r);
    var p := Pushed(rs, r);
    assert p[0].number >= rs[0].number && (|p| == 2 ==> p[1] == p[|p| - 1]);
    if number != r.number && Contains(rs, number) {
      var j :| 0 <= j < |rs| && rs[j].number == number;
      assert
        || (j < |p| && p[j].number == number)
        || (j == 0 && |p| == 2 && p[1].number == number)
        || number < p[|p| - 1].number;
    }
  }

  /** `binary_search_by_key` on a vector with falling numbers. */
  method BinarySearch(rounds: seq<CompletedRound>, number: nat) returns (found: bool, idx: nat)
    requires Descending(rounds)
    ensures idx == Position(rounds, number) && (found <==> idx < |rounds| && rounds[idx].number == number)
  {
    var lo, hi := 0, |rounds|;
    while lo < hi
      invariant 0 <= lo <= hi <= |rounds|
      invariant forall j :: 0 <= j < lo ==> rounds[j].number > number
      invariant forall j :: hi <= j < |rounds| ==> rounds[j].number < number
    {
      var mid := (lo + hi) / 2;
      if rounds[mid].number == number {
        PositionUnique(rounds, number, mid);
        return true, mid;
      } else if rounds[mid].number > number {
        lo := mid + 1;
      } else {
        hi := mid;
      }
    }
    PositionUnique(rounds, number, lo);
    return false, lo;
  }

  lemma PositionUnique(rounds: seq<CompletedRound>, number: nat, i: nat)
    requires Descending(rounds) && i <= |rounds|
    requires forall j :: 0 <= j < i ==> rounds[j].number > number
    requires i < |rounds| ==> rounds[i].number <= number
    ensures Position(rounds, number) == i
  {
    var p := Position(rounds, number);
    assert !(p < i) && !(i < p);
  }

  method Push(rounds: seq<CompletedRound>, r: CompletedRound) returns (out: seq<CompletedRound>)
    requires Descending(rounds)
    ensures out == Pushed(rounds, r)
  {
    var found, idx := BinarySearch(rounds, r.number);
    out := if found then rounds[idx := r] else rounds[..idx] + [r] + rounds[idx..];
    if |out| > NUM_LAST_COMPLETED_ROUNDS { out := out[..|out| - 1]; }
  }

  // ---------------------------------------------------------------- votes

  datatype Vote =
    | Propose(proposal: Blob)
    | Prevote(primary: Option<Blob>, prevote: Blob)
    | Precommit(primary: Option<Blob>, prevote: Blob, precommit: Blob)

  datatype HasVoted = No | Yes(id: Blob, vote: Vote) {
    function Proposal(): Option<Blob> {
      match this
      case Yes(_, Propose(p)) => Some(p)
      case Yes(_, Prevote(p, _)) => p
      case Yes(_, Precommit(p, _, _)) => p
      case No => None
    }

    function PrevoteCast(): Option<Blob> {
      match this
      case Yes(_, Prevote(_, v)) => Some(v)
      case Yes(_, Precommit(_, v, _)) => Some(v)
      case _ => None
    }

    function PrecommitCast(): Option<Blob> {
      match this
      case Yes(_, Precommit(_, _, c)) => Some(c)
      case _ => None
    }
  }

  datatype VoterSetState =
    | Live(completed: CompletedRounds, current: map<nat, HasVoted>)
    | Paused(completed: CompletedRounds)

  /** `VoterSetState::live`: round 0 is complete, round 1 is live. */
  function Fresh(setId: nat, voters: Blob, base: Blob): VoterSetState {
    Live(CompletedRounds([CompletedRound(0, base, base, [])], setId, voters), map[1 := No])
  }

  datatype Call =
    | Proposed(round: nat, proposal: Blob)
    | Prevoted(round: nat, prevote: Blob)
    | Precommitted(round: nat, precommit: Blob)
    | Completed(round: nat, state: Blob, base: Blob, votes: seq<Blob>)
    | Concluded(round: nat, state: Blob, votes: seq<Blob>)
    | ChangeAuthorities(setId: nat, voters: Blob, base: Blob)
    | Pause

  /** What the update closure decides: persist a new state, leave the old one, or report a safety error. */
  datatype Decision = Write(state: VoterSetState) | Keep | Unsafe

  function Recorded(s: VoterSetState, round: nat, id: Blob, vote: Vote): VoterSetState
    requires s.Live?
  {
    s.(current := s.current[round := Yes(id, vote)])
  }

  function DecideVote(s: VoterSetState, id: Blob, call: Call): Decision
    requires call.Proposed? || call.Prevoted? || call.Precommitted?
  {
    if !s.Live? || call.round !in s.current then Unsafe
    else
      var cast := s.current[call.round];
      match call
      case Proposed(round, p) =>
        if cast.Proposal().Some? then Keep else Write(Recorded(s, round, id, Propose(p)))
      case Prevoted(round, v) =>
        if cast.PrevoteCast().Some? then Keep else Write(Recorded(s, round, id, Prevote(cast.Proposal(), v)))
      case Precommitted(round, c) =>
        if cast.PrecommitCast().Some? then Keep
        else if cast.Yes? && cast.vote.Prevote? then
          Write(Recorded(s, round, id, Precommit(cast.Proposal(), cast.vote.prevote, c)))
        else Unsafe
  }

  /** Extend the votes of an already completed round; the new list has the old one as a prefix. */
  function Conclude(rounds: seq<CompletedRound>, round: nat, state: Blob, votes: seq<Blob>): seq<CompletedRound> {
    if rounds == [] then []
    else if rounds[0].number == round then
      var known := |rounds[0].votes|;
      var more := if known <= |votes| then votes[known..] else [];
      [rounds[0].(state := state, votes := rounds[0].votes + more)] + rounds[1..]
    else [rounds[0]] + Conclude(rounds[1..], round, state, votes)
  }

  /** `id` is the local key, when it belongs to the voter set. */
  function Decide(s: VoterSetState, id: Option<Blob>, call: Call): Decision {
    match call
    case Proposed(_, _) => if id.None? then Keep else DecideVote(s, id.value, call)
    case Prevoted(_, _) => if id.None? then Keep else DecideVote(s, id.value, call)
    case Precommitted(_, _) => if id.None? then Keep else DecideVote(s, id.value, call)
    case Completed(round, state, base, votes) =>
      if !s.Live? then Unsafe
      else Write(Live(s.completed.(rounds := Pushed(s.completed.rounds, CompletedRound(round, state, base, votes))),
                      (s.current - {round})[round + 1 := No]))
    case Concluded(round, state, votes) =>
      if !s.Live? then Unsafe
      else Write(s.(completed := s.completed.(rounds := Conclude(s.completed.rounds, round, state, votes))))
    case ChangeAuthorities(setId, voters, base) => Write(Fresh(setId, voters, base))
    case Pause => Write(Paused(s.completed))
  }

  /** Whether the write of the auxiliary data succeeds, and whether the node stops around it. */
  datatype Fate = Succeeds | Fails | StopsBefore | StopsAfter

  /** The state in memory and on disk. `update_voter_set_state` holds the write lock throughout. */
  class SharedVoterSetState {
    var state: VoterSetState
    var disk: VoterSetState

    constructor (setId: nat, voters: Blob, base: Blob)
      ensures state == disk == Fresh(setId, voters, base)
    {
      state := Fresh(setId, voters, base);
      disk := Fresh(setId, voters, base);
    }

    /** Persist first, replace the state in memory second. */
    method Update(decision: Decision, fate: Fate) returns (ok: bool)
      modifies this
      ensures ok <==> decision.Keep? || (decision.Write? && fate.Succeeds?)
      ensures disk == if decision.Write? && (fate.Succeeds? || fate.StopsAfter?) then decision.state else old(disk)
      ensures state == if decision.Write? && fate.Succeeds? then decision.state else old(state)
    {
      match decision {
        case Unsafe => return false;
        case Keep => return true;
        case Write(s) =>
          if fate.Fails? || fate.StopsBefore? { return false; }
          disk := s;
          if fate.StopsAfter? { return false; }
          state := s;
          return true;
      }
    }

    method CastProposal(id: Option<Blob>, round: nat, proposal: Blob, fate: Fate) returns (ok: bool)
      modifies this
      ensures var d := Decide(old(state), id, Proposed(round, proposal));
              && state == (if d.Write? && fate.Succeeds? then d.state else old(state))
              && disk == (if d.Write? && (fate.Succeeds? || fate.StopsAfter?) then d.state else old(disk))
    {
      if id.None? { return true; }
      var decision := Unsafe;
      if state.Live? && round in state.current {
        if state.current[round].Proposal().Some? {
          decision := Keep;
        } else {
          var current := state.current;
          current := current[round := Yes(id.value, Propose(proposal))];
          decision := Write(Live(state.completed, current));
        }
      }
      ok := Update(decision, fate);
    }

    method CastPrevote(id: Option<Blob>, round: nat, prevote: Blob, fate: Fate) returns (ok: bool)
      modifies this
      ensures var d := Decide(old(state), id, Prevoted(round, prevote));
              && state == (if d.Write? && fate.Succeeds? then d.state else old(state))
              && disk == (if d.Write? && (fate.Succeeds? || fate.StopsAfter?) then d.state else old(disk))
    {
      if id.None? { return true; }
      var decision := Unsafe;
      if state.Live? && round in state.current {
        if state.current[round].PrevoteCast().Some? {
          decision := Keep;
        } else {
          var current := state.current;
          current := current[round := Yes(id.value, Prevote(current[round].Proposal(), prevote))];
          decision := Write(Live(state.completed, current));
        }
      }
      ok := Update(decision, fate);
    }

    method CastPrecommit(id: Option<Blob>, round: nat, precommit: Blob, fate: Fate) returns (ok: bool)
      modifies this
      ensures var d := Decide(old(state), id, Precommitted(round, precommit));
              && state == (if d.Write? && fate.Succeeds? then d.state else old(state))
              && disk == (if d.Write? && (fate.Succeeds? || fate.StopsAfter?) then d.state else old(disk))
    {
      if id.None? { return true; }
      var decision := Unsafe;
      if state.Live? && round in state.current {
        var cast := state.current[round];
        if cast.PrecommitCast().Some? {
          decision := Keep;
        } else if cast.Yes? && cast.vote.Prevote? {
          var current := state.current;
          current := current[round := Yes(id.value, Precommit(cast.Proposal(), cast.vote.prevote, precommit))];
          decision := Write(Live(state.completed, current));
        }
      }
      ok := Update(decision, fate);
    }

    method CompleteRound(round: nat, roundState: Blob, base: Blob, votes: seq<Blob>, fate: Fate) returns (ok: bool)
      requires Descending(state.completed.rounds)
      modifies this
      ensures var d := Decide(old(state), None, Completed(round, roundState, base, votes));
              && state == (if d.Write? && fate.Succeeds? then d.state else old(state))
              && disk == (if d.Write? && (fate.Succeeds? || fate.StopsAfter?) then d.state else old(disk))
    {
      var decision := Unsafe;
      if state.Live? {
        var rounds := Push(state.completed.rounds, CompletedRound(round, roundState, base, votes));
        var current := state.current - {round};
        current := current[round + 1 := No];
        decision := Write(Live(state.completed.(rounds := rounds), current));
      }
      ok := Update(decision, fate);
    }

    /** Restarting reads the persisted state back. */
    method Restart()
      modifies this
      ensures state == old(disk) && disk == old(disk)
    {
      state := disk;
    }
  }
}
