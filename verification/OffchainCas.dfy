/** Compare-and-set of the offchain storage, as steps of any number of threads.

A call looks its key's lock up in a shared map (creating it when missing), takes it, reads, maybe
writes, releases it, and finally removes the lock from the map when nobody else refers to it. */
module OffchainCas {
  import opened BlockTree

  type Key = nat
  type Value = nat

  /** Where a call is. From `Waiting` to `Cleaning` the thread holds a reference to a lock object. */
  datatype Pc = Starting | Waiting | Reading | Writing | Releasing | Cleaning | Done

  /** `call` numbers the call, `since` is the length of the history when it began. */
  datatype Thread = Thread(
    pc: Pc, call: nat, since: nat, key: Key, expected: Option<Value>, value: Value, lock: nat, ok: bool)
  {
    predicate HasReference() { pc.Waiting? || InSection() || pc.Cleaning? }
    predicate InSection() { pc.Reading? || pc.Writing? || pc.Releasing? }
    predicate Decided() { pc.Releasing? || pc.Cleaning? || pc.Done? }
  }

  datatype Event =
    | Cas(call: nat, key: Key, expected: Option<Value>, value: Value, ok: bool)
    | Put(key: Key, value: Value)

  datatype State = State(
    locks: map<Key, nat>, owner: map<nat, nat>, nextLock: nat,
    db: map<Key, Value>, threads: map<nat, Thread>, nextCall: nat, history: seq<Event>)

  function Get(db: map<Key, Value>, k: Key): Option<Value> {
    if k in db then Some(db[k]) else None
  }

  /** The steps of calls and of plain writes. A read that fails counts as a missing value, and a write
  that fails is only logged; `readable` and `stored` say which of them succeed. */
  datatype Step =
    | Invoke(t: nat, key: Key, expected: Option<Value>, value: Value)
    | Lookup(t: nat) | Acquire(t: nat) | Release(t: nat) | Clean(t: nat) | Return(t: nat)
    | Read(t: nat, readable: bool) | Write(t: nat, stored: bool)
    | PlainSet(key: Key, value: Value, stored: bool)

  function WithPc(s: State, t: nat, pc: Pc): State
    requires t in s.threads
  {
    s.(threads := s.threads[t := s.threads[t].(pc := pc)])
  }

  function EventOf(th: Thread, ok: bool): Event {
    Cas(th.call, th.key, th.expected, th.value, ok)
  }

  /** Somebody else still refers to the lock of `k`: its reference count is above one. */
  ghost predicate SharedByOthers(s: State, t: nat, k: Key) {
    && k in s.locks
    && exists u :: u in s.threads && u != t && s.threads[u].HasReference() && s.threads[u].lock == s.locks[k]
  }

  ghost predicate Enabled(s: State, step: Step) {
    match step
    case Invoke(t, _, _, _) => t !in s.threads
    case PlainSet(_, _, _) => true
    case Lookup(t) => t in s.threads && s.threads[t].pc.Starting?
    case Acquire(t) => t in s.threads && s.threads[t].pc.Waiting? && s.threads[t].lock !in s.owner
    case Read(t, _) => t in s.threads && s.threads[t].pc.Reading?
    case Write(t, _) => t in s.threads && s.threads[t].pc.Writing?
    case Release(t) => t in s.threads && s.threads[t].pc.Releasing?
    case Clean(t) => t in s.threads && s.threads[t].pc.Cleaning?
    case Return(t) => t in s.threads && s.threads[t].pc.Done?
  }

  function Seen(s: State, k: Key, readable: bool): Option<Value> {
    if readable then Get(s.db, k) else None
  }

  ghost function Next(s: State, step: Step): State
    requires Enabled(s, step)
  {
    match step
    case Invoke(t, key, expected, value) =>
      s.(threads := s.threads[t := Thread(Starting, s.nextCall, |s.history|, key, expected, value, 0, false)],
         nextCall := s.nextCall + 1)
    case PlainSet(key, value, stored) =>
      s.(db := if stored then s.db[key := value] else s.db, history := s.history + [Put(key, value)])
    case Lookup(t) =>
      var th := s.threads[t];
      var lock := if th.key in s.locks then s.locks[th.key] else s.nextLock;
      s.(locks := s.locks[th.key := lock], nextLock := s.nextLock + 1,
         threads := s.threads[t := th.(pc := Waiting, lock := lock)])
    case Acquire(t) =>
      WithPc(s, t, Reading).(owner := s.owner[s.threads[t].lock := t])
    case Read(t, readable) =>
      var th := s.threads[t];
      if Seen(s, th.key, readable) == th.expected then WithPc(s, t, Writing)
      else s.(threads := s.threads[t := th.(pc := Releasing, ok := false)], history := s.history + [EventOf(th, false)])
    case Write(t, stored) =>
      var th := s.threads[t];
      s.(db := if stored then s.db[th.key := th.value] else s.db,
         threads := s.threads[t := th.(pc := Releasing, ok := true)],
         history := s.history + [EventOf(th, true)])
    case Release(t) =>
      WithPc(s, t, Cleaning).(owner := s.owner - {s.threads[t].lock})
    case Clean(t) =>
      var th := s.threads[t];
      var kept := if SharedByOthers(s, t, th.key) then s.locks else s.locks - {th.key};
      WithPc(s, t, Done).(locks := kept)
    case Return(t) =>
      s.(threads := s.threads - {t})
  }

  // ---------------------------------------------------------------- the sequential specification

  function Replay(history: seq<Event>): map<Key, Value> {
    if history == [] then map[]
    else
      var db, e := Replay(history[..|history| - 1]), history[|history| - 1];
      if e.Put? || e.ok then db[e.key := e.value] else db
  }

  /** Every compare-and-set succeeded exactly when the value before it was the expected one. */
  ghost predicate Legal(history: seq<Event>) {
    forall i :: 0 <= i < |history| && history[i].Cas? ==>
      (history[i].ok <==> Get(Replay(history[..i]), history[i].key) == history[i].expected)
  }

  /** One more event keeps a history legal exactly when it answers rightly. */
  lemma HistoryGrows(history: seq<Event>, e: Event)
    requires Legal(history)
    ensures Legal(history + [e]) <==> (e.Cas? ==> (e.ok <==> Get(Replay(history), e.key) == e.expected))
    ensures Replay(history + [e]) == if e.Put? || e.ok then Replay(history)[e.key := e.value] else Replay(history)
  {
    var h := history + [e];
    assert h[..|history|] == history && h[|history|] == e;
    forall i | 0 <= i < |history| && h[i].Cas?
      ensures h[i].ok <==> Get(Replay(h[..i]), h[i].key) == h[i].expected
    {
      assert h[..i] == history[..i] && h[i] == history[i];
    }
  }

  // ---------------------------------------------------------------- the invariant

  /** Between lookup and cleanup a thread holds the lock object that the map holds for its key. */
  ghost predicate SameLock(s: State) {
    forall t :: t in s.threads && s.threads[t].HasReference() ==>
      s.threads[t].key in s.locks && s.locks[s.threads[t].key] == s.threads[t].lock
  }

  ghost predicate LocksDistinct(s: State) {
    && (forall k :: k in s.locks ==> s.locks[k] < s.nextLock)
    && (forall j, k :: j in s.locks && k in s.locks && j != k ==> s.locks[j] != s.locks[k])
  }

  /** No residue: every lock in the map belongs to a call in flight. */
  ghost predicate LocksUsed(s: State) {
    forall k :: k in s.locks ==> exists t :: t in s.threads && s.threads[t].HasReference() && s.threads[t].key == k
  }

  ghost predicate OwnersMatch(s: State) {
    && (forall l :: l in s.owner ==>
          s.owner[l] in s.threads && s.threads[s.owner[l]].InSection() && s.threads[s.owner[l]].lock == l)
    && (forall t :: t in s.threads && s.threads[t].InSection() ==>
          s.threads[t].lock in s.owner && s.owner[s.threads[t].lock] == t)
  }

  /** What a thread about to write has read is still there. */
  ghost predicate ReadsHold(s: State) {
    forall t :: t in s.threads && s.threads[t].pc.Writing? ==> Get(s.db, s.threads[t].key) == s.threads[t].expected
  }

  ghost predicate Before(h: seq<Event>, th: Thread) {
    th.since <= |h| && forall i :: 0 <= i < |h| && h[i].Cas? ==> h[i].call != th.call
  }

  ghost predicate HasEventAt(h: seq<Event>, th: Thread, i: nat) {
    i < |h| && h[i] == EventOf(th, th.ok)
  }

  /** The part of the invariant about locks and owners. */
  ghost predicate LockInv(s: State) {
    SameLock(s) && LocksDistinct(s) && LocksUsed(s) && OwnersMatch(s)
  }

  /** Calls and their events carry distinct numbers. */
  ghost predicate CallsNumbered(s: State) {
    && (forall t :: t in s.threads ==> s.threads[t].call < s.nextCall)
    && (forall t, u :: t in s.threads && u in s.threads && t != u ==> s.threads[t].call != s.threads[u].call)
    && (forall i :: 0 <= i < |s.history| && s.history[i].Cas? ==> s.history[i].call < s.nextCall)
    && (forall i, j :: 0 <= i < j < |s.history| && s.history[i].Cas? && s.history[j].Cas? ==>
          s.history[i].call != s.history[j].call)
  }

  /** A call that has not been decided has no event yet. */
  ghost predicate Undecided(s: State) {
    forall t :: t in s.threads && !s.threads[t].Decided() ==> Before(s.history, s.threads[t])
  }

  /** A decided call has its event in the history, after the call began. */
  ghost predicate Decided(s: State) {
    forall t :: t in s.threads && s.threads[t].Decided() ==>
      exists i :: s.threads[t].since <= i && HasEventAt(s.history, s.threads[t], i)
  }

  /** What every step keeps, whatever else happens to the database. */
  ghost predicate Orderly(s: State) {
    LockInv(s) && CallsNumbered(s) && Undecided(s) && Decided(s)
  }

  /** What is stored is the outcome of a legal sequential history. */
  ghost predicate Atomic(s: State) { Legal(s.history) && Replay(s.history) == s.db }

  ghost predicate Inv(s: State) {
    Orderly(s) && ReadsHold(s) && Atomic(s)
  }

  // ---------------------------------------------------------------- each step keeps the invariant

  /** Steps that leave the lock map alone and the thread's key, lock and reference as they were. */
  lemma PcKeepsUse(s: State, n: State, t: nat)
    requires LocksUsed(s) && n.locks == s.locks && t in s.threads && n.threads.Keys == s.threads.Keys
    requires forall u :: u in s.threads && u != t ==> n.threads[u] == s.threads[u]
    requires n.threads[t].key == s.threads[t].key && (s.threads[t].HasReference() ==> n.threads[t].HasReference())
    ensures LocksUsed(n)
  {
    forall k | k in n.locks
      ensures exists u :: u in n.threads && n.threads[u].HasReference() && n.threads[u].key == k
    {
      var u :| u in s.threads && s.threads[u].HasReference() && s.threads[u].key == k;
      assert u in n.threads && n.threads[u].HasReference() && n.threads[u].key == k;
    }
  }

  /** A thread that stays inside or stays outside the critical section disturbs no owner. */
  lemma OwnersKept(s: State, n: State, t: nat, th: Thread)
    requires OwnersMatch(s) && t in s.threads && (th.InSection() <==> s.threads[t].InSection())
    requires th.InSection() ==> th.lock == s.threads[t].lock
    requires n.threads == s.threads[t := th] && n.owner == s.owner
    ensures OwnersMatch(n)
  {
    forall u | u in n.threads && n.threads[u].InSection()
      ensures n.threads[u].lock in n.owner && n.owner[n.threads[u].lock] == u
    {
      assert u in s.threads && s.threads[u].InSection() && s.threads[u].lock == n.threads[u].lock;
    }
  }

  lemma LookupKeepsUse(s: State, t: nat)
    requires LocksUsed(s) && Enabled(s, Lookup(t))
    ensures LocksUsed(Next(s, Lookup(t)))
  {
    var n := Next(s, Lookup(t));
    forall k | k in n.locks
      ensures exists u :: u in n.threads && n.threads[u].HasReference() && n.threads[u].key == k
    {
      if k == s.threads[t].key {
        assert t in n.threads && n.threads[t].HasReference() && n.threads[t].key == k;
      } else {
        var u :| u in s.threads && s.threads[u].HasReference() && s.threads[u].key == k;
        assert u in n.threads && n.threads[u].HasReference() && n.threads[u].key == k;
      }
    }
  }

  lemma LookupKeepsLocks(s: State, t: nat)
    requires LockInv(s) && Enabled(s, Lookup(t))
    ensures LockInv(Next(s, Lookup(t)))
  {
    LookupKeepsUse(s, t);
    OwnersKept(s, Next(s, Lookup(t)), t, Next(s, Lookup(t)).threads[t]);
  }

  /** The last thread to drop its reference removes the lock, and only the last one does. */
  lemma CleanKeepsUse(s: State, t: nat)
    requires LockInv(s) && Enabled(s, Clean(t))
    ensures LocksUsed(Next(s, Clean(t)))
    ensures s.threads[t].key in Next(s, Clean(t)).locks <==>
      exists u :: u in s.threads && u != t && s.threads[u].HasReference() && s.threads[u].key == s.threads[t].key
  {
    var n, k := Next(s, Clean(t)), s.threads[t].key;
    forall u | u in s.threads && u != t && s.threads[u].HasReference()
      ensures s.threads[u].lock == s.locks[k] <==> s.threads[u].key == k
    {
      assert s.locks[s.threads[u].key] == s.threads[u].lock;
    }
    forall j | j in n.locks
      ensures exists u :: u in n.threads && n.threads[u].HasReference() && n.threads[u].key == j
    {
      var u :| u in s.threads && s.threads[u].HasReference() && s.threads[u].key == j && (j == k ==> u != t);
      assert u in n.threads && n.threads[u].HasReference() && n.threads[u].key == j;
    }
  }

  lemma CleanKeepsLocks(s: State, t: nat)
    requires LockInv(s) && Enabled(s, Clean(t))
    ensures LockInv(Next(s, Clean(t)))
  {
    var n := Next(s, Clean(t));
    CleanKeepsUse(s, t);
    OwnersKept(s, n, t, n.threads[t]);
    forall u | u in n.threads && n.threads[u].HasReference()
      ensures n.threads[u].key in n.locks && n.locks[n.threads[u].key] == n.threads[u].lock
    {
      assert u in s.threads && u != t && n.threads[u] == s.threads[u];
    }
  }

  lemma AcquireKeepsOwners(s: State, t: nat)
    requires OwnersMatch(s) && Enabled(s, Acquire(t))
    ensures OwnersMatch(Next(s, Acquire(t)))
  {
    var n := Next(s, Acquire(t));
    assert forall u :: u in s.threads && u != t ==> n.threads[u] == s.threads[u];
  }

  lemma AcquireKeepsLocks(s: State, t: nat)
    requires LockInv(s) && Enabled(s, Acquire(t))
    ensures LockInv(Next(s, Acquire(t)))
  {
    PcKeepsUse(s, Next(s, Acquire(t)), t);
    AcquireKeepsOwners(s, t);
  }

  lemma ReleaseKeepsOwners(s: State, t: nat)
    requires OwnersMatch(s) && Enabled(s, Release(t))
    ensures OwnersMatch(Next(s, Release(t)))
  {
    var n := Next(s, Release(t));
    assert forall u :: u in s.threads && u != t ==> n.threads[u] == s.threads[u];
  }

  lemma ReleaseKeepsLocks(s: State, t: nat)
    requires LockInv(s) && Enabled(s, Release(t))
    ensures LockInv(Next(s, Release(t)))
  {
    PcKeepsUse(s, Next(s, Release(t)), t);
    ReleaseKeepsOwners(s, t);
  }

  /** Moving inside the critical section disturbs no lock and no owner. */
  lemma SectionKeepsLocks(s: State, n: State, t: nat, th: Thread)
    requires LockInv(s) && t in s.threads && s.threads[t].InSection()
    requires th.InSection() && th.key == s.threads[t].key && th.lock == s.threads[t].lock
    requires n.threads == s.threads[t := th] && n.locks == s.locks && n.owner == s.owner && n.nextLock == s.nextLock
    ensures LockInv(n)
  {
    PcKeepsUse(s, n, t);
    OwnersKept(s, n, t, th);
  }

  lemma EdgeKeepsUse(s: State, step: Step)
    requires LocksUsed(s) && Enabled(s, step) && (step.Invoke? || step.Return? || step.PlainSet?)
    ensures LocksUsed(Next(s, step))
  {
    var n := Next(s, step);
    forall k | k in n.locks
      ensures exists u :: u in n.threads && n.threads[u].HasReference() && n.threads[u].key == k
    {
      var u :| u in s.threads && s.threads[u].HasReference() && s.threads[u].key == k;
      assert u in n.threads && n.threads[u].HasReference() && n.threads[u].key == k;
    }
  }

  lemma EdgeKeepsLocks(s: State, step: Step)
    requires LockInv(s) && Enabled(s, step) && (step.Invoke? || step.Return? || step.PlainSet?)
    ensures LockInv(Next(s, step))
  {
    EdgeKeepsUse(s, step);
  }

  lemma StepKeepsLocks(s: State, step: Step)
    requires LockInv(s) && Enabled(s, step)
    ensures LockInv(Next(s, step))
  {
    match step
    case Lookup(t) => LookupKeepsLocks(s, t);
    case Clean(t) => CleanKeepsLocks(s, t);
    case Acquire(t) => AcquireKeepsLocks(s, t);
    case Read(t, _) => SectionKeepsLocks(s, Next(s, step), t, Next(s, step).threads[t]);
    case Write(t, _) => SectionKeepsLocks(s, Next(s, step), t, Next(s, step).threads[t]);
    case Release(t) => ReleaseKeepsLocks(s, t);
    case Invoke(_, _, _, _) => EdgeKeepsLocks(s, step);
    case Return(_) => EdgeKeepsLocks(s, step);
    case PlainSet(_, _, _) => EdgeKeepsLocks(s, step);
  }

  /** A plain write is harmless unless it changes a value that a thread about to write has read. */
  ghost predicate HarmlessSet(s: State, key: Key, value: Value) {
    forall t :: t in s.threads && s.threads[t].pc.Writing? && s.threads[t].key == key ==>
      s.threads[t].expected == Some(value)
  }

  /** The step leaves every thread about to write with the value it expects. */
  ghost predicate LeavesReads(s: State, step: Step)
    requires Enabled(s, step)
  {
    match step
    case Read(t, readable) =>
      var th := s.threads[t];
      Seen(s, th.key, readable) == th.expected ==> Get(s.db, th.key) == th.expected
    case PlainSet(key, value, stored) => stored ==> HarmlessSet(s, key, value)
    case _ => true
  }

  /** Two threads never run the critical section of one key at the same time. */
  ghost predicate SectionsExclude(s: State) {
    forall t, u | t in s.threads && u in s.threads && s.threads[t].InSection() && s.threads[u].InSection() ::
      s.threads[t].key == s.threads[u].key ==> t == u
  }

  /** What threads about to write have read stays in place exactly when plain writes are harmless and
  no failed read passes for a missing value. */
  lemma StepKeepsReads(s: State, step: Step)
    requires LockInv(s) && ReadsHold(s) && Enabled(s, step)
    ensures ReadsHold(Next(s, step)) <==> LeavesReads(s, step)
  {
    var n := Next(s, step);
    if step.PlainSet? {
      forall t | t in s.threads
        ensures n.threads[t] == s.threads[t]
      {}
    } else if step.Write? {
      assert SectionsExclude(s);
      assert n.threads[step.t].pc.Releasing?;
    } else if step.Read? {
      var th := s.threads[step.t];
      assert n.db == s.db && forall u :: u in s.threads && u != step.t ==> n.threads[u] == s.threads[u];
      assert n.threads[step.t].pc.Writing? <==> Seen(s, th.key, step.readable) == th.expected;
      assert n.threads[step.t].key == th.key && n.threads[step.t].expected == th.expected;
    }
  }

  /** A step's event, if it has one: a comparison that fails, a write that succeeds, a plain write. */
  function EventOfStep(s: State, step: Step): Option<Event> {
    match step
    case PlainSet(key, value, _) => Some(Put(key, value))
    case Write(t, _) => if t in s.threads then Some(EventOf(s.threads[t], true)) else None
    case Read(t, readable) =>
      if t in s.threads && Seen(s, s.threads[t].key, readable) != s.threads[t].expected
      then Some(EventOf(s.threads[t], false))
      else None
    case _ => None
  }

  /** The step tells the truth about what is stored when it takes effect: a comparison that fails does
  differ, a swap still finds the value it expects, and what is written gets stored. */
  ghost predicate Truthful(s: State, step: Step)
    requires Enabled(s, step)
  {
    match step
    case Read(t, readable) =>
      var th := s.threads[t];
      Seen(s, th.key, readable) == th.expected || Get(s.db, th.key) != th.expected
    case Write(t, stored) =>
      var th := s.threads[t];
      Get(s.db, th.key) == th.expected && (stored || Get(s.db, th.key) == Some(th.value))
    case PlainSet(key, value, stored) => stored || Get(s.db, key) == Some(value)
    case _ => true
  }

  /** A step extends a sequential history exactly when it is truthful. */
  lemma StepKeepsHistory(s: State, step: Step)
    requires Enabled(s, step) && Atomic(s)
    ensures Atomic(Next(s, step)) <==> Truthful(s, step)
  {
    match step
    case Read(t, _) => HistoryGrows(s.history, EventOf(s.threads[t], false));
    case Write(t, _) => HistoryGrows(s.history, EventOf(s.threads[t], true));
    case PlainSet(key, value, _) => HistoryGrows(s.history, Put(key, value));
    case _ => QuietStep(s, step);
  }

  lemma QuietStep(s: State, step: Step)
    requires Enabled(s, step) && !step.Read? && !step.Write? && !step.PlainSet?
    ensures Next(s, step).history == s.history && Next(s, step).db == s.db && Truthful(s, step)
  {
  }

  lemma HistoryAfter(s: State, step: Step)
    requires Enabled(s, step)
    ensures var e := EventOfStep(s, step);
      Next(s, step).history == if e.Some? then s.history + [e.value] else s.history
  {
  }

  /** The event of a step is that of a call without an event so far. */
  lemma NewEvent(s: State, step: Step)
    requires Undecided(s) && Enabled(s, step)
    ensures var e := EventOfStep(s, step);
      e.Some? && e.value.Cas? ==>
        && (step.Read? || step.Write?) && e.value.call == s.threads[step.t].call
        && Before(s.history, s.threads[step.t])
  {
  }

  lemma StepKeepsThreadNumbers(s: State, step: Step)
    requires CallsNumbered(s) && Enabled(s, step)
    ensures var n := Next(s, step);
      && s.nextCall <= n.nextCall
      && (forall t :: t in n.threads ==> n.threads[t].call < n.nextCall)
      && (forall t, u :: t in n.threads && u in n.threads && t != u ==> n.threads[t].call != n.threads[u].call)
  {
  }

  lemma StepKeepsNumbers(s: State, step: Step)
    requires CallsNumbered(s) && Undecided(s) && Enabled(s, step)
    ensures CallsNumbered(Next(s, step))
  {
    var n, e := Next(s, step), EventOfStep(s, step);
    StepKeepsThreadNumbers(s, step);
    HistoryAfter(s, step);
    NewEvent(s, step);
    assert forall i :: 0 <= i < |s.history| ==> n.history[i] == s.history[i];
  }

  lemma StepKeepsUndecided(s: State, step: Step)
    requires CallsNumbered(s) && Undecided(s) && Enabled(s, step)
    ensures Undecided(Next(s, step))
  {
    var n := Next(s, step);
    HistoryAfter(s, step);
    NewEvent(s, step);
    forall t | t in n.threads && !n.threads[t].Decided()
      ensures Before(n.history, n.threads[t])
    {
      if !step.Invoke? || t != step.t { assert Before(s.history, s.threads[t]); }
    }
  }

  lemma StepKeepsDecisions(s: State, step: Step)
    requires Decided(s) && Undecided(s) && Enabled(s, step)
    ensures Decided(Next(s, step))
  {
    var n, e := Next(s, step), EventOfStep(s, step);
    assert n.history == if e.Some? then s.history + [e.value] else s.history;
    forall t | t in n.threads && n.threads[t].Decided()
      ensures exists i :: n.threads[t].since <= i && HasEventAt(n.history, n.threads[t], i)
    {
      if s.threads[t].Decided() {
        var i :| s.threads[t].since <= i && HasEventAt(s.history, s.threads[t], i);
        assert HasEventAt(n.history, n.threads[t], i);
      } else {
        assert Before(s.history, s.threads[t]);
        assert HasEventAt(n.history, n.threads[t], |s.history|);
      }
    }
  }

  lemma StepKeepsOrder(s: State, step: Step)
    requires Orderly(s) && Enabled(s, step)
    ensures Orderly(Next(s, step))
  {
    StepKeepsLocks(s, step);
    StepKeepsNumbers(s, step);
    StepKeepsUndecided(s, step);
    StepKeepsDecisions(s, step);
  }

  ghost predicate Harmless(s: State, step: Step)
    requires Enabled(s, step)
  {
    LeavesReads(s, step) && Truthful(s, step)
  }

  lemma StepKeepsInvIff(s: State, step: Step)
    requires Inv(s) && Enabled(s, step)
    ensures Inv(Next(s, step)) <==> Harmless(s, step)
  {
    StepKeepsOrder(s, step);
    StepKeepsReads(s, step);
    StepKeepsHistory(s, step);
  }

  // ---------------------------------------------------------------- whole runs

  const INITIAL := State(map[], map[], 0, map[], map[], 0, [])

  /** `steps` can be taken one after the other from `s`. */
  ghost predicate IsRun(s: State, steps: seq<Step>)
    decreases |steps|
  {
    steps == [] || (Enabled(s, steps[0]) && IsRun(Next(s, steps[0]), steps[1..]))
  }

  ghost function After(s: State, steps: seq<Step>): State
    requires IsRun(s, steps)
    decreases |steps|
  {
    if steps == [] then s else After(Next(s, steps[0]), steps[1..])
  }

  lemma {:induction false} RunKeepsOrder(s: State, steps: seq<Step>)
    requires Orderly(s) && IsRun(s, steps)
    ensures Orderly(After(s, steps))
    decreases |steps|
  {
    if steps != [] {
      StepKeepsOrder(s, steps[0]);
      RunKeepsOrder(Next(s, steps[0]), steps[1..]);
    }
  }

  /** In every state that any interleaving reaches, with any plain writes and any failures of the
  database: critical sections of one key exclude each other, the lock map holds exactly the keys of
  calls in flight, and every finished call has its own event in the history, placed after the call
  began and carrying the answer it returns. */
  lemma LocksAlwaysExclude(steps: seq<Step>)
    requires IsRun(INITIAL, steps)
    ensures var s := After(INITIAL, steps);
      && SectionsExclude(s)
      && s.locks.Keys == (set t | t in s.threads && s.threads[t].HasReference() :: s.threads[t].key)
      && Decided(s) && CallsNumbered(s)
  {
    RunKeepsOrder(INITIAL, steps);
    var s := After(INITIAL, steps);
    assert SectionsExclude(s);
    forall k | k in s.locks
      ensures k in set t | t in s.threads && s.threads[t].HasReference() :: s.threads[t].key
    {
      var t :| t in s.threads && s.threads[t].HasReference() && s.threads[t].key == k;
    }
  }

  ghost predicate AtomicThroughout(s: State, steps: seq<Step>)
    requires IsRun(s, steps)
    decreases |steps|
  {
    Atomic(s) && (steps != [] ==> AtomicThroughout(Next(s, steps[0]), steps[1..]))
  }

  ghost predicate AllTruthful(s: State, steps: seq<Step>)
    requires IsRun(s, steps)
    decreases |steps|
  {
    steps != [] ==> Truthful(s, steps[0]) && AllTruthful(Next(s, steps[0]), steps[1..])
  }

  /** Atomicity of a run, exactly: at every point what is stored is the outcome of a legal sequential
  history if and only if every step is truthful when it takes effect. */
  lemma {:induction false} RunIsAtomicIff(s: State, steps: seq<Step>)
    requires IsRun(s, steps) && Atomic(s)
    ensures AtomicThroughout(s, steps) <==> AllTruthful(s, steps)
    decreases |steps|
  {
    if steps != [] {
      var n := Next(s, steps[0]);
      StepKeepsHistory(s, steps[0]);
      if Atomic(n) { RunIsAtomicIff(n, steps[1..]); }
    }
  }

  // ---------------------------------------------------------------- runs without failures

  predicate Succeeds(step: Step) {
    (step.Read? ==> step.readable) && (step.Write? || step.PlainSet? ==> step.stored)
  }

  predicate AllSucceed(steps: seq<Step>) {
    forall i :: 0 <= i < |steps| ==> Succeeds(steps[i])
  }

  /** Every swap still finds the value it expects. */
  ghost predicate SwapsFindExpected(s: State, steps: seq<Step>)
    requires IsRun(s, steps)
    decreases |steps|
  {
    steps != [] ==>
      && (steps[0].Write? ==> Get(s.db, s.threads[steps[0].t].key) == s.threads[steps[0].t].expected)
      && SwapsFindExpected(Next(s, steps[0]), steps[1..])
  }

  lemma {:induction false} HistoryOnlyGrows(s: State, steps: seq<Step>)
    requires IsRun(s, steps)
    ensures s.history <= After(s, steps).history
    decreases |steps|
  {
    if steps != [] {
      HistoryAfter(s, steps[0]);
      HistoryOnlyGrows(Next(s, steps[0]), steps[1..]);
    }
  }

  lemma LegalPrefix(a: seq<Event>, b: seq<Event>)
    requires a <= b && Legal(b)
    ensures Legal(a)
  {
    forall i | 0 <= i < |a| && a[i].Cas?
      ensures a[i].ok <==> Get(Replay(a[..i]), a[i].key) == a[i].expected
    {
      assert a[..i] == b[..i] && a[i] == b[i];
    }
  }

  /** As long as the database does its part, the history of a run is legal exactly when every swap
  finds the value it expects; a plain write in between is harmful exactly when it spoils one. */
  lemma {:induction false} HistoryIsLegalIff(s: State, steps: seq<Step>)
    requires IsRun(s, steps) && Atomic(s) && AllSucceed(steps)
    ensures Legal(After(s, steps).history) <==> SwapsFindExpected(s, steps)
    decreases |steps|
  {
    if steps != [] {
      var n := Next(s, steps[0]);
      assert Succeeds(steps[0]);
      StepKeepsHistory(s, steps[0]);
      if Atomic(n) {
        HistoryIsLegalIff(n, steps[1..]);
      } else {
        ReplayFollows(s, steps[0]);
        HistoryOnlyGrows(n, steps[1..]);
        if Legal(After(s, steps).history) { LegalPrefix(n.history, After(s, steps).history); }
      }
    }
  }

  lemma ReplayFollows(s: State, step: Step)
    requires Enabled(s, step) && Atomic(s) && Succeeds(step)
    ensures Replay(Next(s, step).history) == Next(s, step).db
  {
    HistoryAfter(s, step);
    var e := EventOfStep(s, step);
    if e.Some? { HistoryGrows(s.history, e.value); }
  }

  ghost predicate AllHarmless(s: State, steps: seq<Step>)
    requires IsRun(s, steps)
    decreases |steps|
  {
    steps != [] ==> Harmless(s, steps[0]) && AllHarmless(Next(s, steps[0]), steps[1..])
  }

  lemma {:induction false} HarmlessIsAtomic(s: State, steps: seq<Step>)
    requires Inv(s) && IsRun(s, steps) && AllHarmless(s, steps)
    ensures AtomicThroughout(s, steps)
    decreases |steps|
  {
    if steps != [] {
      StepKeepsInvIff(s, steps[0]);
      HarmlessIsAtomic(Next(s, steps[0]), steps[1..]);
    }
  }

  lemma CallIsHarmless(s: State, step: Step)
    requires ReadsHold(s) && Enabled(s, step) && Succeeds(step) && !step.PlainSet?
    ensures Harmless(s, step)
  {
    match step
    case Read(_, _) =>
    case Write(_, _) =>
    case _ =>
  }

  /** Without plain writes and failures no step can do harm. */
  lemma {:induction false} CallsAreHarmless(s: State, steps: seq<Step>)
    requires Inv(s) && IsRun(s, steps) && AllSucceed(steps)
    requires forall i :: 0 <= i < |steps| ==> !steps[i].PlainSet?
    ensures AllHarmless(s, steps)
    decreases |steps|
  {
    if steps != [] {
      var step := steps[0];
      assert Succeeds(step) && !step.PlainSet?;
      CallIsHarmless(s, step);
      StepKeepsInvIff(s, step);
      CallsAreHarmless(Next(s, step), steps[1..]);
    }
  }

  /** Compare-and-set is atomic: when all writes go through it and the database does its part, at every
  point of every interleaving what is stored is the outcome of a legal sequential history. */
  lemma CompareAndSetIsAtomic(steps: seq<Step>)
    requires IsRun(INITIAL, steps) && AllSucceed(steps)
    requires forall i :: 0 <= i < |steps| ==> !steps[i].PlainSet?
    ensures AtomicThroughout(INITIAL, steps)
  {
    CallsAreHarmless(INITIAL, steps);
    HarmlessIsAtomic(INITIAL, steps);
  }

  // ---------------------------------------------------------------- what can go wrong

  const STORED := INITIAL.(db := map[7 := 1], history := [Put(7, 1)])

  /** Why plain writes matter: one that lands between the comparison and the write of another call is
  lost, and the call still answers that it swapped the value it expected. */
  lemma PlainSetBetweenReadAndWrite()
    ensures var s1 := Next(STORED, Invoke(0, 7, Some(1), 2));
      var s2 := Next(s1, Lookup(0));
      var s3 := Next(s2, Acquire(0));
      var s4 := Next(s3, Read(0, true));
      var s5 := Next(s4, PlainSet(7, 5, true));
      var s6 := Next(s5, Write(0, true));
      && s6.threads[0].ok && s6.db == map[7 := 2] && !Legal(s6.history)
  {
    var s4 := Next(Next(Next(Next(STORED, Invoke(0, 7, Some(1), 2)), Lookup(0)), Acquire(0)), Read(0, true));
    var h := Next(Next(s4, PlainSet(7, 5, true)), Write(0, true)).history;
    assert h == [Put(7, 1), Put(7, 5), Cas(0, 7, Some(1), 2, true)];
    assert h[..2] == [Put(7, 1), Put(7, 5)];
    assert h[2].Cas? && h[2].ok && Get(Replay(h[..2]), 7) == Some(5);
  }

  /** A write that fails: the call answers that it swapped the value, and the old one is still stored. */
  lemma FailedWriteAnswersSwapped()
    ensures var s1 := Next(STORED, Invoke(0, 7, Some(1), 2));
      var s2 := Next(s1, Lookup(0));
      var s3 := Next(s2, Acquire(0));
      var s4 := Next(s3, Read(0, true));
      var s5 := Next(s4, Write(0, false));
      && s5.threads[0].ok && s5.db == map[7 := 1] && !Atomic(s5)
  {
    var s4 := Next(Next(Next(Next(STORED, Invoke(0, 7, Some(1), 2)), Lookup(0)), Acquire(0)), Read(0, true));
    var h := Next(s4, Write(0, false)).history;
    assert h == [Put(7, 1), Cas(0, 7, Some(1), 2, true)];
    assert h[..1] == [Put(7, 1)];
    assert Replay(h)[7] == 2;
  }
}
