/**
  Who may write events into a planner session. Internal callbacks and the observer bridge share one write
  lock per session; the first internal callback takes the session over for good.
 */
module IngestOwner {
  import opened Wrappers

  datatype Owner = Observer | Internal

  /** `(board_id, session_key)` after normalisation. */
  datatype SessionKey = SessionKey(board: string, session: string)

  /** What `_observer_bridge_can_ingest` makes of the stored owner, and its answer. */
  function AfterPoll(owner: Option<Owner>): Option<Owner> {
    if owner.None? then Some(Observer) else owner
  }

  predicate MayIngest(owner: Option<Owner>) {
    owner != Some(Internal)
  }

  /** The module-level dictionaries. */
  class Arbiter {
    var owners: map<SessionKey, Owner>
    var locks: map<SessionKey, nat>
    var nextLock: nat

    /** Every lock was handed out for one session only. */
    ghost predicate Valid()
      reads this
    {
      && (forall k :: k in locks ==> locks[k] < nextLock)
      && forall k, l :: k in locks && l in locks && locks[k] == locks[l] ==> k == l
    }

    constructor ()
      ensures Valid() && owners == map[] && locks == map[]
    {
      owners, locks, nextLock := map[], map[], 0;
    }

    ghost function OwnerOf(key: SessionKey): Option<Owner>
      reads this
    {
      if key in owners then Some(owners[key]) else None
    }

    /** `_get_planner_session_write_lock`: one lock per session, the same one on every call. */
    method WriteLock(key: SessionKey) returns (lock: nat)
      requires Valid()
      modifies this
      ensures Valid() && owners == old(owners)
      ensures key in locks && locks[key] == lock && locks == old(locks)[key := lock]
      ensures key in old(locks) ==> lock == old(locks)[key]
      ensures forall k :: k in old(locks) && k != key ==> old(locks)[k] != lock
    {
      if key !in locks {
        locks := locks[key := nextLock];
        nextLock := nextLock + 1;
      }
      assert locks[key := locks[key]] == locks;
      lock := locks[key];
    }

    /** `_claim_planner_ingest_owner_for_internal`. */
    method ClaimForInternal(key: SessionKey) returns (previous: Option<Owner>)
      modifies this
      ensures previous == old(OwnerOf(key)) && OwnerOf(key) == Some(Internal)
      ensures owners == old(owners)[key := Internal] && locks == old(locks) && nextLock == old(nextLock)
    {
      previous := if key in owners then Some(owners[key]) else None;
      owners := owners[key := Internal];
    }

    /** `_observer_bridge_can_ingest`. */
    method ObserverCanIngest(key: SessionKey) returns (allowed: bool)
      modifies this
      ensures allowed <==> key !in old(owners) || old(owners)[key] == Observer
      ensures owners == if key in old(owners) then old(owners) else old(owners)[key := Observer]
      ensures allowed <==> MayIngest(old(OwnerOf(key)))
      ensures OwnerOf(key) == AfterPoll(old(OwnerOf(key)))
      ensures locks == old(locks) && nextLock == old(nextLock)
    {
      if key !in owners {
        owners := owners[key := Observer];
        return true;
      }
      allowed := owners[key] == Observer;
    }
  }

  // ----- One session under every interleaving -----

  type Pid = nat

  /** A process is an internal route call or the observer bridge, as `roles` says. */
  datatype Phase = Outside | Waiting | Holding | Writing | Stopped

  /** The trace of write attempts; `Committed` is the write's only effect. */
  datatype Entry = Began(pid: Pid) | Committed(pid: Pid) | Aborted(pid: Pid)

  datatype State = State(owner: Option<Owner>, lock: Option<Pid>, phase: Pid -> Phase, trace: seq<Entry>)

  type Roles = Pid -> Owner

  datatype Step =
    | Poll(pid: Pid)            // the bridge's check at the top of its loop, outside the lock
    | Request(pid: Pid)         // a batch or a route call is ready to write
    | Acquire(pid: Pid)
    | Reject(pid: Pid)          // an internal call fails its board check under the lock
    | Enter(pid: Pid)           // claim or re-check ownership under the lock
    | Commit(pid: Pid)
    | Abort(pid: Pid)           // the write raises
    | Quit(pid: Pid)            // the bridge ends

  ghost predicate SamePhases(s: State, s': State, p: Pid) {
    forall q: Pid :: q != p ==> s'.phase(q) == s.phase(q)
  }

  ghost predicate Next(roles: Roles, s: State, step: Step, s': State) {
    var p := step.pid;
    && SamePhases(s, s', p)
    && match step
       case Poll(_) =>
         && roles(p) == Observer && s.phase(p) == Outside
         && s'.owner == AfterPoll(s.owner) && s'.lock == s.lock && s'.trace == s.trace
         && s'.phase(p) == if MayIngest(s.owner) then Outside else Stopped
       case Request(_) =>
         && s.phase(p) == Outside && s'.phase(p) == Waiting
         && s'.owner == s.owner && s'.lock == s.lock && s'.trace == s.trace
       case Acquire(_) =>
         && s.phase(p) == Waiting && s.lock.None? && s'.phase(p) == Holding
         && s'.owner == s.owner && s'.lock == Some(p) && s'.trace == s.trace
       case Reject(_) =>
         && roles(p) == Internal && s.phase(p) == Holding && s'.phase(p) == Outside
         && s'.owner == s.owner && s'.lock.None? && s'.trace == s.trace
       case Enter(_) =>
         && s.phase(p) == Holding
         && (if roles(p) == Internal then
               && s'.owner == Some(Internal) && s'.lock == s.lock
               && s'.phase(p) == Writing && s'.trace == s.trace + [Began(p)]
             else if MayIngest(s.owner) then
               && s'.owner == AfterPoll(s.owner) && s'.lock == s.lock
               && s'.phase(p) == Writing && s'.trace == s.trace + [Began(p)]
             else
               && s'.owner == s.owner && s'.lock.None? && s'.phase(p) == Stopped && s'.trace == s.trace)
       case Commit(_) =>
         && s.phase(p) == Writing && s'.phase(p) == Outside
         && s'.owner == s.owner && s'.lock.None? && s'.trace == s.trace + [Committed(p)]
       case Abort(_) =>
         && s.phase(p) == Writing && s'.phase(p) == Outside
         && s'.owner == s.owner && s'.lock.None? && s'.trace == s.trace + [Aborted(p)]
       case Quit(_) =>
         && roles(p) == Observer && s.phase(p) == Outside && s'.phase(p) == Stopped
         && s'.owner == s.owner && s'.lock == s.lock && s'.trace == s.trace
  }

  ghost predicate Init(s: State) {
    s.owner.None? && s.lock.None? && s.trace == [] && forall p: Pid :: s.phase(p) == Outside
  }

  // ----- The invariant -----

  /** Whoever is inside holds the lock. */
  ghost predicate Exclusive(s: State) {
    forall p: Pid :: s.phase(p) == Holding || s.phase(p) == Writing <==> s.lock == Some(p)
  }

  /** While the bridge writes, the session is its own. */
  ghost predicate WriterOwns(roles: Roles, s: State) {
    forall p: Pid :: s.phase(p) == Writing ==> s.owner == Some(roles(p))
  }

  /** Every write that began is the only one until it commits or aborts. */
  ghost predicate Serial(trace: seq<Entry>) {
    forall i :: 0 <= i < |trace| ==> EntryInPlace(trace, i)
  }

  ghost predicate EntryInPlace(trace: seq<Entry>, i: nat)
    requires i < |trace|
  {
    match trace[i]
    case Began(p) => i + 1 < |trace| ==> trace[i + 1] == Committed(p) || trace[i + 1] == Aborted(p)
    case Committed(p) => i > 0 && trace[i - 1] == Began(p)
    case Aborted(p) => i > 0 && trace[i - 1] == Began(p)
  }

  /** The trace ends inside a write exactly while somebody is writing. */
  ghost predicate OpenWrite(s: State) {
    forall p: Pid :: s.phase(p) == Writing <==> s.trace != [] && s.trace[|s.trace| - 1] == Began(p)
  }

  /** No internal write precedes an observer write. */
  ghost predicate ObserverFirst(roles: Roles, trace: seq<Entry>) {
    forall i, j :: 0 <= i < j < |trace| && roles(trace[i].pid) == Internal ==> roles(trace[j].pid) == Internal
  }

  ghost predicate InternalMarks(roles: Roles, s: State) {
    s.owner != Some(Internal) ==> forall i :: 0 <= i < |s.trace| ==> roles(s.trace[i].pid) == Observer
  }

  ghost predicate Inv(roles: Roles, s: State) {
    Exclusive(s) && WriterOwns(roles, s) && Serial(s.trace) && OpenWrite(s) && ObserverFirst(roles, s.trace) && InternalMarks(roles, s)
  }

  lemma SerialBegin(trace: seq<Entry>, p: Pid)
    requires Serial(trace) && (trace == [] || !trace[|trace| - 1].Began?)
    ensures Serial(trace + [Began(p)])
  {
    var t := trace + [Began(p)];
    forall i | 0 <= i < |t| ensures EntryInPlace(t, i) {
      if i < |trace| { assert EntryInPlace(trace, i); }
    }
  }

  lemma SerialEnd(trace: seq<Entry>, p: Pid, e: Entry)
    requires Serial(trace) && trace != [] && trace[|trace| - 1] == Began(p) && (e == Committed(p) || e == Aborted(p))
    ensures Serial(trace + [e])
  {
    var t := trace + [e];
    forall i | 0 <= i < |t| ensures EntryInPlace(t, i) {
      if i < |trace| { assert EntryInPlace(trace, i); }
    }
  }

  lemma NobodyWriting(s: State)
    requires Exclusive(s) && OpenWrite(s) && forall p: Pid :: s.phase(p) != Writing
    ensures s.trace == [] || !s.trace[|s.trace| - 1].Began?
  {
    forall p: Pid ensures !(s.trace != [] && s.trace[|s.trace| - 1] == Began(p)) {
      assert s.phase(p) != Writing;
    }
  }

  lemma EnterKeeps(roles: Roles, s: State, p: Pid, s': State)
    requires Inv(roles, s) && Next(roles, s, Enter(p), s')
    ensures Inv(roles, s')
  {
    assert s.lock == Some(p);
    forall q: Pid ensures s.phase(q) != Writing { assert q != p ==> s.lock != Some(q); }
    NobodyWriting(s);
    SerialBegin(s.trace, p);
    assert s.owner.Some? ==> s.owner.value.Observer? || s.owner.value.Internal?;
    assert roles(p).Observer? || roles(p).Internal?;
    assert s'.phase(p) == Writing ==> s'.owner == Some(roles(p));
    assert forall q: Pid :: q != p ==> s'.phase(q) == s.phase(q) != Writing;
  }

  lemma LeaveKeeps(roles: Roles, s: State, step: Step, s': State)
    requires Inv(roles, s) && Next(roles, s, step, s') && (step.Commit? || step.Abort?)
    ensures Inv(roles, s')
  {
    var p := step.pid;
    assert s.lock == Some(p) && s.trace != [] && s.trace[|s.trace| - 1] == Began(p);
    SerialEnd(s.trace, p, Committed(p));
    SerialEnd(s.trace, p, Aborted(p));
    forall q: Pid | q != p ensures s.phase(q) != Writing { assert s.lock != Some(q); }
    var last := s.trace[|s.trace| - 1];
    if roles(p) == Internal { assert s.owner == Some(Internal); }
    forall i, j | 0 <= i < j < |s'.trace| && roles(s'.trace[i].pid) == Internal ensures roles(s'.trace[j].pid) == Internal {
      if j == |s.trace| && i < |s.trace| - 1 {
        assert roles(s.trace[i].pid) == Internal && roles(last.pid) == Internal;
      }
    }
  }

  lemma StepKeepsInv(roles: Roles, s: State, step: Step, s': State)
    requires Inv(roles, s) && Next(roles, s, step, s')
    ensures Inv(roles, s')
    ensures s.owner == Some(Internal) ==> s'.owner == Some(Internal)
    ensures s.trace <= s'.trace
  {
    match step
    case Enter(p) => EnterKeeps(roles, s, p, s');
    case Commit(p) => LeaveKeeps(roles, s, step, s');
    case Abort(p) => LeaveKeeps(roles, s, step, s');
    case Acquire(p) =>
    case Poll(p) =>
    case _ =>
  }

  // ----- Runs -----

  ghost predicate Run(roles: Roles, states: seq<State>, steps: seq<Step>) {
    && |states| == |steps| + 1
    && Init(states[0])
    && forall i :: 0 <= i < |steps| ==> Next(roles, states[i], steps[i], states[i + 1])
  }

  lemma {:induction false} RunKeepsInv(roles: Roles, states: seq<State>, steps: seq<Step>, i: nat)
    requires Run(roles, states, steps) && i < |states|
    ensures Inv(roles, states[i])
  {
    hide Inv, Next;
    if i == 0 {
      InitInv(roles, states[0]);
    } else {
      RunKeepsInv(roles, states, steps, i - 1);
      StepKeepsInv(roles, states[i - 1], steps[i - 1], states[i]);
    }
  }

  lemma InitInv(roles: Roles, s: State)
    requires Init(s)
    ensures Inv(roles, s)
  {
  }

  /** The committed writes, in order. */
  ghost function Commits(trace: seq<Entry>): seq<Pid> {
    if trace == [] then []
    else Commits(trace[..|trace| - 1]) + if trace[|trace| - 1].Committed? then [trace[|trace| - 1].pid] else []
  }

  /** A commit adds its process, and nothing else adds anything. */
  lemma CommitsMean(trace: seq<Entry>, e: Entry)
    ensures Commits([]) == []
    ensures Commits(trace + [e]) == if e.Committed? then Commits(trace) + [e.pid] else Commits(trace)
  {
    assert (trace + [e])[..|trace|] == trace;
  }

  /** A log with everything the observer wrote before everything internal. */
  ghost predicate SplitByRole(roles: Roles, log: seq<Pid>) {
    exists n :: SplitAt(roles, log, n)
  }

  ghost predicate SplitAt(roles: Roles, log: seq<Pid>, n: nat) {
    && n <= |log|
    && (forall i :: 0 <= i < n ==> roles(log[i]) == Observer)
    && (forall i :: n <= i < |log| ==> roles(log[i]) == Internal)
  }

  lemma {:induction false} CommitsSplit(roles: Roles, trace: seq<Entry>)
    requires ObserverFirst(roles, trace)
    ensures SplitByRole(roles, Commits(trace))
    ensures forall p: Pid :: p in Commits(trace) ==> exists i :: 0 <= i < |trace| && trace[i].pid == p
  {
    if trace == [] {
      assert SplitAt(roles, Commits(trace), 0);
    } else {
      var init, last := trace[..|trace| - 1], trace[|trace| - 1];
      assert ObserverFirst(roles, init);
      CommitsSplit(roles, init);
      var log := Commits(init);
      var n :| SplitAt(roles, log, n);
      forall p | p in log ensures exists i :: 0 <= i < |trace| && trace[i].pid == p {
        var i :| 0 <= i < |init| && init[i].pid == p;
        assert trace[i].pid == p;
      }
      if roles(last.pid) == Observer {
        NoInternalYet(roles, trace, log);
        assert last.Committed? ==> SplitAt(roles, log + [last.pid], |log| + 1);
      } else {
        assert last.Committed? ==> SplitAt(roles, log + [last.pid], n);
      }
      assert trace[|trace| - 1].pid == last.pid;
      assert Commits(trace) == if last.Committed? then log + [last.pid] else log;
    }
  }

  lemma NoInternalYet(roles: Roles, trace: seq<Entry>, log: seq<Pid>)
    requires ObserverFirst(roles, trace) && trace != [] && roles(trace[|trace| - 1].pid) == Observer
    requires forall p: Pid :: p in log ==> exists i :: 0 <= i < |trace| && trace[i].pid == p
    ensures forall k :: 0 <= k < |log| ==> roles(log[k]) == Observer
  {
    forall k | 0 <= k < |log| ensures roles(log[k]) == Observer {
      assert log[k] in log;
      var i :| 0 <= i < |trace| && trace[i].pid == log[k];
      var last := |trace| - 1;
      assert i < last ==> roles(trace[i].pid) != Internal;
    }
  }

  /** In every interleaving the committed log is all observer batches, then all internal writes; writes never overlap. */
  lemma SingleSourceLog(roles: Roles, states: seq<State>, steps: seq<Step>, i: nat)
    requires Run(roles, states, steps) && i < |states|
    ensures SplitByRole(roles, Commits(states[i].trace))
    ensures Serial(states[i].trace)
    ensures forall p: Pid, q: Pid :: states[i].phase(p) == Writing && states[i].phase(q) == Writing ==> p == q
  {
    RunKeepsInv(roles, states, steps, i);
    CommitsSplit(roles, states[i].trace);
  }

  /** Once internal has claimed a session it stays the owner. */
  lemma {:induction false} InternalStaysOwner(roles: Roles, states: seq<State>, steps: seq<Step>, i: nat, j: nat)
    requires Run(roles, states, steps) && i <= j < |states| && states[i].owner == Some(Internal)
    ensures states[j].owner == Some(Internal)
    decreases j - i
  {
    hide Inv, Next;
    if i < j {
      InternalStaysOwner(roles, states, steps, i, j - 1);
      RunKeepsInv(roles, states, steps, j - 1);
      StepKeepsInv(roles, states[j - 1], steps[j - 1], states[j]);
    }
  }

  // ----- What the lock decides -----

  function With(s: State, p: Pid, phase: Phase): Pid -> Phase {
    (q: Pid) => if q == p then phase else s.phase(q)
  }

  /** Under the lock an internal call always writes and owns the session then; the bridge writes unless internal owns it. */
  lemma EnterMeans(roles: Roles, s: State, p: Pid) returns (s': State)
    requires s.phase(p) == Holding
    ensures Next(roles, s, Enter(p), s')
    ensures forall t :: Next(roles, s, Enter(p), t) ==>
      && (t.phase(p) == Writing <==> roles(p) == Internal || s.owner != Some(Internal))
      && (t.phase(p) == Writing ==> t.owner == Some(roles(p)) && t.lock == s.lock)
      && (t.phase(p) != Writing ==> t.phase(p) == Stopped && t.owner == s.owner && t.lock == None)
  {
    var writes := roles(p) == Internal || s.owner != Some(Internal);
    assert s.owner.Some? ==> s.owner.value.Observer? || s.owner.value.Internal?;
    assert roles(p).Observer? || roles(p).Internal?;
    s' := if writes then State(Some(roles(p)), s.lock, With(s, p, Writing), s.trace + [Began(p)])
      else State(s.owner, None, With(s, p, Stopped), s.trace);
  }

  /** Nobody waits for ever on a lock that nobody can give back: as long as one waits, some process can go on. */
  lemma NeverStuck(roles: Roles, s: State, p: Pid) returns (step: Step, s': State)
    requires Inv(roles, s) && s.phase(p) == Waiting
    ensures Next(roles, s, step, s')
    ensures if s.lock.None? then step == Acquire(p) else step.pid == s.lock.value && (step.Enter? || step.Commit?)
  {
    if s.lock.None? {
      step, s' := Acquire(p), State(s.owner, Some(p), With(s, p, Holding), s.trace);
    } else {
      var q := s.lock.value;
      assert s.phase(q) == Holding || s.phase(q) == Writing;
      if s.phase(q) == Holding {
        step := Enter(q);
        s' := EnterMeans(roles, s, q);
      } else {
        step, s' := Commit(q), State(s.owner, None, With(s, q, Outside), s.trace + [Committed(q)]);
      }
    }
  }

  function Moved(s: State, p: Pid, phase: Phase, lock: Option<Pid>, owner: Option<Owner>, trace: seq<Entry>): State {
    State(owner, lock, With(s, p, phase), trace)
  }

  /** A free session lets whoever comes through: from every such state a process that is outside can get its write committed. */
  lemma FreeSessionTakesAWrite(roles: Roles, s: State, p: Pid) returns (states: seq<State>, steps: seq<Step>)
    requires s.phase(p) == Outside && s.lock.None? && (roles(p) == Internal || s.owner != Some(Internal))
    ensures |states| == |steps| + 1 && states[0] == s
    ensures forall i :: 0 <= i < |steps| ==> Next(roles, states[i], steps[i], states[i + 1])
    ensures states[|steps|].trace == s.trace + [Began(p), Committed(p)] && states[|steps|].owner == Some(roles(p))
  {
    var s1 := Moved(s, p, Waiting, None, s.owner, s.trace);
    var s2 := Moved(s1, p, Holding, Some(p), s.owner, s.trace);
    var s3 := EnterMeans(roles, s2, p);
    var s4 := Moved(s3, p, Outside, None, s3.owner, s3.trace + [Committed(p)]);
    assert s3.phase(p) == Writing && s3.trace == s.trace + [Began(p)];
    states, steps := [s, s1, s2, s3, s4], [Request(p), Acquire(p), Enter(p), Commit(p)];
    assert Next(roles, s, Request(p), s1) && Next(roles, s1, Acquire(p), s2) && Next(roles, s3, Commit(p), s4);
  }
}
