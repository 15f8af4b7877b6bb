/**
  The requests that touch a board's tasks, commit by commit. A request reads rows into its own session, may then wait
  for the network, and writes what it decided from that reading, whatever the rows have become in between.
 */
module SchedulerSteps {
  import opened Wrappers
  import opened Ids
  import opened Sequences
  import opened Tasks
  import opened TaskSteps
  import Text

  type Worker = nat

  /**
    What one request holds of one row between two commits. `row` is its own reading; while a dispatcher is sending,
    `row` has the extras it will write back and the status its session last loaded.
   */
  datatype Hand =
    | Picked(id: TaskId)
    | Claimed(id: TaskId)
    | Loaded(id: TaskId, row: Task)
    | Prepared(id: TaskId, row: Task)
    | Sending(id: TaskId, row: Task)
    | Reading(id: TaskId, row: Task)

  /** What a request other than a dispatch may decide to write. */
  datatype Change = Interrupt | Stop | Continue | Resume | Complete | Expire | Strip(node: Id)

  /** The branch conditions, on the row as it was read. */
  predicate Applies(change: Change, t: Task) {
    match change
    case Interrupt => t.status == Queued || t.status == Running
    case Stop => true
    case Continue => t.status == Blocked
    case Resume => t.status == Blocked && Text.Lower(Text.Strip(t.dispatchStatus)) == "interrupted"
    case Complete => t.status == Running
    case Expire => t.status == Running
    case Strip(n) => n in DependsOn(t)
  }

  function After(change: Change, t: Task): Task {
    match change
    case Interrupt => Interrupted(t)
    case Stop => Interrupted(t)
    case Continue => Continued(t)
    case Resume => ContinuedWithRequirement(t)
    case Complete => CompletedByOutput(t)
    case Expire => MarkedFailed(t)
    case Strip(n) => Stripped(t, n)
  }

  /** The row as the answer to its dispatch message leaves it. */
  function Answered(t: Task, send: SendOutcome): Task {
    match send
    case Accepted(s) => t.(status := Running, dispatchStatus := s)
    case Rejected => MarkedFailed(t)
  }

  /** A row about to be written: as the session loaded it, and as it should be. */
  datatype Pending = Pending(id: TaskId, read: Task, next: Task)

  /**
    What the update does to the row: the extras column is replaced as a whole, the status column only if the session
    sees a change in it.
   */
  function Stored(current: Task, read: Task, next: Task): Task {
    current.(
      status := if next.status == read.status then current.status else next.status,
      dispatchStatus := next.dispatchStatus,
      dependencies := next.dependencies)
  }

  lemma StoredUndisturbed(read: Task, next: Task)
    requires SameButExtras(read, next)
    ensures Stored(read, read, next) == next
  {
  }

  /** All columns but the status and the extras a request rewrites. */
  ghost predicate SameButExtras(t: Task, u: Task) {
    u == t.(status := u.status, dispatchStatus := u.dispatchStatus, dependencies := u.dependencies)
  }

  // ----- The world -----

  /** A node of a requirement whose row a request has deleted. */
  datatype Removed = Removed(requirement: Id, node: Id)

  /**
    `enqueued` and `claimed` count how often a row entered `queued` and was claimed. `owed` are the dependencies a row
    was created with, less those that a deletion has taken out since: the nodes deleted, and what stripping lost.
   */
  datatype World = World(
    rows: Rows,
    issued: set<TaskId>,
    hands: map<Worker, Hand>,
    removed: set<Removed>,
    enqueued: multiset<TaskId>,
    claimed: multiset<TaskId>,
    owed: map<TaskId, set<Id>>)

  const EMPTY := World(map[], {}, map[], {}, multiset{}, multiset{}, map[])

  datatype Step =
    | Create(id: TaskId, task: Task)                    // one insert
    | Remove(gone: TaskId)                              // one delete
    | Pick(worker: Worker, visible: Option<Instance>, pick: TaskId)
    | Claim(worker: Worker)                             // the conditional update
    | Refresh(worker: Worker)                           // the reload after a commit
    | Prepare(worker: Worker)                           // the write before the send
    | Settle(worker: Worker, send: SendOutcome)         // the write after it
    | Read(worker: Worker, target: TaskId)
    | Write(worker: Worker, change: Change)

  predicate QueuedIn(rows: Rows, id: TaskId) {
    id in rows && rows[id].status == Queued
  }

  predicate WithoutAgent(t: Task) {
    Text.Strip(t.agentId) == ""
  }

  /** The write a step is about to make, if it makes one. */
  function WriteOf(w: World, s: Step): Option<Pending> {
    match s
    case Prepare(k) =>
      if k in w.hands && w.hands[k].Loaded? then
        Some(Pending(w.hands[k].id, w.hands[k].row, w.hands[k].row.(status := Running, dispatchStatus := "running")))
      else None
    case Settle(k, send) =>
      if k in w.hands && w.hands[k].Loaded? then Some(Pending(w.hands[k].id, w.hands[k].row, MarkedFailed(w.hands[k].row)))
      else if k in w.hands && w.hands[k].Sending? then
        Some(Pending(w.hands[k].id, w.hands[k].row, Answered(w.hands[k].row, send)))
      else None
    case Write(k, change) =>
      if k in w.hands && w.hands[k].Reading? then
        Some(Pending(w.hands[k].id, w.hands[k].row, After(change, w.hands[k].row)))
      else None
    case _ => None
  }

  ghost predicate Enabled(w: World, s: Step) {
    match s
    case Create(id, t) =>
      id !in w.issued && t.status == Queued && (t.flowId != NOTHING ==> t.requirementId == t.flowId)
    case Remove(id) => id in w.rows
    case Pick(k, inst, id) => k !in w.hands && Runnable(w.rows, inst, id)
    case Claim(k) => k in w.hands && w.hands[k].Picked?
    case Refresh(k) => k in w.hands && (w.hands[k].Claimed? || w.hands[k].Prepared?)
    case Prepare(k) => k in w.hands && w.hands[k].Loaded? && !WithoutAgent(w.hands[k].row)
    case Settle(k, _) => k in w.hands && (w.hands[k].Sending? || (w.hands[k].Loaded? && WithoutAgent(w.hands[k].row)))
    case Read(k, id) => k !in w.hands && id in w.rows
    case Write(k, change) =>
      && k in w.hands && w.hands[k].Reading? && Applies(change, w.hands[k].row)
      && (change.Strip? ==> Removed(w.hands[k].row.requirementId, change.node) in w.removed)
  }

  /** Row `id` becomes `t`. */
  function Put(w: World, id: TaskId, t: Task): World {
    w.(rows := w.rows[id := t],
       enqueued := if t.status == Queued && !QueuedIn(w.rows, id) then w.enqueued + multiset{id} else w.enqueued)
  }

  /** What a step's write takes out of the dependencies of its row. */
  function OutOf(w: World, s: Step): set<Id> {
    if s.Write? && s.change.Strip? && WriteOf(w, s).Some? then TakenOut(WriteOf(w, s).value.read, s.change.node) else {}
  }

  function OwedLess(w: World, id: TaskId, out: set<Id>): World {
    if id in w.owed then w.(owed := w.owed[id := w.owed[id] - out]) else w
  }

  /** The table after a write; an update that matches no row raises and leaves it alone. */
  function Written(w: World, s: Step, p: Pending): World {
    if p.id in w.rows then Put(OwedLess(w, p.id, OutOf(w, s)), p.id, Stored(w.rows[p.id], p.read, p.next)) else w
  }

  /** The requirement loses a node: its rows are no longer owed that dependency. */
  function OwedWithout(w: World, gone: Task): map<TaskId, set<Id>> {
    map id | id in w.owed ::
      if id in w.rows && w.rows[id].requirementId == gone.requirementId then w.owed[id] - {gone.flowNode} else w.owed[id]
  }

  function Released(w: World, k: Worker): World {
    w.(hands := w.hands - {k})
  }

  function Apply(w: World, s: Step): World {
    match s
    case Create(id, t) =>
      Put(w, id, t).(issued := w.issued + {id}, owed := w.owed[id := Elements(DependsOn(t))])
    case Remove(id) =>
      if id !in w.rows then w
      else
        var gone := w.rows[id];
        w.(rows := w.rows - {id}, owed := OwedWithout(w, gone) - {id},
           removed := w.removed + {Removed(gone.requirementId, gone.flowNode)})
    case Pick(k, _, id) => w.(hands := w.hands[k := Picked(id)])
    case Claim(k) =>
      if k !in w.hands then w
      else
        var id := w.hands[k].id;
        if !QueuedIn(w.rows, id) then Released(w, k)
        else Put(w, id, w.rows[id].(status := Running)).(
          claimed := w.claimed + multiset{id}, hands := w.hands[k := Claimed(id)])
    case Refresh(k) =>
      if k !in w.hands then w
      else
        var id := w.hands[k].id;
        if id !in w.rows then Released(w, k)
        else if w.hands[k].Prepared? then
          w.(hands := w.hands[k := Sending(id, w.hands[k].row.(status := w.rows[id].status))])
        else w.(hands := w.hands[k := Loaded(id, w.rows[id])])
    case Prepare(k) =>
      (match WriteOf(w, s)
       case None => w
       case Some(p) => if p.id in w.rows then Written(w, s, p).(hands := w.hands[k := Prepared(p.id, p.next)]) else Released(w, k))
    case Settle(k, _) =>
      (match WriteOf(w, s) case None => w case Some(p) => Released(Written(w, s, p), k))
    case Read(k, id) => if id in w.rows then w.(hands := w.hands[k := Reading(id, w.rows[id])]) else w
    case Write(k, _) =>
      (match WriteOf(w, s) case None => w case Some(p) => Released(Written(w, s, p), k))
  }

  ghost predicate Next(w: World, s: Step, w': World) {
    Enabled(w, s) && w' == Apply(w, s)
  }

  ghost predicate Run(ws: seq<World>, steps: seq<Step>) {
    && |ws| == |steps| + 1
    && ws[0] == EMPTY
    && forall i :: 0 <= i < |steps| ==> Next(ws[i], steps[i], ws[i + 1])
  }

  lemma RunAt(ws: seq<World>, steps: seq<Step>, i: nat)
    requires Run(ws, steps)
    ensures |ws| == |steps| + 1 && ws[0] == EMPTY && (i < |steps| ==> Next(ws[i], steps[i], ws[i + 1]))
  {
    hide Enabled, Apply, EMPTY;
  }

  // ----- What a step does to the table -----

  /** The effect of a step on the rows: one row changes, appears or disappears, or nothing happens. */
  datatype Effect = Nothing | Changed(id: TaskId, to: Task) | Added(id: TaskId, row: Task) | Dropped(id: TaskId)

  function EffectOf(w: World, s: Step): Effect {
    match s
    case Create(id, t) => Added(id, t)
    case Remove(id) => if id in w.rows then Dropped(id) else Nothing
    case Claim(k) =>
      if k in w.hands && QueuedIn(w.rows, w.hands[k].id)
      then Changed(w.hands[k].id, w.rows[w.hands[k].id].(status := Running)) else Nothing
    case _ =>
      match WriteOf(w, s)
      case None => Nothing
      case Some(p) => if p.id in w.rows then Changed(p.id, Stored(w.rows[p.id], p.read, p.next)) else Nothing
  }

  lemma RowsAfter(w: World, s: Step)
    requires Enabled(w, s)
    ensures Apply(w, s).rows ==
      match EffectOf(w, s)
      case Nothing => w.rows
      case Changed(id, t) => w.rows[id := t]
      case Added(id, t) => w.rows[id := t]
      case Dropped(id) => w.rows - {id}
  {
    hide Runnable, After, DependsOn, Applies, Stored, OutOf, TakenOut, OwedWithout, Elements, WriteOf, WithoutAgent, Written;
    WritersWrite(w, s);
    if IsWriter(s) {
      WrittenRows(w, s, WriteOf(w, s).value);
    }
  }

  lemma WrittenRows(w: World, s: Step, p: Pending)
    ensures Written(w, s, p).rows == if p.id in w.rows then w.rows[p.id := Stored(w.rows[p.id], p.read, p.next)] else w.rows
    ensures Written(w, s, p).hands == w.hands
  {
    hide Stored, OutOf;
  }

  predicate IsWriter(s: Step) {
    s.Prepare? || s.Settle? || s.Write?
  }

  lemma WritersWrite(w: World, s: Step)
    ensures WriteOf(w, s).Some? ==> IsWriter(s)
    ensures Enabled(w, s) && IsWriter(s) ==> WriteOf(w, s).Some? && s.worker in w.hands && WriteOf(w, s).value.id == w.hands[s.worker].id
  {
    hide Runnable, After, DependsOn, Applies, Answered;
  }

  lemma AfterKeeps(change: Change, t: Task)
    ensures SameButExtras(t, After(change, t))
  {
    hide Text.Strip, Text.Lower, DependsOn;
  }

  /** A change only ever moves a row that is not finished. */
  lemma ChangesUnfinished(change: Change, t: Task)
    requires Applies(change, t)
    ensures After(change, t).status != t.status ==> !Finished(t)
  {
    hide Text.Strip, Text.Lower, DependsOn;
  }

  predicate Finished(t: Task) {
    t.status == Completed || t.status == Failed
  }

  ghost predicate Started(t: Task) {
    t.status == Running || t.status == Completed
  }
}
