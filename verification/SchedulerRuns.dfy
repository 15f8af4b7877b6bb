/**
  What holds in every run of the requests, however their commits interleave, and exactly which steps take away the rest.
 */
module SchedulerRuns {
  import opened Wrappers
  import opened Ids
  import opened Sequences
  import opened Tasks
  import opened TaskSteps
  import opened SchedulerSteps
  import Text

  // ----- What every run keeps -----

  ghost predicate Lists(t: Task, owed: set<Id>) {
    forall d :: d in owed ==> d in DependsOn(t)
  }

  ghost predicate HasCopy(h: Hand) {
    h.Loaded? || h.Prepared? || h.Sending? || h.Reading?
  }

  /** A copy is a reading of its row: the fixed columns agree, and it lists all the row is owed. */
  ghost predicate HandOk(w: World, h: Hand) {
    && h.id in w.issued
    && (HasCopy(h) && h.id in w.rows && h.id in w.owed ==> SameButExtras(w.rows[h.id], h.row) && Lists(h.row, w.owed[h.id]))
  }

  ghost predicate RowOk(w: World, id: TaskId)
    requires id in w.rows
  {
    && id in w.owed && id in w.issued
    && Lists(w.rows[id], w.owed[id])
    && (w.rows[id].flowId != NOTHING ==> w.rows[id].requirementId == w.rows[id].flowId)
  }

  ghost predicate Core(w: World) {
    && w.owed.Keys == w.rows.Keys
    && (forall id :: id in w.rows ==> RowOk(w, id))
    && (forall k :: k in w.hands ==> HandOk(w, w.hands[k]))
  }

  ghost predicate ClaimsCounted(w: World) {
    forall id :: w.claimed[id] + (if QueuedIn(w.rows, id) then 1 else 0) <= w.enqueued[id]
  }

  lemma SameTwice(t: Task, u: Task, v: Task)
    requires SameButExtras(t, u) && SameButExtras(u, v)
    ensures SameButExtras(t, v) && SameButExtras(u, t)
  {
  }

  lemma StoredFacts(current: Task, read: Task, next: Task, owed: set<Id>)
    requires SameButExtras(current, read) && SameButExtras(read, next) && Lists(next, owed)
    ensures SameButExtras(current, Stored(current, read, next)) && Lists(Stored(current, read, next), owed)
  {
  }

  /** Writing one row keeps the books, whoever holds copies of it. */
  lemma PutKeepsCore(w: World, id: TaskId, t: Task)
    requires Core(w) && id in w.rows && SameButExtras(w.rows[id], t) && Lists(t, w.owed[id])
    ensures Core(Put(w, id, t))
  {
    hide DependsOn;
    var w' := Put(w, id, t);
    forall j | j in w'.rows ensures RowOk(w', j) {
      assert RowOk(w, j);
    }
    forall k | k in w'.hands ensures HandOk(w', w'.hands[k]) {
      assert HandOk(w, w.hands[k]);
    }
  }

  lemma HandsKeepCore(w: World, w': World, k: Worker)
    requires Core(w) && w' == w.(hands := w'.hands)
    requires forall j :: j in w'.hands && j != k ==> j in w.hands && w'.hands[j] == w.hands[j]
    requires k in w'.hands ==> HandOk(w, w'.hands[k])
    ensures Core(w')
  {
    hide SameButExtras, Lists;
    forall j | j in w'.rows ensures RowOk(w', j) {
      assert RowOk(w, j);
    }
    forall j | j in w'.hands ensures HandOk(w', w'.hands[j]) {
      assert j != k ==> HandOk(w, w.hands[j]);
    }
  }

  lemma CreateKeepsCore(w: World, id: TaskId, t: Task)
    requires Core(w) && Enabled(w, Create(id, t))
    ensures Core(Apply(w, Create(id, t)))
  {
    hide DependsOn;
    var w' := Apply(w, Create(id, t));
    assert id !in w.rows by { assert id in w.rows ==> RowOk(w, id); }
    forall j | j in w'.rows ensures RowOk(w', j) {
      assert j != id ==> RowOk(w, j);
    }
    forall k | k in w'.hands ensures HandOk(w', w'.hands[k]) {
      assert HandOk(w, w.hands[k]);
    }
  }

  lemma OwedShrinks(w: World, gone: Task, id: TaskId)
    requires id in w.owed
    ensures id in OwedWithout(w, gone) && OwedWithout(w, gone)[id] <= w.owed[id]
  {
  }

  lemma ListsLess(t: Task, more: set<Id>, less: set<Id>)
    requires Lists(t, more) && less <= more
    ensures Lists(t, less)
  {
  }

  lemma RemoveKeepsCore(w: World, id: TaskId)
    requires Core(w) && id in w.rows
    ensures Core(Apply(w, Remove(id)))
  {
    hide Lists, SameButExtras, OwedWithout;
    var w', gone := Apply(w, Remove(id)), w.rows[id];
    OwedKeys(w, gone);
    forall j | j in w'.rows ensures RowOk(w', j) {
      assert RowOk(w, j);
      OwedShrinks(w, gone, j);
      ListsLess(w.rows[j], w.owed[j], w'.owed[j]);
    }
    forall k | k in w'.hands ensures HandOk(w', w'.hands[k]) {
      var h := w.hands[k];
      assert HandOk(w, h);
      if HasCopy(h) && h.id in w'.rows {
        OwedShrinks(w, gone, h.id);
        ListsLess(h.row, w.owed[h.id], w'.owed[h.id]);
      }
    }
  }

  lemma OwedKeys(w: World, gone: Task)
    ensures OwedWithout(w, gone).Keys == w.owed.Keys
  {
  }

  lemma OweLess(w: World, id: TaskId, out: set<Id>)
    requires Core(w) && id in w.owed
    ensures Core(OwedLess(w, id, out))
  {
    hide SameButExtras, Lists;
    var w' := OwedLess(w, id, out);
    forall j | j in w'.rows ensures RowOk(w', j) {
      assert RowOk(w, j);
      ListsLess(w.rows[j], w.owed[j], w'.owed[j]);
    }
    forall k | k in w'.hands ensures HandOk(w', w'.hands[k]) {
      var h := w.hands[k];
      assert HandOk(w, h);
      if HasCopy(h) && h.id in w.rows {
        ListsLess(h.row, w.owed[h.id], w'.owed[h.id]);
      }
    }
  }

  /** A pending write keeps the fixed columns, and lists what its row is owed unless it is a deletion's stripping. */
  lemma PendingFacts(w: World, s: Step)
    requires Core(w) && Enabled(w, s) && WriteOf(w, s).Some? && WriteOf(w, s).value.id in w.rows
    ensures var p := WriteOf(w, s).value;
      && p.id in w.owed
      && SameButExtras(w.rows[p.id], p.read) && SameButExtras(p.read, p.next)
      && Lists(p.next, w.owed[p.id] - OutOf(w, s))
  {
    hide DependsOn, Stripped, Continued, ContinuedWithRequirement, SameButExtras, TakenOut;
    var p, k := WriteOf(w, s).value, s.worker;
    assert HandOk(w, w.hands[k]) && RowOk(w, p.id);
    if s.Write? {
      AfterKeeps(s.change, p.read);
      ChangedLists(s.change, p.read, w.owed[p.id]);
    } else {
      SendKeeps(p.read, p.next);
      SameLists(p.read, p.next, w.owed[p.id]);
    }
  }

  lemma SendKeeps(t: Task, u: Task)
    requires u == t.(status := u.status, dispatchStatus := u.dispatchStatus)
    ensures SameButExtras(t, u)
  {
  }

  lemma SameLists(t: Task, u: Task, owed: set<Id>)
    requires Lists(t, owed) && u.dependencies == t.dependencies
    ensures Lists(u, owed)
  {
  }

  lemma ChangedLists(change: Change, t: Task, owed: set<Id>)
    requires Lists(t, owed) && Applies(change, t)
    ensures Lists(After(change, t), if change.Strip? then owed - TakenOut(t, change.node) else owed)
  {
    if change.Strip? {
      forall d | d in owed - TakenOut(t, change.node) ensures d in DependsOn(After(change, t)) {
        StrippedDeps(t, change.node, d);
      }
    } else {
      hide DependsOn;
      OtherChanges(change, t);
      SameLists(t, After(change, t), owed);
    }
  }

  lemma OtherChanges(change: Change, t: Task)
    requires !change.Strip?
    ensures After(change, t).dependencies == t.dependencies
  {
    hide Text.Strip, Text.Lower;
  }

  /** The writes of dispatchers and other requests keep the books. */
  lemma WrittenKeepsCore(w: World, s: Step)
    requires Core(w) && Enabled(w, s) && WriteOf(w, s).Some?
    ensures Core(Written(w, s, WriteOf(w, s).value))
  {
    hide SameButExtras, Lists, HandOk, RowOk, Core, TakenOut, Put, Applies, After, Enabled, WriteOf, OutOf, Stored;
    var p := WriteOf(w, s).value;
    if p.id in w.rows {
      PendingFacts(w, s);
      var w1 := OwedLess(w, p.id, OutOf(w, s));
      OweLess(w, p.id, OutOf(w, s));
      StoredFacts(w.rows[p.id], p.read, p.next, w1.owed[p.id]);
      PutKeepsCore(w1, p.id, Stored(w.rows[p.id], p.read, p.next));
    }
  }

  lemma DropKeepsCore(w: World, k: Worker)
    requires Core(w)
    ensures Core(Released(w, k))
  {
    hide Core;
    HandsKeepCore(w, Released(w, k), k);
  }

  lemma HoldKeepsCore(w: World, k: Worker, h: Hand)
    requires Core(w) && HandOk(w, h)
    ensures Core(w.(hands := w.hands[k := h]))
  {
    hide Core, HandOk;
    HandsKeepCore(w, w.(hands := w.hands[k := h]), k);
  }

  lemma ClaimKeepsCore(w: World, k: Worker)
    requires Core(w) && Enabled(w, Claim(k))
    ensures Core(Apply(w, Claim(k)))
  {
    hide Core, RowOk, Lists, DependsOn;
    var id := w.hands[k].id;
    if QueuedIn(w.rows, id) {
      ClaimedRow(w, id);
      var w1 := Put(w, id, w.rows[id].(status := Running)).(claimed := w.claimed + multiset{id});
      PutKeepsCore(w, id, w.rows[id].(status := Running));
      CountsAside(Put(w, id, w.rows[id].(status := Running)), w1);
      HoldKeepsCore(w1, k, Claimed(id));
    } else {
      DropKeepsCore(w, k);
    }
  }

  lemma ClaimedRow(w: World, id: TaskId)
    requires Core(w) && id in w.rows
    ensures id in w.issued && id in w.owed && SameButExtras(w.rows[id], w.rows[id].(status := Running)) && Lists(w.rows[id], w.owed[id])
    ensures Lists(w.rows[id].(status := Running), w.owed[id])
  {
    hide DependsOn;
    assert RowOk(w, id);
    SameLists(w.rows[id], w.rows[id].(status := Running), w.owed[id]);
  }

  lemma CountsAside(w: World, w': World)
    requires Core(w) && w' == w.(claimed := w'.claimed)
    ensures Core(w')
  {
    hide SameButExtras, Lists;
    forall id | id in w'.rows ensures RowOk(w', id) { assert RowOk(w, id); }
    forall k | k in w'.hands ensures HandOk(w', w'.hands[k]) { assert HandOk(w, w.hands[k]); }
  }

  lemma CopyIsOk(w: World, id: TaskId)
    requires Core(w) && id in w.rows
    ensures HandOk(w, Loaded(id, w.rows[id])) && HandOk(w, Reading(id, w.rows[id])) && HandOk(w, Claimed(id)) && HandOk(w, Picked(id))
  {
    hide DependsOn;
    assert RowOk(w, id);
  }

  lemma SendingIsOk(w: World, h: Hand)
    requires HandOk(w, h) && h.Prepared? && h.id in w.rows
    ensures HandOk(w, Sending(h.id, h.row.(status := w.rows[h.id].status)))
  {
    if h.id in w.owed {
      SameLists(h.row, h.row.(status := w.rows[h.id].status), w.owed[h.id]);
    }
  }

  lemma PreparedIsOk(w: World, s: Step)
    requires Core(w) && Enabled(w, s) && s.Prepare? && WriteOf(w, s).Some? && WriteOf(w, s).value.id in w.rows
    ensures var p := WriteOf(w, s).value; HandOk(Written(w, s, p), Prepared(p.id, p.next))
  {
    hide Lists, DependsOn, SameButExtras, Stored;
    var p := WriteOf(w, s).value;
    PendingFacts(w, s);
    assert RowOk(w, p.id);
    assert OutOf(w, s) == {} && w.owed[p.id] - {} == w.owed[p.id];
    StoredFacts(w.rows[p.id], p.read, p.next, w.owed[p.id]);
    NextToStored(w.rows[p.id], p.read, p.next);
  }

  lemma NextToStored(current: Task, read: Task, next: Task)
    requires SameButExtras(current, read) && SameButExtras(read, next)
    ensures SameButExtras(Stored(current, read, next), next)
  {
  }

  lemma RefreshKeepsCore(w: World, k: Worker)
    requires Core(w) && Enabled(w, Refresh(k))
    ensures Core(Apply(w, Refresh(k)))
  {
    hide Core, HandOk;
    var h := w.hands[k];
    HandIsOk(w, k);
    if h.id !in w.rows {
      DropKeepsCore(w, k);
    } else if h.Prepared? {
      SendingIsOk(w, h);
      HoldKeepsCore(w, k, Sending(h.id, h.row.(status := w.rows[h.id].status)));
    } else {
      CopyIsOk(w, h.id);
      HoldKeepsCore(w, k, Loaded(h.id, w.rows[h.id]));
    }
  }

  lemma HandIsOk(w: World, k: Worker)
    requires Core(w) && k in w.hands
    ensures HandOk(w, w.hands[k])
  {
  }

  lemma StepKeepsCore(w: World, s: Step)
    requires Core(w) && Enabled(w, s)
    ensures Core(Apply(w, s))
  {
    hide Core, HandOk, Written, Runnable, Applies, WithoutAgent, OwedWithout, Put;
    match s
    case Create(id, t) => CreateKeepsCore(w, id, t);
    case Remove(id) => RemoveKeepsCore(w, id);
    case Pick(k, inst, id) =>
      RunnableRow(w.rows, inst, id);
      CopyIsOk(w, id);
      HoldKeepsCore(w, k, Picked(id));
    case Claim(k) => ClaimKeepsCore(w, k);
    case Refresh(k) => RefreshKeepsCore(w, k);
    case Prepare(k) =>
      var p := WriteOf(w, s).value;
      if p.id in w.rows {
        WrittenKeepsCore(w, s);
        PreparedIsOk(w, s);
        WrittenKeepsHands(w, s, p);
        HoldKeepsCore(Written(w, s, p), k, Prepared(p.id, p.next));
      } else {
        DropKeepsCore(w, k);
      }
    case Settle(k, _) =>
      WrittenKeepsCore(w, s);
      DropKeepsCore(Written(w, s, WriteOf(w, s).value), k);
    case Read(k, id) =>
      CopyIsOk(w, id);
      HoldKeepsCore(w, k, Reading(id, w.rows[id]));
    case Write(k, _) =>
      WrittenKeepsCore(w, s);
      DropKeepsCore(Written(w, s, WriteOf(w, s).value), k);
  }

  lemma WrittenKeepsHands(w: World, s: Step, p: Pending)
    ensures Written(w, s, p).hands == w.hands
  {
  }

  lemma RunnableRow(rows: Rows, inst: Option<Instance>, id: TaskId)
    requires Runnable(rows, inst, id)
    ensures id in rows && rows[id].status == Queued
  {
  }

  // ----- Claims are counted -----

  lemma PutKeepsCounts(w: World, id: TaskId, t: Task)
    requires ClaimsCounted(w) && id in w.rows
    ensures ClaimsCounted(Put(w, id, t))
    ensures QueuedIn(w.rows, id) && t.status != Queued ==> ClaimsCounted(Put(w, id, t).(claimed := w.claimed + multiset{id}))
  {
    var w' := Put(w, id, t);
    forall j ensures w'.claimed[j] + (if QueuedIn(w'.rows, j) then 1 else 0)
        + (if j == id && QueuedIn(w.rows, id) && t.status != Queued then 1 else 0) <= w'.enqueued[j]
    {
      assert w.claimed[j] + (if QueuedIn(w.rows, j) then 1 else 0) <= w.enqueued[j];
    }
  }

  lemma CreateKeepsCounts(w: World, id: TaskId, t: Task)
    requires ClaimsCounted(w) && id !in w.rows && t.status == Queued
    ensures ClaimsCounted(Put(w, id, t))
  {
    var w' := Put(w, id, t);
    forall j ensures w'.claimed[j] + (if QueuedIn(w'.rows, j) then 1 else 0) <= w'.enqueued[j] {
      assert w.claimed[j] + (if QueuedIn(w.rows, j) then 1 else 0) <= w.enqueued[j];
    }
  }

  lemma SameCounts(w: World, w': World)
    requires ClaimsCounted(w) && w'.claimed == w.claimed && w'.enqueued == w.enqueued
    requires forall id :: id in w'.rows ==> id in w.rows && w'.rows[id] == w.rows[id]
    ensures ClaimsCounted(w')
  {
    forall j ensures w'.claimed[j] + (if QueuedIn(w'.rows, j) then 1 else 0) <= w'.enqueued[j] {
      assert w.claimed[j] + (if QueuedIn(w.rows, j) then 1 else 0) <= w.enqueued[j];
    }
  }

  lemma WrittenKeepsCounts(w: World, s: Step, p: Pending)
    requires ClaimsCounted(w)
    ensures ClaimsCounted(Written(w, s, p))
  {
    hide ClaimsCounted, Put, Stored, OutOf;
    if p.id in w.rows {
      var w1 := OwedLess(w, p.id, OutOf(w, s));
      SameCounts(w, w1);
      PutKeepsCounts(w1, p.id, Stored(w.rows[p.id], p.read, p.next));
    }
  }

  lemma StepKeepsCounts(w: World, s: Step)
    requires Core(w) && ClaimsCounted(w) && Enabled(w, s)
    ensures ClaimsCounted(Apply(w, s))
  {
    hide Core, ClaimsCounted, Runnable, Applies, WithoutAgent, Written, WriteOf, OwedWithout, Elements, DependsOn, Put;
    var w' := Apply(w, s);
    WritersWrite(w, s);
    match s
    case Create(id, t) =>
      NotIssued(w, id);
      CreateKeepsCounts(w, id, t);
      SameCounts(Put(w, id, t), w');
    case Remove(id) => SameCounts(w, w');
    case Pick(_, _, _) => SameCounts(w, w');
    case Claim(k) =>
      var id := w.hands[k].id;
      if QueuedIn(w.rows, id) {
        PutKeepsCounts(w, id, w.rows[id].(status := Running));
        SameCounts(Put(w, id, w.rows[id].(status := Running)).(claimed := w.claimed + multiset{id}), w');
      } else {
        SameCounts(w, w');
      }
    case Refresh(_) => SameCounts(w, w');
    case Read(_, _) => SameCounts(w, w');
    case _ =>
      var p := WriteOf(w, s).value;
      WrittenKeepsCounts(w, s, p);
      if p.id !in w.rows { NoRowWritten(w, s, p); }
      SameCounts(Written(w, s, p), w');
  }

  lemma NotIssued(w: World, id: TaskId)
    requires Core(w) && id !in w.issued
    ensures id !in w.rows
  {
    assert id in w.rows ==> RowOk(w, id);
  }

  lemma NoRowWritten(w: World, s: Step, p: Pending)
    requires p.id !in w.rows
    ensures Written(w, s, p) == w
  {
  }

  // ----- Runs -----

  lemma {:induction false} RunKeepsBooks(ws: seq<World>, steps: seq<Step>, i: nat)
    requires Run(ws, steps) && i < |ws|
    ensures Core(ws[i]) && ClaimsCounted(ws[i])
  {
    hide Run, Core, ClaimsCounted, Enabled, Apply, EMPTY;
    RunAt(ws, steps, i);
    if i == 0 {
      StartOfBooks();
    } else {
      RunKeepsBooks(ws, steps, i - 1);
      RunAt(ws, steps, i - 1);
      StepKeepsCore(ws[i - 1], steps[i - 1]);
      StepKeepsCounts(ws[i - 1], steps[i - 1]);
    }
  }

  lemma StartOfBooks()
    ensures Core(EMPTY) && ClaimsCounted(EMPTY)
  {
  }

  /** Whatever else happens: a row is claimed at most as often as it has entered the queue. */
  lemma NoDoubleClaim(ws: seq<World>, steps: seq<Step>, i: nat, id: TaskId)
    requires Run(ws, steps) && i < |ws|
    ensures ws[i].claimed[id] <= ws[i].enqueued[id]
  {
    RunKeepsBooks(ws, steps, i);
    assert ws[i].claimed[id] + (if QueuedIn(ws[i].rows, id) then 1 else 0) <= ws[i].enqueued[id];
  }

  // ----- Finished rows -----

  /** The step writes a status into row `id` that is neither the one it read nor the one that is there. */
  predicate Overwrites(w: World, s: Step, id: TaskId) {
    match WriteOf(w, s)
    case None => false
    case Some(p) => p.id == id && id in w.rows && p.next.status != p.read.status && p.next.status != w.rows[id].status
  }

  /** Step by step: a finished row that is not deleted keeps its status exactly if the step does not overwrite it. */
  lemma FinishedKeptIff(w: World, s: Step, id: TaskId)
    requires Enabled(w, s) && id in w.rows && id in Apply(w, s).rows && Finished(w.rows[id]) && id in w.issued
    ensures Apply(w, s).rows[id].status == w.rows[id].status <==> !Overwrites(w, s, id)
  {
    hide Enabled, Apply, WriteOf;
    RowsAfter(w, s);
    WritersWrite(w, s);
    CreatesFresh(w, s);
  }

  lemma CreatesFresh(w: World, s: Step)
    requires Enabled(w, s)
    ensures s.Create? ==> s.id !in w.issued
  {
  }

  /**
    A request other than a dispatch leaves a finished row finished as it was exactly if the row has still the status
    that was read, or the request changes none, or the row has meanwhile got the status it writes.
   */
  lemma ChangeKeepsFinishedIff(w: World, k: Worker, change: Change)
    requires Core(w) && Enabled(w, Write(k, change)) && w.hands[k].id in w.rows
    ensures var id, read := w.hands[k].id, w.hands[k].row;
      var current, next, after := w.rows[id], After(change, read), Apply(w, Write(k, change)).rows;
      id in after &&
      ((Finished(current) ==> after[id].status == current.status) <==>
       (current.status == read.status || !Finished(current) || next.status == read.status || next.status == current.status))
  {
    hide Core, Apply, Applies, After;
    RowsAfter(w, Write(k, change));
    ChangesUnfinished(change, w.hands[k].row);
  }

  /**
    The write after a send, or instead of one: an accepted send writes `running`, anything else `failed`, and a finished
    row is kept exactly if that is the status the dispatcher had read, or the row has it already.
   */
  lemma SendKeepsFinishedIff(w: World, k: Worker, send: SendOutcome)
    requires Core(w) && Enabled(w, Settle(k, send)) && w.hands[k].id in w.rows
    ensures var id, read := w.hands[k].id, w.hands[k].row;
      var current, after := w.rows[id], Apply(w, Settle(k, send)).rows;
      id in after &&
      ((Finished(current) ==> after[id].status == current.status) <==>
       (!Finished(current) ||
        if w.hands[k].Sending? && send.Accepted? then read.status == Running else read.status == Failed || current.status == Failed))
  {
    hide Core, Apply, WithoutAgent;
    RowsAfter(w, Settle(k, send));
  }

  lemma RowStays(ws: seq<World>, steps: seq<Step>, i: nat, j: nat, id: TaskId)
    requires Run(ws, steps) && i <= j < |ws| && id in ws[i].rows && id in ws[j].rows
    ensures forall m :: i <= m <= j ==> id in ws[m].rows && id in ws[m].issued
    decreases j - i
  {
    hide Core, ClaimsCounted, Enabled, Apply;
    RunKeepsBooks(ws, steps, i);
    CoreIssued(ws[i], id);
    if i < j {
      IssuedStays(ws, steps, i, j - 1, id);
      RunAt(ws, steps, j - 1);
      NeverReissued(ws[j - 1], steps[j - 1], id);
      RowStays(ws, steps, i, j - 1, id);
      RunKeepsBooks(ws, steps, j);
      CoreIssued(ws[j], id);
    }
  }

  lemma CoreIssued(w: World, id: TaskId)
    requires Core(w) && id in w.rows
    ensures id in w.issued
  {
    assert RowOk(w, id);
  }

  lemma NeverReissued(w: World, s: Step, id: TaskId)
    requires Enabled(w, s) && id in w.issued && id in Apply(w, s).rows
    ensures id in w.rows
  {
    hide Enabled, Apply, WriteOf;
    RowsAfter(w, s);
    WritersWrite(w, s);
    CreatesFresh(w, s);
  }

  lemma {:induction false} IssuedStays(ws: seq<World>, steps: seq<Step>, i: nat, j: nat, id: TaskId)
    requires Run(ws, steps) && i <= j < |ws| && id in ws[i].issued
    ensures id in ws[j].issued
    decreases j - i
  {
    hide Enabled, Apply;
    if i < j {
      IssuedStays(ws, steps, i, j - 1, id);
      RunAt(ws, steps, j - 1);
      IssuedGrows(ws[j - 1], steps[j - 1]);
    }
  }

  lemma IssuedGrows(w: World, s: Step)
    ensures w.issued <= Apply(w, s).issued
  {
    hide WriteOf, Stored, OutOf, OwedWithout, Elements;
  }

  /** Over a run: a finished row keeps its status for as long as it exists exactly if no step overwrites it. */
  lemma {:induction false} FinishedForeverIff(ws: seq<World>, steps: seq<Step>, i: nat, j: nat, id: TaskId)
    requires Run(ws, steps) && i <= j < |ws| && id in ws[i].rows && id in ws[j].rows && Finished(ws[i].rows[id])
    ensures j <= |steps|
    ensures forall m :: i <= m <= j ==> id in ws[m].rows
    ensures (forall m :: i <= m <= j ==> ws[m].rows[id].status == ws[i].rows[id].status)
       <==> (forall m :: i <= m < j ==> !Overwrites(ws[m], steps[m], id))
    decreases j - i
  {
    hide Enabled, Apply, Overwrites, WriteOf;
    RunAt(ws, steps, i);
    RowStays(ws, steps, i, j, id);
    if i < j {
      FinishedForeverIff(ws, steps, i, j - 1, id);
      RunAt(ws, steps, j - 1);
      if ws[j - 1].rows[id].status == ws[i].rows[id].status {
        FinishedKeptIff(ws[j - 1], steps[j - 1], id);
      }
    }
  }

  // ----- Requests that find what they decided on -----

  /** The row has still the status the request read; a dispatcher finds it running, as its claim left it. */
  predicate AsDecided(w: World, s: Step) {
    match WriteOf(w, s)
    case None => true
    case Some(p) => p.id in w.rows ==> w.rows[p.id].status == p.read.status && (!s.Write? ==> p.read.status == Running)
  }

  ghost predicate Undisturbed(ws: seq<World>, steps: seq<Step>) {
    |ws| > |steps| && forall i :: 0 <= i < |steps| ==> AsDecided(ws[i], steps[i])
  }

  lemma DecidedNeverOverwrites(w: World, s: Step, id: TaskId)
    requires Enabled(w, s) && AsDecided(w, s) && id in w.rows && Finished(w.rows[id])
    ensures !Overwrites(w, s, id)
  {
    hide After, Applies;
    if s.Write? && s.worker in w.hands && w.hands[s.worker].Reading? {
      ChangesUnfinished(s.change, w.hands[s.worker].row);
    }
  }

  /** Then completed and failed rows stay so until they are deleted. */
  lemma TerminalForever(ws: seq<World>, steps: seq<Step>, i: nat, j: nat, id: TaskId)
    requires Run(ws, steps) && Undisturbed(ws, steps)
    requires i <= j < |ws| && id in ws[i].rows && id in ws[j].rows && Finished(ws[i].rows[id])
    ensures ws[j].rows[id].status == ws[i].rows[id].status
    decreases j - i
  {
    hide Enabled, Apply, Overwrites, WriteOf, AsDecided;
    RowStays(ws, steps, i, j, id);
    if i < j {
      TerminalForever(ws, steps, i, j - 1, id);
      RunAt(ws, steps, j - 1);
      assert AsDecided(ws[j - 1], steps[j - 1]);
      DecidedNeverOverwrites(ws[j - 1], steps[j - 1], id);
      FinishedKeptIff(ws[j - 1], steps[j - 1], id);
    }
  }

  // ----- Safety -----

  /** Some row of the node is completed. */
  ghost predicate Done(rows: Rows, f: Id, d: Id) {
    exists j :: IsNode(rows, None, f, d, j) && rows[j].status == Completed
  }

  ghost predicate AllDone(rows: Rows, f: Id, owed: set<Id>) {
    forall d :: d in owed ==> Done(rows, f, d)
  }

  /** Whatever the row is owed is completed. */
  ghost predicate Ready(w: World, id: TaskId)
    requires id in w.rows && id in w.owed
  {
    w.owed[id] == {} || (w.rows[id].flowId != NOTHING && AllDone(w.rows, w.rows[id].flowId, w.owed[id]))
  }

  predicate Marked(t: Task) {
    t.status == Blocked ==> t.dispatchStatus == "interrupted"
  }

  ghost predicate SafeRow(w: World, id: TaskId)
    requires id in w.rows && id in w.owed
  {
    (Started(w.rows[id]) ==> Ready(w, id)) && Marked(w.rows[id])
  }

  /** A dispatcher's row is ready; so is every row that was read as started. */
  ghost predicate SafeHand(w: World, h: Hand) {
    && (h.id in w.rows && h.id in w.owed && (h.Reading? ==> Started(h.row)) ==> Ready(w, h.id))
    && (h.Reading? ==> Marked(h.row))
  }

  ghost predicate Safe(w: World) {
    && (forall id :: id in w.rows && id in w.owed ==> SafeRow(w, id))
    && (forall k :: k in w.hands ==> SafeHand(w, w.hands[k]))
  }

  /** `w'` owes its rows no more than `w`, and loses no completed row it still owes. */
  ghost predicate Progresses(w: World, w': World) {
    forall id :: id in w.rows && id in w.owed && id in w'.rows && id in w'.owed && Ready(w, id) ==> Ready(w', id)
  }

  lemma DoneStays(rows: Rows, id: TaskId, t: Task, f: Id, d: Id)
    requires id in rows && SameButExtras(rows[id], t) && (rows[id].status == Completed ==> t.status == Completed)
    ensures Done(rows, f, d) ==> Done(rows[id := t], f, d)
  {
    if j :| IsNode(rows, None, f, d, j) && rows[j].status == Completed {
      assert IsNode(rows[id := t], None, f, d, j);
    }
  }

  lemma PutProgresses(w: World, w': World, id: TaskId, t: Task)
    requires id in w.rows && SameButExtras(w.rows[id], t) && (w.rows[id].status == Completed ==> t.status == Completed)
    requires w'.rows == w.rows[id := t] && forall j :: j in w'.owed ==> j in w.owed && w'.owed[j] <= w.owed[j]
    ensures Progresses(w, w')
  {
    hide SameButExtras, Done;
    forall j | j in w.rows && j in w.owed && j in w'.owed && Ready(w, j) ensures Ready(w', j) {
      forall d | d in w'.owed[j] && w.owed[j] != {} ensures Done(w'.rows, w.rows[j].flowId, d) {
        assert d in w.owed[j];
        DoneStays(w.rows, id, t, w.rows[j].flowId, d);
      }
      SameFlow(w.rows[id], t);
    }
  }

  lemma SameFlow(t: Task, u: Task)
    requires SameButExtras(t, u)
    ensures t.flowId == u.flowId && t.requirementId == u.requirementId && t.flowNode == u.flowNode
  {
  }

  lemma AddProgresses(w: World, w': World, id: TaskId, t: Task)
    requires id !in w.rows && w'.rows == w.rows[id := t] && forall j :: j in w.owed && j in w'.owed && j != id ==> w'.owed[j] == w.owed[j]
    ensures Progresses(w, w')
  {
    forall j | j in w.rows && j in w.owed && j in w'.owed && Ready(w, j) ensures Ready(w', j) {
      forall d | d in w'.owed[j] && w.owed[j] != {} ensures Done(w'.rows, w.rows[j].flowId, d) {
        var m :| IsNode(w.rows, None, w.rows[j].flowId, d, m) && w.rows[m].status == Completed;
        assert IsNode(w'.rows, None, w.rows[j].flowId, d, m);
      }
    }
  }

  /** A deleted row was owed to rows of its own requirement only, and they are no longer owed it. */
  lemma RemoveProgresses(w: World, id: TaskId)
    requires Core(w) && id in w.rows
    ensures Progresses(w, Apply(w, Remove(id)))
  {
    var w', gone := Apply(w, Remove(id)), w.rows[id];
    forall j | j in w'.rows && j in w'.owed && Ready(w, j) ensures Ready(w', j) {
      RemoveKeepsReady(w, id, j);
    }
  }

  lemma RemoveKeepsReady(w: World, id: TaskId, j: TaskId)
    requires Core(w) && id in w.rows && j in w.rows && j != id && j in w.owed && Ready(w, j)
    ensures var w' := Apply(w, Remove(id)); j in w'.owed && Ready(w', j)
  {
    hide Lists, HandOk, DependsOn;
    var w', f := Apply(w, Remove(id)), w.rows[j].flowId;
    assert RowOk(w, id) && RowOk(w, j);
    forall d | d in w'.owed[j] ensures Done(w'.rows, f, d) {
      assert d in w.owed[j];
      var m :| IsNode(w.rows, None, f, d, m) && w.rows[m].status == Completed;
      assert IsNode(w'.rows, None, f, d, m);
    }
  }

  lemma SameProgresses(w: World, w': World)
    requires w'.rows == w.rows && w'.owed == w.owed
    ensures Progresses(w, w')
  {
  }

  /** A runnable row is ready. */
  lemma RunnableIsReady(w: World, inst: Option<Instance>, id: TaskId)
    requires Core(w) && Runnable(w.rows, inst, id)
    ensures id in w.owed && Ready(w, id)
  {
    hide DependsOn, SameButExtras, HandOk;
    assert RowOk(w, id);
    forall d | d in w.owed[id] ensures w.rows[id].flowId != NOTHING && Done(w.rows, w.rows[id].flowId, d) {
      assert d in DependsOn(w.rows[id]);
      assert NodeDone(w.rows, inst, w.rows[id].flowId, d);
      var j :| Latest(w.rows, inst, w.rows[id].flowId, d, j) && w.rows[j].status == Completed;
      assert IsNode(w.rows, None, w.rows[id].flowId, d, j);
    }
  }

  /** The row, if it exists afterwards, existed before. */
  predicate Known(w: World, w': World, id: TaskId) {
    id in w'.rows ==> id in w.rows && id in w.owed
  }

  /** Rows and hands that a step does not touch stay safe. */
  lemma UntouchedStays(w: World, w': World)
    requires Safe(w) && Progresses(w, w')
    ensures forall j :: j in w.rows && j in w.owed && j in w'.rows && j in w'.owed && w'.rows[j] == w.rows[j] ==> SafeRow(w', j)
    ensures forall k :: k in w.hands && Known(w, w', w.hands[k].id) ==> SafeHand(w', w.hands[k])
  {
    hide Ready;
    forall j | j in w.rows && j in w.owed && j in w'.rows && j in w'.owed && w'.rows[j] == w.rows[j] ensures SafeRow(w', j) {
      assert SafeRow(w, j);
    }
    forall k | k in w.hands && Known(w, w', w.hands[k].id) ensures SafeHand(w', w.hands[k]) {
      assert SafeHand(w, w.hands[k]);
    }
  }

  ghost predicate NewHandSafe(w: World, w': World, k: Worker) {
    k in w'.hands ==> SafeHand(w', w'.hands[k])
  }

  /** A step on one row is safe if the row, as it ends up, and the worker's new hand are. */
  lemma StepIsSafe(w: World, w': World, id: TaskId, k: Worker)
    requires Core(w) && Core(w') && Safe(w) && Progresses(w, w')
    requires forall j :: j in w'.rows && j != id ==> j in w.rows && w'.rows[j] == w.rows[j]
    requires id in w'.rows && id in w'.owed ==> SafeRow(w', id)
    requires forall j :: j in w'.hands && j != k ==> j in w.hands && w'.hands[j] == w.hands[j]
    requires forall j :: j in w'.hands && j != k ==> Known(w, w', w'.hands[j].id)
    requires NewHandSafe(w, w', k)
    ensures Safe(w')
  {
    hide SafeRow, SafeHand, HandOk, RowOk, Progresses;
    UntouchedStays(w, w');
    forall j | j in w'.rows && j in w'.owed ensures SafeRow(w', j) {
      if j != id { RowKnown(w, j); }
    }
  }

  lemma RowKnown(w: World, id: TaskId)
    requires Core(w) && id in w.rows
    ensures id in w.owed
  {
  }

  lemma CreateIsSafe(w: World, id: TaskId, t: Task)
    requires Core(w) && Safe(w) && Enabled(w, Create(id, t))
    ensures Safe(Apply(w, Create(id, t)))
  {
    hide Core, Safe, SafeHand, DependsOn, Progresses, Elements, HandOk;
    var w' := Apply(w, Create(id, t));
    StepKeepsCore(w, Create(id, t));
    NotIssued(w, id);
    AddProgresses(w, w', id, t);
    forall k | k in w.hands ensures Known(w, w', w.hands[k].id) {
      HandIsOk(w, k);
      HandIssued(w, w.hands[k]);
      if w.hands[k].id in w.rows { RowKnown(w, w.hands[k].id); }
    }
    UntouchedStays(w, w');
    AddedIsSafe(w, w', id);
  }

  lemma HandIssued(w: World, h: Hand)
    requires HandOk(w, h)
    ensures h.id in w.issued
  {
  }

  lemma AddedIsSafe(w: World, w': World, id: TaskId)
    requires Core(w') && id in w'.rows && w'.rows[id].status == Queued && w'.rows == w.rows[id := w'.rows[id]]
    requires Core(w)
    requires forall j :: j in w.rows && j in w.owed && j in w'.rows && j in w'.owed && w'.rows[j] == w.rows[j] ==> SafeRow(w', j)
    requires forall k :: k in w'.hands ==> k in w.hands && w'.hands[k] == w.hands[k] && SafeHand(w', w'.hands[k])
    ensures Safe(w')
  {
    hide SafeHand, RowOk, HandOk, Ready;
  }

  lemma RemoveIsSafe(w: World, id: TaskId)
    requires Core(w) && Safe(w) && id in w.rows
    ensures Safe(Apply(w, Remove(id)))
  {
    hide Core, Safe, SafeRow, SafeHand, Progresses, OwedWithout;
    var w' := Apply(w, Remove(id));
    RemoveKeepsCore(w, id);
    RemoveProgresses(w, id);
    UntouchedStays(w, w');
    forall k | k in w'.hands ensures SafeHand(w', w'.hands[k]) {
      if w.hands[k].id in w'.rows { RowKnown(w, w.hands[k].id); }
    }
    forall j | j in w'.rows && j in w'.owed ensures SafeRow(w', j) {
      RowKnown(w, j);
    }
    assert Safe(w') by { SafeFrom(w'); }
  }

  lemma SafeFrom(w: World)
    requires forall id :: id in w.rows && id in w.owed ==> SafeRow(w, id)
    requires forall k :: k in w.hands ==> SafeHand(w, w.hands[k])
    ensures Safe(w)
  {
  }

  /** Steps that only move a request along. */
  lemma HandStepIsSafe(w: World, w': World, k: Worker)
    requires Core(w) && Safe(w) && w' == w.(hands := w'.hands)
    requires forall j :: j in w'.hands && j != k ==> j in w.hands && w'.hands[j] == w.hands[j]
    requires k in w'.hands ==> SafeHand(w, w'.hands[k])
    ensures Safe(w')
  {
    hide SafeRow, Core, Ready;
    forall id | id in w'.rows && id in w'.owed ensures SafeRow(w', id) {
      SameReady(w, w', id);
    }
    forall j | j in w'.hands ensures SafeHand(w', w'.hands[j]) {
      assert j != k ==> SafeHand(w, w.hands[j]);
      if w'.hands[j].id in w.rows && w'.hands[j].id in w.owed { SameReady(w, w', w'.hands[j].id); }
    }
  }

  lemma SameReady(w: World, w': World, id: TaskId)
    requires w'.rows == w.rows && w'.owed == w.owed && id in w.rows && id in w.owed
    ensures (Ready(w, id) <==> Ready(w', id)) && (SafeRow(w, id) <==> SafeRow(w', id))
  {
  }

  lemma ReadyHand(w: World, k: Worker)
    requires Core(w) && Safe(w) && k in w.hands && !w.hands[k].Reading? && w.hands[k].id in w.rows
    ensures w.hands[k].id in w.owed && Ready(w, w.hands[k].id)
  {
    hide Ready;
    assert SafeHand(w, w.hands[k]);
  }

  lemma RefreshIsSafe(w: World, k: Worker)
    requires Core(w) && Safe(w) && Enabled(w, Refresh(k))
    ensures Safe(Apply(w, Refresh(k)))
  {
    hide Core, Safe, Ready;
    if w.hands[k].id in w.rows {
      ReadyHand(w, k);
    }
    HandStepIsSafe(w, Apply(w, Refresh(k)), k);
  }

  lemma ReadIsSafe(w: World, k: Worker, id: TaskId)
    requires Core(w) && Safe(w) && Enabled(w, Read(k, id))
    ensures Safe(Apply(w, Read(k, id)))
  {
    hide Core, Safe, Ready;
    RowIsSafe(w, id);
    HandStepIsSafe(w, Apply(w, Read(k, id)), k);
  }

  lemma RowIsSafe(w: World, id: TaskId)
    requires Core(w) && Safe(w) && id in w.rows
    ensures id in w.owed && SafeRow(w, id)
  {
  }

  lemma PickIsSafe(w: World, k: Worker, inst: Option<Instance>, id: TaskId)
    requires Core(w) && Safe(w) && Enabled(w, Pick(k, inst, id))
    ensures Safe(Apply(w, Pick(k, inst, id)))
  {
    hide Core, Safe, Ready, Runnable;
    RunnableIsReady(w, inst, id);
    HandStepIsSafe(w, Apply(w, Pick(k, inst, id)), k);
  }

  lemma ClaimIsSafe(w: World, k: Worker)
    requires Core(w) && Safe(w) && Enabled(w, Claim(k))
    ensures Safe(Apply(w, Claim(k)))
  {
    hide Core, Safe, Ready, Progresses;
    var w', id := Apply(w, Claim(k)), w.hands[k].id;
    if QueuedIn(w.rows, id) {
      ReadyHand(w, k);
      StepKeepsCore(w, Claim(k));
      PutProgresses(w, w', id, w.rows[id].(status := Running));
      ReadyProgresses(w, w', id);
      HandsKnown(w, w');
      StepIsSafe(w, w', id, k);
    } else {
      HandStepIsSafe(w, w', k);
    }
  }

  lemma ReadyProgresses(w: World, w': World, id: TaskId)
    requires Progresses(w, w') && id in w.rows && id in w.owed && Ready(w, id) && id in w'.rows && id in w'.owed
    ensures Ready(w', id)
  {
  }

  lemma HandsKnown(w: World, w': World)
    requires Core(w) && w'.rows.Keys <= w.rows.Keys
    ensures forall id :: Known(w, w', id)
  {
    forall id ensures Known(w, w', id) {
      if id in w.rows { RowKnown(w, id); }
    }
  }

  lemma InterruptedReadsBack()
    ensures Text.Lower(Text.Strip("interrupted")) == "interrupted"
  {
    Text.StripTrimmed("interrupted");
  }

  /** On the row it read, a change starts nothing, unmarks nothing and reopens nothing. */
  lemma ChangeFacts(change: Change, t: Task)
    requires Applies(change, t) && Marked(t)
    ensures var u := After(change, t);
      (Started(u) ==> Started(t)) && Marked(u) && (t.status == Completed ==> u.status == Completed)
  {
    hide Text.Strip, Text.Lower, DependsOn;
    InterruptedReadsBack();
  }

  // What a write does to the rows that must be ready.

  ghost predicate Holds(w: World, k: Worker, j: TaskId) {
    k in w.hands && w.hands[k].id == j && (w.hands[k].Reading? ==> Started(w.hands[k].row))
  }

  /** Row `j` has started, or a dispatcher holds it, or a request has read it as started. */
  ghost predicate Must(w: World, j: TaskId) {
    j in w.rows && (Started(w.rows[j]) || exists k :: Holds(w, k, j))
  }

  ghost predicate AllReady(w: World) {
    forall j :: Must(w, j) ==> j in w.owed && Ready(w, j)
  }

  lemma SafeIs(w: World)
    requires Core(w)
    ensures Safe(w) <==> AllMarked(w) && AllReady(w)
  {
    hide Ready, Marked, HandOk, RowOk;
    if Safe(w) {
      forall id | id in w.rows ensures Marked(w.rows[id]) { RowIsSafe(w, id); }
      forall j | Must(w, j) ensures j in w.owed && Ready(w, j) {
        RowIsSafe(w, j);
        if k :| Holds(w, k, j) { assert SafeHand(w, w.hands[k]); }
      }
    }
    if AllMarked(w) && AllReady(w) {
      forall k | k in w.hands ensures SafeHand(w, w.hands[k]) {
        assert Holds(w, k, w.hands[k].id) && w.hands[k].id in w.rows ==> Must(w, w.hands[k].id);
      }
      forall id | id in w.rows && id in w.owed ensures SafeRow(w, id) {
        assert Started(w.rows[id]) ==> Must(w, id);
      }
    }
  }

  /** A write starts only rows that were ready. */
  lemma WrittenReady(w: World, s: Step)
    requires Core(w) && Safe(w) && Enabled(w, s) && WriteOf(w, s).Some? && WriteOf(w, s).value.id in w.rows
    ensures var p := WriteOf(w, s).value;
      p.id in w.owed && (Started(Stored(w.rows[p.id], p.read, p.next)) ==> Ready(w, p.id))
  {
    hide Core, Ready, After, Applies, WithoutAgent, Marked;
    var p := WriteOf(w, s).value;
    RowIsSafe(w, p.id);
    assert SafeHand(w, w.hands[s.worker]);
    if s.Write? {
      ChangeFacts(s.change, w.hands[s.worker].row);
    }
  }

  /** Whatever must be ready after a write was ready before. */
  lemma MustWasReady(w: World, s: Step, j: TaskId)
    requires Core(w) && Safe(w) && Enabled(w, s) && WriteOf(w, s).Some? && WriteOf(w, s).value.id in w.rows
    requires Must(Apply(w, s), j)
    ensures j in w.rows && j in w.owed && Ready(w, j)
  {
    hide Core, Safe, Ready, Enabled, Apply, WriteOf, Stored, AllMarked;
    var p, w' := WriteOf(w, s).value, Apply(w, s);
    RowsAfter(w, s);
    WritersWrite(w, s);
    WriterHands(w, s);
    WrittenReady(w, s);
    SafeIs(w);
    if !Started(w'.rows[j]) {
      var k :| Holds(w', k, j);
      if k == s.worker { ReadyHand(w, k); } else { assert Holds(w, k, j); }
    }
    assert j != p.id && Started(w'.rows[j]) ==> Must(w, j);
  }

  /** The write takes a completed row back. */
  predicate Reopens(w: World, s: Step) {
    match WriteOf(w, s)
    case None => false
    case Some(p) =>
      p.id in w.rows && w.rows[p.id].status == Completed && p.next.status != p.read.status && p.next.status != Completed
  }

  /** Row `j` has started or is held by another request. */
  ghost predicate Relies(w: World, s: Step, j: TaskId) {
    match WriteOf(w, s)
    case None => false
    case Some(p) =>
      && j in w.rows
      && ((if j == p.id then p.next.status == Running else Started(w.rows[j])) || exists k :: k != s.worker && Holds(w, k, j))
  }

  /** The row written is the only completed one of a node that row `j` is owed. */
  ghost predicate Misses(w: World, s: Step, j: TaskId) {
    match WriteOf(w, s)
    case None => false
    case Some(p) =>
      && j in w.rows && j in w.owed && p.id in w.rows
      && w.rows[j].flowId == w.rows[p.id].flowId && w.rows[p.id].flowNode in w.owed[j]
      && !Done(w.rows - {p.id}, w.rows[j].flowId, w.rows[p.id].flowNode)
  }

  /** The write takes a completed row back on which another one relies. */
  ghost predicate Strands(w: World, s: Step) {
    Reopens(w, s) && exists j :: Relies(w, s, j) && Misses(w, s, j)
  }

  lemma ReopenedRow(w: World, s: Step)
    requires Enabled(w, s) && Reopens(w, s)
    ensures var p := WriteOf(w, s).value;
      && Stored(w.rows[p.id], p.read, p.next).status == p.next.status
      && Apply(w, s).owed == w.owed
  {
    hide After, Applies, WithoutAgent, TakenOut, Answered;
    var p := WriteOf(w, s).value;
    if s.Write? && s.change.Strip? {
      StripKeepsStatus(s.change.node, w.hands[s.worker].row);
    }
    OwedLessNothing(w, p.id);
    assert OutOf(w, s) == {};
  }

  lemma OwedLessNothing(w: World, id: TaskId)
    ensures OwedLess(w, id, {}) == w
  {
    if id in w.owed {
      assert w.owed[id] - {} == w.owed[id];
      assert w.owed[id := w.owed[id] - {}] == w.owed;
    }
  }

  lemma StripKeepsStatus(node: Id, t: Task)
    ensures After(Strip(node), t).status == t.status
  {
    hide DependsOn, Without;
  }

  lemma ReliesIs(w: World, s: Step, j: TaskId)
    requires Core(w) && Enabled(w, s) && Reopens(w, s)
    ensures Must(Apply(w, s), j) <==> Relies(w, s, j)
  {
    hide Core, Enabled, Apply, Stored;
    var p, w' := WriteOf(w, s).value, Apply(w, s);
    RowsAfter(w, s);
    WritersWrite(w, s);
    WriterHands(w, s);
    ReopenedRow(w, s);
    OtherHandsStay(w, s);
    if k :| Holds(w', k, j) {
      if k == s.worker { PreparingRuns(w, s); } else { assert Holds(w, k, j); }
    }
    if k :| k != s.worker && Holds(w, k, j) {
      assert Holds(w', k, j);
    }
  }

  lemma OtherHandsStay(w: World, s: Step)
    requires Enabled(w, s) && IsWriter(s)
    ensures forall k :: k in w.hands && k != s.worker ==> k in Apply(w, s).hands && Apply(w, s).hands[k] == w.hands[k]
  {
    hide Stored, OutOf, WithoutAgent, Applies, After, Answered;
  }

  lemma PreparingRuns(w: World, s: Step)
    requires Enabled(w, s) && IsWriter(s) && s.worker in Apply(w, s).hands && WriteOf(w, s).Some?
    ensures WriteOf(w, s).value.next.status == Running && Apply(w, s).hands[s.worker].id == WriteOf(w, s).value.id
  {
    hide Stored, OutOf, WithoutAgent, Applies, After, Answered;
  }

  /** A ready row stays ready unless it misses the row taken back. */
  lemma ReadyUnlessMissed(w: World, s: Step, j: TaskId)
    requires Core(w) && Enabled(w, s) && Reopens(w, s) && j in w.rows && j in w.owed && Ready(w, j)
    ensures j in Apply(w, s).rows && j in Apply(w, s).owed && (Ready(Apply(w, s), j) <==> !Misses(w, s, j))
  {
    hide Core, Enabled, Apply, Stored, Done;
    var p, w' := WriteOf(w, s).value, Apply(w, s);
    RowsAfter(w, s);
    WritersWrite(w, s);
    ReopenedRow(w, s);
    StoredKeepsColumns(w.rows[p.id], p.read, p.next);
    SameFlow(w.rows[p.id], w'.rows[p.id]);
    if w.owed[j] != {} { RowFlows(w, j); }
    forall d | d in w.owed[j]
      ensures Done(w'.rows, w.rows[j].flowId, d) <==>
        !(w.rows[j].flowId == w.rows[p.id].flowId && w.rows[p.id].flowNode == d && !Done(w.rows - {p.id}, w.rows[j].flowId, d))
    {
      assert Done(w.rows, w.rows[j].flowId, d);
      DoneWithout(w.rows, p.id, w'.rows[p.id], w.rows[j].flowId, d);
    }
  }

  lemma RowFlows(w: World, j: TaskId)
    requires j in w.rows && j in w.owed && Ready(w, j) && w.owed[j] != {}
    ensures w.rows[j].flowId != NOTHING
  {
  }

  lemma DoneWithout(rows: Rows, id: TaskId, t: Task, f: Id, d: Id)
    requires id in rows && t.flowId == rows[id].flowId && t.flowNode == rows[id].flowNode && t.status != Completed && Done(rows, f, d)
    ensures Done(rows[id := t], f, d) <==> Done(rows - {id}, f, d)
    ensures !(rows[id].flowId == f && rows[id].flowNode == d) ==> Done(rows - {id}, f, d)
  {
    var rows', rest := rows[id := t], rows - {id};
    if j :| IsNode(rows', None, f, d, j) && rows'[j].status == Completed {
      assert IsNode(rest, None, f, d, j);
    }
    if j :| IsNode(rest, None, f, d, j) && rest[j].status == Completed {
      assert IsNode(rows', None, f, d, j);
    }
    var j :| IsNode(rows, None, f, d, j) && rows[j].status == Completed;
    assert j != id ==> IsNode(rest, None, f, d, j);
  }

  /** A write that takes no completed row back keeps ready what was. */
  lemma KeepsReady(w: World, s: Step)
    requires Core(w) && Safe(w) && Enabled(w, s) && WriteOf(w, s).Some? && WriteOf(w, s).value.id in w.rows && !Reopens(w, s)
    ensures Progresses(w, Apply(w, s))
  {
    hide Core, Safe, Progresses, Enabled, Apply;
    var p := WriteOf(w, s).value;
    RowsAfter(w, s);
    WritersWrite(w, s);
    OwedAfterWrite(w, s);
    StoredKeepsColumns(w.rows[p.id], p.read, p.next);
    hide WriteOf;
    PutProgresses(w, Apply(w, s), p.id, Stored(w.rows[p.id], p.read, p.next));
  }

  lemma WriteReadyIff(w: World, s: Step)
    requires Core(w) && Safe(w) && Enabled(w, s) && WriteOf(w, s).Some? && WriteOf(w, s).value.id in w.rows
    requires Core(Apply(w, s))
    ensures AllReady(Apply(w, s)) <==> !Strands(w, s)
  {
    hide Core, Safe, Enabled, Apply, WriteOf, Must, Ready, Relies, Misses, Reopens, Progresses;
    var w' := Apply(w, s);
    if Reopens(w, s) {
      forall j ensures (Must(w', j) <==> Relies(w, s, j)) && (Must(w', j) ==> j in w'.rows && j in w'.owed && (Ready(w', j) <==> !Misses(w, s, j))) {
        ReliesIs(w, s, j);
        if Must(w', j) {
          MustInRows(w', j);
          MustWasReady(w, s, j);
          ReadyUnlessMissed(w, s, j);
        }
      }
    } else {
      KeepsReady(w, s);
      forall j | Must(w', j) ensures j in w'.rows && j in w'.owed && Ready(w', j) {
        MustWasReady(w, s, j);
        MustInRows(w', j);
        RowKnown(w', j);
        ReadyProgresses(w, w', j);
      }
    }
  }

  lemma MustInRows(w: World, j: TaskId)
    requires Must(w, j)
    ensures j in w.rows
  {
  }

  lemma StoredKeepsColumns(current: Task, read: Task, next: Task)
    ensures SameButExtras(current, Stored(current, read, next))
  {
  }

  /** After a write the worker holds nothing, or is about to send. */
  ghost predicate HandAfterWrite(w: World, s: Step, w': World) {
    && IsWriter(s)
    && (forall j :: j in w'.hands && j != s.worker ==> j in w.hands && w'.hands[j] == w.hands[j])
    && (s.worker in w'.hands ==>
          s.worker in w.hands && !w.hands[s.worker].Reading? && !w'.hands[s.worker].Reading? && w'.hands[s.worker].id == w.hands[s.worker].id)
  }

  lemma OwedAfterWrite(w: World, s: Step)
    requires Enabled(w, s) && IsWriter(s)
    ensures forall j :: j in Apply(w, s).owed ==> j in w.owed && Apply(w, s).owed[j] <= w.owed[j]
  {
    hide WriteOf, Stored, OutOf, WithoutAgent, Applies;
  }

  lemma WriterHands(w: World, s: Step)
    requires Enabled(w, s) && IsWriter(s)
    ensures HandAfterWrite(w, s, Apply(w, s))
  {
    hide Stored, OutOf, WithoutAgent, Applies, After, Answered;
  }

  lemma WriteSafeIff(w: World, s: Step)
    requires Core(w) && Safe(w) && Enabled(w, s) && IsWriter(s)
    ensures Safe(Apply(w, s)) <==> Harmless(w, s)
  {
    hide Core, Safe, Enabled, Apply, WriteOf, HandAfterWrite, Unmarks, Strands, AllMarked, AllReady;
    WritersWrite(w, s);
    StepKeepsCore(w, s);
    SafeIs(w);
    SafeIs(Apply(w, s));
    MarksKeptIff(w, s);
    if WriteOf(w, s).value.id in w.rows {
      WriteReadyIff(w, s);
    } else {
      NoUnmark(w, s);
      NoStrand(w, s);
      MissedWrite(w, s);
      WriterHands(w, s);
      hide Harmless;
      HandStepIsSafe(w, Apply(w, s), s.worker);
    }
  }

  lemma NoStrand(w: World, s: Step)
    requires WriteOf(w, s).None? || WriteOf(w, s).value.id !in w.rows
    ensures !Strands(w, s)
  {
  }

  lemma MissedWrite(w: World, s: Step)
    requires Enabled(w, s) && IsWriter(s) && WriteOf(w, s).Some? && WriteOf(w, s).value.id !in w.rows
    ensures Apply(w, s) == Released(w, s.worker)
  {
    hide Stored, OutOf, WithoutAgent, Applies, After, Answered;
  }

  /** The step overwrites no mark of an interruption, and takes back no completed row on which another one relies. */
  ghost predicate Harmless(w: World, s: Step) {
    !Unmarks(w, s) && !Strands(w, s)
  }

  lemma OnlyWritesHarm(w: World, s: Step)
    requires !IsWriter(s)
    ensures Harmless(w, s)
  {
    WritersWrite(w, s);
  }

  /** Step by step: safety is kept exactly by the harmless steps. */
  lemma StepKeepsSafeIff(w: World, s: Step)
    requires Core(w) && Safe(w) && Enabled(w, s)
    ensures Safe(Apply(w, s)) <==> Harmless(w, s)
  {
    hide Core, Safe, Harmless, Apply, Runnable, Applies, WithoutAgent;
    if IsWriter(s) {
      WriteSafeIff(w, s);
    } else {
      OnlyWritesHarm(w, s);
      match s
      case Create(id, t) => CreateIsSafe(w, id, t);
      case Remove(id) => RemoveIsSafe(w, id);
      case Pick(k, inst, id) => PickIsSafe(w, k, inst, id);
      case Claim(k) => ClaimIsSafe(w, k);
      case Refresh(k) => RefreshIsSafe(w, k);
      case Read(k, id) => ReadIsSafe(w, k, id);
    }
  }

  /** Over a run: it is safe throughout exactly if all its steps are harmless. */
  lemma {:induction false} SafeThroughoutIff(ws: seq<World>, steps: seq<Step>, i: nat)
    requires Run(ws, steps) && i < |ws|
    ensures i <= |steps|
    ensures (forall m :: 0 <= m <= i ==> Safe(ws[m])) <==> (forall m :: 0 <= m < i ==> Harmless(ws[m], steps[m]))
  {
    hide Core, ClaimsCounted, Safe, Enabled, Apply, Harmless, EMPTY;
    RunAt(ws, steps, i);
    if i == 0 {
      StartIsSafe();
    } else {
      SafeThroughoutIff(ws, steps, i - 1);
      RunAt(ws, steps, i - 1);
      RunKeepsBooks(ws, steps, i - 1);
      if Safe(ws[i - 1]) {
        StepKeepsSafeIff(ws[i - 1], steps[i - 1]);
      }
    }
  }

  lemma StartIsSafe()
    ensures Safe(EMPTY)
  {
  }

  ghost predicate HarmlessRun(ws: seq<World>, steps: seq<Step>) {
    |ws| > |steps| && forall i :: 0 <= i < |steps| ==> Harmless(ws[i], steps[i])
  }

  /**
    Then, in every state, each running or completed row has a completed row for every dependency it was created with,
    save those that a deletion has taken out since.
   */
  lemma StartedOnlyAfterDependencies(ws: seq<World>, steps: seq<Step>, i: nat, id: TaskId, d: Id)
    requires Run(ws, steps) && HarmlessRun(ws, steps) && i < |ws|
    requires id in ws[i].rows && Started(ws[i].rows[id])
    ensures id in ws[i].owed
    ensures d in ws[i].owed[id] ==> Done(ws[i].rows, ws[i].rows[id].flowId, d)
  {
    hide Core, Harmless, ClaimsCounted;
    RunKeepsBooks(ws, steps, i);
    SafeThroughoutIff(ws, steps, i);
    assert Safe(ws[i]);
    RowIsSafe(ws[i], id);
  }

  /** A request that finds the status it decided on does no harm. */
  lemma DecidedIsHarmless(w: World, s: Step)
    requires Enabled(w, s) && AsDecided(w, s)
    ensures Harmless(w, s)
  {
    hide Enabled, Relies, Misses, WriteOf;
    if Reopens(w, s) {
      ReopeningOverwrites(w, s);
      DecidedNeverOverwrites(w, s, WriteOf(w, s).value.id);
    }
    DecidedMarks(w, s);
  }

  lemma ReopeningOverwrites(w: World, s: Step)
    requires Reopens(w, s)
    ensures WriteOf(w, s).Some?
    ensures var id := WriteOf(w, s).value.id; id in w.rows && Finished(w.rows[id]) && Overwrites(w, s, id)
  {
  }

  lemma DecidedMarks(w: World, s: Step)
    requires AsDecided(w, s)
    ensures !Unmarks(w, s)
  {
  }

  /** Nor does the answer to an accepted send, whatever has become of the row, unless it was blocked meanwhile. */
  lemma AcceptedSendIsHarmless(w: World, k: Worker, status: string)
    requires Enabled(w, Settle(k, Accepted(status))) && w.hands[k].Sending? && w.hands[k].row.status == Running
    requires w.hands[k].id in w.rows ==> w.rows[w.hands[k].id].status != Blocked
    ensures Harmless(w, Settle(k, Accepted(status)))
    ensures w.hands[k].id in w.rows && w.rows[w.hands[k].id].status == Completed ==> !AsDecided(w, Settle(k, Accepted(status)))
  {
    hide WithoutAgent;
  }

  // ----- The mark of an interruption -----

  ghost predicate AllMarked(w: World) {
    && (forall id :: id in w.rows ==> Marked(w.rows[id]))
    && (forall k :: k in w.hands && w.hands[k].Reading? ==> Marked(w.hands[k].row))
  }

  /** A write that sets no status lands on a row that was blocked after the writer had read it, and overwrites the mark. */
  predicate Unmarks(w: World, s: Step) {
    match WriteOf(w, s)
    case None => false
    case Some(p) =>
      && p.id in w.rows && w.rows[p.id].status == Blocked
      && p.next.status == p.read.status != Blocked
      && p.next.dispatchStatus != "interrupted"
  }

  lemma WrittenMark(w: World, s: Step)
    requires AllMarked(w) && Enabled(w, s) && WriteOf(w, s).Some? && WriteOf(w, s).value.id in w.rows
    ensures var p := WriteOf(w, s).value;
      Marked(Stored(w.rows[p.id], p.read, p.next)) <==> !Unmarks(w, s)
  {
    hide After, Applies;
    if s.Write? {
      ChangeFacts(s.change, w.hands[s.worker].row);
      BlockedMark(s.change, w.hands[s.worker].row);
    }
  }

  lemma BlockedMark(change: Change, t: Task)
    ensures After(change, t).status == Blocked && t.status != Blocked ==> After(change, t).dispatchStatus == "interrupted"
    ensures After(change, t).status == Blocked == t.status ==> After(change, t).dispatchStatus == t.dispatchStatus
  {
    hide Text.Strip, Text.Lower, DependsOn;
  }

  /** Step by step: interrupted rows stay recognisable exactly if the step does not overwrite the mark. */
  lemma MarksKeptIff(w: World, s: Step)
    requires AllMarked(w) && Enabled(w, s)
    ensures AllMarked(Apply(w, s)) <==> !Unmarks(w, s)
  {
    hide Apply, Marked, Stored, Unmarks, WriteOf;
    RowsAfter(w, s);
    WritersWrite(w, s);
    CopiesAfter(w, s);
    if WriteOf(w, s).Some? && WriteOf(w, s).value.id in w.rows {
      var p := WriteOf(w, s).value;
      WrittenMark(w, s);
      assert Apply(w, s).rows == w.rows[p.id := Stored(w.rows[p.id], p.read, p.next)];
      assert Apply(w, s).rows[p.id] == Stored(w.rows[p.id], p.read, p.next);
    } else {
      NoUnmark(w, s);
      ClaimMarks(w, s);
    }
  }

  lemma NoUnmark(w: World, s: Step)
    requires WriteOf(w, s).None? || WriteOf(w, s).value.id !in w.rows
    ensures !Unmarks(w, s)
  {
  }

  lemma ClaimMarks(w: World, s: Step)
    requires Enabled(w, s) && AllMarked(w)
    ensures EffectOf(w, s).Added? ==> Marked(EffectOf(w, s).row)
    ensures s.Claim? && EffectOf(w, s).Changed? ==> Marked(EffectOf(w, s).to)
  {
    hide WriteOf;
  }

  /** A step's new copies are readings of the table. */
  lemma CopiesAfter(w: World, s: Step)
    requires Enabled(w, s)
    ensures forall k :: k in Apply(w, s).hands && Apply(w, s).hands[k].Reading? ==>
      || (k in w.hands && Apply(w, s).hands[k] == w.hands[k])
      || (s.Read? && s.target in w.rows && Apply(w, s).hands[k] == Reading(s.target, w.rows[s.target]))
  {
    hide WriteOf, Stored, OutOf, OwedWithout, Elements, Runnable, Applies;
  }

  /** Over a run: blocked rows keep the mark exactly if no step overwrites it. */
  lemma {:induction false} MarksHoldIff(ws: seq<World>, steps: seq<Step>, i: nat)
    requires Run(ws, steps) && i < |ws|
    ensures i <= |steps|
    ensures (forall m :: 0 <= m <= i ==> AllMarked(ws[m])) <==> (forall m :: 0 <= m < i ==> !Unmarks(ws[m], steps[m]))
  {
    hide Enabled, Apply, AllMarked, Unmarks;
    RunAt(ws, steps, i);
    if i == 0 {
      StartMarked();
    } else {
      MarksHoldIff(ws, steps, i - 1);
      RunAt(ws, steps, i - 1);
      if AllMarked(ws[i - 1]) {
        MarksKeptIff(ws[i - 1], steps[i - 1]);
      }
    }
  }

  lemma StartMarked()
    ensures AllMarked(EMPTY)
  {
  }

  /** And `continue_task` queues a marked row again, where it would approve a row that has lost its mark. */
  lemma ContinueApprovesIff(t: Task)
    requires t.status == Blocked
    ensures Marked(t) ==> Continued(t) == Resumed(t)
    ensures Continued(t).status == Completed <==> Text.Lower(Text.Strip(t.dispatchStatus)) !in ["interrupted", "stopped", "blocked"]
  {
    hide Text.Strip, Text.Lower;
    InterruptedReadsBack();
  }

  /** So as long as no write overwrites a mark, `continue_task` never takes its approval branch. */
  lemma ContinuingNeverCompletes(ws: seq<World>, steps: seq<Step>, i: nat, id: TaskId)
    requires Run(ws, steps) && i < |ws| && (forall m :: 0 <= m < i && m < |steps| ==> !Unmarks(ws[m], steps[m]))
    requires id in ws[i].rows && ws[i].rows[id].status == Blocked
    ensures Continued(ws[i].rows[id]) == Resumed(ws[i].rows[id])
  {
    hide Unmarks, Marked, Continued;
    MarksHoldIff(ws, steps, i);
    assert AllMarked(ws[i]);
    ContinueApprovesIff(ws[i].rows[id]);
  }
}
