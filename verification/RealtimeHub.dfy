/**
  The planner's publish/subscribe hub. Assigning a sequence number and copying the subscriber list happen under
  the hub's lock; the puts into the subscribers' queues happen after it, so publishes can overtake each other.
 */
module RealtimeHub {
  import opened NumberedLogs
  import opened Sequences
  import Text

  datatype Channel = Channel(user: string, board: string, session: string)

  datatype Notice = Notice(kind: string, payload: string)

  type Envelope = Numbered<Notice>

  /** `_channel_key`. */
  function ChannelKey(user: string, board: string, session: string): Channel {
    var name := Text.Strip(board);
    Channel(user, if name == "" then "default" else name, Text.Strip(session))
  }

  /** Same user, same session, and the same board, where a blank one is the default board. */
  predicate SameChannel(user: string, board: string, session: string, user': string, board': string, session': string) {
    && user == user' && Text.Strip(session) == Text.Strip(session')
    && (Text.Strip(board) == Text.Strip(board')
        || (Text.Strip(board) in {"", "default"} && Text.Strip(board') in {"", "default"}))
  }

  lemma ChannelsMean(user: string, board: string, session: string, user': string, board': string, session': string)
    ensures ChannelKey(user, board, session) == ChannelKey(user', board', session') <==> SameChannel(user, board, session, user', board', session')
  {
    hide Text.Strip;
  }

  /** One subscriber's queue; the ghost constants say whose it is. */
  class Mailbox {
    var items: seq<Envelope>
    ghost const home: Channel
    ghost const owner: string

    constructor (home: Channel, owner: string)
      ensures items == [] && this.home == home && this.owner == owner
    {
      items := [];
      this.home, this.owner := home, owner;
    }

    method Put(e: Envelope)
      modifies this
      ensures items == old(items) + [e]
    {
      items := items + [e];
    }
  }

  class Hub {
    var seqs: map<Channel, nat>
    var subscribers: map<Channel, map<string, Mailbox>>

    /** No queue is registered twice, and no channel keeps an empty subscriber table. */
    ghost predicate Valid()
      reads this
    {
      forall c {:trigger subscribers[c]} :: c in subscribers ==> subscribers[c] != map[] && Own(c, subscribers[c])
    }

    static ghost predicate Own(c: Channel, boxes: map<string, Mailbox>) {
      forall i {:trigger boxes[i]} :: i in boxes ==> boxes[i].home == c && boxes[i].owner == i
    }

    constructor ()
      ensures Valid() && seqs == map[] && subscribers == map[]
    {
      seqs, subscribers := map[], map[];
    }

    function Latest(c: Channel): nat
      reads this
    {
      if c in seqs then seqs[c] else 0
    }

    function Boxes(c: Channel): map<string, Mailbox>
      reads this
    {
      if c in subscribers then subscribers[c] else map[]
    }

    /** The returned number is the baseline: the subscriber is owed everything after it. */
    method Subscribe(user: string, board: string, session: string, id: string) returns (box: Mailbox, baseline: nat)
      requires Valid()
      modifies this
      ensures Valid() && fresh(box) && box.items == []
      ensures seqs == old(seqs) && baseline == Latest(ChannelKey(user, board, session))
      ensures Boxes(ChannelKey(user, board, session)) == old(Boxes(ChannelKey(user, board, session)))[id := box]
      ensures forall c :: c != ChannelKey(user, board, session) ==> Boxes(c) == old(Boxes(c))
      ensures id !in old(Boxes(ChannelKey(user, board, session))) ==>
        forall s: State, at: map<Sub, Mailbox>, q: Sub ::
          MayJoin(s, q) && Shown(s, baseline, old(Boxes(ChannelKey(user, board, session))), at) ==>
            Shown(Apply(s, Join(q)), baseline, Boxes(ChannelKey(user, board, session)), at[q := box])
    {
      hide Text.Strip, ChannelKey, Shown, Apply;
      var c := ChannelKey(user, board, session);
      ghost var before := Boxes(c);
      box := new Mailbox(c, id);
      var boxes := Boxes(c)[id := box];
      assert id in boxes;
      subscribers := subscribers[c := boxes];
      baseline := Latest(c);
      assert box !in before.Values;
      forall s: State, at: map<Sub, Mailbox>, q: Sub | id !in before && MayJoin(s, q) && Shown(s, baseline, before, at)
        ensures Shown(Apply(s, Join(q)), baseline, before[id := box], at[q := box])
      {
        SubscribeIsJoin(s, baseline, before, at, id, box, q);
      }
    }

    method Unsubscribe(user: string, board: string, session: string, id: string)
      requires Valid()
      modifies this
      ensures Valid() && seqs == old(seqs)
      ensures Boxes(ChannelKey(user, board, session)) == old(Boxes(ChannelKey(user, board, session))) - {id}
      ensures forall c :: c != ChannelKey(user, board, session) ==> Boxes(c) == old(Boxes(c))
      ensures id in old(Boxes(ChannelKey(user, board, session))) ==>
        forall s: State, at: map<Sub, Mailbox>, q: Sub ::
          Owns(s, at, q, old(Boxes(ChannelKey(user, board, session)))[id])
          && Shown(s, Latest(ChannelKey(user, board, session)), old(Boxes(ChannelKey(user, board, session))), at) ==>
            Shown(Apply(s, Leave(q)), Latest(ChannelKey(user, board, session)), Boxes(ChannelKey(user, board, session)), at)
    {
      hide Text.Strip, ChannelKey, Shown, Apply;
      var c := ChannelKey(user, board, session);
      ghost var before, latest := Boxes(c), Latest(c);
      assert forall i, j :: i in before && j in before && before[i] == before[j] ==> i == j by {
        OneOwner(c, before);
      }
      forall s: State, at: map<Sub, Mailbox>, q: Sub | id in before && Owns(s, at, q, before[id]) && Shown(s, latest, before, at)
        ensures Shown(Apply(s, Leave(q)), latest, before - {id}, at)
      {
        UnsubscribeIsLeave(s, latest, before, at, id, q);
      }
      if c !in subscribers {
        return;
      }
      var boxes := subscribers[c] - {id};
      if boxes != map[] {
        subscribers := subscribers[c := boxes];
      } else {
        subscribers := subscribers - {c};
      }
    }

    /** The locked part of `_publish`. */
    method BeginPublish(c: Channel) returns (n: nat, targets: map<string, Mailbox>)
      requires Valid()
      modifies this
      ensures Valid() && subscribers == old(subscribers)
      ensures n == old(Latest(c)) + 1 && seqs == old(seqs)[c := n] && targets == old(Boxes(c))
      ensures forall s: State, at: map<Sub, Mailbox>, p: Pid, notice: Notice :: Shown(s, n - 1, targets, at) && p !in s.flights ==>
        var s' := Apply(s, Begin(p, notice));
        && Shown(s', Latest(c), Boxes(c), at) && s'.flights[p].envelope == Numbered(n, notice)
        && s'.flights[p].targets <= at.Keys && (set q | q in s'.flights[p].targets :: at[q]) == targets.Values
    {
      forall s: State, at: map<Sub, Mailbox>, p: Pid, notice: Notice | Shown(s, Latest(c), Boxes(c), at) && p !in s.flights
        ensures var s' := Apply(s, Begin(p, notice));
          && Shown(s', Latest(c) + 1, Boxes(c), at) && s'.flights[p].envelope == Numbered(Latest(c) + 1, notice)
          && s'.flights[p].targets <= at.Keys && (set q | q in s'.flights[p].targets :: at[q]) == Boxes(c).Values
      {
        BeginPublishIsBegin(s, Latest(c), Boxes(c), at, p, notice);
      }
      n := Latest(c) + 1;
      seqs := seqs[c := n];
      targets := Boxes(c);
    }

    /** A publish that nothing interleaves with: every subscriber of the channel, and nobody else, gets one envelope. */
    method Publish(user: string, board: string, session: string, notice: Notice)
      requires Valid()
      modifies this, Boxes(ChannelKey(user, board, session)).Values
      ensures Valid() && subscribers == old(subscribers)
      ensures Text.Strip(session) == "" ==>
        seqs == old(seqs) && forall i :: i in Boxes(ChannelKey(user, board, session)) ==>
          Boxes(ChannelKey(user, board, session))[i].items == old(Boxes(ChannelKey(user, board, session))[i].items)
      ensures Text.Strip(session) != "" ==>
        && seqs == old(seqs)[ChannelKey(user, board, session) := old(Latest(ChannelKey(user, board, session))) + 1]
        && forall i :: i in Boxes(ChannelKey(user, board, session)) ==>
          Boxes(ChannelKey(user, board, session))[i].items
          == old(Boxes(ChannelKey(user, board, session))[i].items) + [Numbered(Latest(ChannelKey(user, board, session)), notice)]
      ensures forall user': string, board': string, session': string :: !SameChannel(user, board, session, user', board', session') ==>
        && Latest(ChannelKey(user', board', session')) == old(Latest(ChannelKey(user', board', session')))
        && forall i :: i in Boxes(ChannelKey(user', board', session')) ==>
          Boxes(ChannelKey(user', board', session'))[i].items == old(Boxes(ChannelKey(user', board', session'))[i].items)
    {
      forall user': string, board': string, session': string | !SameChannel(user, board, session, user', board', session')
        ensures ChannelKey(user', board', session') != ChannelKey(user, board, session)
      {
        ChannelsMean(user, board, session, user', board', session');
      }
      hide SameChannel, Text.Strip, ChannelKey;
      var c := ChannelKey(user, board, session);
      if Text.Strip(session) == "" {
        return;
      }
      var n, targets := BeginPublish(c);
      OwnTargets(c);
      Deliver(c, targets, Numbered(n, notice));
    }

    lemma OwnTargets(c: Channel)
      requires Valid()
      ensures Own(c, Boxes(c))
    {
    }

    /** The puts, outside the lock. */
    static method Deliver(ghost c: Channel, targets: map<string, Mailbox>, e: Envelope)
      requires Own(c, targets)
      modifies targets.Values
      ensures forall i :: i in targets ==> targets[i].items == old(targets[i].items) + [e]
    {
      var ids := targets.Keys;
      while ids != {}
        invariant ids <= targets.Keys
        invariant forall i :: i in targets ==> targets[i].items == old(targets[i].items) + if i in ids then [] else [e]
        decreases |ids|
      {
        var i :| i in ids;
        targets[i].Put(e);
        ids := ids - {i};
      }
    }
  }

  // ----- One channel under every interleaving -----

  type Sub = nat
  type Pid = nat

  /** A publish between its locked part and its last put. */
  datatype Flight = Flight(envelope: Envelope, targets: set<Sub>)

  /** What was ever put into a subscriber's queue, and how much of it the subscriber has taken out again. */
  datatype Inbox = Inbox(baseline: nat, arrived: seq<Envelope>, taken: nat)

  /** `log` is every notice published so far; entry `k` carries sequence number `k + 1`. */
  datatype State = State(
    log: seq<Notice>,
    joined: set<Sub>,
    inboxes: map<Sub, Inbox>,
    flights: map<Pid, Flight>)

  datatype Step =
    | Join(sub: Sub)
    | Leave(sub: Sub)
    | Begin(pid: Pid, notice: Notice)
    | Put(pid: Pid, sub: Sub)
    | Finish(pid: Pid)
    | Take(sub: Sub)

  predicate Enabled(s: State, step: Step) {
    match step
    case Join(q) => q !in s.inboxes
    case Leave(q) => q in s.joined
    case Begin(p, _) => p !in s.flights
    case Put(p, q) => p in s.flights && q in s.flights[p].targets && q in s.inboxes
    case Finish(p) => p in s.flights && s.flights[p].targets == {}
    case Take(q) => q in s.inboxes && s.inboxes[q].taken < |s.inboxes[q].arrived|
  }

  function Apply(s: State, step: Step): State
    requires Enabled(s, step)
  {
    match step
    case Join(q) => s.(joined := s.joined + {q}, inboxes := s.inboxes[q := Inbox(|s.log|, [], 0)])
    case Leave(q) => s.(joined := s.joined - {q})
    case Begin(p, x) =>
      s.(log := s.log + [x], flights := s.flights[p := Flight(Numbered(|s.log| + 1, x), s.joined)])
    case Put(p, q) =>
      var f, box := s.flights[p], s.inboxes[q];
      s.(inboxes := s.inboxes[q := box.(arrived := box.arrived + [f.envelope])],
         flights := s.flights[p := f.(targets := f.targets - {q})])
    case Finish(p) => s.(flights := s.flights - {p})
    case Take(q) =>
      var box := s.inboxes[q];
      s.(inboxes := s.inboxes[q := box.(taken := box.taken + 1)])
  }

  ghost predicate Run(states: seq<State>, steps: seq<Step>) {
    && |states| == |steps| + 1
    && states[0] == State([], {}, map[], map[])
    && forall i :: 0 <= i < |steps| ==> Follows(states[i], steps[i], states[i + 1])
  }

  ghost predicate Follows(s: State, step: Step, s': State) {
    Enabled(s, step) && s' == Apply(s, step)
  }

  // ----- The hub as a step system -----

  /** `latest` and `boxes` are what the hub holds of a channel in state `s`; `at` gives each subscriber its queue. */
  ghost predicate Shown(s: State, latest: nat, boxes: map<string, Mailbox>, at: map<Sub, Mailbox>) {
    && latest == |s.log|
    && s.joined <= at.Keys
    && (forall q, r :: q in s.joined && r in s.joined && at[q] == at[r] ==> q == r)
    && (forall q :: q in s.joined ==> at[q] in boxes.Values)
    && (forall box :: box in boxes.Values ==> exists q :: q in s.joined && at[q] == box)
  }

  ghost predicate MayJoin(s: State, q: Sub) {
    q !in s.inboxes && s.joined <= s.inboxes.Keys
  }

  ghost predicate Owns(s: State, at: map<Sub, Mailbox>, q: Sub, box: Mailbox) {
    q in s.joined && q in at && at[q] == box
  }

  lemma OneOwner(c: Channel, boxes: map<string, Mailbox>)
    requires Hub.Own(c, boxes)
    ensures forall i, j :: i in boxes && j in boxes && boxes[i] == boxes[j] ==> i == j
  {
  }

  /** Subscribing is the step `Join`, and hands out the baseline of that step. */
  lemma SubscribeIsJoin(s: State, latest: nat, boxes: map<string, Mailbox>, at: map<Sub, Mailbox>, id: string, box: Mailbox, q: Sub)
    requires Shown(s, latest, boxes, at) && MayJoin(s, q) && id !in boxes && box !in boxes.Values
    ensures Shown(Apply(s, Join(q)), latest, boxes[id := box], at[q := box])
    ensures Apply(s, Join(q)).inboxes[q] == Inbox(latest, [], 0)
  {
    var s', boxes', at' := Apply(s, Join(q)), boxes[id := box], at[q := box];
    forall r | r in s'.joined ensures at'[r] in boxes'.Values {
      if r == q {
        assert boxes'[id] == box;
      } else {
        var i :| i in boxes && boxes[i] == at[r];
        assert boxes'[i] == at[r];
      }
    }
    forall b | b in boxes'.Values ensures exists r :: r in s'.joined && at'[r] == b {
      var i :| i in boxes' && boxes'[i] == b;
      if i == id {
        assert at'[q] == b;
      } else {
        assert boxes[i] == b && b in boxes.Values;
        var r :| r in s.joined && at[r] == b;
        assert at'[r] == b;
      }
    }
  }

  /** The locked part of a publish is the step `Begin`: its number, and its targets as that step fixes them. */
  lemma BeginPublishIsBegin(s: State, latest: nat, boxes: map<string, Mailbox>, at: map<Sub, Mailbox>, p: Pid, notice: Notice)
    requires Shown(s, latest, boxes, at) && Enabled(s, Begin(p, notice))
    ensures var s' := Apply(s, Begin(p, notice));
      && Shown(s', latest + 1, boxes, at)
      && s'.flights[p].envelope == Numbered(latest + 1, notice)
      && s'.flights[p].targets <= at.Keys
      && (set q | q in s'.flights[p].targets :: at[q]) == boxes.Values
  {
  }

  /** Unsubscribing is the step `Leave`. */
  lemma UnsubscribeIsLeave(s: State, latest: nat, boxes: map<string, Mailbox>, at: map<Sub, Mailbox>, id: string, q: Sub)
    requires Shown(s, latest, boxes, at) && id in boxes && Owns(s, at, q, boxes[id])
    requires forall i, j :: i in boxes && j in boxes && boxes[i] == boxes[j] ==> i == j
    ensures Shown(Apply(s, Leave(q)), latest, boxes - {id}, at)
  {
    var s', boxes' := Apply(s, Leave(q)), boxes - {id};
    forall r | r in s'.joined ensures at[r] in boxes'.Values {
      var i :| i in boxes && boxes[i] == at[r];
      assert i != id;
      assert boxes'[i] == at[r];
    }
    forall b | b in boxes'.Values ensures exists r :: r in s'.joined && at[r] == b {
      var i :| i in boxes' && boxes'[i] == b;
      assert b in boxes.Values;
      var r :| r in s.joined && at[r] == b;
      assert r != q;
    }
  }

  // ----- What every step keeps -----

  /** `e` is on its way to `q` and has not arrived there yet. */
  ghost predicate Deliverable(s: State, e: Envelope, q: Sub) {
    q in s.inboxes && s.inboxes[q].baseline < e.seqNo && e !in s.inboxes[q].arrived
  }

  ghost predicate FlightOk(s: State, p: Pid)
    requires p in s.flights
  {
    && Genuine(s.log, s.flights[p].envelope)
    && forall q :: q in s.flights[p].targets ==> Deliverable(s, s.flights[p].envelope, q)
  }

  ghost predicate FlightsOk(s: State) {
    && (forall p :: p in s.flights ==> FlightOk(s, p))
    && forall p, r :: p in s.flights && r in s.flights && s.flights[p].envelope == s.flights[r].envelope ==> p == r
  }

  ghost predicate BoxOk(log: seq<Notice>, box: Inbox) {
    && box.baseline <= |log|
    && Distinct(box.arrived)
    && forall e :: e in box.arrived ==> Genuine(log, e) && box.baseline < e.seqNo
  }

  ghost predicate BoxesOk(s: State) {
    forall q :: q in s.inboxes ==> BoxOk(s.log, s.inboxes[q])
  }

  ghost predicate OnItsWay(s: State, q: Sub, e: Envelope) {
    exists p :: p in s.flights && s.flights[p].envelope == e && q in s.flights[p].targets
  }

  ghost predicate Arrives(s: State, q: Sub, e: Envelope)
    requires q in s.inboxes
  {
    e in s.inboxes[q].arrived || OnItsWay(s, q, e)
  }

  /** Nothing published since the subscriber joined is missing: it has arrived or is about to. */
  ghost predicate Owed(s: State, q: Sub) {
    && q in s.inboxes
    && forall e :: Genuine(s.log, e) && s.inboxes[q].baseline < e.seqNo ==> Arrives(s, q, e)
  }

  ghost predicate NothingLost(s: State) {
    forall q :: q in s.joined ==> Owed(s, q)
  }

  ghost predicate Inv(s: State) {
    FlightsOk(s) && BoxesOk(s) && NothingLost(s)
  }

  lemma OnItsWayStays(s: State, s': State, q: Sub, e: Envelope)
    requires OnItsWay(s, q, e)
    requires forall p :: p in s.flights && s.flights[p].envelope == e && q in s.flights[p].targets
               ==> p in s'.flights && s'.flights[p].envelope == e && q in s'.flights[p].targets
    ensures OnItsWay(s', q, e)
  {
    var p :| p in s.flights && s.flights[p].envelope == e && q in s.flights[p].targets;
    assert p in s'.flights;
  }

  lemma PutFlights(s: State, p: Pid, q: Sub, s': State)
    requires FlightsOk(s) && Enabled(s, Put(p, q)) && s' == Apply(s, Put(p, q))
    ensures FlightsOk(s')
  {
    forall r | r in s'.flights ensures FlightOk(s', r) {
      assert FlightOk(s, r);
      forall c | c in s'.flights[r].targets ensures Deliverable(s', s'.flights[r].envelope, c) {
        assert Deliverable(s, s.flights[r].envelope, c);
      }
    }
  }

  lemma PutOwed(s: State, p: Pid, q: Sub, s': State, c: Sub)
    requires Owed(s, c) && Enabled(s, Put(p, q)) && s' == Apply(s, Put(p, q))
    ensures Owed(s', c)
  {
    hide Genuine;
    forall e | Genuine(s.log, e) && s.inboxes[c].baseline < e.seqNo ensures Arrives(s', c, e) {
      assert Arrives(s, c, e);
      if e !in s'.inboxes[c].arrived {
        OnItsWayStays(s, s', c, e);
      }
    }
  }

  lemma PutKeeps(s: State, p: Pid, q: Sub)
    requires Inv(s) && Enabled(s, Put(p, q))
    ensures Inv(Apply(s, Put(p, q)))
  {
    hide FlightsOk, Owed, OnItsWay;
    var s' := Apply(s, Put(p, q));
    PutFlights(s, p, q, s');
    PutBox(s, p, q);
    forall c | c in s'.inboxes ensures BoxOk(s'.log, s'.inboxes[c]) {
      assert BoxOk(s.log, s.inboxes[c]);
    }
    forall c | c in s'.joined ensures Owed(s', c) {
      PutOwed(s, p, q, s', c);
    }
  }

  lemma BoxGains(log: seq<Notice>, box: Inbox, e: Envelope)
    requires BoxOk(log, box) && Genuine(log, e) && box.baseline < e.seqNo && e !in box.arrived
    ensures BoxOk(log, box.(arrived := box.arrived + [e]))
  {
    hide Distinct, Genuine;
    DistinctAppend(box.arrived, e);
  }

  lemma PutBox(s: State, p: Pid, q: Sub)
    requires FlightsOk(s) && BoxesOk(s) && Enabled(s, Put(p, q))
    ensures BoxOk(s.log, Apply(s, Put(p, q)).inboxes[q])
  {
    hide BoxOk, Genuine;
    assert FlightOk(s, p) && Deliverable(s, s.flights[p].envelope, q);
    BoxGains(s.log, s.inboxes[q], s.flights[p].envelope);
  }

  lemma BeginFlights(s: State, p: Pid, notice: Notice, s': State)
    requires Inv(s) && Enabled(s, Begin(p, notice)) && s' == Apply(s, Begin(p, notice))
    ensures FlightsOk(s')
  {
    hide OnItsWay, Arrives;
    var e := s'.flights[p].envelope;
    forall r | r in s'.flights ensures FlightOk(s', r) {
      if r != p {
        assert FlightOk(s, r);
        forall c | c in s'.flights[r].targets ensures Deliverable(s', s'.flights[r].envelope, c) {
          assert Deliverable(s, s.flights[r].envelope, c);
        }
      } else {
        forall q | q in s'.flights[p].targets ensures Deliverable(s', e, q) {
          assert Owed(s, q) && BoxOk(s.log, s.inboxes[q]);
        }
      }
    }
    forall r | r in s.flights ensures s.flights[r].envelope != e { assert FlightOk(s, r); }
  }

  lemma BeginOwed(s: State, p: Pid, notice: Notice, s': State, c: Sub)
    requires Owed(s, c) && c in s.joined && Enabled(s, Begin(p, notice)) && s' == Apply(s, Begin(p, notice))
    ensures Owed(s', c)
  {
    forall e | Genuine(s'.log, e) && s'.inboxes[c].baseline < e.seqNo ensures Arrives(s', c, e) {
      if e.seqNo > |s.log| {
        assert e == s'.flights[p].envelope && c in s'.flights[p].targets;
      } else {
        assert Genuine(s.log, e);
        assert Arrives(s, c, e);
        if e !in s.inboxes[c].arrived {
          OnItsWayStays(s, s', c, e);
        }
      }
    }
  }

  lemma BeginKeeps(s: State, p: Pid, notice: Notice)
    requires Inv(s) && Enabled(s, Begin(p, notice))
    ensures Inv(Apply(s, Begin(p, notice)))
  {
    hide FlightsOk, Owed;
    var s' := Apply(s, Begin(p, notice));
    BeginFlights(s, p, notice, s');
    forall c | c in s'.inboxes ensures BoxOk(s'.log, s'.inboxes[c]) {
      assert BoxOk(s.log, s.inboxes[c]);
    }
    forall c | c in s'.joined ensures Owed(s', c) {
      BeginOwed(s, p, notice, s', c);
    }
  }

  lemma OtherOwed(s: State, step: Step, s': State, c: Sub)
    requires Owed(s, c) && Enabled(s, step) && !step.Put? && !step.Begin? && s' == Apply(s, step)
    ensures Owed(s', c)
  {
    hide Genuine;
    assert s'.inboxes[c].arrived == s.inboxes[c].arrived && s'.inboxes[c].baseline == s.inboxes[c].baseline;
    forall e | Genuine(s.log, e) && s.inboxes[c].baseline < e.seqNo ensures Arrives(s', c, e) {
      assert Arrives(s, c, e);
      if e !in s.inboxes[c].arrived {
        OnItsWayStays(s, s', c, e);
      }
    }
  }

  lemma JoinedNow(s: State, q: Sub)
    requires Enabled(s, Join(q))
    ensures Owed(Apply(s, Join(q)), q)
  {
  }

  lemma OtherFlights(s: State, step: Step, s': State)
    requires FlightsOk(s) && Enabled(s, step) && !step.Put? && !step.Begin? && s' == Apply(s, step)
    ensures FlightsOk(s')
  {
    forall r | r in s'.flights ensures FlightOk(s', r) {
      assert FlightOk(s, r);
      forall c | c in s'.flights[r].targets ensures Deliverable(s', s'.flights[r].envelope, c) {
        assert Deliverable(s, s.flights[r].envelope, c);
      }
    }
  }

  lemma OtherKeeps(s: State, step: Step)
    requires Inv(s) && Enabled(s, step) && !step.Put? && !step.Begin?
    ensures Inv(Apply(s, step))
  {
    hide FlightsOk, Owed, Genuine;
    var s' := Apply(s, step);
    OtherFlights(s, step, s');
    forall q | q in s'.inboxes ensures BoxOk(s'.log, s'.inboxes[q]) {
      assert q in s.inboxes ==> BoxOk(s.log, s.inboxes[q]);
    }
    forall c | c in s'.joined ensures Owed(s', c) {
      if c in s.joined {
        OtherOwed(s, step, s', c);
      } else {
        JoinedNow(s, c);
      }
    }
  }

  lemma StepKeepsInv(s: State, step: Step)
    requires Inv(s) && Enabled(s, step)
    ensures Inv(Apply(s, step))
  {
    hide Inv, Enabled, Apply;
    match step
    case Put(p, q) => PutKeeps(s, p, q);
    case Begin(p, x) => BeginKeeps(s, p, x);
    case _ => OtherKeeps(s, step);
  }

  lemma InitInv()
    ensures Inv(State([], {}, map[], map[]))
  {
  }

  lemma {:induction false} RunKeepsInv(states: seq<State>, steps: seq<Step>, i: nat)
    requires Run(states, steps) && i < |states|
    ensures Inv(states[i])
  {
    hide Inv, Enabled, Apply;
    if i == 0 {
      InitInv();
    } else {
      RunKeepsInv(states, steps, i - 1);
      assert Follows(states[i - 1], steps[i - 1], states[i]);
      StepKeepsInv(states[i - 1], steps[i - 1]);
    }
  }

  // ----- What a subscriber has received -----

  /**
    Whatever the interleaving: a subscriber that stayed and that no publish still has to reach has received every
    sequence number after its baseline exactly once, with the notice published under it.
   */
  lemma ReceivedExactlyOnce(states: seq<State>, steps: seq<Step>, i: nat, q: Sub)
    requires Run(states, steps) && i < |states| && q in states[i].joined
    requires forall p :: p in states[i].flights ==> q !in states[i].flights[p].targets
    ensures q in states[i].inboxes
    ensures multiset(states[i].inboxes[q].arrived) == multiset(After(states[i].log, states[i].inboxes[q].baseline))
  {
    RunKeepsInv(states, steps, i);
    var s := states[i];
    assert Owed(s, q);
    var box := s.inboxes[q];
    assert BoxOk(s.log, box);
    AfterContents(s.log, box.baseline);
    forall e ensures e in box.arrived <==> e in After(s.log, box.baseline) {
      assert !OnItsWay(s, q, e);
      assert Genuine(s.log, e) && box.baseline < e.seqNo ==> Arrives(s, q, e);
    }
    DistinctSameElements(box.arrived, After(s.log, box.baseline));
  }

  /** A subscriber that left has no duplicates either, and nothing from before it joined. */
  lemma NeverTwice(states: seq<State>, steps: seq<Step>, i: nat, q: Sub)
    requires Run(states, steps) && i < |states| && q in states[i].inboxes
    ensures multiset(states[i].inboxes[q].arrived) <= multiset(After(states[i].log, states[i].inboxes[q].baseline))
  {
    RunKeepsInv(states, steps, i);
    var box := states[i].inboxes[q];
    assert BoxOk(states[i].log, box);
    AfterContents(states[i].log, box.baseline);
    DistinctMultiplicity(box.arrived);
    DistinctMultiplicity(After(states[i].log, box.baseline));
  }

  // ----- Publishes that do not overlap -----

  /** No publish begins while another is in flight. */
  ghost predicate OneAtATime(states: seq<State>, steps: seq<Step>) {
    forall i :: 0 <= i < |steps| && i < |states| && steps[i].Begin? ==> states[i].flights == map[]
  }

  ghost predicate Pending(s: State, q: Sub) {
    exists p :: p in s.flights && q in s.flights[p].targets
  }

  ghost predicate InOrder(s: State, q: Sub)
    requires q in s.inboxes
  {
    var box := s.inboxes[q];
    && box.baseline <= |s.log|
    && box.arrived <= After(s.log, box.baseline)
    && (Pending(s, q) ==>
          |s.log| > box.baseline && box.arrived == After(s.log[..|s.log| - 1], box.baseline))
    && (q in s.joined && !Pending(s, q) ==> box.arrived == After(s.log, box.baseline))
  }

  ghost predicate OrderInv(s: State) {
    && (forall q :: q in s.inboxes ==> InOrder(s, q))
    && (forall q :: q in s.joined ==> q in s.inboxes)
    && (forall p, r :: p in s.flights && r in s.flights ==> p == r)
    && forall p :: p in s.flights ==> |s.log| > 0 && s.flights[p].envelope == Numbered(|s.log|, s.log[|s.log| - 1])
  }

  lemma PutInOrder(s: State, p: Pid, q: Sub, c: Sub)
    requires OrderInv(s) && Enabled(s, Put(p, q)) && c in s.inboxes
    ensures InOrder(Apply(s, Put(p, q)), c)
  {
    var s' := Apply(s, Put(p, q));
    assert InOrder(s, c);
    if c == q {
      assert Pending(s, q);
      AfterExtends(s.log[..|s.log| - 1], s.log[|s.log| - 1], s.inboxes[q].baseline);
      assert s.log[..|s.log| - 1] + [s.log[|s.log| - 1]] == s.log;
      assert !Pending(s', q);
    } else {
      assert Pending(s', c) <==> Pending(s, c) by {
        if r :| r in s.flights && c in s.flights[r].targets { assert c in s'.flights[r].targets; }
      }
    }
  }

  lemma BeginInOrder(s: State, p: Pid, notice: Notice, c: Sub)
    requires OrderInv(s) && Enabled(s, Begin(p, notice)) && s.flights == map[] && c in s.inboxes
    ensures InOrder(Apply(s, Begin(p, notice)), c)
  {
    var s' := Apply(s, Begin(p, notice));
    assert InOrder(s, c) && !Pending(s, c);
    AfterExtends(s.log, notice, s.inboxes[c].baseline);
    assert s'.log[..|s'.log| - 1] == s.log;
    assert c in s.joined ==> c in s'.flights[p].targets;
  }

  lemma OtherInOrder(s: State, step: Step, c: Sub)
    requires FlightsOk(s) && OrderInv(s) && Enabled(s, step) && !step.Begin? && !step.Put? && c in Apply(s, step).inboxes
    ensures InOrder(Apply(s, step), c)
  {
    var s' := Apply(s, step);
    if c in s.inboxes {
      assert InOrder(s, c);
      assert Pending(s', c) <==> Pending(s, c) by {
        if r :| r in s.flights && c in s.flights[r].targets { assert c in s'.flights[r].targets; }
      }
    } else {
      forall r | r in s.flights ensures c !in s.flights[r].targets {
        assert FlightOk(s, r) && !Deliverable(s, s.flights[r].envelope, c);
      }
      assert !Pending(s', c);
    }
  }

  lemma StepKeepsOrder(s: State, step: Step)
    requires Inv(s) && OrderInv(s) && Enabled(s, step) && (step.Begin? ==> s.flights == map[])
    ensures OrderInv(Apply(s, step))
  {
    hide InOrder;
    var s' := Apply(s, step);
    forall c | c in s'.inboxes ensures InOrder(s', c) {
      match step
      case Put(p, q) => PutInOrder(s, p, q, c);
      case Begin(p, x) => BeginInOrder(s, p, x, c);
      case _ => OtherInOrder(s, step, c);
    }
  }

  lemma {:induction false} RunKeepsOrder(states: seq<State>, steps: seq<Step>, i: nat)
    requires Run(states, steps) && OneAtATime(states, steps) && i < |states|
    ensures OrderInv(states[i])
  {
    hide Inv, Enabled, Apply, OrderInv;
    if i == 0 {
      InitOrder();
    } else {
      RunKeepsOrder(states, steps, i - 1);
      RunKeepsInv(states, steps, i - 1);
      assert Follows(states[i - 1], steps[i - 1], states[i]);
      StepKeepsOrder(states[i - 1], steps[i - 1]);
    }
  }

  lemma InitOrder()
    ensures OrderInv(State([], {}, map[], map[]))
  {
  }

  /** When publishes do not overlap, what has arrived is always a gap-free, ordered stretch from the baseline on. */
  lemma ReceivedInOrder(states: seq<State>, steps: seq<Step>, i: nat, q: Sub)
    requires Run(states, steps) && OneAtATime(states, steps) && i < |states| && q in states[i].inboxes
    ensures states[i].inboxes[q].arrived <= After(states[i].log, states[i].inboxes[q].baseline)
    ensures q in states[i].joined && states[i].flights == map[]
      ==> states[i].inboxes[q].arrived == After(states[i].log, states[i].inboxes[q].baseline)
  {
    RunKeepsOrder(states, steps, i);
    assert InOrder(states[i], q);
    assert states[i].flights == map[] ==> !Pending(states[i], q);
  }

  // ----- Exactly when the order is kept -----

  /** Everything numbered up to `n` since the subscriber joined has arrived or is on its way, and nothing after `n`. */
  ghost predicate Upto(s: State, q: Sub, n: nat)
    requires q in s.inboxes
  {
    && s.inboxes[q].baseline <= n <= |s.log|
    && (q in s.joined ==> n == |s.log|)
    && forall e :: Arrives(s, q, e) <==> Genuine(s.log, e) && s.inboxes[q].baseline < e.seqNo <= n
  }

  ghost predicate Reaching(s: State, q: Sub) {
    q in s.inboxes ==> exists n: nat :: Upto(s, q, n)
  }

  lemma ArrivesAfterPut(s: State, p: Pid, c: Sub, q: Sub, e: Envelope)
    requires Inv(s) && Enabled(s, Put(p, c)) && q in s.inboxes
    ensures Arrives(Apply(s, Put(p, c)), q, e) <==> Arrives(s, q, e)
  {
    hide BoxesOk, NothingLost, Genuine;
    var s' := Apply(s, Put(p, c));
    if OnItsWay(s, q, e) && e !in s'.inboxes[q].arrived {
      OnItsWayStays(s, s', q, e);
    }
    if OnItsWay(s', q, e) {
      var r :| r in s'.flights && s'.flights[r].envelope == e && q in s'.flights[r].targets;
      assert r in s.flights && s.flights[r].envelope == e && q in s.flights[r].targets;
    }
    assert c == q ==> OnItsWay(s, q, s.flights[p].envelope);
  }

  lemma ArrivesAfterOther(s: State, step: Step, q: Sub, e: Envelope)
    requires Enabled(s, step) && !step.Put? && !step.Begin? && q in s.inboxes
    ensures q in Apply(s, step).inboxes && (Arrives(Apply(s, step), q, e) <==> Arrives(s, q, e))
  {
    var s' := Apply(s, step);
    if OnItsWay(s, q, e) {
      OnItsWayStays(s, s', q, e);
    }
    if OnItsWay(s', q, e) {
      var r :| r in s'.flights && s'.flights[r].envelope == e && q in s'.flights[r].targets;
      assert r in s.flights && s.flights[r].envelope == e && q in s.flights[r].targets;
    }
  }

  lemma ArrivesAfterBegin(s: State, p: Pid, notice: Notice, q: Sub, e: Envelope)
    requires Enabled(s, Begin(p, notice)) && q in s.inboxes
    ensures var s' := Apply(s, Begin(p, notice));
      q in s'.inboxes && (Arrives(s', q, e) <==> Arrives(s, q, e) || (q in s.joined && e == Numbered(|s.log| + 1, notice)))
  {
    var s' := Apply(s, Begin(p, notice));
    if OnItsWay(s, q, e) {
      OnItsWayStays(s, s', q, e);
    }
    if OnItsWay(s', q, e) {
      var r :| r in s'.flights && s'.flights[r].envelope == e && q in s'.flights[r].targets;
      assert r != p ==> r in s.flights && s.flights[r].envelope == e && q in s.flights[r].targets;
    }
    if q in s.joined {
      assert s'.flights[p].envelope == Numbered(|s.log| + 1, notice) && q in s'.flights[p].targets;
    }
  }

  lemma GenuineAfterBegin(log: seq<Notice>, notice: Notice, e: Envelope)
    ensures Genuine(log + [notice], e) <==> Genuine(log, e) || e == Numbered(|log| + 1, notice)
  {
  }

  lemma BeginReaches(s: State, p: Pid, notice: Notice, q: Sub, n: nat)
    requires Enabled(s, Begin(p, notice)) && q in s.inboxes && Upto(s, q, n)
    ensures Reaching(Apply(s, Begin(p, notice)), q)
  {
    hide Arrives, Genuine;
    var s' := Apply(s, Begin(p, notice));
    var n' := if q in s.joined then n + 1 else n;
    forall e ensures Arrives(s', q, e) <==> Genuine(s'.log, e) && s'.inboxes[q].baseline < e.seqNo <= n' {
      ArrivesAfterBegin(s, p, notice, q, e);
      GenuineAfterBegin(s.log, notice, e);
      InLog(s.log, e);
    }
    assert Upto(s', q, n');
  }

  lemma InLog(log: seq<Notice>, e: Envelope)
    ensures Genuine(log, e) ==> e.seqNo <= |log|
  {
  }

  lemma JoinReaches(s: State, q: Sub)
    requires Inv(s) && Enabled(s, Join(q))
    ensures Reaching(Apply(s, Join(q)), q)
  {
    var s' := Apply(s, Join(q));
    forall r | r in s'.flights ensures q !in s'.flights[r].targets {
      assert FlightOk(s, r) && !Deliverable(s, s.flights[r].envelope, q);
    }
    assert Upto(s', q, |s'.log|);
  }

  lemma StepKeepsReaching(s: State, step: Step, q: Sub)
    requires Inv(s) && Reaching(s, q) && Enabled(s, step)
    ensures Reaching(Apply(s, step), q)
  {
    hide Inv, Arrives, Genuine;
    var s' := Apply(s, step);
    if q in s.inboxes {
      var n: nat :| Upto(s, q, n);
      if step.Begin? {
        BeginReaches(s, step.pid, step.notice, q, n);
      } else {
        forall e ensures Arrives(s', q, e) <==> Arrives(s, q, e) {
          if step.Put? { ArrivesAfterPut(s, step.pid, step.sub, q, e); } else { ArrivesAfterOther(s, step, q, e); }
        }
        assert Upto(s', q, n);
      }
    } else if q in s'.inboxes {
      JoinReaches(s, q);
    }
  }

  lemma {:induction false} RunKeepsReaching(states: seq<State>, steps: seq<Step>, i: nat, q: Sub)
    requires Run(states, steps) && i < |states|
    ensures Inv(states[i]) && Reaching(states[i], q)
  {
    hide Inv, Enabled, Apply, Upto;
    RunKeepsInv(states, steps, i);
    if i > 0 {
      RunKeepsReaching(states, steps, i - 1, q);
      assert Follows(states[i - 1], steps[i - 1], states[i]);
      StepKeepsReaching(states[i - 1], steps[i - 1], q);
    }
  }

  /** The arrivals carry the numbers that follow the baseline, one by one. */
  ghost predicate InSequence(box: Inbox) {
    forall k :: 0 <= k < |box.arrived| ==> box.arrived[k].seqNo == box.baseline + 1 + k
  }

  lemma SequenceIsPrefix(log: seq<Notice>, box: Inbox)
    requires BoxOk(log, box)
    ensures InSequence(box) <==> box.arrived <= After(log, box.baseline)
  {
    hide Distinct;
    AfterAt(log, box.baseline);
    forall k | 0 <= k < |box.arrived| ensures Genuine(log, box.arrived[k]) {
      assert box.arrived[k] in box.arrived;
    }
    if InSequence(box) && box.arrived != [] {
      assert Genuine(log, box.arrived[|box.arrived| - 1]);
    }
  }

  /** The put delivers the smallest number still on its way to the subscriber. */
  ghost predicate Smallest(s: State, p: Pid, q: Sub)
    requires p in s.flights
  {
    forall r :: r in s.flights && q in s.flights[r].targets ==> s.flights[p].envelope.seqNo <= s.flights[r].envelope.seqNo
  }

  lemma OneEnvelopePerNumber(log: seq<Notice>, e: Envelope, f: Envelope)
    requires Genuine(log, e) && Genuine(log, f) && e.seqNo == f.seqNo
    ensures e == f
  {
  }

  /** As long as the arrivals are in sequence, everything still on its way has a larger number. */
  lemma StillToCome(s: State, r: Pid, q: Sub)
    requires Inv(s) && q in s.inboxes && InSequence(s.inboxes[q]) && r in s.flights && q in s.flights[r].targets
    ensures s.flights[r].envelope.seqNo > s.inboxes[q].baseline + |s.inboxes[q].arrived|
  {
    hide NothingLost, Distinct, Genuine;
    var e, box := s.flights[r].envelope, s.inboxes[q];
    assert FlightOk(s, r) && Deliverable(s, e, q) && BoxOk(s.log, box);
    if e.seqNo <= box.baseline + |box.arrived| {
      var f := box.arrived[e.seqNo - box.baseline - 1];
      assert f in box.arrived;
      OneEnvelopePerNumber(s.log, e, f);
    }
  }

  /** The number that is next in sequence is on its way, if anything is. */
  lemma NextIsOnItsWay(s: State, p: Pid, q: Sub) returns (r: Pid)
    requires Inv(s) && Reaching(s, q) && q in s.inboxes && InSequence(s.inboxes[q]) && p in s.flights && q in s.flights[p].targets
    ensures r in s.flights && q in s.flights[r].targets
    ensures s.flights[r].envelope.seqNo == s.inboxes[q].baseline + |s.inboxes[q].arrived| + 1
  {
    hide Inv, InSequence;
    var n: nat :| Upto(s, q, n);
    var k := s.inboxes[q].baseline + |s.inboxes[q].arrived| + 1;
    StillToCome(s, p, q);
    assert OnItsWay(s, q, s.flights[p].envelope);
    assert Arrives(s, q, s.flights[p].envelope);
    var next := Numbered(k, s.log[k - 1]);
    assert Arrives(s, q, next);
    NotArrivedYet(s.inboxes[q], next);
    r :| r in s.flights && s.flights[r].envelope == next && q in s.flights[r].targets;
  }

  lemma NotArrivedYet(box: Inbox, e: Envelope)
    requires InSequence(box) && e.seqNo > box.baseline + |box.arrived|
    ensures e !in box.arrived
  {
  }

  /** Step by step: a put keeps the arrivals in sequence exactly if it delivers the smallest number on its way. */
  lemma PutKeepsSequenceIff(s: State, p: Pid, q: Sub)
    requires Inv(s) && Reaching(s, q) && Enabled(s, Put(p, q))
    ensures InSequence(Apply(s, Put(p, q)).inboxes[q]) <==> InSequence(s.inboxes[q]) && Smallest(s, p, q)
  {
    hide Inv, Reaching;
    var box, e := s.inboxes[q], s.flights[p].envelope;
    PutSequence(box, e);
    if InSequence(box) {
      var r := NextIsOnItsWay(s, p, q);
      StillToCome(s, p, q);
      forall t | t in s.flights && q in s.flights[t].targets
        ensures s.flights[t].envelope.seqNo > box.baseline + |box.arrived|
      {
        StillToCome(s, t, q);
      }
    }
  }

  lemma PutSequence(box: Inbox, e: Envelope)
    ensures InSequence(box.(arrived := box.arrived + [e])) <==> InSequence(box) && e.seqNo == box.baseline + |box.arrived| + 1
  {
    var more := box.(arrived := box.arrived + [e]);
    if InSequence(more) {
      assert more.arrived[|box.arrived|] == e;
      forall k | 0 <= k < |box.arrived| ensures box.arrived[k].seqNo == box.baseline + 1 + k {
        assert more.arrived[k] == box.arrived[k];
      }
    }
  }

  ghost predicate InTurn(s: State, step: Step, q: Sub) {
    step.Put? && step.sub == q && step.pid in s.flights ==> Smallest(s, step.pid, q)
  }

  lemma {:induction false} NoInboxYet(states: seq<State>, steps: seq<Step>, i: nat, q: Sub)
    requires Run(states, steps) && i < |states| && q !in states[i].inboxes
    ensures i <= |steps| && forall m :: 0 <= m < i ==> InTurn(states[m], steps[m], q)
  {
    if i > 0 {
      assert Follows(states[i - 1], steps[i - 1], states[i]);
      hide Run;
      assert q !in states[i - 1].inboxes;
      NoInboxYet(states, steps, i - 1, q);
    }
  }

  /**
    In every run: what has reached a subscriber is a gap-free, ordered stretch from its baseline on exactly if every put
    into its queue delivered the smallest number still on its way to it.
   */
  lemma {:induction false} ReceivedInOrderIff(states: seq<State>, steps: seq<Step>, i: nat, q: Sub)
    requires Run(states, steps) && i < |states| && q in states[i].inboxes
    ensures i <= |steps|
    ensures states[i].inboxes[q].arrived <= After(states[i].log, states[i].inboxes[q].baseline)
       <==> forall m :: 0 <= m < i ==> InTurn(states[m], steps[m], q)
  {
    hide InSequence, Inv, InTurn, Reaching;
    RunKeepsInv(states, steps, i);
    BoxIsOk(states[i], q);
    SequenceIsPrefix(states[i].log, states[i].inboxes[q]);
    RunIsLong(states, steps, i);
    if i > 0 {
      var s, step := states[i - 1], steps[i - 1];
      assert Follows(s, step, states[i]);
      if q in s.inboxes {
        ReceivedInOrderIff(states, steps, i - 1, q);
        RunKeepsReaching(states, steps, i - 1, q);
        BoxIsOk(s, q);
        SequenceIsPrefix(s.log, s.inboxes[q]);
        SequenceAfter(s, step, q);
      } else {
        NoInboxYet(states, steps, i - 1, q);
        JoinedEmpty(s, step, q);
      }
    }
  }

  lemma RunIsLong(states: seq<State>, steps: seq<Step>, i: nat)
    requires Run(states, steps) && i < |states|
    ensures i <= |steps| && (i == 0 ==> states[i].inboxes == map[])
  {
  }

  lemma BoxIsOk(s: State, q: Sub)
    requires Inv(s) && q in s.inboxes
    ensures BoxOk(s.log, s.inboxes[q])
  {
  }

  lemma SequenceAfter(s: State, step: Step, q: Sub)
    requires Inv(s) && Reaching(s, q) && Enabled(s, step) && q in s.inboxes
    ensures q in Apply(s, step).inboxes
    ensures InSequence(Apply(s, step).inboxes[q]) <==> InSequence(s.inboxes[q]) && InTurn(s, step, q)
  {
    hide Inv, Reaching;
    if step.Put? && step.sub == q {
      PutKeepsSequenceIff(s, step.pid, q);
    }
  }

  lemma JoinedEmpty(s: State, step: Step, q: Sub)
    requires Enabled(s, step) && q !in s.inboxes && q in Apply(s, step).inboxes
    ensures InSequence(Apply(s, step).inboxes[q]) && InTurn(s, step, q)
  {
  }

  /**
    And the order is open as soon as publishes overlap: two that do reach a subscriber of both in either order,
    whichever of them holds the smaller sequence number.
   */
  lemma OverlappingPublishesReorder(s: State, p: Pid, r: Pid, q: Sub)
    requires Inv(s) && p != r && p in s.flights && r in s.flights
    requires q in s.flights[p].targets && q in s.flights[r].targets
    ensures s.flights[p].envelope.seqNo != s.flights[r].envelope.seqNo
    ensures Enabled(s, Put(p, q)) && Enabled(Apply(s, Put(p, q)), Put(r, q))
    ensures Apply(Apply(s, Put(p, q)), Put(r, q)).inboxes[q].arrived
         == s.inboxes[q].arrived + [s.flights[p].envelope, s.flights[r].envelope]
  {
    hide BoxesOk, NothingLost;
    assert FlightOk(s, p) && FlightOk(s, r);
    assert Deliverable(s, s.flights[p].envelope, q);
    var a := s.inboxes[q].arrived;
    assert (a + [s.flights[p].envelope]) + [s.flights[r].envelope] == a + [s.flights[p].envelope, s.flights[r].envelope];
  }

  /** Two publishes that begin one after the other, with a subscriber present, do overlap. */
  lemma PublishesCanOverlap(s: State, p: Pid, r: Pid, x: Notice, y: Notice, q: Sub)
    requires Inv(s) && q in s.joined && p != r && p !in s.flights && r !in s.flights
    ensures Enabled(s, Begin(p, x)) && Enabled(Apply(s, Begin(p, x)), Begin(r, y))
    ensures var s' := Apply(Apply(s, Begin(p, x)), Begin(r, y));
      && Inv(s') && q in s'.flights[p].targets && q in s'.flights[r].targets
      && s'.flights[p].envelope.seqNo < s'.flights[r].envelope.seqNo
  {
    hide Inv;
    BeginKeeps(s, p, x);
    BeginKeeps(Apply(s, Begin(p, x)), r, y);
  }
}
