/**
  Realtime events waiting to be applied to the observer's state: they are merged per key while they wait, and put
  into an order in which an agent's node events come after its topology.
 */
module PendingEvents {
  import opened Ids
  import opened Sequences
  import opened Wrappers

  datatype Kind = AgentSummary | Topology | NodeEvents | Other

  datatype Record = Record(text: string)

  /** `agent` is the id of the attached agent, `agentId` and `nodeId` are the event's own fields. */
  datatype Event = Event(
    kind: Kind, agent: Option<Id>, agentId: Option<Id>, nodeId: Option<Id>, events: seq<Record>, payload: string)

  predicate IsTopologyOf(e: Event, a: Id) {
    e.kind == Topology && e.agentId == Some(a)
  }

  predicate IsNodeEventOf(e: Event, a: Id) {
    e.kind == NodeEvents && e.agentId == Some(a)
  }

  // ----- The order events are applied in -----

  /** Some event from index `i` on is a topology of `a`. */
  predicate TopologyFrom(events: seq<Event>, a: Id, i: nat) {
    exists t :: i <= t < |events| && IsTopologyOf(events[t], a)
  }

  /** Event `k` is a node event that has to wait for a topology of its agent. */
  predicate Delayed(events: seq<Event>, k: nat)
    requires k < |events|
  {
    && events[k].kind == NodeEvents && events[k].agentId.Some?
    && TopologyFrom(events, events[k].agentId.value, k + 1)
  }

  /** No topology of `a` strictly between two indices. */
  predicate Clear(events: seq<Event>, a: Id, k: nat, i: nat)
    requires i <= |events|
  {
    forall t :: k < t < i ==> !IsTopologyOf(events[t], a)
  }

  /** The node events of `a` still waiting when event `i` is reached. */
  function Held(events: seq<Event>, a: Id, i: nat): seq<nat>
    requires i <= |events|
  {
    if i == 0 then []
    else if IsTopologyOf(events[i - 1], a) then []
    else if IsNodeEventOf(events[i - 1], a) && Delayed(events, i - 1) then Held(events, a, i - 1) + [i - 1]
    else Held(events, a, i - 1)
  }

  /** What is emitted on reaching event `i`. */
  function Emitted(events: seq<Event>, i: nat): seq<nat>
    requires i < |events|
  {
    if Delayed(events, i) then []
    else if events[i].kind == Topology && events[i].agentId.Some? then [i] + Held(events, events[i].agentId.value, i)
    else [i]
  }

  /** The emission order, as indices into the pending list. */
  function Order(events: seq<Event>, i: nat): seq<nat>
    requires i <= |events|
  {
    if i == 0 then [] else Order(events, i - 1) + Emitted(events, i - 1)
  }

  ghost predicate InRange(order: seq<nat>, n: nat) {
    forall j :: 0 <= j < |order| ==> order[j] < n
  }

  /** The events at the given indices. */
  ghost function Pick(events: seq<Event>, order: seq<nat>): seq<Event>
    requires InRange(order, |events|)
  {
    if order == [] then [] else Pick(events, order[..|order| - 1]) + [events[order[|order| - 1]]]
  }

  lemma {:induction false} PickConcat(events: seq<Event>, a: seq<nat>, b: seq<nat>)
    requires InRange(a, |events|) && InRange(b, |events|)
    ensures Pick(events, a + b) == Pick(events, a) + Pick(events, b)
  {
    if b == [] {
      assert a + b == a;
    } else {
      var init, x := b[..|b| - 1], b[|b| - 1];
      PickConcat(events, a, init);
      assert (a + b)[..|a + b| - 1] == a + init;
    }
  }

  /** Held are, in order, the delayed node events of `a` that no topology has released. */
  lemma {:induction false} HeldMembers(events: seq<Event>, a: Id, i: nat, k: nat)
    requires i <= |events|
    ensures k in Held(events, a, i) <==> k < i && IsNodeEventOf(events[k], a) && Delayed(events, k) && Clear(events, a, k, i)
  {
    if i > 0 {
      HeldMembers(events, a, i - 1, k);
      if k < i - 1 {
        assert Clear(events, a, k, i) <==> Clear(events, a, k, i - 1) && !IsTopologyOf(events[i - 1], a);
      }
    }
  }

  lemma {:induction false} HeldDistinct(events: seq<Event>, a: Id, i: nat)
    requires i <= |events|
    ensures Distinct(Held(events, a, i))
  {
    if i > 0 {
      HeldDistinct(events, a, i - 1);
      HeldMembers(events, a, i - 1, i - 1);
      DistinctAppend(Held(events, a, i - 1), i - 1);
    }
  }

  /** Emitted before event `i` is reached: everything earlier that is not waiting. */
  ghost predicate Out(events: seq<Event>, i: nat, k: nat)
    requires i <= |events|
  {
    k < i && (Delayed(events, k) ==> !Clear(events, events[k].agentId.value, k, i))
  }

  lemma EmittedMembers(events: seq<Event>, i: nat, k: nat)
    requires i < |events|
    ensures k in Emitted(events, i) <==> Out(events, i + 1, k) && !Out(events, i, k)
  {
    if events[i].agentId.Some? {
      HeldMembers(events, events[i].agentId.value, i, k);
    }
    if k < i && Delayed(events, k) {
      var a := events[k].agentId.value;
      assert Clear(events, a, k, i + 1) <==> Clear(events, a, k, i) && !IsTopologyOf(events[i], a);
    }
  }

  lemma {:induction false} OrderMembers(events: seq<Event>, i: nat, k: nat)
    requires i <= |events|
    ensures k in Order(events, i) <==> Out(events, i, k)
  {
    hide Emitted;
    if i > 0 {
      OrderMembers(events, i - 1, k);
      EmittedMembers(events, i - 1, k);
      OutGrows(events, i - 1, k);
    }
  }

  lemma OutGrows(events: seq<Event>, i: nat, k: nat)
    requires i < |events|
    ensures Out(events, i, k) ==> Out(events, i + 1, k)
  {
  }

  lemma HeldInRange(events: seq<Event>, a: Id, i: nat)
    requires i <= |events|
    ensures InRange(Held(events, a, i), |events|)
  {
    var held := Held(events, a, i);
    forall j | 0 <= j < |held| ensures held[j] < |events| {
      assert held[j] in held;
      HeldMembers(events, a, i, held[j]);
    }
  }

  lemma OrderInRange(events: seq<Event>, i: nat)
    requires i <= |events|
    ensures InRange(Order(events, i), |events|)
  {
    var order := Order(events, i);
    forall j | 0 <= j < |order| ensures order[j] < |events| {
      assert order[j] in order;
      OrderMembers(events, i, order[j]);
    }
  }

  lemma EmittedDistinct(events: seq<Event>, i: nat)
    requires i < |events|
    ensures Distinct(Emitted(events, i))
  {
    DistinctAppend([], i);
    assert [] + [i] == [i];
    if events[i].agentId.Some? {
      var held := Held(events, events[i].agentId.value, i);
      HeldDistinct(events, events[i].agentId.value, i);
      HeldMembers(events, events[i].agentId.value, i, i);
      DistinctConcat([i], held);
    }
  }

  lemma {:induction false} OrderDistinct(events: seq<Event>, i: nat)
    requires i <= |events|
    ensures Distinct(Order(events, i))
  {
    hide Emitted;
    if i > 0 {
      OrderDistinct(events, i - 1);
      EmittedDistinct(events, i - 1);
      var before, more := Order(events, i - 1), Emitted(events, i - 1);
      forall k | k in before ensures k !in more {
        OrderMembers(events, i - 1, k);
        EmittedMembers(events, i - 1, k);
      }
      DistinctConcat(Order(events, i - 1), Emitted(events, i - 1));
    }
  }

  /** 0, 1, ..., n-1. */
  ghost function Upto(n: nat): seq<nat> {
    if n == 0 then [] else Upto(n - 1) + [n - 1]
  }

  lemma {:induction false} UptoMembers(n: nat, k: nat)
    ensures k in Upto(n) <==> k < n
  {
    if n > 0 { UptoMembers(n - 1, k); }
  }

  lemma {:induction false} UptoDistinct(n: nat)
    ensures Distinct(Upto(n))
  {
    if n > 0 {
      UptoDistinct(n - 1);
      UptoMembers(n - 1, n - 1);
      DistinctAppend(Upto(n - 1), n - 1);
    }
  }

  lemma {:induction false} PickUpto(events: seq<Event>, n: nat)
    requires n <= |events|
    ensures InRange(Upto(n), |events|) && Pick(events, Upto(n)) == events[..n]
  {
    hide Pick;
    if n == 0 {
      PickNone(events);
    } else {
      PickUpto(events, n - 1);
      PickAppend(events, Upto(n - 1), n - 1);
      assert events[..n] == events[..n - 1] + [events[n - 1]];
    }
  }

  lemma PickNone(events: seq<Event>)
    ensures InRange([], |events|) && Pick(events, []) == []
  {
  }

  lemma PickAppend(events: seq<Event>, order: seq<nat>, k: nat)
    requires InRange(order, |events|) && k < |events|
    ensures InRange(order + [k], |events|) && Pick(events, order + [k]) == Pick(events, order) + [events[k]]
  {
    assert (order + [k])[..|order|] == order;
  }

  /** Every event is applied exactly once. */
  lemma OrderIsPermutation(events: seq<Event>)
    ensures multiset(Order(events, |events|)) == multiset(Upto(|events|))
  {
    var n := |events|;
    OrderDistinct(events, n);
    UptoDistinct(n);
    forall k: nat ensures k in Order(events, n) <==> k in Upto(n) {
      OrderMembers(events, n, k);
      UptoMembers(n, k);
    }
    DistinctSameElements(Order(events, n), Upto(n));
  }

  ghost function Undelayed(events: seq<Event>): nat -> bool {
    (k: nat) => k < |events| && !Delayed(events, k)
  }

  ghost function NodeEventIndex(events: seq<Event>, a: Id): nat -> bool {
    (k: nat) => k < |events| && IsNodeEventOf(events[k], a)
  }

  /** Events that do not have to wait keep their relative order. */
  lemma {:induction false} UndelayedKeepOrder(events: seq<Event>, i: nat)
    requires i <= |events|
    ensures Filter(Order(events, i), Undelayed(events)) == Filter(Upto(i), Undelayed(events))
  {
    hide Filter, Emitted, Undelayed;
    if i == 0 {
      FilterNone<nat>([], Undelayed(events));
    } else {
      var keep := Undelayed(events);
      UndelayedKeepOrder(events, i - 1);
      FilterConcat(Order(events, i - 1), Emitted(events, i - 1), keep);
      FilterConcat<nat>(Upto(i - 1), [i - 1], keep);
      EmittedUndelayed(events, i - 1);
    }
  }

  lemma EmittedUndelayed(events: seq<Event>, i: nat)
    requires i < |events|
    ensures Filter(Emitted(events, i), Undelayed(events)) == Filter([i], Undelayed(events))
  {
    var keep := Undelayed(events);
    if events[i].kind == Topology && events[i].agentId.Some? {
      var a := events[i].agentId.value;
      var held := Held(events, a, i);
      forall k | k in held ensures !keep(k) { HeldMembers(events, a, i, k); }
      FilterNone(held, keep);
      FilterConcat([i], held, keep);
    }
  }

  /** An agent's node events keep their relative order; the waiting ones are the newest. */
  lemma {:induction false} NodeEventsUpTo(events: seq<Event>, a: Id, i: nat)
    requires i <= |events|
    ensures Filter(Order(events, i), NodeEventIndex(events, a)) + Held(events, a, i) == Filter(Upto(i), NodeEventIndex(events, a))
  {
    hide Filter, Emitted, NodeEventIndex;
    if i == 0 {
      FilterNone<nat>([], NodeEventIndex(events, a));
    } else {
      hide Held;
      var keep := NodeEventIndex(events, a);
      NodeEventsUpTo(events, a, i - 1);
      FilterConcat(Order(events, i - 1), Emitted(events, i - 1), keep);
      FilterConcat<nat>(Upto(i - 1), [i - 1], keep);
      EmittedNodeEvents(events, a, i - 1);
      var out, more := Filter(Order(events, i - 1), keep), Filter(Emitted(events, i - 1), keep);
      var held, held' := Held(events, a, i - 1), Held(events, a, i);
      assert (out + more) + held' == out + (more + held') == (out + held) + Filter<nat>([i - 1], keep);
    }
  }

  /** In the end none waits, so that each agent's node events come out as they came in. */
  lemma NodeEventsKeepOrder(events: seq<Event>, a: Id)
    ensures Filter(Order(events, |events|), NodeEventIndex(events, a)) == Filter(Upto(|events|), NodeEventIndex(events, a))
  {
    hide Filter, Order, NodeEventIndex, Upto, Held;
    NodeEventsUpTo(events, a, |events|);
    NothingWaits(events, a);
  }

  lemma NothingWaits(events: seq<Event>, a: Id)
    ensures Held(events, a, |events|) == []
  {
    hide Held;
    var held := Held(events, a, |events|);
    if held != [] {
      HeldMembers(events, a, |events|, held[0]);
    }
  }

  lemma SomeMember<T>(s: seq<T>)
    ensures s == [] || exists x :: x in s
  {
    assert s == [] || s[0] in s;
  }

  lemma EmittedNodeEvents(events: seq<Event>, a: Id, i: nat)
    requires i < |events|
    ensures Filter(Emitted(events, i), NodeEventIndex(events, a)) + Held(events, a, i + 1)
         == Held(events, a, i) + Filter([i], NodeEventIndex(events, a))
  {
    hide Filter;
    var keep := NodeEventIndex(events, a);
    var held := Held(events, a, i);
    FilterNone<nat>([], keep);
    if keep(i) { FilterAll<nat>([i], keep); } else { FilterNone<nat>([i], keep); }
    if events[i].kind == Topology && events[i].agentId.Some? {
      var b := events[i].agentId.value;
      var released := Held(events, b, i);
      FilterConcat([i], released, keep);
      forall k | k in released ensures keep(k) <==> b == a { HeldMembers(events, b, i, k); }
      if b == a { FilterAll(released, keep); } else { FilterNone(released, keep); }
    } else if IsNodeEventOf(events[i], a) && !Delayed(events, i) {
      forall k ensures k !in held { HeldPastLast(events, a, i, k); }
      SomeMember(held);
    }
  }

  /** Nothing waits any more once the agent's last topology has passed. */
  lemma HeldPastLast(events: seq<Event>, a: Id, i: nat, k: nat)
    requires i < |events| && IsNodeEventOf(events[i], a) && !Delayed(events, i)
    ensures k !in Held(events, a, i)
  {
    HeldMembers(events, a, i, k);
    if k < i && Delayed(events, k) && IsNodeEventOf(events[k], a) {
      var t :| k + 1 <= t < |events| && IsTopologyOf(events[t], a);
      assert !TopologyFrom(events, a, i + 1);
      assert t < i;
    }
  }

  // ----- Node events against topologies -----

  ghost predicate Precedes(order: seq<nat>, x: nat, y: nat) {
    exists i, j :: 0 <= i < j < |order| && order[i] == x && order[j] == y
  }

  lemma PrecedesGrows(order: seq<nat>, more: seq<nat>, x: nat, y: nat)
    requires Precedes(order, x, y) || Precedes(more, x, y) || (x in order && y in more)
    ensures Precedes(order + more, x, y)
  {
    var whole := order + more;
    if i, j :| 0 <= i < j < |order| && order[i] == x && order[j] == y {
      assert whole[i] == x && whole[j] == y;
    } else if i, j :| 0 <= i < j < |more| && more[i] == x && more[j] == y {
      assert whole[|order| + i] == x && whole[|order| + j] == y;
    } else {
      var i :| 0 <= i < |order| && order[i] == x;
      var j :| 0 <= j < |more| && more[j] == y;
      assert whole[i] == x && whole[|order| + j] == y;
    }
  }

  /** Reaching an event emits it first, unless it has to wait. */
  lemma EmittedAt(events: seq<Event>, i: nat)
    requires i < |events|
    ensures Order(events, i) + Emitted(events, i) == Order(events, i + 1)
    ensures !Delayed(events, i) ==> Emitted(events, i) != [] && Emitted(events, i)[0] == i
  {
  }

  lemma {:induction false} PrecedesStays(events: seq<Event>, i: nat, n: nat, x: nat, y: nat)
    requires i <= n <= |events| && Precedes(Order(events, i), x, y)
    ensures Precedes(Order(events, n), x, y)
    decreases n - i
  {
    hide Precedes, Order;
    if i < n {
      EmittedAt(events, i);
      PrecedesGrows(Order(events, i), Emitted(events, i), x, y);
      PrecedesStays(events, i + 1, n, x, y);
    }
  }

  lemma FirstPrecedes(s: seq<nat>, x: nat, y: nat)
    requires s != [] && s[0] == x && y in s && x != y
    ensures Precedes(s, x, y)
  {
    var j :| 0 <= j < |s| && s[j] == y;
    assert 0 < j;
  }

  lemma DistinctOrder(s: seq<nat>, x: nat, y: nat)
    requires Distinct(s) && x != y && Precedes(s, x, y)
    ensures !Precedes(s, y, x)
  {
    DistinctIndices(s);
  }

  lemma TopologyFirst(events: seq<Event>, a: Id, t: nat, k: nat)
    requires t < |events| && k < |events| && IsTopologyOf(events[t], a) && IsNodeEventOf(events[k], a)
    requires Clear(events, a, k, t)
    ensures Precedes(Order(events, |events|), t, k)
  {
    hide Precedes, Order, Emitted;
    EmittedAt(events, t);
    if k < t {
      ReleasedByTopology(events, a, t, k);
      FirstPrecedes(Emitted(events, t), t, k);
      PrecedesGrows(Order(events, t), Emitted(events, t), t, k);
      PrecedesStays(events, t + 1, |events|, t, k);
    } else {
      var i := Emission(events, k);
      OrderMembers(events, i, t);
      EmittedAt(events, i);
      PrecedesGrows(Order(events, i), Emitted(events, i), t, k);
      PrecedesStays(events, i + 1, |events|, t, k);
    }
  }

  lemma ReleasedByTopology(events: seq<Event>, a: Id, t: nat, k: nat)
    requires k < t < |events| && IsTopologyOf(events[t], a) && IsNodeEventOf(events[k], a) && Clear(events, a, k, t)
    ensures Emitted(events, t) != [] && Emitted(events, t)[0] == t && k in Emitted(events, t)
  {
    assert TopologyFrom(events, a, k + 1);
    HeldMembers(events, a, t, k);
  }

  /** The point at which event `k` is emitted: on reaching it, or on reaching its agent's next topology. */
  lemma Emission(events: seq<Event>, k: nat) returns (i: nat)
    requires k < |events|
    ensures k <= i < |events| && k in Emitted(events, i)
    ensures k < i ==> Delayed(events, k) && IsTopologyOf(events[i], events[k].agentId.value) && Clear(events, events[k].agentId.value, k, i)
  {
    if !Delayed(events, k) {
      EmittedAt(events, k);
      return k;
    }
    var a := events[k].agentId.value;
    i := FirstTopology(events, a, k + 1);
    HeldMembers(events, a, i, k);
  }

  lemma {:induction false} FirstTopology(events: seq<Event>, a: Id, k: nat) returns (i: nat)
    requires TopologyFrom(events, a, k)
    ensures k <= i < |events| && IsTopologyOf(events[i], a)
    ensures forall t :: k <= t < i ==> !IsTopologyOf(events[t], a)
    decreases |events| - k
  {
    if IsTopologyOf(events[k], a) {
      return k;
    }
    i := FirstTopology(events, a, k + 1);
  }

  /**
    A topology is applied before a node event of its agent exactly when no other topology of that agent lies between
    the two in the pending list.
   */
  lemma TopologyFirstIff(events: seq<Event>, a: Id, t: nat, k: nat)
    requires t < |events| && k < |events| && IsTopologyOf(events[t], a) && IsNodeEventOf(events[k], a)
    ensures Precedes(Order(events, |events|), t, k) <==> Clear(events, a, k, t)
  {
    hide Precedes, Order, Emitted;
    if Clear(events, a, k, t) {
      TopologyFirst(events, a, t, k);
    } else {
      assert TopologyFrom(events, a, k + 1);
      var i := Emission(events, k);
      assert k < i by { EmittedMembers(events, k, k); }
      assert i < t;
      EmittedAt(events, i);
      OrderMembers(events, i + 1, k);
      EmittedAt(events, t);
      OrderMembers(events, t, k);
      assert t in Emitted(events, t);
      PrecedesGrows(Order(events, t), Emitted(events, t), k, t);
      PrecedesStays(events, t + 1, |events|, k, t);
      OrderDistinct(events, |events|);
      DistinctOrder(Order(events, |events|), k, t);
    }
  }

  /** What the pending keys guarantee. */
  ghost predicate OneTopologyPerAgent(events: seq<Event>) {
    forall t, u :: 0 <= t < u < |events| && events[t].kind == Topology && events[u].kind == Topology && events[t].agentId.Some?
      ==> events[t].agentId != events[u].agentId
  }

  /** With one topology per agent, every node event follows the topology of its agent. */
  lemma NodeEventsFollowTopology(events: seq<Event>, a: Id, t: nat, k: nat)
    requires OneTopologyPerAgent(events)
    requires t < |events| && k < |events| && IsTopologyOf(events[t], a) && IsNodeEventOf(events[k], a)
    ensures Precedes(Order(events, |events|), t, k)
  {
    TopologyFirstIff(events, a, t, k);
  }

  ghost function HeldEvents(events: seq<Event>, a: Id, i: nat): seq<Event>
    requires i <= |events|
  {
    HeldInRange(events, a, i);
    Pick(events, Held(events, a, i))
  }

  ghost function OrderedEvents(events: seq<Event>, i: nat): seq<Event>
    requires i <= |events|
  {
    OrderInRange(events, i);
    Pick(events, Order(events, i))
  }

  lemma PickOne(events: seq<Event>, i: nat)
    requires i < |events|
    ensures Pick(events, [i]) == [events[i]]
  {
    assert [i][..0] == [];
  }

  lemma HeldStep(events: seq<Event>, a: Id, i: nat)
    requires i < |events|
    ensures HeldEvents(events, a, i + 1) ==
      if IsTopologyOf(events[i], a) then []
      else if IsNodeEventOf(events[i], a) && Delayed(events, i) then HeldEvents(events, a, i) + [events[i]]
      else HeldEvents(events, a, i)
  {
    HeldInRange(events, a, i);
    PickOne(events, i);
    PickConcat(events, Held(events, a, i), [i]);
  }

  lemma OrderedStep(events: seq<Event>, i: nat)
    requires i < |events|
    ensures OrderedEvents(events, i + 1) == OrderedEvents(events, i) +
      if Delayed(events, i) then []
      else if events[i].kind == Topology && events[i].agentId.Some? then
        [events[i]] + HeldEvents(events, events[i].agentId.value, i)
      else [events[i]]
  {
    hide Order, Emitted, Pick, Held, Delayed;
    OrderInRange(events, i);
    OrderInRange(events, i + 1);
    EmittedPicked(events, i);
    EmittedAt(events, i);
    PickConcat(events, Order(events, i), Emitted(events, i));
  }

  lemma EmittedPicked(events: seq<Event>, i: nat)
    requires i < |events|
    ensures InRange(Emitted(events, i), |events|)
    ensures Pick(events, Emitted(events, i)) ==
      if Delayed(events, i) then []
      else if events[i].kind == Topology && events[i].agentId.Some? then
        [events[i]] + HeldEvents(events, events[i].agentId.value, i)
      else [events[i]]
  {
    hide Pick, Held, Delayed;
    PickNone(events);
    PickOne(events, i);
    if events[i].agentId.Some? {
      HeldInRange(events, events[i].agentId.value, i);
      PickConcat(events, [i], Held(events, events[i].agentId.value, i));
    }
  }

  /** `_order_pending_realtime_events`. */
  method OrderPending(pending: seq<Event>) returns (ordered: seq<Event>)
    ensures ordered == OrderedEvents(pending, |pending|)
  {
    hide HeldEvents, OrderedEvents, TopologyFrom;
    ordered := [];
    NothingYet(pending);
    var delayed: map<Id, seq<Event>> := map[];
    for index := 0 to |pending|
      invariant ordered == OrderedEvents(pending, index)
      invariant forall a :: HeldEvents(pending, a, index) == if a in delayed then delayed[a] else []
    {
      var event := pending[index];
      OrderedStep(pending, index);
      HeldSteps(pending, index);
      if event.kind == NodeEvents && event.agentId.Some? && TopologyFrom(pending, event.agentId.value, index + 1) {
        var a := event.agentId.value;
        delayed := delayed[a := (if a in delayed then delayed[a] else []) + [event]];
        continue;
      }
      ordered := ordered + [event];
      if event.kind == Topology && event.agentId.Some? {
        var a := event.agentId.value;
        ordered := ordered + if a in delayed then delayed[a] else [];
        delayed := delayed - {a};
      }
    }
  }

  lemma HeldSteps(pending: seq<Event>, index: nat)
    requires index < |pending|
    ensures forall a ::
              HeldEvents(pending, a, index + 1) ==
              if IsTopologyOf(pending[index], a) then []
              else if IsNodeEventOf(pending[index], a) && Delayed(pending, index) then HeldEvents(pending, a, index) + [pending[index]]
              else HeldEvents(pending, a, index)
  {
    hide HeldEvents, Delayed, IsTopologyOf, IsNodeEventOf;
    forall a ensures HeldEvents(pending, a, index + 1) ==
      if IsTopologyOf(pending[index], a) then []
      else if IsNodeEventOf(pending[index], a) && Delayed(pending, index) then HeldEvents(pending, a, index) + [pending[index]]
      else HeldEvents(pending, a, index)
    {
      HeldStep(pending, a, index);
    }
  }

  lemma NothingYet(events: seq<Event>)
    ensures OrderedEvents(events, 0) == []
    ensures forall a :: HeldEvents(events, a, 0) == []
  {
  }

  lemma RemoveOne<T>(s: seq<T>, j: nat)
    requires j < |s|
    ensures multiset(s) == multiset(s[..j] + s[j + 1..]) + multiset{s[j]}
  {
    assert s == s[..j] + [s[j]] + s[j + 1..];
  }

  lemma IndexOf<T>(x: T, a: seq<T>, b: seq<T>) returns (j: nat)
    requires x in a && multiset(a) == multiset(b)
    ensures j < |b| && b[j] == x
  {
    assert x in multiset(b);
    j :| 0 <= j < |b| && b[j] == x;
  }

  lemma RangeParts(front: seq<nat>, x: nat, back: seq<nat>, n: nat)
    requires InRange(front + [x] + back, n)
    ensures x < n && InRange(front, n) && InRange(back, n) && InRange(front + back, n)
  {
    var s := front + [x] + back;
    assert s[|front|] == x;
    forall i | 0 <= i < |front| ensures front[i] < n { assert s[i] == front[i]; }
    forall i | 0 <= i < |back| ensures back[i] < n { assert s[|front| + 1 + i] == back[i]; }
  }

  lemma PickWithout(events: seq<Event>, front: seq<nat>, x: nat, back: seq<nat>)
    requires InRange(front + [x] + back, |events|)
    ensures x < |events| && InRange(front + back, |events|)
    ensures multiset(Pick(events, front + [x] + back)) == multiset(Pick(events, front + back)) + multiset{events[x]}
  {
    hide Pick, InRange;
    RangeParts(front, x, back, |events|);
    SingleInRange(x, |events|);
    PickOne(events, x);
    PickConcat(events, front, back);
    PickConcat(events, front, [x]);
    PickConcat(events, front + [x], back);
  }

  lemma SingleInRange(x: nat, n: nat)
    requires x < n
    ensures InRange([x], n)
    ensures forall front: seq<nat> :: InRange(front, n) ==> InRange(front + [x], n)
  {
  }

  lemma PickAt(events: seq<Event>, s: seq<nat>, j: nat)
    requires InRange(s, |events|) && j < |s|
    ensures s[j] < |events| && InRange(s[..j] + s[j + 1..], |events|)
    ensures multiset(Pick(events, s)) == multiset(Pick(events, s[..j] + s[j + 1..])) + multiset{events[s[j]]}
  {
    hide Pick, InRange;
    assert s == s[..j] + [s[j]] + s[j + 1..];
    PickWithout(events, s[..j], s[j], s[j + 1..]);
  }

  lemma SameRest(a: seq<nat>, b: seq<nat>, j: nat)
    requires a != [] && j < |b| && b[j] == a[0] && multiset(a) == multiset(b)
    ensures multiset(a[..0] + a[1..]) == multiset(b[..j] + b[j + 1..])
  {
    RemoveOne(a, 0);
    RemoveOne(b, j);
    Cancel(multiset(a[..0] + a[1..]), multiset(b[..j] + b[j + 1..]), a[0]);
  }

  lemma Cancel(x: multiset<nat>, y: multiset<nat>, k: nat)
    requires x + multiset{k} == y + multiset{k}
    ensures x == y
  {
    assert x == (x + multiset{k}) - multiset{k};
    assert y == (y + multiset{k}) - multiset{k};
  }

  lemma {:induction false} PickPermuted(events: seq<Event>, a: seq<nat>, b: seq<nat>)
    requires InRange(a, |events|) && InRange(b, |events|) && multiset(a) == multiset(b)
    ensures multiset(Pick(events, a)) == multiset(Pick(events, b))
    decreases |a|
  {
    hide Pick, InRange;
    if a == [] {
      assert |multiset(b)| == 0;
      assert b == [];
    } else {
      var j := IndexOf(a[0], a, b);
      SameRest(a, b, j);
      PickAt(events, a, 0);
      PickAt(events, b, j);
      PickPermuted(events, a[..0] + a[1..], b[..j] + b[j + 1..]);
    }
  }

  /** Nothing is lost, added or applied twice. */
  lemma OrderedEventsArePermutation(events: seq<Event>)
    ensures multiset(OrderedEvents(events, |events|)) == multiset(events)
  {
    OrderIsPermutation(events);
    OrderInRange(events, |events|);
    PickUpto(events, |events|);
    PickPermuted(events, Order(events, |events|), Upto(|events|));
    assert events[..|events|] == events;
  }

  // ----- Merging while events wait -----

  datatype Key = Key(text: string)

  /** `identity` stands for `id(event)`. */
  function PendingKey(e: Event, identity: string): Key {
    if e.kind == AgentSummary && e.agent.Some? then Key("agent_summary_updated:" + e.agent.value.text)
    else if e.kind == Topology && e.agentId.Some? then TopologyKey(e.agentId.value)
    else if Appends(e) then NodeKey(e.agentId.value, e.nodeId.value)
    else Key("unknown:" + identity)
  }

  function TopologyKey(a: Id): Key {
    Key("topology_updated:" + a.text)
  }

  function NodeKey(a: Id, n: Id): Key {
    Key("node_events_appended:" + a.text + ":" + n.text)
  }

  predicate Appends(e: Event) {
    e.kind == NodeEvents && e.agentId.Some? && e.nodeId.Some?
  }

  predicate Unknown(e: Event) {
    !(e.kind == AgentSummary && e.agent.Some?) && !(e.kind == Topology && e.agentId.Some?) && !Appends(e)
  }

  /** A slot of the pending dictionary, and an arrival under a key. */
  datatype Slot = Slot(key: Key, event: Event)

  function Merge(existing: Event, incoming: Event): Event {
    if incoming.kind == NodeEvents then
      Event(NodeEvents, None, incoming.agentId, incoming.nodeId, existing.events + incoming.events, "")
    else incoming
  }

  function Find(slots: seq<Slot>, k: Key): (i: nat)
    ensures i <= |slots|
    ensures i < |slots| ==> slots[i].key == k
  {
    if slots == [] then 0 else if slots[0].key == k then 0 else 1 + Find(slots[1..], k)
  }

  function KeysOf(slots: seq<Slot>): seq<Key> {
    if slots == [] then [] else KeysOf(slots[..|slots| - 1]) + [slots[|slots| - 1].key]
  }

  // What should be pending after a list of arrivals.

  /** The distinct keys, by first arrival. */
  ghost function FirstKeys(arrivals: seq<Slot>): seq<Key> {
    if arrivals == [] then []
    else
      var before, k := FirstKeys(arrivals[..|arrivals| - 1]), arrivals[|arrivals| - 1].key;
      if k in before then before else before + [k]
  }

  ghost predicate LastArrival(arrivals: seq<Slot>, k: Key, e: Event) {
    exists i :: 0 <= i < |arrivals| && arrivals[i] == Slot(k, e) && forall j :: i < j < |arrivals| ==> arrivals[j].key != k
  }

  /** All records that arrived under a key, in order. */
  ghost function AllRecords(arrivals: seq<Slot>, k: Key): seq<Record> {
    if arrivals == [] then []
    else
      AllRecords(arrivals[..|arrivals| - 1], k) +
      if arrivals[|arrivals| - 1].key == k then arrivals[|arrivals| - 1].event.events else []
  }

  /** Node events accumulate; of everything else the last arrival counts. */
  ghost predicate Represents(arrivals: seq<Slot>, slot: Slot) {
    if slot.event.kind == NodeEvents then
      && slot.event.events == AllRecords(arrivals, slot.key)
      && exists e :: LastArrival(arrivals, slot.key, e) && e.kind == NodeEvents
           && e.agentId == slot.event.agentId && e.nodeId == slot.event.nodeId
    else LastArrival(arrivals, slot.key, slot.event)
  }

  /** The key was made from the event it now holds. */
  ghost predicate Keyed(slot: Slot) {
    exists identity :: slot.key == PendingKey(slot.event, identity)
  }

  lemma {:induction false} KeysAt(slots: seq<Slot>)
    ensures |KeysOf(slots)| == |slots|
    ensures forall i :: 0 <= i < |slots| ==> KeysOf(slots)[i] == slots[i].key
  {
    if slots != [] { KeysAt(slots[..|slots| - 1]); }
  }

  lemma {:induction false} FindFirst(slots: seq<Slot>, k: Key)
    ensures Find(slots, k) == |slots| ==> k !in KeysOf(slots)
  {
    KeysAt(slots);
    if slots != [] && slots[0].key != k {
      FindFirst(slots[1..], k);
      KeysAt(slots[1..]);
      if Find(slots[1..], k) == |slots[1..]| {
        forall i | 0 <= i < |slots| ensures KeysOf(slots)[i] != k {
          assert i > 0 ==> KeysOf(slots[1..])[i - 1] == slots[i].key;
        }
      }
    }
  }

  lemma {:induction false} FirstKeysDistinct(arrivals: seq<Slot>)
    ensures Distinct(FirstKeys(arrivals))
  {
    if arrivals != [] {
      FirstKeysDistinct(arrivals[..|arrivals| - 1]);
      DistinctAppend(FirstKeys(arrivals[..|arrivals| - 1]), arrivals[|arrivals| - 1].key);
    }
  }

  lemma {:induction false} AbsentRecords(arrivals: seq<Slot>, k: Key)
    requires k !in FirstKeys(arrivals)
    ensures AllRecords(arrivals, k) == []
  {
    if arrivals != [] { AbsentRecords(arrivals[..|arrivals| - 1], k); }
  }

  /** Unless an event's key is its identity, the key tells its kind. */
  lemma KeyTellsKind(e: Event, d: Event, i: string, j: string)
    requires PendingKey(e, i) == PendingKey(d, j) && !Unknown(e)
    ensures !Unknown(d) && d.kind == e.kind
  {
    assert PendingKey(e, i).text[0] == PendingKey(d, j).text[0];
  }

  /** With an agent or agent and node that name a slot for it. */
  predicate Addressed(e: Event) {
    match e.kind
    case AgentSummary => e.agent.Some?
    case Topology => e.agentId.Some?
    case NodeEvents => e.agentId.Some? && e.nodeId.Some?
    case Other => false
  }

  /**
    Which events share a slot: summaries of one agent, topologies of one agent, node events whose two ids joined with a
    colon read the same, and otherwise an event only with itself.
   */
  lemma KeyMeans(e: Event, d: Event, i: string, j: string)
    ensures Addressed(e) && e.kind == AgentSummary ==>
              (PendingKey(e, i) == PendingKey(d, j) <==> d.kind == AgentSummary && d.agent == e.agent)
    ensures Addressed(e) && e.kind == Topology ==>
              (PendingKey(e, i) == PendingKey(d, j) <==> d.kind == Topology && d.agentId == e.agentId)
    ensures Addressed(e) && e.kind == NodeEvents ==>
              (PendingKey(e, i) == PendingKey(d, j) <==>
               && d.kind == NodeEvents && Addressed(d)
               && e.agentId.value.text + ":" + e.nodeId.value.text == d.agentId.value.text + ":" + d.nodeId.value.text)
    ensures !Addressed(e) ==> (PendingKey(e, i) == PendingKey(d, j) <==> !Addressed(d) && i == j)
  {
    KeyForm(e, i);
    KeyForm(d, j);
    FormInjective(KeyKind(e), KeyRest(e, i), KeyKind(d), KeyRest(d, j));
  }

  function KeyKind(e: Event): Kind {
    if Addressed(e) then e.kind else Other
  }

  function KeyRest(e: Event, identity: string): string {
    if !Addressed(e) then identity
    else match e.kind
      case AgentSummary => e.agent.value.text
      case Topology => e.agentId.value.text
      case NodeEvents => e.agentId.value.text + ":" + e.nodeId.value.text
  }

  function KindText(k: Kind): string {
    match k
    case AgentSummary => "agent_summary_updated:"
    case Topology => "topology_updated:"
    case NodeEvents => "node_events_appended:"
    case Other => "unknown:"
  }

  lemma KeyForm(e: Event, identity: string)
    ensures PendingKey(e, identity).text == KindText(KeyKind(e)) + KeyRest(e, identity)
  {
    if Addressed(e) && e.kind == NodeEvents {
      var head, a, n := "node_events_appended:", e.agentId.value.text, e.nodeId.value.text;
      assert head + a + ":" + n == head + (a + ":" + n);
    }
  }

  lemma FormInjective(k: Kind, a: string, l: Kind, b: string)
    ensures KindText(k) + a == KindText(l) + b <==> k == l && a == b
  {
    if KindText(k) + a == KindText(l) + b {
      assert (KindText(k) + a)[0] == KindText(k)[0] && (KindText(l) + b)[0] == KindText(l)[0];
      assert k == l;
      assert (KindText(k) + a)[|KindText(k)|..] == a && (KindText(k) + b)[|KindText(k)|..] == b;
    }
  }

  /** The slots stand in the order in which their keys first arrived. */
  lemma {:induction false} FirstKeysMean(arrivals: seq<Slot>)
    ensures FirstSeen(KeysOf(arrivals), (k: Key) => true, FirstKeys(arrivals))
  {
    hide FirstSeen;
    if arrivals == [] {
      NothingSeen((k: Key) => true);
    } else {
      var init, last := arrivals[..|arrivals| - 1], arrivals[|arrivals| - 1];
      FirstKeysMean(init);
      FirstSeenMore(KeysOf(init), (k: Key) => true, FirstKeys(init), last.key);
    }
  }

  /** Exactly the records that came under the key accumulate, oldest first. */
  lemma RecordsMean(arrivals: seq<Slot>, k: Key, a: Slot)
    ensures AllRecords([], k) == []
    ensures AllRecords(arrivals + [a], k) == AllRecords(arrivals, k) + if a.key == k then a.event.events else []
  {
    assert (arrivals + [a])[..|arrivals|] == arrivals;
  }

  lemma NewArrival(arrivals: seq<Slot>, a: Slot, slot: Slot)
    requires Represents(arrivals, slot) && slot.key != a.key
    ensures Represents(arrivals + [a], slot)
  {
    var arrivals' := arrivals + [a];
    assert arrivals'[..|arrivals|] == arrivals;
    forall e | LastArrival(arrivals, slot.key, e) ensures LastArrival(arrivals', slot.key, e) {
      var i :| 0 <= i < |arrivals| && arrivals[i] == Slot(slot.key, e) && forall j :: i < j < |arrivals| ==> arrivals[j].key != slot.key;
      assert arrivals'[i] == Slot(slot.key, e);
    }
  }

  lemma NewKey(arrivals: seq<Slot>, a: Slot)
    requires a.key !in FirstKeys(arrivals)
    ensures Represents(arrivals + [a], a)
  {
    var arrivals' := arrivals + [a];
    assert arrivals'[..|arrivals|] == arrivals && arrivals'[|arrivals|] == a;
    AbsentRecords(arrivals, a.key);
    assert LastArrival(arrivals', a.key, a.event);
  }

  lemma SameKey(arrivals: seq<Slot>, a: Slot, existing: Event)
    requires Represents(arrivals, Slot(a.key, existing)) && existing.kind == a.event.kind
    ensures Represents(arrivals + [a], Slot(a.key, Merge(existing, a.event)))
  {
    var arrivals' := arrivals + [a];
    assert arrivals'[..|arrivals|] == arrivals && arrivals'[|arrivals|] == a;
    assert LastArrival(arrivals', a.key, a.event);
  }

  lemma KeyedMerge(existing: Event, event: Event, identity: string)
    ensures Unknown(event) || Keyed(Slot(PendingKey(event, identity), Merge(existing, event)))
    ensures Keyed(Slot(PendingKey(event, identity), event))
  {
    assert !Unknown(event) ==> PendingKey(event, identity) == PendingKey(Merge(existing, event), identity);
  }

  lemma FirstKeysStep(arrivals: seq<Slot>, a: Slot)
    ensures FirstKeys(arrivals + [a]) == FirstKeys(arrivals) + if a.key in FirstKeys(arrivals) then [] else [a.key]
  {
    assert (arrivals + [a])[..|arrivals|] == arrivals;
  }

  function EventsOf(slots: seq<Slot>): seq<Event> {
    if slots == [] then [] else EventsOf(slots[..|slots| - 1]) + [slots[|slots| - 1].event]
  }

  lemma {:induction false} EventsAt(slots: seq<Slot>)
    ensures |EventsOf(slots)| == |slots|
    ensures forall i :: 0 <= i < |slots| ==> EventsOf(slots)[i] == slots[i].event
  {
    if slots != [] { EventsAt(slots[..|slots| - 1]); }
  }

  ghost predicate Mirrors(slots: seq<Slot>, arrivals: seq<Slot>) {
    && KeysOf(slots) == FirstKeys(arrivals)
    && forall i :: 0 <= i < |slots| ==> Represents(arrivals, slots[i]) && Keyed(slots[i])
  }

  /** The pending keys leave at most one topology per agent, so the order above puts node events after it. */
  lemma KeysGiveOneTopology(slots: seq<Slot>, arrivals: seq<Slot>)
    requires Mirrors(slots, arrivals)
    ensures OneTopologyPerAgent(EventsOf(slots))
  {
    hide EventsOf, KeysOf, FirstKeys, Keyed, Represents, Distinct;
    var events := EventsOf(slots);
    EventsAt(slots);
    KeysAt(slots);
    FirstKeysDistinct(arrivals);
    DistinctIndices(KeysOf(slots));
    forall x | 0 <= x < |events| && events[x].kind == Topology && events[x].agentId.Some?
      ensures KeysOf(slots)[x] == TopologyKey(events[x].agentId.value)
    {
      TopologySlot(slots[x], events[x].agentId.value);
    }
    forall t, u | 0 <= t < u < |events| && events[t].kind == Topology && events[u].kind == Topology && events[t].agentId.Some?
      ensures events[t].agentId != events[u].agentId
    {
      assert KeysOf(slots)[t] != KeysOf(slots)[u];
    }
  }

  lemma TopologySlot(slot: Slot, a: Id)
    requires Keyed(slot) && slot.event.kind == Topology && slot.event.agentId == Some(a)
    ensures slot.key == TopologyKey(a)
  {
    hide TopologyKey, NodeKey;
  }

  /** Two node events share a pending slot exactly when their ids, joined with a colon, read the same. */
  lemma NodeKeyCollision(a: Id, n: Id, b: Id, m: Id)
    ensures NodeKey(a, n) == NodeKey(b, m) <==>
      || (a == b && n == m)
      || (exists mid: string :: b.text == a.text + ":" + mid && n.text == mid + ":" + m.text)
      || (exists mid: string :: a.text == b.text + ":" + mid && m.text == mid + ":" + n.text)
  {
    var x, y := a.text + ":" + n.text, b.text + ":" + m.text;
    var prefix := "node_events_appended:";
    assert NodeKey(a, n).text == prefix + x && NodeKey(b, m).text == prefix + y;
    assert (prefix + x)[|prefix|..] == x && (prefix + y)[|prefix|..] == y;
    assert NodeKey(a, n) == NodeKey(b, m) <==> x == y;
    ColonSplit(a.text, n.text, b.text, m.text);
  }

  lemma ColonSplit(a: string, n: string, b: string, m: string)
    ensures a + ":" + n == b + ":" + m <==>
      || (a == b && n == m)
      || (exists mid: string :: b == a + ":" + mid && n == mid + ":" + m)
      || (exists mid: string :: a == b + ":" + mid && m == mid + ":" + n)
  {
    if a + ":" + n == b + ":" + m {
      if |a| < |b| {
        ColonShift(a, n, b, m);
      } else if |b| < |a| {
        ColonShift(b, m, a, n);
      } else {
        assert (a + ":" + n)[..|a|] == a && (b + ":" + m)[..|b|] == b;
        assert (a + ":" + n)[|a| + 1..] == n && (b + ":" + m)[|b| + 1..] == m;
      }
    }
    if mid: string :| b == a + ":" + mid && n == mid + ":" + m {
      assert a + ":" + (mid + ":" + m) == (a + ":" + mid) + ":" + m;
    }
    if mid: string :| a == b + ":" + mid && m == mid + ":" + n {
      assert b + ":" + (mid + ":" + n) == (b + ":" + mid) + ":" + n;
    }
  }

  lemma ColonShift(a: string, n: string, b: string, m: string)
    requires a + ":" + n == b + ":" + m && |a| < |b|
    ensures exists mid: string :: b == a + ":" + mid && n == mid + ":" + m
  {
    var whole := a + ":" + n;
    var mid := b[|a| + 1..];
    assert whole[..|b|] == b && whole[..|a| + 1] == a + ":";
    assert b[..|a| + 1] == whole[..|a| + 1];
    assert b == a + ":" + mid;
    assert n == whole[|a| + 1..] == b[|a| + 1..] + ":" + m;
  }

  class PendingQueue {
    var slots: seq<Slot>
    /** Every arrival since the last drain. */
    ghost var arrivals: seq<Slot>

    ghost predicate Valid()
      reads this
    {
      Mirrors(slots, arrivals)
    }

    constructor ()
      ensures Valid() && slots == [] && arrivals == []
    {
      slots, arrivals := [], [];
    }

    /** `_handle_realtime_message`; an event keyed by its identity is a new object, so its key is new too. */
    method Handle(event: Event, identity: string)
      requires Valid()
      requires Unknown(event) ==> PendingKey(event, identity) !in KeysOf(slots)
      modifies this
      ensures Valid() && arrivals == old(arrivals) + [Slot(PendingKey(event, identity), event)]
    {
      hide Represents, Keyed, PendingKey, Merge;
      var k := PendingKey(event, identity);
      var i := Find(slots, k);
      KeysAt(slots);
      FindFirst(slots, k);
      FirstKeysStep(arrivals, Slot(k, event));
      if i < |slots| {
        var merged := Slot(k, Merge(slots[i].event, event));
        Replaced(slots, arrivals, i, event, identity);
        slots := slots[i := merged];
      } else {
        Appended(slots, arrivals, event, identity);
        slots := slots + [Slot(k, event)];
      }
      arrivals := arrivals + [Slot(k, event)];
    }

    /** `_drain_pending_realtime_items`. */
    method Drain() returns (ordered: seq<Event>)
      requires Valid()
      modifies this
      ensures Valid() && slots == [] && arrivals == []
      ensures ordered == OrderedEvents(EventsOf(old(slots)), |EventsOf(old(slots))|)
      ensures OneTopologyPerAgent(EventsOf(old(slots)))
    {
      KeysGiveOneTopology(slots, arrivals);
      var pending := EventsOf(slots);
      slots, arrivals := [], [];
      ordered := OrderPending(pending);
    }
  }

  lemma Appended(slots: seq<Slot>, arrivals: seq<Slot>, event: Event, identity: string)
    requires Mirrors(slots, arrivals) && PendingKey(event, identity) !in KeysOf(slots)
    ensures var a := Slot(PendingKey(event, identity), event); Mirrors(slots + [a], arrivals + [a])
  {
    hide Represents, Keyed, PendingKey, FirstKeys;
    var a := Slot(PendingKey(event, identity), event);
    var slots' := slots + [a];
    assert slots'[..|slots|] == slots;
    FirstKeysStep(arrivals, a);
    NewKey(arrivals, a);
    KeyedMerge(event, event, identity);
    KeysAt(slots);
    forall i | 0 <= i < |slots'| ensures Represents(arrivals + [a], slots'[i]) && Keyed(slots'[i]) {
      if i < |slots| {
        assert KeysOf(slots)[i] == slots[i].key;
        NewArrival(arrivals, a, slots[i]);
      }
    }
  }

  lemma Replaced(slots: seq<Slot>, arrivals: seq<Slot>, i: nat, event: Event, identity: string)
    requires Mirrors(slots, arrivals) && i < |slots| && slots[i].key == PendingKey(event, identity) && !Unknown(event)
    ensures var k := PendingKey(event, identity);
      Mirrors(slots[i := Slot(k, Merge(slots[i].event, event))], arrivals + [Slot(k, event)])
  {
    hide Represents, PendingKey, FirstKeys, KeysOf, Merge, Unknown;
    var k := PendingKey(event, identity);
    var a, existing := Slot(k, event), slots[i].event;
    var slots' := slots[i := Slot(k, Merge(existing, event))];
    FirstKeysStep(arrivals, a);
    KeyAt(slots, i);
    KeysReplaced(slots, i, slots'[i]);
    assert Keyed(slots[i]);
    var other :| slots[i].key == PendingKey(existing, other);
    KeyTellsKind(event, existing, identity, other);
    assert slots[i] == Slot(k, existing);
    SameKey(arrivals, a, existing);
    KeyedMerge(existing, event, identity);
    hide Keyed;
    forall j | 0 <= j < |slots'| ensures Represents(arrivals + [a], slots'[j]) && Keyed(slots'[j]) {
      if j != i {
        OtherKey(slots, arrivals, i, j);
        NewArrival(arrivals, a, slots[j]);
      }
    }
  }

  lemma KeyAt(slots: seq<Slot>, i: nat)
    requires i < |slots|
    ensures slots[i].key in KeysOf(slots)
  {
    KeysAt(slots);
    assert KeysOf(slots)[i] == slots[i].key;
  }

  lemma KeysReplaced(slots: seq<Slot>, i: nat, slot: Slot)
    requires i < |slots| && slot.key == slots[i].key
    ensures KeysOf(slots[i := slot]) == KeysOf(slots)
  {
    KeysAt(slots);
    KeysAt(slots[i := slot]);
  }

  lemma OtherKey(slots: seq<Slot>, arrivals: seq<Slot>, i: nat, j: nat)
    requires KeysOf(slots) == FirstKeys(arrivals) && i < |slots| && j < |slots| && i != j
    ensures slots[i].key != slots[j].key
  {
    KeysAt(slots);
    FirstKeysDistinct(arrivals);
    DistinctIndices(KeysOf(slots));
    assert KeysOf(slots)[i] == slots[i].key && KeysOf(slots)[j] == slots[j].key;
  }
}
