/**
  The bounded replay buffer of the observer and the websocket loop that reads it. The buffer keeps the newest
  `capacity` events of a channel; a reader resumes from a sequence number or is told to resynchronise.
 */
module EventBuffer {
  import opened Ids
  import opened NumberedLogs
  import opened Wrappers

  datatype Event = Event(kind: string, payload: string)

  type Message = Numbered<Event>

  datatype ReadResult = ReadResult(messages: seq<Message>, needsResync: bool)

  // ----- What a read means for the full log -----

  /** How many entries have been dropped. */
  function Dropped(log: seq<Event>, capacity: nat): nat {
    if |log| <= capacity then 0 else |log| - capacity
  }

  /** The answer to a read, as if the whole log were still there. */
  function ReadLog(log: seq<Event>, capacity: nat, last: Option<int>): ReadResult {
    if capacity == 0 || log == [] then
      ReadResult([], last.Some? && last.value > 0)
    else if last.None? then
      ReadResult(After(log, Dropped(log, capacity)), false)
    else if last.value < Dropped(log, capacity) || last.value > |log| then
      ReadResult([], true)
    else
      ReadResult(After(log, last.value), false)
  }

  /** `[message for message in messages if message.seq > last]`. */
  function Later(messages: seq<Message>, last: int): seq<Message> {
    if messages == [] then []
    else
      (if messages[0].seqNo > last then [messages[0]] else []) + Later(messages[1..], last)
  }

  lemma {:induction false} LaterOfAfter(log: seq<Event>, b: nat, last: nat)
    requires b <= last <= |log|
    ensures Later(After(log, b), last) == After(log, last)
    decreases |log| - b
  {
    hide After;
    AfterAt(log, b);
    if b < last {
      AfterStep(log, b);
      LaterOfAfter(log, b + 1, last);
    } else {
      LaterKeepsAll(After(log, b), last);
    }
  }

  lemma AfterStep(log: seq<Event>, b: nat)
    requires b < |log|
    ensures After(log, b) != [] && After(log, b)[0].seqNo == b + 1 && After(log, b)[1..] == After(log, b + 1)
  {
    AfterAt(log, b);
    AfterDrop(log, b, 1);
  }

  lemma {:induction false} LaterKeepsAll(messages: seq<Message>, last: int)
    requires forall m :: m in messages ==> m.seqNo > last
    ensures Later(messages, last) == messages
  {
    if messages != [] {
      assert forall m :: m in messages[1..] ==> m in messages;
      LaterKeepsAll(messages[1..], last);
      assert messages == [messages[0]] + messages[1..];
    }
  }

  class ObserverEventBuffer {
    const capacity: nat
    var messages: map<Id, seq<Message>>
    var seqs: map<Id, nat>
    /** Everything ever appended. */
    ghost var logs: map<Id, seq<Event>>

    ghost predicate Valid()
      reads this
    {
      && messages.Keys == seqs.Keys == logs.Keys
      && forall c {:trigger logs[c]} :: c in logs ==> Holds(logs[c], seqs[c], messages[c], capacity)
    }

    /** One channel: `n` numbers its log, of which the newest entries are kept. */
    static ghost predicate Holds(log: seq<Event>, n: nat, kept: seq<Message>, capacity: nat) {
      log != [] && n == |log| && kept == After(log, Dropped(log, capacity))
    }

    constructor (capacity: nat)
      ensures Valid() && this.capacity == capacity && logs == map[]
    {
      this.capacity := capacity;
      messages, seqs, logs := map[], map[], map[];
    }

    ghost function Log(channel: Id): seq<Event>
      reads this
    {
      if channel in logs then logs[channel] else []
    }

    method Append(channel: Id, event: Event) returns (message: Message)
      requires Valid()
      modifies this
      ensures Valid() && logs == old(logs)[channel := old(Log(channel)) + [event]]
      ensures message == Numbered(|Log(channel)|, event)
    {
      hide After, Dropped, Holds;
      ghost var log := Log(channel);
      assert channel in logs ==> Holds(logs[channel], seqs[channel], messages[channel], capacity);
      HoldsMore(log, if channel in seqs then seqs[channel] else 0, if channel in messages then messages[channel] else [], event, capacity);
      var n := (if channel in seqs then seqs[channel] else 0) + 1;
      seqs := seqs[channel := n];
      message := Numbered(n, event);
      var buffer := (if channel in messages then messages[channel] else []) + [message];
      if |buffer| > capacity {
        buffer := buffer[1..];
      }
      messages := messages[channel := buffer];
      logs := logs[channel := log + [event]];
    }

    /** The bounded buffer answers exactly as the full log would. */
    method Read(channel: Id, last: Option<int>) returns (r: ReadResult)
      requires Valid()
      ensures r == ReadLog(Log(channel), capacity, last)
    {
      var buffer := if channel in messages then messages[channel] else [];
      ghost var log := Log(channel);
      AfterAt(log, Dropped(log, capacity));
      if buffer == [] {
        return ReadResult([], last.Some? && last.value > 0);
      }
      if last.None? {
        return ReadResult(buffer, false);
      }
      var earliest, latest := buffer[0].seqNo, buffer[|buffer| - 1].seqNo;
      if last.value < earliest - 1 || last.value > latest {
        return ReadResult([], true);
      }
      LaterOfAfter(log, Dropped(log, capacity), last.value);
      r := ReadResult(Later(buffer, last.value), false);
    }

    /** `_latest_seq`: the number of the newest event, if the buffer can hold one. */
    method LatestSeq(channel: Id) returns (n: nat)
      requires Valid()
      ensures n == if capacity == 0 then 0 else |Log(channel)|
    {
      var r := Read(channel, None);
      ghost var log := Log(channel);
      AfterAt(log, Dropped(log, capacity));
      n := if r.messages == [] then 0 else r.messages[|r.messages| - 1].seqNo;
    }
  }

  lemma AppendToWindow(log: seq<Event>, event: Event, capacity: nat)
    ensures log == [] ==> After(log, Dropped(log, capacity)) == []
    ensures var window := After(log, Dropped(log, capacity)) + [Numbered(|log| + 1, event)];
      After(log + [event], Dropped(log + [event], capacity)) == if |window| > capacity then window[1..] else window
  {
    AfterExtends(log, event, Dropped(log, capacity));
    AfterAt(log, Dropped(log, capacity));
    if |log| >= capacity {
      AfterDrop(log + [event], Dropped(log, capacity), 1);
    }
  }

  lemma HoldsMore(log: seq<Event>, n: nat, kept: seq<Message>, event: Event, capacity: nat)
    requires ObserverEventBuffer.Holds(log, n, kept, capacity) || (log == [] && n == 0 && kept == [])
    ensures n == |log|
    ensures var window := kept + [Numbered(n + 1, event)];
      ObserverEventBuffer.Holds(log + [event], n + 1, if |window| > capacity then window[1..] else window, capacity)
  {
    hide After, Dropped;
    AppendToWindow(log, event, capacity);
  }

  /** A read asks for a resync exactly when what follows `last` is not all there any more, or never was. */
  lemma ResyncIff(log: seq<Event>, capacity: nat, last: nat)
    requires capacity > 0
    ensures ReadLog(log, capacity, Some(last)).needsResync <==> last + capacity < |log| || last > |log|
    ensures !ReadLog(log, capacity, Some(last)).needsResync ==>
      && last <= |log|
      && last + |ReadLog(log, capacity, Some(last)).messages| == |log|
      && forall k :: 0 <= k < |ReadLog(log, capacity, Some(last)).messages| ==>
        ReadLog(log, capacity, Some(last)).messages[k] == Numbered(last + 1 + k, log[last + k])
  {
    AfterAt(log, last);
  }

  /** The other reads: from the start, with a negative number, and of an empty buffer. */
  lemma ReadMeans(log: seq<Event>, capacity: nat, last: Option<int>)
    ensures capacity == 0 || log == [] ==>
      ReadLog(log, capacity, last).messages == [] && (ReadLog(log, capacity, last).needsResync <==> last.Some? && last.value > 0)
    ensures capacity > 0 && log != [] && last.Some? && last.value < 0 ==> ReadLog(log, capacity, last) == ReadResult([], true)
    ensures capacity > 0 && log != [] && last.None? ==>
      && !ReadLog(log, capacity, None).needsResync
      && NewestOf(log, if capacity < |log| then capacity else |log|, ReadLog(log, capacity, None).messages)
  {
    AfterAt(log, Dropped(log, capacity));
  }

  /** The last `n` entries of the log under their numbers. */
  ghost predicate NewestOf(log: seq<Event>, n: nat, messages: seq<Message>)
    requires n <= |log|
  {
    && |messages| == n
    && forall k :: 0 <= k < n ==> messages[k] == Numbered(|log| - n + 1 + k, log[|log| - n + k])
  }

  // ----- The reader loop beside any number of appends -----

  datatype Phase = Streaming | Resynced | Closed

  /** `current` is `current_seq`; `batch` is what the last read returned and has not been sent yet. */
  datatype State = State(log: seq<Event>, current: nat, batch: seq<Message>, sent: seq<Message>, phase: Phase)

  datatype Step =
    | Append(event: Event)
    | Poll
    | Send
    | Disconnect

  ghost predicate Next(capacity: nat, s: State, step: Step, s': State) {
    match step
    case Append(e) => s' == s.(log := s.log + [e])
    case Poll =>
      && s.phase == Streaming && s.batch == []
      && var r := ReadLog(s.log, capacity, Some(s.current));
         s' == if r.needsResync then s.(phase := Resynced) else s.(batch := r.messages)
    case Send =>
      && s.phase == Streaming && s.batch != []
      && s' == s.(sent := s.sent + [s.batch[0]], current := s.batch[0].seqNo, batch := s.batch[1..])
    case Disconnect => s.phase == Streaming && s' == s.(phase := Closed)
  }

  ghost predicate Run(capacity: nat, states: seq<State>, steps: seq<Step>) {
    && |states| == |steps| + 1
    && states[0].batch == [] && states[0].sent == [] && states[0].phase == Streaming
    && forall i :: 0 <= i < |steps| ==> Next(capacity, states[i], steps[i], states[i + 1])
  }

  /** Sent and fetched messages are the log from the starting point on, without a gap. */
  ghost predicate Seamless(start: nat, s: State) {
    if s.current <= |s.log| then
      && start <= s.current && s.current + |s.batch| <= |s.log|
      && s.sent == After(s.log[..s.current], start)
      && s.batch == After(s.log[..s.current + |s.batch|], s.current)
    else
      s.current == start && s.batch == [] && s.sent == []
  }

  /** A reader that has not ended can always go on: it polls when it has sent its batch, and else sends the next message of it. */
  lemma ReaderGoesOn(capacity: nat, s: State, e: Event) returns (s': State)
    requires s.phase == Streaming
    ensures Next(capacity, s, if s.batch == [] then Poll else Send, s')
    ensures s.batch != [] ==> s'.sent == s.sent + [s.batch[0]] && s'.batch == s.batch[1..]
    ensures exists t :: Next(capacity, s, Append(e), t) && t.log == s.log + [e] && t.sent == s.sent
  {
    var r := ReadLog(s.log, capacity, Some(s.current));
    s' := if s.batch != [] then s.(sent := s.sent + [s.batch[0]], current := s.batch[0].seqNo, batch := s.batch[1..])
      else if r.needsResync then s.(phase := Resynced) else s.(batch := r.messages);
    assert Next(capacity, s, Append(e), s.(log := s.log + [e]));
  }

  lemma AppendKeeps(start: nat, s: State, e: Event)
    requires Seamless(start, s)
    ensures Seamless(start, s.(log := s.log + [e]))
  {
    var log' := s.log + [e];
    if s.current <= |s.log| {
      assert log'[..s.current] == s.log[..s.current];
      assert log'[..s.current + |s.batch|] == s.log[..s.current + |s.batch|];
    }
  }

  lemma SendKeeps(start: nat, s: State, s': State)
    requires Seamless(start, s) && Next(0, s, Send, s')
    ensures Seamless(start, s') && s'.current == s.current + 1
  {
    hide After, ReadLog;
    var n, m := s.current, s.current + |s.batch|;
    var upTo := s.log[..m];
    AfterAt(upTo, n);
    AfterDrop(upTo, n, 1);
    assert s.batch[0] == Numbered(n + 1, s.log[n]);
    assert s.log[..n + 1] == s.log[..n] + [s.log[n]];
    AfterExtends(s.log[..n], s.log[n], start);
    assert s'.log[..s'.current] == s.log[..n + 1] && s'.log[..s'.current + |s'.batch|] == upTo;
  }

  lemma PollKeeps(capacity: nat, start: nat, s: State, s': State)
    requires Seamless(start, s) && Next(capacity, s, Poll, s')
    ensures Seamless(start, s')
    ensures s'.phase == Streaming && capacity > 0 ==> s'.current + |s'.batch| == |s'.log|
    ensures capacity > 0 ==> (s'.phase == Resynced <==> s.current + capacity < |s.log| || s.current > |s.log|)
  {
    AfterAt(s.log, s.current);
    assert s.log[..|s.log|] == s.log;
  }

  lemma {:induction false} RunIsSeamless(capacity: nat, states: seq<State>, steps: seq<Step>, i: nat)
    requires Run(capacity, states, steps) && i < |states|
    ensures Seamless(states[0].current, states[i])
  {
    hide Seamless;
    var start := states[0].current;
    if i == 0 {
      StartIsSeamless(states[0]);
    } else {
      RunIsSeamless(capacity, states, steps, i - 1);
      var s, s' := states[i - 1], states[i];
      assert Next(capacity, s, steps[i - 1], s');
      match steps[i - 1]
      case Append(e) => AppendKeeps(start, s, e);
      case Send => SendKeeps(start, s, s');
      case Poll => PollKeeps(capacity, start, s, s');
      case Disconnect => ClosingKeeps(start, s);
    }
  }

  lemma ClosingKeeps(start: nat, s: State)
    requires Seamless(start, s)
    ensures Seamless(start, s.(phase := Closed))
  {
  }

  lemma StartIsSeamless(s: State)
    requires s.batch == [] && s.sent == []
    ensures Seamless(s.current, s)
  {
    if s.current <= |s.log| {
      AfterAt(s.log[..s.current], s.current);
    }
  }

  /**
    However appends interleave with the loop, and whether or not it ends in a resync: what was sent is numbered
    start+1, start+2, ... without gap or repetition, and carries the events appended under those numbers.
   */
  lemma NeverAGapOrARepeat(capacity: nat, states: seq<State>, steps: seq<Step>, i: nat)
    requires Run(capacity, states, steps) && i < |states|
    ensures forall k :: 0 <= k < |states[i].sent| ==>
      && states[0].current + k < |states[i].log|
      && states[i].sent[k] == Numbered(states[0].current + 1 + k, states[i].log[states[0].current + k])
    ensures states[i].sent != [] ==> states[i].current == states[0].current + |states[i].sent|
  {
    RunIsSeamless(capacity, states, steps, i);
    if states[i].current <= |states[i].log| {
      AfterAt(states[i].log[..states[i].current], states[0].current);
    }
  }

  /**
    A poll ends the stream exactly when the reader has fallen behind the window or started beyond the log; otherwise
    sending the batch it fetched brings the reader level with the log.
   */
  lemma PollResyncsOrCatchesUp(capacity: nat, states: seq<State>, steps: seq<Step>, i: nat)
    requires Run(capacity, states, steps) && i < |steps| && steps[i] == Poll && capacity > 0
    ensures states[i + 1].phase == Resynced
        <==> states[i].current + capacity < |states[i].log| || states[i].current > |states[i].log|
    ensures states[i + 1].phase != Resynced ==>
      states[0].current <= |states[i].log| &&
      states[i].sent + states[i + 1].batch == After(states[i].log, states[0].current)
  {
    hide After;
    RunIsSeamless(capacity, states, steps, i);
    var s, s', start := states[i], states[i + 1], states[0].current;
    assert Next(capacity, s, Poll, s');
    PollKeeps(capacity, start, s, s');
    if s'.phase != Resynced {
      AfterTake(s.log, start, s.current);
      AfterDrop(s.log, start, s.current - start);
    }
  }
}
