/** DataStreamRequest in Request.swift and ResponseSerialization.swift: completion events are held
    back while stream handlers are still executing. */
module DataStreamRequest {
  /** StreamMutableState and what it has handed to the queues: handler invocations not yet finished
      (one per stream and piece of data) and completion events released, each with the number of
      invocations outstanding at that moment. */
  datatype State = State(
    streams: seq<nat>, numberOfExecutingStreams: int, enqueuedCompletionEvents: seq<nat>,
    invocations: seq<(nat, nat)>, released: seq<(nat, nat)>)

  /** Each of `items` with the same mark: a piece of data for every stream, or the count at which
      events are released. */
  function Marked(items: seq<nat>, mark: nat): (marked: seq<(nat, nat)>)
    ensures |marked| == |items| && forall i :: 0 <= i < |items| ==> marked[i] == (items[i], mark)
  {
    seq(|items|, i requires 0 <= i < |items| => (items[i], mark))
  }

  /** responseStream: the new stream gets later data only. */
  function Listen(s: State, stream: nat): State {
    s.(streams := s.streams + [stream])
  }

  function Receive(s: State, piece: nat): State {
    s.(numberOfExecutingStreams := s.numberOfExecutingStreams + |s.streams|,
       invocations := s.invocations + Marked(s.streams, piece))
  }

  /** Invocation `k` has finished: updateAndCompleteIfPossible. */
  function FinishInvocation(s: State, k: nat): State
    requires k < |s.invocations|
  {
    var s := s.(invocations := s.invocations[..k] + s.invocations[k + 1..],
                numberOfExecutingStreams := s.numberOfExecutingStreams - 1);
    if s.numberOfExecutingStreams == 0 && s.enqueuedCompletionEvents != []
    then s.(released := s.released + Marked(s.enqueuedCompletionEvents, |s.invocations|),
            enqueuedCompletionEvents := [])
    else s
  }

  /** The completion closure that appendStreamCompletion registered. */
  function CompleteStream(s: State, event: nat): State {
    if s.numberOfExecutingStreams != 0
    then s.(enqueuedCompletionEvents := s.enqueuedCompletionEvents + [event])
    else s.(released := s.released + [(event, |s.invocations|)])
  }

  class StreamRequest {
    var streams: seq<nat>
    var numberOfExecutingStreams: int
    var enqueuedCompletionEvents: seq<nat>
    var invocations: seq<(nat, nat)>
    var released: seq<(nat, nat)>

    ghost function View(): State
      reads this
    {
      State(streams, numberOfExecutingStreams, enqueuedCompletionEvents, invocations, released)
    }

    constructor ()
      ensures View() == State([], 0, [], [], [])
    {
      streams, numberOfExecutingStreams, enqueuedCompletionEvents, invocations, released := [], 0, [], [], [];
    }

    method AddStream(stream: nat)
      modifies this`streams
      ensures View() == Listen(old(View()), stream)
    {
      streams := streams + [stream];
    }

    method DidReceive(piece: nat)
      modifies this
      ensures View() == Receive(old(View()), piece)
    {
      numberOfExecutingStreams := numberOfExecutingStreams + |streams|;
      var localStreams := streams;
      ghost var before := invocations;
      for i := 0 to |localStreams|
        invariant streams == localStreams && numberOfExecutingStreams == old(numberOfExecutingStreams) + |streams|
        invariant enqueuedCompletionEvents == old(enqueuedCompletionEvents) && released == old(released)
        invariant invocations == before + Marked(localStreams, piece)[..i]
      {
        invocations := invocations + [(localStreams[i], piece)];
      }
    }

    method UpdateAndCompleteIfPossible(k: nat)
      requires k < |invocations|
      modifies this
      ensures View() == FinishInvocation(old(View()), k)
    {
      invocations := invocations[..k] + invocations[k + 1..];
      numberOfExecutingStreams := numberOfExecutingStreams - 1;
      if numberOfExecutingStreams != 0 || enqueuedCompletionEvents == [] {
        return;
      }
      released := released + Marked(enqueuedCompletionEvents, |invocations|);
      enqueuedCompletionEvents := [];
    }

    method StreamCompletion(event: nat)
      modifies this
      ensures View() == CompleteStream(old(View()), event)
    {
      if numberOfExecutingStreams != 0 {
        enqueuedCompletionEvents := enqueuedCompletionEvents + [event];
        return;
      }
      released := released + [(event, |invocations|)];
    }
  }

  // ---------------------------------------------------------------- interleavings

  /** Streams added so far, those whose completion closure has not been run yet, the pieces of data
      received, how many had been when each stream was added, and every invocation ever launched and
      every one finished, in order. */
  datatype World = World(s: State, added: set<nat>, registered: set<nat>, received: seq<nat>, since: map<nat, nat>,
                         launched: seq<(nat, nat)>, finished: seq<(nat, nat)>)

  datatype Step = AddStream(stream: nat) | DidReceive(piece: nat) | HandlerDone(k: nat) | Complete(stream: nat)

  const INITIAL := World(State([], 0, [], [], []), {}, {}, [], map[], [], [])

  /** Streams are fresh, invocations finish in any order, and each closure is run once at most. */
  predicate Enabled(w: World, step: Step) {
    match step
    case AddStream(stream) => stream !in w.added
    case DidReceive(_) => true
    case HandlerDone(k) => k < |w.s.invocations|
    case Complete(stream) => stream in w.registered
  }

  function Next(w: World, step: Step): World
    requires Enabled(w, step)
  {
    match step
    case AddStream(stream) =>
      w.(s := Listen(w.s, stream), added := w.added + {stream}, registered := w.registered + {stream},
         since := w.since[stream := |w.received|])
    case DidReceive(piece) =>
      var s := Receive(w.s, piece);
      w.(s := s, received := w.received + [piece], launched := w.launched + Appended(w.s.invocations, s.invocations))
    case HandlerDone(k) => w.(s := FinishInvocation(w.s, k), finished := w.finished + [w.s.invocations[k]])
    case Complete(stream) => w.(s := CompleteStream(w.s, stream), registered := w.registered - {stream})
  }

  /** What has been put behind `before`. */
  function Appended(before: seq<(nat, nat)>, after: seq<(nat, nat)>): seq<(nat, nat)> {
    if |before| <= |after| then after[|before|..] else []
  }

  ghost predicate Reachable(w0: World, steps: seq<Step>, w: World)
    decreases |steps|
  {
    if steps == [] then w == w0
    else Enabled(w0, steps[0]) && Reachable(Next(w0, steps[0]), steps[1..], w)
  }

  function Queued(events: seq<nat>, event: nat): nat {
    if events == [] then 0 else Queued(events[..|events| - 1], event) + if events[|events| - 1] == event then 1 else 0
  }

  function Releases(released: seq<(nat, nat)>, event: nat): nat {
    if released == [] then 0
    else Releases(released[..|released| - 1], event) + if released[|released| - 1].0 == event then 1 else 0
  }

  /** Where a stream's completion event is: not yet run, held back, or released. */
  function Places(w: World, event: nat): nat {
    (if event in w.registered then 1 else 0)
    + Queued(w.s.enqueuedCompletionEvents, event) + Releases(w.s.released, event)
  }

  /** The counter counts outstanding invocations, events are held back only while there are some,
      and were released only when there were none. */
  predicate Gated(s: State) {
    && s.numberOfExecutingStreams == |s.invocations|
    && (s.enqueuedCompletionEvents != [] ==> |s.invocations| > 0)
    && forall i :: 0 <= i < |s.released| ==> s.released[i].1 == 0
  }

  ghost predicate Inv(w: World) {
    Gated(w.s) && forall event :: Places(w, event) == if event in w.added then 1 else 0
  }

  lemma QueuedSnoc(events: seq<nat>, last: nat, event: nat)
    ensures Queued(events + [last], event) == Queued(events, event) + if last == event then 1 else 0
  {
    assert (events + [last])[..|events|] == events;
  }

  lemma ReleasesSnoc(released: seq<(nat, nat)>, last: nat, count: nat, event: nat)
    ensures Releases(released + [(last, count)], event) == Releases(released, event) + if last == event then 1 else 0
  {
    assert (released + [(last, count)])[..|released|] == released;
  }

  /** Releasing everything held back releases each event as often as it was held. */
  lemma {:induction false} ReleaseAll(released: seq<(nat, nat)>, events: seq<nat>, count: nat, event: nat)
    ensures Releases(released + Marked(events, count), event) == Releases(released, event) + Queued(events, event)
    decreases |events|
  {
    if events == [] {
      assert released + Marked(events, count) == released;
    } else {
      var n := |events| - 1;
      ReleaseAll(released, events[..n], count, event);
      assert released + Marked(events, count) == released + Marked(events[..n], count) + [(events[n], count)];
      ReleasesSnoc(released + Marked(events[..n], count), events[n], count, event);
    }
  }

  lemma StepGated(w: World, step: Step)
    requires Gated(w.s) && Enabled(w, step)
    ensures Gated(Next(w, step).s)
  {
  }

  lemma StepConserves(w: World, step: Step, event: nat)
    requires Gated(w.s) && Enabled(w, step) && (step.AddStream? ==> step.stream !in w.registered)
    ensures Places(Next(w, step), event) == Places(w, event) + if step == AddStream(event) then 1 else 0
  {
    assert Queued([], event) == 0;
    hide Queued, Releases, Marked, Appended;
    match step
    case HandlerDone(k) =>
      ReleaseAll(w.s.released, w.s.enqueuedCompletionEvents, |w.s.invocations| - 1, event);
    case Complete(stream) =>
      QueuedSnoc(w.s.enqueuedCompletionEvents, stream, event);
      ReleasesSnoc(w.s.released, stream, |w.s.invocations|, event);
    case _ =>
  }

  lemma {:induction false} RunKeeps(w0: World, steps: seq<Step>, w: World)
    requires Inv(w0) && Reachable(w0, steps, w)
    ensures Inv(w)
    decreases |steps|
  {
    if steps != [] {
      hide Gated, Places;
      var w1 := Next(w0, steps[0]);
      StepGated(w0, steps[0]);
      assert steps[0].AddStream? ==> steps[0].stream !in w0.registered by { NotRegistered(w0); }
      forall event
        ensures Places(w1, event) == if event in w1.added then 1 else 0
      {
        StepConserves(w0, steps[0], event);
      }
      RunKeeps(w1, steps[1..], w);
    }
  }

  lemma NotRegistered(w: World)
    requires Inv(w)
    ensures w.registered <= w.added
  {
    forall event | event in w.registered
      ensures event in w.added
    {
      assert Places(w, event) >= 1;
    }
  }

  /** In every run the counter is the number of handler invocations outstanding, and completion
      events are held back only while it is positive. */
  lemma CounterCountsInvocations(steps: seq<Step>, w: World)
    requires Reachable(INITIAL, steps, w)
    ensures w.s.numberOfExecutingStreams == |w.s.invocations|
    ensures w.s.enqueuedCompletionEvents != [] ==> w.s.numberOfExecutingStreams > 0
  {
    RunKeeps(INITIAL, steps, w);
  }

  /** In every run each stream's completion event is pending, held back or released, in one place
      only, and no event is released while a handler invocation is outstanding; once every closure
      has been run and every handler is done, each has been released exactly once. */
  lemma CompletionsReleasedOnce(steps: seq<Step>, w: World, event: nat)
    requires Reachable(INITIAL, steps, w)
    ensures Places(w, event) == if event in w.added then 1 else 0
    ensures forall i :: 0 <= i < |w.s.released| ==> w.s.released[i].1 == 0
    ensures w.registered == {} && w.s.invocations == [] && event in w.added ==> Releases(w.s.released, event) == 1
  {
    RunKeeps(INITIAL, steps, w);
  }

  // ---------------------------------------------------------------- every stream gets the data

  /** The pieces with which a stream's handler was invoked, in order. */
  function PiecesOf(launched: seq<(nat, nat)>, stream: nat): seq<nat> {
    if launched == [] then []
    else PiecesOf(launched[..|launched| - 1], stream)
         + var last := launched[|launched| - 1]; if last.0 == stream then [last.1] else []
  }

  lemma PiecesSnoc(launched: seq<(nat, nat)>, last: (nat, nat), stream: nat)
    ensures PiecesOf(launched + [last], stream)
            == PiecesOf(launched, stream) + if last.0 == stream then [last.1] else []
  {
    assert (launched + [last])[..|launched|] == launched;
  }

  /** Streams are listed once each. */
  predicate Distinct(streams: seq<nat>) {
    forall i, j :: 0 <= i < j < |streams| ==> streams[i] != streams[j]
  }

  lemma DistinctSnoc(streams: seq<nat>, stream: nat)
    requires streams != [] && Distinct(streams)
    ensures var n := |streams| - 1;
            && Distinct(streams[..n]) && streams[n] !in streams[..n]
            && (stream in streams <==> stream in streams[..n] || stream == streams[n])
  {
    assert streams == streams[..|streams| - 1] + [streams[|streams| - 1]];
  }

  lemma MarkedSnoc(streams: seq<nat>, piece: nat)
    requires streams != []
    ensures var n := |streams| - 1;
            Marked(streams, piece) == Marked(streams[..n], piece) + [(streams[n], piece)]
  {
  }

  /** One piece reaches each listed stream once, and no other. */
  lemma {:induction false} PiecesOfMarked(launched: seq<(nat, nat)>, streams: seq<nat>, piece: nat, stream: nat)
    requires Distinct(streams)
    ensures PiecesOf(launched + Marked(streams, piece), stream)
            == PiecesOf(launched, stream) + if stream in streams then [piece] else []
    decreases |streams|
  {
    if streams == [] {
      assert launched + Marked(streams, piece) == launched;
    } else {
      hide PiecesOf, Distinct, Marked;
      var n := |streams| - 1;
      DistinctSnoc(streams, stream);
      MarkedSnoc(streams, piece);
      PiecesOfMarked(launched, streams[..n], piece, stream);
      var before := launched + Marked(streams[..n], piece);
      assert launched + Marked(streams, piece) == before + [(streams[n], piece)];
      PiecesSnoc(before, (streams[n], piece), stream);
    }
  }

  /** Each listed stream has been handed what was received since it was added. */
  predicate Served(w: World, stream: nat) {
    && (stream in w.added <==> stream in w.s.streams)
    && (stream in w.added ==> stream in w.since && w.since[stream] <= |w.received|
                              && PiecesOf(w.launched, stream) == w.received[w.since[stream]..])
    && (stream !in w.added ==> PiecesOf(w.launched, stream) == [])
  }

  /** Invocations launched are outstanding or finished. */
  predicate Accounted(w: World) {
    multiset(w.launched) == multiset(w.s.invocations) + multiset(w.finished)
  }

  lemma StepServes(w: World, step: Step, stream: nat)
    requires Distinct(w.s.streams) && Enabled(w, step) && Served(w, stream)
    requires step.AddStream? ==> Served(w, step.stream)
    ensures Served(Next(w, step), stream)
  {
    match step
    case AddStream(added) =>
      assert w.received[|w.received|..] == [];
    case DidReceive(piece) =>
      assert Appended(w.s.invocations, Receive(w.s, piece).invocations) == Marked(w.s.streams, piece);
      PiecesOfMarked(w.launched, w.s.streams, piece, stream);
      if stream in w.added {
        assert (w.received + [piece])[w.since[stream]..] == w.received[w.since[stream]..] + [piece];
      }
    case _ =>
  }

  lemma StepAccounts(w: World, step: Step)
    requires Accounted(w) && Enabled(w, step)
    ensures Accounted(Next(w, step))
  {
    match step
    case DidReceive(piece) =>
      var launched := Marked(w.s.streams, piece);
      assert Appended(w.s.invocations, Receive(w.s, piece).invocations) == launched;
    case HandlerDone(k) =>
      var all := w.s.invocations;
      assert all == all[..k] + ([all[k]] + all[k + 1..]);
      assert FinishInvocation(w.s, k).invocations == all[..k] + all[k + 1..];
    case _ =>
  }

  ghost predicate AllServed(w: World) {
    Distinct(w.s.streams) && Accounted(w) && forall stream :: Served(w, stream)
  }

  lemma {:induction false} RunServes(w0: World, steps: seq<Step>, w: World)
    requires AllServed(w0) && Reachable(w0, steps, w)
    ensures AllServed(w)
    decreases |steps|
  {
    if steps != [] {
      var w1 := Next(w0, steps[0]);
      StepAccounts(w0, steps[0]);
      forall stream
        ensures Served(w1, stream)
      {
        StepServes(w0, steps[0], stream);
      }
      if steps[0].AddStream? {
        assert Served(w0, steps[0].stream) && steps[0].stream !in w0.s.streams;
      }
      RunServes(w1, steps[1..], w);
    }
  }

  /** In every run the handler of each stream is invoked with exactly the pieces of data received
      since the stream was added, each once and in order; an invocation launched is outstanding or
      finished. */
  lemma EveryStreamGetsTheData(steps: seq<Step>, w: World, stream: nat)
    requires Reachable(INITIAL, steps, w) && stream in w.added
    ensures stream in w.since && w.since[stream] <= |w.received|
    ensures PiecesOf(w.launched, stream) == w.received[w.since[stream]..]
    ensures multiset(w.launched) == multiset(w.s.invocations) + multiset(w.finished)
  {
    RunServes(INITIAL, steps, w);
    assert Served(w, stream);
  }
}
