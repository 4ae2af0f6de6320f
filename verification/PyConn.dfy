/** The SDK's connection: replies and stream frames are routed by correlation, and closing wakes everybody.
    Everything between two awaits is one step. */
module PyConn {
  import opened Wrappers
  import opened Bytes
  import opened Envelopes

  datatype FutureState = Waiting | Replied(e: Envelope) | ConnectionClosed | Cancelled

  /** How a call ended. */
  datatype Outcome = Reply(e: Envelope) | ClosedError | TimeoutError | SendError

  /** A queue item: a frame, or the end marker. */
  type Item = Option<Envelope>

  /** A stream: how many frames had arrived when it was started, what is in its queue, and what its consumer got. */
  datatype Stream = Stream(from: nat, items: seq<Item>, given: seq<Envelope>)

  datatype State = State(
    closed: bool,
    pending: set<ByteString>,                  // calls that a reply can still find
    futures: map<ByteString, FutureState>,     // every call that was started
    outcomes: map<ByteString, Outcome>,        // every call that ended
    registered: set<ByteString>,               // streams that frames are routed to
    streams: map<ByteString, Stream>,          // every stream that was started
    inbound: seq<Item>,                        // requests for the serving side
    arrived: seq<Envelope>)                    // every frame routed so far

  datatype Event =
    | CallStarts(c: ByteString)     // `call` with the fresh correlation `c`, up to its first await
    | SendFails(c: ByteString)     // the send of a started call raises
    | Timeout(c: ByteString)       // the wait of a call runs out and cancels its future
    | Finish(c: ByteString)        // a call whose future is done resumes and returns or raises
    | Arrive(e: Envelope)          // the reader routes an authenticated frame
    | Teardown                     // the reader ended or the connection was closed
    | StreamStarts(c: ByteString)   // `call_stream` with the fresh correlation `c`
    | Next(c: ByteString)          // the consumer of a stream gets an item
    | StopStream(c: ByteString)    // the consumer of a stream gives up (timeout or closed generator)

  const START := State(false, {}, map[], map[], {}, map[], [], [])

  predicate Used(s: State, c: ByteString) {
    c in s.futures || c in s.outcomes || c in s.streams
  }

  function Put(s: State, c: ByteString, item: Item): State {
    if c in s.registered && c in s.streams then
      s.(streams := s.streams[c := s.streams[c].(items := s.streams[c].items + [item])])
    else s
  }

  /** Routing one frame: a request to the server side, a chunk to its stream, anything else to the waiting call
      or else to a stream. */
  function Route(s: State, e: Envelope): State {
    var c := e.correlation;
    var t := s.(arrived := s.arrived + [e]);
    if e.typ.Request? then t.(inbound := t.inbound + [Some(e)])
    else if e.typ.StreamChunk? then Put(t, c, Some(e))
    else if c in t.pending && c in t.futures && t.futures[c].Waiting? then
      t.(pending := t.pending - {c}, futures := t.futures[c := Replied(e)])
    else Put(t.(pending := t.pending - {c}), c, Some(e))
  }

  /** Every waiting call fails. */
  function Failed(s: State): (r: map<ByteString, FutureState>)
    ensures r.Keys == s.futures.Keys
  {
    map c | c in s.futures :: if c in s.pending && s.futures[c].Waiting? then ConnectionClosed else s.futures[c]
  }

  /** Every registered stream gets the end marker. */
  function Ended(s: State): (r: map<ByteString, Stream>)
    ensures r.Keys == s.streams.Keys
  {
    map c | c in s.streams ::
      if c in s.registered then s.streams[c].(items := s.streams[c].items + [None]) else s.streams[c]
  }

  function Close(s: State): State {
    if s.closed then s else
    State(true, {}, Failed(s), s.outcomes, s.registered, Ended(s), s.inbound + [None], s.arrived)
  }

  /** The last frame a stream's consumer is given: an error, a single response, or an end chunk. */
  predicate Terminal(e: Envelope) {
    e.typ.Error? || e.typ.Response? || (e.typ.StreamChunk? && e.streamEnd)
  }

  function OutcomeOf(f: FutureState): Outcome
    requires !f.Waiting?
  {
    match f
    case Replied(e) => Reply(e)
    case ConnectionClosed => ClosedError
    case Cancelled => TimeoutError
  }

  /** The consumer of a stream takes an item; the end marker or a terminal frame is its last. */
  function Consume(s: State, c: ByteString): State
    requires c in s.streams && s.streams[c].items != []
  {
    var st := s.streams[c];
    var rest := st.items[1..];
    if st.items[0].None? then
      s.(registered := s.registered - {c}, streams := s.streams[c := st.(items := rest)])
    else
      var e := st.items[0].value;
      s.(registered := if Terminal(e) then s.registered - {c} else s.registered,
         streams := s.streams[c := Stream(st.from, rest, st.given + [e])])
  }

  function Step(s: State, ev: Event): State {
    match ev
    case CallStarts(c) =>
      if Used(s, c) then s
      else if s.closed then s.(outcomes := s.outcomes[c := ClosedError])
      else s.(pending := s.pending + {c}, futures := s.futures[c := Waiting])
    case SendFails(c) =>
      if c !in s.futures || c in s.outcomes then s else
      s.(pending := s.pending - {c}, outcomes := s.outcomes[c := SendError],
         futures := if s.futures[c].Waiting? then s.futures[c := Cancelled] else s.futures)
    case Timeout(c) =>
      if c !in s.futures || !s.futures[c].Waiting? then s else s.(futures := s.futures[c := Cancelled])
    case Finish(c) =>
      if c !in s.futures || s.futures[c].Waiting? || c in s.outcomes then s else
      s.(pending := s.pending - {c}, outcomes := s.outcomes[c := OutcomeOf(s.futures[c])])
    case Arrive(e) => if s.closed then s else Route(s, e)
    case Teardown => Close(s)
    case StreamStarts(c) =>
      if Used(s, c) || s.closed then s
      else s.(registered := s.registered + {c}, streams := s.streams[c := Stream(|s.arrived|, [], [])])
    case Next(c) =>
      if c !in s.registered || c !in s.streams || s.streams[c].items == [] then s else Consume(s, c)
    case StopStream(c) => s.(registered := s.registered - {c})
  }

  function Run(s: State, events: seq<Event>): State
    decreases |events|
  {
    if events == [] then s else Run(Step(s, events[0]), events[1..])
  }

  // ----- Calls -----

  ghost predicate CallsInv(s: State) {
    && (s.closed ==> s.pending == {})
    && (forall c | c in s.pending :: c in s.futures && c !in s.outcomes)
    && (forall c | c in s.futures && s.futures[c].Waiting? :: c in s.pending && c !in s.outcomes)
    && (forall c | c in s.futures && s.futures[c].Replied? ::
          s.futures[c].e in s.arrived && s.futures[c].e.correlation == c && IsAnswer(s.futures[c].e))
    && (forall c | c in s.outcomes && s.outcomes[c].Reply? ::
          c in s.futures && s.futures[c] == Replied(s.outcomes[c].e))
    && (forall c | c in s.streams :: c !in s.futures)
    && (forall c | c in s.registered :: c in s.streams)
  }

  /** A frame that can answer a call. */
  predicate IsAnswer(e: Envelope) {
    !e.typ.Request? && !e.typ.StreamChunk?
  }

  /** Calls that ended stay ended the same way, and a closed connection stays closed. */
  ghost predicate Settled(s: State, t: State) {
    && (s.closed ==> t.closed)
    && (forall c | c in s.outcomes :: c in t.outcomes && t.outcomes[c] == s.outcomes[c])
  }

  lemma StepKeepsCalls(s: State, ev: Event)
    requires CallsInv(s)
    ensures CallsInv(Step(s, ev))
    ensures Settled(s, Step(s, ev))
  {
    hide CallsInv, Settled, Route, Close, Used;
    assert Settled(s, s) by { SettledReflexive(s); }
    match ev
    case CallStarts(c) => StartKeepsCalls(s, c);
    case SendFails(c) => SendFailKeepsCalls(s, c);
    case Timeout(c) => TimeoutKeepsCalls(s, c);
    case Finish(c) => FinishKeepsCalls(s, c);
    case Arrive(e) => if !s.closed { RouteKeepsCalls(s, e); }
    case Teardown => CloseKeepsCalls(s);
    case StreamStarts(c) => StreamStartKeepsCalls(s, c);
    case Next(c) => NextKeepsCalls(s, c);
    case StopStream(c) => StopKeepsCalls(s, c);
  }

  lemma SettledReflexive(s: State)
    ensures Settled(s, s)
  {
  }

  lemma StartKeepsCalls(s: State, c: ByteString)
    requires CallsInv(s)
    ensures CallsInv(Step(s, CallStarts(c))) && Settled(s, Step(s, CallStarts(c)))
  {
  }

  lemma SendFailKeepsCalls(s: State, c: ByteString)
    requires CallsInv(s)
    ensures CallsInv(Step(s, SendFails(c))) && Settled(s, Step(s, SendFails(c)))
  {
  }

  lemma TimeoutKeepsCalls(s: State, c: ByteString)
    requires CallsInv(s)
    ensures CallsInv(Step(s, Timeout(c))) && Settled(s, Step(s, Timeout(c)))
  {
  }

  lemma FinishKeepsCalls(s: State, c: ByteString)
    requires CallsInv(s)
    ensures CallsInv(Step(s, Finish(c))) && Settled(s, Step(s, Finish(c)))
  {
  }

  lemma StreamStartKeepsCalls(s: State, c: ByteString)
    requires CallsInv(s)
    ensures CallsInv(Step(s, StreamStarts(c))) && Settled(s, Step(s, StreamStarts(c)))
  {
  }

  lemma NextKeepsCalls(s: State, c: ByteString)
    requires CallsInv(s)
    ensures CallsInv(Step(s, Next(c))) && Settled(s, Step(s, Next(c)))
  {
  }

  lemma StopKeepsCalls(s: State, c: ByteString)
    requires CallsInv(s)
    ensures CallsInv(Step(s, StopStream(c))) && Settled(s, Step(s, StopStream(c)))
  {
  }

  lemma PutKeepsCalls(s: State, c: ByteString, item: Item)
    requires CallsInv(s)
    ensures CallsInv(Put(s, c, item)) && Settled(s, Put(s, c, item))
  {
  }

  lemma NoLongerPending(s: State, c: ByteString)
    requires CallsInv(s) && !(c in s.pending && s.futures[c].Waiting?)
    ensures CallsInv(s.(pending := s.pending - {c}))
  {
  }

  lemma AnswerKeepsCalls(s: State, c: ByteString, e: Envelope)
    requires CallsInv(s) && c in s.pending && s.futures[c].Waiting?
    requires e in s.arrived && e.correlation == c && IsAnswer(e)
    ensures
      var t := s.(pending := s.pending - {c}, futures := s.futures[c := Replied(e)]);
      CallsInv(t) && Settled(s, t)
  {
  }

  lemma RouteKeepsCalls(s: State, e: Envelope)
    requires CallsInv(s) && !s.closed
    ensures CallsInv(Route(s, e)) && Settled(s, Route(s, e))
  {
    hide CallsInv, Put;
    var c := e.correlation;
    var t := s.(arrived := s.arrived + [e]);
    MoreArrived(s, e);
    PutKeepsCalls(t, c, Some(e));
    PendingIsCalled(t);
    if !e.typ.Request? && !e.typ.StreamChunk? {
      if c in t.pending && t.futures[c].Waiting? {
        AnswerKeepsCalls(t, c, e);
      } else {
        NoLongerPending(t, c);
        PutKeepsCalls(t.(pending := t.pending - {c}), c, Some(e));
      }
    } else if e.typ.Request? {
      InboundKeepsCalls(t, t.inbound + [Some(e)]);
    }
  }

  lemma PendingIsCalled(s: State)
    requires CallsInv(s)
    ensures s.pending <= s.futures.Keys
  {
  }

  lemma InboundKeepsCalls(s: State, inbound: seq<Item>)
    requires CallsInv(s)
    ensures CallsInv(s.(inbound := inbound))
  {
  }

  lemma MoreArrived(s: State, e: Envelope)
    requires CallsInv(s)
    ensures CallsInv(s.(arrived := s.arrived + [e]))
  {
  }

  lemma CloseKeepsCalls(s: State)
    requires CallsInv(s)
    ensures CallsInv(Close(s)) && Settled(s, Close(s))
  {
  }

  lemma {:induction false} RunKeepsCalls(s: State, events: seq<Event>)
    requires CallsInv(s)
    ensures CallsInv(Run(s, events))
    ensures Settled(s, Run(s, events))
    decreases |events|
  {
    hide CallsInv, Step;
    if events != [] {
      StepKeepsCalls(s, events[0]);
      RunKeepsCalls(Step(s, events[0]), events[1..]);
    }
  }

  /** In every run: a call ends at most once, and a reply it ends with is a frame that arrived with its own
      correlation. */
  lemma CallEndsOnceWithItsReply(before: seq<Event>, after: seq<Event>, c: ByteString)
    requires c in Run(START, before).outcomes
    ensures
      var now, later := Run(START, before), Run(Run(START, before), after);
      && c in later.outcomes && later.outcomes[c] == now.outcomes[c]
      && (now.outcomes[c].Reply? ==>
            var e := now.outcomes[c].e; e.correlation == c && e in now.arrived && IsAnswer(e))
  {
    RunKeepsCalls(START, before);
    RunKeepsCalls(Run(START, before), after);
  }

  /** A frame never completes two calls: another call's outcome is another frame, however late it comes. */
  lemma NoReplyForTwoCalls(events: seq<Event>, c: ByteString, d: ByteString)
    requires c in Run(START, events).outcomes && d in Run(START, events).outcomes && c != d
    requires Run(START, events).outcomes[c].Reply? && Run(START, events).outcomes[d].Reply?
    ensures Run(START, events).outcomes[c].e != Run(START, events).outcomes[d].e
  {
    RunKeepsCalls(START, events);
  }

  /** Once closed, no call is pending or waiting, ever. */
  lemma ClosedMeansNobodyWaits(before: seq<Event>, after: seq<Event>)
    requires Run(START, before).closed
    ensures
      var later := Run(Run(START, before), after);
      later.closed && later.pending == {} && forall c | c in later.futures :: !later.futures[c].Waiting?
  {
    RunKeepsCalls(START, before);
    RunKeepsCalls(Run(START, before), after);
  }

  /** An answer that arrives for a waiting call reaches it. */
  lemma AnswerReachesWaitingCall(events: seq<Event>, e: Envelope)
    requires !Run(START, events).closed && IsAnswer(e) && e.correlation in Run(START, events).futures
    requires Run(START, events).futures[e.correlation].Waiting?
    ensures Step(Run(START, events), Arrive(e)).futures[e.correlation] == Replied(e)
  {
    RunKeepsCalls(START, events);
  }

  // ----- Streams -----

  /** The frames for correlation `c` among `frames`, in order. */
  function FramesFor(c: ByteString, frames: seq<Envelope>): seq<Envelope> {
    if frames == [] then [] else
    var e := frames[|frames| - 1];
    FramesFor(c, frames[..|frames| - 1]) + if e.correlation == c && !e.typ.Request? then [e] else []
  }

  function Somes(frames: seq<Envelope>): (r: seq<Item>)
    ensures |r| == |frames| && forall i | 0 <= i < |r| :: r[i] == Some(frames[i])
  {
    seq(|frames|, i requires 0 <= i < |frames| => Some(frames[i]))
  }

  /** While a stream is registered, its consumer was given or has queued exactly its frames in order; when the
      connection closed in the meantime, the end marker follows them. What it was given is always a prefix of them,
      and only the last frame given can be a terminal one. */
  ghost predicate StreamInv(s: State, c: ByteString)
    requires c in s.streams
  {
    var st := s.streams[c];
    && st.from <= |s.arrived|
    && var frames := FramesFor(c, s.arrived[st.from..]);
       && st.given <= frames
       && (c in s.registered ==>
             && Somes(st.given) + st.items == Somes(frames) + Marker(s.closed)
             && forall e | e in st.given :: !Terminal(e))
  }

  function Marker(closed: bool): seq<Item> {
    if closed then [None] else []
  }

  ghost predicate StreamsInv(s: State) {
    CallsInv(s) && forall c | c in s.streams :: StreamInv(s, c)
  }

  lemma FramesForSnoc(c: ByteString, frames: seq<Envelope>, e: Envelope)
    ensures FramesFor(c, frames + [e]) ==
      FramesFor(c, frames) + if e.correlation == c && !e.typ.Request? then [e] else []
  {
    assert (frames + [e])[..|frames|] == frames;
  }

  lemma SomesSnoc(a: seq<Envelope>, e: Envelope)
    ensures Somes(a + [e]) == Somes(a) + [Some(e)]
  {
  }

  lemma StreamIsNoCall(s: State, c: ByteString)
    requires StreamsInv(s) && c in s.streams
    ensures c !in s.futures && StreamInv(s, c)
  {
  }

  lemma ArriveKeepsStream(s: State, e: Envelope, c: ByteString)
    requires StreamsInv(s) && !s.closed && c in s.streams
    ensures StreamInv(Route(s, e), c)
  {
    hide FramesFor, Somes, StreamsInv, Terminal;
    StreamIsNoCall(s, c);
    var st := s.streams[c];
    assert (s.arrived + [e])[st.from..] == s.arrived[st.from..] + [e];
    FramesForSnoc(c, s.arrived[st.from..], e);
    var frames := FramesFor(c, s.arrived[st.from..]);
    SomesSnoc(frames, e);
    assert Somes(frames) + Marker(false) == Somes(frames);
    assert Somes(frames + [e]) + Marker(false) == Somes(frames + [e]);
    assert Somes(st.given) + (st.items + [Some(e)]) == Somes(st.given) + st.items + [Some(e)];
  }

  lemma CloseKeepsStream(s: State, c: ByteString)
    requires StreamsInv(s) && c in s.streams
    ensures StreamInv(Close(s), c)
  {
    hide FramesFor, Somes;
    var st := s.streams[c];
    assert Somes(st.given) + (st.items + [None]) == Somes(st.given) + st.items + [None];
  }

  lemma NextKeepsStream(s: State, c: ByteString)
    requires StreamsInv(s) && c in s.registered && c in s.streams && s.streams[c].items != []
    ensures StreamInv(Step(s, Next(c)), c)
  {
    hide FramesFor;
    var st := s.streams[c];
    var frames := FramesFor(c, s.arrived[st.from..]);
    var all := Somes(st.given) + st.items;
    assert all[|st.given|] == st.items[0];
    if st.items[0].Some? {
      var e := st.items[0].value;
      SomesSnoc(st.given, e);
      assert Somes(st.given + [e]) + st.items[1..] == all;
      assert frames[|st.given|] == e;
    }
  }

  /** Nothing changed for this stream, except that it may have been given up. */
  predicate SameStream(s: State, t: State, c: ByteString) {
    && c in s.streams && c in t.streams && s.streams[c] == t.streams[c]
    && s.arrived == t.arrived && s.closed == t.closed && (c in t.registered ==> c in s.registered)
  }

  lemma SameStreamKeeps(s: State, t: State, c: ByteString)
    requires SameStream(s, t, c) && StreamInv(s, c)
    ensures StreamInv(t, c)
  {
  }

  lemma StepKeepsStreams(s: State, ev: Event)
    requires StreamsInv(s)
    ensures StreamsInv(Step(s, ev))
  {
    hide StreamInv, CallsInv, Route, Close;
    StepKeepsCalls(s, ev);
    SameStreams(s);
    forall c | c in Step(s, ev).streams ensures StreamInv(Step(s, ev), c) {
      StepKeepsStream(s, ev, c);
    }
  }

  lemma StepKeepsStream(s: State, ev: Event, c: ByteString)
    requires StreamsInv(s) && c in Step(s, ev).streams
    ensures StreamInv(Step(s, ev), c)
  {
    hide StreamInv, CallsInv, Route, Close;
    SameStreams(s);
    var t := Step(s, ev);
    if SameStream(s, t, c) {
      SameStreamKeeps(s, t, c);
    } else {
      match ev
      case Arrive(e) => ArriveKeepsStream(s, e, c);
      case Teardown => CloseKeepsStream(s, c);
      case StreamStarts(d) => NewStream(s, c);
      case Next(d) => NextKeepsStream(s, c);
      case _ =>
    }
  }

  lemma SameStreams(s: State)
    ensures forall e :: Route(s, e).streams.Keys == s.streams.Keys
    ensures Close(s).streams.Keys == s.streams.Keys
  {
  }

  lemma NewStream(s: State, c: ByteString)
    requires !Used(s, c) && !s.closed
    ensures StreamInv(Step(s, StreamStarts(c)), c)
  {
    assert s.arrived[|s.arrived|..] == [];
  }

  lemma {:induction false} RunKeepsStreams(s: State, events: seq<Event>)
    requires StreamsInv(s)
    ensures StreamsInv(Run(s, events))
    decreases |events|
  {
    hide StreamsInv, Step;
    if events != [] {
      StepKeepsStreams(s, events[0]);
      RunKeepsStreams(Step(s, events[0]), events[1..]);
    }
  }

  lemma StreamsInEveryRun(events: seq<Event>)
    ensures StreamsInv(Run(START, events))
  {
    RunKeepsStreams(START, events);
  }

  /** In every run an open stream holds exactly the frames that arrived for it since it was started, in order,
      followed by the end marker once the connection is closed; and no stream is ever given anything else. */
  lemma StreamGetsItsFrames(events: seq<Event>, c: ByteString)
    requires c in Run(START, events).streams
    ensures
      var s := Run(START, events);
      var st := s.streams[c];
      && st.from <= |s.arrived|
      && var frames := FramesFor(c, s.arrived[st.from..]);
         && st.given <= frames
         && (c in s.registered ==> Somes(st.given) + st.items == Somes(frames) + Marker(s.closed))
  {
    RunKeepsStreams(START, events);
    assert StreamInv(Run(START, events), c);
  }

  // ----- The connection object -----

  class Future {
    var state: FutureState

    constructor ()
      ensures state == Waiting
    {
      state := Waiting;
    }
  }

  class Queue {
    var items: seq<Item>

    constructor ()
      ensures items == []
    {
      items := [];
    }
  }

  class Conn {
    var closed: bool
    var pending: map<ByteString, Future>
    var streams: map<ByteString, Queue>
    const inbound: Queue
    ghost var futures: map<ByteString, Future>   // every future made
    ghost var queues: map<ByteString, Queue>     // every queue made

    constructor ()
      ensures Shows(START)
    {
      closed, pending, streams, futures, queues := false, map[], map[], map[], map[];
      inbound := new Queue();
    }

    /** The object is in state `s`. */
    ghost predicate Shows(s: State)
      reads this, futures.Values, queues.Values, inbound
    {
      && closed == s.closed && inbound.items == s.inbound
      && ShowsCalls(s.pending, s.futures) && ShowsStreams(s.registered, s.streams) && Separate()
    }

    /** No two calls share a future and no two consumers a queue. */
    ghost predicate Separate()
      reads this`futures, this`queues
    {
      && (forall c, d | c in futures && d in futures && c != d :: futures[c] != futures[d])
      && (forall c, d | c in queues && d in queues && c != d :: queues[c] != queues[d])
      && (forall c | c in queues :: queues[c] != inbound)
    }

    ghost predicate ShowsCalls(waiting: set<ByteString>, states: map<ByteString, FutureState>)
      reads this`pending, this`futures, futures.Values
    {
      && pending.Keys == waiting && futures.Keys == states.Keys
      && (forall c | c in futures :: futures[c].state == states[c])
      && (forall c | c in pending :: c in futures && pending[c] == futures[c])
    }

    /** Frames are routed to the queues of the registered streams. */
    ghost predicate Routed(registered: set<ByteString>, started: set<ByteString>)
      reads this`streams, this`queues
    {
      && streams.Keys == registered && queues.Keys == started
      && forall c | c in streams :: c in queues && streams[c] == queues[c]
    }

    ghost predicate ShowsStreams(registered: set<ByteString>, started: map<ByteString, Stream>)
      reads this`streams, this`queues, queues.Values
    {
      Routed(registered, started.Keys) && forall c | c in queues :: queues[c].items == started[c].items
    }

    lemma OwnQueue(c: ByteString)
      requires Separate() && c in queues
      ensures queues[c] != inbound && forall d | d in queues && d != c :: queues[d] != queues[c]
    {
    }

    /** `call` up to its first await, for a correlation never used before. */
    method StartCall(c: ByteString, ghost s: State) returns (fut: Option<Future>)
      requires Shows(s) && !Used(s, c)
      modifies this`pending, this`futures
      ensures Shows(Step(s, CallStarts(c)))
      ensures fut.None? <==> closed
    {
      if closed {
        return None;
      }
      var f := new Future();
      pending := pending[c := f];
      futures := futures[c := f];
      return Some(f);
    }

    /** `call_stream` up to its first await. */
    method StartStream(c: ByteString, ghost s: State) returns (q: Option<Queue>)
      requires Shows(s) && !Used(s, c)
      modifies this`streams, this`queues
      ensures Shows(Step(s, StreamStarts(c)))
      ensures q.None? <==> closed
    {
      if closed {
        return None;
      }
      var queue := new Queue();
      streams := streams[c := queue];
      queues := queues[c := queue];
      return Some(queue);
    }

    /** A call whose future is done resumes: it leaves the table and returns or raises what the future holds. */
    method EndCall(c: ByteString, fut: Future, ghost s: State) returns (outcome: Outcome)
      requires Shows(s) && c in futures && futures[c] == fut && !fut.state.Waiting? && c !in s.outcomes
      modifies this`pending
      ensures Shows(Step(s, Finish(c)))
      ensures Step(s, Finish(c)).outcomes == s.outcomes[c := outcome]
    {
      pending := pending - {c};
      return OutcomeOf(fut.state);
    }

    /** The consumer of a stream takes the next item; the end marker and a terminal frame end the stream. */
    method NextItem(c: ByteString, ghost s: State) returns (item: Item)
      requires Shows(s) && c in streams && streams[c].items != []
      modifies this`streams, streams[c]
      ensures c in s.streams && s.streams[c].items != [] && Shows(Consume(s, c))
      ensures item == s.streams[c].items[0]
    {
      hide ShowsCalls, ShowsStreams, Routed, Separate;
      IsRouted(s, c);
      item := TakeItem(c, s.registered, s.streams);
      if item.None? || Terminal(item.value) {
        Unregister(c, s.registered, Consume(s, c).streams);
      }
    }

    method Unregister(c: ByteString, ghost registered: set<ByteString>, ghost started: map<ByteString, Stream>)
      requires ShowsStreams(registered, started)
      modifies this`streams
      ensures ShowsStreams(registered - {c}, started)
    {
      streams := streams - {c};
    }

    method TakeItem(c: ByteString, ghost registered: set<ByteString>, ghost started: map<ByteString, Stream>)
      returns (item: Item)
      requires ShowsStreams(registered, started) && Separate() && c in streams && streams[c].items != []
      modifies streams[c]
      ensures c in started && started[c].items != [] && item == started[c].items[0]
      ensures inbound.items == old(inbound.items)
      ensures forall st: Stream | st.items == started[c].items[1..] :: ShowsStreams(registered, started[c := st])
    {
      var q := streams[c];
      OwnQueue(c);
      item, q.items := q.items[0], q.items[1..];
    }

    method Deliver(c: ByteString, e: Envelope, ghost s: State)
      requires Shows(s)
      modifies queues.Values
      ensures Shows(Put(s, c, Some(e)))
    {
      if c in streams {
        var q := streams[c];
        q.items := q.items + [Some(e)];
      }
    }

    /** The body of the reader loop for one authenticated frame. */
    method RouteFrame(e: Envelope, ghost s: State)
      requires Shows(s) && CallsInv(s) && !closed
      modifies this`pending, futures.Values, queues.Values, inbound
      ensures Shows(Route(s, e))
    {
      hide CallsInv, Put;
      var corr := e.correlation;
      ghost var t := s.(arrived := s.arrived + [e]);
      assert Shows(t) && CallsInv(t) by { MoreArrived(s, e); }
      if e.typ.Request? {
        inbound.items := inbound.items + [Some(e)];
      } else if e.typ.StreamChunk? {
        Deliver(corr, e, t);
      } else {
        Answer(e, t);
      }
    }

    /** A reply, or the last frame of a stream. */
    method Answer(e: Envelope, ghost t: State)
      requires Shows(t) && CallsInv(t)
      modifies this`pending, futures.Values, queues.Values
      ensures
        var c := e.correlation;
        Shows(if c in t.pending && c in t.futures && t.futures[c].Waiting? then
                t.(pending := t.pending - {c}, futures := t.futures[c := Replied(e)])
              else Put(t.(pending := t.pending - {c}), c, Some(e)))
    {
      hide CallsInv, Put, ShowsStreams;
      var corr := e.correlation;
      var fut: Future? := if corr in pending then pending[corr] else null;
      pending := pending - {corr};
      if fut != null && fut.state.Waiting? {
        fut.state := Replied(e);
      } else {
        Deliver(corr, e, t.(pending := t.pending - {corr}));
      }
    }

    /** Wake everybody: calls fail, streams and the serving side get the end marker. */
    method TearDown(ghost s: State)
      requires Shows(s)
      modifies this`closed, this`pending, futures.Values, queues.Values, inbound
      ensures Shows(Close(s))
    {
      hide ShowsCalls, ShowsStreams, Failed, Ended;
      if closed {
        return;
      }
      closed := true;
      FailPending(s);
      EndStreams(s);
      inbound.items := inbound.items + [None];
    }

    method FailPending(ghost s: State)
      requires ShowsCalls(s.pending, s.futures) && ShowsStreams(s.registered, s.streams) && Separate() && !s.closed
      modifies this`pending, futures.Values
      ensures ShowsCalls({}, Failed(s)) && ShowsStreams(s.registered, s.streams) && inbound.items == old(inbound.items)
    {
      hide ShowsStreams, Separate;
      FailWaiting(s);
      pending := map[];
    }

    method FailWaiting(ghost s: State)
      requires ShowsCalls(s.pending, s.futures) && ShowsStreams(s.registered, s.streams) && Separate() && !s.closed
      modifies futures.Values
      ensures forall c | c in futures :: futures[c].state == Failed(s)[c]
      ensures ShowsStreams(s.registered, s.streams) && inbound.items == old(inbound.items)
    {
      hide ShowsStreams;
      var todo := pending.Keys;
      while todo != {}
        invariant todo <= pending.Keys
        invariant ShowsStreams(s.registered, s.streams) && inbound.items == old(inbound.items)
        invariant forall c | c in futures ::
          futures[c].state ==
            if c in pending && c !in todo && s.futures[c].Waiting? then ConnectionClosed else s.futures[c]
        decreases todo
      {
        var c :| c in todo;
        var fut := pending[c];
        assert fut == futures[c];
        if fut.state.Waiting? {
          fut.state := ConnectionClosed;
        }
        todo := todo - {c};
      }
    }

    /** Every routed stream but those in `todo` has got its end marker. */
    ghost predicate EndedBut(started: map<ByteString, Stream>, todo: set<ByteString>)
      reads this`streams, this`queues, queues.Values
    {
      forall c | c in queues && c in started ::
        queues[c].items == if c in streams && c !in todo then started[c].items + [None] else started[c].items
    }

    method PutEnd(c: ByteString, ghost s: State, ghost todo: set<ByteString>)
      requires Separate() && Routed(s.registered, s.streams.Keys) && EndedBut(s.streams, todo)
      requires c in todo && c in streams
      modifies streams[c]
      ensures EndedBut(s.streams, todo - {c}) && inbound.items == old(inbound.items)
    {
      var q := streams[c];
      OwnQueue(c);
      q.items := q.items + [None];
    }

    lemma NoneEnded(s: State)
      requires ShowsStreams(s.registered, s.streams)
      ensures EndedBut(s.streams, streams.Keys)
    {
    }

    lemma AllEnded(s: State)
      requires Routed(s.registered, s.streams.Keys) && EndedBut(s.streams, {})
      ensures ShowsStreams(s.registered, Ended(s))
    {
    }

    lemma IsRouted(s: State, c: ByteString)
      requires ShowsStreams(s.registered, s.streams) && c in streams
      ensures c in queues && streams[c] == queues[c] && c in s.streams && streams[c].items == s.streams[c].items
    {
    }

    method EndStreams(ghost s: State)
      requires ShowsStreams(s.registered, s.streams) && ShowsCalls({}, Failed(s)) && Separate() && !s.closed
      modifies queues.Values
      ensures ShowsStreams(s.registered, Ended(s)) && ShowsCalls({}, Failed(s)) && inbound.items == old(inbound.items)
    {
      hide ShowsCalls, Failed, Ended, Separate, EndedBut;
      var todo := streams.Keys;
      NoneEnded(s);
      while todo != {}
        invariant todo <= streams.Keys
        invariant ShowsCalls({}, Failed(s)) && inbound.items == old(inbound.items)
        invariant EndedBut(s.streams, todo)
        decreases todo
      {
        var c :| c in todo;
        PutEnd(c, s, todo);
        todo := todo - {c};
      }
      AllEnded(s);
    }
  }
}
