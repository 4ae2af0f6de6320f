/** The core's connection: one reader routes every incoming envelope without ever waiting for a consumer. */
module StreamDemux {
  import opened Wrappers
  import opened Bytes
  import opened Envelopes

  const STREAM_CAPACITY: nat := 64

  const INBOUND_CAPACITY: nat := 256

  /** A bounded queue between the reader and one consumer. */
  class Channel {
    const capacity: nat
    var items: seq<Envelope>
    var listening: bool   // the receiver has not been dropped

    constructor (capacity: nat)
      ensures this.capacity == capacity && items == [] && listening
    {
      this.capacity, items, listening := capacity, [], true;
    }

    predicate HasRoom()
      reads this
    {
      listening && |items| < capacity
    }

    method TrySend(e: Envelope) returns (ok: bool)
      modifies this`items
      ensures ok == old(HasRoom())
      ensures items == if ok then old(items) + [e] else old(items)
    {
      ok := HasRoom();
      if ok {
        items := items + [e];
      }
    }

    /** The consumer takes the next envelope, if there is one. */
    method Take() returns (e: Option<Envelope>)
      modifies this`items
      ensures old(items) == [] ==> e == None && items == []
      ensures old(items) != [] ==> e == Some(old(items)[0]) && items == old(items)[1..]
    {
      if items == [] {
        return None;
      }
      e, items := Some(items[0]), items[1..];
    }
  }

  /** The slot a unary call waits on. */
  class Waiter {
    var reply: Option<Envelope>
    var listening: bool

    constructor ()
      ensures reply == None && listening
    {
      reply, listening := None, true;
    }
  }

  /** What one stream looks like from the demultiplexer: its queue, and whether the reader still routes to it. */
  datatype StreamView = StreamView(items: seq<Envelope>, listening: bool, registered: bool)

  /** A chunk for this stream arrives: deliver it, or give the stream up when there is no room. */
  function Arrive(s: StreamView, e: Envelope): StreamView {
    if !s.registered then s
    else if !s.listening || |s.items| >= STREAM_CAPACITY then s.(registered := false)
    else s.(items := s.items + [e], registered := !e.streamEnd)
  }

  predicate IsReply(e: Envelope) {
    e.typ.Response? || e.typ.Error?
  }

  class Conn {
    var pending: map<ByteString, Waiter>
    var streams: map<ByteString, Channel>
    var eventSubs: map<Utf8Text, Channel>
    const inbound: Channel

    constructor ()
      ensures Valid() && pending == map[] && streams == map[] && eventSubs == map[]
    {
      pending, streams, eventSubs := map[], map[], map[];
      inbound := new Channel(INBOUND_CAPACITY);
    }

    ghost function Channels(): set<Channel>
      reads this
    {
      streams.Values + eventSubs.Values + {inbound}
    }

    /** Every consumer has its own queue or slot. */
    ghost predicate Valid()
      reads this
    {
      && (forall c, d | c in streams && d in streams && c != d :: streams[c] != streams[d])
      && (forall c, d | c in pending && d in pending && c != d :: pending[c] != pending[d])
      && (forall c, t | c in streams && t in eventSubs :: streams[c] != eventSubs[t])
      && (forall t, u | t in eventSubs && u in eventSubs && t != u :: eventSubs[t] != eventSubs[u])
      && (forall c | c in streams :: streams[c] != inbound && streams[c].capacity == STREAM_CAPACITY)
      && (forall t | t in eventSubs :: eventSubs[t] != inbound && eventSubs[t].capacity == STREAM_CAPACITY)
      && inbound.capacity == INBOUND_CAPACITY
    }

    ghost function View(c: ByteString, ch: Channel): StreamView
      reads this, ch
    {
      StreamView(ch.items, ch.listening, c in streams && streams[c] == ch)
    }

    /** The queue an envelope is meant for. */
    ghost function Target(e: Envelope): Option<Channel>
      reads this
    {
      match e.typ
      case Response => None
      case Error => None
      case StreamChunk => if e.correlation in streams then Some(streams[e.correlation]) else None
      case Event =>
        var topic := e.capability.GetOr([]);
        if topic in eventSubs then Some(eventSubs[topic]) else Some(inbound)
      case Request => Some(inbound)
      case Cancel => Some(inbound)
    }

    /** Register a stream before its request is sent. */
    method OpenStream(correlation: ByteString) returns (ch: Channel)
      requires Valid()
      modifies this`streams
      ensures Valid() && fresh(ch)
      ensures streams == old(streams)[correlation := ch]
      ensures View(correlation, ch) == StreamView([], true, true)
    {
      ch := new Channel(STREAM_CAPACITY);
      streams := streams[correlation := ch];
    }

    /** Subscribe to a topic. */
    method Subscribe(topic: Utf8Text) returns (ch: Channel)
      requires Valid()
      modifies this`eventSubs
      ensures Valid() && fresh(ch) && ch.items == [] && ch.listening
      ensures eventSubs == old(eventSubs)[topic := ch]
    {
      ch := new Channel(STREAM_CAPACITY);
      eventSubs := eventSubs[topic := ch];
    }

    /** Register a unary call before its request is sent. */
    method OpenCall(correlation: ByteString) returns (w: Waiter)
      requires Valid()
      modifies this`pending
      ensures Valid() && fresh(w) && w.reply == None
      ensures pending == old(pending)[correlation := w]
    {
      w := new Waiter();
      pending := pending[correlation := w];
    }

    /** Demultiplex one envelope. At most one queue takes it, and only when it has room; a reply resolves the one
        call it belongs to; a stream is given up when its queue cannot take a chunk or its last chunk has come. */
    method Route(e: Envelope)
      requires Valid()
      modifies this`pending, this`streams
      modifies pending.Values, Channels()
      ensures Valid()
      ensures pending == if IsReply(e) then old(pending) - {e.correlation} else old(pending)
      ensures forall c | c in old(pending) ::
        old(pending)[c].reply ==
          if IsReply(e) && c == e.correlation && old(pending[c].listening) then Some(e) else old(pending[c].reply)
      ensures forall c | c in old(streams) ::
        View(c, old(streams)[c]) ==
          if e.typ.StreamChunk? && c == e.correlation then Arrive(old(View(c, streams[c])), e)
          else old(View(c, streams[c]))
      ensures streams.Keys <= old(streams).Keys
      ensures forall ch | ch in old(Channels()) ::
        ch.items == if old(Target(e)) == Some(ch) && old(ch.HasRoom()) then old(ch.items) + [e] else old(ch.items)
      ensures e.typ == Response || e.typ == Error ==> forall ch | ch in old(Channels()) :: ch.items == old(ch.items)
      ensures
        || e.typ == Request || e.typ == Cancel
        || (e.typ == EnvelopeType.Event && e.capability.GetOr([]) !in eventSubs)
        ==>
        inbound.items == old(inbound.items)
          + if old(inbound.listening) && |old(inbound.items)| < 256 then [e] else []
      ensures forall t | t in eventSubs && e.typ == EnvelopeType.Event && t == e.capability.GetOr([]) ::
        eventSubs[t].items == old(eventSubs[t].items)
          + if old(eventSubs[t].listening) && |old(eventSubs[t].items)| < 64 then [e] else []
    {
      hide Arrive;
      match e.typ {
        case Response => Resolve(e);
        case Error => Resolve(e);
        case StreamChunk => RouteChunk(e);
        case Event => Offer(e);
        case Request => Offer(e);
        case Cancel => Offer(e);
      }
    }

    /** An event goes to its topic's subscriber, if there is one; otherwise, as every request, to the serving side. */
    method Offer(e: Envelope)
      requires Valid() && (e.typ.Event? || e.typ.Request? || e.typ.Cancel?)
      modifies eventSubs.Values, inbound
      ensures forall c | c in streams :: View(c, streams[c]) == old(View(c, streams[c]))
      ensures forall ch | ch in Channels() ::
        ch.items == if old(Target(e)) == Some(ch) && old(ch.HasRoom()) then old(ch.items) + [e] else old(ch.items)
    {
      var sink := inbound;
      if e.typ.Event? {
        var topic := e.capability.GetOr([]);
        if topic in eventSubs {
          sink := eventSubs[topic];
        }
      }
      assert Target(e) == Some(sink);
      var _ := sink.TrySend(e);
    }

    method Resolve(e: Envelope)
      requires Valid() && IsReply(e)
      modifies this`pending, pending.Values
      ensures Valid()
      ensures pending == old(pending) - {e.correlation}
      ensures forall c | c in old(pending) ::
        old(pending)[c].reply ==
          if c == e.correlation && old(pending[c].listening) then Some(e) else old(pending[c].reply)
    {
      if e.correlation in pending {
        var w := pending[e.correlation];
        pending := pending - {e.correlation};
        if w.listening {
          w.reply := Some(e);
        }
      }
    }

    method RouteChunk(e: Envelope)
      requires Valid() && e.typ.StreamChunk?
      modifies this`streams, streams.Values
      ensures Valid()
      ensures forall c | c in old(streams) ::
        View(c, old(streams)[c]) ==
          if c == e.correlation then Arrive(old(View(c, streams[c])), e) else old(View(c, streams[c]))
      ensures streams.Keys <= old(streams).Keys
      ensures forall ch | ch in old(streams).Values ::
        ch.items == if old(Target(e)) == Some(ch) && old(ch.HasRoom()) then old(ch.items) + [e] else old(ch.items)
    {
      var corr := e.correlation;
      if corr in streams {
        var sent := streams[corr].TrySend(e);
        if !sent {
          streams := streams - {corr};
          return;
        }
      }
      if e.streamEnd {
        streams := streams - {corr};
      }
    }
  }

  // ----- Runs with many streams -----

  /** One stream and its history: the chunks that arrived for it and those its consumer has taken. */
  datatype Stream = Stream(view: StreamView, arrived: seq<Envelope>, taken: seq<Envelope>, refused: bool)

  /** Streams by correlation. Correlations are fresh: none is opened twice. */
  type Streams = map<ByteString, Stream>

  datatype Action =
    | Open(c: ByteString)       // `call_stream` registers a new stream
    | Chunk(e: Envelope)        // the reader routes a chunk
    | Take(c: ByteString)       // the consumer takes the next chunk
    | Drop(c: ByteString)       // the consumer drops the receiver

  function Step(s: Streams, a: Action): Streams {
    match a
    case Open(c) =>
      if c in s then s else s[c := Stream(StreamView([], true, true), [], [], false)]
    case Chunk(e) =>
      if e.correlation !in s then s else
      var st := s[e.correlation];
      s[e.correlation := st.(
        view := Arrive(st.view, e), arrived := st.arrived + [e],
        refused := st.refused || (st.view.registered && (!st.view.listening || |st.view.items| >= STREAM_CAPACITY)))]
    case Take(c) =>
      if c !in s || s[c].view.items == [] || !s[c].view.listening then s else
      var st := s[c];
      s[c := st.(view := st.view.(items := st.view.items[1..]), taken := st.taken + [st.view.items[0]])]
    case Drop(c) =>
      if c !in s then s else s[c := s[c].(view := s[c].view.(listening := false))]
  }

  function Run(s: Streams, actions: seq<Action>): Streams
    decreases |actions|
  {
    if actions == [] then s else Run(Step(s, actions[0]), actions[1..])
  }

  predicate NoEnd(chunks: seq<Envelope>) {
    forall i | 0 <= i < |chunks| :: !chunks[i].streamEnd
  }

  /** The chunks up to and including the first end marker. */
  function CutAtEnd(chunks: seq<Envelope>): (r: seq<Envelope>)
    ensures r <= chunks
    ensures NoEnd(chunks) ==> r == chunks
  {
    if chunks == [] then []
    else if chunks[0].streamEnd then [chunks[0]]
    else [chunks[0]] + CutAtEnd(chunks[1..])
  }

  lemma NoEndCons(first: Envelope, rest: seq<Envelope>)
    ensures NoEnd([first] + rest) <==> !first.streamEnd && NoEnd(rest)
  {
    var all := [first] + rest;
    if NoEnd(all) {
      assert !all[0].streamEnd;
      forall i | 0 <= i < |rest| ensures !rest[i].streamEnd {
        assert !all[i + 1].streamEnd;
      }
    }
  }

  lemma {:induction false} CutSnoc(chunks: seq<Envelope>, e: Envelope)
    ensures CutAtEnd(chunks + [e]) == if NoEnd(chunks) then chunks + [e] else CutAtEnd(chunks)
    ensures NoEnd(chunks + [e]) <==> NoEnd(chunks) && !e.streamEnd
  {
    if chunks == [] {
      assert [e][1..] == [];
    } else {
      assert (chunks + [e])[1..] == chunks[1..] + [e];
      assert [chunks[0]] + chunks[1..] == chunks;
      assert [chunks[0]] + (chunks[1..] + [e]) == chunks + [e];
      NoEndCons(chunks[0], chunks[1..]);
      NoEndCons(chunks[0], chunks[1..] + [e]);
      CutSnoc(chunks[1..], e);
    }
  }

  /** Everything that got into the stream's queue. */
  function Delivered(st: Stream): seq<Envelope> {
    st.taken + st.view.items
  }

  ghost predicate StreamInv(st: Stream) {
    && Delivered(st) <= CutAtEnd(st.arrived)
    && (st.view.registered <==> !st.refused && NoEnd(st.arrived))
    && (st.refused <==> |Delivered(st)| < |CutAtEnd(st.arrived)|)
    && (st.refused ==> NoEnd(Delivered(st)))
  }

  lemma ArrivalKeepsInv(st: Stream, e: Envelope)
    requires StreamInv(st)
    ensures StreamInv(st.(
      view := Arrive(st.view, e), arrived := st.arrived + [e],
      refused := st.refused || (st.view.registered && (!st.view.listening || |st.view.items| >= STREAM_CAPACITY))))
  {
    hide NoEnd, CutAtEnd;
    CutSnoc(st.arrived, e);
    var taken, items := st.taken, st.view.items;
    if st.view.registered {
      assert Delivered(st) == st.arrived;
      assert taken + (items + [e]) == st.arrived + [e];
    }
  }

  lemma StepKeepsInv(s: Streams, a: Action)
    requires forall c | c in s :: StreamInv(s[c])
    ensures forall c | c in Step(s, a) :: StreamInv(Step(s, a)[c])
  {
    match a
    case Open(_) =>
    case Chunk(e) =>
      if e.correlation in s {
        ArrivalKeepsInv(s[e.correlation], e);
      }
    case Take(c) =>
      if c in s && s[c].view.items != [] {
        var items := s[c].view.items;
        assert s[c].taken + [items[0]] + items[1..] == s[c].taken + items;
      }
    case Drop(_) =>
  }

  lemma {:induction false} RunKeepsInv(s: Streams, actions: seq<Action>)
    requires forall c | c in s :: StreamInv(s[c])
    ensures forall c | c in Run(s, actions) :: StreamInv(Run(s, actions)[c])
    decreases |actions|
  {
    hide StreamInv, Step;
    if actions != [] {
      StepKeepsInv(s, actions[0]);
      RunKeepsInv(Step(s, actions[0]), actions[1..]);
    }
  }

  /** In every run, however slow the consumers: a receiver gets a gap-free prefix of its arrived chunks, cut at the
      first end marker. Chunks are missing exactly when one was refused; so seeing the end marker means that none
      is missing. */
  lemma ReceiverGetsGapFreePrefix(actions: seq<Action>, c: ByteString)
    requires c in Run(map[], actions)
    ensures
      var st := Run(map[], actions)[c];
      && st.taken <= CutAtEnd(st.arrived)
      && (Delivered(st) == CutAtEnd(st.arrived) <==> !st.refused)
      && (!NoEnd(st.taken) ==> st.taken == CutAtEnd(st.arrived) && !NoEnd(st.arrived))
  {
    RunKeepsInv(map[], actions);
    var st := Run(map[], actions)[c];
    assert StreamInv(st);
    if !NoEnd(st.taken) {
      var i :| 0 <= i < |st.taken| && st.taken[i].streamEnd;
      assert Delivered(st)[i] == st.taken[i];
      EndIsLast(st.arrived, i);
    }
  }

  /** An end marker within the cut is its last element. */
  lemma {:induction false} EndIsLast(chunks: seq<Envelope>, i: nat)
    requires i < |CutAtEnd(chunks)| && CutAtEnd(chunks)[i].streamEnd
    ensures i == |CutAtEnd(chunks)| - 1
    ensures !NoEnd(chunks)
  {
    if !chunks[0].streamEnd {
      EndIsLast(chunks[1..], i - 1);
    }
  }

  // ----- When chunks go missing -----

  /** The chunks for correlation `c` among the actions, in order. */
  function Chunks(c: ByteString, actions: seq<Action>): (chunks: seq<Envelope>)
    decreases |actions|
  {
    if actions == [] then []
    else
      (if actions[0].Chunk? && actions[0].e.correlation == c then [actions[0].e] else [])
      + Chunks(c, actions[1..])
  }

  lemma {:induction false} ChunksArrive(s: Streams, c: ByteString, actions: seq<Action>)
    requires c in s
    ensures
      var t := Run(s, actions);
      && c in t && t[c].arrived == s[c].arrived + Chunks(c, actions)
      && (t[c].view.listening <==> s[c].view.listening && Drop(c) !in actions)
    decreases |actions|
  {
    hide Step;
    if actions != [] {
      ChunkArrives(s, c, actions[0]);
      ChunksArrive(Step(s, actions[0]), c, actions[1..]);
      assert Drop(c) in actions <==> actions[0] == Drop(c) || Drop(c) in actions[1..];
    }
  }

  lemma ChunkArrives(s: Streams, c: ByteString, a: Action)
    requires c in s
    ensures
      var t := Step(s, a);
      && c in t
      && t[c].arrived == s[c].arrived + (if a.Chunk? && a.e.correlation == c then [a.e] else [])
      && (t[c].view.listening <==> s[c].view.listening && a != Drop(c))
  {
    hide Arrive;
    ListeningStays(s[c].view);
  }

  lemma ListeningStays(view: StreamView)
    ensures forall e :: Arrive(view, e).listening == view.listening
  {
  }

  /** In every run a stream's chunks are those routed since it was opened, and its receiver listens until dropped. */
  lemma ChunksSinceOpening(before: seq<Action>, after: seq<Action>, c: ByteString)
    requires c !in Run(map[], before)
    ensures
      var t := Run(Run(map[], before), [Open(c)] + after);
      && c in t && t[c].arrived == Chunks(c, after)
      && (t[c].view.listening <==> Drop(c) !in after)
  {
    var s := Run(map[], before);
    assert ([Open(c)] + after)[1..] == after;
    ChunksArrive(Step(s, Open(c)), c, after);
  }

  /** Before any end marker, a chunk arrives for a consumer that is gone or 64 chunks behind. */
  ghost predicate TooSlow(st: Stream, c: ByteString, a: Action) {
    && a.Chunk? && a.e.correlation == c && NoEnd(st.arrived)
    && (!st.view.listening || |st.arrived| - |st.taken| >= 64)
  }

  /** This happens at action `k`. */
  ghost predicate FallsBehind(actions: seq<Action>, c: ByteString, k: nat)
    requires k < |actions|
  {
    c in Run(map[], actions[..k]) && TooSlow(Run(map[], actions[..k])[c], c, actions[k])
  }

  lemma {:induction false} RunSnoc(s: Streams, actions: seq<Action>, a: Action)
    ensures Run(s, actions + [a]) == Step(Run(s, actions), a)
    decreases |actions|
  {
    hide Step;
    if actions == [] {
      assert [a][1..] == [];
    } else {
      assert (actions + [a])[1..] == actions[1..] + [a];
      RunSnoc(Step(s, actions[0]), actions[1..], a);
    }
  }

  lemma RefusedAt(s: Streams, c: ByteString, a: Action)
    requires c in s && StreamInv(s[c])
    ensures c in Step(s, a) && (Step(s, a)[c].refused <==> s[c].refused || TooSlow(s[c], c, a))
  {
    hide CutAtEnd;
    CutAll(s[c].arrived);
  }

  lemma CutAll(chunks: seq<Envelope>)
    ensures CutAtEnd(chunks) <= chunks && (NoEnd(chunks) ==> CutAtEnd(chunks) == chunks)
  {
  }

  /** In every run a stream is given up exactly when its consumer falls behind. */
  lemma {:induction false} RefusedIffFellBehind(actions: seq<Action>, c: ByteString)
    ensures c in Run(map[], actions) && Run(map[], actions)[c].refused <==>
      exists k | 0 <= k < |actions| :: FallsBehind(actions, c, k)
    decreases |actions|
  {
    hide Step, Run, StreamInv, TooSlow;
    if actions == [] {
      NothingOpen();
    } else {
      var n := |actions| - 1;
      var before, a := actions[..n], actions[n];
      assert actions == before + [a];
      RunSnoc(map[], before, a);
      RefusedIffFellBehind(before, c);
      forall k | 0 <= k < n ensures FallsBehind(actions, c, k) <==> FallsBehind(before, c, k) {
        assert actions[..k] == before[..k];
      }
      RunsKeepInv(before);
      var s := Run(map[], before);
      assert FallsBehind(actions, c, n) <==> c in s && TooSlow(s[c], c, a) by { assert actions[..n] == before; }
      if k: nat :| k < n && FallsBehind(before, c, k) {
        assert FallsBehind(actions, c, k);
      }
      if c in s {
        RefusedAt(s, c, a);
      } else {
        JustOpened(s, c, a);
      }
    }
  }

  lemma NothingOpen()
    ensures Run(map[], []) == map[]
  {
  }

  lemma RunsKeepInv(actions: seq<Action>)
    ensures forall c | c in Run(map[], actions) :: StreamInv(Run(map[], actions)[c])
  {
    RunKeepsInv(map[], actions);
  }

  lemma JustOpened(s: Streams, c: ByteString, a: Action)
    requires c !in s
    ensures c in Step(s, a) ==> !Step(s, a)[c].refused
  {
  }
}
