/** Whole runs of the SDK's connection, told by their events: what the serving side gets, how each call ends, and
    what each stream gets. */
module ConnRuns {
  import opened Wrappers
  import opened Bytes
  import opened Envelopes
  import opened PyConn

  // ----- What arrived -----

  /** The frames that the reader got before the connection closed. */
  function Arrivals(events: seq<Event>): (frames: seq<Envelope>)
    decreases |events|
  {
    if events == [] || events[0].Teardown? then []
    else (if events[0].Arrive? then [events[0].e] else []) + Arrivals(events[1..])
  }

  function Requests(frames: seq<Envelope>): (r: seq<Envelope>)
    decreases |frames|
  {
    if frames == [] then []
    else (if frames[0].typ == Request then [frames[0]] else []) + Requests(frames[1..])
  }

  lemma {:induction false} RunArrives(s: State, events: seq<Event>)
    ensures
      var t := Run(s, events);
      && (t.closed <==> s.closed || Teardown in events)
      && t.arrived == s.arrived + (if s.closed then [] else Arrivals(events))
    decreases |events|
  {
    hide Step, Arrivals;
    if events == [] {
      NoArrivals();
    } else {
      var ev, rest := events[0], events[1..];
      assert events == [ev] + rest;
      StepArrives(s, ev);
      RunArrives(Step(s, ev), rest);
      ArrivalsCons(ev, rest);
    }
  }

  lemma NoArrivals()
    ensures Arrivals([]) == []
  {
  }

  lemma ArrivalsCons(ev: Event, rest: seq<Event>)
    ensures Teardown in [ev] + rest <==> ev == Teardown || Teardown in rest
    ensures Arrivals([ev] + rest) ==
      if ev == Teardown then [] else (if ev.Arrive? then [ev.e] else []) + Arrivals(rest)
  {
    assert ([ev] + rest)[1..] == rest;
  }

  lemma StepArrives(s: State, ev: Event)
    ensures
      var t := Step(s, ev);
      && (t.closed <==> s.closed || ev == Teardown)
      && t.arrived == s.arrived + (if !s.closed && ev.Arrive? then [ev.e] else [])
  {
  }

  /** The queue of the serving side for these events on an open connection. */
  function ForServer(events: seq<Event>): seq<Item> {
    Somes(Requests(Arrivals(events))) + Marker(Teardown in events)
  }

  lemma StepServes(s: State, ev: Event)
    ensures Step(s, ev).inbound == s.inbound + if s.closed then [] else ForServer([ev])
  {
    OneForServer(ev);
  }

  lemma OneForServer(ev: Event)
    ensures Arrivals([ev]) == if ev.Arrive? then [ev.e] else []
    ensures ForServer([ev]) ==
      if ev == Teardown then [None] else if ev.Arrive? && ev.e.typ == Request then [Some(ev.e)] else []
  {
    assert [ev][1..] == [];
    assert Teardown in [ev] <==> ev == Teardown;
    if ev.Arrive? {
      assert [ev.e] + [] == [ev.e];
      assert Arrivals([ev]) == [ev.e];
      assert Requests([ev.e]) == if ev.e.typ == Request then [ev.e] else [] by { assert [ev.e][1..] == []; }
      assert Somes([ev.e]) == [Some(ev.e)];
      assert ForServer([ev]) == Somes(Requests([ev.e]));
    }
  }

  lemma {:induction false} RunServes(s: State, events: seq<Event>)
    ensures Run(s, events).inbound == s.inbound + if s.closed then [] else ForServer(events)
    decreases |events|
  {
    hide Step, ForServer;
    if events != [] {
      var ev, rest := events[0], events[1..];
      StepArrives(s, ev);
      StepServes(s, ev);
      RunServes(Step(s, ev), rest);
      ForServerCons(ev, rest);
      assert events == [ev] + rest;
    } else {
      NothingForServer();
    }
  }

  lemma NothingForServer()
    ensures ForServer([]) == []
  {
  }

  lemma ForServerCons(ev: Event, rest: seq<Event>)
    ensures ForServer([ev] + rest) == ForServer([ev]) + if ev == Teardown then [] else ForServer(rest)
  {
    hide Requests, Somes;
    OneForServer(ev);
    var all := [ev] + rest;
    assert all[1..] == rest;
    assert Teardown in all <==> ev == Teardown || Teardown in rest;
    if ev == Teardown {
      assert Arrivals(all) == Arrivals([ev]);
    } else if ev.Arrive? {
      assert Arrivals(all) == [ev.e] + Arrivals(rest);
      RequestsCons(ev.e, Arrivals(rest));
      assert ForServer(all) == ForServer([ev]) + ForServer(rest);
    } else {
      assert Arrivals(all) == Arrivals(rest);
      assert ForServer(all) == ForServer([ev]) + ForServer(rest);
    }
  }

  lemma RequestsCons(e: Envelope, later: seq<Envelope>)
    ensures Somes(Requests([e] + later)) ==
      (if e.typ == Request then [Some(e)] else []) + Somes(Requests(later))
  {
    assert ([e] + later)[1..] == later;
  }

  /** In every run the frames that arrived are those before the first teardown, and the serving side gets exactly the
      requests among them, each once and in order, followed by one end marker once the connection closed. */
  lemma RequestsReachTheServer(events: seq<Event>)
    ensures
      var s := Run(START, events);
      && s.arrived == Arrivals(events)
      && (s.closed <==> Teardown in events)
      && s.inbound == Somes(Requests(s.arrived)) + (if s.closed then [None] else [])
  {
    RunArrives(START, events);
    RunServes(START, events);
  }

  // ----- How a call ends -----

  /** What decides the future of call `c`: the first answer with its correlation, the end of the connection, the
      timeout, or the failure of its send, whichever comes first. */
  function Decided(c: ByteString, events: seq<Event>): FutureState
    decreases |events|
  {
    if events == [] then Waiting else
    match events[0]
    case Arrive(e) =>
      if e.correlation == c && e.typ in {Response, EnvelopeType.Event, Error, Cancel} then Replied(e)
      else Decided(c, events[1..])
    case Teardown => ConnectionClosed
    case Timeout(d) => if d == c then Cancelled else Decided(c, events[1..])
    case SendFails(d) => if d == c then Cancelled else Decided(c, events[1..])
    case _ => Decided(c, events[1..])
  }

  /** The outcome that call `c` has reached: the failed send is raised, and otherwise the call ends when it resumes
      with its future decided. */
  function EndOf(c: ByteString, before: seq<Event>, events: seq<Event>): Option<Outcome>
    decreases |events|
  {
    if events == [] then None
    else if events[0] == SendFails(c) then Some(SendError)
    else if events[0] == Finish(c) && Decided(c, before) != Waiting then
      match Decided(c, before)
      case Replied(e) => Some(Reply(e))
      case ConnectionClosed => Some(ClosedError)
      case _ => Some(TimeoutError)
    else EndOf(c, before + [events[0]], events[1..])
  }

  lemma {:induction false} DecidedSnoc(c: ByteString, before: seq<Event>, ev: Event)
    ensures
      Decided(c, before + [ev]) == if Decided(c, before) == Waiting then Decided(c, [ev]) else Decided(c, before)
    decreases |before|
  {
    if before != [] {
      assert (before + [ev])[1..] == before[1..] + [ev];
      DecidedSnoc(c, before[1..], ev);
    } else {
      assert before + [ev] == [ev];
    }
  }

  /** The state knows of call `c` what the events since its start say. */
  ghost predicate Knows(s: State, c: ByteString, since: seq<Event>) {
    && CallsInv(s)
    && c in s.futures && s.futures[c] == Decided(c, since)
    && (s.closed ==> Decided(c, since) != Waiting)
  }

  lemma StepKnows(s: State, c: ByteString, since: seq<Event>, ev: Event)
    requires Knows(s, c, since)
    ensures Knows(Step(s, ev), c, since + [ev])
  {
    hide CallsInv;
    StepKeepsCalls(s, ev);
    DecidedSnoc(c, since, ev);
    WaitingIsPending(s, c);
    assert Decided(c, [ev]) == Waiting || [ev][1..] == [];
  }

  lemma WaitingIsPending(s: State, c: ByteString)
    requires CallsInv(s) && c in s.futures
    ensures s.futures[c].Waiting? ==> c in s.pending && !s.closed && c !in s.outcomes
    ensures c !in s.streams
  {
  }

  lemma StepEnds(s: State, c: ByteString, since: seq<Event>, ev: Event)
    requires Knows(s, c, since) && c !in s.outcomes
    ensures
      var t := Step(s, ev);
      && (c in t.outcomes <==> ev == SendFails(c) || (ev == Finish(c) && Decided(c, since) != Waiting))
      && (c in t.outcomes ==> EndOf(c, since, [ev]) == Some(t.outcomes[c]))
  {
    hide CallsInv, Route, Close;
    OtherFieldsOnly(s, ev);
  }

  lemma OtherFieldsOnly(s: State, ev: Event)
    ensures ev.Arrive? || ev.Teardown? ==> Step(s, ev).outcomes == s.outcomes
  {
  }

  lemma {:induction false} RunEnds(s: State, c: ByteString, since: seq<Event>, events: seq<Event>)
    requires Knows(s, c, since) && c !in s.outcomes
    ensures
      var t := Run(s, events);
      && t.futures.Keys >= {c} && t.futures[c] == Decided(c, since + events)
      && (c in t.outcomes <==> EndOf(c, since, events).Some?)
      && (c in t.outcomes ==> t.outcomes[c] == EndOf(c, since, events).value)
    decreases |events|
  {
    hide CallsInv, Step, Decided;
    if events == [] {
      assert since + events == since;
    } else {
      var ev, rest := events[0], events[1..];
      assert since + events == since + [ev] + rest;
      StepKnows(s, c, since, ev);
      StepEnds(s, c, since, ev);
      if c in Step(s, ev).outcomes {
        RunKnows(Step(s, ev), c, since + [ev], rest);
        assert EndOf(c, since, events) == EndOf(c, since, [ev]);
      } else {
        RunEnds(Step(s, ev), c, since + [ev], rest);
      }
    }
  }

  lemma {:induction false} RunKnows(s: State, c: ByteString, since: seq<Event>, events: seq<Event>)
    requires Knows(s, c, since)
    ensures Knows(Run(s, events), c, since + events)
    ensures Settled(s, Run(s, events))
    decreases |events|
  {
    hide CallsInv, Step, Settled;
    RunKeepsCalls(s, events);
    if events == [] {
      assert since + events == since;
    } else {
      StepKnows(s, c, since, events[0]);
      RunKnows(Step(s, events[0]), c, since + [events[0]], events[1..]);
      assert since + events == since + [events[0]] + events[1..];
    }
  }

  /** In every run, a call is decided and ends as its own events alone say, whatever other calls and streams do
      beside it. */
  lemma CallsDoNotDisturbEachOther(before: seq<Event>, after: seq<Event>, c: ByteString)
    requires !Run(START, before).closed && !Used(Run(START, before), c)
    ensures
      var t := Run(Run(START, before), [CallStarts(c)] + after);
      && c in t.futures && t.futures[c] == Decided(c, after)
      && (c in t.outcomes <==> EndOf(c, [], after).Some?)
      && (c in t.outcomes ==> t.outcomes[c] == EndOf(c, [], after).value)
  {
    var s := Run(START, before);
    RunKeepsCalls(START, before);
    var t := Step(s, CallStarts(c));
    StartKeepsCalls(s, c);
    assert ([CallStarts(c)] + after)[1..] == after;
    assert [] + after == after;
    RunEnds(t, c, [], after);
  }

  /** On a closed connection a call fails at once. */
  lemma ClosedFailsAtOnce(s: State, c: ByteString)
    requires s.closed && !Used(s, c)
    ensures Step(s, CallStarts(c)) == s.(outcomes := s.outcomes[c := ClosedError])
    ensures Step(s, StreamStarts(c)) == s
  {
  }

  // ----- What a stream gets -----

  /** When a registered stream's consumer leaves: it gives up, or takes the end marker, an error, a response or the
      chunk that says it is the last. */
  lemma WhenConsumersLeave(s: State, ev: Event, c: ByteString)
    requires CallsInv(s) && c in s.registered
    ensures c !in Step(s, ev).registered <==>
      || ev == StopStream(c)
      || (ev == Next(c) && s.streams[c].items != [] && EndsStream(s.streams[c].items[0]))
  {
    hide Failed, Ended, Put;
    RouteKeepsRegistered(s);
  }

  predicate EndsStream(item: Item) {
    match item
    case None => true
    case Some(e) => e.typ == Error || e.typ == Response || (e.typ == StreamChunk && e.streamEnd)
  }

  lemma RouteKeepsRegistered(s: State)
    ensures forall e :: Route(s, e).registered == s.registered
    ensures Close(s).registered == s.registered
  {
  }

  /** The consumer's items leave its queue one by one from the front, and nothing else takes from a queue. */
  lemma ConsumerTakesFront(s: State, ev: Event, c: ByteString)
    requires CallsInv(s) && c in s.streams
    ensures
      var st, t := s.streams[c], Step(s, ev).streams[c];
      && t.from == st.from
      && (if ev == Next(c) && c in s.registered && st.items != [] then
            && t.items == st.items[1..]
            && t.given == st.given + (if st.items[0].Some? then [st.items[0].value] else [])
          else st.items <= t.items && t.given == st.given)
  {
    hide Failed;
    RoutedStream(s, c);
  }

  lemma RoutedStream(s: State, c: ByteString)
    requires c in s.streams
    ensures forall e ::
      && c in Route(s, e).streams && Route(s, e).streams[c].given == s.streams[c].given
      && Route(s, e).streams[c].from == s.streams[c].from && s.streams[c].items <= Route(s, e).streams[c].items
    ensures
      && c in Close(s).streams && Close(s).streams[c].given == s.streams[c].given
      && Close(s).streams[c].from == s.streams[c].from && s.streams[c].items <= Close(s).streams[c].items
  {
  }

  lemma {:induction false} StartStays(s: State, c: ByteString, events: seq<Event>)
    requires CallsInv(s) && c in s.streams
    ensures c in Run(s, events).streams && Run(s, events).streams[c].from == s.streams[c].from
    decreases |events|
  {
    hide CallsInv, Step;
    if events != [] {
      StepKeepsCalls(s, events[0]);
      StreamStays(s, events[0], c);
      StartStays(Step(s, events[0]), c, events[1..]);
    }
  }

  lemma StreamStays(s: State, ev: Event, c: ByteString)
    requires CallsInv(s) && c in s.streams
    ensures c in Step(s, ev).streams && Step(s, ev).streams[c].from == s.streams[c].from
  {
    hide Failed;
    RoutedStream(s, c);
  }

  /** In every run, a stream started on an open connection is given a prefix of the frames that arrived for it since,
      in order; and while its consumer stays, what it was given and what is queued are exactly these frames, and the
      end marker once the connection closed. */
  lemma StreamGetsWhatArrivesSince(before: seq<Event>, after: seq<Event>, c: ByteString)
    requires !Run(START, before).closed && !Used(Run(START, before), c)
    ensures
      var t := Run(Run(START, before), [StreamStarts(c)] + after);
      var frames := FramesFor(c, Arrivals(after));
      && c in t.streams && t.streams[c].given <= frames
      && (c in t.registered ==>
            Somes(t.streams[c].given) + t.streams[c].items
              == Somes(frames) + (if Teardown in after then [None] else []))
  {
    hide FramesFor, Somes, CallsInv, Step;
    var s := Run(START, before);
    StreamsInEveryRun(before);
    var t := Step(s, StreamStarts(c));
    StreamStarted(s, c);
    assert ([StreamStarts(c)] + after)[1..] == after;
    RunArrives(t, after);
    StepKeepsStreams(s, StreamStarts(c));
    StartStays(t, c, after);
    RunKeepsStreams(t, after);
    var u := Run(t, after);
    assert StreamInv(u, c);
    assert (s.arrived + Arrivals(after))[|s.arrived|..] == Arrivals(after);
  }

  lemma StreamStarted(s: State, c: ByteString)
    requires !s.closed && !Used(s, c)
    ensures
      var t := Step(s, StreamStarts(c));
      && !t.closed && t.arrived == s.arrived && c in t.registered
      && c in t.streams && t.streams[c] == Stream(|s.arrived|, [], [])
  {
  }

  /** Only the last frame a consumer is given can be an error, a response or a last chunk. */
  ghost predicate LastOnly(s: State, c: ByteString)
    requires c in s.streams
  {
    var given := s.streams[c].given;
    && (forall i | 0 <= i < |given| - 1 :: !EndsStream(Some(given[i])))
    && (c in s.registered && given != [] ==> !EndsStream(Some(given[|given| - 1])))
  }

  lemma StepKeepsLast(s: State, ev: Event, c: ByteString)
    requires CallsInv(s) && c in Step(s, ev).streams && (c in s.streams ==> LastOnly(s, c))
    ensures LastOnly(Step(s, ev), c)
  {
    hide CallsInv, Step;
    if c in s.streams {
      ConsumerTakesFront(s, ev, c);
      if c in s.registered {
        WhenConsumersLeave(s, ev, c);
      } else {
        NeverRegisteredAgain(s, ev, c);
      }
    } else {
      NewStreamIsEmpty(s, ev, c);
    }
  }

  lemma NeverRegisteredAgain(s: State, ev: Event, c: ByteString)
    requires c in s.streams && c !in s.registered
    ensures c !in Step(s, ev).registered
  {
    hide Failed, Ended, Put;
    RouteKeepsRegistered(s);
  }

  lemma NewStreamIsEmpty(s: State, ev: Event, c: ByteString)
    requires c !in s.streams && c in Step(s, ev).streams
    ensures Step(s, ev).streams[c].given == []
  {
  }

  lemma {:induction false} RunKeepsLast(s: State, events: seq<Event>)
    requires CallsInv(s) && forall c | c in s.streams :: LastOnly(s, c)
    ensures forall c | c in Run(s, events).streams :: LastOnly(Run(s, events), c)
    decreases |events|
  {
    hide CallsInv, LastOnly, Step;
    if events != [] {
      StepKeepsCalls(s, events[0]);
      forall c | c in Step(s, events[0]).streams ensures LastOnly(Step(s, events[0]), c) {
        StepKeepsLast(s, events[0], c);
      }
      RunKeepsLast(Step(s, events[0]), events[1..]);
    }
  }

  /** In every run nothing is given behind an error, a response or a last chunk, and who was given one has left. */
  lemma NothingBehindTheLastFrame(events: seq<Event>, c: ByteString, i: nat)
    requires c in Run(START, events).streams && i < |Run(START, events).streams[c].given|
    ensures
      var s := Run(START, events);
      var e := s.streams[c].given[i];
      e.typ == Error || e.typ == Response || (e.typ == StreamChunk && e.streamEnd) ==>
        i == |s.streams[c].given| - 1 && c !in s.registered
  {
    RunKeepsLast(START, events);
    assert LastOnly(Run(START, events), c);
  }
}
