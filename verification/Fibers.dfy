/** A fiber's handler and its callers: which requests are admitted, what a streamed capability sends, and what the
    caller gathers from it. */
module Fibers {
  import opened Wrappers
  import opened Bytes
  import opened Cbor
  import opened CborTheory
  import opened CborReencoding
  import opened Fields
  import opened Identity
  import opened Grants
  import opened Envelopes
  import PyConn
  import AcceptedGrants
  import PyGrants
  import StreamDemux
  import Tracing

  // ----- Admission -----

  datatype Capability = Capability(cost: nat, requireGrant: bool)

  /** What the fiber knows about itself. */
  datatype Self = Self(
    caps: map<Label, Capability>,
    requireGrant: bool,
    rootPub: Blob,
    endorsements: seq<KeyEndorsement>,
    revoked: set<Blob>)

  /** A request from the peer whose working key the handshake proved. */
  datatype Incoming = Incoming(capability: Label, ctx: Tracing.Context, auth: Option<Grant>, peerKey: Blob)

  datatype Refusal = NotFound | Gated(reason: Tracing.Refusal) | Unauthorized

  function GrantRequest(self: Self, q: Incoming, now: U64): Grants.Request {
    Grants.Request.Request(self.rootPub, self.endorsements, q.peerKey, q.capability, now, self.revoked)
  }

  /** The gates of a handler in order; an admitted call gets the grant that was verified, if one was needed. */
  method Admit(c: Crypto, self: Self, q: Incoming, now: U64) returns (r: Result<Option<Grant>, Refusal>)
    ensures r.Ok? <==>
      && q.capability in self.caps
      && Tracing.Gate(q.ctx, now, self.caps[q.capability].cost).None?
      && (self.caps[q.capability].requireGrant || self.requireGrant ==>
            q.auth.Some? && PyGrants.Accepts(c, q.auth.value, GrantRequest(self, q, now)))
    ensures r.Ok? ==>
      r.value == if self.caps[q.capability].requireGrant || self.requireGrant then q.auth else None
    ensures r == Err(NotFound) <==> q.capability !in self.caps
    ensures forall why ::
      r == Err(Gated(why)) <==>
        q.capability in self.caps && Tracing.Gate(q.ctx, now, self.caps[q.capability].cost) == Some(why)
  {
    hide PyGrants.Accepts;
    if q.capability !in self.caps {
      return Err(NotFound);
    }
    var entry := self.caps[q.capability];
    if q.ctx.deadline.Some? && now > q.ctx.deadline.value {
      return Err(Gated(Tracing.DeadlineExceeded));
    }
    if q.ctx.budget.Some? && q.ctx.budget.value <= 0 {
      return Err(Gated(Tracing.BudgetExhausted));
    }
    if entry.cost != 0 && q.ctx.budget.Some? && q.ctx.budget.value < entry.cost {
      return Err(Gated(Tracing.QuotaExceeded));
    }
    var verified := None;
    if entry.requireGrant || self.requireGrant {
      if q.auth.None? {
        return Err(Unauthorized);
      }
      var ok := PyGrants.Verify(c, q.auth.value, GrantRequest(self, q, now));
      if !ok {
        return Err(Unauthorized);
      }
      verified := q.auth;
    }
    return Ok(verified);
  }

  /** A grant opens the gate exactly when an endorsed key of this fiber issued it, its holders only narrowed it, none of
      its keys is revoked here, and its last link names the caller's key, allows the capability and has not run out. */
  lemma AdmittedIffDelegated(c: Crypto, self: Self, q: Incoming, now: U64, g: Grant)
    ensures PyGrants.Accepts(c, g, GrantRequest(self, q, now)) <==>
      && g.links != [] && Made(c, g)
      && |self.rootPub| == 32 && c.hash(self.rootPub) == g.target
      && (exists i | 0 <= i < |self.endorsements| ::
            var e := self.endorsements[i];
            && e.workingPub == g.links[0].issuer
            && (forall j | 0 <= j < i :: self.endorsements[j].workingPub != g.links[0].issuer)
            && e.rootSig == c.sign(self.rootPub, EndorsementMessage(e))
            && e.notBefore <= now <= e.notAfter)
      && (forall k | 0 <= k < |g.links| ::
            g.links[k].issuer !in self.revoked && g.links[k].audience !in self.revoked)
      && var last := g.links[|g.links| - 1];
         && (WILDCARD in last.caveats.capabilities || q.capability in last.caveats.capabilities)
         && now <= last.caveats.notAfter
         && last.audience == q.peerKey
  {
    hide PyGrants.Accepts, Made, Permitted, Verdict, EndorsementMessage, VerifyWorkingKey;
    var req := GrantRequest(self, q, now);
    PyGrants.OneVerdict(c, g, req);
    VerifyIsExact(c, g, req);
    AcceptedGrants.WildcardIs();
    if g.links != [] {
      AcceptedGrants.PermittedInFields(c, g, req);
    } else {
      EmptyGrantIsRefused(c, g, req);
    }
  }

  lemma EmptyGrantIsRefused(c: Crypto, g: Grant, req: Grants.Request)
    requires g.links == []
    ensures Verdict(c, g, req).Err?
  {
  }

  // ----- Payloads -----

  /** The body of a message: nothing for a missing value, bytes as they are, the encoding of anything else. */
  function Payload(v: Value): ByteString
    requires v.Bytes? || Encodable(v)
  {
    if v == Null then [] else if v.Bytes? then v.bytes else Enc(v)
  }

  /** Reading a body: what does not decode is taken as bytes. */
  function FromPayload(b: ByteString): Value {
    if b == [] then Null else
    var v := Decode(b);
    if v.Ok? then v.value else Bytes(b)
  }

  /** A value survives the way through a body exactly when it is not a byte string that reads as something else:
      an empty one reads as a missing value, and one that happens to decode reads as what it decodes to. */
  lemma PayloadRoundTripIff(v: Value)
    requires Wire(v)
    ensures FromPayload(Payload(v)) == v <==> (v.Bytes? ==> v.bytes != [] && Decode(v.bytes).Err?)
    ensures v.Bytes? && v.bytes == [] ==> FromPayload(Payload(v)) == Null
    ensures v.Bytes? && v.bytes != [] && Decode(v.bytes).Ok? ==> FromPayload(Payload(v)) == Decode(v.bytes).value
  {
    hide Decode;
    if v.Bytes? {
      if v.bytes != [] && Decode(v.bytes).Ok? {
        AcceptedReencodes(v.bytes);
      }
    } else if v != Null {
      DecodeUndoesEncode(v);
    }
  }

  predicate Survives(v: Value) {
    v.Bytes? ==> v.bytes != [] && Decode(v.bytes).Err?
  }

  predicate Sendable(values: seq<Value>) {
    forall v | v in values :: v.Bytes? || Encodable(v)
  }

  /** Values that a body carries unchanged. */
  ghost predicate Faithful(values: seq<Value>) {
    Sendable(values) && forall v | v in values :: Wire(v) && Survives(v)
  }

  // ----- Streaming out -----

  datatype Chunk = Chunk(number: nat, last: bool, body: ByteString)

  function Chunks(values: seq<Value>): (r: seq<Chunk>)
    requires Sendable(values)
    ensures |r| == |values| && forall i | 0 <= i < |r| :: r[i] == Chunk(i, false, Payload(values[i]))
  {
    seq(|values|, i requires 0 <= i < |values| => Chunk(i, false, Payload(values[i])))
  }

  /** What goes out for a stream of `values`, with its end marker or without. */
  function StreamOf(values: seq<Value>, ended: bool): seq<Chunk>
    requires Sendable(values)
  {
    Chunks(values) + if ended then [Chunk(|values|, true, [])] else []
  }

  /** Send what the generator yields. It yields `values`, then finishes (`finishes`) or raises; the connection may close
      once `closesAfter` chunks are out. A value that cannot be encoded raises too. No exception gets out of here:
      the stream just stops without its end marker. `n` values were sent. */
  method Pump(values: seq<Value>, finishes: bool, closesAfter: Option<nat>)
    returns (sent: seq<Chunk>, n: nat, ended: bool)
    ensures n <= |values| && Sendable(values[..n])
    ensures sent == StreamOf(values[..n], ended)
    ensures n < |values| ==> closesAfter == Some(n) || !(values[n].Bytes? || Encodable(values[n]))
    ensures ended <==> n == |values| && finishes && closesAfter != Some(n)
  {
    sent, n, ended := [], 0, false;
    while n < |values|
      invariant n <= |values| && Sendable(values[..n])
      invariant sent == Chunks(values[..n])
    {
      if closesAfter == Some(n) || !(values[n].Bytes? || Encodable(values[n])) {
        return;
      }
      assert values[..n + 1] == values[..n] + [values[n]];
      sent, n := sent + [Chunk(n, false, Payload(values[n]))], n + 1;
    }
    if finishes && closesAfter != Some(n) {
      sent, ended := sent + [Chunk(n, true, [])], true;
    }
  }

  // ----- Gathering -----

  function Frames(c: ByteString, chunks: seq<Chunk>): (r: seq<Envelope>)
    ensures |r| == |chunks|
    ensures forall i | 0 <= i < |r| :: r[i] == Envelope(StreamChunk, c, None, chunks[i].last, chunks[i].body)
  {
    seq(|chunks|, i requires 0 <= i < |chunks| => Envelope(StreamChunk, c, None, chunks[i].last, chunks[i].body))
  }

  /** The values of the bodies that are not empty. */
  function Gathered(frames: seq<Envelope>): seq<Value> {
    if frames == [] then [] else
    var e := frames[|frames| - 1];
    Gathered(frames[..|frames| - 1]) + if e.body != [] then [FromPayload(e.body)] else []
  }

  function Joined(texts: seq<Value>): Utf8Text
    requires forall v | v in texts :: v.Text?
  {
    if texts == [] then [] else Joined(texts[..|texts| - 1]) + texts[|texts| - 1].utf8
  }

  /** The caller's loop over the frames a stream gave it; chunks that are all text are joined. */
  method Gather(frames: seq<Envelope>) returns (r: Value)
    ensures
      var chunks := Gathered(frames);
      r == if chunks != [] && forall v | v in chunks :: v.Text? then Text(Joined(chunks)) else Array(chunks)
  {
    hide Gathered, Joined;
    var chunks := Collect(frames);
    if chunks == [] || exists i | 0 <= i < |chunks| :: !chunks[i].Text? {
      return Array(chunks);
    }
    var text := Join(chunks);
    return Text(text);
  }

  method Collect(frames: seq<Envelope>) returns (chunks: seq<Value>)
    ensures chunks == Gathered(frames)
  {
    hide FromPayload;
    chunks := [];
    for i := 0 to |frames|
      invariant chunks == Gathered(frames[..i])
    {
      assert frames[..i + 1][..i] == frames[..i];
      if frames[i].body != [] {
        chunks := chunks + [FromPayload(frames[i].body)];
      }
    }
    assert frames[..|frames|] == frames;
  }

  method Join(texts: seq<Value>) returns (text: Utf8Text)
    requires forall v | v in texts :: v.Text?
    ensures text == Joined(texts)
  {
    text := [];
    for i := 0 to |texts|
      invariant text == Joined(texts[..i])
    {
      assert texts[..i + 1][..i] == texts[..i];
      text := text + texts[i].utf8;
    }
    assert texts[..|texts|] == texts;
  }

  /** The bytes of the texts. */
  function TextBytes(texts: seq<Value>): (r: seq<ByteString>)
    requires forall v | v in texts :: v.Text?
    ensures |r| == |texts| && forall i | 0 <= i < |r| :: r[i] == texts[i].utf8
  {
    seq(|texts|, i requires 0 <= i < |texts| => texts[i].utf8)
  }

  lemma {:induction false} JoinedInOrder(texts: seq<Value>)
    requires forall v | v in texts :: v.Text?
    ensures Joined(texts) == Flatten(TextBytes(texts))
  {
    if texts != [] {
      var n := |texts| - 1;
      JoinedInOrder(texts[..n]);
      assert TextBytes(texts) == TextBytes(texts[..n]) + [texts[n].utf8];
      FlattenSnoc(TextBytes(texts[..n]), texts[n].utf8);
    }
  }

  function Present(values: seq<Value>): seq<Value> {
    if values == [] then [] else
    Present(values[..|values| - 1]) + if values[|values| - 1] != Null then [values[|values| - 1]] else []
  }

  /** Gathering the first frames of a stream gives the first values, without the missing ones. */
  lemma {:induction false} GatheredIsPresent(c: ByteString, values: seq<Value>, ended: bool, k: nat)
    requires Faithful(values)
    requires k <= |StreamOf(values, ended)|
    ensures Gathered(Frames(c, StreamOf(values, ended))[..k]) == Present(values[..if k < |values| then k else |values|])
  {
    hide Enc, Decode, Wire, Payload, FromPayload;
    if k > 0 {
      GatheredIsPresent(c, values, ended, k - 1);
      var frames := Frames(c, StreamOf(values, ended));
      assert frames[..k][..k - 1] == frames[..k - 1];
      if k <= |values| {
        var v := values[k - 1];
        BodyOf(v);
        assert frames[k - 1].body == Payload(v);
        assert values[..k][..k - 1] == values[..k - 1];
      } else {
        assert frames[k - 1].body == [];
        assert values[..|values|] == values;
      }
    }
  }

  lemma BodyOf(v: Value)
    requires Wire(v) && Survives(v)
    ensures FromPayload(Payload(v)) == v && (Payload(v) == [] <==> v == Null)
  {
    hide Enc, Decode;
    PayloadRoundTripIff(v);
  }

  /** Frames received from the front of a stream that include an end marker are the whole stream, and it was ended. */
  lemma EndMeansWhole(c: ByteString, values: seq<Value>, ended: bool, got: seq<Envelope>)
    requires Sendable(values)
    requires got <= Frames(c, StreamOf(values, ended)) && !StreamDemux.NoEnd(got)
    ensures ended && got == Frames(c, StreamOf(values, ended))
  {
    hide Payload;
    var i :| 0 <= i < |got| && got[i].streamEnd;
    assert Frames(c, StreamOf(values, ended))[i].streamEnd;
  }

  /** From the generator to a core caller: whatever the queues did, a receiver that took an end marker has all the
      values the generator yielded, and the generator had finished. */
  lemma CoreReceiverHasAll(
    actions: seq<StreamDemux.Action>, c: ByteString, values: seq<Value>, ended: bool)
    requires c in StreamDemux.Run(map[], actions)
    requires Faithful(values)
    requires StreamDemux.Run(map[], actions)[c].arrived <= Frames(c, StreamOf(values, ended))
    ensures
      var taken := StreamDemux.Run(map[], actions)[c].taken;
      && Gathered(taken) <= Present(values)
      && (!StreamDemux.NoEnd(taken) ==> ended && Gathered(taken) == Present(values))
  {
    hide Wire, Survives, StreamDemux.Run, StreamOf, Gathered, Present;
    StreamDemux.ReceiverGetsGapFreePrefix(actions, c);
    ReceivedFromFront(c, values, ended, StreamDemux.Run(map[], actions)[c].taken);
  }

  /** The same for a caller of the SDK, whose stream also ends, short, when the connection closes: what it gathers
      is always a prefix of what was yielded, and all of it once an end marker came. */
  lemma SdkCallerHasAll(events: seq<PyConn.Event>, c: ByteString, values: seq<Value>, ended: bool)
    requires c in PyConn.Run(PyConn.START, events).streams
    requires Faithful(values)
    requires
      var s := PyConn.Run(PyConn.START, events);
      s.streams[c].from <= |s.arrived| &&
      PyConn.FramesFor(c, s.arrived[s.streams[c].from..]) <= Frames(c, StreamOf(values, ended))
    ensures
      var given := PyConn.Run(PyConn.START, events).streams[c].given;
      && Gathered(given) <= Present(values)
      && (!StreamDemux.NoEnd(given) ==> ended && Gathered(given) == Present(values))
  {
    hide Wire, Survives, PyConn.Run, PyConn.FramesFor, StreamOf, Gathered, Present;
    PyConn.StreamGetsItsFrames(events, c);
    ReceivedFromFront(c, values, ended, PyConn.Run(PyConn.START, events).streams[c].given);
  }

  lemma ReceivedFromFront(c: ByteString, values: seq<Value>, ended: bool, got: seq<Envelope>)
    requires Faithful(values)
    requires got <= Frames(c, StreamOf(values, ended))
    ensures Gathered(got) <= Present(values)
    ensures !StreamDemux.NoEnd(got) ==> ended && Gathered(got) == Present(values)
  {
    hide Survives, Gathered, Payload;
    var k := |got|;
    assert got == Frames(c, StreamOf(values, ended))[..k];
    GatheredIsPresent(c, values, ended, k);
    PresentOfPrefix(values, if k < |values| then k else |values|);
    if !StreamDemux.NoEnd(got) {
      EndMeansWhole(c, values, ended, got);
      assert values[..|values|] == values;
    }
  }

  lemma {:induction false} PresentOfPrefix(values: seq<Value>, n: nat)
    requires n <= |values|
    ensures Present(values[..n]) <= Present(values)
  {
    if n < |values| {
      var before := values[..|values| - 1];
      PresentOfPrefix(before, n);
      assert before[..n] == values[..n];
    } else {
      assert values[..n] == values;
    }
  }
}
