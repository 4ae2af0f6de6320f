/** The directory: a registry served over authenticated channels, where each resource manages only its own record. */
module Directory {
  import opened Wrappers
  import opened Bytes
  import opened Cbor
  import opened Fields
  import opened Identity
  import opened Records
  import opened TopK
  import Registry

  /** A request by capability; `None` is a body that does not parse. */
  datatype Request =
    | Register(record: Option<SignedRecord>)
    | Resolve(id: Option<Blob>)
    | Search(need: Option<Registry.Need>)
    | Renew(args: Option<(Blob, U64)>)
    | Deregister(target: Option<Blob>)
    | Unknown

  datatype ErrorCode = BadRequest | Unauthorized | Conflict | NotFound

  datatype Reply =
    | Done
    | Record(record: SignedRecord)
    | Records(records: seq<SignedRecord>)
    | Expiry(expiry: U64)
    | Error(code: ErrorCode)

  /** The registry after a request of the peer authenticated as `peer`. */
  function Handled(c: Crypto, e: Registry.Embedder, s: Registry.State, peer: Blob, req: Request, now: U64)
    : Registry.State
  {
    match req
    case Register(Some(r)) => if r.Id() != peer then s else Registry.Registered(c, e, s, r, now).1
    case Renew(Some((id, ttl))) => if id != peer then s else Registry.Renewed(s, id, now, ttl).1
    case Deregister(Some(id)) => if id != peer then s else Registry.Deregistered(s, id)
    case _ => s
  }

  /** The reply, except to a search. */
  function Answer(c: Crypto, e: Registry.Embedder, s: Registry.State, peer: Blob, req: Request, now: U64): Reply
    requires !(req.Search? && req.need.Some?)
  {
    match req
    case Register(None) => Error(BadRequest)
    case Register(Some(r)) =>
      if r.Id() != peer then Error(Unauthorized)
      else if Registry.Registered(c, e, s, r, now).0.Ok? then Done
      else Error(Conflict)
    case Resolve(None) => Error(BadRequest)
    case Resolve(Some(id)) =>
      var r := Registry.Resolved(s, id, now);
      if r.Ok? then Record(r.value) else Error(NotFound)
    case Search(_) => Error(BadRequest)
    case Renew(None) => Error(BadRequest)
    case Renew(Some((id, ttl))) =>
      if id != peer then Error(Unauthorized)
      else
        var r := Registry.Renewed(s, id, now, ttl).0;
        if r.Ok? then Expiry(r.value) else Error(NotFound)
    case Deregister(None) => Error(BadRequest)
    case Deregister(Some(id)) => if id != peer then Error(Unauthorized) else Done
    case Unknown => Error(NotFound)
  }

  /** Serve one request. */
  method Handle(registry: Registry.Node, peer: Blob, req: Request, now: U64) returns (reply: Reply)
    requires registry.Valid()
    modifies registry
    ensures registry.Valid()
    ensures registry.Now() == Handled(registry.crypto, registry.embedder, old(registry.Now()), peer, req, now)
    ensures
      if req.Search? && req.need.Some? then
        && reply.Records?
        && Best(Registry.Candidates(registry.store, req.need.value, now),
                Registry.ScoreFor(registry.embedder, req.need.value.intent), req.need.value.topK, reply.records)
      else reply == Answer(registry.crypto, registry.embedder, old(registry.Now()), peer, req, now)
  {
    match req
    case Register(None) => return Error(BadRequest);
    case Register(Some(r)) =>
      if r.payload.id != peer {
        return Error(Unauthorized);
      }
      var result := registry.Register(r, now);
      return if result.Ok? then Done else Error(Conflict);
    case Resolve(None) => return Error(BadRequest);
    case Resolve(Some(id)) =>
      var found := registry.Resolve(id, now);
      return if found.Ok? then Record(found.value) else Error(NotFound);
    case Search(None) => return Error(BadRequest);
    case Search(Some(need)) =>
      var records := registry.Search(need, now);
      return Records(records);
    case Renew(None) => return Error(BadRequest);
    case Renew(Some((id, ttl))) =>
      if id != peer {
        return Error(Unauthorized);
      }
      var renewed := registry.Renew(id, now, ttl);
      return if renewed.Ok? then Expiry(renewed.value) else Error(NotFound);
    case Deregister(None) => return Error(BadRequest);
    case Deregister(Some(id)) =>
      if id != peer {
        return Error(Unauthorized);
      }
      var _ := registry.Deregister(id);
      return Done;
    case Unknown => return Error(NotFound);
  }

  /** What each request changes: only a peer's own register, renew and deregister requests change anything, and they do
      what the registry does. */
  lemma OwnRequestsTakeEffect(
    c: Crypto, e: Registry.Embedder, s: Registry.State, peer: Blob, req: Request, now: U64)
    ensures
      var t := Handled(c, e, s, peer, req, now);
      && (req.Register? && req.record.Some? && req.record.value.payload.id == peer ==>
            t == Registry.Registered(c, e, s, req.record.value, now).1)
      && (req.Renew? && req.args.Some? && req.args.value.0 == peer ==>
            t == Registry.Renewed(s, peer, now, req.args.value.1).1)
      && (req == Deregister(Some(peer)) ==> t == Registry.Deregistered(s, peer))
      && (t != s ==>
            || (req.Register? && req.record.Some? && req.record.value.payload.id == peer)
            || (req.Renew? && req.args.Some? && req.args.value.0 == peer)
            || req == Deregister(Some(peer)))
  {
    hide Registry.Registered, Registry.Renewed;
  }

  /** What each request is answered, and that each error has its one cause. */
  lemma AnswersNameTheirCause(
    c: Crypto, e: Registry.Embedder, s: Registry.State, peer: Blob, req: Request, now: U64)
    requires !(req.Search? && req.need.Some?)
    ensures
      var a := Answer(c, e, s, peer, req, now);
      && (a == Error(BadRequest) <==>
            req == Register(None) || req == Resolve(None) || req == Search(None) || req == Renew(None)
            || req == Deregister(None))
      && (a == Error(Unauthorized) <==>
            || (req.Register? && req.record.Some? && req.record.value.payload.id != peer)
            || (req.Renew? && req.args.Some? && req.args.value.0 != peer)
            || (req.Deregister? && req.target.Some? && req.target.value != peer))
      && (a == Error(Conflict) <==>
            req.Register? && req.record.Some? && req.record.value.payload.id == peer
            && Registry.Registered(c, e, s, req.record.value, now).0.Err?)
      && (a == Error(NotFound) <==>
            || req == Unknown
            || (req.Resolve? && req.id.Some? && Registry.Resolved(s, req.id.value, now).Err?)
            || (req.Renew? && req.args.Some? && req.args.value.0 == peer
                && Registry.Renewed(s, peer, now, req.args.value.1).0.Err?))
      && (a == Done <==>
            || (req.Register? && req.record.Some? && req.record.value.payload.id == peer
                && Registry.Registered(c, e, s, req.record.value, now).0.Ok?)
            || req == Deregister(Some(peer)))
      && !a.Records?
      && (a.Record? ==> req.Resolve? && req.id.Some? && Registry.Resolved(s, req.id.value, now) == Ok(a.record))
      && (a.Expiry? ==>
            req.Renew? && req.args.Some? && Registry.Renewed(s, peer, now, req.args.value.1).0 == Ok(a.expiry))
  {
    hide Registry.Registered, Registry.Renewed, Registry.Resolved;
  }

  // ----- Whole histories of requests -----

  datatype Call = Call(peer: Blob, req: Request, now: U64)

  function Serve(c: Crypto, e: Registry.Embedder, s: Registry.State, calls: seq<Call>): Registry.State
    decreases |calls|
  {
    if calls == [] then s else
    Serve(c, e, Handled(c, e, s, calls[0].peer, calls[0].req, calls[0].now), calls[1..])
  }

  predicate SameEntry(s: Registry.State, t: Registry.State, id: Blob) {
    (id in s.store <==> id in t.store) && (id in s.store ==> s.store[id] == t.store[id])
  }

  lemma OneCallChangesOwnEntryOnly(c: Crypto, e: Registry.Embedder, s: Registry.State, call: Call, id: Blob)
    ensures call.peer != id ==> SameEntry(s, Handled(c, e, s, call.peer, call.req, call.now), id)
    ensures Handled(c, e, s, call.peer, call.req, call.now).revoked == s.revoked
  {
    hide VerifyRecord, Registry.Embeddings;
  }

  /** Whatever is requested by whom, an entry changes only if somebody authenticated as that id made a request. */
  lemma {:induction false} EntryChangesOnlyByItsOwner(
    c: Crypto, e: Registry.Embedder, s: Registry.State, calls: seq<Call>, id: Blob)
    ensures !SameEntry(s, Serve(c, e, s, calls), id) ==> exists i | 0 <= i < |calls| :: calls[i].peer == id
    ensures Serve(c, e, s, calls).revoked == s.revoked
    decreases |calls|
  {
    hide Handled;
    if calls != [] {
      var next := Handled(c, e, s, calls[0].peer, calls[0].req, calls[0].now);
      OneCallChangesOwnEntryOnly(c, e, s, calls[0], id);
      EntryChangesOnlyByItsOwner(c, e, next, calls[1..], id);
      if !SameEntry(next, Serve(c, e, next, calls[1..]), id) {
        var i :| 0 <= i < |calls[1..]| && calls[1..][i].peer == id;
        assert calls[i + 1].peer == id;
      }
    }
  }
}
