/** A single registry: register, resolve, search, revoke, renew, deregister and sweep over a store of signed records
    with cached capability embeddings. */
module Registry {
  import opened Wrappers
  import opened Bytes
  import opened Cbor
  import opened Fields
  import opened Identity
  import opened Records
  import opened Sorting
  import opened TopK

  type Vector = seq<real>

  /** The embedding provider and the similarity of two embeddings. */
  datatype Embedder = Embedder(embed: Label -> Vector, cosine: (Vector, Vector) -> real)

  /** The least 32-bit float: the score of a record without capabilities. */
  const LEAST_SCORE: real := -340282346638528859811704183484516925440.0

  datatype Need = Need(intent: Label, kind: Option<Label>, tags: seq<Label>, topK: nat)

  datatype RegistryError = Rejected(error: CoreError) | Stale | NotFound | NotAuthorized

  datatype Stored = Stored(record: SignedRecord, embeddings: seq<Vector>)

  datatype State = State(store: map<Blob, Stored>, revoked: set<Blob>)

  /** A root-signed statement that a working key is revoked. */
  datatype Revocation = Revocation(workingPub: Blob, issuedAt: U64, rootSig: Blob)

  function RevocationView(r: Revocation): (v: Value)
    ensures Encodable(v)
  {
    Signing.StructIsWire(["working_pub", "issued_at"], [Bytes(r.workingPub), Int(r.issuedAt)]);
    Signing.Struct(["working_pub", "issued_at"], [Bytes(r.workingPub), Int(r.issuedAt)])
  }

  function RevocationMessage(r: Revocation): ByteString {
    SigningBytes("thicket-revocation-v1", RevocationView(r))
  }

  predicate RevocationSigned(c: Crypto, rootPub: Blob, r: Revocation) {
    c.Verifies(rootPub, RevocationMessage(r), r.rootSig)
  }

  // ----- Matching and scoring -----

  predicate LeaseExpired(r: SignedRecord, now: nat) {
    r.payload.lease.Some? && now > r.payload.lease.value.expiresAt
  }

  predicate KindMatches(r: SignedRecord, need: Need) {
    need.kind.None? || r.payload.kind == need.kind.value ||
    exists i | 0 <= i < |r.payload.capabilities| :: r.payload.capabilities[i].kind == need.kind.value
  }

  predicate TagsMatch(r: SignedRecord, need: Need) {
    forall t | t in need.tags :: exists i | 0 <= i < |r.payload.capabilities| :: t in r.payload.capabilities[i].tags
  }

  predicate Matches(r: SignedRecord, need: Need, now: nat) {
    r.payload.visibility.Public? && !LeaseExpired(r, now) && KindMatches(r, need) && TagsMatch(r, need)
  }

  /** One embedding per capability. */
  function Embeddings(e: Embedder, capabilities: seq<Capability>): (r: seq<Vector>)
    ensures |r| == |capabilities| && forall i | 0 <= i < |r| :: r[i] == e.embed(capabilities[i].description)
  {
    seq(|capabilities|, i requires 0 <= i < |capabilities| => e.embed(capabilities[i].description))
  }

  /** The best similarity of the query to one of the embeddings. */
  function BestScore(e: Embedder, query: Vector, embeddings: seq<Vector>): (r: real)
    ensures r >= LEAST_SCORE && forall v | v in embeddings :: e.cosine(query, v) <= r
    ensures r == LEAST_SCORE || exists v | v in embeddings :: r == e.cosine(query, v)
  {
    if embeddings == [] then LEAST_SCORE else
    var rest := BestScore(e, query, embeddings[..|embeddings| - 1]);
    var last := e.cosine(query, embeddings[|embeddings| - 1]);
    if last > rest then last else rest
  }

  /** How well a record's capabilities, embedded afresh, match an intent. */
  function ScoreFor(e: Embedder, intent: Label): SignedRecord -> real {
    (r: SignedRecord) => BestScore(e, e.embed(intent), Embeddings(e, r.payload.capabilities))
  }

  /** The records a search may return. */
  function Candidates(store: map<Blob, Stored>, need: Need, now: nat): set<SignedRecord> {
    set id | id in store && Matches(store[id].record, need, now) :: store[id].record
  }

  /** The candidates of a search are exactly the stored records that are public, whose lease has not run out, that are
      of the kind asked for or have a capability of that kind, and that have each tag asked for on some capability. */
  lemma CandidatesAre(store: map<Blob, Stored>, need: Need, now: nat, r: SignedRecord)
    ensures r in Candidates(store, need, now) <==>
      && (exists id :: id in store && store[id].record == r)
      && r.payload.visibility == Public
      && (r.payload.lease == None || now <= r.payload.lease.value.expiresAt)
      && (need.kind == None || need.kind == Some(r.payload.kind)
          || exists cap | cap in r.payload.capabilities :: need.kind == Some(cap.kind))
      && (forall t | t in need.tags :: exists cap | cap in r.payload.capabilities :: t in cap.tags)
  {
    KindMatchesIff(r, need);
    TagsMatchIff(r, need);
    hide KindMatches, TagsMatch;
  }

  lemma KindMatchesIff(r: SignedRecord, need: Need)
    ensures KindMatches(r, need) <==>
      need.kind == None || need.kind == Some(r.payload.kind)
      || exists cap | cap in r.payload.capabilities :: need.kind == Some(cap.kind)
  {
    if cap :| cap in r.payload.capabilities && need.kind == Some(cap.kind) {
      var i :| 0 <= i < |r.payload.capabilities| && r.payload.capabilities[i] == cap;
    }
  }

  lemma TagsMatchIff(r: SignedRecord, need: Need)
    ensures TagsMatch(r, need) <==>
      forall t | t in need.tags :: exists cap | cap in r.payload.capabilities :: t in cap.tags
  {
    var caps := r.payload.capabilities;
    forall t | t in need.tags
      ensures (exists i | 0 <= i < |caps| :: t in caps[i].tags) <==> exists cap | cap in caps :: t in cap.tags
    {
      if cap :| cap in caps && t in cap.tags {
        var i :| 0 <= i < |caps| && caps[i] == cap;
        assert t in caps[i].tags;
      }
    }
  }

  /** The public records are exactly the stored ones that are public and whose lease has not run out. */
  lemma PublicRecordsAre(store: map<Blob, Stored>, now: nat, r: SignedRecord)
    ensures r in PublicRecords(store, now) <==>
      && (exists id :: id in store && store[id].record == r)
      && r.payload.visibility == Public
      && (r.payload.lease == None || now <= r.payload.lease.value.expiresAt)
  {
  }

  /** A record scores what its best capability scores: the similarity of the embedded description to the embedded
      intent, or the least score without a capability that beats it. */
  lemma ScoreIsBestSimilarity(e: Embedder, intent: Label, r: SignedRecord)
    ensures
      var score, caps := ScoreFor(e, intent)(r), r.payload.capabilities;
      && (forall cap | cap in caps :: e.cosine(e.embed(intent), e.embed(cap.description)) <= score)
      && score >= LEAST_SCORE
      && (score == LEAST_SCORE
          || exists cap | cap in caps :: score == e.cosine(e.embed(intent), e.embed(cap.description)))
  {
    var caps := r.payload.capabilities;
    var embeddings := Embeddings(e, caps);
    forall cap | cap in caps ensures e.embed(cap.description) in embeddings {
      var i :| 0 <= i < |caps| && caps[i] == cap;
      assert embeddings[i] == e.embed(cap.description);
    }
    var score := BestScore(e, e.embed(intent), embeddings);
    if score != LEAST_SCORE {
      var v :| v in embeddings && score == e.cosine(e.embed(intent), v);
      var i :| 0 <= i < |embeddings| && embeddings[i] == v;
      assert caps[i] in caps;
    }
  }

  function PublicRecords(store: map<Blob, Stored>, now: nat): set<SignedRecord> {
    set id | id in store && store[id].record.payload.visibility.Public? && !LeaseExpired(store[id].record, now) ::
      store[id].record
  }

  // ----- What each operation does -----

  function Registered(c: Crypto, e: Embedder, s: State, r: SignedRecord, now: U64): (Result<(), RegistryError>, State) {
    var verdict := VerifyRecord(c, r, now, s.revoked);
    if verdict.Err? then (Err(Rejected(verdict.error)), s)
    else if r.Id() in s.store && r.payload.version <= s.store[r.Id()].record.payload.version then (Err(Stale), s)
    else (Ok(()), s.(store := s.store[r.Id() := Stored(r, Embeddings(e, r.payload.capabilities))]))
  }

  function Resolved(s: State, id: Blob, now: nat): Result<SignedRecord, RegistryError> {
    if id !in s.store || LeaseExpired(s.store[id].record, now) then Err(NotFound)
    else if s.store[id].record.payload.visibility.Private? then Err(NotAuthorized)
    else Ok(s.store[id].record)
  }

  function Revoked(c: Crypto, s: State, id: Blob, r: Revocation): (Result<(), RegistryError>, State) {
    if id !in s.store then (Err(NotFound), s)
    else if !RevocationSigned(c, s.store[id].record.payload.rootPub, r) then (Err(Rejected(BadEndorsement)), s)
    else
      var revoked := s.revoked + {r.workingPub};
      (Ok(()), State(if s.store[id].record.signer in revoked then s.store - {id} else s.store, revoked))
  }

  function RenewedLease(now: U64, ttl: U64): Lease {
    Lease(ttl, now, WrappingAdd(now, ttl))
  }

  function Renewed(s: State, id: Blob, now: U64, ttl: U64): (Result<U64, RegistryError>, State) {
    if id !in s.store || s.store[id].record.payload.lease.None? then (Err(NotFound), s)
    else
      var renewed := s.store[id].(record := s.store[id].record.WithLease(Some(RenewedLease(now, ttl))));
      (Ok(WrappingAdd(now, ttl)), s.(store := s.store[id := renewed]))
  }

  function Deregistered(s: State, id: Blob): State {
    s.(store := s.store - {id})
  }

  function Swept(s: State, now: nat): State {
    s.(store := map id | id in s.store && !LeaseExpired(s.store[id].record, now) :: s.store[id])
  }

  /** What a revocation signs is the working key and the time, under these names and in this order. */
  lemma RevocationLayout(r: Revocation)
    ensures RevocationView(r) ==
      Map([Signing.Named("working_pub", Bytes(r.workingPub)), Signing.Named("issued_at", Int(r.issuedAt))])
    ensures RevocationMessage(r) == Signing.Ascii("thicket-revocation-v1") + [0] + Enc(RevocationView(r))
  {
    Signing.StructEntries(["working_pub", "issued_at"], [Bytes(r.workingPub), Int(r.issuedAt)],
      [Signing.Named("working_pub", Bytes(r.workingPub)), Signing.Named("issued_at", Int(r.issuedAt))]);
  }

  /** When a record is registered, and what changes: only its own entry. */
  lemma RegisterOutcome(c: Crypto, e: Embedder, s: State, r: SignedRecord, now: U64)
    ensures
      var (result, t) := Registered(c, e, s, r, now);
      var verdict := VerifyRecord(c, r, now, s.revoked);
      && (result.Ok? <==>
            verdict.Ok? && (r.Id() in s.store ==> s.store[r.Id()].record.payload.version < r.payload.version))
      && (result == Err(Stale) <==>
            verdict.Ok? && r.Id() in s.store && r.payload.version <= s.store[r.Id()].record.payload.version)
      && (forall why :: result == Err(Rejected(why)) <==> verdict == Err(why))
      && (result.Err? ==> t == s)
      && (result.Ok? ==>
            && r.payload.id in t.store && t.store[r.payload.id].record == r && t.revoked == s.revoked
            && |t.store[r.payload.id].embeddings| == |r.payload.capabilities|
            && (forall i | 0 <= i < |r.payload.capabilities| ::
                  t.store[r.payload.id].embeddings[i] == e.embed(r.payload.capabilities[i].description))
            && t.store - {r.payload.id} == s.store - {r.payload.id})
  {
    hide VerifyRecord;
  }

  /** A revocation is accepted exactly when the id is stored and the stored record's root key signed it. It adds its key
      to the revoked ones and drops the entry exactly when the signer of its record is then revoked. */
  lemma RevokeOutcome(c: Crypto, s: State, id: Blob, r: Revocation)
    ensures
      var (result, t) := Revoked(c, s, id, r);
      && (result == Err(NotFound) <==> id !in s.store)
      && (id in s.store ==>
            var rootPub := s.store[id].record.payload.rootPub;
            && (result.Ok? <==> |rootPub| == 32 && r.rootSig == c.sign(rootPub, RevocationMessage(r)))
            && (result.Ok? || result == Err(Rejected(BadEndorsement)))
            && (result.Ok? ==>
                  && t.revoked == s.revoked + {r.workingPub}
                  && t.store - {id} == s.store - {id}
                  && (id in t.store <==> s.store[id].record.signer !in t.revoked)
                  && (id in t.store ==> t.store[id] == s.store[id])))
      && (result.Err? ==> t == s)
  {
    hide RevocationMessage;
  }

  /** A renewal needs a stored record with a lease, and rewrites that lease only. */
  lemma RenewOutcome(s: State, id: Blob, now: U64, ttl: U64)
    ensures
      var (result, t) := Renewed(s, id, now, ttl);
      && (result == Err(NotFound) <==> id !in s.store || s.store[id].record.payload.lease == None)
      && (result.Ok? || (result == Err(NotFound) && t == s))
      && (result.Ok? ==>
            && result.value == (if now + ttl < LIMIT then now + ttl else now + ttl - LIMIT)
            && id in t.store && t.revoked == s.revoked && t.store - {id} == s.store - {id}
            && t.store[id].record.payload.lease == Some(Lease(ttl, now, result.value))
            && t.store[id].record.WithLease(s.store[id].record.payload.lease) == s.store[id].record
            && t.store[id].embeddings == s.store[id].embeddings)
  {
  }

  /** Deregistering takes one entry out, and sweeping exactly those whose lease has run out. */
  lemma RemovalOutcomes(s: State, id: Blob, now: nat)
    ensures
      var t := Deregistered(s, id);
      id !in t.store && t.store == s.store - {id} && t.revoked == s.revoked
    ensures
      var t := Swept(s, now);
      && t.revoked == s.revoked
      && (forall i :: i in t.store <==>
            i in s.store && (s.store[i].record.payload.lease == None
                             || now <= s.store[i].record.payload.lease.value.expiresAt))
      && (forall i | i in t.store :: t.store[i] == s.store[i])
  {
  }

  /** A registered record is what its id resolves to, until its lease runs out; other ids resolve as before. */
  lemma RegisteredIsResolved(
    c: Crypto, e: Embedder, s: State, r: SignedRecord, now: U64, id: Blob, at: nat)
    requires Registered(c, e, s, r, now).0.Ok?
    ensures
      Resolved(Registered(c, e, s, r, now).1, id, at) ==
        if id != r.Id() then Resolved(s, id, at)
        else if LeaseExpired(r, at) then Err(NotFound)
        else if r.payload.visibility.Private? then Err(NotAuthorized)
        else Ok(r)
  {
    hide VerifyRecord, Embeddings;
  }

  /** A renewed entry resolves, to its record but for the lease, exactly until the returned expiry. */
  lemma RenewedLivesUntil(s: State, id: Blob, now: U64, ttl: U64, at: nat)
    requires Renewed(s, id, now, ttl).0.Ok?
    ensures
      var (expiry, after) := Renewed(s, id, now, ttl);
      && (Resolved(after, id, at) == Err(NotFound) <==> at > expiry.value)
      && (Resolved(after, id, at).Ok? ==>
            Resolved(after, id, at).value.WithLease(None) == s.store[id].record.WithLease(None))
  {
  }

  predicate FoundAt(s: State, id: Blob, at: nat) {
    Resolved(s, id, at) != Err(NotFound)
  }

  /** The expiry moves forward exactly when the sum, in 64 bits, exceeds the old expiry; and the renewal hides the id
      at no time at which it was found exactly when the new expiry is not below the old one. */
  lemma RenewalMovesForwardIff(s: State, id: Blob, now: U64, ttl: U64)
    requires Renewed(s, id, now, ttl).0.Ok?
    ensures
      var (expiry, after) := Renewed(s, id, now, ttl);
      var before := s.store[id].record.payload.lease.value.expiresAt;
      && (expiry.value > before <==> now + ttl > before + if now + ttl < LIMIT then 0 else LIMIT)
      && ((forall at: nat | FoundAt(s, id, at) :: FoundAt(after, id, at)) <==> expiry.value >= before)
  {
    var (expiry, after) := Renewed(s, id, now, ttl);
    var before := s.store[id].record.payload.lease.value.expiresAt;
    if expiry.value < before {
      assert FoundAt(s, id, before) && !FoundAt(after, id, before);
    }
  }

  /** Entries sit under their own id, with embeddings as if computed now. */
  ghost predicate Indexed(e: Embedder, store: map<Blob, Stored>) {
    forall id | id in store ::
      store[id].record.Id() == id && store[id].embeddings == Embeddings(e, store[id].record.payload.capabilities)
  }

  // ----- The registry object -----

  class Node {
    const crypto: Crypto
    const embedder: Embedder
    var store: map<Blob, Stored>
    var revocations: set<Blob>

    constructor (crypto: Crypto, embedder: Embedder)
      ensures this.crypto == crypto && this.embedder == embedder && Now() == State(map[], {}) && Valid()
    {
      this.crypto, this.embedder, store, revocations := crypto, embedder, map[], {};
    }

    ghost function Now(): State
      reads this
    {
      State(store, revocations)
    }

    ghost predicate Valid()
      reads this
    {
      Indexed(embedder, store)
    }

    method Register(r: SignedRecord, now: U64) returns (result: Result<(), RegistryError>)
      requires Valid()
      modifies this`store
      ensures Valid()
      ensures (result, Now()) == Registered(crypto, embedder, old(Now()), r, now)
    {
      var verdict := VerifyRecord(crypto, r, now, revocations);
      if verdict.Err? {
        return Err(Rejected(verdict.error));
      }
      if r.Id() in store {
        if r.payload.version <= store[r.Id()].record.payload.version {
          return Err(Stale);
        }
      }
      var embeddings := Embeddings(embedder, r.payload.capabilities);
      store := store[r.Id() := Stored(r, embeddings)];
      return Ok(());
    }

    function Resolve(id: Blob, now: U64): (r: Result<SignedRecord, RegistryError>)
      reads this
      ensures r == Resolved(Now(), id, now)
    {
      if id !in store then Err(NotFound)
      else if LeaseExpired(store[id].record, now) then Err(NotFound)
      else match store[id].record.payload.visibility
        case Private => Err(NotAuthorized)
        case _ => Ok(store[id].record)
    }

    /** Only public live records are returned: the best of those that match, ranked by cached embeddings. */
    method Search(need: Need, now: U64) returns (records: seq<SignedRecord>)
      requires Valid()
      ensures Best(Candidates(store, need, now), ScoreFor(embedder, need.intent), need.topK, records)
      ensures forall r | r in records ::
        && (exists id :: id in store && store[id].record == r)
        && r.payload.visibility == Public
        && (r.payload.lease == None || now <= r.payload.lease.value.expiresAt)
        && (need.kind == None || need.kind == Some(r.payload.kind)
            || exists cap | cap in r.payload.capabilities :: need.kind == Some(cap.kind))
        && (forall t | t in need.tags :: exists cap | cap in r.payload.capabilities :: t in cap.tags)
    {
      hide Matches, KindMatches, TagsMatch, Ranked;
      var found := Matching(need, now);
      var ranked := Ranked(found, (s: Stored) => BestScore(embedder, embedder.embed(need.intent), s.embeddings));
      records := RecordsOf(Take(ranked, need.topK));
      SearchIsBest(found, need);
      hide Candidates, ScoreFor, Take, RecordsOf;
      forall r | r in records
        ensures
          && (exists id :: id in store && store[id].record == r)
          && r.payload.visibility == Public
          && (r.payload.lease == None || now <= r.payload.lease.value.expiresAt)
          && (need.kind == None || need.kind == Some(r.payload.kind)
              || exists cap | cap in r.payload.capabilities :: need.kind == Some(cap.kind))
          && (forall t | t in need.tags :: exists cap | cap in r.payload.capabilities :: t in cap.tags)
      {
        assert r in SetOf(records);
        CandidatesAre(store, need, now, r);
      }
    }

    /** The matching entries, in the order of the store's iteration. */
    method Matching(need: Need, now: U64) returns (found: seq<Stored>)
      requires Valid()
      ensures SetOf(RecordsOf(found)) == Candidates(store, need, now) && Distinct(RecordsOf(found))
      ensures forall s | s in found :: s.embeddings == Embeddings(embedder, s.record.payload.capabilities)
    {
      var todo := store.Keys;
      found := [];
      while todo != {}
        invariant todo <= store.Keys
        invariant forall r | r in RecordsOf(found) ::
          r.Id() in store && r.Id() !in todo && store[r.Id()].record == r && Matches(r, need, now)
        invariant forall id | id in store && id !in todo && Matches(store[id].record, need, now) ::
          store[id].record in RecordsOf(found)
        invariant Distinct(RecordsOf(found))
        invariant forall s | s in found :: s.embeddings == Embeddings(embedder, s.record.payload.capabilities)
        decreases todo
      {
        var id :| id in todo;
        todo := todo - {id};
        if Matches(store[id].record, need, now) {
          assert RecordsOf(found + [store[id]]) == RecordsOf(found) + [store[id].record];
          found := found + [store[id]];
        }
      }
    }

    lemma SearchIsBest(found: seq<Stored>, need: Need)
      requires Distinct(RecordsOf(found))
      requires forall s | s in found :: s.embeddings == Embeddings(embedder, s.record.payload.capabilities)
      ensures
        var ranked := Ranked(found, (s: Stored) => BestScore(embedder, embedder.embed(need.intent), s.embeddings));
        Best(SetOf(RecordsOf(found)), ScoreFor(embedder, need.intent), need.topK, RecordsOf(Take(ranked, need.topK)))
    {
      var cached := (s: Stored) => BestScore(embedder, embedder.embed(need.intent), s.embeddings);
      var score := ScoreFor(embedder, need.intent);
      RankedRecords(found, cached, score);
      RankAndTakeIsBest(RecordsOf(found), score, need.topK);
      var ranked := Ranked(found, cached);
      assert RecordsOf(Take(ranked, need.topK)) == Take(RecordsOf(ranked), need.topK);
    }

    method Revoke(id: Blob, r: Revocation) returns (result: Result<(), RegistryError>)
      requires Valid()
      modifies this`store, this`revocations
      ensures Valid()
      ensures (result, Now()) == Revoked(crypto, old(Now()), id, r)
    {
      if id !in store {
        return Err(NotFound);
      }
      var rootPub := store[id].record.payload.rootPub;
      if !RevocationSigned(crypto, rootPub, r) {
        return Err(Rejected(BadEndorsement));
      }
      revocations := revocations + {r.workingPub};
      if store[id].record.signer in revocations {
        store := store - {id};
      }
      return Ok(());
    }

    /** The new expiry need not be later than the old one. */
    method Renew(id: Blob, now: U64, ttl: U64) returns (result: Result<U64, RegistryError>)
      requires Valid()
      modifies this`store
      ensures Valid()
      ensures (result, Now()) == Renewed(old(Now()), id, now, ttl)
    {
      if id !in store || store[id].record.payload.lease.None? {
        return Err(NotFound);
      }
      var entry := store[id];
      var expiry := WrappingAdd(now, ttl);
      var lease := Lease(ttl, now, expiry);
      store := store[id := entry.(record := entry.record.WithLease(Some(lease)))];
      return Ok(expiry);
    }

    method Deregister(id: Blob) returns (removed: bool)
      requires Valid()
      modifies this`store
      ensures Valid()
      ensures removed == (id in old(store)) && Now() == Deregistered(old(Now()), id)
    {
      removed := id in store;
      store := store - {id};
    }

    method SweepExpired(now: U64) returns (evicted: int)
      requires Valid()
      modifies this`store
      ensures Valid()
      ensures Now() == Swept(old(Now()), now) && evicted == |old(store)| - |store|
    {
      var before := |store|;
      store := map id | id in store && !LeaseExpired(store[id].record, now) :: store[id];
      return before - |store|;
    }
  }

  function RecordsOf(s: seq<Stored>): (r: seq<SignedRecord>)
    ensures |r| == |s| && forall i | 0 <= i < |r| :: r[i] == s[i].record
  {
    seq(|s|, i requires 0 <= i < |s| => s[i].record)
  }

  /** Ranking entries by a cached score ranks their records by the score it caches. */
  lemma {:induction false} RankedRecords(found: seq<Stored>, cached: Stored -> real, score: SignedRecord -> real)
    requires forall s | s in found :: cached(s) == score(s.record)
    ensures RecordsOf(Ranked(found, cached)) == Ranked(RecordsOf(found), score)
  {
    if found != [] {
      RankedRecords(found[1..], cached, score);
      assert RecordsOf(found)[1..] == RecordsOf(found[1..]);
      var rest := Ranked(found[1..], cached);
      forall s | s in rest ensures cached(s) == score(s.record) {
        assert s in multiset(rest);
        assert s in found[1..];
      }
      InsertedRecords(found[0], rest, cached, score);
    }
  }

  lemma {:induction false} InsertedRecords(
    x: Stored, s: seq<Stored>, cached: Stored -> real, score: SignedRecord -> real)
    requires cached(x) == score(x.record) && forall y | y in s :: cached(y) == score(y.record)
    ensures RecordsOf(Insert(x, s, cached)) == Insert(x.record, RecordsOf(s), score)
  {
    if s != [] && cached(x) < cached(s[0]) {
      InsertedRecords(x, s[1..], cached, score);
      assert RecordsOf(s)[1..] == RecordsOf(s[1..]);
      assert RecordsOf([s[0]] + Insert(x, s[1..], cached)) == [s[0].record] + RecordsOf(Insert(x, s[1..], cached));
    } else {
      assert RecordsOf([x] + s) == [x.record] + RecordsOf(s);
    }
  }

  // ----- Every reachable state -----

  datatype Op =
    | Register(r: SignedRecord, now: U64)
    | Renew(id: Blob, at: U64, ttl: U64)
    | Revoke(id: Blob, revocation: Revocation)
    | Deregister(id: Blob)
    | Sweep(sweptAt: nat)

  function Apply(c: Crypto, e: Embedder, s: State, op: Op): State {
    match op
    case Register(r, now) => Registered(c, e, s, r, now).1
    case Renew(id, now, ttl) => Renewed(s, id, now, ttl).1
    case Revoke(id, r) => Revoked(c, s, id, r).1
    case Deregister(id) => Deregistered(s, id)
    case Sweep(now) => Swept(s, now)
  }

  function Run(c: Crypto, e: Embedder, s: State, ops: seq<Op>): State
    decreases |ops|
  {
    if ops == [] then s else Run(c, e, Apply(c, e, s, ops[0]), ops[1..])
  }

  const EMPTY := State(map[], {})

  /** The stored record verified once, up to its lease. */
  ghost predicate VerifiedOnce(c: Crypto, r: SignedRecord) {
    exists lease, now :: VerifyRecord(c, r.WithLease(lease), now, {}).Ok?
  }

  ghost predicate Inv(c: Crypto, e: Embedder, s: State) {
    Indexed(e, s.store) && forall id | id in s.store :: VerifiedOnce(c, s.store[id].record)
  }

  lemma VerifiesWithoutRevocations(c: Crypto, r: SignedRecord, now: U64, revoked: set<Blob>)
    requires VerifyRecord(c, r, now, revoked).Ok?
    ensures VerifyRecord(c, r, now, {}).Ok? && r.signer !in revoked
  {
    hide RecordMessage;
  }

  lemma ApplyKeepsInv(c: Crypto, e: Embedder, s: State, op: Op)
    requires Inv(c, e, s)
    ensures Inv(c, e, Apply(c, e, s, op))
    ensures s.revoked <= Apply(c, e, s, op).revoked
  {
    hide VerifyRecord, RevocationSigned, LeaseExpired;
    match op
    case Register(r, now) =>
      if VerifyRecord(c, r, now, s.revoked).Ok? {
        VerifiesWithoutRevocations(c, r, now, s.revoked);
        assert r.WithLease(r.payload.lease) == r;
        assert VerifiedOnce(c, r);
      }
    case Renew(id, now, ttl) =>
      if id in s.store {
        var r := s.store[id].record;
        var lease, t :| VerifyRecord(c, r.WithLease(lease), t, {}).Ok?;
        assert r.WithLease(Some(RenewedLease(now, ttl))).WithLease(lease) == r.WithLease(lease);
        assert VerifiedOnce(c, r.WithLease(Some(RenewedLease(now, ttl))));
      }
    case _ =>
  }

  lemma {:induction false} RunKeepsInv(c: Crypto, e: Embedder, s: State, ops: seq<Op>)
    requires Inv(c, e, s)
    ensures Inv(c, e, Run(c, e, s, ops))
    ensures s.revoked <= Run(c, e, s, ops).revoked
    decreases |ops|
  {
    hide Inv, Apply;
    if ops != [] {
      ApplyKeepsInv(c, e, s, ops[0]);
      RunKeepsInv(c, e, Apply(c, e, s, ops[0]), ops[1..]);
    }
  }

  /** In every reachable state the cached embeddings are those of the stored capabilities, every entry sits under
      its own id, and every stored record is one that verified, except perhaps for its lease. */
  lemma ReachableIsConsistent(c: Crypto, e: Embedder, ops: seq<Op>, id: Blob)
    requires id in Run(c, e, EMPTY, ops).store
    ensures
      var entry := Run(c, e, EMPTY, ops).store[id];
      && entry.record.Id() == id
      && entry.embeddings == Embeddings(e, entry.record.payload.capabilities)
      && VerifiedOnce(c, entry.record)
  {
    RunKeepsInv(c, e, EMPTY, ops);
  }

  /** Renewal rewrites the lease inside the signed payload: a stored record that verifies still does after a renewal
      exactly when the renewal left the lease as it was. */
  lemma RenewalBreaksSignature(c: Crypto, s: State, id: Blob, now: U64, ttl: U64, at: U64)
    requires id in s.store && s.store[id].record.payload.lease.Some?
    requires VerifyRecord(c, s.store[id].record, at, {}).Ok?
    requires
      var r := s.store[id].record;
      c.Separates({RecordSigned(r), RecordSigned(r.WithLease(Some(RenewedLease(now, ttl))))})
    ensures
      var renewed := Renewed(s, id, now, ttl).1.store[id].record;
      VerifyRecord(c, renewed, at, {}).Ok? <==> s.store[id].record.payload.lease.value == RenewedLease(now, ttl)
  {
    hide VerifyRecord;
    OnlySignedLeaseVerifies(c, s.store[id].record, RenewedLease(now, ttl), at, {});
  }

  /** A record that leaves out all it can, leased up to 100. */
  function SmallPayload(root: Blob, working: Blob): RecordPayload {
    RecordPayload(
      [], [], root, [KeyEndorsement(working, 0, 1000, [3])], [], [], [], [], [], Public, Some(Lease(100, 0, 100)), 1,
      [])
  }

  /** Its scheme and hash: the root signs with one signature, and this payload has another one than everything else. */
  function SmallCrypto(root: Blob, working: Blob): Crypto {
    var message := RecordMessage(SmallPayload(root, working));
    Crypto((p: Blob, m: ByteString) => if p == root then [3] else if m == message then [1] else [2], (b: Blob) => [])
  }

  lemma SmallRecordVerifies(root: Blob, working: Blob)
    requires |root| == |working| == KEY_LENGTH && root != working
    ensures VerifyRecord(SmallCrypto(root, working), SignedRecord(SmallPayload(root, working), working, [1]), 0, {}).Ok?
  {
    hide RecordMessage, SigningBytes;
  }

  lemma SmallRecordsAreApart(root: Blob, working: Blob, lease: Lease)
    requires root != working
    ensures
      var r := SignedRecord(SmallPayload(root, working), working, [1]);
      SmallCrypto(root, working).Separates({RecordSigned(r), RecordSigned(r.WithLease(Some(lease)))})
  {
    hide RecordMessage;
  }

  /** A live registered entry whose renewal shortens its life and leaves it with a record that does not verify. */
  lemma RenewalCanHurt(e: Embedder) returns (c: Crypto, r: SignedRecord)
    ensures
      var s := Run(c, e, EMPTY, [Register(r, 0)]);
      var (result, t) := Renewed(s, r.Id(), 10, 20);
      && r.Id() in s.store && s.store[r.Id()].record == r
      && result == Ok(30) && 30 < r.payload.lease.value.expiresAt
      && FoundAt(s, r.Id(), 50) && !FoundAt(t, r.Id(), 50)
      && VerifyRecord(c, r, 10, {}).Ok? && VerifyRecord(c, t.store[r.Id()].record, 10, {}).Err?
  {
    hide VerifyRecord, SmallCrypto, Run, Registered, Renewed;
    var root, working: Blob := seq(KEY_LENGTH, _ => 1), seq(KEY_LENGTH, _ => 2);
    assert root[0] != working[0];
    c, r := SmallCrypto(root, working), SignedRecord(SmallPayload(root, working), working, [1]);
    SmallRecordVerifies(root, working);
    SmallRecordsAreApart(root, working, RenewedLease(10, 20));
    RegisteredAlone(c, e, r, 0);
    EarlyEnough(c, r, 0, 10);
    var s := Run(c, e, EMPTY, [Register(r, 0)]);
    RenewalBreaksSignature(c, s, r.Id(), 10, 20, 10);
    RenewedShort(s, r.Id());
  }

  /** What verifies can be registered in an empty registry. */
  lemma RegisteredAlone(c: Crypto, e: Embedder, r: SignedRecord, now: U64)
    requires VerifyRecord(c, r, now, {}).Ok?
    ensures
      var s := Run(c, e, EMPTY, [Register(r, now)]);
      r.Id() in s.store && s.store[r.Id()].record == r
  {
    hide VerifyRecord, Embeddings;
    var ops := [Register(r, now)];
    assert ops[1..] == [];
    var s := Apply(c, e, EMPTY, ops[0]);
    assert Run(c, e, EMPTY, ops) == Run(c, e, s, []) == s;
  }

  lemma RenewedShort(s: State, id: Blob)
    requires id in s.store && s.store[id].record.payload.lease.Some?
    requires s.store[id].record.payload.lease.value.expiresAt == 100
    ensures
      var (result, t) := Renewed(s, id, 10, 20);
      result == Ok(30) && FoundAt(s, id, 50) && !FoundAt(t, id, 50)
  {
  }

  /** A verified record verifies as long as its key's endorsement lasts. */
  lemma EarlyEnough(c: Crypto, r: SignedRecord, now: U64, later: U64)
    requires VerifyRecord(c, r, now, {}).Ok? && now <= later
    requires forall k | k in r.payload.keys :: later <= k.notAfter
    ensures VerifyRecord(c, r, later, {}).Ok?
  {
    hide RecordMessage;
  }

  // ----- Versions -----

  /** The id is stored in every state of the run. */
  predicate StoredThroughout(c: Crypto, e: Embedder, s: State, ops: seq<Op>, id: Blob)
    decreases |ops|
  {
    id in s.store && (ops == [] || StoredThroughout(c, e, Apply(c, e, s, ops[0]), ops[1..], id))
  }

  /** The later record is the earlier one with perhaps another lease, or has a higher version. */
  predicate NotOlder(late: SignedRecord, early: SignedRecord) {
    late == early.WithLease(late.payload.lease) || late.payload.version > early.payload.version
  }

  lemma ApplyNotOlder(c: Crypto, e: Embedder, s: State, op: Op, id: Blob)
    requires Indexed(e, s.store) && id in s.store && id in Apply(c, e, s, op).store
    ensures NotOlder(Apply(c, e, s, op).store[id].record, s.store[id].record)
  {
    hide VerifyRecord, RevocationSigned, LeaseExpired, Embeddings;
    var r := s.store[id].record;
    assert r == r.WithLease(r.payload.lease);
  }

  /** While an id stays stored, its version never falls, and any other record in its place has a higher one. */
  lemma {:induction false} VersionsRise(c: Crypto, e: Embedder, s: State, ops: seq<Op>, id: Blob)
    requires Inv(c, e, s) && StoredThroughout(c, e, s, ops, id)
    ensures id in Run(c, e, s, ops).store
    ensures NotOlder(Run(c, e, s, ops).store[id].record, s.store[id].record)
    decreases |ops|
  {
    hide Inv, Apply;
    if ops == [] {
      SameIsNotOlder(s.store[id].record);
    } else {
      var next := Apply(c, e, s, ops[0]);
      assert Indexed(e, s.store) by { IndexedByInv(c, e, s); }
      ApplyNotOlder(c, e, s, ops[0], id);
      ApplyKeepsInv(c, e, s, ops[0]);
      VersionsRise(c, e, next, ops[1..], id);
      NotOlderTransitive(Run(c, e, s, ops).store[id].record, next.store[id].record, s.store[id].record);
    }
  }

  lemma IndexedByInv(c: Crypto, e: Embedder, s: State)
    requires Inv(c, e, s)
    ensures Indexed(e, s.store)
  {
  }

  lemma SameIsNotOlder(r: SignedRecord)
    ensures NotOlder(r, r)
  {
    assert r == r.WithLease(r.payload.lease);
  }

  lemma NotOlderTransitive(a: SignedRecord, b: SignedRecord, c: SignedRecord)
    requires NotOlder(a, b) && NotOlder(b, c)
    ensures NotOlder(a, c)
  {
    assert c.WithLease(b.payload.lease).WithLease(a.payload.lease) == c.WithLease(a.payload.lease);
  }

  // ----- Revocation -----

  /** The key is revoked and does not sign the entry of this id. */
  predicate KeyIsOut(s: State, id: Blob, key: Blob) {
    key in s.revoked && (id in s.store ==> s.store[id].record.signer != key)
  }

  lemma ApplyKeepsKeyOut(c: Crypto, e: Embedder, s: State, op: Op, id: Blob, key: Blob)
    requires KeyIsOut(s, id, key)
    ensures KeyIsOut(Apply(c, e, s, op), id, key)
  {
    hide VerifyRecord, RevocationSigned, LeaseExpired, Embeddings;
    match op
    case Register(r, now) =>
      if VerifyRecord(c, r, now, s.revoked).Ok? {
        VerifiesWithoutRevocations(c, r, now, s.revoked);
      }
    case _ =>
  }

  lemma {:induction false} RunKeepsKeyOut(c: Crypto, e: Embedder, s: State, ops: seq<Op>, id: Blob, key: Blob)
    requires KeyIsOut(s, id, key)
    ensures KeyIsOut(Run(c, e, s, ops), id, key)
    decreases |ops|
  {
    hide KeyIsOut, Apply;
    if ops != [] {
      ApplyKeepsKeyOut(c, e, s, ops[0], id, key);
      RunKeepsKeyOut(c, e, Apply(c, e, s, ops[0]), ops[1..], id, key);
    }
  }

  /** A key revoked through an id never again signs the record stored for that id. */
  lemma RevokedKeyStaysOut(c: Crypto, e: Embedder, s: State, id: Blob, r: Revocation, after: seq<Op>)
    requires Revoked(c, s, id, r).0.Ok?
    ensures KeyIsOut(Run(c, e, Apply(c, e, s, Revoke(id, r)), after), id, r.workingPub)
  {
    hide RevocationSigned;
    RunKeepsKeyOut(c, e, Apply(c, e, s, Revoke(id, r)), after, id, r.workingPub);
  }

  /** Another id's record keeps its revoked signer: revocation drops only the entry it names. */
  lemma OtherEntriesSurviveRevocation(c: Crypto, s: State, id: Blob, other: Blob, r: Revocation)
    requires Revoked(c, s, id, r).0.Ok? && other in s.store && other != id
    ensures other in Revoked(c, s, id, r).1.store && Revoked(c, s, id, r).1.store[other] == s.store[other]
  {
    hide RevocationSigned;
  }

  // ----- Sweeping -----

  /** A sweep is invisible to readers at its time and later. */
  lemma SweepIsInvisible(s: State, now: nat, later: nat, id: Blob, need: Need)
    requires now <= later
    ensures Resolved(Swept(s, now), id, later) == Resolved(s, id, later)
    ensures Candidates(Swept(s, now).store, need, later) == Candidates(s.store, need, later)
    ensures PublicRecords(Swept(s, now).store, later) == PublicRecords(s.store, later)
  {
    hide KindMatches, TagsMatch;
    var swept := Swept(s, now).store;
    forall r ensures r in Candidates(swept, need, later) <==> r in Candidates(s.store, need, later) {
      if r in Candidates(s.store, need, later) {
        var i :| i in s.store && Matches(s.store[i].record, need, later) && s.store[i].record == r;
        assert i in swept;
      }
    }
    forall r ensures r in PublicRecords(swept, later) <==> r in PublicRecords(s.store, later) {
      if r in PublicRecords(s.store, later) {
        var i :| i in s.store && s.store[i].record == r && !LeaseExpired(r, later) && r.payload.visibility.Public?;
        assert i in swept;
      }
    }
  }

  /** So a search after a sweep ranks the same scores. */
  lemma SweepKeepsSearchScores(
    e: Embedder, s: State, now: nat, later: nat, need: Need, before: seq<SignedRecord>, after: seq<SignedRecord>)
    requires now <= later
    requires Best(Candidates(s.store, need, later), ScoreFor(e, need.intent), need.topK, before)
    requires Best(Candidates(Swept(s, now).store, need, later), ScoreFor(e, need.intent), need.topK, after)
    ensures Scores(before, ScoreFor(e, need.intent)) == Scores(after, ScoreFor(e, need.intent))
  {
    hide Best, Candidates, Swept, ScoreFor;
    SweepIsInvisible(s, now, later, [], need);
    BestScoresUnique(Candidates(s.store, need, later), ScoreFor(e, need.intent), need.topK, before, after);
  }
}
