/** Searching the peers and merging their best `k` loses nothing: the federated search scores as one registry holding
    everything the peers hold. */
module ScatterGather {
  import opened Bytes
  import opened Fields
  import opened Identity
  import opened Records
  import opened TopK
  import opened Registry
  import opened Federation

  /** `union` holds, under each id, the record that every one of the stores with that id holds. */
  ghost predicate IsUnion(stores: seq<Store>, union: Store) {
    && (forall i, id | 0 <= i < |stores| && id in stores[i] ::
          id in union && stores[i][id].record == union[id].record)
    && (forall id | id in union :: exists i | 0 <= i < |stores| :: id in stores[i])
  }

  ghost predicate FiledById(store: Store) {
    forall id | id in store :: store[id].record.Id() == id
  }

  ghost predicate AllVerify(c: Crypto, records: set<SignedRecord>, now: U64) {
    forall r | r in records :: Verified(c, r, now)
  }

  lemma {:induction false} ConcatMembers(parts: seq<seq<SignedRecord>>, r: SignedRecord)
    ensures r in Concat(parts) <==> exists i | 0 <= i < |parts| :: r in parts[i]
  {
    if parts != [] {
      var before := parts[..|parts| - 1];
      ConcatMembers(before, r);
      assert parts == before + [parts[|parts| - 1]];
    }
  }

  /** A peer's candidates are candidates of the union. */
  lemma CandidatesOfUnion(stores: seq<Store>, union: Store, i: nat, need: Need, now: U64)
    requires IsUnion(stores, union) && i < |stores|
    ensures Candidates(stores[i], need, now) <= Candidates(union, need, now)
  {
    hide Matches;
    forall r | r in Candidates(stores[i], need, now) ensures r in Candidates(union, need, now) {
      var id :| id in stores[i] && Matches(stores[i][id].record, need, now) && stores[i][id].record == r;
      assert union[id].record == r;
    }
  }

  /** Every candidate of the union is a candidate of some peer. */
  lemma UnionIsCovered(stores: seq<Store>, union: Store, need: Need, now: U64, r: SignedRecord) returns (i: nat)
    requires IsUnion(stores, union) && r in Candidates(union, need, now)
    ensures i < |stores| && r in Candidates(stores[i], need, now)
  {
    hide Matches;
    var id :| id in union && Matches(union[id].record, need, now) && union[id].record == r;
    i :| 0 <= i < |stores| && id in stores[i];
    assert stores[i][id].record == r;
  }

  /** Candidates with the same id are the same record. */
  lemma SameIdSameRecord(union: Store, need: Need, now: U64, a: SignedRecord, b: SignedRecord)
    requires FiledById(union) && a in Candidates(union, need, now) && b in Candidates(union, need, now)
    requires a.Id() == b.Id()
    ensures a == b
  {
    hide Matches;
  }

  lemma OffersAreCandidates(
    e: Embedder, stores: seq<Store>, union: Store, asked: seq<nat>, need: Need, now: U64,
    offers: seq<seq<SignedRecord>>, i: nat)
    requires IsUnion(stores, union) && Replied(e, stores, asked, need, now, offers) && i < |offers|
    ensures SetOf(offers[i]) <= Candidates(union, need, now)
  {
    hide IsUnion, Candidates, ScoreFor;
    CandidatesOfUnion(stores, union, asked[i], need, now);
  }

  /** The merge keeps candidates only, and each record a peer offers. */
  lemma MergedOffers(
    c: Crypto, e: Embedder, stores: seq<Store>, union: Store, asked: seq<nat>, need: Need, now: U64,
    offers: seq<seq<SignedRecord>>, best: map<Blob, SignedRecord>)
    requires IsUnion(stores, union) && FiledById(union) && Replied(e, stores, asked, need, now, offers)
    requires AllVerify(c, Candidates(union, need, now), now)
    requires HighestVersions(c, Concat(offers), now, best)
    ensures best.Values <= Candidates(union, need, now)
    ensures forall i | 0 <= i < |offers| :: SetOf(offers[i]) <= best.Values
  {
    hide IsUnion, Candidates, Replied, Verified, FiledById, Concat;
    forall r | r in Concat(offers) ensures r in Candidates(union, need, now) {
      ConcatMembers(offers, r);
      var i :| 0 <= i < |offers| && r in offers[i];
      OffersAreCandidates(e, stores, union, asked, need, now, offers, i);
      assert r in SetOf(offers[i]);
    }
    forall i, r | 0 <= i < |offers| && r in SetOf(offers[i]) ensures r in best.Values {
      ConcatMembers(offers, r);
      assert r in Concat(offers);
      SameIdSameRecord(union, need, now, r, best[r.Id()]);
    }
  }

  /** With every peer asked, all candidates of the union are someone's. */
  lemma EveryPeerGathered(
    e: Embedder, stores: seq<Store>, union: Store, asked: seq<nat>, need: Need, now: U64,
    offers: seq<seq<SignedRecord>>, pool: set<SignedRecord>)
    requires IsUnion(stores, union) && Replied(e, stores, asked, need, now, offers)
    requires forall i: nat | i < |stores| :: i in asked
    requires pool <= Candidates(union, need, now)
    requires forall i | 0 <= i < |offers| :: SetOf(offers[i]) <= pool
    ensures Gathers(Candidates(union, need, now), ScoreFor(e, need.intent), need.topK, pool,
      Owned(stores, asked, need, now), offers)
  {
    hide IsUnion, Candidates, ScoreFor, Best;
    var owns := Owned(stores, asked, need, now);
    forall i | 0 <= i < |owns|
      ensures Contributes(Candidates(union, need, now), ScoreFor(e, need.intent), need.topK, pool, owns[i], offers[i])
    {
      CandidatesOfUnion(stores, union, asked[i], need, now);
    }
    forall r | r in Candidates(union, need, now) ensures exists i | 0 <= i < |owns| :: r in owns[i] {
      var peer := UnionIsCovered(stores, union, need, now, r);
      assert peer in asked;
      var i :| 0 <= i < |asked| && asked[i] == peer;
      assert r in owns[i];
    }
  }

  /** The candidates of each asked peer. */
  function Owned(stores: seq<Store>, asked: seq<nat>, need: Need, now: U64): (owns: seq<set<SignedRecord>>)
    requires forall i | 0 <= i < |asked| :: asked[i] < |stores|
    ensures |owns| == |asked| && forall i | 0 <= i < |owns| :: owns[i] == Candidates(stores[asked[i]], need, now)
  {
    seq(|asked|, i requires 0 <= i < |asked| => Candidates(stores[asked[i]], need, now))
  }

  /** With every peer selected, every candidate verifying, and one record per id, the scores of a federated search are
      those of a search of one registry that holds all the peers' records. */
  lemma FederatedScoresAreUnionScores(
    c: Crypto, e: Embedder, centroids: seq<Vector>, maxPeers: nat, stores: seq<Store>, union: Store, need: Need,
    now: U64, federated: seq<SignedRecord>, single: seq<SignedRecord>)
    requires |centroids| == |stores| <= maxPeers
    requires IsUnion(stores, union) && FiledById(union) && AllVerify(c, Candidates(union, need, now), now)
    requires Found(c, e, stores, Selected(e, centroids, need.intent, maxPeers), need, now, federated)
    requires Best(Candidates(union, need, now), ScoreFor(e, need.intent), need.topK, single)
    ensures Scores(federated, ScoreFor(e, need.intent)) == Scores(single, ScoreFor(e, need.intent))
  {
    hide IsUnion, FiledById, AllVerify, Candidates, Best, ScoreFor, Selected, Replied, HighestVersions, Gathers, Concat,
      Scores;
    var asked := Selected(e, centroids, need.intent, maxPeers);
    SelectsPeers(e, centroids, need.intent, maxPeers);
    var offers, best :| FoundIn(c, e, stores, asked, need, now, offers, best, federated);
    MergedOffers(c, e, stores, union, asked, need, now, offers, best);
    RepliesInRange(e, stores, asked, need, now, offers);
    EveryPeerGathered(e, stores, union, asked, need, now, offers, best.Values);
    var cands, score := Candidates(union, need, now), ScoreFor(e, need.intent);
    BestOfPoolIsBestOfAll(cands, score, need.topK, best.Values, Owned(stores, asked, need, now), offers, federated);
    BestScoresUnique(cands, score, need.topK, federated, single);
  }

  lemma RepliesInRange(
    e: Embedder, stores: seq<Store>, asked: seq<nat>, need: Need, now: U64, offers: seq<seq<SignedRecord>>)
    requires Replied(e, stores, asked, need, now, offers)
    ensures |offers| == |asked| && forall i | 0 <= i < |asked| :: asked[i] < |stores|
  {
  }

  /** The same search put to a federation and to one registry with all its records. */
  method SearchBoth(hub: Hub, whole: Node, need: Need, now: U64)
    returns (federated: seq<SignedRecord>, single: seq<SignedRecord>)
    requires hub.Valid() && |hub.peers| <= hub.maxPeers
    requires whole.Valid() && whole.embedder == hub.embedder && IsUnion(StoresOf(hub.peers), whole.store)
    requires AllVerify(hub.crypto, Candidates(whole.store, need, now), now)
    ensures
      Scores(federated, ScoreFor(hub.embedder, need.intent)) == Scores(single, ScoreFor(hub.embedder, need.intent))
  {
    hide IsUnion, AllVerify, Candidates, Best, ScoreFor, Selected, Found, Scores, Verified;
    federated := hub.Search(need, now);
    single := whole.Search(need, now);
    FederatedScoresAreUnionScores(
      hub.crypto, hub.embedder, hub.centroids, hub.maxPeers, StoresOf(hub.peers), whole.store, need, now,
      federated, single);
  }
}
