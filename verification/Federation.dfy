/** Federated discovery over registries: peer selection, scatter-gather with verification and merging, and a
    resolve cache with expiry. */
module Federation {
  import opened Wrappers
  import opened Bytes
  import opened Collections
  import opened Cbor
  import opened Fields
  import opened Identity
  import opened Records
  import opened Sorting
  import opened TopK
  import opened Registry

  const DEFAULT_TTL: U64 := 300

  /** A record in the cache and when it expires. */
  datatype Cached = Cached(record: SignedRecord, expires: U64)

  /** A peer's reply that was verified and cached: which id was asked for, the record, and when. */
  datatype Fetch = Fetch(id: Blob, record: SignedRecord, at: U64)

  function Ttl(r: SignedRecord): U64 {
    if r.payload.lease.Some? then r.payload.lease.value.ttl else DEFAULT_TTL
  }

  // ----- Merging -----

  predicate Verified(c: Crypto, r: SignedRecord, now: U64) {
    VerifyRecord(c, r, now, {}).Ok?
  }

  /** The merge of one more record: unverifiable ones are skipped, a higher version replaces a lower one. */
  function Merge(c: Crypto, best: map<Blob, SignedRecord>, r: SignedRecord, now: U64): map<Blob, SignedRecord> {
    if !Verified(c, r, now) then best
    else if r.Id() in best && best[r.Id()].payload.version >= r.payload.version then best
    else best[r.Id() := r]
  }

  function MergeAll(c: Crypto, best: map<Blob, SignedRecord>, records: seq<SignedRecord>, now: U64)
    : map<Blob, SignedRecord>
  {
    if records == [] then best else
    Merge(c, MergeAll(c, best, records[..|records| - 1], now), records[|records| - 1], now)
  }

  function Concat(parts: seq<seq<SignedRecord>>): seq<SignedRecord> {
    if parts == [] then [] else Concat(parts[..|parts| - 1]) + parts[|parts| - 1]
  }

  /** `best` keeps, for exactly the ids offered with a verifiable record, such a record of the highest version. */
  ghost predicate HighestVersions(c: Crypto, offered: seq<SignedRecord>, now: U64, best: map<Blob, SignedRecord>) {
    && (forall id | id in best :: best[id] in offered && Verified(c, best[id], now) && best[id].Id() == id)
    && (forall r | r in offered && Verified(c, r, now) ::
          r.Id() in best && best[r.Id()].payload.version >= r.payload.version)
  }

  lemma {:induction false} MergeKeepsHighest(c: Crypto, offered: seq<SignedRecord>, now: U64)
    ensures HighestVersions(c, offered, now, MergeAll(c, map[], offered, now))
  {
    hide Verified;
    if offered != [] {
      var before, last := offered[..|offered| - 1], offered[|offered| - 1];
      MergeKeepsHighest(c, before, now);
      assert offered == before + [last];
    }
  }

  /** Of the verifiable records offered for an id the merge keeps the first of those with the highest version. */
  ghost predicate KeepsFirst(c: Crypto, offered: seq<SignedRecord>, now: U64, best: map<Blob, SignedRecord>) {
    forall id | id in best :: exists i | 0 <= i < |offered| ::
      && best[id] == offered[i]
      && forall j | 0 <= j < i && offered[j].payload.id == id && Verified(c, offered[j], now) ::
           offered[j].payload.version < offered[i].payload.version
  }

  lemma {:induction false} MergeKeepsFirst(c: Crypto, offered: seq<SignedRecord>, now: U64)
    ensures KeepsFirst(c, offered, now, MergeAll(c, map[], offered, now))
  {
    hide Verified;
    if offered != [] {
      var before, last := offered[..|offered| - 1], offered[|offered| - 1];
      MergeKeepsFirst(c, before, now);
      MergeKeepsHighest(c, before, now);
      assert offered == before + [last];
      var best := MergeAll(c, map[], offered, now);
      forall id | id in best
        ensures exists i | 0 <= i < |offered| ::
          && best[id] == offered[i]
          && forall j | 0 <= j < i && offered[j].payload.id == id && Verified(c, offered[j], now) ::
               offered[j].payload.version < offered[i].payload.version
      {
        MergedFirst(c, before, last, now, id);
      }
    }
  }

  lemma MergedFirst(c: Crypto, before: seq<SignedRecord>, last: SignedRecord, now: U64, id: Blob)
    requires KeepsFirst(c, before, now, MergeAll(c, map[], before, now))
    requires HighestVersions(c, before, now, MergeAll(c, map[], before, now))
    requires id in Merge(c, MergeAll(c, map[], before, now), last, now)
    ensures
      var offered, best := before + [last], Merge(c, MergeAll(c, map[], before, now), last, now);
      exists i | 0 <= i < |offered| ::
        && best[id] == offered[i]
        && forall j | 0 <= j < i && offered[j].payload.id == id && Verified(c, offered[j], now) ::
             offered[j].payload.version < offered[i].payload.version
  {
    hide Verified, MergeAll;
    var offered := before + [last];
    var earlier := MergeAll(c, map[], before, now);
    var best := Merge(c, earlier, last, now);
    if id in earlier && best[id] == earlier[id] {
      var i :| 0 <= i < |before| && earlier[id] == before[i]
        && forall j | 0 <= j < i && before[j].payload.id == id && Verified(c, before[j], now) ::
             before[j].payload.version < before[i].payload.version;
      assert offered[i] == before[i];
    } else {
      assert offered[|before|] == last;
    }
  }

  lemma FiledUnderOwnId(c: Crypto, offered: seq<SignedRecord>, now: U64, best: map<Blob, SignedRecord>)
    requires HighestVersions(c, offered, now, best)
    ensures forall id | id in best :: best[id].Id() == id
  {
  }

  lemma {:induction false} MergeConcat(
    c: Crypto, best: map<Blob, SignedRecord>, a: seq<SignedRecord>, b: seq<SignedRecord>, now: U64)
    ensures MergeAll(c, best, a + b, now) == MergeAll(c, MergeAll(c, best, a, now), b, now)
  {
    hide Merge;
    if b == [] {
      assert a + b == a;
    } else {
      var before := b[..|b| - 1];
      assert (a + b)[..|a + b| - 1] == a + before;
      MergeConcat(c, best, a, before, now);
    }
  }

  // ----- The federation object -----

  /** `n` peers, at most `max` of them, the best centroids first. */
  function Selected(e: Embedder, centroids: seq<Vector>, intent: Label, max: nat): seq<nat> {
    Take(Ranked(Upto(|centroids|), CentroidScore(e, centroids, intent)), max)
  }

  function CentroidScore(e: Embedder, centroids: seq<Vector>, intent: Label): nat -> real {
    (i: nat) => if i < |centroids| then e.cosine(e.embed(intent), centroids[i]) else LEAST_SCORE
  }

  function Upto(n: nat): (r: seq<nat>)
    ensures |r| == n && forall i | 0 <= i < n :: r[i] == i
  {
    seq(n, i requires 0 <= i < n => i)
  }

  lemma PickedBeatOthers(e: Embedder, centroids: seq<Vector>, intent: Label, max: nat, picked: seq<nat>)
    requires Best(SetOf(Upto(|centroids|)), CentroidScore(e, centroids, intent), max, picked)
    requires forall k | 0 <= k < |picked| :: picked[k] < |centroids|
    ensures forall i, j: nat | i in picked && j < |centroids| && j !in picked ::
      e.cosine(e.embed(intent), centroids[j]) <= e.cosine(e.embed(intent), centroids[i])
    ensures forall i, j | 0 <= i < j < |picked| ::
      e.cosine(e.embed(intent), centroids[picked[j]]) <= e.cosine(e.embed(intent), centroids[picked[i]])
  {
    var score := CentroidScore(e, centroids, intent);
    forall i, j: nat | i in picked && j < |centroids| && j !in picked ensures score(j) <= score(i) {
      var k :| 0 <= k < |picked| && picked[k] == i;
      assert Upto(|centroids|)[j] == j;
    }
    forall i, j | 0 <= i < j < |picked|
      ensures e.cosine(e.embed(intent), centroids[picked[j]]) <= e.cosine(e.embed(intent), centroids[picked[i]])
    {
      assert score(picked[i]) >= score(picked[j]);
      assert picked[i] in picked && picked[j] in picked;
    }
  }

  /** The selected peers are distinct existing ones; without a limit below their number, all of them. */
  lemma SelectsPeers(e: Embedder, centroids: seq<Vector>, intent: Label, max: nat)
    ensures
      var picked := Selected(e, centroids, intent, max);
      && |picked| == Min(max, |centroids|) && Distinct(picked)
      && (forall k | 0 <= k < |picked| :: picked[k] < |centroids|)
      && Best(SetOf(Upto(|centroids|)), CentroidScore(e, centroids, intent), max, picked)
      && (max >= |centroids| ==> forall i: nat | i < |centroids| :: i in picked)
      && (forall i, j: nat | i in picked && j < |centroids| && j !in picked ::
            e.cosine(e.embed(intent), centroids[j]) <= e.cosine(e.embed(intent), centroids[i]))
      && (forall i, j | 0 <= i < j < |picked| ::
            e.cosine(e.embed(intent), centroids[picked[j]]) <= e.cosine(e.embed(intent), centroids[picked[i]]))
  {
    hide Ranked, Take, CentroidScore;
    var n := |centroids|;
    RankAndTakeIsBest(Upto(n), CentroidScore(e, centroids, intent), max);
    var picked := Selected(e, centroids, intent, max);
    DistinctSize(Upto(n));
    assert forall k | 0 <= k < |picked| :: picked[k] in SetOf(picked);
    assert forall i | i in SetOf(Upto(n)) :: i < n;
    PickedBeatOthers(e, centroids, intent, max, picked);
    if max >= n {
      AllPicked(n, picked);
    }
  }

  /** `n` distinct numbers below `n` are all of them. */
  lemma AllPicked(n: nat, picked: seq<nat>)
    requires Distinct(picked) && |picked| == n && SetOf(picked) <= SetOf(Upto(n))
    ensures forall i: nat | i < n :: i in picked
  {
    DistinctSize(Upto(n));
    DistinctSize(picked);
    SameSizeSubset(SetOf(picked), SetOf(Upto(n)));
    forall i: nat | i < n ensures i in picked {
      assert Upto(n)[i] == i;
      assert i in SetOf(picked);
    }
  }

  type Store = map<Blob, Stored>

  /** Every asked peer replied with a best selection of its own candidates. */
  ghost predicate Replied(
    e: Embedder, stores: seq<Store>, asked: seq<nat>, need: Need, now: U64, offers: seq<seq<SignedRecord>>)
  {
    && |offers| == |asked|
    && forall i | 0 <= i < |asked| ::
         && asked[i] < |stores|
         && Best(Candidates(stores[asked[i]], need, now), ScoreFor(e, need.intent), need.topK, offers[i])
  }

  /** From these offers the merge made `best`, and the results are a best selection of it. */
  ghost predicate FoundIn(
    c: Crypto, e: Embedder, stores: seq<Store>, asked: seq<nat>, need: Need, now: U64,
    offers: seq<seq<SignedRecord>>, best: map<Blob, SignedRecord>, results: seq<SignedRecord>)
  {
    && Replied(e, stores, asked, need, now, offers)
    && HighestVersions(c, Concat(offers), now, best)
    && Best(best.Values, ScoreFor(e, need.intent), need.topK, results)
  }

  /** What a federated search may return: the best of the highest verified versions of what the asked peers offered. */
  ghost predicate Found(
    c: Crypto, e: Embedder, stores: seq<Store>, asked: seq<nat>, need: Need, now: U64, results: seq<SignedRecord>)
  {
    exists offers, best :: FoundIn(c, e, stores, asked, need, now, offers, best, results)
  }

  /** The stores of a federation's peers, in the order they were added. */
  ghost function StoresOf(peers: seq<Node>): (stores: seq<Store>)
    reads peers
    ensures |stores| == |peers| && forall i | 0 <= i < |stores| :: stores[i] == peers[i].store
  {
    seq(|peers|, i requires 0 <= i < |peers| reads peers => peers[i].store)
  }

  class Hub {
    const crypto: Crypto
    const embedder: Embedder
    const maxPeers: nat
    var peers: seq<Node>
    var centroids: seq<Vector>
    var cache: map<Blob, Cached>
    ghost var fetched: set<Fetch>   // every record that was ever cached, and when

    constructor (crypto: Crypto, embedder: Embedder, maxPeers: nat)
      ensures this.crypto == crypto && this.embedder == embedder && this.maxPeers == maxPeers
      ensures peers == [] && cache == map[] && Valid()
    {
      this.crypto, this.embedder, this.maxPeers := crypto, embedder, maxPeers;
      peers, centroids, cache, fetched := [], [], map[], {};
    }

    ghost predicate Valid()
      reads this, peers
    {
      && |centroids| == |peers|
      && (forall p | p in peers :: p.Valid() && p.embedder == embedder && p.crypto == crypto)
      && CacheIsFetched()
    }

    /** Every cache entry is a fetched record that verified then and expires its time to live later. */
    ghost predicate CacheIsFetched()
      reads this`cache, this`fetched
    {
      && (forall id | id in cache :: exists f :: Backs(f, id, cache[id]))
      && (forall f | f in fetched :: Verified(crypto, f.record, f.at))
    }

    ghost predicate Backs(f: Fetch, id: Blob, entry: Cached)
      reads this`fetched
    {
      f in fetched && f.id == id && f.record == entry.record && entry.expires == WrappingAdd(f.at, Ttl(f.record))
    }

    /** The catalog profile's centroid is computed from the peer's public records; here it is given. */
    method AddPeer(peer: Node, centroid: Vector)
      requires Valid() && peer.Valid() && peer.embedder == embedder && peer.crypto == crypto
      modifies this`peers, this`centroids
      ensures Valid()
      ensures peers == old(peers) + [peer] && centroids == old(centroids) + [centroid]
    {
      hide CacheIsFetched, Node.Valid;
      peers := peers + [peer];
      centroids := centroids + [centroid];
    }

    /** Ask the selected peers, keep the verified records with the highest versions, rank and cut them. */
    method Search(need: Need, now: U64) returns (results: seq<SignedRecord>)
      requires Valid()
      ensures
        var picked := Selected(embedder, centroids, need.intent, maxPeers);
        Found(crypto, embedder, StoresOf(peers), picked, need, now, results)
    {
      hide Ranked, VerifyRecord, Best, Candidates, ScoreFor, Selected, Merge, Descending, HighestVersions;
      var picked := Selected(embedder, centroids, need.intent, maxPeers);
      SelectsPeers(embedder, centroids, need.intent, maxPeers);
      var merged: map<Blob, SignedRecord> := map[];
      ghost var offers := [];
      for i := 0 to |picked|
        invariant |offers| == i
        invariant forall k | 0 <= k < i ::
          && picked[k] < |peers|
          && Best(Candidates(peers[picked[k]].store, need, now), ScoreFor(embedder, need.intent), need.topK, offers[k])
        invariant merged == MergeAll(crypto, map[], Concat(offers), now)
      {
        assert picked[i] in picked;
        var records := peers[picked[i]].Search(need, now);
        MergeConcat(crypto, map[], Concat(offers), records, now);
        assert (offers + [records])[..i] == offers;
        merged := MergeRecords(merged, records, now);
        offers := offers + [records];
      }
      MergeKeepsHighest(crypto, Concat(offers), now);
      FiledUnderOwnId(crypto, Concat(offers), now, merged);
      var values := ValuesOf(merged);
      RankAndTakeIsBest(values, ScoreFor(embedder, need.intent), need.topK);
      results := Take(Ranked(values, ScoreFor(embedder, need.intent)), need.topK);
      assert FoundIn(crypto, embedder, StoresOf(peers), picked, need, now, offers, merged, results);
    }

    /** The inner loop of the search: merge one peer's records. */
    method MergeRecords(before: map<Blob, SignedRecord>, records: seq<SignedRecord>, now: U64)
      returns (merged: map<Blob, SignedRecord>)
      ensures merged == MergeAll(crypto, before, records, now)
    {
      hide VerifyRecord;
      merged := before;
      for k := 0 to |records|
        invariant merged == MergeAll(crypto, before, records[..k], now)
      {
        var r := records[k];
        assert records[..k + 1][..k] == records[..k];
        if VerifyRecord(crypto, r, now, {}).Err? {
          continue;
        }
        if r.Id() in merged && merged[r.Id()].payload.version >= r.payload.version {
        } else {
          merged := merged[r.Id() := r];
        }
      }
      assert records[..|records|] == records;
    }

    /** The values of the map, in the order of its iteration. */
    method ValuesOf(m: map<Blob, SignedRecord>) returns (values: seq<SignedRecord>)
      requires forall id | id in m :: m[id].Id() == id
      ensures SetOf(values) == m.Values && Distinct(values)
    {
      var todo := m.Keys;
      values := [];
      while todo != {}
        invariant todo <= m.Keys
        invariant forall r | r in values :: r.Id() in m && r.Id() !in todo && m[r.Id()] == r
        invariant forall id | id in m && id !in todo :: m[id] in values
        invariant Distinct(values)
        decreases todo
      {
        var id :| id in todo;
        todo := todo - {id};
        values := values + [m[id]];
      }
    }

    /** A fresh cache entry answers at once; otherwise the peers are asked in turn, and the first verified record is
        cached for its time to live. */
    method Resolve(id: Blob, now: U64) returns (r: Option<SignedRecord>)
      requires Valid()
      modifies this`cache, this`fetched
      ensures Valid() && old(fetched) <= fetched
      ensures old(IsCached(id, now)) ==>
        r == Some(old(cache)[id].record) && cache == old(cache) && fetched == old(fetched)
      ensures !old(IsCached(id, now)) && r.None? ==>
        && cache == old(cache)
        && forall p | p in peers :: p.Resolve(id, now).Ok? ==> !Verified(crypto, p.Resolve(id, now).value, now)
      ensures !old(IsCached(id, now)) && r.Some? ==>
        && Verified(crypto, r.value, now)
        && (exists p | p in peers :: p.Resolve(id, now) == Ok(r.value))
        && cache == old(cache)[id := Cached(r.value, WrappingAdd(now, Ttl(r.value)))]
        && fetched == old(fetched) + {Fetch(id, r.value, now)}
    {
      hide CacheIsFetched, Verified, Node.Valid;
      if id in cache {
        if cache[id].expires > now {
          return Some(cache[id].record);
        }
      }
      r := AskPeers(id, now);
      if r.Some? {
        Remember(id, r.value, now);
      }
    }

    /** The loop over the peers: the first record that verifies. */
    method AskPeers(id: Blob, now: U64) returns (r: Option<SignedRecord>)
      ensures r.None? ==>
        forall p | p in peers :: p.Resolve(id, now).Ok? ==> !Verified(crypto, p.Resolve(id, now).value, now)
      ensures r.Some? ==> Verified(crypto, r.value, now) && exists p | p in peers :: p.Resolve(id, now) == Ok(r.value)
    {
      hide VerifyRecord, Resolved;
      for i := 0 to |peers|
        invariant forall p | p in peers[..i] ::
          p.Resolve(id, now).Ok? ==> !Verified(crypto, p.Resolve(id, now).value, now)
      {
        var found := peers[i].Resolve(id, now);
        assert peers[..i + 1] == peers[..i] + [peers[i]];
        if found.Ok? && VerifyRecord(crypto, found.value, now, {}).Ok? {
          assert peers[i] in peers;
          return Some(found.value);
        }
      }
      assert peers[..|peers|] == peers;
      return None;
    }

    /** Cache a verified record for its time to live. */
    method Remember(id: Blob, r: SignedRecord, now: U64)
      requires CacheIsFetched() && Verified(crypto, r, now)
      modifies this`cache, this`fetched
      ensures CacheIsFetched()
      ensures cache == old(cache)[id := Cached(r, WrappingAdd(now, Ttl(r)))]
      ensures fetched == old(fetched) + {Fetch(id, r, now)}
    {
      hide Verified;
      cache := cache[id := Cached(r, WrappingAdd(now, Ttl(r)))];
      fetched := fetched + {Fetch(id, r, now)};
      assert Backs(Fetch(id, r, now), id, cache[id]);
      forall other | other in cache ensures exists f :: Backs(f, other, cache[other]) {
        if other != id {
          assert other in old(cache);
          var f :| old(Backs(f, other, cache[other]));
          assert Backs(f, other, cache[other]);
        }
      }
    }

    predicate IsCached(id: Blob, now: U64)
      reads this`cache
    {
      id in cache && cache[id].expires > now
    }

    /** A cache hit is a record that was fetched under this id, verified at that time, and is within its time to
        live since. */
    lemma HitWasVerified(id: Blob, now: U64)
      requires Valid() && IsCached(id, now)
      ensures exists f | f in fetched ::
        && f.id == id && f.record == cache[id].record
        && Verified(crypto, f.record, f.at)
        && now < f.at + (if f.record.payload.lease.Some? then f.record.payload.lease.value.ttl else 300)
    {
      var f :| Backs(f, id, cache[id]);
    }
  }
}
