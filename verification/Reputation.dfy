/** Reputation from recorded outcomes and from attestations weighted by the attester's own outcomes, over the reals. */
module Reputation {
  import opened Bytes

  type Id = ByteString

  datatype Tally = Tally(successes: nat, failures: nat)

  /** A verified attestation, without the claim, the time and the signature, which the ledger never reads. */
  datatype Attestation = Attestation(subject: Id, attester: Id, score: real)

  datatype Ledger = Ledger(outcomes: map<Id, Tally>, attestations: seq<Attestation>)

  datatype Event = Outcome(id: Id, success: bool) | Attested(attestation: Attestation)

  const EMPTY := Ledger(map[], [])

  // ----- What the ledger says -----

  function TallyOf(outcomes: map<Id, Tally>, id: Id): Tally {
    if id in outcomes then outcomes[id] else Tally(0, 0)
  }

  function Observations(outcomes: map<Id, Tally>, id: Id): nat {
    TallyOf(outcomes, id).successes + TallyOf(outcomes, id).failures
  }

  /** The rate of successes; zero exactly without one. */
  function OutcomeScore(outcomes: map<Id, Tally>, id: Id): (score: real)
    ensures 0.0 <= score <= 1.0
    ensures score == 0.0 <==> TallyOf(outcomes, id).successes == 0
  {
    var t := TallyOf(outcomes, id);
    if t.successes + t.failures == 0 then 0.0 else
    Quotient(t.successes as real, (t.successes + t.failures) as real);
    t.successes as real / (t.successes + t.failures) as real
  }

  lemma Quotient(num: real, den: real)
    requires 0.0 <= num <= den && den > 0.0
    ensures 0.0 <= num / den <= 1.0
    ensures num / den == 0.0 <==> num == 0.0
  {
    assert (num / den) * den == num;
  }

  function Weight(outcomes: map<Id, Tally>, a: Attestation, subject: Id): (w: real)
    ensures 0.0 <= w <= 1.0
  {
    if a.subject == subject then OutcomeScore(outcomes, a.attester) else 0.0
  }

  function Vouch(outcomes: map<Id, Tally>, a: Attestation, subject: Id): real {
    Times(Weight(outcomes, a, subject), a.score)
  }

  function Times(x: real, y: real): real {
    x * y
  }

  function WeightSum(outcomes: map<Id, Tally>, s: seq<Attestation>, subject: Id): (sum: real)
    ensures sum >= 0.0
  {
    if s == [] then 0.0 else
    WeightSum(outcomes, s[..|s| - 1], subject) + Weight(outcomes, s[|s| - 1], subject)
  }

  function ScoreSum(outcomes: map<Id, Tally>, s: seq<Attestation>, subject: Id): real {
    if s == [] then 0.0 else
    ScoreSum(outcomes, s[..|s| - 1], subject) + Vouch(outcomes, s[|s| - 1], subject)
  }

  function Average(num: real, den: real): real {
    if den > 0.0 then num / den else 0.0
  }

  /** The average of the scores, weighted by the attesters' standing. */
  function Vouched(outcomes: map<Id, Tally>, s: seq<Attestation>, subject: Id): real {
    Average(ScoreSum(outcomes, s, subject), WeightSum(outcomes, s, subject))
  }

  function Blend(observed: bool, vouchedFor: bool, direct: real, vouched: real): real {
    if observed then if vouchedFor then 0.5 * direct + 0.5 * vouched else direct
    else if vouchedFor then vouched else 0.0
  }

  function ReputationOf(l: Ledger, id: Id): real {
    Blend(Observations(l.outcomes, id) > 0, WeightSum(l.outcomes, l.attestations, id) > 0.0,
      OutcomeScore(l.outcomes, id), Vouched(l.outcomes, l.attestations, id))
  }

  /** What speaks for a reputation: a track record, vouches that carry weight. */
  function Signals(l: Ledger, id: Id): seq<real> {
    (if Observations(l.outcomes, id) > 0 then [OutcomeScore(l.outcomes, id)] else [])
    + (if WeightSum(l.outcomes, l.attestations, id) > 0.0 then [Vouched(l.outcomes, l.attestations, id)] else [])
  }

  /** A reputation is the mean of the signals there are, and the vouched one is the weighted mean of the scores. */
  lemma ReputationIsMeanOfSignals(l: Ledger, id: Id)
    ensures
      var signals, reputation := Signals(l, id), ReputationOf(l, id);
      && (signals == [] ==> reputation == 0.0)
      && (|signals| == 1 ==> reputation == signals[0])
      && (|signals| == 2 ==> reputation + reputation == signals[0] + signals[1])
    ensures
      var weight := WeightSum(l.outcomes, l.attestations, id);
      weight > 0.0 ==>
        Times(Vouched(l.outcomes, l.attestations, id), weight) == ScoreSum(l.outcomes, l.attestations, id)
  {
    hide WeightSum, ScoreSum, OutcomeScore;
    var num, den := ScoreSum(l.outcomes, l.attestations, id), WeightSum(l.outcomes, l.attestations, id);
    if den > 0.0 {
      assert (num / den) * den == num;
    }
  }

  // ----- The ledger object -----

  function Recorded(l: Ledger, e: Event): Ledger {
    match e
    case Outcome(id, success) =>
      var t := TallyOf(l.outcomes, id);
      var next := if success then t.(successes := t.successes + 1) else t.(failures := t.failures + 1);
      l.(outcomes := l.outcomes[id := next])
    case Attested(a) => l.(attestations := l.attestations + [a])
  }

  class ReputationLedger {
    var outcomes: map<Id, Tally>
    var attestations: seq<Attestation>

    constructor ()
      ensures Now() == EMPTY
    {
      outcomes, attestations := map[], [];
    }

    ghost function Now(): Ledger
      reads this
    {
      Ledger(outcomes, attestations)
    }

    method RecordOutcome(id: Id, success: bool)
      modifies this`outcomes
      ensures Now() == Recorded(old(Now()), Outcome(id, success))
    {
      var entry := if id in outcomes then outcomes[id] else Tally(0, 0);
      if success {
        entry := entry.(successes := entry.successes + 1);
      } else {
        entry := entry.(failures := entry.failures + 1);
      }
      outcomes := outcomes[id := entry];
    }

    method AddAttestation(a: Attestation)
      modifies this`attestations
      ensures Now() == Recorded(old(Now()), Attested(a))
    {
      attestations := attestations + [a];
    }

    method Reputation(id: Id) returns (reputation: real)
      ensures reputation == ReputationOf(Now(), id)
    {
      hide OutcomeScore, WeightSum, ScoreSum;
      var direct := OutcomeScore(outcomes, id);
      var num, den := 0.0, 0.0;
      NoSums(outcomes, id);
      for i := 0 to |attestations|
        invariant num == ScoreSum(outcomes, attestations[..i], id)
        invariant den == WeightSum(outcomes, attestations[..i], id)
      {
        var a := attestations[i];
        if a.subject == id {
          var weight := OutcomeScore(outcomes, a.attester);
          num := num + weight * a.score;
          den := den + weight;
        }
        NextSums(outcomes, attestations, id, i);
      }
      assert attestations[..|attestations|] == attestations;
      var vouched := if den > 0.0 then num / den else 0.0;
      match (Observations(outcomes, id) > 0, den > 0.0)
      case (true, true) => return 0.5 * direct + 0.5 * vouched;
      case (true, false) => return direct;
      case (false, true) => return vouched;
      case (false, false) => return 0.0;
    }
  }

  lemma NoSums(outcomes: map<Id, Tally>, id: Id)
    ensures ScoreSum(outcomes, [], id) == 0.0 && WeightSum(outcomes, [], id) == 0.0
  {
  }

  lemma NextSums(outcomes: map<Id, Tally>, s: seq<Attestation>, id: Id, i: nat)
    requires i < |s|
    ensures ScoreSum(outcomes, s[..i + 1], id)
      == ScoreSum(outcomes, s[..i], id) + Vouch(outcomes, s[i], id)
    ensures WeightSum(outcomes, s[..i + 1], id) == WeightSum(outcomes, s[..i], id) + Weight(outcomes, s[i], id)
  {
    assert s[..i + 1][..i] == s[..i];
  }

  // ----- Every reachable ledger -----

  function Run(events: seq<Event>): Ledger {
    if events == [] then EMPTY else Recorded(Run(events[..|events| - 1]), events[|events| - 1])
  }

  ghost predicate Fair(a: Attestation) {
    0.0 <= a.score <= 1.0
  }

  lemma {:induction false} ScoreSumBounds(outcomes: map<Id, Tally>, s: seq<Attestation>, id: Id)
    requires forall a | a in s :: Fair(a)
    ensures 0.0 <= ScoreSum(outcomes, s, id) <= WeightSum(outcomes, s, id)
  {
    hide Weight, Vouch;
    if s != [] {
      var before, last := s[..|s| - 1], s[|s| - 1];
      ScoreSumBounds(outcomes, before, id);
      VouchBounds(outcomes, last, id);
    }
  }

  lemma VouchBounds(outcomes: map<Id, Tally>, a: Attestation, id: Id)
    requires Fair(a)
    ensures 0.0 <= Vouch(outcomes, a, id) <= Weight(outcomes, a, id)
  {
    hide Weight, Times;
    Scaled(Weight(outcomes, a, id), a.score);
  }

  lemma Scaled(w: real, score: real)
    requires 0.0 <= w && 0.0 <= score <= 1.0
    ensures 0.0 <= Times(w, score) <= w
  {
  }

  lemma {:induction false} RunKeepsAttestations(events: seq<Event>)
    ensures forall a | a in Run(events).attestations :: Attested(a) in events
  {
    if events != [] {
      RunKeepsAttestations(events[..|events| - 1]);
    }
  }

  /** With every attested score between 0 and 1, so is every reputation, after any run. */
  lemma ReputationInUnitInterval(events: seq<Event>, id: Id)
    requires forall e | e in events && e.Attested? :: Fair(e.attestation)
    ensures 0.0 <= ReputationOf(Run(events), id) <= 1.0
  {
    hide ScoreSum, OutcomeScore;
    RunKeepsAttestations(events);
    var l := Run(events);
    forall a | a in l.attestations ensures Fair(a) {
      assert Attested(a) in events;
    }
    ScoreSumBounds(l.outcomes, l.attestations, id);
    if WeightSum(l.outcomes, l.attestations, id) > 0.0 {
      Quotient(ScoreSum(l.outcomes, l.attestations, id), WeightSum(l.outcomes, l.attestations, id));
    }
  }

  // ----- Order -----

  lemma {:induction false} SumsOfConcat(outcomes: map<Id, Tally>, a: seq<Attestation>, b: seq<Attestation>, id: Id)
    ensures WeightSum(outcomes, a + b, id) == WeightSum(outcomes, a, id) + WeightSum(outcomes, b, id)
    ensures ScoreSum(outcomes, a + b, id) == ScoreSum(outcomes, a, id) + ScoreSum(outcomes, b, id)
  {
    hide Weight, Vouch;
    if b == [] {
      assert a + b == a;
    } else {
      assert (a + b)[..|a + b| - 1] == a + b[..|b| - 1];
      SumsOfConcat(outcomes, a, b[..|b| - 1], id);
    }
  }

  lemma Without(s: seq<Attestation>, j: nat)
    requires j < |s|
    ensures multiset(s[..j] + s[j + 1..]) == multiset(s) - multiset{s[j]}
  {
    assert s == s[..j] + [s[j]] + s[j + 1..];
  }

  lemma {:induction false} SumsIgnoreOrder(outcomes: map<Id, Tally>, a: seq<Attestation>, b: seq<Attestation>, id: Id)
    requires multiset(a) == multiset(b)
    ensures WeightSum(outcomes, a, id) == WeightSum(outcomes, b, id)
    ensures ScoreSum(outcomes, a, id) == ScoreSum(outcomes, b, id)
  {
    hide WeightSum, ScoreSum;
    if a == [] {
      assert |multiset(b)| == |b|;
    } else {
      var before, last := a[..|a| - 1], a[|a| - 1];
      assert a == before + [last];
      assert last in multiset(b);
      var j :| 0 <= j < |b| && b[j] == last;
      assert b == b[..j] + ([last] + b[j + 1..]);
      Without(b, j);
      assert multiset(a) == multiset(before) + multiset{last};
      SumsIgnoreOrder(outcomes, before, b[..j] + b[j + 1..], id);
      SumsOfConcat(outcomes, before, [last], id);
      SumsOfConcat(outcomes, b[..j], b[j + 1..], id);
      SumsOfConcat(outcomes, b[..j], [last] + b[j + 1..], id);
      SumsOfConcat(outcomes, [last], b[j + 1..], id);
    }
  }

  lemma RecordedCounts(l: Ledger, e: Event, id: Id, a: Attestation)
    ensures
      var next, t := Recorded(l, e), TallyOf(l.outcomes, id);
      && TallyOf(next.outcomes, id)
           == (if e == Outcome(id, true) then Tally(t.successes + 1, t.failures)
               else if e == Outcome(id, false) then Tally(t.successes, t.failures + 1)
               else t)
      && multiset(next.attestations)[a] == multiset(l.attestations)[a] + if e == Attested(a) then 1 else 0
  {
  }

  /** The tallies and the attestations of a run count its events. */
  lemma {:induction false} RunCountsEvents(events: seq<Event>, id: Id, a: Attestation)
    ensures
      var counts, l := multiset(events), Run(events);
      && TallyOf(l.outcomes, id) == Tally(counts[Outcome(id, true)], counts[Outcome(id, false)])
      && multiset(l.attestations)[a] == counts[Attested(a)]
  {
    hide Recorded;
    if events != [] {
      var before, last := events[..|events| - 1], events[|events| - 1];
      RunCountsEvents(before, id, a);
      assert multiset(events) == multiset(before) + multiset{last} by { assert events == before + [last]; }
      RecordedCounts(Run(before), last, id, a);
    }
  }

  lemma {:induction false} SameTalliesSameSums(
    x: map<Id, Tally>, y: map<Id, Tally>, s: seq<Attestation>, id: Id)
    requires forall i :: TallyOf(x, i) == TallyOf(y, i)
    ensures WeightSum(x, s, id) == WeightSum(y, s, id) && ScoreSum(x, s, id) == ScoreSum(y, s, id)
  {
    hide TallyOf;
    if s != [] {
      assert TallyOf(x, s[|s| - 1].attester) == TallyOf(y, s[|s| - 1].attester);
      SameTalliesSameSums(x, y, s[..|s| - 1], id);
    }
  }

  /** Reputations depend on which outcomes and attestations happened and how often, not on their order. */
  lemma ReputationIgnoresOrder(events: seq<Event>, other: seq<Event>, id: Id)
    requires multiset(events) == multiset(other)
    ensures ReputationOf(Run(events), id) == ReputationOf(Run(other), id)
  {
    hide TallyOf, WeightSum, ScoreSum, Run;
    var a, b := Run(events), Run(other);
    forall i ensures TallyOf(a.outcomes, i) == TallyOf(b.outcomes, i) {
      RunCountsEvents(events, i, Attestation([], [], 0.0));
      RunCountsEvents(other, i, Attestation([], [], 0.0));
    }
    forall v ensures multiset(a.attestations)[v] == multiset(b.attestations)[v] {
      RunCountsEvents(events, [], v);
      RunCountsEvents(other, [], v);
    }
    assert multiset(a.attestations) == multiset(b.attestations);
    SameTalliesSameSums(a.outcomes, b.outcomes, a.attestations, id);
    SumsIgnoreOrder(b.outcomes, a.attestations, b.attestations, id);
  }

  // ----- Attesters without standing -----

  lemma {:induction false} WeightlessSums(outcomes: map<Id, Tally>, swarm: seq<Attestation>, id: Id)
    requires forall a | a in swarm :: TallyOf(outcomes, a.attester).successes == 0
    ensures WeightSum(outcomes, swarm, id) == 0.0 && ScoreSum(outcomes, swarm, id) == 0.0
  {
    if swarm != [] {
      WeightlessSums(outcomes, swarm[..|swarm| - 1], id);
    }
  }

  /** Any number of attestations, of any score, by attesters without a successful outcome changes no reputation. */
  lemma SwarmChangesNothing(l: Ledger, swarm: seq<Attestation>, id: Id)
    requires forall a | a in swarm :: TallyOf(l.outcomes, a.attester).successes == 0
    ensures ReputationOf(l.(attestations := l.attestations + swarm), id) == ReputationOf(l, id)
  {
    hide WeightSum, ScoreSum, OutcomeScore;
    WeightlessSums(l.outcomes, swarm, id);
    SumsOfConcat(l.outcomes, l.attestations, swarm, id);
  }

  /** One more attestation leaves a reputation as it was exactly when it is about someone else, carries no weight, or
      gives the score the subject has: what it is vouched for already, or else its own rate of success. */
  lemma AttestationChangesNothingIff(l: Ledger, a: Attestation, id: Id)
    ensures
      var vouchedFor := WeightSum(l.outcomes, l.attestations, id) > 0.0;
      ReputationOf(Recorded(l, Attested(a)), id) == ReputationOf(l, id)
      <==>
      || a.subject != id
      || TallyOf(l.outcomes, a.attester).successes == 0
      || a.score == if vouchedFor then Vouched(l.outcomes, l.attestations, id) else OutcomeScore(l.outcomes, id)
  {
    hide WeightSum, ScoreSum, OutcomeScore, Average, Blend;
    var observed, direct := Observations(l.outcomes, id) > 0, OutcomeScore(l.outcomes, id);
    var num, den := ScoreSum(l.outcomes, l.attestations, id), WeightSum(l.outcomes, l.attestations, id);
    var w := Weight(l.outcomes, a, id);
    SumsOfConcat(l.outcomes, l.attestations, [a], id);
    OneSum(l.outcomes, a, id);
    if den == 0.0 {
      ScoreSumWithoutWeight(l.outcomes, l.attestations, id);
    }
    BlendMovesIff(observed, direct, num, den, w, a.score);
  }

  lemma BlendMovesIff(observed: bool, direct: real, num: real, den: real, w: real, score: real)
    requires den >= 0.0 && w >= 0.0 && (den == 0.0 ==> num == 0.0) && (!observed ==> direct == 0.0)
    ensures
      Blend(observed, den + w > 0.0, direct, Average(num + Times(w, score), den + w))
        == Blend(observed, den > 0.0, direct, Average(num, den))
      <==> w == 0.0 || score == if den > 0.0 then Average(num, den) else direct
  {
    if w > 0.0 {
      if den > 0.0 {
        MovesAverageIff(num, den, w, score);
      } else {
        QuotientIs(Times(w, score), w, score);
      }
    }
  }

  lemma OneSum(outcomes: map<Id, Tally>, a: Attestation, id: Id)
    ensures WeightSum(outcomes, [a], id) == Weight(outcomes, a, id)
    ensures ScoreSum(outcomes, [a], id) == Times(Weight(outcomes, a, id), a.score)
  {
    assert [a][..0] == [];
  }

  lemma MovesAverageIff(num: real, den: real, w: real, score: real)
    requires den > 0.0 && w > 0.0
    ensures (num + Times(w, score)) / (den + w) == num / den <==> score == num / den
  {
    var q := num / den;
    assert q * den == num;
    QuotientIs(num + w * score, den + w, q);
    assert q * (den + w) == q * den + q * w;
    SameFactor(w, score, q);
  }

  lemma QuotientIs(num: real, den: real, q: real)
    requires den > 0.0
    ensures num / den == q <==> num == q * den
  {
    assert (num / den) * den == num;
    assert (q * den) / den == q;
  }

  lemma SameFactor(w: real, a: real, b: real)
    requires w > 0.0
    ensures w * a == w * b <==> a == b
  {
    assert w * a - w * b == w * (a - b);
  }

  lemma {:induction false} ScoreSumWithoutWeight(outcomes: map<Id, Tally>, s: seq<Attestation>, id: Id)
    requires WeightSum(outcomes, s, id) == 0.0
    ensures ScoreSum(outcomes, s, id) == 0.0
  {
    if s != [] {
      ScoreSumWithoutWeight(outcomes, s[..|s| - 1], id);
    }
  }

  // ----- Reputations as a formula over the events -----

  /** The share of the successes among the outcomes of `id` that happened. */
  function Rate(happened: multiset<Event>, id: Id): real {
    var successes, failures := happened[Outcome(id, true)], happened[Outcome(id, false)];
    if successes + failures == 0 then 0.0 else successes as real / (successes + failures) as real
  }

  /** The attesters' rates for everything said about `id`: added up, and added up each times the score given. */
  function Said(happened: multiset<Event>, events: seq<Event>, id: Id): (r: (real, real)) {
    if events == [] then (0.0, 0.0) else
    var (rates, scores) := Said(happened, events[..|events| - 1], id);
    match events[|events| - 1]
    case Outcome(_, _) => (rates, scores)
    case Attested(a) =>
      if a.subject != id then (rates, scores)
      else (rates + Rate(happened, a.attester), scores + Times(Rate(happened, a.attester), a.score))
  }

  lemma ScoreIsRate(events: seq<Event>, id: Id)
    ensures OutcomeScore(Run(events).outcomes, id) == Rate(multiset(events), id)
    ensures Observations(Run(events).outcomes, id) > 0 <==> Outcome(id, true) in events || Outcome(id, false) in events
  {
    RunCountsEvents(events, id, Attestation([], [], 0.0));
    assert forall e :: e in events <==> e in multiset(events);
  }

  lemma {:induction false} SumsAreSaid(events: seq<Event>, part: seq<Event>, id: Id)
    ensures
      var outcomes := Run(events).outcomes;
      Said(multiset(events), part, id)
        == (WeightSum(outcomes, Run(part).attestations, id), ScoreSum(outcomes, Run(part).attestations, id))
    decreases |part|
  {
    hide OutcomeScore, Rate, Times, WeightSum, ScoreSum;
    if part == [] {
      NoSums(Run(events).outcomes, id);
    } else {
      var before, last := part[..|part| - 1], part[|part| - 1];
      SumsAreSaid(events, before, id);
      if last.Attested? {
        ScoreIsRate(events, last.attestation.attester);
        ZeroTimes(last.attestation.score);
        SumsOfConcat(Run(events).outcomes, Run(before).attestations, [last.attestation], id);
        OneSum(Run(events).outcomes, last.attestation, id);
      }
    }
  }

  lemma ZeroTimes(x: real)
    ensures Times(0.0, x) == 0.0
  {
  }

  /** After any run a reputation is the mean of two shares: the successes among the id's own outcomes, and the scores
      it was given, each counted as much as its attester's own share of successes. What is missing is left out. */
  lemma ReputationFormula(events: seq<Event>, id: Id)
    ensures
      var (rates, scores) := Said(multiset(events), events, id);
      var own := Rate(multiset(events), id);
      var observed := Outcome(id, true) in events || Outcome(id, false) in events;
      ReputationOf(Run(events), id) ==
        if observed && rates > 0.0 then (own + scores / rates) / 2.0
        else if observed then own
        else if rates > 0.0 then scores / rates
        else 0.0
  {
    hide OutcomeScore, Rate, Said, WeightSum, ScoreSum, Observations;
    ScoreIsRate(events, id);
    SumsAreSaid(events, events, id);
  }
}
