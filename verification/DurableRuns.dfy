/** One opening of a durable run: a deterministic workflow of step batches over the steps its handle holds, with steps
    finishing in any order and exceptions; and what a log of results means without any failure. */
module DurableRuns {
  import opened Wrappers
  import opened Cbor

  /** Step results and outcomes. */
  type V = Value

  /** What the workflow does next: return, or run `n` steps concurrently (one step is a batch of one). */
  datatype Action = Return(outcome: V) | Gather(n: nat)

  /** A deterministic workflow decides from the results of the batches completed so far. */
  type Program = seq<seq<V>> -> Action

  /** The steps a handle holds, by position, and the state of its workflow. */
  datatype Run = Run(
    log: map<nat, V>,
    live: bool,              // the workflow is in progress
    hist: seq<seq<V>>,       // the results of its completed batches
    base: nat,               // the position counter when the current batch began
    started: nat,            // how many steps of the current batch have begun
    results: map<nat, V>,    // their results so far, by position
    running: set<nat>)       // the positions whose functions are in progress

  datatype Event =
    | Begin                  // the next step of the batch picks its position: replay it or call its function
    | Finish(p: nat, v: V)   // a function returned: record its result
    | Advance                // the batch is complete and the workflow goes on
    | Raise(p: nat)          // a function raised: the workflow ends, its other steps keep running

  const EMPTY: set<nat> := {}

  function Fresh(log: map<nat, V>): Run {
    Run(log, true, [], 0, 0, map[], EMPTY)
  }

  /** One atomic step, or `None` when the event cannot happen. */
  function Apply(prog: Program, s: Run, e: Event): Option<Run> {
    match e
    case Begin =>
      var act := prog(s.hist);
      if !s.live || !act.Gather? || s.started >= act.n then None else
      var p := s.base + s.started;
      if p in s.log then Some(s.(started := s.started + 1, results := s.results[p := s.log[p]]))
      else Some(s.(started := s.started + 1, running := s.running + {p}))
    case Finish(p, v) =>
      if p !in s.running then None else
      Some(s.(
        log := s.log[p := v],
        running := s.running - {p},
        results := if s.live then s.results[p := v] else s.results))
    case Advance =>
      var act := prog(s.hist);
      if !s.live || !act.Gather? || s.started != act.n || !AllDone(s.results, s.base, act.n) then None else
      Some(s.(
        hist := s.hist + [Batch(s.results, s.base, act.n)], base := s.base + act.n, started := 0, results := map[]))
    case Raise(p) =>
      if p !in s.running then None else Some(s.(live := false, running := s.running - {p}))
  }

  predicate AllDone(results: map<nat, V>, base: nat, n: nat) {
    forall p | base <= p < base + n :: p in results
  }

  function Batch(results: map<nat, V>, base: nat, n: nat): (r: seq<V>)
    requires AllDone(results, base, n)
    ensures |r| == n && forall i | 0 <= i < n :: r[i] == results[base + i]
  {
    seq(n, i requires 0 <= i < n => results[base + i])
  }

  function Execute(prog: Program, s: Run, events: seq<Event>): Option<Run>
    decreases |events|
  {
    if events == [] then Some(s) else
    var next := Apply(prog, s, events[0]);
    if next.None? then None else Execute(prog, next.value, events[1..])
  }

  // ----- The crash-free meaning of a log -----

  function Total(hist: seq<seq<V>>): nat {
    if hist == [] then 0 else Total(hist[..|hist| - 1]) + |hist[|hist| - 1]|
  }

  /** `hist` is what the workflow sees when every step returns the logged result of its position. */
  ghost predicate Follows(prog: Program, log: map<nat, V>, hist: seq<seq<V>>) {
    hist == [] ||
    var before, last := hist[..|hist| - 1], hist[|hist| - 1];
    && Follows(prog, log, before)
    && prog(before) == Gather(|last|)
    && Logged(log, Total(before), last)
  }

  /** The log holds the results of `batch` from position `base` on. */
  predicate Logged(log: map<nat, V>, base: nat, batch: seq<V>) {
    forall p | base <= p < base + |batch| :: p in log && log[p] == batch[p - base]
  }

  /** Position `p` belongs to a batch that the workflow reaches on the logged results. */
  ghost predicate OnPath(prog: Program, log: map<nat, V>, p: nat) {
    exists hist :: Follows(prog, log, hist) && WithinNext(prog, hist, p)
  }

  predicate WithinNext(prog: Program, hist: seq<seq<V>>, p: nat) {
    prog(hist).Gather? && Total(hist) <= p < Total(hist) + prog(hist).n
  }

  ghost predicate Extends(small: map<nat, V>, big: map<nat, V>) {
    forall p | p in small :: p in big && big[p] == small[p]
  }

  lemma LoggedGrows(small: map<nat, V>, big: map<nat, V>, base: nat, batch: seq<V>)
    requires Extends(small, big) && Logged(small, base, batch)
    ensures Logged(big, base, batch)
  {
  }

  lemma LoggedIsUnique(log: map<nat, V>, base: nat, a: seq<V>, b: seq<V>)
    requires Logged(log, base, a) && Logged(log, base, b) && |a| == |b|
    ensures a == b
  {
    forall j | 0 <= j < |a| ensures a[j] == b[j] {
      var p := base + j;
      assert p in log;
      assert a[p - base] == log[p] == b[p - base];
    }
  }

  lemma {:induction false} FollowsGrows(prog: Program, small: map<nat, V>, big: map<nat, V>, hist: seq<seq<V>>)
    requires Extends(small, big) && Follows(prog, small, hist)
    ensures Follows(prog, big, hist)
  {
    if hist != [] {
      var before, last := hist[..|hist| - 1], hist[|hist| - 1];
      FollowsGrows(prog, small, big, before);
      LoggedGrows(small, big, Total(before), last);
    }
  }

  /** The path is unique: of two histories on the same log, the shorter one is a prefix of the other. */
  lemma {:induction false} FollowsIsUnique(prog: Program, log: map<nat, V>, a: seq<seq<V>>, b: seq<seq<V>>)
    requires Follows(prog, log, a) && Follows(prog, log, b) && |a| <= |b|
    ensures a == b[..|a|]
    decreases |a| + |b|
  {
    if |a| < |b| {
      var m := |b| - 1;
      FollowsIsUnique(prog, log, a, b[..m]);
      assert b[..m][..|a|] == b[..|a|];
    } else if a != [] {
      var m := |a| - 1;
      FollowsIsUnique(prog, log, a[..m], b[..m]);
      assert b[..m][..m] == b[..m];
      LoggedIsUnique(log, Total(a[..m]), a[m], b[m]);
      assert a == a[..m] + [a[m]] && b == b[..m] + [b[m]];
    }
  }

  lemma {:induction false} TotalGrows(hist: seq<seq<V>>, n: nat)
    requires n <= |hist|
    ensures Total(hist[..n]) <= Total(hist)
  {
    if n < |hist| {
      var before := hist[..|hist| - 1];
      TotalGrows(before, n);
      assert before[..n] == hist[..n];
    } else {
      assert hist[..n] == hist;
    }
  }

  lemma TotalSnoc(hist: seq<seq<V>>, last: seq<V>)
    ensures Total(hist + [last]) == Total(hist) + |last|
  {
    assert (hist + [last])[..|hist|] == hist;
  }

  // ----- What every run keeps -----

  /** The current batch: every begun step is recorded or running. */
  ghost predicate BatchInv(prog: Program, s: Run) {
    && Follows(prog, s.log, s.hist)
    && s.base == Total(s.hist)
    && s.started <= (if prog(s.hist).Gather? then prog(s.hist).n else 0)
    && (forall p | p in s.results :: s.base <= p < s.base + s.started && p in s.log && s.log[p] == s.results[p])
    && (forall p | p in s.running :: s.base <= p < s.base + s.started)
    && (forall p | s.base <= p < s.base + s.started :: p in s.results || p in s.running)
  }

  ghost predicate Inv(prog: Program, s: Run) {
    && (s.live ==> BatchInv(prog, s))
    && (forall p | p in s.running :: p !in s.log)
    && (forall p | p in s.log || p in s.running :: OnPath(prog, s.log, p))
  }

  lemma FreshInv(prog: Program, log: map<nat, V>)
    requires forall p | p in log :: OnPath(prog, log, p)
    ensures Inv(prog, Fresh(log))
  {
  }

  lemma OnPathGrows(prog: Program, small: map<nat, V>, big: map<nat, V>, p: nat)
    requires Extends(small, big) && OnPath(prog, small, p)
    ensures OnPath(prog, big, p)
  {
    var hist :| Follows(prog, small, hist) && WithinNext(prog, hist, p);
    FollowsGrows(prog, small, big, hist);
  }

  /** Every event only adds to the log and keeps the invariant. */
  lemma StepKeepsInv(prog: Program, s: Run, e: Event)
    requires Inv(prog, s) && Apply(prog, s, e).Some?
    ensures Extends(s.log, Apply(prog, s, e).value.log)
    ensures Inv(prog, Apply(prog, s, e).value)
  {
    match e
    case Begin => BeginKeepsInv(prog, s);
    case Finish(p, v) => FinishKeepsInv(prog, s, p, v);
    case Advance => AdvanceKeepsInv(prog, s);
    case Raise(_) =>
  }

  lemma BeginKeepsInv(prog: Program, s: Run)
    requires Inv(prog, s) && Apply(prog, s, Begin).Some?
    ensures Inv(prog, Apply(prog, s, Begin).value)
  {
    hide Follows, Total, OnPath;
    NextIsOnPath(prog, s);
  }

  lemma NextIsOnPath(prog: Program, s: Run)
    requires BatchInv(prog, s) && prog(s.hist).Gather? && s.started < prog(s.hist).n
    ensures OnPath(prog, s.log, s.base + s.started)
  {
    hide Follows, Total;
    assert WithinNext(prog, s.hist, s.base + s.started);
  }

  lemma FinishKeepsInv(prog: Program, s: Run, p: nat, v: V)
    requires Inv(prog, s) && p in s.running
    ensures Inv(prog, Apply(prog, s, Finish(p, v)).value)
    ensures Extends(s.log, s.log[p := v])
  {
    hide Follows, Total, OnPath;
    var log := s.log[p := v];
    if s.live {
      FollowsGrows(prog, s.log, log, s.hist);
    }
    forall q | q in s.log || q in s.running ensures OnPath(prog, log, q) {
      OnPathGrows(prog, s.log, log, q);
    }
  }

  lemma AdvanceKeepsInv(prog: Program, s: Run)
    requires Inv(prog, s) && Apply(prog, s, Advance).Some?
    ensures Inv(prog, Apply(prog, s, Advance).value)
  {
    hide OnPath;
    var batch := Batch(s.results, s.base, prog(s.hist).n);
    var hist := s.hist + [batch];
    assert hist[..|hist| - 1] == s.hist;
    assert Logged(s.log, s.base, batch);
    TotalSnoc(s.hist, batch);
    assert forall p | p in s.running :: p in s.results;
  }

  // ----- A completed run is a crash-free run -----

  ghost predicate Completed(prog: Program, s: Run, outcome: V) {
    s.live && prog(s.hist) == Return(outcome)
  }

  /** `log` with the results of `batch` entered from position `base` on. */
  function Recorded(log: map<nat, V>, base: nat, batch: seq<V>): (r: map<nat, V>)
    ensures forall p :: p in r <==> p in log || base <= p < base + |batch|
    ensures forall p | p in r :: r[p] == if base <= p < base + |batch| then batch[p - base] else log[p]
    decreases |batch|
  {
    if batch == [] then log else
    var n := |batch| - 1;
    Recorded(log, base, batch[..n])[base + n := batch[n]]
  }

  /** The log that a history leaves behind. */
  function LogOf(hist: seq<seq<V>>): (log: map<nat, V>)
    ensures forall p :: p in log <==> 0 <= p < Total(hist)
    decreases |hist|
  {
    if hist == [] then map[] else
    var before := hist[..|hist| - 1];
    Recorded(LogOf(before), Total(before), hist[|hist| - 1])
  }

  lemma RecordedLogged(log: map<nat, V>, before: map<nat, V>, base: nat, batch: seq<V>)
    requires Extends(before, log) && Logged(log, base, batch) && forall p | p in before :: p < base
    ensures Extends(Recorded(before, base, batch), log) && Extends(before, Recorded(before, base, batch))
    ensures Logged(Recorded(before, base, batch), base, batch)
  {
  }

  lemma {:induction false} LogOfFollowed(prog: Program, log: map<nat, V>, hist: seq<seq<V>>)
    requires Follows(prog, log, hist)
    ensures Extends(LogOf(hist), log)
    ensures Follows(prog, LogOf(hist), hist)
    decreases |hist|
  {
    if hist != [] {
      var before, last := hist[..|hist| - 1], hist[|hist| - 1];
      LogOfFollowed(prog, log, before);
      RecordedLogged(log, LogOf(before), Total(before), last);
      FollowsGrows(prog, LogOf(before), LogOf(hist), before);
    }
  }

  /** At completion the log holds exactly the results the workflow saw. */
  lemma CompletedLog(prog: Program, s: Run, outcome: V)
    requires Inv(prog, s) && Completed(prog, s, outcome)
    ensures s.log == LogOf(s.hist)
  {
    LogOfFollowed(prog, s.log, s.hist);
    forall p | p in s.log ensures p < Total(s.hist) {
      assert OnPath(prog, s.log, p);
      var h :| Follows(prog, s.log, h) && WithinNext(prog, h, p);
      if |h| <= |s.hist| {
        FollowsIsUnique(prog, s.log, h, s.hist);
        PrefixEndsBefore(prog, s.log, s.hist, |h|);
      } else {
        FollowsIsUnique(prog, s.log, s.hist, h);
        StepsBeforeEnd(prog, s.log, h, |s.hist|);
      }
    }
  }

  /** A proper prefix of a followed history gathers exactly the batch that comes next in it. */
  lemma {:induction false} StepsBeforeEnd(prog: Program, log: map<nat, V>, hist: seq<seq<V>>, n: nat)
    requires Follows(prog, log, hist) && n < |hist|
    ensures prog(hist[..n]) == Gather(|hist[n]|)
    ensures Logged(log, Total(hist[..n]), hist[n])
  {
    var before := hist[..|hist| - 1];
    if n < |before| {
      StepsBeforeEnd(prog, log, before, n);
      assert before[..n] == hist[..n];
    }
  }

  lemma PrefixEndsBefore(prog: Program, log: map<nat, V>, hist: seq<seq<V>>, n: nat)
    requires Follows(prog, log, hist) && n <= |hist|
    ensures n < |hist| ==> prog(hist[..n]).Gather? && Total(hist[..n]) + prog(hist[..n]).n <= Total(hist)
    ensures n == |hist| ==> hist[..n] == hist
  {
    if n < |hist| {
      StepsBeforeEnd(prog, log, hist, n);
      TotalSnoc(hist[..n], hist[n]);
      assert hist[..n] + [hist[n]] == hist[..n + 1];
      TotalGrows(hist, n + 1);
    }
  }

  /** The events of a sequential crash-free execution of one batch from its `i`-th step on. */
  function BatchEvents(base: nat, batch: seq<V>, i: nat): seq<Event>
    requires i <= |batch|
    decreases |batch| - i
  {
    if i == |batch| then [Advance] else [Begin, Finish(base + i, batch[i])] + BatchEvents(base, batch, i + 1)
  }

  function CleanEvents(hist: seq<seq<V>>): seq<Event>
    decreases |hist|
  {
    if hist == [] then [] else
    var before, last := hist[..|hist| - 1], hist[|hist| - 1];
    CleanEvents(before) + BatchEvents(Total(before), last, 0)
  }

  predicate NoFailure(events: seq<Event>) {
    forall i | 0 <= i < |events| :: !events[i].Raise?
  }

  lemma {:induction false} ExecuteConcat(prog: Program, s: Run, a: seq<Event>, b: seq<Event>)
    requires Execute(prog, s, a).Some?
    ensures Execute(prog, s, a + b) == Execute(prog, Execute(prog, s, a).value, b)
    decreases |a|
  {
    hide Apply;
    if a == [] {
      assert a + b == b;
    } else {
      assert (a + b)[1..] == a[1..] + b;
      ExecuteConcat(prog, Apply(prog, s, a[0]).value, a[1..], b);
    }
  }

  /** The state between batches of a clean execution, and the state inside one after the steps `done`. */
  function Clean(hist: seq<seq<V>>): Run {
    Run(LogOf(hist), true, hist, Total(hist), 0, map[], EMPTY)
  }

  function CleanInside(hist: seq<seq<V>>, done: seq<V>): Run {
    var base := Total(hist);
    Run(Recorded(LogOf(hist), base, done), true, hist, base, |done|, Recorded(map[], base, done), EMPTY)
  }

  /** One step of a clean batch. */
  lemma CleanStep(prog: Program, hist: seq<seq<V>>, done: seq<V>, v: V)
    requires prog(hist).Gather? && |done| < prog(hist).n
    ensures
      var begun := Apply(prog, CleanInside(hist, done), Begin);
      begun.Some? && Apply(prog, begun.value, Finish(Total(hist) + |done|, v)) == Some(CleanInside(hist, done + [v]))
  {
    hide Total, LogOf;
    var s := CleanInside(hist, done);
    var p := Total(hist) + |done|;
    assert p !in s.log;
    var begun := Apply(prog, s, Begin).value;
    assert begun.running == {p};
    assert (done + [v])[..|done|] == done;
    var next := Apply(prog, begun, Finish(p, v)).value;
    assert next.running == EMPTY;
  }

  lemma RecordedValues(log: map<nat, V>, base: nat, batch: seq<V>)
    ensures AllDone(Recorded(log, base, batch), base, |batch|)
    ensures Batch(Recorded(log, base, batch), base, |batch|) == batch
  {
  }

  lemma CleanAdvance(prog: Program, hist: seq<seq<V>>, batch: seq<V>)
    requires prog(hist) == Gather(|batch|)
    ensures Apply(prog, CleanInside(hist, batch), Advance) == Some(Clean(hist + [batch]))
  {
    hide Recorded;
    RecordedValues(map[], Total(hist), batch);
    assert (hist + [batch])[..|hist|] == hist;
  }

  lemma {:induction false} BatchRuns(prog: Program, hist: seq<seq<V>>, batch: seq<V>, i: nat)
    requires i <= |batch| && prog(hist) == Gather(|batch|)
    ensures
      Execute(prog, CleanInside(hist, batch[..i]), BatchEvents(Total(hist), batch, i)) == Some(Clean(hist + [batch]))
    ensures NoFailure(BatchEvents(Total(hist), batch, i))
    decreases |batch| - i
  {
    hide Apply, CleanInside, Clean, Total;
    var events := BatchEvents(Total(hist), batch, i);
    if i == |batch| {
      assert batch[..i] == batch;
      CleanAdvance(prog, hist, batch);
      assert events[1..] == [];
    } else {
      CleanStep(prog, hist, batch[..i], batch[i]);
      assert batch[..i] + [batch[i]] == batch[..i + 1];
      assert events[1..] == [Finish(Total(hist) + i, batch[i])] + BatchEvents(Total(hist), batch, i + 1);
      assert events[1..][1..] == BatchEvents(Total(hist), batch, i + 1);
      BatchRuns(prog, hist, batch, i + 1);
    }
  }

  lemma NothingHappened()
    ensures Clean([]) == Fresh(map[]) && NoFailure([])
  {
  }

  lemma NoFailureConcat(a: seq<Event>, b: seq<Event>)
    requires NoFailure(a) && NoFailure(b)
    ensures NoFailure(a + b)
  {
  }

  lemma {:induction false} CleanRuns(prog: Program, log: map<nat, V>, hist: seq<seq<V>>)
    requires Follows(prog, log, hist)
    ensures Execute(prog, Fresh(map[]), CleanEvents(hist)) == Some(Clean(hist))
    ensures NoFailure(CleanEvents(hist))
    decreases |hist|
  {
    hide Apply, BatchEvents, Total, LogOf, NoFailure;
    if hist == [] {
      NothingHappened();
    } else {
      var before, last := hist[..|hist| - 1], hist[|hist| - 1];
      CleanRuns(prog, log, before);
      BatchRuns(prog, before, last, 0);
      assert CleanInside(before, last[..0]) == Clean(before);
      ExecuteConcat(prog, Fresh(map[]), CleanEvents(before), BatchEvents(Total(before), last, 0));
      NoFailureConcat(CleanEvents(before), BatchEvents(Total(before), last, 0));
      assert before + [last] == hist;
    }
  }
}
