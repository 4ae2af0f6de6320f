/** What durable runs promise from the first opening on: when the log only grows and no persisted step is called again,
    what a completed workflow has seen, and a run that breaks the promise. */
module WholeRuns {
  import opened Wrappers
  import opened Cbor
  import opened DurableRuns
  import opened Reopenings

  predicate Open(h: Run) {
    h.live || h.running != EMPTY
  }

  /** Every open handle holds exactly what is persisted, and at most one is active. */
  ghost predicate Shared(prog: Program, s: System) {
    && (forall i | 0 <= i < |s.handles| && Open(s.handles[i]) :: s.handles[i].log == s.log)
    && (forall i, j | 0 <= i < j < |s.handles| :: !(Active(prog, s.handles[i]) && Active(prog, s.handles[j])))
  }

  lemma OpennessFades(prog: Program, h: Run, e: Event)
    requires Apply(prog, h, e).Some?
    ensures Open(h)
  {
  }

  lemma AfterKeepsShared(prog: Program, s: System, a: Act)
    requires SystemInv(prog, s) && Shared(prog, s) && After(prog, s, a).Some? && (a.Reopen? ==> Quiet(prog, s))
    ensures Shared(prog, After(prog, s, a).value)
  {
    hide Inv, Incomplete, OnPath, Apply;
    match a
    case Do(i, e) =>
      OpennessFades(prog, s.handles[i], e);
      ActivityFades(prog, s.handles[i], e);
      if !e.Finish? {
        LogsAfter(prog, s.handles[i], e);
      } else {
        forall j | 0 <= j < |s.handles| && j != i ensures !Open(s.handles[j]) {
          assert Active(prog, s.handles[i]);
          assert Open(s.handles[j]) ==> Active(prog, s.handles[j]);
        }
      }
    case Crash =>
    case Reopen =>
  }

  lemma {:induction false} OrderlyKeepsShared(prog: Program, s: System, acts: seq<Act>)
    requires SystemInv(prog, s) && Shared(prog, s) && Orderly(prog, s, acts) && Perform(prog, s, acts).Some?
    ensures Shared(prog, Perform(prog, s, acts).value)
    decreases |acts|
  {
    hide SystemInv, Shared, After;
    if acts != [] {
      AfterKeepsInv(prog, s, acts[0]);
      AfterKeepsShared(prog, s, acts[0]);
      OrderlyKeepsShared(prog, After(prog, s, acts[0]).value, acts[1..]);
    }
  }

  lemma StartIsShared(prog: Program)
    ensures SystemInv(prog, START) && Shared(prog, START) && InStep(prog, START)
  {
  }

  lemma SharedIsInStep(prog: Program, s: System)
    requires Shared(prog, s)
    ensures InStep(prog, s)
  {
    hide Incomplete;
  }

  /** From any state that an orderly run reaches, opening the run again keeps the promise safe exactly when no earlier
      handle is active. */
  lemma ReopeningKeepsPromiseIff(prog: Program, acts: seq<Act>)
    requires Orderly(prog, START, acts) && Perform(prog, START, acts).Some?
    ensures
      var s := Perform(prog, START, acts).value;
      Safe(prog, s) && (Safe(prog, Reopened(s)) <==> Quiet(prog, s))
  {
    hide SystemInv, Shared, InStep, Orderly, Safe, Quiet, Perform;
    StartIsShared(prog);
    ExecuteKeepsInv(prog, START, acts);
    OrderlyKeepsShared(prog, START, acts);
    var s := Perform(prog, START, acts).value;
    SharedIsInStep(prog, s);
    SafeIff(prog, s);
    ReopeningIsSafeIff(prog, s);
  }

  /** The positions whose functions an execution calls. */
  function Invoked(prog: Program, s: System, acts: seq<Act>): seq<nat>
    decreases |acts|
  {
    if acts == [] || After(prog, s, acts[0]).None? then [] else
    (if Called(s, acts[0]).Some? then [Called(s, acts[0]).value] else [])
    + Invoked(prog, After(prog, s, acts[0]).value, acts[1..])
  }

  lemma {:induction false} KeptMeans(prog: Program, s: System, acts: seq<Act>)
    requires Kept(prog, s, acts) && Perform(prog, s, acts).Some?
    ensures Extends(s.log, Perform(prog, s, acts).value.log)
    ensures forall p | p in s.log :: p !in Invoked(prog, s, acts)
    decreases |acts|
  {
    hide After, Called;
    if acts != [] {
      KeptMeans(prog, After(prog, s, acts[0]).value, acts[1..]);
    }
  }

  lemma OrderlyRunIsKept(prog: Program, before: seq<Act>, after: seq<Act>)
    requires Orderly(prog, START, before + after) && Perform(prog, START, before).Some?
    ensures Kept(prog, Perform(prog, START, before).value, after)
  {
    hide SystemInv, Shared, InStep, Orderly, Kept, Perform;
    StartIsShared(prog);
    InStepIsKept(prog, START, before + after);
    KeptLater(prog, START, before, after);
  }

  /** In every orderly run, with any interleaving, exceptions and crashes, the persisted log only grows. */
  lemma LogOnlyGrows(prog: Program, before: seq<Act>, after: seq<Act>)
    requires Orderly(prog, START, before + after) && Perform(prog, START, before).Some?
    requires Perform(prog, Perform(prog, START, before).value, after).Some?
    ensures
      var mid := Perform(prog, START, before).value;
      Extends(mid.log, Perform(prog, mid, after).value.log)
  {
    OrderlyRunIsKept(prog, before, after);
    KeptMeans(prog, Perform(prog, START, before).value, after);
  }

  /** Nor is the function of a persisted step ever called again. */
  lemma NoReinvocation(prog: Program, before: seq<Act>, after: seq<Act>, p: nat)
    requires Orderly(prog, START, before + after) && Perform(prog, START, before).Some?
    requires Perform(prog, Perform(prog, START, before).value, after).Some?
    requires p in Perform(prog, START, before).value.log
    ensures p !in Invoked(prog, Perform(prog, START, before).value, after)
  {
    OrderlyRunIsKept(prog, before, after);
    KeptMeans(prog, Perform(prog, START, before).value, after);
  }

  // ----- A completed workflow saw a run without failures -----

  /** Only one opening, no crash and no exception. */
  predicate NoFailures(acts: seq<Act>) {
    && (forall k | 0 <= k < |acts| :: !acts[k].Crash? && (acts[k].Reopen? ==> k == 0))
    && (forall k | 0 <= k < |acts| && acts[k].Do? :: !acts[k].e.Raise?)
  }

  lemma {:induction false} AloneOnTheStore(prog: Program, h: Run, events: seq<Event>)
    requires Execute(prog, h, events).Some?
    ensures
      var h' := Execute(prog, h, events).value;
      Perform(prog, System(h.log, [h]), Under(0, events)) == Some(System(h'.log, [h']))
    decreases |events|
  {
    hide Apply;
    if events != [] {
      var next := Apply(prog, h, events[0]).value;
      if !events[0].Finish? {
        LogsAfter(prog, h, events[0]);
      }
      assert [h][0 := next] == [next];
      AloneOnTheStore(prog, next, events[1..]);
      assert Under(0, events)[1..] == Under(0, events[1..]);
    }
  }

  /** The acts of a run without failures that sees `hist`. */
  function CleanActs(hist: seq<seq<V>>): seq<Act> {
    [Reopen] + Under(0, CleanEvents(hist))
  }

  lemma CleanActsRun(prog: Program, log: map<nat, V>, hist: seq<seq<V>>)
    requires Follows(prog, log, hist)
    ensures NoFailures(CleanActs(hist))
    ensures Perform(prog, START, CleanActs(hist)) == Some(System(LogOf(hist), [Clean(hist)]))
  {
    hide Follows, CleanEvents, Apply, LogOf, Execute;
    CleanRuns(prog, log, hist);
    AloneOnTheStore(prog, Fresh(map[]), CleanEvents(hist));
    assert CleanActs(hist)[1..] == Under(0, CleanEvents(hist));
    assert [] + [Fresh(map[])] == [Fresh(map[])];
    assert After(prog, START, Reopen) == Some(System(map[], [Fresh(map[])]));
  }

  /** Whatever happened, orderly or not, when the workflow of some handle completes, a run without failures sees the
      same results, holds and persists what that handle holds, and returns the same outcome. In an orderly run that is
      also what is persisted. */
  lemma CompletedRunIsCrashFree(prog: Program, acts: seq<Act>, i: nat, outcome: V)
    requires Perform(prog, START, acts).Some? && i < |Perform(prog, START, acts).value.handles|
    requires Completed(prog, Perform(prog, START, acts).value.handles[i], outcome)
    ensures
      var s := Perform(prog, START, acts).value;
      var h := s.handles[i];
      && NoFailures(CleanActs(h.hist))
      && Perform(prog, START, CleanActs(h.hist)) == Some(System(h.log, [Clean(h.hist)]))
      && Completed(prog, Clean(h.hist), outcome)
      && (Orderly(prog, START, acts) ==> s.log == h.log)
  {
    hide Follows, CleanActs, LogOf, Orderly, Total;
    StartIsShared(prog);
    ExecuteKeepsInv(prog, START, acts);
    var h := Perform(prog, START, acts).value.handles[i];
    CompletedLog(prog, h, outcome);
    CleanActsRun(prog, h.log, h.hist);
    if Orderly(prog, START, acts) {
      OrderlyKeepsShared(prog, START, acts);
    }
  }

  /** What the handles hold determines the outcome: of two completed workflows, in whatever runs, one of which holds all
      results of the other, both hold the same and return the same. */
  lemma LogDeterminesOutcome(
    prog: Program, a: seq<Act>, i: nat, outcomeA: V, b: seq<Act>, j: nat, outcomeB: V)
    requires Perform(prog, START, a).Some? && i < |Perform(prog, START, a).value.handles|
    requires Perform(prog, START, b).Some? && j < |Perform(prog, START, b).value.handles|
    requires Completed(prog, Perform(prog, START, a).value.handles[i], outcomeA)
    requires Completed(prog, Perform(prog, START, b).value.handles[j], outcomeB)
    requires Extends(Perform(prog, START, a).value.handles[i].log, Perform(prog, START, b).value.handles[j].log)
    ensures outcomeA == outcomeB
    ensures Perform(prog, START, a).value.handles[i].log == Perform(prog, START, b).value.handles[j].log
  {
    hide Inv, Completed, Perform;
    StartIsShared(prog);
    ExecuteKeepsInv(prog, START, a);
    ExecuteKeepsInv(prog, START, b);
    SameOutcome(prog, Perform(prog, START, a).value.handles[i], outcomeA,
      Perform(prog, START, b).value.handles[j], outcomeB);
  }

  lemma SameOutcome(prog: Program, g: Run, outcomeG: V, h: Run, outcomeH: V)
    requires Inv(prog, g) && Inv(prog, h) && Extends(g.log, h.log)
    requires Completed(prog, g, outcomeG) && Completed(prog, h, outcomeH)
    ensures outcomeG == outcomeH && g.log == h.log
  {
    hide Total, OnPath, LogOf;
    FollowsGrows(prog, g.log, h.log, g.hist);
    if |g.hist| <= |h.hist| {
      FollowsIsUnique(prog, h.log, g.hist, h.hist);
      PrefixEndsBefore(prog, h.log, h.hist, |g.hist|);
    } else {
      FollowsIsUnique(prog, h.log, h.hist, g.hist);
      StepsBeforeEnd(prog, h.log, g.hist, |h.hist|);
    }
    CompletedLog(prog, g, outcomeG);
    CompletedLog(prog, h, outcomeH);
  }

  // ----- A run that breaks the promise -----

  /** Two steps at once, then done. */
  function PairProgram(): Program {
    (hist: seq<seq<V>>) => if hist == [] then Gather(2) else Return(Null)
  }

  const ONE_BEGUN := Run(map[], true, [], 0, 1, map[], {0})

  const TWO_BEGUN := Run(map[], true, [], 0, 2, map[], {0, 1})

  /** The first opening, when step 0 has raised and step 1 still runs. */
  const LEFT := Run(map[], false, [], 0, 2, map[], {1})

  lemma FirstBegins()
    ensures Apply(PairProgram(), Fresh(map[]), Begin) == Some(ONE_BEGUN)
  {
    assert EMPTY + {0} == {0};
  }

  lemma SecondBegins()
    ensures Apply(PairProgram(), ONE_BEGUN, Begin) == Some(TWO_BEGUN)
  {
    assert {0} + {1} == {0, 1};
  }

  lemma FirstRaises()
    ensures Apply(PairProgram(), TWO_BEGUN, Raise(0)) == Some(LEFT)
  {
    assert {0, 1} - {0} == {1};
  }

  lemma FirstFinishes(v: V)
    ensures Apply(PairProgram(), ONE_BEGUN, Finish(0, v)) == Some(Resumed(v))
  {
    assert {0} - {0} == EMPTY;
  }

  lemma ExecuteCons(prog: Program, h: Run, e: Event, rest: seq<Event>)
    requires Apply(prog, h, e).Some?
    ensures Execute(prog, h, [e] + rest) == Execute(prog, Apply(prog, h, e).value, rest)
  {
    hide Apply;
    assert ([e] + rest)[1..] == rest;
  }

  lemma LeftBehind()
    ensures Execute(PairProgram(), Fresh(map[]), [Begin, Begin, Raise(0)]) == Some(LEFT)
  {
    hide Apply, PairProgram;
    var prog := PairProgram();
    FirstBegins();
    SecondBegins();
    FirstRaises();
    ExecuteCons(prog, Fresh(map[]), Begin, [Begin, Raise(0)]);
    ExecuteCons(prog, ONE_BEGUN, Begin, [Raise(0)]);
    ExecuteCons(prog, TWO_BEGUN, Raise(0), []);
    assert [Begin] + [Begin, Raise(0)] == [Begin, Begin, Raise(0)];
    assert [Begin] + [Raise(0)] == [Begin, Raise(0)] && [Raise(0)] + [] == [Raise(0)];
  }

  /** The second opening, when it has finished step 0. */
  function Resumed(v: V): Run {
    Run(map[0 := v], true, [], 0, 1, map[0 := v], EMPTY)
  }

  const FIRST_ACTS := [Reopen] + Under(0, [Begin, Begin, Raise(0)])

  function SecondActs(v: V): seq<Act> {
    [Reopen] + Under(1, [Begin, Finish(0, v)])
  }

  /** One of two gathered steps raises, the run is opened again and finishes that step; then the other step of the first
      opening finishes. The persisted step is lost, and the next opening calls its function again. */
  lemma StaleSaveLosesStep(v: V, w: V)
    ensures
      var prog := PairProgram();
      var s := System(map[0 := v], [LEFT, Resumed(v)]);
      && Perform(prog, START, FIRST_ACTS + SecondActs(v)) == Some(s)
      && After(prog, s, Do(0, Finish(1, w))).Some?
      && var t := After(prog, s, Do(0, Finish(1, w))).value;
         0 in s.log && 0 !in t.log && Called(Reopened(t), Do(2, Begin)) == Some(0)
  {
    StaleStateIsReached(v);
    StaleSave(v, w);
  }

  lemma StaleSave(v: V, w: V)
    ensures
      var s := System(map[0 := v], [LEFT, Resumed(v)]);
      && After(PairProgram(), s, Do(0, Finish(1, w))).Some?
      && var t := After(PairProgram(), s, Do(0, Finish(1, w))).value;
         0 in s.log && 0 !in t.log && Called(Reopened(t), Do(2, Begin)) == Some(0)
  {
  }

  lemma StaleStateIsReached(v: V)
    ensures
      Perform(PairProgram(), START, FIRST_ACTS + SecondActs(v)) == Some(System(map[0 := v], [LEFT, Resumed(v)]))
  {
    hide Perform, Apply, PairProgram, Resumed, Under;
    FirstOpening();
    SecondOpening(v);
    ExecuteConcatenated(PairProgram(), START, FIRST_ACTS, SecondActs(v));
    FromReopened(PairProgram(), System(map[], [LEFT]), Under(1, [Begin, Finish(0, v)]));
  }

  lemma FromReopened(prog: Program, s: System, acts: seq<Act>)
    ensures Perform(prog, s, [Reopen] + acts) == Perform(prog, Reopened(s), acts)
  {
    assert ([Reopen] + acts)[1..] == acts;
  }

  lemma FirstOpening()
    ensures Perform(PairProgram(), START, FIRST_ACTS) == Some(System(map[], [LEFT]))
  {
    hide Perform, Apply, Execute, PairProgram, Under;
    var events: seq<Event> := [Begin, Begin, Raise(0)];
    LeftBehind();
    AloneOnTheStore(PairProgram(), Fresh(map[]), events);
    FromReopened(PairProgram(), START, Under(0, events));
    assert Reopened(START) == System(map[], [Fresh(map[])]);
  }

  lemma SecondOpening(v: V)
    ensures
      Perform(PairProgram(), Reopened(System(map[], [LEFT])), Under(1, [Begin, Finish(0, v)])) ==
        Some(System(map[0 := v], [LEFT, Resumed(v)]))
  {
    hide Apply, PairProgram, Fresh, Resumed;
    var prog := PairProgram();
    var s, t := Reopened(System(map[], [LEFT])), System(map[], [LEFT, ONE_BEGUN]);
    var u := System(map[0 := v], [LEFT, Resumed(v)]);
    FirstBegins();
    FirstFinishes(v);
    assert Resumed(v).log == map[0 := v] by { ResumedHolds(v); }
    assert s.handles == [LEFT, Fresh(map[])];
    assert s.handles[1 := ONE_BEGUN] == t.handles && t.handles[1 := Resumed(v)] == u.handles;
    assert After(prog, s, Do(1, Begin)) == Some(t) && After(prog, t, Do(1, Finish(0, v))) == Some(u);
    var last := [Do(1, Finish(0, v))];
    assert last[1..] == [] && ([Do(1, Begin)] + last)[1..] == last;
    assert Perform(prog, t, last) == Some(u);
    assert Under(1, [Begin, Finish(0, v)]) == [Do(1, Begin)] + last;
  }

  lemma ResumedHolds(v: V)
    ensures Resumed(v).log == map[0 := v]
  {
  }
}
