/** All openings of a durable run over one store: any number of handles, each with the steps it holds, saving over each
    other; crashes, and reopenings at any time. */
module Reopenings {
  import opened Wrappers
  import opened Cbor
  import opened DurableRuns

  /** The persisted log, and every handle that was ever opened. */
  datatype System = System(log: map<nat, V>, handles: seq<Run>)

  datatype Act =
    | Do(i: nat, e: Event)   // something happens under handle `i`; finishing a step saves all that the handle holds
    | Crash                  // the process dies, and every handle with it
    | Reopen                 // the run is opened once more, on the persisted log

  const START := System(map[], [])

  function Dead(h: Run): Run {
    h.(live := false, running := EMPTY)
  }

  function AllDead(handles: seq<Run>): (r: seq<Run>)
    ensures |r| == |handles| && forall i | 0 <= i < |r| :: r[i] == Dead(handles[i])
  {
    seq(|handles|, i requires 0 <= i < |handles| => Dead(handles[i]))
  }

  /** One atomic step, or `None` when the act cannot happen. */
  function After(prog: Program, s: System, a: Act): Option<System> {
    match a
    case Do(i, e) =>
      if i >= |s.handles| then None else
      var next := Apply(prog, s.handles[i], e);
      if next.None? then None else
      Some(System(if e.Finish? then next.value.log else s.log, s.handles[i := next.value]))
    case Crash => Some(s.(handles := AllDead(s.handles)))
    case Reopen => Some(s.(handles := s.handles + [Fresh(s.log)]))
  }

  function Reopened(s: System): System {
    s.(handles := s.handles + [Fresh(s.log)])
  }

  function Perform(prog: Program, s: System, acts: seq<Act>): Option<System>
    decreases |acts|
  {
    if acts == [] then Some(s) else
    var next := After(prog, s, acts[0]);
    if next.None? then None else Perform(prog, next.value, acts[1..])
  }

  // ----- The promise -----

  /** The position whose function the act calls, if it calls one. */
  function Called(s: System, a: Act): Option<nat> {
    if a.Do? && a.e.Begin? && a.i < |s.handles| then
      var h := s.handles[a.i];
      if h.base + h.started in h.log then None else Some(h.base + h.started)
    else None
  }

  /** No persisted result is lost or changed, and no function of a persisted step is called. */
  ghost predicate KeptBy(prog: Program, s: System, a: Act)
    requires After(prog, s, a).Some?
  {
    && Extends(s.log, After(prog, s, a).value.log)
    && (Called(s, a).Some? ==> Called(s, a).value !in s.log)
  }

  /** The promise is kept by every act, up to the first that cannot happen. */
  ghost predicate Kept(prog: Program, s: System, acts: seq<Act>)
    decreases |acts|
  {
    acts == [] || After(prog, s, acts[0]).None? ||
    (KeptBy(prog, s, acts[0]) && Kept(prog, After(prog, s, acts[0]).value, acts[1..]))
  }

  /** Some position that the workflow reaches on these results has none. */
  ghost predicate Incomplete(prog: Program, log: map<nat, V>) {
    exists p :: p !in log && OnPath(prog, log, p)
  }

  /** The handle still runs a step, or its workflow will come to call one. */
  ghost predicate Active(prog: Program, h: Run) {
    (h.live || h.running != EMPTY) && Incomplete(prog, h.log)
  }

  ghost predicate Quiet(prog: Program, s: System) {
    forall i | 0 <= i < |s.handles| :: !Active(prog, s.handles[i])
  }

  /** The run is opened again only when no earlier handle is active. */
  ghost predicate Orderly(prog: Program, s: System, acts: seq<Act>)
    decreases |acts|
  {
    acts == [] || After(prog, s, acts[0]).None? ||
    ((acts[0].Reopen? ==> Quiet(prog, s)) && Orderly(prog, After(prog, s, acts[0]).value, acts[1..]))
  }

  /** Every orderly continuation keeps the promise. */
  ghost predicate Safe(prog: Program, s: System) {
    forall acts | Orderly(prog, s, acts) :: Kept(prog, s, acts)
  }

  /** Every continuation keeps the promise, whenever the run is opened again. */
  ghost predicate SafeAnyhow(prog: Program, s: System) {
    forall acts :: Kept(prog, s, acts)
  }

  // ----- What every run keeps, orderly or not -----

  ghost predicate SystemInv(prog: Program, s: System) {
    && (forall i | 0 <= i < |s.handles| :: Inv(prog, s.handles[i]))
    && (forall p | p in s.log :: OnPath(prog, s.log, p))
  }

  lemma DeadInv(prog: Program, h: Run)
    requires Inv(prog, h)
    ensures Inv(prog, Dead(h))
  {
  }

  lemma LogOfInv(prog: Program, h: Run)
    requires Inv(prog, h)
    ensures forall p | p in h.log :: OnPath(prog, h.log, p)
  {
  }

  lemma AfterKeepsInv(prog: Program, s: System, a: Act)
    requires SystemInv(prog, s) && After(prog, s, a).Some?
    ensures SystemInv(prog, After(prog, s, a).value)
  {
    hide Inv, OnPath, Apply;
    match a
    case Do(i, e) =>
      StepKeepsInv(prog, s.handles[i], e);
      LogOfInv(prog, Apply(prog, s.handles[i], e).value);
    case Crash =>
      forall i | 0 <= i < |s.handles| ensures Inv(prog, Dead(s.handles[i])) {
        DeadInv(prog, s.handles[i]);
      }
    case Reopen => FreshInv(prog, s.log);
  }

  lemma {:induction false} ExecuteKeepsInv(prog: Program, s: System, acts: seq<Act>)
    requires SystemInv(prog, s) && Perform(prog, s, acts).Some?
    ensures SystemInv(prog, Perform(prog, s, acts).value)
    decreases |acts|
  {
    hide SystemInv, After;
    if acts != [] {
      AfterKeepsInv(prog, s, acts[0]);
      ExecuteKeepsInv(prog, After(prog, s, acts[0]).value, acts[1..]);
    }
  }

  // ----- One active handle in step keeps the promise -----

  /** At most one handle is active, and it holds all that is persisted. */
  ghost predicate InStep(prog: Program, s: System) {
    && (forall i, j | 0 <= i < j < |s.handles| :: !(Active(prog, s.handles[i]) && Active(prog, s.handles[j])))
    && (forall i | 0 <= i < |s.handles| && Active(prog, s.handles[i]) :: Extends(s.log, s.handles[i].log))
  }

  /** Whoever is active after an event was so before, and whoever runs, calls or finishes a step is. */
  lemma ActivityFades(prog: Program, h: Run, e: Event)
    requires Inv(prog, h) && Apply(prog, h, e).Some?
    ensures Active(prog, Apply(prog, h, e).value) ==> Active(prog, h)
    ensures e.Finish? ==> Active(prog, h)
    ensures e.Begin? && h.base + h.started !in h.log ==> Active(prog, h)
  {
    hide OnPath, Follows;
    match e
    case Begin => if h.base + h.started !in h.log { NextIsOnPath(prog, h); }
    case Finish(p, _) => assert OnPath(prog, h.log, p);
    case Advance =>
    case Raise(p) => assert OnPath(prog, h.log, p);
  }

  lemma EventKeepsInStep(prog: Program, s: System, i: nat, e: Event)
    requires SystemInv(prog, s) && InStep(prog, s) && After(prog, s, Do(i, e)).Some?
    ensures InStep(prog, After(prog, s, Do(i, e)).value) && KeptBy(prog, s, Do(i, e))
  {
    hide Inv, Incomplete, OnPath;
    var h := s.handles[i];
    ActivityFades(prog, h, e);
    assert Extends(h.log, Apply(prog, h, e).value.log) by { StepKeepsInv(prog, h, e); }
    hide Active, Apply;
    if e.Finish? {
      assert Extends(s.log, h.log);
    } else {
      LogsAfter(prog, h, e);
    }
  }

  lemma LogsAfter(prog: Program, h: Run, e: Event)
    requires Apply(prog, h, e).Some? && !e.Finish?
    ensures Apply(prog, h, e).value.log == h.log
  {
  }

  lemma AfterKeepsInStep(prog: Program, s: System, a: Act)
    requires SystemInv(prog, s) && InStep(prog, s) && After(prog, s, a).Some? && (a.Reopen? ==> Quiet(prog, s))
    ensures InStep(prog, After(prog, s, a).value) && KeptBy(prog, s, a)
  {
    hide Inv, Incomplete, OnPath, Apply;
    match a
    case Do(i, e) => EventKeepsInStep(prog, s, i, e);
    case Crash =>
    case Reopen =>
  }

  lemma {:induction false} InStepIsKept(prog: Program, s: System, acts: seq<Act>)
    requires SystemInv(prog, s) && InStep(prog, s) && Orderly(prog, s, acts)
    ensures Kept(prog, s, acts)
    decreases |acts|
  {
    hide SystemInv, InStep, After, KeptBy;
    if acts != [] && After(prog, s, acts[0]).Some? {
      AfterKeepsInv(prog, s, acts[0]);
      AfterKeepsInStep(prog, s, acts[0]);
      InStepIsKept(prog, After(prog, s, acts[0]).value, acts[1..]);
    }
  }

  // ----- An active handle comes to run a step -----

  /** Events under one handle that record nothing and end no workflow. */
  predicate OnlyBegins(events: seq<Event>) {
    forall i | 0 <= i < |events| :: events[i].Begin? || events[i].Advance?
  }

  /** The path cannot be shorter than the history when something on it is missing. */
  lemma HistoryOnPath(prog: Program, h: Run, path: seq<seq<V>>, q: nat)
    requires BatchInv(prog, h) && Follows(prog, h.log, path) && WithinNext(prog, path, q) && q !in h.log
    ensures |h.hist| <= |path| && h.hist == path[..|h.hist|]
    ensures |h.hist| < |path| ==> prog(h.hist) == Gather(|path[|h.hist|]|)
  {
    hide OnPath, Total;
    if |h.hist| <= |path| {
      FollowsIsUnique(prog, h.log, h.hist, path);
      if |h.hist| < |path| {
        StepsBeforeEnd(prog, h.log, path, |h.hist|);
      }
    } else {
      FollowsIsUnique(prog, h.log, path, h.hist);
      StepsBeforeEnd(prog, h.log, h.hist, |path|);
    }
  }

  function BatchSize(a: Action): nat {
    if a.Gather? then a.n else 0
  }

  /** A workflow on whose path a result is missing replays the steps before it and then calls a function. */
  lemma {:induction false} Replays(prog: Program, h: Run, path: seq<seq<V>>, q: nat)
    returns (events: seq<Event>, p: nat, h': Run)
    requires Inv(prog, h) && h.live && h.running == EMPTY
    requires Follows(prog, h.log, path) && WithinNext(prog, path, q) && q !in h.log
    ensures Execute(prog, h, events) == Some(h') && OnlyBegins(events)
    ensures p in h'.running && h'.log == h.log
    decreases |path| - |h.hist|, BatchSize(prog(h.hist)) - h.started
  {
    hide Inv, Follows, Total, OnPath;
    HistoryOnPath(prog, h, path, q) by { LiveInv(prog, h); }
    var e := if h.started < BatchSize(prog(h.hist)) then Begin else Advance;
    Proceeds(prog, h, path, q);
    var next := Apply(prog, h, e).value;
    StepKeepsInv(prog, h, e);
    if next.running == EMPTY {
      HistoryOnPath(prog, next, path, q) by { LiveInv(prog, next); }
      var rest;
      rest, p, h' := Replays(prog, next, path, q);
      events := [e] + rest;
      assert events[1..] == rest;
    } else {
      events, p, h' := [e], h.base + h.started, next;
      assert events[1..] == [];
    }
  }

  lemma LiveInv(prog: Program, h: Run)
    requires Inv(prog, h) && h.live
    ensures BatchInv(prog, h)
  {
  }

  /** With nothing running, the workflow begins the next step or, when it has begun all, goes on. */
  lemma Proceeds(prog: Program, h: Run, path: seq<seq<V>>, q: nat)
    requires Inv(prog, h) && h.live && h.running == EMPTY
    requires |h.hist| <= |path| && h.hist == path[..|h.hist|]
    requires |h.hist| < |path| ==> prog(h.hist) == Gather(|path[|h.hist|]|)
    requires WithinNext(prog, path, q) && q !in h.log
    ensures
      var e := if h.started < BatchSize(prog(h.hist)) then Begin else Advance;
      && Apply(prog, h, e).Some?
      && var next := Apply(prog, h, e).value;
         && next.live && next.log == h.log
         && (e.Begin? && next.running != EMPTY ==> next.running == {h.base + h.started})
         && (e.Begin? ==> next.hist == h.hist && next.started == h.started + 1)
         && (e.Advance? ==> next.running == EMPTY && |next.hist| == |h.hist| + 1 && |h.hist| < |path|)
  {
    hide Follows, Total, OnPath;
    if |h.hist| == |path| {
      assert h.hist == path;
    }
  }

  lemma ActiveHandleRuns(prog: Program, h: Run) returns (events: seq<Event>, p: nat, h': Run)
    requires Inv(prog, h) && Active(prog, h)
    ensures Execute(prog, h, events) == Some(h') && OnlyBegins(events)
    ensures p in h'.running && h'.log == h.log
  {
    hide Inv, Follows;
    if h.running != EMPTY {
      p :| p in h.running;
      events, h' := [], h;
    } else {
      var q :| q !in h.log && OnPath(prog, h.log, q);
      var path :| Follows(prog, h.log, path) && WithinNext(prog, path, q);
      events, p, h' := Replays(prog, h, path, q);
    }
  }

  // ----- Otherwise some continuation breaks it -----

  function Under(i: nat, events: seq<Event>): (acts: seq<Act>)
    ensures |acts| == |events| && forall k | 0 <= k < |acts| :: acts[k] == Do(i, events[k])
  {
    seq(|events|, k requires 0 <= k < |events| => Do(i, events[k]))
  }

  predicate NoReopening(acts: seq<Act>) {
    forall k | 0 <= k < |acts| :: !acts[k].Reopen?
  }

  /** Events under one handle change that handle; they leave the log alone when they finish no step. */
  lemma {:induction false} UnderOneHandle(prog: Program, s: System, i: nat, events: seq<Event>)
    requires i < |s.handles| && OnlyBegins(events) && Execute(prog, s.handles[i], events).Some?
    ensures
      Perform(prog, s, Under(i, events)) ==
        Some(s.(handles := s.handles[i := Execute(prog, s.handles[i], events).value]))
    decreases |events|
  {
    hide Apply;
    if events != [] {
      var next := After(prog, s, Do(i, events[0])).value;
      UnderOneHandle(prog, next, i, events[1..]);
      assert Under(i, events)[1..] == Under(i, events[1..]);
      var last := Execute(prog, s.handles[i], events).value;
      assert next.handles[i := last] == s.handles[i := last];
    } else {
      assert s.handles[i := s.handles[i]] == s.handles;
    }
  }

  lemma {:induction false} ExecuteConcatenated(prog: Program, s: System, a: seq<Act>, b: seq<Act>)
    requires Perform(prog, s, a).Some?
    ensures Perform(prog, s, a + b) == Perform(prog, Perform(prog, s, a).value, b)
    decreases |a|
  {
    hide After;
    if a == [] {
      assert a + b == b;
    } else {
      assert (a + b)[1..] == a[1..] + b;
      ExecuteConcatenated(prog, After(prog, s, a[0]).value, a[1..], b);
    }
  }

  /** A promise kept through all acts is kept by the later ones from where the earlier ones led. */
  lemma {:induction false} KeptLater(prog: Program, s: System, a: seq<Act>, b: seq<Act>)
    requires Perform(prog, s, a).Some? && Kept(prog, s, a + b)
    ensures Kept(prog, Perform(prog, s, a).value, b)
    decreases |a|
  {
    hide After, KeptBy;
    if a == [] {
      assert a + b == b;
    } else {
      assert (a + b)[1..] == a[1..] + b;
      KeptLater(prog, After(prog, s, a[0]).value, a[1..], b);
    }
  }

  lemma {:induction false} OrderlyBefore(prog: Program, s: System, a: seq<Act>, b: seq<Act>)
    requires Perform(prog, s, a).Some? && NoReopening(a) && Orderly(prog, Perform(prog, s, a).value, b)
    ensures Orderly(prog, s, a + b)
    decreases |a|
  {
    hide After, Quiet;
    if a == [] {
      assert a + b == b;
    } else {
      assert (a + b)[1..] == a[1..] + b;
      OrderlyBefore(prog, After(prog, s, a[0]).value, a[1..], b);
    }
  }

  /** What is unsafe after acts without a reopening was unsafe before. */
  lemma UnsafeBefore(prog: Program, s: System, a: seq<Act>)
    requires Perform(prog, s, a).Some? && NoReopening(a) && !Safe(prog, Perform(prog, s, a).value)
    ensures !Safe(prog, s)
  {
    hide Perform, Orderly, Kept;
    var t := Perform(prog, s, a).value;
    var b :| Orderly(prog, t, b) && !Kept(prog, t, b);
    OrderlyBefore(prog, s, a, b);
    if Kept(prog, s, a + b) {
      KeptLater(prog, s, a, b);
    }
  }

  /** One act that breaks the promise. */
  lemma BreaksAtOnce(prog: Program, s: System, a: Act)
    requires After(prog, s, a).Some? && !a.Reopen? && !KeptBy(prog, s, a)
    ensures !Safe(prog, s)
  {
    hide After, KeptBy;
    var acts := [a];
    assert acts[0] == a && acts[1..] == [];
    assert Orderly(prog, After(prog, s, a).value, acts[1..]);
    assert Orderly(prog, s, acts);
    assert !KeptBy(prog, s, acts[0]);
    assert !Kept(prog, s, acts);
  }

  function Other(v: V): V {
    if v == Null then Bool(true) else Null
  }

  /** An active handle comes to where it runs a step and can finish it with any result. */
  lemma ActiveHandleSaves(prog: Program, s: System, i: nat) returns (acts: seq<Act>, p: nat, h: Run)
    requires SystemInv(prog, s) && i < |s.handles| && Active(prog, s.handles[i])
    ensures NoReopening(acts) && Perform(prog, s, acts) == Some(s.(handles := s.handles[i := h]))
    ensures p in h.running && h.log == s.handles[i].log
  {
    hide Inv, Active, Execute, OnPath;
    var events;
    events, p, h := ActiveHandleRuns(prog, s.handles[i]);
    UnderOneHandle(prog, s, i, events);
    acts := Under(i, events);
  }

  /** An active handle that does not hold all that is persisted can lose some of it. */
  lemma BehindIsUnsafe(prog: Program, s: System, i: nat)
    requires SystemInv(prog, s) && i < |s.handles| && Active(prog, s.handles[i])
    requires !Extends(s.log, s.handles[i].log)
    ensures !Safe(prog, s)
  {
    hide SystemInv, Active, Safe, Perform;
    var acts, p, h := ActiveHandleSaves(prog, s, i);
    var t := s.(handles := s.handles[i := h]);
    var v := if p in s.log then Other(s.log[p]) else Null;
    assert !Extends(s.log, h.log[p := v]) by { SaveLoses(s.log, h.log, p, v); }
    BreaksAtOnce(prog, t, Do(i, Finish(p, v)));
    UnsafeBefore(prog, s, acts);
  }

  lemma SaveLoses(log: map<nat, V>, held: map<nat, V>, p: nat, v: V)
    requires !Extends(log, held) && (p in log ==> log[p] != v)
    ensures !Extends(log, held[p := v])
  {
    var q :| q in log && !(q in held && held[q] == log[q]);
    if q == p {
      assert p in log && held[p := v][p] != log[p];
    } else {
      assert !(q in held[p := v] && held[p := v][q] == log[q]);
    }
  }

  /** Of two active handles each can save what the other does not hold. */
  lemma TwoActiveIsUnsafe(prog: Program, s: System, i: nat, j: nat)
    requires SystemInv(prog, s) && i < |s.handles| && j < |s.handles| && i != j
    requires Active(prog, s.handles[i]) && Active(prog, s.handles[j])
    ensures !Safe(prog, s)
  {
    hide SystemInv, Active, Safe, Perform;
    var acts, p, h := ActiveHandleSaves(prog, s, i);
    var t := s.(handles := s.handles[i := h]);
    var held := s.handles[j].log;
    var v := if p in held then Other(held[p]) else Null;
    var u := After(prog, t, Do(i, Finish(p, v))).value;
    assert u.log[p] == v && u.handles[j] == s.handles[j];
    ExecuteKeepsInv(prog, s, acts);
    AfterKeepsInv(prog, t, Do(i, Finish(p, v)));
    BehindIsUnsafe(prog, u, j);
    OneMoreAct(prog, s, acts, Do(i, Finish(p, v)));
    UnsafeBefore(prog, s, acts + [Do(i, Finish(p, v))]);
  }

  lemma OneMoreAct(prog: Program, s: System, acts: seq<Act>, a: Act)
    requires Perform(prog, s, acts).Some?
    ensures Perform(prog, s, acts + [a]) == After(prog, Perform(prog, s, acts).value, a)
  {
    hide After;
    ExecuteConcatenated(prog, s, acts, [a]);
    assert [a][1..] == [];
  }

  // ----- When the promise holds -----

  /** Every orderly continuation keeps the promise exactly when at most one handle is active and it holds all that is
      persisted. */
  lemma SafeIff(prog: Program, s: System)
    requires SystemInv(prog, s)
    ensures Safe(prog, s) <==> InStep(prog, s)
  {
    hide SystemInv, Active, Orderly, Kept;
    if InStep(prog, s) {
      forall acts | Orderly(prog, s, acts) ensures Kept(prog, s, acts) {
        InStepIsKept(prog, s, acts);
      }
    } else if i, j :| 0 <= i < j < |s.handles| && Active(prog, s.handles[i]) && Active(prog, s.handles[j]) {
      TwoActiveIsUnsafe(prog, s, i, j);
    } else {
      var i :| 0 <= i < |s.handles| && Active(prog, s.handles[i]) && !Extends(s.log, s.handles[i].log);
      BehindIsUnsafe(prog, s, i);
    }
  }

  /** A path of the larger log is one of the smaller one too, or something is missing in the smaller one. */
  lemma {:induction false} PathBelow(prog: Program, small: map<nat, V>, big: map<nat, V>, path: seq<seq<V>>)
    requires Extends(small, big) && Follows(prog, big, path)
    ensures Follows(prog, small, path) || Incomplete(prog, small)
    decreases |path|
  {
    hide OnPath;
    if path != [] {
      var before, last := path[..|path| - 1], path[|path| - 1];
      PathBelow(prog, small, big, before);
      if Follows(prog, small, before) && !Logged(small, Total(before), last) {
        var p :| Total(before) <= p < Total(before) + |last| && !(p in small && small[p] == last[p - Total(before)]);
        MissingOnPath(prog, small, before, p);
      }
    }
  }

  lemma MissingOnPath(prog: Program, log: map<nat, V>, path: seq<seq<V>>, p: nat)
    requires Follows(prog, log, path) && WithinNext(prog, path, p) && p !in log
    ensures Incomplete(prog, log)
  {
    hide Follows;
    assert OnPath(prog, log, p);
  }

  lemma IncompleteBelow(prog: Program, small: map<nat, V>, big: map<nat, V>)
    requires Extends(small, big) && Incomplete(prog, big)
    ensures Incomplete(prog, small)
  {
    hide Follows, Total;
    var p :| p !in big && OnPath(prog, big, p);
    var path :| Follows(prog, big, path) && WithinNext(prog, path, p);
    PathBelow(prog, small, big, path);
    if Follows(prog, small, path) {
      MissingOnPath(prog, small, path, p);
    }
  }

  /** Opening the run once more keeps the promise safe exactly when no earlier handle is active. */
  lemma ReopeningIsSafeIff(prog: Program, s: System)
    requires SystemInv(prog, s) && InStep(prog, s)
    ensures Safe(prog, Reopened(s)) <==> Quiet(prog, s)
  {
    hide SystemInv, Incomplete, Safe;
    var t := Reopened(s);
    AfterKeepsInv(prog, s, Reopen);
    SafeIff(prog, t);
    var n := |s.handles|;
    assert t.handles[n] == Fresh(s.log) && forall i | 0 <= i < n :: t.handles[i] == s.handles[i];
    if i :| 0 <= i < n && Active(prog, s.handles[i]) {
      IncompleteBelow(prog, s.log, s.handles[i].log);
      assert Active(prog, t.handles[i]) && Active(prog, t.handles[n]);
    }
  }

  /** What handle `i` saves when it finishes `p`. */
  function Saved(s: System, i: nat, p: nat, v: V): map<nat, V>
    requires i < |s.handles|
  {
    s.handles[i].log[p := v]
  }

  /** A save, by whichever handle, loses nothing and leaves the promise safe exactly when it extends the persisted log
      and afterwards there is no active handle, or one only, and that one holds all that was saved: the finished step
      with its result too. */
  lemma SaveIsSafeIff(prog: Program, s: System, i: nat, p: nat, v: V)
    requires SystemInv(prog, s) && i < |s.handles| && p in s.handles[i].running
    ensures
      var t := After(prog, s, Do(i, Finish(p, v))).value;
      Extends(s.log, t.log) && Safe(prog, t) <==>
      && Extends(s.log, Saved(s, i, p, v))
      && (forall j, k | 0 <= j < k < |s.handles| :: !(Active(prog, t.handles[j]) && Active(prog, t.handles[k])))
      && (forall j | 0 <= j < |s.handles| && j != i && Active(prog, s.handles[j]) ::
            Extends(Saved(s, i, p, v), s.handles[j].log))
  {
    hide SystemInv, Active, Safe;
    var t := After(prog, s, Do(i, Finish(p, v))).value;
    AfterKeepsInv(prog, s, Do(i, Finish(p, v)));
    SafeIff(prog, t);
    assert t.handles[i].log == t.log == Saved(s, i, p, v);
    assert forall j | 0 <= j < |s.handles| && j != i :: t.handles[j] == s.handles[j];
  }

  /** Nothing is left to call under any handle, now or when opened again. */
  ghost predicate Finished(prog: Program, s: System) {
    Quiet(prog, s) && !Incomplete(prog, s.log)
  }

  lemma FinishedStays(prog: Program, s: System, a: Act)
    requires SystemInv(prog, s) && Finished(prog, s) && After(prog, s, a).Some?
    ensures Finished(prog, After(prog, s, a).value) && KeptBy(prog, s, a)
  {
    hide Inv, Incomplete, OnPath, Apply;
    match a
    case Do(i, e) =>
      ActivityFades(prog, s.handles[i], e);
      assert !Active(prog, s.handles[i]);
    case Crash =>
    case Reopen =>
  }

  lemma {:induction false} FinishedIsKept(prog: Program, s: System, acts: seq<Act>)
    requires SystemInv(prog, s) && Finished(prog, s)
    ensures Kept(prog, s, acts)
    decreases |acts|
  {
    hide SystemInv, Finished, After, KeptBy;
    if acts != [] && After(prog, s, acts[0]).Some? {
      AfterKeepsInv(prog, s, acts[0]);
      FinishedStays(prog, s, acts[0]);
      FinishedIsKept(prog, After(prog, s, acts[0]).value, acts[1..]);
    }
  }

  /** With reopenings at any time, every continuation keeps the promise exactly when nothing is left to call. */
  lemma SafeAnyhowIff(prog: Program, s: System)
    requires SystemInv(prog, s)
    ensures SafeAnyhow(prog, s) <==> Finished(prog, s)
  {
    hide SystemInv, Orderly, Kept, Incomplete;
    if Finished(prog, s) {
      forall acts ensures Kept(prog, s, acts) {
        FinishedIsKept(prog, s, acts);
      }
    } else {
      LaterIsSafe(prog, s);
      SafeIff(prog, s);
      if SafeAnyhow(prog, s) {
        assert Safe(prog, s);
        TwiceReopenedIsUnsafe(prog, s);
      }
    }
  }

  /** What is safe anyhow is safe after two reopenings. */
  lemma LaterIsSafe(prog: Program, s: System)
    ensures SafeAnyhow(prog, s) ==> Safe(prog, Reopened(Reopened(s)))
  {
    hide Orderly;
    if SafeAnyhow(prog, s) {
      forall acts ensures Kept(prog, Reopened(Reopened(s)), acts) {
        var once := [Reopen] + acts;
        var twice := [Reopen] + once;
        assert twice[1..] == once && once[1..] == acts;
        assert Kept(prog, s, twice);
        assert Kept(prog, Reopened(s), once);
      }
    }
  }

  lemma TwiceReopenedIsUnsafe(prog: Program, s: System)
    requires SystemInv(prog, s) && InStep(prog, s) && !Finished(prog, s)
    ensures !Safe(prog, Reopened(Reopened(s)))
  {
    hide SystemInv, Safe, Incomplete;
    var t := Reopened(Reopened(s));
    var n := |s.handles|;
    AfterKeepsInv(prog, s, Reopen);
    AfterKeepsInv(prog, Reopened(s), Reopen);
    if i :| 0 <= i < n && Active(prog, s.handles[i]) {
      IncompleteBelow(prog, s.log, s.handles[i].log);
    }
    assert t.handles[n] == t.handles[n + 1] == Fresh(s.log);
    assert Active(prog, Fresh(s.log));
    TwoActiveIsUnsafe(prog, t, n, n + 1);
  }
}
