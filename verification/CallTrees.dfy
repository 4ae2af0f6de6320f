/** The collector rebuilds the call tree: what was reported of it, in whatever order, hangs where it was called. */
module CallTrees {
  import opened Wrappers
  import opened Bytes
  import opened Collections
  import opened Tracing
  import opened Collector

  // ----- The levels of an assembled forest -----

  /** The children of the spans of one level. */
  function Below(sorted: seq<Span>, ids: set<ByteString>, level: seq<Span>): seq<Span> {
    if level == [] then [] else
    Below(sorted, ids, level[..|level| - 1]) + Children(sorted, ids, level[|level| - 1].id)
  }

  /** The spans at distance `k` from the roots. */
  function Level(sorted: seq<Span>, ids: set<ByteString>, k: nat): seq<Span> {
    if k == 0 then Roots(sorted, ids) else Below(sorted, ids, Level(sorted, ids, k - 1))
  }

  /** The nodes below the given ones. */
  ghost function NodesBelow(level: seq<Node>): seq<Node>
    reads set node | node in level
  {
    if level == [] then [] else NodesBelow(level[..|level| - 1]) + level[|level| - 1].children
  }

  lemma {:induction false} NodesOfConcat(nodes: map<ByteString, Node>, a: seq<Span>, b: seq<Span>)
    ensures NodesOf(nodes, a + b) == NodesOf(nodes, a) + NodesOf(nodes, b)
  {
    if b == [] {
      assert a + b == a;
    } else {
      var before := b[..|b| - 1];
      assert (a + b)[..|a + b| - 1] == a + before;
      NodesOfConcat(nodes, a, before);
    }
  }

  /** In the assembled node structure too, the nodes below level `k` are those of level `k + 1`. */
  lemma {:induction false} LevelsOfNodes(nodes: map<ByteString, Node>, sorted: seq<Span>, level: seq<Span>)
    requires Placed(nodes, sorted, nodes.Keys)
    requires forall s | s in level :: s.id in nodes
    ensures NodesBelow(NodesOf(nodes, level)) == NodesOf(nodes, Below(sorted, nodes.Keys, level))
  {
    if level != [] {
      var before, last := level[..|level| - 1], level[|level| - 1];
      LevelsOfNodes(nodes, sorted, before);
      assert NodesOf(nodes, level)[..|level| - 1] == NodesOf(nodes, before);
      NodesOfConcat(nodes, Below(sorted, nodes.Keys, before), Children(sorted, nodes.Keys, last.id));
    }
  }

  // ----- Every span once -----

  predicate ProperIds(spans: seq<Span>) {
    && (forall i | 0 <= i < |spans| :: spans[i].id != [])
    && (forall i, j | 0 <= i < j < |spans| :: spans[i].id != spans[j].id)
  }

  lemma {:induction false} CountParts(spans: seq<Span>, ids: set<ByteString>, id: ByteString, s: Span)
    ensures multiset(Roots(spans, ids))[s] == if IsRoot(s, ids) then multiset(spans)[s] else 0
    ensures multiset(Children(spans, ids, id))[s] == if !IsRoot(s, ids) && s.parent == id then multiset(spans)[s] else 0
  {
    if spans != [] {
      var before := spans[..|spans| - 1];
      assert spans == before + [spans[|spans| - 1]];
      CountParts(before, ids, id, s);
    }
  }

  lemma {:induction false} CountOnce(spans: seq<Span>, s: Span)
    requires ProperIds(spans)
    ensures multiset(spans)[s] == if s in spans then 1 else 0
  {
    if spans != [] {
      var before := spans[..|spans| - 1];
      assert spans == before + [spans[|spans| - 1]];
      CountOnce(before, s);
    }
  }

  /** Under distinct ids the span with a given id is unique. */
  lemma LastWithIsThe(spans: seq<Span>, p: Span)
    requires ProperIds(spans) && p in spans
    ensures p.id in Ids(spans) && LastWith(spans, p.id) == p
  {
    var i :| 0 <= i < |spans| && spans[i] == p;
    assert spans[i].id == p.id;
    var q := LastWith(spans, p.id);
    var j :| 0 <= j < |spans| && spans[j] == q;
    assert i == j;
  }

  /** Following reported parents from `s` reaches a root after `k` steps. */
  predicate AtDepth(spans: seq<Span>, s: Span, k: nat)
    decreases k
  {
    if k == 0 then IsRoot(s, Ids(spans))
    else !IsRoot(s, Ids(spans)) && AtDepth(spans, LastWith(spans, s.parent), k - 1)
  }

  lemma {:induction false} DepthIsUnique(spans: seq<Span>, s: Span, j: nat, k: nat)
    requires AtDepth(spans, s, j) && AtDepth(spans, s, k)
    ensures j == k
    decreases k
  {
    if j > 0 && k > 0 {
      DepthIsUnique(spans, LastWith(spans, s.parent), j - 1, k - 1);
    }
  }

  lemma {:induction false} LevelMembers(spans: seq<Span>, k: nat)
    ensures forall s | s in Level(Sorted(spans), Ids(spans), k) :: s in spans
  {
    var sorted, ids := Sorted(spans), Ids(spans);
    forall s | s in Level(sorted, ids, k) ensures s in spans {
      if k == 0 {
        CountParts(sorted, ids, [], s);
        assert s in multiset(Roots(sorted, ids));
      } else {
        BelowMembers(sorted, ids, Level(sorted, ids, k - 1), s);
      }
      assert s in multiset(sorted);
    }
  }

  lemma {:induction false} BelowMembers(sorted: seq<Span>, ids: set<ByteString>, level: seq<Span>, s: Span)
    requires s in Below(sorted, ids, level)
    ensures s in multiset(sorted)
  {
    var n := |level| - 1;
    if s in Below(sorted, ids, level[..n]) {
      BelowMembers(sorted, ids, level[..n], s);
    } else {
      CountParts(sorted, ids, level[n].id, s);
      assert s in multiset(Children(sorted, ids, level[n].id));
    }
  }

  /** A child occurs below a level as often as its parent occurs in it. */
  lemma {:induction false} CountBelow(spans: seq<Span>, level: seq<Span>, s: Span)
    requires ProperIds(spans) && s in spans && forall q | q in level :: q in spans
    ensures
      var ids := Ids(spans);
      multiset(Below(Sorted(spans), ids, level))[s] ==
        if IsRoot(s, ids) then 0 else multiset(level)[LastWith(spans, s.parent)]
  {
    var sorted, ids := Sorted(spans), Ids(spans);
    if level != [] {
      var before, last := level[..|level| - 1], level[|level| - 1];
      assert level == before + [last];
      CountBelow(spans, before, s);
      CountParts(sorted, ids, last.id, s);
      CountOnce(spans, s);
      LastWithIsThe(spans, last);
    }
  }

  /** Distinct ids: a reported span occurs at the level given by its chain of reported parents, once, and at no
      other level. A span whose chain of parents never ends (a cycle of false reports) occurs nowhere. */
  lemma {:induction false} SpanOccursAtItsDepth(spans: seq<Span>, s: Span, k: nat)
    requires ProperIds(spans) && s in spans
    ensures multiset(Level(Sorted(spans), Ids(spans), k))[s] == if AtDepth(spans, s, k) then 1 else 0
    decreases k
  {
    hide Roots, Below, Sorted, LastWith, Ids, ProperIds;
    var sorted, ids := Sorted(spans), Ids(spans);
    if k == 0 {
      CountParts(sorted, ids, [], s);
      CountOnce(spans, s);
    } else {
      LevelMembers(spans, k - 1);
      CountBelow(spans, Level(sorted, ids, k - 1), s);
      if !IsRoot(s, ids) {
        SpanOccursAtItsDepth(spans, LastWith(spans, s.parent), k - 1);
      }
    }
  }

  /** Roots and every list of siblings are in order of start time. */
  lemma SiblingsInOrder(spans: seq<Span>, id: ByteString)
    ensures Ordered(Roots(Sorted(spans), Ids(spans)))
    ensures Ordered(Children(Sorted(spans), Ids(spans), id))
  {
    SortedIsOrdered(spans);
    PartsOrdered(Sorted(spans), Ids(spans), id);
  }

  lemma {:induction false} PartsOrdered(sorted: seq<Span>, ids: set<ByteString>, id: ByteString)
    requires Ordered(sorted)
    ensures Ordered(Roots(sorted, ids)) && Ordered(Children(sorted, ids, id))
    ensures forall s | s in Roots(sorted, ids) || s in Children(sorted, ids, id) :: s in sorted
  {
    if sorted != [] {
      var before, last := sorted[..|sorted| - 1], sorted[|sorted| - 1];
      PartsOrdered(before, ids, id);
      assert forall s | s in before :: s.start <= last.start;
    }
  }

  // ----- Call trees -----

  /** A call: the context it carries, when it started, and the calls made while handling it. */
  datatype Call = Call(ctx: Context, start: int, callees: seq<Call>)

  /** The span a fiber reports for the call it handles. */
  function SpanOf(call: Call): Span {
    Span(call.ctx.traceId, call.ctx.spanId, call.ctx.parentSpanId, call.start)
  }

  /** The context was derived from the caller's. */
  ghost predicate DerivedFrom(child: Context, parent: Context) {
    exists spanId, localDeadline, spent, sink, freshTrace, freshSpan ::
      child == ChildContext(parent, spanId, localDeadline, spent, sink, freshTrace, freshSpan)
  }

  ghost predicate Traced(call: Call) {
    forall i | 0 <= i < |call.callees| :: DerivedFrom(call.callees[i].ctx, call.ctx) && Traced(call.callees[i])
  }

  /** All spans of a call tree, callers before callees. */
  function AllSpans(call: Call): (r: seq<Span>)
    ensures |r| >= 1 && r[0] == SpanOf(call)
    decreases call, 1
  {
    [SpanOf(call)] + CalleeSpans(call.callees)
  }

  function CalleeSpans(calls: seq<Call>): seq<Span>
    decreases calls, 2
  {
    if calls == [] then [] else AllSpans(calls[0]) + CalleeSpans(calls[1..])
  }

  /** Who called: the caller's span for each span of the tree but the first. */
  function Callers(call: Call): (r: seq<Span>)
    ensures |r| == |AllSpans(call)| - 1
    decreases call, 1
  {
    CalleeCallers(SpanOf(call), call.callees)
  }

  function CalleeCallers(caller: Span, calls: seq<Call>): (r: seq<Span>)
    ensures |r| == |CalleeSpans(calls)|
    decreases calls, 2
  {
    if calls == [] then [] else [caller] + Callers(calls[0]) + CalleeCallers(caller, calls[1..])
  }

  /** Span `i` of the list names its caller, which stands before it: `first` or an earlier element. */
  ghost predicate CallerBefore(first: Span, spans: seq<Span>, callers: seq<Span>, i: nat)
    requires |spans| == |callers| && i < |spans|
  {
    && spans[i].parent == callers[i].id
    && (callers[i] == first || exists j | 0 <= j < i :: spans[j] == callers[i])
  }

  lemma {:induction false} CalleesNameCallers(call: Call)
    requires Traced(call)
    ensures forall i | 0 <= i < |Callers(call)| :: CallerBefore(SpanOf(call), AllSpans(call)[1..], Callers(call), i)
    decreases call, 1
  {
    assert AllSpans(call)[1..] == CalleeSpans(call.callees);
    forall i | 0 <= i < |call.callees|
      ensures Traced(call.callees[i]) && call.callees[i].ctx.parentSpanId == call.ctx.spanId
    {
      assert DerivedFrom(call.callees[i].ctx, call.ctx);
    }
    EachCalleeNamesCaller(SpanOf(call), call.callees);
  }

  lemma {:induction false} EachCalleeNamesCaller(caller: Span, calls: seq<Call>)
    requires forall i | 0 <= i < |calls| :: Traced(calls[i]) && calls[i].ctx.parentSpanId == caller.id
    ensures forall i | 0 <= i < |CalleeSpans(calls)| ::
      CallerBefore(caller, CalleeSpans(calls), CalleeCallers(caller, calls), i)
    decreases calls, 2
  {
    if calls != [] {
      CalleesNameCallers(calls[0]);
      EachCalleeNamesCaller(caller, calls[1..]);
      var spans, callers := CalleeSpans(calls), CalleeCallers(caller, calls);
      var first := AllSpans(calls[0]);
      var n := |first|;
      forall i | 0 <= i < |spans| ensures CallerBefore(caller, spans, callers, i) {
        if i == 0 {
        } else if i < n {
          assert CallerBefore(first[0], first[1..], Callers(calls[0]), i - 1);
          assert callers[i] == Callers(calls[0])[i - 1];
          if callers[i] == first[0] {
            assert spans[0] == callers[i];
          } else {
            var j :| 0 <= j < i - 1 && first[1..][j] == callers[i];
            assert spans[j + 1] == callers[i];
          }
        } else {
          var tail := CalleeSpans(calls[1..]);
          assert CallerBefore(caller, tail, CalleeCallers(caller, calls[1..]), i - n);
          assert spans[i] == tail[i - n] && callers[i] == CalleeCallers(caller, calls[1..])[i - n];
          if callers[i] != caller {
            var j :| 0 <= j < i - n && tail[j] == callers[i];
            assert spans[n + j] == callers[i];
          }
        }
      }
    }
  }

  // ----- Rebuilding a call tree -----

  /** Some of the tree's spans, in some order. */
  ghost predicate ReportedFrom(reported: seq<Span>, root: Call) {
    multiset(reported) <= multiset(AllSpans(root))
  }

  /** A traced call tree with distinct non-empty span ids whose first call came from outside. */
  ghost predicate ProperTree(root: Call) {
    && Traced(root)
    && ProperIds(AllSpans(root))
    && root.ctx.parentSpanId !in Ids(AllSpans(root))
  }

  lemma ReportedIsProper(reported: seq<Span>, root: Call)
    requires ProperTree(root) && ReportedFrom(reported, root)
    ensures ProperIds(reported)
    ensures forall s | s in reported :: s in AllSpans(root)
    ensures Ids(reported) <= Ids(AllSpans(root))
  {
    var all := AllSpans(root);
    forall s | s in reported ensures s in all && s.id != [] {
      assert s in multiset(reported);
      assert s in multiset(all);
    }
    forall i, j | 0 <= i < j < |reported| ensures reported[i].id != reported[j].id {
      if reported[i].id == reported[j].id {
        LastWithIsThe(all, reported[i]);
        LastWithIsThe(all, reported[j]);
        CountOnce(all, reported[i]);
        assert multiset(reported)[reported[i]] <= multiset(all)[reported[i]];
        TwiceOccurs(reported, i, j);
      }
    }
    forall id | id in Ids(reported) ensures id in Ids(all) {
      var i :| 0 <= i < |reported| && reported[i].id == id;
      LastWithIsThe(all, reported[i]);
    }
  }

  /** A reported call hangs once below its caller when that was reported, and is a root otherwise. */
  lemma CallHangsBelowCaller(root: Call, reported: seq<Span>, i: nat, id: ByteString)
    requires ProperTree(root) && ReportedFrom(reported, root) && i < |Callers(root)|
    requires AllSpans(root)[i + 1] in reported
    ensures
      var caller, callee := Callers(root)[i], AllSpans(root)[i + 1];
      var sorted, ids := Sorted(reported), Ids(reported);
      && multiset(Roots(sorted, ids))[callee] == (if caller in reported then 0 else 1)
      && multiset(Children(sorted, ids, id))[callee] == (if caller in reported && id == caller.id then 1 else 0)
  {
    var all, callers := AllSpans(root), Callers(root);
    var caller, callee := callers[i], all[i + 1];
    ReportedIsProper(reported, root);
    CallerOf(root, i);
    CountParts(Sorted(reported), Ids(reported), id, callee);
    CountOnce(reported, callee);
    if caller in reported {
      LastWithIsThe(reported, caller);
      LastWithIsThe(all, caller);
    } else if caller.id in Ids(reported) {
      var other := LastWith(reported, caller.id);
      LastWithIsThe(all, other);
      LastWithIsThe(all, caller);
    }
  }

  lemma CallerOf(root: Call, i: nat)
    requires Traced(root) && i < |Callers(root)|
    ensures AllSpans(root)[i + 1].parent == Callers(root)[i].id
    ensures exists j | 0 <= j <= i :: AllSpans(root)[j] == Callers(root)[i]
  {
    CalleesNameCallers(root);
    var all, callers := AllSpans(root), Callers(root);
    assert CallerBefore(all[0], all[1..], callers, i);
    if callers[i] != all[0] {
      var j :| 0 <= j < i && all[1..][j] == callers[i];
      assert all[j + 1] == callers[i];
    }
  }

  /** The first call is a root. */
  lemma FirstCallIsRoot(root: Call, reported: seq<Span>)
    requires ProperTree(root) && ReportedFrom(reported, root)
    ensures IsRoot(SpanOf(root), Ids(reported))
  {
    ReportedIsProper(reported, root);
  }

  /** The reported parent of a reported call is its caller, which stands before it. */
  lemma ReportedParentIsBefore(root: Call, reported: seq<Span>, i: nat) returns (j: nat)
    requires ProperTree(root) && ReportedFrom(reported, root) && i < |AllSpans(root)|
    requires AllSpans(root)[i] in reported && !IsRoot(AllSpans(root)[i], Ids(reported))
    ensures j < i && AllSpans(root)[j] in reported
    ensures AllSpans(root)[j] == LastWith(reported, AllSpans(root)[i].parent)
  {
    hide ProperIds, LastWith, AllSpans, Callers;
    var s := AllSpans(root)[i];
    ReportedIsProper(reported, root);
    if i == 0 {
      FirstCallIsRoot(root, reported);
    }
    CallerOf(root, i - 1);
    j :| 0 <= j <= i - 1 && AllSpans(root)[j] == Callers(root)[i - 1];
    LastWithIsThe(AllSpans(root), LastWith(reported, s.parent));
    LastWithIsThe(AllSpans(root), AllSpans(root)[j]);
  }

  /** Every reported call has a depth: its chain of reported callers ends at a root. */
  lemma {:induction false} ReportedCallHasDepth(root: Call, reported: seq<Span>, i: nat) returns (k: nat)
    requires ProperTree(root) && ReportedFrom(reported, root) && i < |AllSpans(root)|
    requires AllSpans(root)[i] in reported
    ensures AtDepth(reported, AllSpans(root)[i], k)
    decreases i
  {
    hide ProperTree, ReportedFrom, LastWith, AllSpans;
    if IsRoot(AllSpans(root)[i], Ids(reported)) {
      return 0;
    }
    var j := ReportedParentIsBefore(root, reported, i);
    k := ReportedCallHasDepth(root, reported, j);
    k := k + 1;
  }

  /** So each reported call of a call tree stands in the assembled forest exactly once: at one level, one time. */
  lemma EachReportedCallOnce(root: Call, reported: seq<Span>, s: Span)
    requires ProperTree(root) && ReportedFrom(reported, root) && s in reported
    ensures exists k: nat ::
      && multiset(Level(Sorted(reported), Ids(reported), k))[s] == 1
      && forall j: nat | j != k :: multiset(Level(Sorted(reported), Ids(reported), j))[s] == 0
  {
    ReportedIsProper(reported, root);
    var i :| 0 <= i < |AllSpans(root)| && AllSpans(root)[i] == s;
    var k := ReportedCallHasDepth(root, reported, i);
    SpanOccursAtItsDepth(reported, s, k);
    forall j: nat | j != k ensures multiset(Level(Sorted(reported), Ids(reported), j))[s] == 0 {
      SpanOccursAtItsDepth(reported, s, j);
      if AtDepth(reported, s, j) {
        DepthIsUnique(reported, s, j, k);
      }
    }
  }

  // ----- The collector's store -----

  /** The spans reported so far, by trace. */
  class SpanStore {
    var byTrace: map<ByteString, seq<Span>>

    constructor ()
      ensures byTrace == map[]
    {
      byTrace := map[];
    }

    function SpansOf(traceId: ByteString): seq<Span>
      reads this
    {
      if traceId in byTrace then byTrace[traceId] else []
    }

    method Report(span: Span)
      modifies this
      ensures SpansOf(span.traceId) == old(SpansOf(span.traceId)) + [span]
      ensures forall id | id != span.traceId :: SpansOf(id) == old(SpansOf(id))
    {
      byTrace := byTrace[span.traceId := SpansOf(span.traceId) + [span]];
    }

    method Trace(traceId: ByteString) returns (spans: seq<Span>, roots: seq<Node>, ghost nodes: map<ByteString, Node>)
      ensures spans == Sorted(SpansOf(traceId)) && Ordered(spans)
      ensures Indexed(nodes, spans)
      ensures roots == NodesOf(nodes, Roots(Sorted(spans), Ids(spans)))
      ensures Placed(nodes, Sorted(spans), Ids(spans))
    {
      spans := Sorted(SpansOf(traceId));
      SortedIsOrdered(SpansOf(traceId));
      roots, nodes := BuildTree(spans);
    }
  }
}
