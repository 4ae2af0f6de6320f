/** The trace context: how it tightens from call to call, in both implementations, and what that bounds. */
module Tracing {
  import opened Wrappers
  import opened Bytes
  import opened Collections

  /** Where the spans of a trace are reported. */
  datatype Sink = Sink(id: ByteString, endpoint: Utf8Text)

  /** Empty byte strings stand for absent ids. */
  datatype Context = Context(
    traceId: ByteString,
    spanId: ByteString,
    parentSpanId: ByteString,
    deadline: Option<nat>,
    budget: Option<nat>,
    sink: Option<Sink>)

  // ----- Deriving the context of a downstream call -----

  /** `Context::child` of the core. */
  function Child(parent: Context, spanId: ByteString, localDeadline: Option<nat>, spent: nat): Context {
    var deadline :=
      match (parent.deadline, localDeadline)
      case (Some(a), Some(b)) => Some(Min(a, b))
      case (None, b) => b
      case (a, None) => a;
    var budget := match parent.budget case None => None case Some(b) => Some(if b < spent then 0 else b - spent);
    Context(parent.traceId, spanId, parent.spanId, deadline, budget, parent.sink)
  }

  /** What the caller of the second implementation says about the sink: nothing, or a new one, or none at all. */
  datatype SinkOverride = Unset | Use(sink: Option<Sink>)

  function Least(s: seq<nat>): (r: nat)
    requires s != []
    ensures r in s && forall x | x in s :: r <= x
  {
    if |s| == 1 then s[0] else
    assert forall x | x in s :: x == s[0] || x in s[1..];
    Min(s[0], Least(s[1..]))
  }

  function Present(o: Option<nat>): seq<nat> {
    if o.Some? then [o.value] else []
  }

  /** `child_context` of the SDK; `freshTrace` and `freshSpan` are the random ids it draws when it needs them. */
  function ChildContext(
    parent: Context, spanId: ByteString, localDeadline: Option<nat>, spent: nat, sink: SinkOverride,
    freshTrace: ByteString, freshSpan: ByteString): Context
  {
    var deadlines := Present(parent.deadline) + Present(localDeadline);
    Context(
      if parent.traceId == [] then freshTrace else parent.traceId,
      if spanId == [] then freshSpan else spanId,
      parent.spanId,
      if deadlines == [] then None else Some(Least(deadlines)),
      if parent.budget.None? then None
      else Some(if parent.budget.value - spent > 0 then parent.budget.value - spent else 0),
      if sink.Unset? then parent.sink else sink.sink)
  }

  /** The two derivations agree exactly when the second one draws no id, or draws the empty one, and keeps the sink. */
  lemma DerivationsAgreeIff(
    parent: Context, spanId: ByteString, localDeadline: Option<nat>, spent: nat, sink: SinkOverride,
    freshTrace: ByteString, freshSpan: ByteString)
    ensures
      ChildContext(parent, spanId, localDeadline, spent, sink, freshTrace, freshSpan) ==
        Child(parent, spanId, localDeadline, spent)
      <==>
      && (parent.traceId != [] || freshTrace == [])
      && (spanId != [] || freshSpan == [])
      && (sink == Unset || sink == Use(parent.sink))
  {
    var deadlines := Present(parent.deadline) + Present(localDeadline);
    if parent.deadline.Some? && localDeadline.Some? {
      assert deadlines == [parent.deadline.value, localDeadline.value];
      assert deadlines[1..] == [localDeadline.value];
    }
  }

  /** Deadline and budget of `child` follow from those of `parent`. */
  predicate Tightens(child: Context, parent: Context, localDeadline: Option<nat>, spent: nat) {
    var reference := Child(parent, [], localDeadline, spent);
    child.deadline == reference.deadline && child.budget == reference.budget && child.parentSpanId == parent.spanId
  }

  lemma BothDerivationsTighten(
    parent: Context, spanId: ByteString, localDeadline: Option<nat>, spent: nat, sink: SinkOverride,
    freshTrace: ByteString, freshSpan: ByteString)
    ensures Tightens(Child(parent, spanId, localDeadline, spent), parent, localDeadline, spent)
    ensures Tightens(
      ChildContext(parent, spanId, localDeadline, spent, sink, freshTrace, freshSpan), parent, localDeadline, spent)
  {
    var deadlines := Present(parent.deadline) + Present(localDeadline);
    if parent.deadline.Some? && localDeadline.Some? {
      assert deadlines == [parent.deadline.value, localDeadline.value];
      assert deadlines[1..] == [localDeadline.value];
    }
  }

  /** One call: the span it opens and what its caller says about deadline and spending. */
  datatype Spawn = Spawn(spanId: ByteString, localDeadline: Option<nat>, spent: nat)

  /** The context at the end of a path of nested calls from `root` on. */
  function Descend(root: Context, path: seq<Spawn>): Context {
    if path == [] then root else
    var last := path[|path| - 1];
    Child(Descend(root, path[..|path| - 1]), last.spanId, last.localDeadline, last.spent)
  }

  /** Down any path the trace and its sink stay, and each span names the one before it as its parent. */
  lemma {:induction false} PathKeepsTrace(root: Context, path: seq<Spawn>)
    ensures
      var n := |path|;
      var ctx := Descend(root, path);
      && ctx.traceId == root.traceId && ctx.sink == root.sink
      && (n > 0 ==> ctx.spanId == path[n - 1].spanId)
      && (n == 1 ==> ctx.parentSpanId == root.spanId)
      && (n > 1 ==> ctx.parentSpanId == path[n - 2].spanId)
  {
    if path != [] {
      PathKeepsTrace(root, path[..|path| - 1]);
    }
  }

  /** All deadlines that were set on a path: the root's and those of the callers. */
  function DeadlinesSet(root: Context, path: seq<Spawn>): seq<nat> {
    if path == [] then Present(root.deadline)
    else DeadlinesSet(root, path[..|path| - 1]) + Present(path[|path| - 1].localDeadline)
  }

  /** The deadline at the end of a path is the earliest one set on it, and there is none when none was set. */
  lemma {:induction false} EarliestDeadlineHolds(root: Context, path: seq<Spawn>)
    ensures
      var deadline, all := Descend(root, path).deadline, DeadlinesSet(root, path);
      && (deadline.None? <==> all == [])
      && (deadline.Some? ==> deadline.value in all && forall d | d in all :: deadline.value <= d)
  {
    if path != [] {
      EarliestDeadlineHolds(root, path[..|path| - 1]);
    }
  }

  // ----- The gates of a handler -----

  datatype Refusal = DeadlineExceeded | BudgetExhausted | QuotaExceeded

  /** Why a request with this context is refused before its handler runs; `cost` is the capability's price. */
  function Gate(ctx: Context, now: nat, cost: nat): Option<Refusal> {
    if ctx.deadline.Some? && now > ctx.deadline.value then Some(DeadlineExceeded)
    else if ctx.budget.Some? && ctx.budget.value <= 0 then Some(BudgetExhausted)
    else if cost != 0 && ctx.budget.Some? && ctx.budget.value < cost then Some(QuotaExceeded)
    else None
  }

  /** A handler runs when the deadline has not passed and there is budget, as much as the call costs; of several
      reasons against it the deadline is named first, then the empty budget. */
  lemma GateRefusesIff(ctx: Context, now: nat, cost: nat)
    ensures
      var late := ctx.deadline.Some? && ctx.deadline.value < now;
      var spent := ctx.budget == Some(0);
      var dear := ctx.budget.Some? && ctx.budget.value < cost;
      && (Gate(ctx, now, cost).None? <==> !late && !spent && !dear)
      && (Gate(ctx, now, cost) == Some(DeadlineExceeded) <==> late)
      && (Gate(ctx, now, cost) == Some(BudgetExhausted) <==> !late && spent)
      && (Gate(ctx, now, cost) == Some(QuotaExceeded) <==> !late && !spent && dear)
  {
  }

  /** One hop of a call chain: the context it arrived with, when, and at which price; and what its own call spends. */
  datatype Hop = Hop(ctx: Context, now: nat, cost: nat, localDeadline: Option<nat>, spent: nat)

  /** Every call is made while handling the one before it. */
  predicate Nested(chain: seq<Hop>) {
    forall i | 0 < i < |chain| ::
      Tightens(chain[i].ctx, chain[i - 1].ctx, chain[i - 1].localDeadline, chain[i - 1].spent)
  }

  predicate Accepted(chain: seq<Hop>) {
    forall i | 0 <= i < |chain| :: Gate(chain[i].ctx, chain[i].now, chain[i].cost).None?
  }

  function TotalSpent(chain: seq<Hop>): nat {
    if chain == [] then 0 else TotalSpent(chain[..|chain| - 1]) + chain[|chain| - 1].spent
  }

  /** Along a chain the budget is exactly what the spending leaves, and never vanishes. */
  lemma {:induction false} BudgetAlong(chain: seq<Hop>, i: nat)
    requires Nested(chain) && i < |chain|
    ensures match chain[0].ctx.budget
            case None => chain[i].ctx.budget == None
            case Some(b) =>
              chain[i].ctx.budget == Some(if TotalSpent(chain[..i]) < b then b - TotalSpent(chain[..i]) else 0)
  {
    if i > 0 {
      BudgetAlong(chain, i - 1);
      assert chain[..i][..i - 1] == chain[..i - 1];
    }
  }

  /** Along a chain a deadline never loosens or vanishes and the budget never grows. */
  lemma {:induction false} ContextOnlyTightens(chain: seq<Hop>, i: nat, j: nat)
    requires Nested(chain) && i <= j < |chain|
    ensures
      var early, late := chain[i].ctx, chain[j].ctx;
      && (early.deadline.Some? ==> late.deadline.Some? && late.deadline.value <= early.deadline.value)
      && (early.budget.Some? <==> late.budget.Some?)
      && (early.budget.Some? ==> late.budget.value <= early.budget.value)
    decreases j - i
  {
    if i < j {
      ContextOnlyTightens(chain, i, j - 1);
    }
  }

  lemma {:induction false} SpendingAdds(chain: seq<Hop>)
    requires forall i | 0 <= i < |chain| :: chain[i].spent >= 1
    ensures TotalSpent(chain) >= |chain|
  {
    if chain != [] {
      SpendingAdds(chain[..|chain| - 1]);
    }
  }

  /** A request with budget `b` starts no chain of accepted nested calls deeper than `b`,
      when every call spends at least one. */
  lemma BudgetBoundsDepth(chain: seq<Hop>, b: nat)
    requires chain != [] && Nested(chain) && Accepted(chain) && chain[0].ctx.budget == Some(b)
    requires forall i | 0 <= i < |chain| :: chain[i].spent >= 1
    ensures |chain| <= b
  {
    var n := |chain| - 1;
    BudgetAlong(chain, n);
    SpendingAdds(chain[..n]);
    assert Gate(chain[n].ctx, chain[n].now, chain[n].cost).None?;
  }

  /** No hop is accepted later than any deadline set before it in the chain. */
  lemma DeadlineBoundsChain(chain: seq<Hop>, i: nat, j: nat)
    requires Nested(chain) && Accepted(chain) && i <= j < |chain|
    ensures chain[i].ctx.deadline.Some? ==> chain[j].now <= chain[i].ctx.deadline.value
  {
    ContextOnlyTightens(chain, i, j);
    assert Gate(chain[j].ctx, chain[j].now, chain[j].cost).None?;
  }
}
