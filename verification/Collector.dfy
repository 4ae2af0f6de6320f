/** The collector: spans reported in any order are assembled into the call tree through shared nodes. */
module Collector {
  import opened Wrappers
  import opened Bytes
  import opened Sorting
  import opened Tracing

  /** A self-reported span; a missing parent id is the empty one, a missing start time is 0. */
  datatype Span = Span(traceId: ByteString, id: ByteString, parent: ByteString, start: int)

  // ----- Sorting by start time -----

  /** The earlier a span starts, the higher it ranks. */
  function Earliness(): Span -> real {
    (s: Span) => -(s.start as real)
  }

  /** The stable sort: spans with equal start times keep their order. */
  function Sorted(spans: seq<Span>): (r: seq<Span>)
    ensures multiset(r) == multiset(spans)
  {
    Ranked(spans, Earliness())
  }

  predicate Ordered(spans: seq<Span>) {
    forall i, j | 0 <= i < j < |spans| :: spans[i].start <= spans[j].start
  }

  lemma SortedIsOrdered(spans: seq<Span>)
    ensures Ordered(Sorted(spans))
  {
    hide Ranked;
    RankedDescending(spans, Earliness());
    var r := Sorted(spans);
    forall i, j | 0 <= i < j < |r| ensures r[i].start <= r[j].start {
      assert Earliness()(r[i]) >= Earliness()(r[j]);
    }
  }

  /** The spans that started at this time, in order. */
  function StartedAt(spans: seq<Span>, start: int): seq<Span> {
    if spans == [] then []
    else (if spans[0].start == start then [spans[0]] else []) + StartedAt(spans[1..], start)
  }

  lemma {:induction false} StartedAtIsWithScore(spans: seq<Span>, start: int)
    ensures StartedAt(spans, start) == WithScore(spans, Earliness(), -(start as real))
  {
    if spans != [] {
      StartedAtIsWithScore(spans[1..], start);
    }
  }

  /** Spans that started at the same time stay in the order of their reports. */
  lemma TiesKeepTheirOrder(spans: seq<Span>, start: int)
    ensures StartedAt(Sorted(spans), start) == StartedAt(spans, start)
  {
    hide Ranked;
    RankedIsStable(spans, Earliness(), -(start as real));
    StartedAtIsWithScore(spans, start);
    StartedAtIsWithScore(Sorted(spans), start);
  }

  // ----- What the assembled forest is -----

  function Ids(spans: seq<Span>): set<ByteString> {
    set i | 0 <= i < |spans| :: spans[i].id
  }

  /** A span without a known parent is a root. */
  predicate IsRoot(s: Span, ids: set<ByteString>) {
    s.parent !in ids || s.parent == []
  }

  function Roots(spans: seq<Span>, ids: set<ByteString>): seq<Span> {
    if spans == [] then [] else
    var rest := Roots(spans[..|spans| - 1], ids);
    var s := spans[|spans| - 1];
    if IsRoot(s, ids) then rest + [s] else rest
  }

  function Children(spans: seq<Span>, ids: set<ByteString>, id: ByteString): seq<Span> {
    if spans == [] then [] else
    var rest := Children(spans[..|spans| - 1], ids, id);
    var s := spans[|spans| - 1];
    if !IsRoot(s, ids) && s.parent == id then rest + [s] else rest
  }

  /** The last of the spans with this id. */
  function LastWith(spans: seq<Span>, id: ByteString): (r: Span)
    requires id in Ids(spans)
    ensures r in spans && r.id == id
  {
    var s := spans[|spans| - 1];
    if s.id == id then s else
    assert id in Ids(spans[..|spans| - 1]) by {
      var i :| 0 <= i < |spans| && spans[i].id == id;
      assert spans[..|spans| - 1][i].id == id;
    }
    LastWith(spans[..|spans| - 1], id)
  }

  // ----- Assembling it -----

  class Node {
    const span: Span
    var children: seq<Node>

    constructor (span: Span)
      ensures this.span == span && children == []
    {
      this.span, children := span, [];
    }
  }

  /** The nodes of the spans, in the same order. */
  ghost function NodesOf(nodes: map<ByteString, Node>, spans: seq<Span>): (r: seq<Node>)
    ensures (forall s | s in spans :: s.id in nodes) ==>
      |r| == |spans| && forall i | 0 <= i < |r| :: spans[i].id in nodes && r[i] == nodes[spans[i].id]
  {
    if spans == [] then [] else
    var before, last := spans[..|spans| - 1], spans[|spans| - 1];
    assert forall s | s in before :: s in spans;
    NodesOf(nodes, before) + if last.id in nodes then [nodes[last.id]] else []
  }

  lemma NodesOfSnoc(nodes: map<ByteString, Node>, spans: seq<Span>, s: Span)
    requires s.id in nodes
    ensures NodesOf(nodes, spans + [s]) == NodesOf(nodes, spans) + [nodes[s.id]]
  {
    assert (spans + [s])[..|spans|] == spans;
  }

  /** One node per id. */
  ghost predicate Indexed(nodes: map<ByteString, Node>, spans: seq<Span>) {
    && nodes.Keys == Ids(spans)
    && (forall id | id in nodes :: nodes[id].span == LastWith(spans, id))
    && (forall id, other | id in nodes && other in nodes && id != other :: nodes[id] != nodes[other])
  }

  method MakeNodes(spans: seq<Span>) returns (nodes: map<ByteString, Node>)
    ensures Indexed(nodes, spans)
    ensures forall id | id in nodes :: fresh(nodes[id]) && nodes[id].children == []
  {
    nodes := map[];
    for i := 0 to |spans|
      invariant Indexed(nodes, spans[..i])
      invariant forall id | id in nodes :: fresh(nodes[id]) && nodes[id].children == []
    {
      var node := new Node(spans[i]);
      assert spans[..i + 1][..i] == spans[..i];
      nodes := nodes[spans[i].id := node];
      IdsSnoc(spans[..i], spans[i]);
      assert spans[..i] + [spans[i]] == spans[..i + 1];
    }
    assert spans[..|spans|] == spans;
  }

  lemma IdsSnoc(spans: seq<Span>, s: Span)
    ensures Ids(spans + [s]) == Ids(spans) + {s.id}
  {
    var all := spans + [s];
    assert all[|spans|] == s;
    forall id | id in Ids(spans) ensures id in Ids(all) {
      var i :| 0 <= i < |spans| && spans[i].id == id;
      assert all[i] == spans[i];
    }
  }

  function Just(node: Node, when: bool): seq<Node> {
    if when then [node] else []
  }

  /** What one more span adds to the lists of nodes. */
  lemma OneMoreSpan(nodes: map<ByteString, Node>, done: seq<Span>, s: Span, ids: set<ByteString>)
    requires s.id in nodes
    ensures
      NodesOf(nodes, Roots(done + [s], ids)) == NodesOf(nodes, Roots(done, ids)) + Just(nodes[s.id], IsRoot(s, ids))
    ensures forall id :: (
      NodesOf(nodes, Children(done + [s], ids, id)) ==
      NodesOf(nodes, Children(done, ids, id)) + Just(nodes[s.id], !IsRoot(s, ids) && s.parent == id))
  {
    assert (done + [s])[..|done|] == done;
    NodesOfSnoc(nodes, Roots(done, ids), s);
    forall id
      ensures NodesOf(nodes, Children(done + [s], ids, id)) ==
        NodesOf(nodes, Children(done, ids, id)) + Just(nodes[s.id], !IsRoot(s, ids) && s.parent == id)
    {
      NodesOfSnoc(nodes, Children(done, ids, id), s);
    }
  }

  lemma NoSpans(nodes: map<ByteString, Node>, ids: set<ByteString>)
    ensures NodesOf(nodes, Roots([], ids)) == []
    ensures forall id :: NodesOf(nodes, Children([], ids, id)) == []
  {
  }

  /** Every node's children are the nodes of the spans placed under it so far. */
  ghost predicate Placed(nodes: map<ByteString, Node>, done: seq<Span>, ids: set<ByteString>)
    reads nodes.Values
  {
    forall id | id in nodes :: nodes[id].children == NodesOf(nodes, Children(done, ids, id))
  }

  /** The body of the loop: append the span's node to the roots or to the children of its parent's node. */
  method Attach(s: Span, index: map<ByteString, Node>, roots: seq<Node>, ghost done: seq<Span>)
    returns (roots': seq<Node>)
    requires s.id in index && Placed(index, done, index.Keys)
    requires forall id, other | id in index && other in index && id != other :: index[id] != index[other]
    modifies index.Values
    ensures Placed(index, done + [s], index.Keys)
    ensures roots' == roots + Just(index[s.id], IsRoot(s, index.Keys))
  {
    hide NodesOf, Children;
    OneMoreSpan(index, done, s, index.Keys);
    var node := index[s.id];
    roots' := roots;
    if s.parent !in index || s.parent == [] {
      roots' := roots' + [node];
    } else {
      var parent := index[s.parent];
      parent.children := parent.children + [node];
    }
  }

  lemma SortedMember(spans: seq<Span>, k: nat)
    requires k < |Sorted(spans)|
    ensures Sorted(spans)[k] in spans && Sorted(spans)[k].id in Ids(spans)
  {
    assert Sorted(spans)[k] in multiset(Sorted(spans));
  }

  /** Every span's node goes to the roots or to the children of its parent's node, in order of start time. */
  method BuildTree(spans: seq<Span>) returns (roots: seq<Node>, ghost nodes: map<ByteString, Node>)
    ensures Indexed(nodes, spans) && forall id | id in nodes :: fresh(nodes[id])
    ensures roots == NodesOf(nodes, Roots(Sorted(spans), Ids(spans)))
    ensures Placed(nodes, Sorted(spans), Ids(spans))
  {
    hide NodesOf, Roots, Children, LastWith, Sorted, IsRoot, Ids, Just;
    var index := MakeNodes(spans);
    nodes := index;
    roots := [];
    var sorted := Sorted(spans);
    NoSpans(nodes, nodes.Keys);
    for k := 0 to |sorted|
      invariant forall id | id in nodes :: fresh(nodes[id])
      invariant roots == NodesOf(nodes, Roots(sorted[..k], nodes.Keys))
      invariant Placed(nodes, sorted[..k], nodes.Keys)
    {
      var s := sorted[k];
      SortedMember(spans, k);
      OneMoreSpan(nodes, sorted[..k], s, nodes.Keys);
      assert sorted[..k] + [s] == sorted[..k + 1];
      roots := Attach(s, index, roots, sorted[..k]);
    }
    assert sorted[..|sorted|] == sorted;
  }
}
