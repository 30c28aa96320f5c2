/** The edge index of a semantic computation graph and the two worklist searches that run over it. */
module ScgSearch {
  import opened Common

  type NodeId = nat

  datatype EdgeKind = ControlFlow | DataFlow | OtherEdge

  datatype Edge = Edge(source: NodeId, target: NodeId, kind: EdgeKind)

  datatype ControlKind = FunctionEntry | FunctionReturn | OtherControl

  datatype Payload =
    | Control(kind: ControlKind)
    | Computation(resultType: Option<string>)
    | OtherPayload

  /** Edges may name nodes that do not exist. */
  datatype Scg = Scg(nodes: map<NodeId, Payload>, edges: seq<Edge>)

  // ---------------------------------------------------------------- the edge index

  /** The edges leaving a node, in list order. */
  function OutEdges(es: seq<Edge>, id: NodeId): (r: seq<Edge>)
    ensures forall e :: e in r <==> e in es && e.source == id
  {
    if es == [] then []
    else
      var last, init := es[|es| - 1], OutEdges(es[..|es| - 1], id);
      assert es == es[..|es| - 1] + [last];
      if last.source == id then init + [last] else init
  }

  /** The edges entering a node, in list order. */
  function InEdges(es: seq<Edge>, id: NodeId): (r: seq<Edge>)
    ensures forall e :: e in r <==> e in es && e.target == id
  {
    if es == [] then []
    else
      var last, init := es[|es| - 1], InEdges(es[..|es| - 1], id);
      assert es == es[..|es| - 1] + [last];
      if last.target == id then init + [last] else init
  }

  datatype EdgeIndex = EdgeIndex(outgoing: map<NodeId, seq<Edge>>, incoming: map<NodeId, seq<Edge>>) {
    function Outgoing(id: NodeId): seq<Edge> { if id in outgoing then outgoing[id] else [] }
    function Incoming(id: NodeId): seq<Edge> { if id in incoming then incoming[id] else [] }

    /** Looking a node up gives the same edges in the same order as filtering the edge list. */
    ghost predicate Indexes(es: seq<Edge>) {
      && (forall id :: Outgoing(id) == OutEdges(es, id))
      && (forall id :: Incoming(id) == InEdges(es, id))
    }
  }

  /** `entry(key).or_default().push(e)`. */
  function Push(m: map<NodeId, seq<Edge>>, key: NodeId, e: Edge): map<NodeId, seq<Edge>> {
    m[key := (if key in m then m[key] else []) + [e]]
  }

  method BuildIndex(es: seq<Edge>) returns (idx: EdgeIndex)
    ensures idx.Indexes(es)
  {
    idx := EdgeIndex(map[], map[]);
    for k := 0 to |es|
      invariant idx.Indexes(es[..k])
    {
      assert es[..k + 1][..k] == es[..k];
      idx := EdgeIndex(Push(idx.outgoing, es[k].source, es[k]), Push(idx.incoming, es[k].target, es[k]));
    }
    assert es[..|es|] == es;
  }

  // ---------------------------------------------------------------- reachability

  /** `s` contains every control-flow successor of its members. */
  ghost predicate Closed(es: seq<Edge>, s: set<NodeId>) {
    forall e :: e in es && e.kind == ControlFlow && e.source in s ==> e.target in s
  }

  /** Every control-flow successor of `id` is in `s`. */
  ghost predicate Expanded(es: seq<Edge>, id: NodeId, s: set<NodeId>) {
    forall e :: e in es && e.kind == ControlFlow && e.source == id ==> e.target in s
  }

  function Targets(es: seq<Edge>): set<NodeId> {
    set e | e in es :: e.target
  }

  lemma TargetKnown(es: seq<Edge>, e: Edge)
    requires e in es
    ensures e.target in Targets(es)
  {
  }

  /** Nothing outside the least closed set has been met, and only `queue` and `current` wait to be expanded. */
  ghost predicate Searching(es: seq<Edge>, entry: NodeId, queue: seq<NodeId>, current: set<NodeId>, met: set<NodeId>) {
    && entry in met && current <= met
    && (forall id :: id in queue ==> id in met)
    && (forall id :: id in met && id !in queue && id !in current ==> Expanded(es, id, met))
    && (forall s: set<NodeId> :: entry in s && Closed(es, s) ==> met <= s)
  }

  lemma SearchStart(es: seq<Edge>, entry: NodeId)
    ensures Searching(es, entry, [entry], {}, {entry})
  {
  }

  lemma SearchPop(es: seq<Edge>, entry: NodeId, queue: seq<NodeId>, met: set<NodeId>)
    requires queue != [] && Searching(es, entry, queue, {}, met)
    ensures Searching(es, entry, queue[1..], {queue[0]}, met)
  {
    hide Expanded, Closed;
    assert queue == [queue[0]] + queue[1..];
  }

  lemma SearchMeet(es: seq<Edge>, entry: NodeId, queue: seq<NodeId>, current: NodeId, met: set<NodeId>, e: Edge)
    requires Searching(es, entry, queue, {current}, met)
    requires e in es && e.kind == ControlFlow && e.source == current
    ensures Searching(es, entry, queue + [e.target], {current}, met + {e.target})
  {
  }

  lemma SearchDone(es: seq<Edge>, entry: NodeId, queue: seq<NodeId>, current: NodeId, met: set<NodeId>, out: seq<Edge>)
    requires Searching(es, entry, queue, {current}, met) && out == OutEdges(es, current)
    requires forall j :: 0 <= j < |out| && out[j].kind == ControlFlow ==> out[j].target in met
    ensures Searching(es, entry, queue, {}, met)
  {
    hide Closed, OutEdges;
    forall e | e in es && e.kind == ControlFlow && e.source == current ensures e.target in met {
      assert e in out;
    }
    assert Expanded(es, current, met);
  }

  lemma SearchEnd(es: seq<Edge>, entry: NodeId, met: set<NodeId>)
    requires Searching(es, entry, [], {}, met)
    ensures entry in met && Closed(es, met)
    ensures forall s: set<NodeId> :: entry in s && Closed(es, s) ==> met <= s
  {
    forall e | e in es && e.kind == ControlFlow && e.source in met ensures e.target in met {
      assert Expanded(es, e.source, met);
    }
  }

  /**
   The reachability loop: the result is the least set that contains the entry and is closed under
   control-flow edges, and the count is its size.
   */
  method CountReachable(es: seq<Edge>, idx: EdgeIndex, entry: NodeId) returns (reachable: set<NodeId>, nodeCount: nat)
    requires idx.Indexes(es)
    ensures entry in reachable && Closed(es, reachable)
    ensures forall s: set<NodeId> :: entry in s && Closed(es, s) ==> reachable <= s
    ensures nodeCount == |reachable|
  {
    hide OutEdges, Targets, Searching, Closed;
    var queue := [entry];
    reachable := {entry};
    ghost var universe := {entry} + Targets(es);
    SearchStart(es, entry);
    while queue != []
      invariant reachable <= universe
      invariant Searching(es, entry, queue, {}, reachable)
      decreases universe - reachable, |queue|
    {
      SearchPop(es, entry, queue, reachable);
      var current := queue[0];
      queue := queue[1..];
      ghost var before, waiting := reachable, queue;
      var out := idx.Outgoing(current);
      for k := 0 to |out|
        invariant before <= reachable <= universe && (reachable == before ==> queue == waiting)
        invariant Searching(es, entry, queue, {current}, reachable)
        invariant forall j :: 0 <= j < k && out[j].kind == ControlFlow ==> out[j].target in reachable
      {
        var edge := out[k];
        assert edge in out;
        if edge.kind == ControlFlow && edge.target !in reachable {
          TargetKnown(es, edge);
          SearchMeet(es, entry, queue, current, reachable, edge);
          reachable := reachable + {edge.target};
          queue := queue + [edge.target];
        }
      }
      SearchDone(es, entry, queue, current, reachable, out);
    }
    SearchEnd(es, entry, reachable);
    nodeCount := |reachable|;
  }

  // ---------------------------------------------------------------- distance

  /** The control-flow successors of a set. */
  function Successors(es: seq<Edge>, s: set<NodeId>): set<NodeId> {
    set e | e in es && e.kind == ControlFlow && e.source in s :: e.target
  }

  /** The nodes at control-flow distance at most `n` from the entry. */
  function Within(es: seq<Edge>, entry: NodeId, n: nat): (r: set<NodeId>)
    ensures entry in r
  {
    if n == 0 then {entry} else Within(es, entry, n - 1) + Successors(es, Within(es, entry, n - 1))
  }

  lemma {:induction false} WithinGrows(es: seq<Edge>, entry: NodeId, m: nat, n: nat)
    requires m <= n
    ensures Within(es, entry, m) <= Within(es, entry, n)
    decreases n
  {
    if m < n {
      WithinGrows(es, entry, m, n - 1);
    }
  }

  /** A closed set around the entry contains every distance. */
  lemma {:induction false} WithinClosed(es: seq<Edge>, entry: NodeId, n: nat, s: set<NodeId>)
    requires entry in s && Closed(es, s)
    ensures Within(es, entry, n) <= s
    decreases n
  {
    if n > 0 {
      WithinClosed(es, entry, n - 1, s);
    }
  }

  // ---------------------------------------------------------------- routes

  /** Where a list of positions in the edge list leads. */
  function End(es: seq<Edge>, entry: NodeId, ks: seq<nat>): NodeId {
    if ks == [] || ks[|ks| - 1] >= |es| then entry else es[ks[|ks| - 1]].target
  }

  /** Consecutive control-flow edges from the entry, each given by its position in the edge list. */
  ghost predicate Route(es: seq<Edge>, entry: NodeId, ks: seq<nat>) {
    ks == [] || (
      var k, init := ks[|ks| - 1], ks[..|ks| - 1];
      Route(es, entry, init) && k < |es| && es[k].kind == ControlFlow && es[k].source == End(es, entry, init))
  }

  lemma {:induction false} RouteWithin(es: seq<Edge>, entry: NodeId, ks: seq<nat>)
    requires Route(es, entry, ks)
    ensures End(es, entry, ks) in Within(es, entry, |ks|)
  {
    if ks != [] {
      var k, init := ks[|ks| - 1], ks[..|ks| - 1];
      RouteWithin(es, entry, init);
      assert es[k] in es;
      assert es[k].target in Successors(es, Within(es, entry, |init|));
    }
  }

  lemma RouteSnoc(es: seq<Edge>, entry: NodeId, ks: seq<nat>, k: nat)
    requires Route(es, entry, ks) && k < |es| && es[k].kind == ControlFlow && es[k].source == End(es, entry, ks)
    ensures Route(es, entry, ks + [k]) && End(es, entry, ks + [k]) == es[k].target
  {
    assert (ks + [k])[..|ks|] == ks;
  }

  lemma {:induction false} WithinRoute(es: seq<Edge>, entry: NodeId, n: nat, id: NodeId) returns (ks: seq<nat>)
    requires id in Within(es, entry, n)
    ensures Route(es, entry, ks) && End(es, entry, ks) == id && |ks| <= n
  {
    if n == 0 {
      ks := [];
    } else if id in Within(es, entry, n - 1) {
      ks := WithinRoute(es, entry, n - 1, id);
    } else {
      var e :| e in es && e.kind == ControlFlow && e.source in Within(es, entry, n - 1) && e.target == id;
      var k :| 0 <= k < |es| && es[k] == e;
      var init := WithinRoute(es, entry, n - 1, e.source);
      RouteSnoc(es, entry, init, k);
      ks := init + [k];
    }
  }

  /** The least closed set around the entry is the set of nodes that some route leads to. */
  lemma LeastIsReachable(es: seq<Edge>, entry: NodeId, r: set<NodeId>, id: NodeId)
    requires entry in r && Closed(es, r)
    requires forall s: set<NodeId> :: entry in s && Closed(es, s) ==> r <= s
    ensures id in r <==> exists ks :: Route(es, entry, ks) && End(es, entry, ks) == id
  {
    var near := set x | x in r && exists n: nat :: x in Within(es, entry, n);
    assert entry in Within(es, entry, 0);
    forall e | e in es && e.kind == ControlFlow && e.source in near ensures e.target in near {
      var n: nat :| e.source in Within(es, entry, n);
      assert e.target in Within(es, entry, n + 1);
    }
    assert Closed(es, near);
    if id in r {
      var n: nat :| id in Within(es, entry, n);
      var ks := WithinRoute(es, entry, n, id);
    }
    if ks :| Route(es, entry, ks) && End(es, entry, ks) == id {
      RouteWithin(es, entry, ks);
      WithinClosed(es, entry, |ks|, r);
    }
  }

  /** Shorter, or of the same length and first in the order of the edge list where they part. */
  predicate Before(a: seq<nat>, b: seq<nat>) {
    |a| < |b| || (|a| == |b| && exists i :: 0 <= i < |a| && a[..i] == b[..i] && a[i] < b[i])
  }

  lemma BeforeSnoc(a: seq<nat>, j: nat, b: seq<nat>, k: nat)
    requires |a| == |b|
    ensures Before(a + [j], b + [k]) <==> Before(a, b) || (a == b && j < k)
  {
    var x, y := a + [j], b + [k];
    if i :| 0 <= i < |a| && a[..i] == b[..i] && a[i] < b[i] {
      assert x[..i] == a[..i] && y[..i] == b[..i] && x[i] < y[i];
    }
    if a == b && j < k {
      assert x[..|a|] == y[..|a|] && x[|a|] < y[|a|];
    }
    if i :| 0 <= i < |x| && x[..i] == y[..i] && x[i] < y[i] {
      if i < |a| {
        assert x[..i] == a[..i] && y[..i] == b[..i] && a[i] < b[i];
      } else {
        assert x[..i] == a && y[..i] == b;
      }
    }
  }

  lemma BeforeTransitive(a: seq<nat>, b: seq<nat>, c: seq<nat>)
    requires Before(a, b) && Before(b, c)
    ensures Before(a, c)
  {
    if |a| == |c| {
      var i :| 0 <= i < |a| && a[..i] == b[..i] && a[i] < b[i];
      var j :| 0 <= j < |b| && b[..j] == c[..j] && b[j] < c[j];
      var m := if i <= j then i else j;
      assert a[..m] == a[..i][..m] && b[..m] == b[..i][..m] && b[..m] == b[..j][..m] && c[..m] == c[..j][..m];
      assert i < j ==> b[i] == b[..j][i] && c[i] == c[..j][i];
      assert j < i ==> a[j] == a[..i][j] && b[j] == b[..i][j];
      assert a[..m] == c[..m] && a[m] < c[m];
    }
  }

  /** The positions of the edges that satisfy `p`, in order. */
  ghost function Positions(es: seq<Edge>, p: Edge -> bool): (r: seq<nat>)
    ensures forall j :: 0 <= j < |r| ==> r[j] < |es| && p(es[r[j]])
  {
    if es == [] then []
    else
      var init := Positions(es[..|es| - 1], p);
      if p(es[|es| - 1]) then init + [|es| - 1] else init
  }

  /** The edges at the positions are the edges that satisfy `p`, in order. */
  ghost predicate Lists(es: seq<Edge>, ps: seq<nat>, out: seq<Edge>) {
    |ps| == |out| && forall j :: 0 <= j < |ps| ==> ps[j] < |es| && es[ps[j]] == out[j]
  }

  lemma ListsMore(es: seq<Edge>, ps: seq<nat>, out: seq<Edge>, e: Edge)
    requires Lists(es, ps, out)
    ensures Lists(es + [e], ps, out) && Lists(es + [e], ps + [|es|], out + [e])
  {
    var all := es + [e];
    assert all[|es|] == e;
    assert forall j :: 0 <= j < |ps| ==> all[ps[j]] == es[ps[j]];
  }

  /** Filtering by source keeps exactly the edges that leave the node, in list order. */
  lemma {:induction false} PositionsOfOut(es: seq<Edge>, id: NodeId, p: Edge -> bool)
    requires forall e :: p(e) == (e.source == id)
    ensures Lists(es, Positions(es, p), OutEdges(es, id))
  {
    if es != [] {
      var init, last := es[..|es| - 1], es[|es| - 1];
      PositionsOfOut(init, id, p);
      assert init + [last] == es;
      hide Lists;
      ListsMore(init, Positions(init, p), OutEdges(init, id), last);
    }
  }

  lemma {:induction false} PositionsOfIn(es: seq<Edge>, id: NodeId, p: Edge -> bool)
    requires forall e :: p(e) == (e.target == id)
    ensures Lists(es, Positions(es, p), InEdges(es, id))
  {
    if es != [] {
      var init, last := es[..|es| - 1], es[|es| - 1];
      PositionsOfIn(init, id, p);
      assert init + [last] == es;
      hide Lists;
      ListsMore(init, Positions(init, p), InEdges(init, id), last);
    }
  }

  lemma {:induction false} PositionsIncrease(es: seq<Edge>, p: Edge -> bool, i: nat, j: nat)
    requires i < j < |Positions(es, p)|
    ensures Positions(es, p)[i] < Positions(es, p)[j]
  {
    var init := es[..|es| - 1];
    if j < |Positions(init, p)| {
      PositionsIncrease(init, p, i, j);
    }
  }

  lemma {:induction false} PositionsComplete(es: seq<Edge>, p: Edge -> bool, k: nat)
    requires k < |es| && p(es[k])
    ensures k in Positions(es, p)
  {
    var init := es[..|es| - 1];
    if k < |init| {
      PositionsComplete(init, p, k);
    }
  }

  // ---------------------------------------------------------------- the type of a return node

  /** The edge at position `k` is a data-flow edge into `t` from a computation that has a result type. */
  ghost predicate Types(scg: Scg, t: NodeId, k: nat) {
    && k < |scg.edges| && scg.edges[k].target == t && scg.edges[k].kind == DataFlow
    && scg.edges[k].source in scg.nodes
    && scg.nodes[scg.edges[k].source].Computation? && scg.nodes[scg.edges[k].source].resultType.Some?
  }

  /** The type on the first such edge, or "void" when there is none. */
  ghost predicate Answers(scg: Scg, t: NodeId, r: string) {
    if exists k :: Types(scg, t, k)
    then exists k: nat :: Types(scg, t, k) && (forall j :: 0 <= j < k ==> !Types(scg, t, j))
                     && scg.nodes[scg.edges[k].source].resultType == Some(r)
    else r == "void"
  }

  /** The incoming-edge loop at a return node. */
  method TypeOfReturn(scg: Scg, idx: EdgeIndex, id: NodeId) returns (r: string)
    requires idx.Indexes(scg.edges)
    ensures Answers(scg, id, r)
  {
    hide InEdges, Positions;
    var incoming := idx.Incoming(id);
    ghost var enters: Edge -> bool := (e: Edge) => e.target == id;
    ghost var ps := Positions(scg.edges, enters);
    PositionsOfIn(scg.edges, id, enters);
    for j := 0 to |incoming|
      invariant forall i :: 0 <= i < j ==> !Types(scg, id, ps[i])
    {
      var e := incoming[j];
      if e.kind == DataFlow && e.source in scg.nodes {
        var payload := scg.nodes[e.source];
        if payload.Computation? && payload.resultType.Some? {
          FirstOfPositions(scg, id, enters, j);
          assert Types(scg, id, ps[j]);
          return payload.resultType.value;
        }
      }
    }
    forall k: nat ensures !Types(scg, id, k) {
      if k < |scg.edges| && scg.edges[k].target == id {
        PositionsComplete(scg.edges, enters, k);
      }
    }
    return "void";
  }

  /** If none of the first `j` positions gives a type, no earlier edge does. */
  lemma FirstOfPositions(scg: Scg, id: NodeId, p: Edge -> bool, j: nat)
    requires forall e :: p(e) == (e.target == id)
    requires j < |Positions(scg.edges, p)| && forall i :: 0 <= i < j ==> !Types(scg, id, Positions(scg.edges, p)[i])
    ensures forall k :: 0 <= k < Positions(scg.edges, p)[j] ==> !Types(scg, id, k)
  {
    var ps := Positions(scg.edges, p);
    forall k | 0 <= k < ps[j] ensures !Types(scg, id, k) {
      if Types(scg, id, k) {
        PositionsComplete(scg.edges, p, k);
        var i :| 0 <= i < |ps| && ps[i] == k;
        if j < i {
          PositionsIncrease(scg.edges, p, j, i);
        }
      }
    }
  }

  // ---------------------------------------------------------------- the search

  predicate IsReturn(scg: Scg, id: NodeId) {
    id in scg.nodes && scg.nodes[id].Control? && scg.nodes[id].kind == FunctionReturn
  }

  /** A route to a return node other than the entry. */
  ghost predicate Found(scg: Scg, entry: NodeId, ks: seq<nat>) {
    var t := End(scg.edges, entry, ks);
    Route(scg.edges, entry, ks) && t != entry && t in scg.nodes && scg.nodes[t] == Control(FunctionReturn)
  }

  /** A shortest one, and among those the first in the order of the edge list. */
  ghost predicate Best(scg: Scg, entry: NodeId, ks: seq<nat>) {
    Found(scg, entry, ks) && forall other :: Found(scg, entry, other) && other != ks ==> Before(ks, other)
  }

  /**
   What the breadth-first search knows between two nodes. `near` waits at distance `d`, `far` at `d + 1`;
   everything closer has been expanded, and no return node has been met.
   */
  ghost predicate Frontier(scg: Scg, entry: NodeId, d: nat, near: seq<NodeId>, far: seq<NodeId>, visited: set<NodeId>) {
    var at := Within(scg.edges, entry, d);
    && (forall id :: id in near ==> id in at)
    && (forall id :: id in far ==> id in Within(scg.edges, entry, d + 1))
    && visited == at + (set id | id in far)
    && (forall id :: id in at && id !in near ==> Expanded(scg.edges, id, visited))
    && (forall id :: id in visited && id != entry ==> !IsReturn(scg, id))
  }

  /** The same in the middle of expanding `current`. */
  ghost predicate Expanding(scg: Scg, entry: NodeId, d: nat, current: NodeId, rest: seq<NodeId>, far: seq<NodeId>,
                            visited: set<NodeId>)
  {
    var at := Within(scg.edges, entry, d);
    && current in at
    && (forall id :: id in rest ==> id in at)
    && (forall id :: id in far ==> id in Within(scg.edges, entry, d + 1))
    && visited == at + (set id | id in far)
    && (forall id :: id in at && id != current && id !in rest ==> Expanded(scg.edges, id, visited))
    && (forall id :: id in visited && id != entry ==> !IsReturn(scg, id))
  }

  /** The waiting nodes stand in the order of their best routes. */
  ghost predicate Ranked(es: seq<Edge>, entry: NodeId, d: nat, ids: seq<NodeId>, rs: seq<seq<nat>>) {
    && |rs| == |ids|
    && (forall i :: 0 <= i < |rs| ==> |rs[i]| == d && Route(es, entry, rs[i]) && End(es, entry, rs[i]) == ids[i])
    && (forall i, j :: 0 <= i < j < |rs| ==> Before(rs[i], rs[j]))
    && (forall i, p :: 0 <= i < |rs| && Route(es, entry, p) && |p| == d && End(es, entry, p) == ids[i] ==>
          p == rs[i] || Before(rs[i], p))
  }

  /** Every route in `fs` comes before every continuation of one in `rs`. */
  ghost predicate Behind(fs: seq<seq<nat>>, rs: seq<seq<nat>>) {
    forall i, j, k: nat :: 0 <= i < |fs| && 0 <= j < |rs| ==> Before(fs[i], rs[j] + [k])
  }

  lemma StartExpanding(scg: Scg, entry: NodeId, d: nat, near: seq<NodeId>, far: seq<NodeId>, visited: set<NodeId>)
    requires near != [] && Frontier(scg, entry, d, near, far, visited)
    ensures Expanding(scg, entry, d, near[0], near[1..], far, visited)
  {
    hide Within, IsReturn, Expanded;
    assert near == [near[0]] + near[1..];
  }

  /** A newly met node is one level further and joins the end of the queue. */
  lemma MeetNode(scg: Scg, entry: NodeId, d: nat, current: NodeId, rest: seq<NodeId>, far: seq<NodeId>,
                 visited: set<NodeId>, e: Edge)
    requires Expanding(scg, entry, d, current, rest, far, visited)
    requires e in scg.edges && e.kind == ControlFlow && e.source == current && e.target !in visited
    ensures e.target in Within(scg.edges, entry, d + 1) && e.target != entry
    ensures !IsReturn(scg, e.target) ==>
              Expanding(scg, entry, d, current, rest, far + [e.target], visited + {e.target})
  {
    hide IsReturn;
    var at := Within(scg.edges, entry, d);
    assert e.target in Successors(scg.edges, at);
  }

  /** A route that leaves the visited nodes after `d` edges leaves them from a node that is still to be expanded. */
  lemma LeavesFrom(scg: Scg, entry: NodeId, d: nat, current: NodeId, rest: seq<NodeId>, far: seq<NodeId>, visited: set<NodeId>,
                   p: seq<nat>, last: nat)
    requires Expanding(scg, entry, d, current, rest, far, visited)
    requires Route(scg.edges, entry, p) && |p| == d && last < |scg.edges| && scg.edges[last].kind == ControlFlow
    requires scg.edges[last].source == End(scg.edges, entry, p) && scg.edges[last].target !in visited
    ensures End(scg.edges, entry, p) in [current] + rest
  {
    RouteWithin(scg.edges, entry, p);
    hide Route, End, Within, IsReturn;
    var u := End(scg.edges, entry, p);
    assert scg.edges[last] in scg.edges;
    assert !Expanded(scg.edges, u, visited);
    assert ([current] + rest)[0] == current;
    assert u in rest ==> u in [current] + rest;
  }

  /** The first of the ranked routes comes before every route to a ranked node. */
  lemma FirstRanked(es: seq<Edge>, entry: NodeId, d: nat, ids: seq<NodeId>, rs: seq<seq<nat>>, p: seq<nat>)
    requires Ranked(es, entry, d, ids, rs) && Route(es, entry, p) && |p| == d && End(es, entry, p) in ids
    ensures p == rs[0] || Before(rs[0], p)
    ensures p == rs[0] ==> End(es, entry, p) == ids[0]
  {
    hide Route, End, Before;
    var i :| 0 <= i < |ids| && ids[i] == End(es, entry, p);
    if i > 0 && p != rs[i] {
      BeforeTransitive(rs[0], rs[i], p);
    }
  }

  /** The last edge of a route, and the rest. */
  lemma RouteParts(es: seq<Edge>, entry: NodeId, ks: seq<nat>)
    requires Route(es, entry, ks) && ks != []
    ensures var p, last := ks[..|ks| - 1], ks[|ks| - 1];
            && ks == p + [last] && Route(es, entry, p) && last < |es| && es[last].kind == ControlFlow
            && es[last].source == End(es, entry, p) && es[last].target == End(es, entry, ks)
  {
  }

  /**
   A route that leaves the visited nodes after `d` edges does so after the route `c` to `current` and the edge `k`,
   provided the earlier edges of `current` lead to visited nodes.
   */
  lemma LeavesAfter(scg: Scg, entry: NodeId, d: nat, current: NodeId, rest: seq<NodeId>, far: seq<NodeId>, visited: set<NodeId>,
                    c: seq<nat>, rs: seq<seq<nat>>, k: nat, other: seq<nat>)
    requires Expanding(scg, entry, d, current, rest, far, visited)
    requires Ranked(scg.edges, entry, d, [current] + rest, [c] + rs)
    requires k < |scg.edges| && EarlierVisited(scg.edges, current, k, visited)
    requires Route(scg.edges, entry, other) && |other| == d + 1 && End(scg.edges, entry, other) !in visited
    ensures other == c + [k] || Before(c + [k], other)
  {
    assert |c| == d by { assert ([c] + rs)[0] == c; }
    hide Route, End, Expanding, Ranked, Before;
    RouteParts(scg.edges, entry, other);
    var p, last := other[..d], other[d];
    LeavesFrom(scg, entry, d, current, rest, far, visited, p, last);
    FirstRanked(scg.edges, entry, d, [current] + rest, [c] + rs, p);
    BeforeSnoc(c, k, p, last);
  }

  /** The edges of `id` before position `k` lead to visited nodes. */
  ghost predicate EarlierVisited(es: seq<Edge>, id: NodeId, k: nat, visited: set<NodeId>) {
    forall i :: 0 <= i < k && i < |es| && es[i].source == id && es[i].kind == ControlFlow ==> es[i].target in visited
  }

  /** Every route in `fs` comes before `c` continued by an edge at position `b` or later. */
  ghost predicate Until(fs: seq<seq<nat>>, c: seq<nat>, b: nat) {
    forall i, k: nat :: 0 <= i < |fs| && b <= k ==> Before(fs[i], c + [k])
  }

  lemma RankedRest(es: seq<Edge>, entry: NodeId, d: nat, ids: seq<NodeId>, rs: seq<seq<nat>>)
    requires Ranked(es, entry, d, ids, rs) && ids != []
    ensures Ranked(es, entry, d, ids[1..], rs[1..])
  {
    hide Route, End, Before;
    forall i, p | 0 <= i < |rs[1..]| && Route(es, entry, p) && |p| == d && End(es, entry, p) == ids[1..][i]
      ensures p == rs[1..][i] || Before(rs[1..][i], p)
    {
      assert ids[1..][i] == ids[i + 1] && rs[1..][i] == rs[i + 1];
    }
  }

  lemma BehindRest(fs: seq<seq<nat>>, c: seq<nat>, rs: seq<seq<nat>>)
    requires Behind(fs, [c] + rs)
    ensures Behind(fs, rs) && Until(fs, c, 0)
  {
    hide Before;
    var all := [c] + rs;
    forall i, k: nat | 0 <= i < |fs| ensures Before(fs[i], c + [k]) {
      assert all[0] == c;
      assert Before(fs[i], all[0] + [k]);
    }
    forall i, j, k: nat | 0 <= i < |fs| && 0 <= j < |rs| ensures Before(fs[i], rs[j] + [k]) {
      assert all[j + 1] == rs[j];
      assert Before(fs[i], all[j + 1] + [k]);
    }
  }

  lemma RestRanked(es: seq<Edge>, entry: NodeId, d: nat, current: NodeId, rest: seq<NodeId>, c: seq<nat>, rs: seq<seq<nat>>,
                   fs: seq<seq<nat>>)
    requires Ranked(es, entry, d, [current] + rest, [c] + rs) && Behind(fs, [c] + rs)
    ensures Ranked(es, entry, d, rest, rs) && Behind(fs, rs) && Until(fs, c, 0)
  {
    hide Ranked, Behind, Until;
    RankedRest(es, entry, d, [current] + rest, [c] + rs);
    BehindRest(fs, c, rs);
    assert ([current] + rest)[1..] == rest && ([c] + rs)[1..] == rs;
  }

  /** The route to a newly met node takes its place behind the others. */
  lemma MeetRoute(scg: Scg, entry: NodeId, d: nat, current: NodeId, rest: seq<NodeId>, far: seq<NodeId>, visited: set<NodeId>,
                  c: seq<nat>, rs: seq<seq<nat>>, fs: seq<seq<nat>>, b: nat, k: nat)
    requires Expanding(scg, entry, d, current, rest, far, visited)
    requires Ranked(scg.edges, entry, d, [current] + rest, [c] + rs) && Ranked(scg.edges, entry, d + 1, far, fs)
    requires Until(fs, c, b) && b <= k < |scg.edges| && EarlierVisited(scg.edges, current, k, visited)
    requires scg.edges[k].source == current && scg.edges[k].kind == ControlFlow && scg.edges[k].target !in visited
    ensures Ranked(scg.edges, entry, d + 1, far + [scg.edges[k].target], fs + [c + [k]])
    ensures Until(fs + [c + [k]], c, k + 1)
  {
    var es, v, q := scg.edges, scg.edges[k].target, c + [k];
    assert ([c] + rs)[0] == c && ([current] + rest)[0] == current;
    RouteSnoc(es, entry, c, k);
    forall p | Route(es, entry, p) && |p| == d + 1 && End(es, entry, p) == v ensures p == q || Before(q, p) {
      LeavesAfter(scg, entry, d, current, rest, far, visited, c, rs, k, p);
    }
    forall i: nat | k + 1 <= i ensures Before(q, c + [i]) {
      BeforeSnoc(c, k, c, i);
    }
    assert |q| == d + 1;
    hide Route, End, Before, Expanding, EarlierVisited;
    RankedSnoc(es, entry, d + 1, far, fs, v, q);
    UntilSnoc(fs, c, b, k);
  }

  lemma RankedSnoc(es: seq<Edge>, entry: NodeId, d: nat, ids: seq<NodeId>, rs: seq<seq<nat>>, v: NodeId, q: seq<nat>)
    requires Ranked(es, entry, d, ids, rs) && |q| == d && Route(es, entry, q) && End(es, entry, q) == v
    requires forall i :: 0 <= i < |rs| ==> Before(rs[i], q)
    requires forall p :: Route(es, entry, p) && |p| == d && End(es, entry, p) == v ==> p == q || Before(q, p)
    ensures Ranked(es, entry, d, ids + [v], rs + [q])
  {
    hide Route, End, Before;
  }

  lemma UntilSnoc(fs: seq<seq<nat>>, c: seq<nat>, b: nat, k: nat)
    requires Until(fs, c, b) && b <= k && forall i: nat :: k + 1 <= i ==> Before(c + [k], c + [i])
    ensures Until(fs + [c + [k]], c, k + 1)
  {
    hide Before;
  }

  /** A route through `current` comes before every continuation of a later one. */
  lemma BehindSnoc(es: seq<Edge>, entry: NodeId, d: nat, current: NodeId, rest: seq<NodeId>, c: seq<nat>, rs: seq<seq<nat>>,
                   fs: seq<seq<nat>>, k: nat)
    requires Ranked(es, entry, d, [current] + rest, [c] + rs) && Behind(fs, rs)
    ensures Behind(fs + [c + [k]], rs)
  {
    var all := [c] + rs;
    forall j, m: nat | 0 <= j < |rs| ensures Before(c + [k], rs[j] + [m]) {
      assert all[0] == c && all[j + 1] == rs[j];
      BeforeSnoc(c, k, rs[j], m);
    }
    hide Before, Route, End;
    var gs := fs + [c + [k]];
    forall i, j, m: nat | 0 <= i < |gs| && 0 <= j < |rs| ensures Before(gs[i], rs[j] + [m]) {
      assert i < |fs| ==> gs[i] == fs[i];
    }
  }

  /** The first return node met ends the best of all routes to a return node. */
  lemma FirstMet(scg: Scg, entry: NodeId, d: nat, current: NodeId, rest: seq<NodeId>, far: seq<NodeId>, visited: set<NodeId>,
                 c: seq<nat>, rs: seq<seq<nat>>, k: nat)
    requires Expanding(scg, entry, d, current, rest, far, visited)
    requires Ranked(scg.edges, entry, d, [current] + rest, [c] + rs)
    requires k < |scg.edges| && EarlierVisited(scg.edges, current, k, visited)
    requires scg.edges[k].source == current && scg.edges[k].kind == ControlFlow && scg.edges[k].target !in visited
    requires IsReturn(scg, scg.edges[k].target)
    ensures Best(scg, entry, c + [k]) && End(scg.edges, entry, c + [k]) == scg.edges[k].target
  {
    var es, q := scg.edges, c + [k];
    assert ([c] + rs)[0] == c && ([current] + rest)[0] == current;
    RouteSnoc(es, entry, c, k);
    EntryVisited(scg, entry, d, current, rest, far, visited);
    assert Found(scg, entry, q);
    forall other | Found(scg, entry, other) && other != q ensures Before(q, other) {
      var t := End(es, entry, other);
      RouteWithin(es, entry, other);
      assert t !in visited;
      if |other| <= d {
        WithinGrows(es, entry, |other|, d);
      } else if |other| == d + 1 {
        LeavesAfter(scg, entry, d, current, rest, far, visited, c, rs, k, other);
      }
    }
  }

  lemma EntryVisited(scg: Scg, entry: NodeId, d: nat, current: NodeId, rest: seq<NodeId>, far: seq<NodeId>, visited: set<NodeId>)
    requires Expanding(scg, entry, d, current, rest, far, visited)
    ensures entry in visited && Within(scg.edges, entry, d) <= visited
  {
  }

  lemma DoneExpanding(scg: Scg, entry: NodeId, d: nat, current: NodeId, rest: seq<NodeId>, far: seq<NodeId>,
                      visited: set<NodeId>, out: seq<Edge>)
    requires Expanding(scg, entry, d, current, rest, far, visited) && out == OutEdges(scg.edges, current)
    requires forall j :: 0 <= j < |out| && out[j].kind == ControlFlow ==> out[j].target in visited
    ensures Frontier(scg, entry, d, rest, far, visited)
  {
    hide Within, IsReturn, OutEdges;
    forall e | e in scg.edges && e.kind == ControlFlow && e.source == current ensures e.target in visited {
      assert e in out;
    }
    assert Expanded(scg.edges, current, visited);
  }

  /** When the nearer level is used up, the next one takes its place. */
  lemma NextLevel(scg: Scg, entry: NodeId, d: nat, far: seq<NodeId>, visited: set<NodeId>)
    requires Frontier(scg, entry, d, [], far, visited)
    ensures visited == Within(scg.edges, entry, d + 1)
    ensures Frontier(scg, entry, d + 1, far, [], visited)
  {
    var es, at := scg.edges, Within(scg.edges, entry, d);
    forall x | x in Successors(es, at) ensures x in visited {
      var e :| e in es && e.kind == ControlFlow && e.source in at && e.target == x;
      assert Expanded(es, e.source, visited);
    }
    assert visited == Within(es, entry, d + 1);
  }

  /** When nothing waits, no route leads to a return node. */
  lemma NothingLeft(scg: Scg, entry: NodeId, d: nat, visited: set<NodeId>, ks: seq<nat>)
    requires Frontier(scg, entry, d, [], [], visited)
    ensures !Found(scg, entry, ks)
  {
    assert Closed(scg.edges, visited) by {
      forall e | e in scg.edges && e.kind == ControlFlow && e.source in visited ensures e.target in visited {
        assert Expanded(scg.edges, e.source, visited);
      }
    }
    if Route(scg.edges, entry, ks) {
      RouteWithin(scg.edges, entry, ks);
      WithinClosed(scg.edges, entry, |ks|, visited);
    }
  }

  /** The edges before the one at hand have been looked at. */
  lemma EarlierSeen(es: seq<Edge>, id: NodeId, p: Edge -> bool, j: nat, visited: set<NodeId>)
    requires forall e :: p(e) == (e.source == id)
    requires var ps := Positions(es, p);
             j < |ps| && forall i :: 0 <= i < j && es[ps[i]].kind == ControlFlow ==> es[ps[i]].target in visited
    ensures EarlierVisited(es, id, Positions(es, p)[j], visited)
  {
    var ps := Positions(es, p);
    forall k | 0 <= k < ps[j] && k < |es| && es[k].source == id && es[k].kind == ControlFlow ensures es[k].target in visited {
      PositionsComplete(es, p, k);
      var i :| 0 <= i < |ps| && ps[i] == k;
      if j < i {
        PositionsIncrease(es, p, j, i);
      }
    }
  }

  /** The edge loop for one node taken from the queue: it stops at the first return node it meets. */
  method ExpandNode(scg: Scg, idx: EdgeIndex, entry: NodeId, current: NodeId, waiting: seq<NodeId>, known: set<NodeId>,
                    ghost d: nat, ghost rest: seq<NodeId>, ghost ahead: seq<NodeId>,
                    ghost c: seq<nat>, ghost rs: seq<seq<nat>>, ghost aheadRoutes: seq<seq<nat>>)
    returns (found: Option<NodeId>, queue: seq<NodeId>, visited: set<NodeId>, ghost far: seq<NodeId>, ghost fs: seq<seq<nat>>,
             ghost best: seq<nat>)
    requires idx.Indexes(scg.edges) && waiting == rest + ahead
    requires Expanding(scg, entry, d, current, rest, ahead, known)
    requires Ranked(scg.edges, entry, d, [current] + rest, [c] + rs) && Ranked(scg.edges, entry, d + 1, ahead, aheadRoutes)
    requires Behind(aheadRoutes, [c] + rs)
    ensures known <= visited <= known + Targets(scg.edges)
    ensures found.Some? ==> Best(scg, entry, best) && End(scg.edges, entry, best) == found.value
    ensures found.None? ==>
              && Frontier(scg, entry, d, rest, far, visited) && queue == rest + far
              && Ranked(scg.edges, entry, d, rest, rs) && Ranked(scg.edges, entry, d + 1, far, fs) && Behind(fs, rs)
              && (visited == known ==> queue == waiting)
  {
    hide IsReturn, Within, OutEdges, Best, Targets, Frontier, Expanding, Ranked, Behind, Until, Positions, EarlierVisited, End;
    queue, visited, far, fs, best := waiting, known, ahead, aheadRoutes, [];
    RestRanked(scg.edges, entry, d, current, rest, c, rs, fs);
    var out := idx.Outgoing(current);
    ghost var leaves: Edge -> bool := (e: Edge) => e.source == current;
    ghost var ps, b := Positions(scg.edges, leaves), 0;
    PositionsOfOut(scg.edges, current, leaves);
    for j := 0 to |out|
      invariant known <= visited <= known + Targets(scg.edges)
      invariant queue == rest + far && (visited == known ==> queue == waiting)
      invariant Expanding(scg, entry, d, current, rest, far, visited)
      invariant Ranked(scg.edges, entry, d + 1, far, fs) && Behind(fs, rs)
      invariant Until(fs, c, b) && (forall i :: j <= i < |ps| ==> b <= ps[i])
      invariant forall i :: 0 <= i < j && out[i].kind == ControlFlow ==> out[i].target in visited
    {
      var edge := out[j];
      ghost var k := ps[j];
      assert edge in out;
      if edge.kind == ControlFlow && edge.target !in visited {
        TargetKnown(scg.edges, edge);
        EarlierSeen(scg.edges, current, leaves, j, visited);
        if IsReturn(scg, edge.target) {
          FirstMet(scg, entry, d, current, rest, far, visited, c, rs, k);
          visited := visited + {edge.target};
          found, best := Some(edge.target), c + [k];
          return;
        }
        MeetRoute(scg, entry, d, current, rest, far, visited, c, rs, fs, b, k);
        BehindSnoc(scg.edges, entry, d, current, rest, c, rs, fs, k);
        MeetNode(scg, entry, d, current, rest, far, visited, edge);
        visited := visited + {edge.target};
        queue := queue + [edge.target];
        far, fs, b := far + [edge.target], fs + [c + [k]], k + 1;
        forall i | j + 1 <= i < |ps| ensures b <= ps[i] {
          PositionsIncrease(scg.edges, leaves, j, i);
        }
      }
    }
    DoneExpanding(scg, entry, d, current, rest, far, visited, out);
    found := None;
  }

  /**
   The breadth-first search. If some route leads to a return node other than the entry, the answer is the type of the node
   that the best such route leads to; otherwise it is "void".
   */
  method FindReturnType(scg: Scg, entry: NodeId, idx: EdgeIndex) returns (r: string)
    requires idx.Indexes(scg.edges)
    ensures if exists ks :: Found(scg, entry, ks)
            then exists ks :: Best(scg, entry, ks) && Answers(scg, End(scg.edges, entry, ks), r)
            else r == "void"
  {
    var visited := {entry};
    var queue := [entry];
    ghost var universe := {entry} + Targets(scg.edges);
    ghost var d, near, far, rs, fs := 0, [entry], [], [[]], [];
    SearchBegins(scg, entry);
    hide IsReturn, Within, Best, Targets, Frontier, Expanding, Ranked, Behind, Answers, Found, End;
    while queue != []
      invariant visited <= universe
      invariant queue == near + far && (near == [] ==> far == [])
      invariant Frontier(scg, entry, d, near, far, visited)
      invariant Ranked(scg.edges, entry, d, near, rs) && Ranked(scg.edges, entry, d + 1, far, fs) && Behind(fs, rs)
      decreases universe - visited, |queue|
    {
      StartExpanding(scg, entry, d, near, far, visited);
      FirstAndRest(scg.edges, entry, d, near, rs);
      var current := queue[0];
      var waiting := queue[1..];
      assert waiting == near[1..] + far;
      ghost var best;
      var found;
      found, queue, visited, far, fs, best :=
        ExpandNode(scg, idx, entry, current, waiting, visited, d, near[1..], far, rs[0], rs[1..], fs);
      if found.Some? {
        r := TypeOfReturn(scg, idx, found.value);
        BestIsFound(scg, entry, best);
        return;
      }
      near, rs := near[1..], rs[1..];
      if near == [] {
        NextLevel(scg, entry, d, far, visited);
        NothingRanked(scg.edges, entry, d + 2, fs);
        d, near, far, rs, fs := d + 1, far, [], fs, [];
      }
    }
    forall ks ensures !Found(scg, entry, ks) {
      NothingLeft(scg, entry, d, visited, ks);
    }
    return "void";
  }

  lemma SearchBegins(scg: Scg, entry: NodeId)
    ensures Frontier(scg, entry, 0, [entry], [], {entry})
    ensures Ranked(scg.edges, entry, 0, [entry], [[]]) && Ranked(scg.edges, entry, 1, [], []) && Behind([], [[]])
  {
  }

  lemma FirstAndRest(es: seq<Edge>, entry: NodeId, d: nat, ids: seq<NodeId>, rs: seq<seq<nat>>)
    requires Ranked(es, entry, d, ids, rs) && ids != []
    ensures |rs| == |ids| && [ids[0]] + ids[1..] == ids && [rs[0]] + rs[1..] == rs
  {
  }

  lemma BestIsFound(scg: Scg, entry: NodeId, ks: seq<nat>)
    requires Best(scg, entry, ks)
    ensures Found(scg, entry, ks)
  {
  }

  lemma NothingRanked(es: seq<Edge>, entry: NodeId, d: nat, rs: seq<seq<nat>>)
    ensures Ranked(es, entry, d, [], []) && Behind([], rs)
  {
  }
}
