/**
 * `OSMHandler.route` and `OSMHandler.multiRoute`: a best-first search from
 * one node to another over the adjacency the handler built, pricing each
 * edge with the rule tree, and the chaining of such searches through a list
 * of waypoints.
 *
 * The search keeps a priority queue of `(estimate, node id)` pairs that it
 * never cleans (a node may be queued several times), a dictionary from
 * queued node ids to the best `(cost, path)` found so far, and a closed set.
 * A popped id that is already closed is skipped ("lazy deletion").
 */
module Search {
  import opened Wrappers
  import opened RuleTree
  import opened Penalty
  import opened Graph

  /** How edges are priced: the evaluation mode, the rule tree and the distance between two nodes. */
  datatype Costing = Costing(override: bool, rules: Tree, dist: (Node, Node) -> real)

  /** One element of a route: the way taken, the node reached, the segment's cost and length. */
  datatype Step = Step(wid: int, nid: int, cost: real, len: real)

  datatype RouteResult =
    | Ok(cost: real, path: seq<Step>)
      /** The fatal exit of the source: a penalty component of this edge is negative. */
    | NegativeWeights(from: int, to: int, wid: int)

  function Max(x: real, y: real): real
  {
    if x >= y then x else y
  }

  /** `segmentLength * (1 + max(lengthPenalty, 0)) + max(0, pointPenalty)`: never below the length. */
  function SegmentCost(len: real, s: Score): (r: real)
    ensures 0.0 <= len ==> len <= r
  {
    var m := Max(s.len, 0.0);
    assert 0.0 <= len ==> 0.0 <= len * m;
    len * (1.0 + m) + Max(0.0, s.point)
  }

  /** The penalty of walking from `from` to `to` along way `wid`. */
  function EdgeScore(g: Graph, c: Costing, from: int, to: int, wid: int): Score
    requires from in g.nodes && to in g.nodes && wid in g.ways
  {
    Penalty.Penalty(c.override, c.rules, Edge(g.nodes[from].tags, g.nodes[to].tags, g.ways[wid].tags))
  }

  /** `to` is listed as a neighbour of `from` in the entry for way `wid`. */
  ghost predicate Linked(g: Graph, from: int, to: int, wid: int)
  {
    from in g.nodes &&
    exists j :: 0 <= j < |g.nodes[from].ways| && g.nodes[from].ways[j].0 == wid && to in g.nodes[from].ways[j].1
  }

  /** A step from `from` follows an adjacency entry and carries that edge's length and cost. */
  ghost predicate StepOk(g: Graph, c: Costing, from: int, s: Step)
  {
    && Linked(g, from, s.nid, s.wid)
    && s.nid in g.nodes && s.wid in g.ways
    && s.len == c.dist(g.nodes[from], g.nodes[s.nid])
    && s.cost == SegmentCost(s.len, EdgeScore(g, c, from, s.nid, s.wid))
  }

  /** The step `route` records for walking from `from` to `to` along way `wid`. */
  function NextStep(g: Graph, c: Costing, from: int, to: int, wid: int): Step
    requires from in g.nodes && to in g.nodes && wid in g.ways
  {
    var len := c.dist(g.nodes[from], g.nodes[to]);
    Step(wid, to, SegmentCost(len, EdgeScore(g, c, from, to, wid)), len)
  }

  /** The first step the search records for its start node `a`. */
  function StartStep(g: Graph, a: int): Step
    requires a in g.nodes && |g.nodes[a].ways| > 0
  {
    Step(g.nodes[a].ways[0].0, a, 0.0, 0.0)
  }

  /** A route as `route` reports it: the start step for `a`, then steps along adjacency entries, ending at `b`. */
  ghost predicate PathTo(g: Graph, c: Costing, a: int, b: int, path: seq<Step>)
  {
    && a in g.nodes && |g.nodes[a].ways| > 0
    && |path| > 0 && path[0] == StartStep(g, a)
    && path[|path| - 1].nid == b
    && forall i :: 0 < i < |path| ==> StepOk(g, c, path[i - 1].nid, path[i])
  }

  function PathCost(path: seq<Step>): real
  {
    if path == [] then 0.0 else PathCost(path[..|path| - 1]) + path[|path| - 1].cost
  }

  function PathLength(path: seq<Step>): real
  {
    if path == [] then 0.0 else PathLength(path[..|path| - 1]) + path[|path| - 1].len
  }

  /** The cost of concatenated routes is the sum of their costs. */
  lemma {:induction false} PathCostAppend(p: seq<Step>, q: seq<Step>)
    ensures PathCost(p + q) == PathCost(p) + PathCost(q)
  {
    if q == [] {
      assert p + q == p;
    } else {
      var q' := q[..|q| - 1];
      assert (p + q)[..|p + q| - 1] == p + q';
      PathCostAppend(p, q');
    }
  }

  /** With a non-negative distance, a route costs at least its length. */
  lemma {:induction false} PathCostAtLeastLength(g: Graph, c: Costing, a: int, b: int, path: seq<Step>)
    requires forall x, y :: 0.0 <= c.dist(x, y)
    requires PathTo(g, c, a, b, path)
    ensures PathLength(path) <= PathCost(path)
    decreases |path|
  {
    if |path| > 1 {
      var front := path[..|path| - 1];
      assert PathTo(g, c, a, front[|front| - 1].nid, front) by {
        forall i | 0 < i < |front| ensures StepOk(g, c, front[i - 1].nid, front[i]) {
          assert front[i - 1] == path[i - 1] && front[i] == path[i];
        }
      }
      PathCostAtLeastLength(g, c, a, front[|front| - 1].nid, front);
      assert StepOk(g, c, path[|path| - 2].nid, path[|path| - 1]);
    } else {
      assert path[..0] == [];
    }
  }

  /** A route extended by one valid step is a route to the step's node. */
  lemma PathToSnoc(g: Graph, c: Costing, a: int, b: int, path: seq<Step>, s: Step)
    requires PathTo(g, c, a, b, path) && StepOk(g, c, b, s)
    ensures PathTo(g, c, a, s.nid, path + [s])
    ensures PathCost(path + [s]) == PathCost(path) + s.cost
  {
    var p := path + [s];
    assert p[..|p| - 1] == path;
    forall i | 0 < i < |p| ensures StepOk(g, c, p[i - 1].nid, p[i]) {
      if i < |path| {
        assert p[i - 1] == path[i - 1] && p[i] == path[i];
      }
    }
  }

  /** Every node on a route is a stored node. */
  lemma PathToEnd(g: Graph, c: Costing, a: int, b: int, path: seq<Step>)
    requires PathTo(g, c, a, b, path)
    ensures b in g.nodes
  {
    if |path| > 1 {
      assert StepOk(g, c, path[|path| - 2].nid, path[|path| - 1]);
    }
  }

  /** A sequence of node ids, each adjacent to the previous one. */
  ghost predicate IsWalk(g: Graph, w: seq<int>)
  {
    |w| > 0 && forall i :: 0 <= i < |w| - 1 ==> Adjacent(g, w[i], w[i + 1])
  }

  ghost predicate Unreachable(g: Graph, a: int, b: int)
  {
    forall w :: IsWalk(g, w) && w[0] == a ==> w[|w| - 1] != b
  }

  /** A set closed under adjacency contains every walk that starts in it. */
  lemma {:induction false} WalkStaysInside(g: Graph, s: set<int>, w: seq<int>)
    requires IsWalk(g, w) && w[0] in s
    requires forall n, m :: n in s && Adjacent(g, n, m) ==> m in s
    ensures w[|w| - 1] in s
  {
    if |w| > 1 {
      var front := w[..|w| - 1];
      assert IsWalk(g, front) by {
        forall i | 0 <= i < |front| - 1 ensures Adjacent(g, front[i], front[i + 1]) {
          assert front[i] == w[i] && front[i + 1] == w[i + 1];
        }
      }
      WalkStaysInside(g, s, front);
      assert Adjacent(g, w[|w| - 2], w[|w| - 1]);
    }
  }

  /** An edge the source aborts on: it exists and one of its penalty components is negative. */
  ghost predicate NegativeEdge(g: Graph, c: Costing, from: int, to: int, wid: int)
  {
    && Linked(g, from, to, wid) && to in g.nodes && wid in g.ways
    && (EdgeScore(g, c, from, to, wid).len < 0.0 || EdgeScore(g, c, from, to, wid).point < 0.0)
  }

  /** What `route(a, b)` may return. */
  ghost predicate RouteSpec(g: Graph, c: Costing, a: int, b: int, r: RouteResult)
  {
    match r
    case Ok(cost, path) =>
      if path == [] then cost == 0.0 && Unreachable(g, a, b)
      else PathTo(g, c, a, b, path) && cost == PathCost(path)
    case NegativeWeights(from, to, wid) => NegativeEdge(g, c, from, to, wid)
  }

  /** With non-negative stored weights no edge is negative, so the abort cannot happen. */
  lemma NoNegativeEdge(g: Graph, c: Costing, from: int, to: int, wid: int)
    requires NonNegativeTree(c.rules)
    ensures !NegativeEdge(g, c, from, to, wid)
  {
    if Linked(g, from, to, wid) && to in g.nodes && wid in g.ways {
      NonNegativePenalty(c.override, c.rules, Edge(g.nodes[from].tags, g.nodes[to].tags, g.ways[wid].tags));
    }
  }

  /** Every reported cost is the cost of the reported path. */
  lemma RouteSpecCost(g: Graph, c: Costing, a: int, b: int, r: RouteResult)
    requires RouteSpec(g, c, a, b, r) && r.Ok?
    ensures r.cost == PathCost(r.path)
  {
  }

  /** `heapq` orders `(estimate, id)` pairs lexicographically. */
  predicate EntryLe(x: (real, int), y: (real, int))
  {
    x.0 < y.0 || (x.0 == y.0 && x.1 <= y.1)
  }

  /** `heapq.heappop`: removes a least entry; ties on the estimate go to the smaller id. */
  method PopMin(heap: seq<(real, int)>) returns (top: (real, int), rest: seq<(real, int)>)
    requires |heap| > 0
    ensures top in heap
    ensures forall e :: e in heap ==> EntryLe(top, e)
    ensures multiset(rest) + multiset{top} == multiset(heap)
    ensures |rest| == |heap| - 1
    ensures forall e :: e in rest ==> e in heap
  {
    var m := 0;
    for i := 1 to |heap|
      invariant 0 <= m < |heap|
      invariant forall j :: 0 <= j < i ==> EntryLe(heap[m], heap[j])
    {
      if !EntryLe(heap[m], heap[i]) {
        m := i;
      }
    }
    top := heap[m];
    rest := heap[..m] + heap[m + 1..];
    assert heap == heap[..m] + [heap[m]] + heap[m + 1..];
  }

  ghost function HeapIds(heap: seq<(real, int)>): set<int>
  {
    set e | e in heap :: e.1
  }

  /** Popping one entry loses at most that entry's id, and adds none. */
  lemma PopIds(heap: seq<(real, int)>, top: (real, int), rest: seq<(real, int)>)
    requires multiset(rest) + multiset{top} == multiset(heap)
    ensures HeapIds(rest) <= HeapIds(heap)
    ensures HeapIds(heap) - {top.1} <= HeapIds(rest)
  {
    forall k | k in HeapIds(rest) ensures k in HeapIds(heap) {
      var e :| e in rest && e.1 == k;
      assert e in multiset(rest);
      assert e in multiset(heap);
    }
    forall k | k in HeapIds(heap) && k != top.1 ensures k in HeapIds(rest) {
      var e :| e in heap && e.1 == k;
      assert e in multiset(heap);
      assert e != top;
      assert e in multiset(rest);
    }
  }

  /**
   * The queue and the dictionary agree: every queued id is closed or in the
   * dictionary, every dictionary entry is queued, not closed, and holds a
   * route from `a` with its cost.
   */
  ghost predicate Frontier(g: Graph, c: Costing, a: int, heap: seq<(real, int)>,
                           open: map<int, (real, seq<Step>)>, closed: set<int>)
  {
    && (forall e :: e in heap ==> e.1 in closed || e.1 in open)
    && forall k :: k in open ==>
         && k !in closed && k in HeapIds(heap)
         && PathTo(g, c, a, k, open[k].1) && open[k].0 == PathCost(open[k].1)
  }

  /** The loop invariant of `route`. */
  ghost predicate SearchInv(g: Graph, c: Costing, a: int, b: int, heap: seq<(real, int)>,
                            open: map<int, (real, seq<Step>)>, closed: set<int>)
  {
    && GraphOk(g)
    && Frontier(g, c, a, heap, open, closed)
    && closed <= g.nodes.Keys
    && (a in closed || a in open)
    && b !in closed
    && forall n, m :: n in closed && Adjacent(g, n, m) ==> m in closed || m in open
  }

  lemma ProperSubsetSmaller(x: set<int>, y: set<int>)
    requires x < y
    ensures |x| < |y|
  {
    var z := y - x;
    assert y == x + z && x * z == {};
    assert |z| > 0;
  }

  /** The search stops with an empty queue only when `b` cannot be reached from `a`. */
  lemma Exhausted(g: Graph, c: Costing, a: int, b: int, open: map<int, (real, seq<Step>)>, closed: set<int>)
    requires SearchInv(g, c, a, b, [], open, closed)
    ensures Unreachable(g, a, b)
  {
    assert HeapIds([]) == {};
    assert forall k :: k in open ==> k in HeapIds([]);
    assert forall n, m :: n in closed && Adjacent(g, n, m) ==> m in closed;
    forall w | IsWalk(g, w) && w[0] == a ensures w[|w| - 1] != b {
      WalkStaysInside(g, closed, w);
    }
  }

  /**
   * Lines 205-229 for one neighbour `nid` of the expanded node `cur`
   * reached along `wid`: abort on a negative penalty, keep a cheaper known
   * route, otherwise record the route through `cur` and queue `nid`. A
   * dictionary entry is only ever replaced by one that costs no more.
   */
  method Relax(g: Graph, c: Costing, a: int, b: int, cur: int, cost: real, path: seq<Step>,
               wid: int, nid: int, closed: set<int>,
               open: map<int, (real, seq<Step>)>, heap: seq<(real, int)>)
    returns (open': map<int, (real, seq<Step>)>, heap': seq<(real, int)>, err: Option<RouteResult>)
    requires GraphOk(g) && b in g.nodes
    requires Linked(g, cur, nid, wid) && nid !in closed
    requires PathTo(g, c, a, cur, path) && cost == PathCost(path)
    requires Frontier(g, c, a, heap, open, closed)
    ensures err.Some? ==> err.value.NegativeWeights? && NegativeEdge(g, c, cur, nid, wid) && err.value == NegativeWeights(cur, nid, wid)
    ensures err.None? ==> Frontier(g, c, a, heap', open', closed)
    ensures err.None? ==> nid in open' && open'.Keys == open.Keys + {nid}
    ensures err.None? ==> forall k :: k in open ==> open'[k].0 <= open[k].0
    ensures err.None? ==> forall k :: k in open && k != nid ==> open'[k] == open[k]
    ensures err.Some? <==> NegativeEdge(g, c, cur, nid, wid)
    ensures err.None? && nid in open && open[nid].0 < cost + NextStep(g, c, cur, nid, wid).cost ==>
      open' == open && heap' == heap
    ensures err.None? && !(nid in open && open[nid].0 < cost + NextStep(g, c, cur, nid, wid).cost) ==>
      && open' == open[nid := (cost + NextStep(g, c, cur, nid, wid).cost, path + [NextStep(g, c, cur, nid, wid)])]
      && heap' == heap + [(open'[nid].0 + c.dist(g.nodes[nid], g.nodes[b]), nid)]
  {
    var j :| 0 <= j < |g.nodes[cur].ways| && g.nodes[cur].ways[j].0 == wid && nid in g.nodes[cur].ways[j].1;
    assert g.nodes[cur].ways[j].0 in g.ways;
    var way := g.ways[wid];
    var nextNode := g.nodes[nid];
    var segmentLength := c.dist(g.nodes[cur], nextNode);
    var s := Penalty.Penalty(c.override, c.rules, Edge(g.nodes[cur].tags, nextNode.tags, way.tags));
    if s.len < 0.0 || s.point < 0.0 {
      return open, heap, Some(NegativeWeights(cur, nid, wid));
    }
    var segmentCost := SegmentCost(segmentLength, s);
    var nextCost := cost + segmentCost;
    if nid in open && open[nid].0 < nextCost {
      return open, heap, None;
    }
    var step := Step(wid, nid, segmentCost, segmentLength);
    assert StepOk(g, c, cur, step);
    PathToSnoc(g, c, a, cur, path, step);
    open' := open[nid := (nextCost, path + [step])];
    heap' := heap + [(nextCost + c.dist(nextNode, g.nodes[b]), nid)];
    err := None;
    assert HeapIds(heap') == HeapIds(heap) + {nid};
  }

  /**
   * Lines 203-229: relax every neighbour of the node `cur` that was just
   * closed, way by way in the node's order.
   */
  method Expand(g: Graph, c: Costing, a: int, b: int, cur: int, cost: real, path: seq<Step>,
                closed: set<int>, open0: map<int, (real, seq<Step>)>, heap0: seq<(real, int)>)
    returns (open: map<int, (real, seq<Step>)>, heap: seq<(real, int)>, err: Option<RouteResult>)
    requires GraphOk(g) && b in g.nodes && cur in closed && cur in g.nodes
    requires PathTo(g, c, a, cur, path) && cost == PathCost(path)
    requires Frontier(g, c, a, heap0, open0, closed)
    ensures err.Some? ==> err.value.NegativeWeights? && NegativeEdge(g, c, err.value.from, err.value.to, err.value.wid)
    ensures err.None? ==> Frontier(g, c, a, heap, open, closed)
    ensures err.None? ==> open0.Keys <= open.Keys
    ensures err.None? ==> forall m :: Adjacent(g, cur, m) ==> m in closed || m in open
  {
    open, heap, err := open0, heap0, None;
    var entries := g.nodes[cur].ways;
    for j := 0 to |entries|
      invariant Frontier(g, c, a, heap, open, closed)
      invariant open0.Keys <= open.Keys
      invariant forall j', m :: 0 <= j' < j && m in entries[j'].1 ==> m in closed || m in open
    {
      var wid := entries[j].0;
      var nids := entries[j].1;
      for k := 0 to |nids|
        invariant Frontier(g, c, a, heap, open, closed)
        invariant open0.Keys <= open.Keys
        invariant forall j', m :: 0 <= j' < j && m in entries[j'].1 ==> m in closed || m in open
        invariant forall k' :: 0 <= k' < k ==> nids[k'] in closed || nids[k'] in open
      {
        var nid := nids[k];
        if nid !in closed {
          var e;
          open, heap, e := Relax(g, c, a, b, cur, cost, path, wid, nid, closed, open, heap);
          if e.Some? {
            return open, heap, e;
          }
        }
      }
    }
  }

  /**
   * `route(a, b)`: the first route to `b` the search closes, or `(0, [])`
   * when the queue runs dry, in which case `b` is unreachable from `a`.
   * The source requires both ids to be stored and `a` to lie on a way.
   */
  method Route(g: Graph, c: Costing, a: int, b: int) returns (r: RouteResult)
    requires GraphOk(g)
    requires a in g.nodes && b in g.nodes && |g.nodes[a].ways| > 0
    ensures RouteSpec(g, c, a, b, r)
    ensures NonNegativeTree(c.rules) ==> r.Ok?
  {
    var heap := [(0.0, a)];
    var open := map[a := (0.0, [StartStep(g, a)])];
    var closed: set<int> := {};
    assert HeapIds(heap) == {a};
    assert PathCost([StartStep(g, a)]) == 0.0 by {
      assert [StartStep(g, a)][..0] == [];
    }
    while |heap| > 0
      invariant SearchInv(g, c, a, b, heap, open, closed)
      decreases |g.nodes.Keys - closed|, |heap|
    {
      var top, rest := PopMin(heap);
      PopIds(heap, top, rest);
      var cur := top.1;
      heap := rest;
      if cur in closed {
        continue;
      }
      var currentCost := open[cur].0;
      var currentPath := open[cur].1;
      open := open - {cur};
      if cur == b {
        return Ok(currentCost, currentPath);
      }
      PathToEnd(g, c, a, cur, currentPath);
      ghost var before := closed;
      closed := closed + {cur};
      ProperSubsetSmaller(g.nodes.Keys - closed, g.nodes.Keys - before);
      var e;
      open, heap, e := Expand(g, c, a, b, cur, currentCost, currentPath, closed, open, heap);
      if e.Some? {
        if NonNegativeTree(c.rules) {
          NoNegativeEdge(g, c, e.value.from, e.value.to, e.value.wid);
        }
        return e.value;
      }
    }
    Exhausted(g, c, a, b, open, closed);
    return Ok(0.0, []);
  }

  function LegCost(r: RouteResult): real
  {
    if r.Ok? then r.cost else 0.0
  }

  function LegPath(r: RouteResult): seq<Step>
  {
    if r.Ok? then r.path else []
  }

  /** The total cost of a list of searches. */
  function SumCosts(legs: seq<RouteResult>): real
  {
    if legs == [] then 0.0 else SumCosts(legs[..|legs| - 1]) + LegCost(legs[|legs| - 1])
  }

  /** The concatenation of their paths. */
  function ConcatPaths(legs: seq<RouteResult>): seq<Step>
  {
    if legs == [] then [] else ConcatPaths(legs[..|legs| - 1]) + LegPath(legs[|legs| - 1])
  }

  /** The first `|legs|` searches of `multiRoute`, all successful, with their running totals. */
  ghost predicate LegsDone(g: Graph, c: Costing, ids: seq<int>, legs: seq<RouteResult>, totalCost: real, totalPath: seq<Step>)
  {
    (legs == [] || |legs| < |ids|)
    && (forall j :: 0 <= j < |legs| ==> RouteSpec(g, c, ids[j], ids[j + 1], legs[j]) && legs[j].Ok?)
    && totalCost == SumCosts(legs) && totalPath == ConcatPaths(legs)
    && totalCost == PathCost(totalPath)
  }

  /** One more successful search extends the totals. */
  lemma LegsDoneSnoc(g: Graph, c: Costing, ids: seq<int>, legs: seq<RouteResult>, totalCost: real, totalPath: seq<Step>, leg: RouteResult)
    requires LegsDone(g, c, ids, legs, totalCost, totalPath) && |legs| + 1 < |ids|
    requires RouteSpec(g, c, ids[|legs|], ids[|legs| + 1], leg) && leg.Ok?
    ensures LegsDone(g, c, ids, legs + [leg], totalCost + leg.cost, totalPath + leg.path)
  {
    var legs' := legs + [leg];
    assert legs'[..|legs'| - 1] == legs;
    RouteSpecCost(g, c, ids[|legs|], ids[|legs| + 1], leg);
    PathCostAppend(totalPath, leg.path);
  }

  /** The legs before an aborted search stay as they were. */
  lemma LegsAborted(g: Graph, c: Costing, ids: seq<int>, legs: seq<RouteResult>, totalCost: real, totalPath: seq<Step>, leg: RouteResult)
    requires LegsDone(g, c, ids, legs, totalCost, totalPath) && |legs| + 1 < |ids|
    requires RouteSpec(g, c, ids[|legs|], ids[|legs| + 1], leg)
    ensures forall j :: 0 <= j < |legs + [leg]| ==> RouteSpec(g, c, ids[j], ids[j + 1], (legs + [leg])[j])
  {
  }

  /**
   * `multiRoute(ids)`: one search per consecutive pair of waypoints; the
   * costs are added and the paths concatenated. With fewer than two
   * waypoints the result is `(0, [])`. A search that aborts ends the whole
   * computation with its error.
   */
  method MultiRoute(g: Graph, c: Costing, ids: seq<int>) returns (r: RouteResult, ghost legs: seq<RouteResult>)
    requires GraphOk(g)
    requires forall i :: 0 <= i < |ids| ==> ids[i] in g.nodes
    requires forall i :: 0 <= i < |ids| - 1 ==> |g.nodes[ids[i]].ways| > 0
    ensures |legs| <= if |ids| < 2 then 0 else |ids| - 1
    ensures forall i :: 0 <= i < |legs| ==> RouteSpec(g, c, ids[i], ids[i + 1], legs[i])
    ensures r.Ok? ==> |legs| == (if |ids| < 2 then 0 else |ids| - 1)
    ensures r.Ok? ==> r.cost == SumCosts(legs) && r.path == ConcatPaths(legs)
    ensures r.Ok? ==> r.cost == PathCost(r.path)
    ensures r.NegativeWeights? ==> |legs| > 0 && legs[|legs| - 1] == r
    ensures |ids| < 2 ==> r == Ok(0.0, [])
    ensures NonNegativeTree(c.rules) ==> r.Ok?
  {
    var totalCost := 0.0;
    var totalPath: seq<Step> := [];
    legs := [];
    var n := if |ids| < 2 then 0 else |ids| - 1;
    for i := 0 to n
      invariant |legs| == i
      invariant LegsDone(g, c, ids, legs, totalCost, totalPath)
    {
      var leg := Route(g, c, ids[i], ids[i + 1]);
      if leg.NegativeWeights? {
        LegsAborted(g, c, ids, legs, totalCost, totalPath, leg);
        legs := legs + [leg];
        return leg, legs;
      }
      LegsDoneSnoc(g, c, ids, legs, totalCost, totalPath, leg);
      legs := legs + [leg];
      totalCost := totalCost + leg.cost;
      totalPath := totalPath + leg.path;
    }
    r := Ok(totalCost, totalPath);
  }
}
