/**
 * The handler object that collects nodes and ways while a map file is read
 * (`OSMHandler.node`, `OSMHandler.way`). The object owns the two
 * dictionaries; `way` writes the adjacency entries of the way's nodes in
 * place, position by position.
 */
module OSM {
  import opened Wrappers
  import opened Penalty
  import opened Graph

  /**
   * The node dictionary after the first `k` positions of a way with id `wid`
   * have written their neighbour lists into `before`.
   */
  ghost predicate Written(before: map<int, Node>, after: map<int, Node>, wid: int, refs: seq<int>, k: nat)
    requires k <= |refs|
  {
    && after.Keys == before.Keys
    && forall n :: n in before ==>
         after[n] == if n in refs[..k]
                     then before[n].(ways := Put(before[n].ways, wid, Neighbours(refs, LastIndex(refs[..k], n))))
                     else before[n]
  }

  lemma WrittenNone(before: map<int, Node>, wid: int, refs: seq<int>)
    ensures Written(before, before, wid, refs, 0)
  {
  }

  /** Extending the written prefix by `refs[k]` changes only the last index of `refs[k]`. */
  lemma LastIndexSnoc(refs: seq<int>, k: nat, m: int)
    requires k < |refs|
    ensures refs[..k + 1] == refs[..k] + [refs[k]]
    ensures m in refs[..k + 1] <==> m in refs[..k] || m == refs[k]
    ensures m == refs[k] ==> LastIndex(refs[..k + 1], m) == k
    ensures m != refs[k] && m in refs[..k] ==> LastIndex(refs[..k + 1], m) == LastIndex(refs[..k], m)
  {
    assert refs[..k + 1] == refs[..k] + [refs[k]];
    assert refs[..k + 1][..k] == refs[..k];
  }

  /** Writing position `k` extends the written prefix by one. */
  lemma WrittenStep(before: map<int, Node>, mid: map<int, Node>, wid: int, refs: seq<int>, k: nat)
    requires k < |refs| && refs[k] in before
    requires Written(before, mid, wid, refs, k)
    ensures var n := refs[k];
            Written(before, mid[n := mid[n].(ways := Put(mid[n].ways, wid, Neighbours(refs, k)))], wid, refs, k + 1)
  {
    var n := refs[k];
    var after := mid[n := mid[n].(ways := Put(mid[n].ways, wid, Neighbours(refs, k)))];
    LastIndexSnoc(refs, k, n);
    assert after[n] == before[n].(ways := Put(before[n].ways, wid, Neighbours(refs, k))) by {
      if n in refs[..k] {
        PutPut(before[n].ways, wid, Neighbours(refs, LastIndex(refs[..k], n)), Neighbours(refs, k));
      }
    }
    forall m | m in before && m != n
      ensures after[m] == if m in refs[..k + 1]
                          then before[m].(ways := Put(before[m].ways, wid, Neighbours(refs, LastIndex(refs[..k + 1], m))))
                          else before[m]
    {
      LastIndexSnoc(refs, k, m);
    }
  }

  /** The node dictionary once a way with id `wid` has written all its adjacency entries. */
  function WithWay(before: map<int, Node>, wid: int, refs: seq<int>): (r: map<int, Node>)
    ensures r.Keys == before.Keys
    ensures forall n :: n in before && n !in refs ==> r[n] == before[n]
  {
    map n | n in before :: if n in refs then before[n].(ways := Put(before[n].ways, wid, WayEntry(refs, n))) else before[n]
  }

  /**
   * Each node on the way finds its neighbour list under `wid`; its entries
   * for other ways are unchanged.
   */
  lemma WithWayLookup(before: map<int, Node>, wid: int, refs: seq<int>, n: int, other: int)
    requires n in before && n in refs
    ensures Lookup(WithWay(before, wid, refs)[n].ways, wid) == Some(WayEntry(refs, n))
    ensures other != wid ==> Lookup(WithWay(before, wid, refs)[n].ways, other) == Lookup(before[n].ways, other)
  {
    PutLookup(before[n].ways, wid, WayEntry(refs, n), wid);
    PutLookup(before[n].ways, wid, WayEntry(refs, n), other);
  }

  /** Once every position is written, the nodes hold `WithWay`. */
  lemma WrittenAll(before: map<int, Node>, after: map<int, Node>, wid: int, refs: seq<int>)
    requires Written(before, after, wid, refs, |refs|)
    ensures after == WithWay(before, wid, refs)
  {
    assert refs[..|refs|] == refs;
    var w := WithWay(before, wid, refs);
    forall n | n in after ensures after[n] == w[n] {
    }
  }

  /** Adding a way keeps every adjacency entry pointing at stored nodes and ways. */
  lemma WithWayKeepsGraphOk(before: map<int, Node>, ways: map<int, Way>, wid: int, w: Way, refs: seq<int>)
    requires GraphOk(Graph(before, ways))
    requires forall i :: 0 <= i < |refs| ==> refs[i] in before
    ensures GraphOk(Graph(WithWay(before, wid, refs), ways[wid := w]))
  {
    var after := WithWay(before, wid, refs);
    forall n, j | n in after && 0 <= j < |after[n].ways|
      ensures after[n].ways[j].0 in ways[wid := w]
      ensures forall m :: m in after[n].ways[j].1 ==> m in after
    {
      var e := after[n].ways[j];
      assert e in after[n].ways;
      if n in refs {
        assert e in before[n].ways || e == (wid, WayEntry(refs, n));
        if e in before[n].ways {
          var j' :| 0 <= j' < |before[n].ways| && before[n].ways[j'] == e;
        }
      }
    }
  }

  class OSMHandler {
    var nodes: map<int, Node>
    var ways: map<int, Way>
    /** Whether penalties are evaluated in override or in additive mode. */
    const override: bool

    ghost predicate Valid()
      reads this
    {
      GraphOk(Graph(nodes, ways))
    }

    /** The graph as the search reads it. */
    function Current(): Graph
      reads this
    {
      Graph(nodes, ways)
    }

    constructor (override: bool)
      ensures Valid()
      ensures nodes == map[] && ways == map[] && this.override == override
    {
      nodes := map[];
      ways := map[];
      this.override := override;
    }

    /** The `node` callback: stores a node with its tag dictionary and no adjacency yet. */
    method AddNode(id: int, lat: real, lon: real, tags: Tags)
      requires Valid()
      modifies this
      ensures Valid()
      ensures nodes == old(nodes)[id := Node(id, lat, lon, DictOf(tags), [])]
      ensures ways == old(ways)
    {
      nodes := nodes[id := Node(id, lat, lon, DictOf(tags), [])];
    }

    /** `node.ways[wid] = nbrs` on the stored node `n`. */
    method SetEntry(n: int, wid: int, nbrs: seq<int>)
      requires n in nodes
      modifies this
      ensures nodes == old(nodes)[n := old(nodes)[n].(ways := Put(old(nodes)[n].ways, wid, nbrs))]
      ensures ways == old(ways)
    {
      var node := nodes[n];
      nodes := nodes[n := node.(ways := Put(node.ways, wid, nbrs))];
    }

    /** Lines 60-66 of the `way` callback: each position writes its neighbour list, first to last. */
    method WriteAdjacency(id: int, refs: seq<int>)
      requires |refs| > 0 && forall i :: 0 <= i < |refs| ==> refs[i] in nodes
      modifies this
      ensures nodes == WithWay(old(nodes), id, refs)
      ensures ways == old(ways)
    {
      ghost var before := nodes;
      WrittenNone(before, id, refs);
      var last := |refs| - 1;
      if |refs| == 1 {
        assert Neighbours(refs, 0) == [];
        WrittenStep(before, nodes, id, refs, 0);
        SetEntry(refs[0], id, []);
      } else {
        assert Neighbours(refs, 0) == [refs[1]];
        WrittenStep(before, nodes, id, refs, 0);
        SetEntry(refs[0], id, [refs[1]]);
        for i := 1 to last
          invariant Written(before, nodes, id, refs, i)
          invariant ways == old(ways)
        {
          assert Neighbours(refs, i) == [refs[i - 1], refs[i + 1]];
          WrittenStep(before, nodes, id, refs, i);
          SetEntry(refs[i], id, [refs[i - 1], refs[i + 1]]);
        }
        assert Neighbours(refs, last) == [refs[last - 1]];
        WrittenStep(before, nodes, id, refs, last);
        SetEntry(refs[last], id, [refs[last - 1]]);
      }
      WrittenAll(before, nodes, id, refs);
    }

    /**
     * The `way` callback. A way without `highway` is ignored. Otherwise it is
     * stored with `sidewalk=unknown` filled in, and each node on it gets the
     * entry `ways[id]` listing its neighbours on this way; only nodes on the
     * way are touched.
     */
    method AddWay(id: int, refs: seq<int>, tags: Tags)
      requires Valid()
      requires Routable(tags) ==> |refs| > 0 && forall i :: 0 <= i < |refs| ==> refs[i] in nodes
      modifies this
      ensures Valid()
      ensures !Routable(tags) ==> nodes == old(nodes) && ways == old(ways)
      ensures Routable(tags) ==> ways == old(ways)[id := Way(id, refs, StoredTags(tags))]
      ensures Routable(tags) ==> nodes == WithWay(old(nodes), id, refs)
    {
      if Routable(tags) {
        ghost var before := nodes;
        ghost var oldWays := ways;
        var w := Way(id, refs, StoredTags(tags));
        ways := ways[id := w];
        WriteAdjacency(id, refs);
        WithWayKeepsGraphOk(before, oldWays, id, w, refs);
      }
    }
  }
}
