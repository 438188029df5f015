/**
 * The records of the routing graph (`Node`, `Way`) and the pure parts of
 * `OSMHandler.way`: the dictionary semantics of tag and adjacency tables,
 * tag normalisation and the neighbour list a way gives each of its nodes.
 *
 * Python dictionaries keep insertion order, and the search reads
 * `node.ways` in that order, so every dictionary here is an association
 * list: a new key is appended, an existing key keeps its position and gets
 * the new value.
 */
module Graph {
  import opened Wrappers
  import opened Penalty

  /** Keys of an association list, in order. */
  function Keys<K, V>(a: seq<(K, V)>): (r: seq<K>)
    ensures |r| == |a|
    ensures forall i :: 0 <= i < |a| ==> r[i] == a[i].0
  {
    if a == [] then [] else [a[0].0] + Keys(a[1..])
  }

  /** Dictionary lookup: the value stored under `k`, if any. */
  function Lookup<K(==), V>(a: seq<(K, V)>, k: K): (r: Option<V>)
    ensures r.None? <==> k !in Keys(a)
    ensures r.Some? ==> (k, r.value) in a
  {
    if a == [] then None
    else if a[0].0 == k then Some(a[0].1)
    else Lookup(a[1..], k)
  }

  predicate DistinctKeys<K(==), V>(a: seq<(K, V)>)
  {
    forall i, j :: 0 <= i < j < |a| ==> a[i].0 != a[j].0
  }

  /** Dictionary assignment `a[k] = v`. */
  function Put<K(==), V>(a: seq<(K, V)>, k: K, v: V): (r: seq<(K, V)>)
    ensures Keys(r) == if k in Keys(a) then Keys(a) else Keys(a) + [k]
    ensures forall e :: e in r ==> e in a || e == (k, v)
  {
    if a == [] then [(k, v)]
    else if a[0].0 == k then [(k, v)] + a[1..]
    else
      assert Keys(a) == [a[0].0] + Keys(a[1..]);
      assert forall e :: e in a[1..] ==> e in a;
      [a[0]] + Put(a[1..], k, v)
  }

  /** After `a[k] = v`, `k` maps to `v` and every other key to what it mapped to before. */
  lemma {:induction false} PutLookup<K, V>(a: seq<(K, V)>, k: K, v: V, j: K)
    ensures Lookup(Put(a, k, v), j) == if j == k then Some(v) else Lookup(a, j)
  {
    if a != [] && a[0].0 != k {
      PutLookup(a[1..], k, v, j);
    }
  }

  /** Assigning a new key appends it. */
  lemma {:induction false} PutFresh<K, V>(a: seq<(K, V)>, k: K, v: V)
    requires k !in Keys(a)
    ensures Put(a, k, v) == a + [(k, v)]
  {
    if a != [] {
      assert Keys(a)[0] == a[0].0;
      assert k !in Keys(a[1..]) by {
        forall i | 0 <= i < |a| - 1 ensures Keys(a[1..])[i] != k {
          assert Keys(a[1..])[i] == Keys(a)[i + 1];
        }
      }
      PutFresh(a[1..], k, v);
      assert [a[0]] + (a[1..] + [(k, v)]) == a + [(k, v)];
    }
  }

  /** Assignment never duplicates a key. */
  lemma {:induction false} PutDistinct<K, V>(a: seq<(K, V)>, k: K, v: V)
    requires DistinctKeys(a)
    ensures DistinctKeys(Put(a, k, v))
  {
    if a == [] {
    } else if a[0].0 == k {
      var r := Put(a, k, v);
      forall i, j | 0 <= i < j < |r| ensures r[i].0 != r[j].0 {
        assert r[j] == a[j];
        if i > 0 { assert r[i] == a[i]; }
      }
    } else {
      var rest := Put(a[1..], k, v);
      var r := [a[0]] + rest;
      assert DistinctKeys(a[1..]) by {
        forall i, j | 0 <= i < j < |a| - 1 ensures a[1..][i].0 != a[1..][j].0 {
          assert a[1..][i] == a[i + 1] && a[1..][j] == a[j + 1];
        }
      }
      PutDistinct(a[1..], k, v);
      forall i, j | 0 <= i < j < |r| ensures r[i].0 != r[j].0 {
        assert r[j] == rest[j - 1];
        if i == 0 {
          assert rest[j - 1] in rest;
          if rest[j - 1] != (k, v) {
            assert rest[j - 1] in a[1..];
            var m :| 0 <= m < |a| - 1 && a[1..][m] == rest[j - 1];
            assert a[m + 1] == rest[j - 1];
          }
        } else {
          assert r[i] == rest[i - 1];
        }
      }
    }
  }

  /** A second assignment to the same key overrides the first and keeps its place. */
  lemma {:induction false} PutPut<K, V>(a: seq<(K, V)>, k: K, v1: V, v2: V)
    ensures Put(Put(a, k, v1), k, v2) == Put(a, k, v2)
  {
    if a != [] && a[0].0 != k {
      PutPut(a[1..], k, v1, v2);
    }
  }

  /** The dictionary comprehension `{ key : value for (key, value) in tags }`. */
  function DictOf(tags: Tags): (r: Tags)
    ensures DistinctKeys(r)
    ensures forall k :: k in Keys(r) <==> k in Keys(tags)
    ensures forall e :: e in r ==> e in tags
  {
    if tags == [] then []
    else
      var front := tags[..|tags| - 1];
      var last := tags[|tags| - 1];
      assert Keys(tags) == Keys(front) + [last.0];
      assert forall e :: e in front ==> e in tags;
      PutDistinct(DictOf(front), last.0, last.1);
      Put(DictOf(front), last.0, last.1)
  }

  /** Tags that already form a dictionary are copied unchanged. */
  lemma {:induction false} DictOfDistinct(tags: Tags)
    requires DistinctKeys(tags)
    ensures DictOf(tags) == tags
  {
    if tags != [] {
      var front := tags[..|tags| - 1];
      var last := tags[|tags| - 1];
      assert DistinctKeys(front);
      DictOfDistinct(front);
      assert last.0 !in Keys(front) by {
        forall i | 0 <= i < |front| ensures Keys(front)[i] != last.0 {
          assert front[i] == tags[i];
        }
      }
      PutFresh(front, last.0, last.1);
      assert front + [last] == tags;
    }
  }

  datatype Node = Node(id: int, lat: real, lon: real, tags: Tags, ways: seq<(int, seq<int>)>)

  datatype Way = Way(id: int, nodes: seq<int>, tags: Tags)

  /** The two dictionaries of the handler, keyed by OSM id. */
  datatype Graph = Graph(nodes: map<int, Node>, ways: map<int, Way>)

  /** Only ways tagged `highway` are routable. */
  predicate Routable(tags: Tags)
  {
    "highway" in Keys(tags)
  }

  /** The tag dictionary of a stored way. */
  function StoredTags(tags: Tags): Tags
  {
    var d := DictOf(tags);
    if "sidewalk" in Keys(tags) then d else Put(d, "sidewalk", "unknown")
  }

  /**
   * A stored way has `sidewalk=unknown` when the tag was absent; every tag
   * it had is kept with its value, and no other key appears.
   */
  lemma StoredTagsSpec(tags: Tags)
    ensures DistinctKeys(StoredTags(tags))
    ensures "sidewalk" !in Keys(tags) ==> Lookup(StoredTags(tags), "sidewalk") == Some("unknown")
    ensures forall k :: k != "sidewalk" || k in Keys(tags) ==> Lookup(StoredTags(tags), k) == Lookup(DictOf(tags), k)
    ensures forall k :: k in Keys(StoredTags(tags)) <==> k in Keys(tags) || k == "sidewalk"
  {
    var d := DictOf(tags);
    if "sidewalk" !in Keys(tags) {
      PutDistinct(d, "sidewalk", "unknown");
      forall k ensures Lookup(Put(d, "sidewalk", "unknown"), k) == if k == "sidewalk" then Some("unknown") else Lookup(d, k) {
        PutLookup(d, "sidewalk", "unknown", k);
      }
    }
  }

  /** The neighbour list written for position `i` of a way with node references `refs`. */
  function Neighbours(refs: seq<int>, i: int): (r: seq<int>)
    requires 0 <= i < |refs|
    ensures |r| <= 2
    ensures forall m :: m in r ==> (0 < i && m == refs[i - 1]) || (i + 1 < |refs| && m == refs[i + 1])
    ensures 0 < i ==> refs[i - 1] in r
    ensures i + 1 < |refs| ==> refs[i + 1] in r
  {
    if |refs| == 1 then []
    else if i == 0 then [refs[1]]
    else if i == |refs| - 1 then [refs[|refs| - 2]]
    else [refs[i - 1], refs[i + 1]]
  }

  /** The last position at which `n` occurs in `refs`. */
  function LastIndex(refs: seq<int>, n: int): (r: nat)
    requires n in refs
    ensures r < |refs| && refs[r] == n
    ensures forall j :: r < j < |refs| ==> refs[j] != n
  {
    if refs[|refs| - 1] == n then |refs| - 1 else LastIndex(refs[..|refs| - 1], n)
  }

  /**
   * The entry `node.ways[w.id]` a way leaves behind for one of its nodes:
   * the positions are written first to last, so the last occurrence wins.
   */
  function WayEntry(refs: seq<int>, n: int): seq<int>
    requires n in refs
  {
    Neighbours(refs, LastIndex(refs, n))
  }

  /** The shape of the adjacency a way of distinct nodes gives: 0, 1 or 2 neighbours. */
  lemma WayEntryShape(refs: seq<int>, i: nat)
    requires i < |refs|
    requires forall p, q :: 0 <= p < q < |refs| ==> refs[p] != refs[q]
    ensures |refs| == 1 ==> WayEntry(refs, refs[i]) == []
    ensures |refs| > 1 && i == 0 ==> WayEntry(refs, refs[i]) == [refs[1]]
    ensures |refs| > 1 && i == |refs| - 1 ==> WayEntry(refs, refs[i]) == [refs[|refs| - 2]]
    ensures 0 < i < |refs| - 1 ==> WayEntry(refs, refs[i]) == [refs[i - 1], refs[i + 1]]
  {
    assert LastIndex(refs, refs[i]) == i;
  }

  /** A closed way (first node repeated at the end) leaves its first node only the backward neighbour. */
  lemma ClosedWayEntry(refs: seq<int>)
    requires |refs| >= 2 && refs[0] == refs[|refs| - 1]
    ensures WayEntry(refs, refs[0]) == [refs[|refs| - 2]]
  {
  }

  /** Every recorded neighbour is next to an occurrence of the node on the way. */
  lemma WayEntryAdjacent(refs: seq<int>, n: int, m: int)
    requires n in refs && m in WayEntry(refs, n)
    ensures exists i :: 0 <= i < |refs| && refs[i] == n &&
              ((0 < i && refs[i - 1] == m) || (i + 1 < |refs| && refs[i + 1] == m))
  {
    var i := LastIndex(refs, n);
    assert refs[i] == n;
  }

  /** Neighbour ids name stored nodes and way ids name stored ways: the lookups of `route` succeed. */
  ghost predicate GraphOk(g: Graph)
  {
    forall n, j :: n in g.nodes && 0 <= j < |g.nodes[n].ways| ==>
      g.nodes[n].ways[j].0 in g.ways &&
      forall m :: m in g.nodes[n].ways[j].1 ==> m in g.nodes
  }

  /** The neighbours of `n` through all of its ways. */
  ghost predicate Adjacent(g: Graph, n: int, m: int)
  {
    n in g.nodes && exists j :: 0 <= j < |g.nodes[n].ways| && m in g.nodes[n].ways[j].1
  }
}
