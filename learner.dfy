/**
 * One pass of the trainer over one training case (`routrainer.py`, the
 * body of the main loop): route the case directly and through its
 * waypoints, compare the two costs, and when the waypoint route is dearer
 * shift the existing weights the direct route used, then add new rules
 * from the tags the two routes differ in. The rule map and the stall
 * counters live in the `Training` class of module Trainer, whose methods
 * update them in place.
 */
module Learner {
  import opened Wrappers
  import opened RuleTree
  import opened Penalty
  import opened Graph
  import opened Search
  import opened Attribution

  // ----- the rule map -----

  ghost predicate NonNegativeWeights(rules: map<RuleKey, Weight>)
  {
    forall k :: k in rules ==> rules[k].0 >= 0.0 && rules[k].1 >= 0.0
  }

  /** `j` is a proper " && "-prefix of `k`. */
  predicate ProperPrefixKey(j: RuleKey, k: RuleKey)
  {
    0 < |j| < |k| && j == k[..|j|]
  }

  /**
   * `addRule(currentRules, rule, points)`: sets the rule, then adds its
   * parent (the rule without its last conjunct) with weight (0,0) if the
   * parent is missing, and so on up.
   */
  function WithRule(rules: map<RuleKey, Weight>, k: RuleKey, w: Weight): map<RuleKey, Weight>
    requires k != []
    decreases |k|
  {
    var r0 := rules[k := w];
    var parent := k[..|k| - 1];
    if |k| > 1 && parent !in r0 then WithRule(r0, parent, Zero) else r0
  }

  /**
   * The only keys whose prefixes may be missing extend `k`, and what they
   * miss are prefixes of `k`: the maps `addRule` meets on its way up from a
   * prefix-closed map.
   */
  ghost predicate OpenOnlyAt(rules: map<RuleKey, Weight>, k: RuleKey)
  {
    forall j, m :: j in rules && 1 <= m < |j| && j[..m] !in rules ==>
      m <= |k| <= |j| && j[..|k|] == k
  }

  lemma {:induction false} WithRuleOpen(rules: map<RuleKey, Weight>, k: RuleKey, w: Weight)
    requires k != [] && OpenOnlyAt(rules, k)
    decreases |k|
    ensures var r := WithRule(rules, k, w);
      && (forall j :: j in r <==> j in rules || j == k || ProperPrefixKey(j, k))
      && r[k] == w
      && (forall j :: j in rules && j != k ==> r[j] == rules[j])
      && (forall j :: ProperPrefixKey(j, k) && j !in rules ==> r[j] == Zero)
      && PrefixClosed(r)
  {
    var r0 := rules[k := w];
    var parent := k[..|k| - 1];
    if |k| > 1 && parent !in r0 {
      assert OpenOnlyAt(r0, parent) by {
        forall j, m | j in r0 && 1 <= m < |j| && j[..m] !in r0
          ensures m <= |parent| <= |j| && j[..|parent|] == parent
        {
          if j != k {
            assert j[..m] != k;
            assert j[..m] == j[..|k|][..m];
          }
        }
      }
      WithRuleOpen(r0, parent, Zero);
      var r := WithRule(r0, parent, Zero);
      assert r == WithRule(rules, k, w);
      forall j ensures j in r <==> j in rules || j == k || ProperPrefixKey(j, k) {
        if ProperPrefixKey(j, parent) {
          assert ProperPrefixKey(j, k);
        }
        if ProperPrefixKey(j, k) && j != parent {
          assert ProperPrefixKey(j, parent);
        }
      }
      forall j | ProperPrefixKey(j, k) && j !in rules ensures r[j] == Zero {
        if j != parent {
          assert ProperPrefixKey(j, parent);
        }
      }
    } else {
      assert WithRule(rules, k, w) == r0;
      if |k| > 1 {
        // the parent is present, so all proper prefixes of `k` are
        forall m | 1 <= m < |k| ensures k[..m] in rules {
          if m < |k| - 1 {
            assert parent[..m] == k[..m];
          }
        }
      }
      forall j | ProperPrefixKey(j, k) ensures j in rules {
        assert j == k[..|j|];
      }
      forall j, m | j in r0 && 1 <= m < |j| ensures j[..m] in r0 {
        if m <= |k| <= |j| && j[..|k|] == k {
          assert j[..m] == k[..m];
          if m < |k| {
            assert ProperPrefixKey(k[..m], k);
          }
        }
      }
    }
  }

  /**
   * `addRule` on a prefix-closed map: the rule gets the new weight, its
   * missing prefixes get (0,0), every other key keeps its weight, and the
   * map stays prefix-closed.
   */
  lemma WithRuleSpec(rules: map<RuleKey, Weight>, k: RuleKey, w: Weight)
    requires k != [] && PrefixClosed(rules)
    ensures var r := WithRule(rules, k, w);
      && (forall j :: j in r <==> j in rules || j == k || ProperPrefixKey(j, k))
      && r[k] == w
      && (forall j :: j in rules && j != k ==> r[j] == rules[j])
      && (forall j :: ProperPrefixKey(j, k) && j !in rules ==> r[j] == Zero)
      && PrefixClosed(r)
  {
    WithRuleOpen(rules, k, w);
  }

  /** A rule map the learner keeps: prefix-closed, of "N"/"W" conjunctions, with non-negative weights. */
  ghost predicate GoodRules(rules: map<RuleKey, Weight>)
  {
    PrefixClosed(rules) && WellKinded(rules) && NonNegativeWeights(rules)
  }

  /** Changing weights only, and to non-negative ones, keeps a good map good. */
  lemma SameKeysGood(rules: map<RuleKey, Weight>, rules': map<RuleKey, Weight>)
    requires GoodRules(rules) && rules'.Keys == rules.Keys && NonNegativeWeights(rules')
    ensures GoodRules(rules')
  {
    assert forall k :: k in rules' <==> k in rules;
  }

  /** Adding a rule of "N"/"W" conjuncts with a non-negative weight keeps a good map good. */
  lemma WithRuleGood(rules: map<RuleKey, Weight>, k: RuleKey, w: Weight)
    requires GoodRules(rules) && k != [] && WellKindedKey(k) && w.0 >= 0.0 && w.1 >= 0.0
    ensures GoodRules(WithRule(rules, k, w))
    ensures rules.Keys <= WithRule(rules, k, w).Keys
  {
    WithRuleSpec(rules, k, w);
    var r := WithRule(rules, k, w);
    forall j | j in r ensures j != [] && WellKindedKey(j) && r[j].0 >= 0.0 && r[j].1 >= 0.0 {
      if ProperPrefixKey(j, k) && j !in rules {
        assert forall i :: 0 <= i < |j| ==> j[i] == k[i];
      }
    }
  }

  // ----- the tree the router receives -----

  /** A tree all of whose walks reach non-negative weights only. */
  lemma {:induction false} GetNonNegative(t: Tree)
    requires forall p :: Get(t, p).Some? ==> Get(t, p).value.0 >= 0.0 && Get(t, p).value.1 >= 0.0
    ensures NonNegativeTree(t)
  {
    forall item | item in t.node
      ensures t.node[item].weight.0 >= 0.0 && t.node[item].weight.1 >= 0.0 && NonNegativeTree(t.node[item].sub)
    {
      assert Get(t, [Pos(NodeScope, item)]) == Some(t.node[item].weight);
      var sub := t.node[item].sub;
      forall q | Get(sub, q).Some? ensures Get(sub, q).value.0 >= 0.0 && Get(sub, q).value.1 >= 0.0 {
        var p := [Pos(NodeScope, item)] + q;
        assert p[1..] == q;
        assert Get(t, p) == Get(sub, q);
      }
      GetNonNegative(sub);
    }
    forall item | item in t.way
      ensures t.way[item].weight.0 >= 0.0 && t.way[item].weight.1 >= 0.0 && NonNegativeTree(t.way[item].sub)
    {
      assert Get(t, [Pos(WayScope, item)]) == Some(t.way[item].weight);
      var sub := t.way[item].sub;
      forall q | Get(sub, q).Some? ensures Get(sub, q).value.0 >= 0.0 && Get(sub, q).value.1 >= 0.0 {
        var p := [Pos(WayScope, item)] + q;
        assert p[1..] == q;
        assert Get(t, p) == Get(sub, q);
      }
      GetNonNegative(sub);
    }
  }

  /**
   * The tree `rulesToDictTuple` builds from non-negative weights holds only
   * non-negative weights: the stored ones and the (0,0) of missing prefixes.
   */
  lemma BuiltTreeNonNegative(rules: map<RuleKey, Weight>, order: seq<RuleKey>, t: Tree)
    requires forall k :: k in order <==> k in rules
    requires NonNegativeWeights(rules)
    requires forall p :: Get(t, p) == ExpectedIn(rules, order, p)
    ensures NonNegativeTree(t)
  {
    forall p | Get(t, p).Some? ensures Get(t, p).value.0 >= 0.0 && Get(t, p).value.1 >= 0.0 {
      assert Get(t, p) == ExpectedIn(rules, order, p);
    }
    GetNonNegative(t);
  }

  // ----- what the router and the attribution give the learner -----

  /** Every rule `usedTagsFromPath` reports over the tree of a good map is a key of the map: the abort for a used rule missing from the map never fires. */
  lemma UsedKeysAreRules(g: Graph, override: bool, rules: map<RuleKey, Weight>, order: seq<RuleKey>, t: Tree, path: seq<Step>)
    requires forall k :: k in order <==> k in rules
    requires WellKinded(rules) && PrefixClosed(rules)
    requires forall p :: Get(t, p) == ExpectedIn(rules, order, p)
    requires StoredPath(g, path)
    ensures forall k :: k in Tallied(UsedSteps(g, override, t, path, |path|)) ==> k in rules
  {
    forall k | k in Tallied(UsedSteps(g, override, t, path, |path|)) ensures k in rules {
      UsedKeys(g, override, t, path, k);
      var i :| 0 <= i < |path| && k in FiredRules(override, t, StepEdge(g, path, i));
      FiredRulesRoundTrip(override, rules, order, t, StepEdge(g, path, i));
    }
  }

  /** A candidate rule of `tagsFromPath` is a non-empty conjunction of "N"/"W" conjuncts, at most `depth + 1` long. */
  lemma CandidateShape(g: Graph, path: seq<Step>, depth: nat, orders: seq<seq<Conjunct>>, k: RuleKey)
    requires StoredPath(g, path) && NodeOrders(g, path, orders)
    requires k in Tallied(TagSteps(g, path, depth, orders, |path|))
    ensures k != [] && WellKindedKey(k) && |k| <= depth + 1
  {
    TagKeysFromOneStep(g, path, depth, orders, k);
    var i :| 0 <= i < |path| && BuiltAt(g, path, i, k);
    forall j | 0 <= j < |k| ensures k[j].kind == "N" || k[j].kind == "W" {
      OfStepKinds(g, path, i, k[j]);
    }
  }

  lemma {:induction false} PathLengthNonNegative(path: seq<Step>)
    requires forall i :: 0 <= i < |path| ==> path[i].len >= 0.0
    ensures PathLength(path) >= 0.0
  {
    if path != [] {
      PathLengthNonNegative(path[..|path| - 1]);
    }
  }

  /** A search result under a non-negative tree and distance: its path lies in the graph and its cost is non-negative. */
  lemma LegGood(g: Graph, c: Costing, a: int, b: int, r: RouteResult)
    requires GraphOk(g) && NonNegativeTree(c.rules) && forall x, y :: 0.0 <= c.dist(x, y)
    requires RouteSpec(g, c, a, b, r)
    ensures r.Ok? && StoredPath(g, r.path) && r.cost >= 0.0
  {
    if r.NegativeWeights? {
      NoNegativeEdge(g, c, r.from, r.to, r.wid);
    } else if r.path != [] {
      var path := r.path;
      assert StartStep(g, a).wid in g.ways by {
        assert 0 < |g.nodes[a].ways|;
      }
      forall i | 0 < i < |path| ensures path[i].wid in g.ways && path[i].nid in g.nodes && path[i].len >= 0.0 {
        assert StepOk(g, c, path[i - 1].nid, path[i]);
      }
      PathLengthNonNegative(path);
      PathCostAtLeastLength(g, c, a, b, path);
    }
  }

  /** The same for chained searches. */
  lemma {:induction false} LegsGood(g: Graph, c: Costing, ids: seq<int>, legs: seq<RouteResult>)
    requires GraphOk(g) && NonNegativeTree(c.rules) && forall x, y :: 0.0 <= c.dist(x, y)
    requires |legs| < |ids|
    requires forall i :: 0 <= i < |legs| ==> RouteSpec(g, c, ids[i], ids[i + 1], legs[i])
    ensures StoredPath(g, ConcatPaths(legs)) && SumCosts(legs) >= 0.0
  {
    if legs != [] {
      var n := |legs| - 1;
      LegsGood(g, c, ids, legs[..n]);
      LegGood(g, c, ids[n], ids[n + 1], legs[n]);
      var p: seq<Step> := ConcatPaths(legs[..n]);
      var q: seq<Step> := legs[n].path;
      assert ConcatPaths(legs) == p + q;
      var pq: seq<Step> := p + q;
      forall i | 0 <= i < |pq| ensures pq[i].wid in g.ways && pq[i].nid in g.nodes {
        if i >= |p| {
          assert pq[i] == q[i - |p|];
        }
      }
    }
  }

  // ----- splitting the difference -----

  function Minus(a: Stat, b: Stat): Stat
  {
    (a.0 - b.0, a.1 - b.1)
  }

  /** learn minus direct, a missing key counting (0,0). */
  function Difference(learn: map<RuleKey, Stat>, direct: map<RuleKey, Stat>, k: RuleKey): Stat
  {
    Minus(StatOf(learn, k), StatOf(direct, k))
  }

  /** Both listed without repetition and with the same members. */
  ghost predicate Lists<V>(keys: seq<RuleKey>, m: map<RuleKey, V>)
  {
    Distinct(keys) && forall k :: k in keys <==> k in m
  }

  /** The signed difference as the loops compute it: `plus`, `minus` or both. */
  method DiffValue(learn: map<RuleKey, Stat>, direct: map<RuleKey, Stat>, key: RuleKey) returns (value: Stat)
    requires key in learn || key in direct
    ensures value == Difference(learn, direct, key)
  {
    if key in learn {
      var plus := learn[key];
      if key in direct {
        var minus := direct[key];
        value := (plus.0 - minus.0, plus.1 - minus.1);
      } else {
        value := plus;
      }
    } else {
      var minus := direct[key];
      value := (-minus.0, -minus.1);
    }
  }

  /**
   * `differenceTags`: the keys of either candidate dictionary that are not
   * rules yet and whose difference is not (0,0), with that difference, in
   * the order the loop met them.
   */
  method NewRuleDifferences(learn: map<RuleKey, Stat>, direct: map<RuleKey, Stat>, rules: map<RuleKey, Weight>)
    returns (diff: map<RuleKey, Stat>, order: seq<RuleKey>)
    ensures Lists(order, diff)
    ensures forall k :: k in diff <==> (k in learn || k in direct) && k !in rules && Difference(learn, direct, k) != (0.0, 0.0)
    ensures forall k :: k in diff ==> diff[k] == Difference(learn, direct, k)
  {
    var allKeys := ListOf(learn.Keys + direct.Keys);
    diff := map[];
    order := [];
    for i := 0 to |allKeys|
      invariant Lists(order, diff)
      invariant forall k :: k in diff <==> k in allKeys[..i] && k !in rules && Difference(learn, direct, k) != (0.0, 0.0)
      invariant forall k :: k in diff ==> diff[k] == Difference(learn, direct, k)
    {
      var key := allKeys[i];
      assert allKeys[..i + 1] == allKeys[..i] + [key];
      assert key in learn.Keys + direct.Keys;
      var value := DiffValue(learn, direct, key);
      if value != (0.0, 0.0) {
        if key !in rules {
          diff := diff[key := value];
          order := order + [key];
        }
      }
    }
    assert allKeys[..|allKeys|] == allKeys;
  }

  function Sq(c: Stat): real
  {
    c.0 * c.0 + c.1 * c.1
  }

  /** The squared norm of the listed entries. */
  function SquaresOver(m: map<RuleKey, Stat>, keys: seq<RuleKey>): real
    requires forall k :: k in keys ==> k in m
  {
    if keys == [] then 0.0 else SquaresOver(m, keys[..|keys| - 1]) + Sq(m[keys[|keys| - 1]])
  }

  lemma MulPos(a: real, b: real)
    requires a > 0.0 && b > 0.0
    ensures a * b > 0.0
  {
  }

  lemma SquareNonNegative(a: real)
    ensures a * a >= 0.0
  {
    if a > 0.0 {
      MulPos(a, a);
    } else if a < 0.0 {
      MulPos(-a, -a);
      assert (-a) * (-a) == a * a;
    }
  }

  /** A new entry listed last adds its square. */
  lemma SquaresSnoc(m: map<RuleKey, Stat>, keys: seq<RuleKey>, k: RuleKey, v: Stat)
    requires Distinct(keys) && k !in keys && forall j :: j in keys ==> j in m
    ensures SquaresOver(m[k := v], keys + [k]) == SquaresOver(m, keys) + Sq(v)
  {
    SquaresUpdate(m, keys, k, v);
    assert (keys + [k])[..|keys|] == keys;
  }

  lemma {:induction false} SquaresNonNegative(m: map<RuleKey, Stat>, keys: seq<RuleKey>)
    requires forall k :: k in keys ==> k in m
    ensures SquaresOver(m, keys) >= 0.0
  {
    if keys != [] {
      var c := m[keys[|keys| - 1]];
      SquaresNonNegative(m, keys[..|keys| - 1]);
      SquareNonNegative(c.0);
      SquareNonNegative(c.1);
    }
  }

  /** Changing one listed entry changes the norm by the change of its square. */
  lemma {:induction false} SquaresUpdate(m: map<RuleKey, Stat>, keys: seq<RuleKey>, k: RuleKey, v: Stat)
    requires Distinct(keys) && forall j :: j in keys ==> j in m
    ensures k in keys ==> SquaresOver(m[k := v], keys) == SquaresOver(m, keys) - Sq(m[k]) + Sq(v)
    ensures k !in keys ==> SquaresOver(m[k := v], keys) == SquaresOver(m, keys)
  {
    if keys != [] {
      var front := keys[..|keys| - 1];
      var last := keys[|keys| - 1];
      assert Distinct(front);
      assert k == last ==> k !in front;
      SquaresUpdate(m, front, k, v);
    }
  }

  /** `existingUsedTags[key] = value` and its square added to `norm2`. */
  method AddExisting(existing: map<RuleKey, Stat>, order: seq<RuleKey>, norm2: real, key: RuleKey, value: Stat)
    returns (existing': map<RuleKey, Stat>, order': seq<RuleKey>, norm2': real)
    requires Lists(order, existing) && key !in existing && norm2 == SquaresOver(existing, order)
    ensures existing' == existing[key := value] && order' == order + [key]
    ensures Lists(order', existing') && norm2' == SquaresOver(existing', order')
  {
    SquaresSnoc(existing, order, key, value);
    existing' := existing[key := value];
    order' := order + [key];
    norm2' := norm2 + value.0 * value.0 + value.1 * value.1;
  }

  /** `existingUsedTags` once the keys `seen` have been visited. */
  ghost predicate DiffsOver(learn: map<RuleKey, Stat>, direct: map<RuleKey, Stat>, rules: map<RuleKey, Weight>,
                            seen: seq<RuleKey>, existing: map<RuleKey, Stat>)
  {
    && (forall k :: k in existing <==> k in seen && Difference(learn, direct, k) != (0.0, 0.0))
    && (forall k :: k in existing ==> existing[k] == Difference(learn, direct, k) && k in rules)
  }

  /** Visiting one more key adds it exactly when its difference is not (0,0). */
  lemma DiffsOverSnoc(learn: map<RuleKey, Stat>, direct: map<RuleKey, Stat>, rules: map<RuleKey, Weight>,
                      seen: seq<RuleKey>, existing: map<RuleKey, Stat>, key: RuleKey)
    requires DiffsOver(learn, direct, rules, seen, existing) && key in rules
    ensures Difference(learn, direct, key) == (0.0, 0.0) ==> DiffsOver(learn, direct, rules, seen + [key], existing)
    ensures Difference(learn, direct, key) != (0.0, 0.0) ==>
              DiffsOver(learn, direct, rules, seen + [key], existing[key := Difference(learn, direct, key)])
  {
  }

  /**
   * `existingUsedTags` and `norm2`: the keys of either used dictionary
   * whose difference is not (0,0), all of them rules (the source aborts
   * otherwise), with that difference, and the sum of the differences'
   * squares.
   */
  method UsedDifferences(learn: map<RuleKey, Stat>, direct: map<RuleKey, Stat>, rules: map<RuleKey, Weight>)
    returns (existing: map<RuleKey, Stat>, order: seq<RuleKey>, norm2: real)
    requires forall k :: k in learn || k in direct ==> k in rules
    ensures Lists(order, existing)
    ensures forall k :: k in existing <==> (k in learn || k in direct) && Difference(learn, direct, k) != (0.0, 0.0)
    ensures forall k :: k in existing ==> existing[k] == Difference(learn, direct, k) && k in rules
    ensures norm2 == SquaresOver(existing, order)
  {
    var allUsedKeys := ListOf(learn.Keys + direct.Keys);
    existing := map[];
    order := [];
    norm2 := 0.0;
    for i := 0 to |allUsedKeys|
      invariant Lists(order, existing) && norm2 == SquaresOver(existing, order)
      invariant DiffsOver(learn, direct, rules, allUsedKeys[..i], existing)
    {
      var key := allUsedKeys[i];
      assert allUsedKeys[..i + 1] == allUsedKeys[..i] + [key];
      assert key in learn.Keys + direct.Keys;
      var value := DiffValue(learn, direct, key);
      DiffsOverSnoc(learn, direct, rules, allUsedKeys[..i], existing, key);
      if value != (0.0, 0.0) {
        existing, order, norm2 := AddExisting(existing, order, norm2, key, value);
      }
    }
    assert allUsedKeys[..|allUsedKeys|] == allUsedKeys;
  }
}
