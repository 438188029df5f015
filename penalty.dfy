/**
 * The per-edge evaluation of a rule tree (`OSMHandler.penalty`) and the
 * variant that reports which flat rules fired (`OSMHandler.penaltyRules`).
 *
 * Both scan, in this order, the tags of the from-node and of the to-node
 * against the node dictionary and the tags of the way against the way
 * dictionary. A tag `key=value` matches when "key==value" is an item of the
 * dictionary; its children are then evaluated against the same edge.
 */
module Penalty {
  import opened Wrappers
  import opened RuleTree

  /** A tag dictionary in its insertion order. */
  type Tags = seq<(string, string)>

  function ItemOf(tag: string, value: string): string
  {
    tag + "==" + value
  }

  /** The three tag sources of one edge: from-node, to-node and way. */
  datatype Edge = Edge(from: Tags, to: Tags, way: Tags)

  /** (lengthPenalty, pointPenalty, penaltyCount) */
  datatype Score = Score(len: real, point: real, count: nat)

  const NoScore := Score(0.0, 0.0, 0)

  /** How one matched item with own weight `w` and deeper result `sub` changes the running sums. */
  function Combine(override: bool, w: Weight, sub: Score, acc: Score): Score
  {
    if override then
      if sub.count > 0 then Score(acc.len + sub.len, acc.point + sub.point, acc.count + sub.count)
      else Score(acc.len + w.0, acc.point + w.1, acc.count + sub.count + 1)
    else
      Score(acc.len + w.0 + sub.len, acc.point + w.1 + sub.point, acc.count + sub.count + 1)
  }

  function Penalty(override: bool, t: Tree, e: Edge): Score
    decreases t, 1
  {
    var s0 := Scan(override, t, NodeScope, e.from, e, NoScore);
    var s1 := Scan(override, t, NodeScope, e.to, e, s0);
    Scan(override, t, WayScope, e.way, e, s1)
  }

  function Scan(override: bool, t: Tree, s: Scope, tags: Tags, e: Edge, acc: Score): Score
    decreases t, 0, |tags|
  {
    if tags == [] then acc
    else
      var item := ItemOf(tags[0].0, tags[0].1);
      var acc' :=
        if s == NodeScope && item in t.node then
          Combine(override, t.node[item].weight, Penalty(override, t.node[item].sub, e), acc)
        else if s == WayScope && item in t.way then
          Combine(override, t.way[item].weight, Penalty(override, t.way[item].sub, e), acc)
        else acc;
      Scan(override, t, s, tags[1..], e, acc')
  }

  /** The kind prefix `penaltyRules` writes for a scope. */
  function KindOf(s: Scope): string
  {
    if s == NodeScope then "N" else "W"
  }

  function Prefixed(head: Conjunct, sub: map<RuleKey, Weight>): map<RuleKey, Weight>
  {
    var keys := set k | k in sub :: [head] + k;
    map k | k in keys :: sub[k[1..]]
  }

  /** How one matched item with own weight `w` and deeper fired rules `sub` changes the result. */
  function CombineFired(override: bool, head: Conjunct, w: Weight, sub: map<RuleKey, Weight>,
                        acc: map<RuleKey, Weight>): map<RuleKey, Weight>
  {
    if override then
      if sub != map[] then acc + Prefixed(head, sub) else acc[[head] := w]
    else
      (acc + Prefixed(head, sub))[[head] := w]
  }

  function FiredRules(override: bool, t: Tree, e: Edge): map<RuleKey, Weight>
    decreases t, 1
  {
    var r0 := ScanFired(override, t, NodeScope, e.from, e, map[]);
    var r1 := ScanFired(override, t, NodeScope, e.to, e, r0);
    ScanFired(override, t, WayScope, e.way, e, r1)
  }

  function ScanFired(override: bool, t: Tree, s: Scope, tags: Tags, e: Edge,
                     acc: map<RuleKey, Weight>): map<RuleKey, Weight>
    decreases t, 0, |tags|
  {
    if tags == [] then acc
    else
      var item := ItemOf(tags[0].0, tags[0].1);
      var head := Conjunct(KindOf(s), item);
      var acc' :=
        if s == NodeScope && item in t.node then
          CombineFired(override, head, t.node[item].weight, FiredRules(override, t.node[item].sub, e), acc)
        else if s == WayScope && item in t.way then
          CombineFired(override, head, t.way[item].weight, FiredRules(override, t.way[item].sub, e), acc)
        else acc;
      ScanFired(override, t, s, tags[1..], e, acc')
  }

  // ----- empty rule tree -----

  lemma {:induction false} ScanEmpty(override: bool, s: Scope, tags: Tags, e: Edge, acc: Score, racc: map<RuleKey, Weight>)
    ensures Scan(override, Empty, s, tags, e, acc) == acc
    ensures ScanFired(override, Empty, s, tags, e, racc) == racc
    decreases |tags|
  {
    if tags != [] {
      ScanEmpty(override, s, tags[1..], e, acc, racc);
    }
  }

  /** With no rules every edge costs (0,0,0) and fires nothing, in both modes. */
  lemma EmptyRules(override: bool, e: Edge)
    ensures Penalty(override, Empty, e) == NoScore
    ensures FiredRules(override, Empty, e) == map[]
  {
    ScanEmpty(override, NodeScope, e.from, e, NoScore, map[]);
    ScanEmpty(override, NodeScope, e.to, e, NoScore, map[]);
    ScanEmpty(override, WayScope, e.way, e, NoScore, map[]);
  }

  // ----- fired rules exist exactly when the count is positive -----

  lemma {:induction false} CombineAgree(override: bool, head: Conjunct, w: Weight, sub: Score, rsub: map<RuleKey, Weight>,
                                        acc: Score, racc: map<RuleKey, Weight>)
    requires sub.count > 0 <==> rsub != map[]
    ensures Combine(override, w, sub, acc).count > 0
    ensures CombineFired(override, head, w, rsub, racc) != map[]
  {
    if override && rsub != map[] {
      var k :| k in rsub;
      assert [head] + k in Prefixed(head, rsub);
      assert [head] + k in CombineFired(override, head, w, rsub, racc);
    } else {
      assert [head] in CombineFired(override, head, w, rsub, racc);
    }
  }

  lemma {:induction false} ScanAgree(override: bool, t: Tree, s: Scope, tags: Tags, e: Edge,
                                     acc: Score, racc: map<RuleKey, Weight>)
    requires acc.count > 0 <==> racc != map[]
    ensures Scan(override, t, s, tags, e, acc).count > 0 <==> ScanFired(override, t, s, tags, e, racc) != map[]
    decreases t, 0, |tags|
  {
    if tags != [] {
      var item := ItemOf(tags[0].0, tags[0].1);
      var head := Conjunct(KindOf(s), item);
      var d := Dict(t, s);
      if item in d {
        FiredIffCounted(override, d[item].sub, e);
        CombineAgree(override, head, d[item].weight, Penalty(override, d[item].sub, e),
                     FiredRules(override, d[item].sub, e), acc, racc);
        var acc' := Combine(override, d[item].weight, Penalty(override, d[item].sub, e), acc);
        var racc' := CombineFired(override, head, d[item].weight, FiredRules(override, d[item].sub, e), racc);
        ScanAgree(override, t, s, tags[1..], e, acc', racc');
        ScanGrows(override, t, s, tags[1..], e, acc', racc');
      } else {
        ScanAgree(override, t, s, tags[1..], e, acc, racc);
      }
    }
  }

  lemma {:induction false} ScanGrows(override: bool, t: Tree, s: Scope, tags: Tags, e: Edge,
                                     acc: Score, racc: map<RuleKey, Weight>)
    ensures Scan(override, t, s, tags, e, acc).count >= acc.count
    ensures racc.Keys <= ScanFired(override, t, s, tags, e, racc).Keys
    decreases |tags|
  {
    if tags != [] {
      var item := ItemOf(tags[0].0, tags[0].1);
      var head := Conjunct(KindOf(s), item);
      var d := Dict(t, s);
      if item in d {
        var acc' := Combine(override, d[item].weight, Penalty(override, d[item].sub, e), acc);
        var racc' := CombineFired(override, head, d[item].weight, FiredRules(override, d[item].sub, e), racc);
        ScanGrows(override, t, s, tags[1..], e, acc', racc');
      } else {
        ScanGrows(override, t, s, tags[1..], e, acc, racc);
      }
    }
  }

  /**
   * `penaltyRules` reports some rule exactly when `penalty` counts a match,
   * in override mode and in additive mode.
   */
  lemma {:induction false} FiredIffCounted(override: bool, t: Tree, e: Edge)
    ensures Penalty(override, t, e).count > 0 <==> FiredRules(override, t, e) != map[]
    decreases t, 1
  {
    var s0 := Scan(override, t, NodeScope, e.from, e, NoScore);
    var r0 := ScanFired(override, t, NodeScope, e.from, e, map[]);
    ScanAgree(override, t, NodeScope, e.from, e, NoScore, map[]);
    var s1 := Scan(override, t, NodeScope, e.to, e, s0);
    var r1 := ScanFired(override, t, NodeScope, e.to, e, r0);
    ScanAgree(override, t, NodeScope, e.to, e, s0, r0);
    ScanAgree(override, t, WayScope, e.way, e, s1, r1);
  }

  // ----- non-negative weights give non-negative penalties -----

  ghost predicate NonNegativeTree(t: Tree)
  {
    && (forall item :: item in t.node ==>
          t.node[item].weight.0 >= 0.0 && t.node[item].weight.1 >= 0.0 && NonNegativeTree(t.node[item].sub))
    && (forall item :: item in t.way ==>
          t.way[item].weight.0 >= 0.0 && t.way[item].weight.1 >= 0.0 && NonNegativeTree(t.way[item].sub))
  }

  predicate NonNegativeScore(s: Score)
  {
    s.len >= 0.0 && s.point >= 0.0
  }

  lemma {:induction false} ScanNonNegative(override: bool, t: Tree, s: Scope, tags: Tags, e: Edge, acc: Score)
    requires NonNegativeTree(t) && NonNegativeScore(acc)
    ensures NonNegativeScore(Scan(override, t, s, tags, e, acc))
    decreases t, 0, |tags|
  {
    if tags != [] {
      var item := ItemOf(tags[0].0, tags[0].1);
      var d := Dict(t, s);
      if item in d {
        NonNegativePenalty(override, d[item].sub, e);
        var acc' := Combine(override, d[item].weight, Penalty(override, d[item].sub, e), acc);
        ScanNonNegative(override, t, s, tags[1..], e, acc');
      } else {
        ScanNonNegative(override, t, s, tags[1..], e, acc);
      }
    }
  }

  /**
   * If every stored weight is non-negative, both penalty components are
   * non-negative in either mode, so the negative-weight abort of `route`
   * never fires.
   */
  lemma {:induction false} NonNegativePenalty(override: bool, t: Tree, e: Edge)
    requires NonNegativeTree(t)
    ensures NonNegativeScore(Penalty(override, t, e))
    decreases t, 1
  {
    var s0 := Scan(override, t, NodeScope, e.from, e, NoScore);
    ScanNonNegative(override, t, NodeScope, e.from, e, NoScore);
    var s1 := Scan(override, t, NodeScope, e.to, e, s0);
    ScanNonNegative(override, t, NodeScope, e.to, e, s0);
    ScanNonNegative(override, t, WayScope, e.way, e, s1);
  }

  // ----- most specific rule versus all rules -----

  /** The way of the example below, and its two rule trees. */
  function FootEdge(): Edge
  {
    Edge([], [], [("highway", "service"), ("foot", "yes")])
  }

  function FootTree(): Tree
  {
    Tree(map[], map["foot==yes" := Entry((2.0, 0.0), Empty)])
  }

  function ServiceTree(): Tree
  {
    Tree(map[], map["highway==service" := Entry((10.0, 0.0), FootTree())])
  }

  lemma ExampleItems()
    ensures ItemOf("highway", "service") == "highway==service"
    ensures ItemOf("foot", "yes") == "foot==yes"
    ensures "foot==yes" != "highway==service"
  {
    assert "foot==yes"[0] != "highway==service"[0];
  }

  /** The inner rule alone fires once on the example way. */
  lemma FootTreeExample(ov: bool)
    ensures Penalty(ov, FootTree(), FootEdge()) == Score(2.0, 0.0, 1)
  {
    var e := FootEdge();
    var w1 := [("foot", "yes")];
    ExampleItems();
    assert e.way[1..] == w1 && w1[1..] == [];
    EmptyRules(ov, e);
    assert Scan(ov, FootTree(), WayScope, w1, e, NoScore) == Score(2.0, 0.0, 1);
    assert Scan(ov, FootTree(), WayScope, e.way, e, NoScore) == Scan(ov, FootTree(), WayScope, w1, e, NoScore);
  }

  /** The outer rule fires on the first tag and hands the rest of the way on. */
  lemma ServiceTreeStep(ov: bool)
    ensures Penalty(ov, ServiceTree(), FootEdge())
         == Scan(ov, ServiceTree(), WayScope, [("foot", "yes")], FootEdge(), Combine(ov, (10.0, 0.0), Score(2.0, 0.0, 1), NoScore))
  {
    var t := ServiceTree();
    var e := FootEdge();
    var w1 := [("foot", "yes")];
    ExampleItems();
    assert e.way[1..] == w1;
    FootTreeExample(ov);
    assert Scan(ov, t, NodeScope, [], e, NoScore) == NoScore;
    assert Scan(ov, t, WayScope, e.way, e, NoScore)
        == Scan(ov, t, WayScope, w1, e, Combine(ov, (10.0, 0.0), Penalty(ov, FootTree(), e), NoScore));
  }

  /**
   * The example in the comment at the top of the trainer: rules
   * "highway==service":(10,0) and "highway==service && foot==yes":(2,0) on a
   * way tagged highway=service, foot=yes give (2,0) with override and (12,0)
   * without.
   */
  lemma ServiceFootExample()
    ensures var t := Tree(map[], map["highway==service" := Entry((10.0, 0.0),
                                       Tree(map[], map["foot==yes" := Entry((2.0, 0.0), Empty)]))]);
            var e := Edge([], [], [("highway", "service"), ("foot", "yes")]);
            && Penalty(true, t, e) == Score(2.0, 0.0, 1)
            && Penalty(false, t, e) == Score(12.0, 0.0, 2)
  {
    var t := ServiceTree();
    var e := FootEdge();
    var w1 := [("foot", "yes")];
    ExampleItems();
    assert w1[1..] == [];
    ServiceTreeStep(true);
    ServiceTreeStep(false);
    assert Scan(true, t, WayScope, w1, e, Score(2.0, 0.0, 1)) == Score(2.0, 0.0, 1);
    assert Scan(false, t, WayScope, w1, e, Score(12.0, 0.0, 2)) == Score(12.0, 0.0, 2);
  }

  // ----- fired rules are exactly entries of the tree -----

  /** Every fired key walks down the tree to an entry carrying the reported weight. */
  ghost predicate Located(t: Tree, fired: map<RuleKey, Weight>)
  {
    forall k :: k in fired ==> k != [] && WellKindedKey(k) && Get(t, PathOf(k)) == Some(fired[k])
  }

  lemma WellKindedCons(c: Conjunct, k: RuleKey)
    requires (c.kind == "N" || c.kind == "W") && WellKindedKey(k)
    ensures WellKindedKey([c] + k)
  {
    var k' := [c] + k;
    forall i | 0 < i < |k'| ensures k'[i].kind == "N" || k'[i].kind == "W" {
      assert k'[i] == k[i - 1];
    }
  }

  /** One key of the deeper result, with the matched conjunct in front, walks to its entry. */
  lemma PrefixedKeyLocated(t: Tree, s: Scope, item: string, sub: map<RuleKey, Weight>, k': RuleKey)
    requires item in Dict(t, s)
    requires Located(Dict(t, s)[item].sub, sub) && k' in sub
    ensures var k := [Conjunct(KindOf(s), item)] + k';
            k != [] && WellKindedKey(k) && Get(t, PathOf(k)) == Some(sub[k'])
  {
    var head := Conjunct(KindOf(s), item);
    var k := [head] + k';
    assert k[1..] == k';
    PathOfTail(k);
    var p := PathOf(k);
    assert p[0] == Pos(s, item) && |p| > 1;
    assert Get(t, p) == Get(Dict(t, s)[item].sub, PathOf(k'));
    WellKindedCons(head, k');
  }

  lemma PrefixedLocated(t: Tree, s: Scope, item: string, sub: map<RuleKey, Weight>)
    requires item in Dict(t, s)
    requires Located(Dict(t, s)[item].sub, sub)
    ensures Located(t, Prefixed(Conjunct(KindOf(s), item), sub))
  {
    var head := Conjunct(KindOf(s), item);
    var pre := Prefixed(head, sub);
    forall k | k in pre
      ensures k != [] && WellKindedKey(k) && Get(t, PathOf(k)) == Some(pre[k])
    {
      var k' :| k' in sub && k == [head] + k';
      assert k[1..] == k';
      PrefixedKeyLocated(t, s, item, sub, k');
    }
  }

  /** Combining located entries with a located head key keeps every entry located. */
  lemma CombineFiredLocated(override: bool, t: Tree, head: Conjunct, w: Weight, pre: map<RuleKey, Weight>,
                            sub: map<RuleKey, Weight>, acc: map<RuleKey, Weight>)
    requires pre == Prefixed(head, sub)
    requires Located(t, acc) && Located(t, pre)
    requires WellKindedKey([head]) && Get(t, PathOf([head])) == Some(w)
    ensures Located(t, CombineFired(override, head, w, sub, acc))
  {
    var both := acc + pre;
    assert Located(t, both);
  }

  lemma {:induction false} ScanFiredLocated(override: bool, t: Tree, s: Scope, tags: Tags, e: Edge, acc: map<RuleKey, Weight>)
    requires Located(t, acc)
    ensures Located(t, ScanFired(override, t, s, tags, e, acc))
    decreases t, 0, |tags|
  {
    if tags != [] {
      var item := ItemOf(tags[0].0, tags[0].1);
      var head := Conjunct(KindOf(s), item);
      var d := Dict(t, s);
      if item in d {
        var sub := FiredRules(override, d[item].sub, e);
        FiredRulesLocated(override, d[item].sub, e);
        PrefixedLocated(t, s, item, sub);
        assert PathOf([head]) == [Pos(s, item)];
        var acc' := CombineFired(override, head, d[item].weight, sub, acc);
        CombineFiredLocated(override, t, head, d[item].weight, Prefixed(head, sub), sub, acc);
        ScanFiredLocated(override, t, s, tags[1..], e, acc');
      } else {
        ScanFiredLocated(override, t, s, tags[1..], e, acc);
      }
    }
  }

  /**
   * Every key `penaltyRules` reports is made of "N:"/"W:" conjuncts and walks
   * down the evaluated tree to an entry whose weight is the reported one.
   */
  lemma {:induction false} FiredRulesLocated(override: bool, t: Tree, e: Edge)
    ensures Located(t, FiredRules(override, t, e))
    decreases t, 1
  {
    var r0 := ScanFired(override, t, NodeScope, e.from, e, map[]);
    ScanFiredLocated(override, t, NodeScope, e.from, e, map[]);
    var r1 := ScanFired(override, t, NodeScope, e.to, e, r0);
    ScanFiredLocated(override, t, NodeScope, e.to, e, r0);
    ScanFiredLocated(override, t, WayScope, e.way, e, r1);
  }

  /** In a prefix-closed map a proper prefix walk of a key is itself the walk of a key. */
  lemma PrefixWalkIsKeyWalk(rules: map<RuleKey, Weight>, order: seq<RuleKey>, p: seq<Pos>)
    requires forall k :: k in order <==> k in rules
    requires PrefixClosed(rules)
    ensures PrefixOfSome(order, p) ==> LastWithPath(order, p).Some?
  {
    if PrefixOfSome(order, p) {
      var k :| k in order && IsProperPrefix(p, PathOf(k));
      var pre := k[..|p|];
      assert pre in rules;
      assert PathOf(pre) == p;
    }
  }

  /**
   * The round trip the learner depends on: when the rule map is prefix-closed
   * and all its conjuncts have kind "N" or "W", every key that `penaltyRules`
   * reports over the tree `rulesToDictTuple` built from it is a key of the map
   * with the same weight.
   */
  lemma FiredRulesRoundTrip(override: bool, rules: map<RuleKey, Weight>, order: seq<RuleKey>, t: Tree, e: Edge)
    requires forall k :: k in order <==> k in rules
    requires WellKinded(rules) && PrefixClosed(rules)
    requires forall p :: Get(t, p) == ExpectedIn(rules, order, p)
    ensures forall k :: k in FiredRules(override, t, e) ==>
              k in rules && rules[k] == FiredRules(override, t, e)[k]
  {
    var fired := FiredRules(override, t, e);
    FiredRulesLocated(override, t, e);
    forall k | k in fired
      ensures k in rules && rules[k] == fired[k]
    {
      var p := PathOf(k);
      assert ExpectedIn(rules, order, p) == Some(fired[k]);
      PrefixWalkIsKeyWalk(rules, order, p);
      PathOfInjective(k, LastWithPath(order, p).value);
    }
  }
}
