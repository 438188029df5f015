/**
 * The trainer of `routrainer.py`: the rule map and the stall counters of
 * the learning loop, and the per-case update that routes a training case
 * directly and through its waypoints and, when the waypoint route costs
 * more, moves weight onto the rules the routes used and adds new rules
 * from the tags they differ in.
 */
module Trainer {
  import opened Wrappers
  import opened RuleTree
  import opened Penalty
  import opened Graph
  import opened Search
  import opened Attribution
  import opened Learner
  import opened Compensation

  // ----- choosing the new rule -----

  /**
   * The sort keys of `differenceTagsLengthSorted` and
   * `differenceTagsNodeSorted`: the length (or node) difference, discounted
   * by one percent per " && "; 0 for a rule without a way (or node)
   * conjunct.
   */
  function Score(forWays: bool, k: RuleKey, d: Stat): real
  {
    var discount := 1.0 - (|k| - 1) as real / 100.0;
    if forWays then (if HasKind(k, "W") then d.0 * discount else 0.0)
    else (if HasKind(k, "N") then d.1 * discount else 0.0)
  }

  /**
   * `sorted(differenceTags.items(), key = ...)[0]`: Python's sort is
   * stable, so this is the first listed key whose score is least.
   */
  function FirstMin(keys: seq<RuleKey>, diff: map<RuleKey, Stat>, forWays: bool): (i: nat)
    requires |keys| > 0 && forall k :: k in keys ==> k in diff
    ensures i < |keys|
    ensures forall j :: 0 <= j < |keys| ==> Score(forWays, keys[i], diff[keys[i]]) <= Score(forWays, keys[j], diff[keys[j]])
    ensures forall j :: 0 <= j < i ==> Score(forWays, keys[i], diff[keys[i]]) < Score(forWays, keys[j], diff[keys[j]])
  {
    if |keys| == 1 then 0
    else
      var front := keys[..|keys| - 1];
      var i := FirstMin(front, diff, forWays);
      var last := keys[|keys| - 1];
      assert front[i] == keys[i];
      if Score(forWays, last, diff[last]) < Score(forWays, keys[i], diff[keys[i]]) then |keys| - 1 else i
  }

  /**
   * The `addRule` calls of a failing case, in order, for the differences
   * `diff` listed by `order` and the error `a` left to the new rules: a
   * rule for the way key with the least score and one for the node key
   * with the least score, each when its difference is negative, or one
   * rule when the two keys coincide.
   */
  function Additions(diff: map<RuleKey, Stat>, order: seq<RuleKey>, a: real): (r: seq<(RuleKey, Weight)>)
    requires |order| > 0 && forall k :: k in order ==> k in diff
    ensures forall e :: e in r ==> e.0 in order
  {
    Chosen(diff, order[FirstMin(order, diff, true)], order[FirstMin(order, diff, false)], a)
  }

  /** The `addRule` calls for way rule `w` and node rule `n`. */
  function Chosen(diff: map<RuleKey, Stat>, w: RuleKey, n: RuleKey, a: real): (r: seq<(RuleKey, Weight)>)
    requires w in diff && n in diff
    ensures forall e :: e in r ==> e.0 == w || e.0 == n
  {
    var dw := diff[w];
    if n != w then WayPart(w, dw, a / 2.0) + NodePart(n, diff[n], a / 2.0)
    else if dw.0 < 0.0 && dw.1 < 0.0 then [(w, (Amount(a / 2.0, dw.0), Amount(a / 2.0, dw.1)))]
    else if dw.0 < 0.0 then WayPart(w, dw, a)
    else NodePart(w, dw, a)
  }

  /** A length rule `k` making up `x` over the length difference, when that is negative. */
  function WayPart(k: RuleKey, d: Stat, x: real): (r: seq<(RuleKey, Weight)>)
    ensures forall e :: e in r ==> e.0 == k
  {
    if d.0 < 0.0 then [(k, (Amount(x, d.0), 0.0))] else []
  }

  /** A node rule `k` making up `x` over the node difference, when that is negative. */
  function NodePart(k: RuleKey, d: Stat, x: real): (r: seq<(RuleKey, Weight)>)
    ensures forall e :: e in r ==> e.0 == k
  {
    if d.1 < 0.0 then [(k, (0.0, Amount(x, d.1)))] else []
  }

  /** The cost the added rules put back on the waypoint route relative to the direct one. */
  function Restored(adds: seq<(RuleKey, Weight)>, diff: map<RuleKey, Stat>): real
    requires forall e :: e in adds ==> e.0 in diff
  {
    if adds == [] then 0.0
    else
      var d := diff[adds[0].0];
      assert forall e :: e in adds[1..] ==> e in adds;
      -(adds[0].1.0 * d.0 + adds[0].1.1 * d.1) + Restored(adds[1..], diff)
  }

  /** The weight that, over a difference `d`, makes up the cost `x`: `-x / d`. */
  function Amount(x: real, d: real): real
    requires d != 0.0
  {
    -x / d
  }

  /** Weight times difference gives the cost back. */
  lemma AmountBack(x: real, d: real)
    requires d != 0.0
    ensures -(Amount(x, d) * d) == x
  {
    assert -x / d * d == -x;
  }

  /** Over a negative difference a positive cost takes a positive weight. */
  lemma AmountPositive(x: real, d: real)
    requires x > 0.0 && d < 0.0
    ensures Amount(x, d) > 0.0
  {
    DivNegNeg(-x, d);
  }

  /**
   * What the added rules are: at most two, keys of `diff`, two only for two
   * different keys; each weight is non-negative, some component of it is
   * positive, and a component is positive only where the difference is
   * negative, that is where the waypoint route used that rule less.
   */
  lemma AdditionsShape(diff: map<RuleKey, Stat>, order: seq<RuleKey>, a: real)
    requires |order| > 0 && forall k :: k in order ==> k in diff
    requires a > 0.0
    ensures var adds := Additions(diff, order, a);
      && |adds| <= 2
      && (|adds| == 2 ==> adds[0].0 != adds[1].0)
      && forall e :: e in adds ==>
           && e.0 in order
           && e.1.0 >= 0.0 && e.1.1 >= 0.0 && (e.1.0 > 0.0 || e.1.1 > 0.0)
           && (e.1.0 > 0.0 ==> diff[e.0].0 < 0.0)
           && (e.1.1 > 0.0 ==> diff[e.0].1 < 0.0)
  {
    var w := order[FirstMin(order, diff, true)];
    var n := order[FirstMin(order, diff, false)];
    var dw := diff[w];
    var dn := diff[n];
    if dw.0 < 0.0 {
      AmountPositive(a / 2.0, dw.0);
      AmountPositive(a, dw.0);
    }
    if dw.1 < 0.0 {
      AmountPositive(a / 2.0, dw.1);
      AmountPositive(a, dw.1);
    }
    if dn.1 < 0.0 {
      AmountPositive(a / 2.0, dn.1);
    }
  }

  /** Nothing is added exactly when the chosen keys have no negative difference to make up. */
  lemma AdditionsEmpty(diff: map<RuleKey, Stat>, order: seq<RuleKey>, a: real)
    requires |order| > 0 && forall k :: k in order ==> k in diff
    ensures var w := order[FirstMin(order, diff, true)];
      var n := order[FirstMin(order, diff, false)];
      Additions(diff, order, a) == [] <==>
        if w != n then diff[w].0 >= 0.0 && diff[n].1 >= 0.0 else diff[w].0 >= 0.0 && diff[w].1 >= 0.0
  {
  }

  /**
   * Weighted by the differences, the added rules make up the whole error
   * `a`, or half of it when only one of two different keys could take a
   * rule.
   */
  lemma AdditionsRestore(diff: map<RuleKey, Stat>, order: seq<RuleKey>, a: real)
    requires |order| > 0 && forall k :: k in order ==> k in diff
    ensures var adds := Additions(diff, order, a);
      var w := order[FirstMin(order, diff, true)];
      var n := order[FirstMin(order, diff, false)];
      Restored(adds, diff) == if adds == [] then 0.0 else if w != n && |adds| == 1 then a / 2.0 else a
  {
    ChosenRestore(diff, order[FirstMin(order, diff, true)], order[FirstMin(order, diff, false)], a);
  }

  lemma ChosenRestore(diff: map<RuleKey, Stat>, w: RuleKey, n: RuleKey, a: real)
    requires w in diff && n in diff
    ensures var adds := Chosen(diff, w, n, a);
      Restored(adds, diff) == if adds == [] then 0.0 else if w != n && |adds| == 1 then a / 2.0 else a
  {
    var dw := diff[w];
    if w != n {
      var first := WayPart(w, dw, a / 2.0);
      var second := NodePart(n, diff[n], a / 2.0);
      WayPartRestore(w, diff, a / 2.0);
      NodePartRestore(n, diff, a / 2.0);
      if first == [] {
        assert first + second == second;
      } else if second == [] {
        assert first + second == first;
      } else {
        RestoredTwo(first[0], second[0], diff);
        assert first + second == [first[0], second[0]];
      }
    } else if dw.0 < 0.0 && dw.1 < 0.0 {
      RestoredOne(w, (Amount(a / 2.0, dw.0), Amount(a / 2.0, dw.1)), diff);
      AmountBack(a / 2.0, dw.0);
      AmountBack(a / 2.0, dw.1);
    } else if dw.0 < 0.0 {
      WayPartRestore(w, diff, a);
    } else {
      NodePartRestore(w, diff, a);
    }
  }

  lemma WayPartRestore(k: RuleKey, diff: map<RuleKey, Stat>, x: real)
    requires k in diff
    ensures var r := WayPart(k, diff[k], x);
      |r| <= 1 && Restored(r, diff) == if r == [] then 0.0 else x
  {
    if diff[k].0 < 0.0 {
      RestoredOne(k, (Amount(x, diff[k].0), 0.0), diff);
      AmountBack(x, diff[k].0);
    }
  }

  lemma NodePartRestore(k: RuleKey, diff: map<RuleKey, Stat>, x: real)
    requires k in diff
    ensures var r := NodePart(k, diff[k], x);
      |r| <= 1 && Restored(r, diff) == if r == [] then 0.0 else x
  {
    if diff[k].1 < 0.0 {
      RestoredOne(k, (0.0, Amount(x, diff[k].1)), diff);
      AmountBack(x, diff[k].1);
    }
  }

  lemma RestoredTwo(x: (RuleKey, Weight), y: (RuleKey, Weight), diff: map<RuleKey, Stat>)
    requires x.0 in diff && y.0 in diff
    ensures Restored([x, y], diff) == Restored([x], diff) + Restored([y], diff)
  {
    assert [x, y][1..] == [y];
    assert [x][1..] == [];
  }

  lemma RestoredOne(k: RuleKey, wt: Weight, diff: map<RuleKey, Stat>)
    requires k in diff
    ensures Restored([(k, wt)], diff) == -(wt.0 * diff[k].0 + wt.1 * diff[k].1)
  {
    assert [(k, wt)][1..] == [];
  }

  /** Several `addRule` calls one after the other. */
  function WithRules(rules: map<RuleKey, Weight>, adds: seq<(RuleKey, Weight)>): map<RuleKey, Weight>
    requires forall e :: e in adds ==> e.0 != []
    decreases |adds|
  {
    if adds == [] then rules
    else
      assert forall e :: e in adds[1..] ==> e in adds;
      WithRules(WithRule(rules, adds[0].0, adds[0].1), adds[1..])
  }

  /**
   * Adding rules of "N"/"W" conjuncts with non-negative weights keeps a good
   * map good; every old key stays, every new key is an added key or one of
   * its " && "-prefixes, and each added key ends with the weight it was
   * added with.
   */
  lemma {:induction false} WithRulesGood(rules: map<RuleKey, Weight>, adds: seq<(RuleKey, Weight)>)
    requires GoodRules(rules)
    requires forall e :: e in adds ==> e.0 != [] && WellKindedKey(e.0) && e.1.0 >= 0.0 && e.1.1 >= 0.0
    requires forall i, j :: 0 <= i < j < |adds| ==> adds[i].0 != adds[j].0
    decreases |adds|
    ensures GoodRules(WithRules(rules, adds))
    ensures rules.Keys <= WithRules(rules, adds).Keys
    ensures forall j :: j in WithRules(rules, adds) && j !in rules ==>
              exists e :: e in adds && (j == e.0 || ProperPrefixKey(j, e.0))
    ensures forall e :: e in adds ==> e.0 in WithRules(rules, adds) && WithRules(rules, adds)[e.0] == e.1
  {
    if adds != [] {
      var head := adds[0];
      var r0 := WithRule(rules, head.0, head.1);
      WithRuleGood(rules, head.0, head.1);
      WithRuleSpec(rules, head.0, head.1);
      AddsTail(adds);
      WithRulesGood(r0, adds[1..]);
      WithRulesKeeps(r0, adds[1..], head.0);
      var r := WithRules(r0, adds[1..]);
      forall j | j in r && j !in rules
        ensures exists e :: e in adds && (j == e.0 || ProperPrefixKey(j, e.0))
      {
        if j in r0 {
          assert head in adds && (j == head.0 || ProperPrefixKey(j, head.0));
        } else {
          var e :| e in adds[1..] && (j == e.0 || ProperPrefixKey(j, e.0));
          assert e in adds;
        }
      }
    }
  }

  /** The rest of a list of distinct keys is distinct, and none of it has the first key. */
  lemma AddsTail(adds: seq<(RuleKey, Weight)>)
    requires adds != [] && forall i, j :: 0 <= i < j < |adds| ==> adds[i].0 != adds[j].0
    ensures forall e :: e in adds[1..] ==> e in adds && e.0 != adds[0].0
    ensures forall i, j :: 0 <= i < j < |adds| - 1 ==> adds[1..][i].0 != adds[1..][j].0
  {
    forall e | e in adds[1..] ensures e in adds && e.0 != adds[0].0 {
      var m :| 0 <= m < |adds| - 1 && adds[1..][m] == e;
      assert adds[m + 1] == e;
    }
    forall i, j | 0 <= i < j < |adds| - 1 ensures adds[1..][i].0 != adds[1..][j].0 {
      assert adds[1..][i] == adds[i + 1] && adds[1..][j] == adds[j + 1];
    }
  }

  /** Rules added later do not change the weight of a key that is present and none of them. */
  lemma {:induction false} WithRulesKeeps(rules: map<RuleKey, Weight>, adds: seq<(RuleKey, Weight)>, k: RuleKey)
    requires forall e :: e in adds ==> e.0 != []
    requires PrefixClosed(rules) && k in rules && forall e :: e in adds ==> e.0 != k
    decreases |adds|
    ensures k in WithRules(rules, adds) && WithRules(rules, adds)[k] == rules[k]
  {
    if adds != [] {
      WithRuleSpec(rules, adds[0].0, adds[0].1);
      assert forall e :: e in adds[1..] ==> e in adds;
      WithRulesKeeps(WithRule(rules, adds[0].0, adds[0].1), adds[1..], k);
    }
  }

  /** One more `addRule` after the others. */
  lemma {:induction false} WithRulesSnoc(rules: map<RuleKey, Weight>, adds: seq<(RuleKey, Weight)>, e: (RuleKey, Weight))
    requires e.0 != [] && forall x :: x in adds ==> x.0 != []
    decreases |adds|
    ensures WithRules(rules, adds + [e]) == WithRule(WithRules(rules, adds), e.0, e.1)
  {
    if adds == [] {
      assert [e][1..] == [];
    } else {
      assert (adds + [e])[1..] == adds[1..] + [e];
      assert forall x :: x in adds[1..] ==> x in adds;
      WithRulesSnoc(WithRule(rules, adds[0].0, adds[0].1), adds[1..], e);
    }
  }

  // ----- the update of a failing case -----

  /** `(oldFactor, newFactor)`: the shares of the error for the used rules and for new rules. */
  function Factors(norm2: real, notImprovedCount: nat): (real, real)
  {
    if norm2 <= 0.0 then (0.0, 1.0)
    else if notImprovedCount > 10 then (0.9, 0.1)
    else (1.0, 0.0)
  }

  datatype Learning = Learning(rules: map<RuleKey, Weight>, adds: seq<(RuleKey, Weight)>, newFactor: real)

  /** New rules for the share `newFactor` of the error `e`, when there is a share and a candidate. */
  ghost function Added(rules: map<RuleKey, Weight>, diff: map<RuleKey, Stat>, order: seq<RuleKey>, e: real, newFactor: real): Learning
    requires Lists(order, diff) && forall k :: k in diff ==> k != []
  {
    if newFactor > 0.0 && |order| > 0 then
      var adds := Additions(diff, order, e * newFactor);
      Learning(WithRules(rules, adds), adds, newFactor)
    else Learning(rules, [], newFactor)
  }

  /**
   * The correction of the used rules for a failing case with error `e`,
   * from their differences (`existing`, listed by `keys`, squared norm
   * `norm2`): with a positive norm the used rules absorb the old factor's
   * share, and what they cannot absorb once no used rule is left joins the
   * new factor. The rule map after it, and the new factor.
   */
  ghost function Corrected(rules: map<RuleKey, Weight>, notImprovedCount: nat,
                           existing: map<RuleKey, Stat>, keys: seq<RuleKey>, norm2: real, e: real): (map<RuleKey, Weight>, real)
    requires PassReady(rules, existing, keys, norm2) && e > 0.0
  {
    var factors := Factors(norm2, notImprovedCount);
    if norm2 > 0.0 then
      var r := Passes(rules, existing, keys, e, factors.0, norm2);
      (r.rules, if r.norm2 <= 0.0 && r.error > 0.0 then factors.1 + r.error / e else factors.1)
    else (rules, factors.1)
  }

  /**
   * The update of the rule map for a failing case with error `e`: the
   * correction of the used rules, then new rules from the candidates
   * (`diff`, listed by `order`) for the new factor's share.
   */
  ghost function Learned(rules: map<RuleKey, Weight>, notImprovedCount: nat,
                         existing: map<RuleKey, Stat>, keys: seq<RuleKey>, norm2: real,
                         diff: map<RuleKey, Stat>, order: seq<RuleKey>, e: real): Learning
    requires PassReady(rules, existing, keys, norm2) && Lists(order, diff) && e > 0.0
    requires forall k :: k in diff ==> k != []
  {
    var c := Corrected(rules, notImprovedCount, existing, keys, norm2, e);
    Added(c.0, diff, order, e, c.1)
  }

  /** Two entries with different keys, or fewer, have distinct keys. */
  lemma AtMostTwoDistinct(adds: seq<(RuleKey, Weight)>)
    requires |adds| <= 2 && (|adds| == 2 ==> adds[0].0 != adds[1].0)
    ensures forall i, j :: 0 <= i < j < |adds| ==> adds[i].0 != adds[j].0
  {
  }

  /**
   * Adding the chosen rules keeps a good map good; the map keeps every key
   * and gains only candidate rules and their prefixes, and each added rule
   * ends with its weight, some component of which is positive.
   */
  lemma AdditionsGood(rules: map<RuleKey, Weight>, diff: map<RuleKey, Stat>, order: seq<RuleKey>, a: real)
    requires GoodRules(rules) && Lists(order, diff) && |order| > 0 && a > 0.0
    requires forall k :: k in diff ==> k != [] && WellKindedKey(k)
    ensures var adds := Additions(diff, order, a);
      var r := WithRules(rules, adds);
      && GoodRules(r)
      && rules.Keys <= r.Keys
      && (forall j :: j in r && j !in rules ==> exists k :: k in diff && (j == k || ProperPrefixKey(j, k)))
      && (forall x :: x in adds ==> x.0 in diff && x.0 in r && r[x.0] == x.1 && (x.1.0 > 0.0 || x.1.1 > 0.0))
  {
    var adds := Additions(diff, order, a);
    AdditionsShape(diff, order, a);
    AtMostTwoDistinct(adds);
    WithRulesGood(rules, adds);
    var r := WithRules(rules, adds);
    forall j | j in r && j !in rules ensures exists k :: k in diff && (j == k || ProperPrefixKey(j, k)) {
      var x :| x in adds && (j == x.0 || ProperPrefixKey(j, x.0));
    }
  }

  /**
   * The update `l` grows the good map `rules` by candidate rules of `diff`:
   * the map stays good, keeps every key and gains only candidate rules and
   * their prefixes, each added rule with its weight, some component of
   * which is positive; without additions the keys stay the same.
   */
  ghost predicate Grown(rules: map<RuleKey, Weight>, diff: map<RuleKey, Stat>, l: Learning)
  {
    && GoodRules(l.rules)
    && rules.Keys <= l.rules.Keys
    && (forall j :: j in l.rules && j !in rules ==> exists k :: k in diff && (j == k || ProperPrefixKey(j, k)))
    && (l.adds == [] ==> l.rules.Keys == rules.Keys)
    && (forall x :: x in l.adds ==> x.0 in diff && x.0 in l.rules && l.rules[x.0] == x.1 && (x.1.0 > 0.0 || x.1.1 > 0.0))
  }

  /** Growing a map from one with the same keys is growing it. */
  lemma GrownSameKeys(rules: map<RuleKey, Weight>, rules': map<RuleKey, Weight>, diff: map<RuleKey, Stat>, l: Learning)
    requires Grown(rules', diff, l) && rules'.Keys == rules.Keys
    ensures Grown(rules, diff, l)
  {
    assert forall j :: j in rules' <==> j in rules;
  }

  /** What adding rules keeps and changes; without additions the map is unchanged. */
  lemma AddedFacts(rules: map<RuleKey, Weight>, diff: map<RuleKey, Stat>, order: seq<RuleKey>, e: real, newFactor: real)
    requires GoodRules(rules) && Lists(order, diff) && e > 0.0
    requires forall k :: k in diff ==> k != [] && WellKindedKey(k)
    ensures var l := Added(rules, diff, order, e, newFactor);
      && Grown(rules, diff, l)
      && (l.adds == [] ==> l.rules == rules)
      && l.newFactor == newFactor
  {
    if newFactor > 0.0 && |order| > 0 {
      MulPos(e, newFactor);
      AdditionsGood(rules, diff, order, e * newFactor);
    }
  }

  /**
   * The correction keeps the rule map good and its keys the same. Without
   * used rules to correct, the whole error goes to new rules; when the
   * learner is not stalling, new rules get a share exactly when the used
   * rules could not absorb the whole error, and then only what was left.
   */
  lemma CorrectedFacts(rules: map<RuleKey, Weight>, notImprovedCount: nat,
                       existing: map<RuleKey, Stat>, keys: seq<RuleKey>, norm2: real, e: real)
    requires GoodRules(rules) && PassReady(rules, existing, keys, norm2) && e > 0.0
    ensures var c := Corrected(rules, notImprovedCount, existing, keys, norm2, e);
      && GoodRules(c.0) && c.0.Keys == rules.Keys
      && (norm2 <= 0.0 ==> c == (rules, 1.0))
      && (norm2 > 0.0 && notImprovedCount <= 10 ==>
            var r := Passes(rules, existing, keys, e, 1.0, norm2);
            c.0 == r.rules && (c.1 > 0.0 <==> r.norm2 <= 0.0 && r.error > 0.0) &&
            (c.1 > 0.0 ==> c.1 == r.error / e))
  {
    var factors := Factors(norm2, notImprovedCount);
    if norm2 > 0.0 {
      var r := Passes(rules, existing, keys, e, factors.0, norm2);
      CompensateFacts(rules, existing, keys, e, factors.0, norm2);
      SameKeysGood(rules, r.rules);
      if r.error > 0.0 {
        DivPos(r.error, e);
      }
    }
  }

  /** The update of a failing case grows the rule map by candidate rules. */
  lemma LearnedFacts(rules: map<RuleKey, Weight>, notImprovedCount: nat,
                     existing: map<RuleKey, Stat>, keys: seq<RuleKey>, norm2: real,
                     diff: map<RuleKey, Stat>, order: seq<RuleKey>, e: real)
    requires GoodRules(rules) && PassReady(rules, existing, keys, norm2) && Lists(order, diff) && e > 0.0
    requires forall k :: k in diff ==> k != [] && WellKindedKey(k)
    ensures Grown(rules, diff, Learned(rules, notImprovedCount, existing, keys, norm2, diff, order, e))
  {
    var c := Corrected(rules, notImprovedCount, existing, keys, norm2, e);
    CorrectedFacts(rules, notImprovedCount, existing, keys, norm2, e);
    AddedFacts(c.0, diff, order, e, c.1);
    GrownSameKeys(rules, c.0, diff, Added(c.0, diff, order, e, c.1));
  }

  lemma DivPos(a: real, d: real)
    requires a > 0.0 && d > 0.0
    ensures a / d > 0.0
  {
  }

  /** The relative error of a case in percent, against the direct cost plus 0.0001. */
  function Relative(absoluteError: real, directCost: real): real
    requires directCost >= 0.0
  {
    absoluteError / (directCost + 0.0001) * 100.0
  }

  /** A failing case has a positive error: the relative error is at least the threshold only for a positive absolute error. */
  lemma FailingPositive(e: real, directCost: real)
    requires directCost >= 0.0 && Relative(e, directCost) >= 0.00000001
    ensures e > 0.0
  {
    if e <= 0.0 {
      DivNonPos(e, directCost + 0.0001);
      assert false;
    }
  }

  // ----- one used rule in one pass -----

  /**
   * The body of the inner loop of the compensation for one used rule with
   * weight `w` and difference `c`: both components shifted by their share
   * of the error, a component that would turn negative clamped at zero,
   * its difference retired from the norm and its overshoot carried into
   * the next pass.
   */
  method AdjustOne(w: Weight, c: Stat, ce: real, f: real, n2: real, nextNorm2: real, nextCE: real)
    returns (w': Weight, c': Stat, nextNorm2': real, nextCE': real)
    requires n2 != 0.0
    ensures w' == AdjustWeight(w, c, ce, f, n2) && c' == AdjustCount(w, c, ce, f, n2)
    ensures nextNorm2' == nextNorm2 - Removed(w, c, ce, f, n2)
    ensures nextCE' == nextCE + Lost(w, c, ce, f, n2)
  {
    var newLenWeight := w.0 - ce * f * c.0 / n2;
    var newPointWeight := w.1 - ce * f * c.1 / n2;
    c', nextNorm2', nextCE' := c, nextNorm2, nextCE;
    if newLenWeight < 0.0 {
      nextNorm2' := nextNorm2' - c.0 * c.0;
      c' := (0.0, c'.1);
      nextCE' := nextCE' + -newLenWeight * c.0;
      newLenWeight := 0.0;
    }
    if newPointWeight < 0.0 {
      nextNorm2' := nextNorm2' - c.1 * c.1;
      c' := (c'.0, 0.0);
      nextCE' := nextCE' + -newPointWeight * c.1;
      newPointWeight := 0.0;
    }
    w' := (newLenWeight, newPointWeight);
  }

  /** The rule map part way through a pass: the rules in `done` adjusted, the others as they were. */
  ghost function PartWeights(rules: map<RuleKey, Weight>, cur: map<RuleKey, Stat>, done: seq<RuleKey>, ce: real, f: real, n2: real): map<RuleKey, Weight>
    requires n2 != 0.0 && forall k :: k in done ==> k in cur
  {
    map k | k in rules :: if k in done then AdjustWeight(rules[k], cur[k], ce, f, n2) else rules[k]
  }

  /** The differences part way through a pass. */
  ghost function PartCounts(rules: map<RuleKey, Weight>, cur: map<RuleKey, Stat>, done: seq<RuleKey>, ce: real, f: real, n2: real): map<RuleKey, Stat>
    requires n2 != 0.0 && cur.Keys <= rules.Keys
  {
    map k | k in cur :: if k in done then AdjustCount(rules[k], cur[k], ce, f, n2) else cur[k]
  }

  /** The next listed key extends the keys visited so far; it is used and not visited yet. */
  lemma ListedSnoc(keys: seq<RuleKey>, cur: map<RuleKey, Stat>, i: nat)
    requires Lists(keys, cur) && i < |keys|
    ensures keys[..i + 1] == keys[..i] + [keys[i]]
    ensures keys[i] in cur && keys[i] !in keys[..i]
    ensures forall j :: j in keys[..i + 1] ==> j in cur
  {
    assert keys[..i + 1] == keys[..i] + [keys[i]];
  }

  /** Adjusting one more rule, not adjusted yet, extends the part of a pass by that rule. */
  lemma PartSnoc(rules: map<RuleKey, Weight>, cur: map<RuleKey, Stat>, done: seq<RuleKey>, k: RuleKey, ce: real, f: real, n2: real)
    requires n2 != 0.0 && cur.Keys <= rules.Keys && forall j :: j in done ==> j in cur
    requires k in cur && k !in done
    ensures var w := PartWeights(rules, cur, done, ce, f, n2);
      k in w && w[k] == rules[k] &&
      PartWeights(rules, cur, done + [k], ce, f, n2) == w[k := AdjustWeight(rules[k], cur[k], ce, f, n2)]
    ensures var c := PartCounts(rules, cur, done, ce, f, n2);
      k in c && c[k] == cur[k] &&
      PartCounts(rules, cur, done + [k], ce, f, n2) == c[k := AdjustCount(rules[k], cur[k], ce, f, n2)]
    ensures RemovedOver(rules, cur, done + [k], ce, f, n2) == RemovedOver(rules, cur, done, ce, f, n2) + Removed(rules[k], cur[k], ce, f, n2)
    ensures LostOver(rules, cur, done + [k], ce, f, n2) == LostOver(rules, cur, done, ce, f, n2) + Lost(rules[k], cur[k], ce, f, n2)
  {
    assert (done + [k])[..|done|] == done;
  }

  /** A pass over every used rule is the whole pass. */
  lemma PartWhole(rules: map<RuleKey, Weight>, cur: map<RuleKey, Stat>, keys: seq<RuleKey>, ce: real, f: real, n2: real)
    requires n2 != 0.0 && cur.Keys <= rules.Keys && Lists(keys, cur)
    ensures PartWeights(rules, cur, keys, ce, f, n2) == PassWeights(rules, cur, ce, f, n2)
    ensures PartCounts(rules, cur, keys, ce, f, n2) == PassCounts(rules, cur, ce, f, n2)
  {
  }

  /** Before the pass nothing is adjusted. */
  lemma PartNone(rules: map<RuleKey, Weight>, cur: map<RuleKey, Stat>, ce: real, f: real, n2: real)
    requires n2 != 0.0 && cur.Keys <= rules.Keys
    ensures PartWeights(rules, cur, [], ce, f, n2) == rules
    ensures PartCounts(rules, cur, [], ce, f, n2) == cur
  {
  }

  // ----- the trainer -----

  /** A training case: start and end node and the nodes the right route passes. */
  datatype Case = Case(start: int, end: int, via: seq<int>)

  /** The nodes of the waypoint route. */
  function Stops(cs: Case): (r: seq<int>)
    ensures |r| >= 2 && r[0] == cs.start && r[|r| - 1] == cs.end
  {
    [cs.start] + cs.via + [cs.end]
  }

  /** What a case comes to. */
  datatype Outcome =
    | Skipped
    | NoWay(id: int)
    | EmptyPath
    | Checked(directCost: real, learnCost: real, absoluteError: real, relativeError: real, passed: bool, added: bool)

  /** The first node without ways, where `route` fails to pick a start way, if any. */
  function FirstWithoutWays(g: Graph, ids: seq<int>): (r: Option<int>)
    requires forall i :: 0 <= i < |ids| ==> ids[i] in g.nodes
    ensures r.None? <==> forall i :: 0 <= i < |ids| ==> |g.nodes[ids[i]].ways| > 0
    ensures r.Some? ==> exists i :: 0 <= i < |ids| && ids[i] == r.value && |g.nodes[r.value].ways| == 0 &&
                          forall j :: 0 <= j < i ==> |g.nodes[ids[j]].ways| > 0
  {
    if ids == [] then None
    else if |g.nodes[ids[0]].ways| == 0 then Some(ids[0])
    else
      var r := FirstWithoutWays(g, ids[1..]);
      if r.None? then
        assert forall i :: 1 <= i < |ids| ==> ids[1..][i - 1] == ids[i];
        None
      else
        var i :| 0 <= i < |ids| - 1 && ids[1..][i] == r.value && |g.nodes[r.value].ways| == 0 &&
                 forall j :: 0 <= j < i ==> |g.nodes[ids[1..][j]].ways| > 0;
        assert forall j :: 1 <= j < i + 1 ==> ids[j] == ids[1..][j - 1];
        r
  }

  /** The `caseInMap` loop: whether every node of the waypoint route is on the map. */
  method InMap(g: Graph, ids: seq<int>) returns (caseInMap: bool)
    ensures caseInMap <==> forall i :: 0 <= i < |ids| ==> ids[i] in g.nodes
  {
    caseInMap := true;
    for i := 0 to |ids|
      invariant caseInMap <==> forall j :: 0 <= j < i ==> ids[j] in g.nodes
    {
      if ids[i] !in g.nodes {
        caseInMap := false;
      }
    }
  }

  /** The candidate rules of a path and their statistics, depth 3 as the trainer asks. */
  ghost function TagsOf(g: Graph, path: seq<Step>, orders: seq<seq<Conjunct>>): map<RuleKey, Stat>
    requires StoredPath(g, path) && NodeOrders(g, path, orders)
  {
    Tallied(TagSteps(g, path, 3, orders, |path|))
  }

  /** The rules a path used under the tree `t`, and their statistics. */
  ghost function UsedOf(g: Graph, override: bool, t: Tree, path: seq<Step>): map<RuleKey, Stat>
    requires StoredPath(g, path)
  {
    Tallied(UsedSteps(g, override, t, path, |path|))
  }

  /**
   * What the trainer computes from a failing case: the order of the rules
   * in the tree, the new-rule differences (`diff`, listed by `order`), the
   * used-rule differences (`existing`, listed by `keys`, squared norm
   * `norm2`), and the tag orders of the two paths.
   */
  datatype CaseDiff = CaseDiff(treeOrder: seq<RuleKey>, diff: map<RuleKey, Stat>, order: seq<RuleKey>,
                               existing: map<RuleKey, Stat>, keys: seq<RuleKey>, norm2: real,
                               directOrders: seq<seq<Conjunct>>, learnOrders: seq<seq<Conjunct>>)

  /**
   * `d` is what the two difference loops give for the two paths under the
   * tree `t` of `rules`: the candidates of the paths that are not rules yet
   * and whose statistics differ, and the used rules whose statistics
   * differ, each with its difference.
   */
  ghost predicate CaseDiffs(g: Graph, override: bool, rules: map<RuleKey, Weight>, t: Tree,
                            directPath: seq<Step>, learnPath: seq<Step>, d: CaseDiff)
  {
    && (forall k :: k in d.treeOrder <==> k in rules) && (forall p :: Get(t, p) == ExpectedIn(rules, d.treeOrder, p))
    && StoredPath(g, directPath) && StoredPath(g, learnPath)
    && NodeOrders(g, directPath, d.directOrders) && NodeOrders(g, learnPath, d.learnOrders)
    && Lists(d.order, d.diff)
    && (forall k {:trigger k in d.diff} :: k in d.diff ==>
          (k in TagsOf(g, learnPath, d.learnOrders) || k in TagsOf(g, directPath, d.directOrders)) && k !in rules &&
          Difference(TagsOf(g, learnPath, d.learnOrders), TagsOf(g, directPath, d.directOrders), k) != (0.0, 0.0))
    && (forall k {:trigger k in TagsOf(g, learnPath, d.learnOrders)} {:trigger k in TagsOf(g, directPath, d.directOrders)} ::
          (k in TagsOf(g, learnPath, d.learnOrders) || k in TagsOf(g, directPath, d.directOrders)) && k !in rules &&
          Difference(TagsOf(g, learnPath, d.learnOrders), TagsOf(g, directPath, d.directOrders), k) != (0.0, 0.0) ==>
          k in d.diff)
    && (forall k {:trigger k in d.diff} :: k in d.diff ==>
          d.diff[k] == Difference(TagsOf(g, learnPath, d.learnOrders), TagsOf(g, directPath, d.directOrders), k) &&
          k != [] && WellKindedKey(k) && |k| <= 4)
    && PassReady(rules, d.existing, d.keys, d.norm2)
    && (forall k {:trigger k in d.existing} :: k in d.existing ==>
          (k in UsedOf(g, override, t, learnPath) || k in UsedOf(g, override, t, directPath)) &&
          Difference(UsedOf(g, override, t, learnPath), UsedOf(g, override, t, directPath), k) != (0.0, 0.0))
    && (forall k {:trigger k in UsedOf(g, override, t, learnPath)} {:trigger k in UsedOf(g, override, t, directPath)} ::
          (k in UsedOf(g, override, t, learnPath) || k in UsedOf(g, override, t, directPath)) &&
          Difference(UsedOf(g, override, t, learnPath), UsedOf(g, override, t, directPath), k) != (0.0, 0.0) ==>
          k in d.existing)
    && (forall k {:trigger k in d.existing} :: k in d.existing ==>
          d.existing[k] == Difference(UsedOf(g, override, t, learnPath), UsedOf(g, override, t, directPath), k))
  }

  /** The two directions of each membership, as the difference loops state them, make up `CaseDiffs`. */
  lemma CaseDiffsIntro(g: Graph, override: bool, rules: map<RuleKey, Weight>, t: Tree,
                       directPath: seq<Step>, learnPath: seq<Step>, d: CaseDiff)
    requires (forall k :: k in d.treeOrder <==> k in rules) && (forall p :: Get(t, p) == ExpectedIn(rules, d.treeOrder, p))
    requires StoredPath(g, directPath) && StoredPath(g, learnPath)
    requires NodeOrders(g, directPath, d.directOrders) && NodeOrders(g, learnPath, d.learnOrders)
    requires Lists(d.order, d.diff)
    requires forall k :: k in d.diff <==>
               (k in TagsOf(g, learnPath, d.learnOrders) || k in TagsOf(g, directPath, d.directOrders)) && k !in rules &&
               Difference(TagsOf(g, learnPath, d.learnOrders), TagsOf(g, directPath, d.directOrders), k) != (0.0, 0.0)
    requires forall k :: k in d.diff ==>
               d.diff[k] == Difference(TagsOf(g, learnPath, d.learnOrders), TagsOf(g, directPath, d.directOrders), k) &&
               k != [] && WellKindedKey(k) && |k| <= 4
    requires PassReady(rules, d.existing, d.keys, d.norm2)
    requires forall k :: k in d.existing <==>
               (k in UsedOf(g, override, t, learnPath) || k in UsedOf(g, override, t, directPath)) &&
               Difference(UsedOf(g, override, t, learnPath), UsedOf(g, override, t, directPath), k) != (0.0, 0.0)
    requires forall k :: k in d.existing ==>
               d.existing[k] == Difference(UsedOf(g, override, t, learnPath), UsedOf(g, override, t, directPath), k)
    ensures CaseDiffs(g, override, rules, t, directPath, learnPath, d)
  {
  }

  /**
   * The learning step of a failing case with error `e` took the rule map
   * `rules`, with counter `count`, to `rules'`: `d` is what the difference
   * loops give for the two paths, `rules'` is what `Learned` makes of it,
   * and `added` says whether new rules came in.
   */
  ghost predicate LearntFrom(g: Graph, override: bool, rules: map<RuleKey, Weight>, count: nat, t: Tree,
                             directPath: seq<Step>, learnPath: seq<Step>, d: CaseDiff, e: real,
                             rules': map<RuleKey, Weight>, added: bool)
  {
    && CaseDiffs(g, override, rules, t, directPath, learnPath, d)
    && e > 0.0
    && rules' == Learned(rules, count, d.existing, d.keys, d.norm2, d.diff, d.order, e).rules
    && (added <==> Learned(rules, count, d.existing, d.keys, d.norm2, d.diff, d.order, e).adds != [])
  }

  /** The error a failing case learns from: the trainer raises it by a millionth. */
  function Inflated(absoluteError: real): (r: real)
    ensures absoluteError > 0.0 ==> r > absoluteError
  {
    absoluteError * 1.000001
  }

  /**
   * The ghost record of how one case ran: the listing `order` of the rules
   * and the tree built from it, the direct search and the waypoint
   * searches, and the difference dictionaries of a failing case.
   */
  datatype CaseRun = CaseRun(order: seq<RuleKey>, tree: Tree, directLegs: seq<RouteResult>, learnLegs: seq<RouteResult>, d: CaseDiff)

  /** `t` is the tree `rulesToDictTuple` builds from `rules` when it iterates them in the order `order`. */
  ghost predicate BuiltFrom(t: Tree, rules: map<RuleKey, Weight>, order: seq<RuleKey>)
  {
    (forall k :: k in order <==> k in rules) && forall p :: Get(t, p) == ExpectedIn(rules, order, p)
  }

  /**
   * The two `multiRoute` calls of case `cs` under the costing `c`: one
   * search for the direct route and one per leg of the waypoint route,
   * under a tree of non-negative weights.
   */
  ghost predicate CaseRouted(g: Graph, c: Costing, cs: Case, directLegs: seq<RouteResult>, learnLegs: seq<RouteResult>)
  {
    && NonNegativeTree(c.rules)
    && |directLegs| == 1 && |learnLegs| == |Stops(cs)| - 1
    && RouteSpec(g, c, cs.start, cs.end, directLegs[0])
    && (forall i :: 0 <= i < |learnLegs| ==> RouteSpec(g, c, Stops(cs)[i], Stops(cs)[i + 1], learnLegs[i]))
    && SumCosts(directLegs) >= 0.0 && SumCosts(learnLegs) >= 0.0
  }

  /** The costs, the errors and the verdict of a checked case come from the costs of its searches. */
  ghost predicate CaseVerdict(directLegs: seq<RouteResult>, learnLegs: seq<RouteResult>, o: Outcome)
  {
    && o.Checked?
    && o.directCost == SumCosts(directLegs) && o.learnCost == SumCosts(learnLegs)
    && o.directCost >= 0.0 && o.learnCost >= 0.0
    && o.absoluteError == o.learnCost - o.directCost
    && o.relativeError == Relative(o.absoluteError, o.directCost)
    && (o.passed <==> o.relativeError < 0.00000001)
    && (!o.passed ==> o.absoluteError > 0.0)
    && (o.passed ==> !o.added)
  }

  /** The sum of the relative errors of the checked outcomes. */
  function SumRelative(os: seq<Outcome>): real
  {
    if os == [] then 0.0
    else SumRelative(os[..|os| - 1]) + (if os[|os| - 1].Checked? then os[|os| - 1].relativeError else 0.0)
  }

  /** The sum of the absolute errors of the checked outcomes. */
  function SumAbsolute(os: seq<Outcome>): real
  {
    if os == [] then 0.0
    else SumAbsolute(os[..|os| - 1]) + (if os[|os| - 1].Checked? then os[|os| - 1].absoluteError else 0.0)
  }

  /** Some outcome is a checked case that failed. */
  ghost predicate SomeFailed(os: seq<Outcome>)
  {
    exists i :: 0 <= i < |os| && os[i].Checked? && !os[i].passed
  }

  /** Some outcome is a checked case that added rules. */
  ghost predicate SomeAdded(os: seq<Outcome>)
  {
    exists i :: 0 <= i < |os| && os[i].Checked? && os[i].added
  }

  /** The running totals of an iteration and its failure flag after the outcomes `os`. */
  ghost predicate Totals(os: seq<Outcome>, relative: real, absolute: real, someFail: bool)
  {
    relative == SumRelative(os) && absolute == SumAbsolute(os) && (someFail <==> SomeFailed(os))
  }

  /**
   * What case `cs` came to, as `RunCase` reports it, when it started with
   * the rule map `rules` and the counter `count` and left `rules'` and
   * `count'`. It is skipped exactly when a stop is off the map, and
   * otherwise is `NoWay` exactly at the first waypoint without ways.
   * A checked case, and the `EmptyPath` crash, routed the case under the
   * tree of `rules`; the crash comes from a failing case with an empty
   * path, and a failing case with a non-empty path on both sides is
   * checked. Only a failing case learns, as `LearntFrom` describes.
   */
  ghost predicate CaseRan(g: Graph, override: bool, dist: (Node, Node) -> real, cs: Case,
                          rules: map<RuleKey, Weight>, count: nat, o: Outcome, r: CaseRun,
                          rules': map<RuleKey, Weight>, count': nat)
  {
    && (o.Skipped? <==> exists i :: 0 <= i < |Stops(cs)| && Stops(cs)[i] !in g.nodes)
    && (!o.Skipped? ==>
          && (o.NoWay? <==> FirstWithoutWays(g, Stops(cs)[..|Stops(cs)| - 1]).Some?)
          && (o.NoWay? ==> o.id == FirstWithoutWays(g, Stops(cs)[..|Stops(cs)| - 1]).value))
    && (o.Checked? || o.EmptyPath? ==>
          BuiltFrom(r.tree, rules, r.order) && CaseRouted(g, Costing(override, r.tree, dist), cs, r.directLegs, r.learnLegs))
    && (o.Checked? ==> CaseVerdict(r.directLegs, r.learnLegs, o))
    && (o.EmptyPath? ==>
          && SumCosts(r.directLegs) >= 0.0
          && Relative(SumCosts(r.learnLegs) - SumCosts(r.directLegs), SumCosts(r.directLegs)) >= 0.00000001
          && (|ConcatPaths(r.directLegs)| == 0 || |ConcatPaths(r.learnLegs)| == 0))
    && (o.Checked? && !o.passed ==>
          && |ConcatPaths(r.directLegs)| > 0 && |ConcatPaths(r.learnLegs)| > 0
          && LearntFrom(g, override, rules, count, r.tree, ConcatPaths(r.directLegs), ConcatPaths(r.learnLegs), r.d,
                        Inflated(o.absoluteError), rules', o.added)
          && count' == if o.added then 0 else count)
    && (!(o.Checked? && !o.passed) ==> rules' == rules && count' == count)
  }

  /**
   * The cases so far ran one after the other: case `cases[i]` started with
   * the rule map `maps[i]` and the counter `counts[i]`, came to `os[i]`,
   * and left `maps[i + 1]` and `counts[i + 1]`.
   */
  ghost predicate AllRan(g: Graph, override: bool, dist: (Node, Node) -> real, cases: seq<Case>, os: seq<Outcome>,
                         runs: seq<CaseRun>, maps: seq<map<RuleKey, Weight>>, counts: seq<nat>)
  {
    && |os| <= |cases| && |runs| == |os| && |maps| == |os| + 1 && |counts| == |os| + 1
    && RanThrough(g, override, dist, cases, os, runs, maps, counts, |os|)
  }

  /** The first `n` cases ran one after the other. */
  ghost predicate RanThrough(g: Graph, override: bool, dist: (Node, Node) -> real, cases: seq<Case>, os: seq<Outcome>,
                             runs: seq<CaseRun>, maps: seq<map<RuleKey, Weight>>, counts: seq<nat>, n: nat)
    decreases n, 1
  {
    n == 0 || RanAt(g, override, dist, cases, os, runs, maps, counts, n - 1)
  }

  /** The cases before case `i` ran, and case `i` ran from the state they left. */
  ghost predicate RanAt(g: Graph, override: bool, dist: (Node, Node) -> real, cases: seq<Case>, os: seq<Outcome>,
                        runs: seq<CaseRun>, maps: seq<map<RuleKey, Weight>>, counts: seq<nat>, i: nat)
    decreases i + 1, 0
  {
    && i < |os| && i < |cases| && i < |runs| && i + 1 < |maps| && i + 1 < |counts|
    && RanThrough(g, override, dist, cases, os, runs, maps, counts, i)
    && CaseRan(g, override, dist, cases[i], maps[i], counts[i], os[i], runs[i], maps[i + 1], counts[i + 1])
  }

  /** Each outcome is what its own case came to, from the state the case before left. */
  lemma {:induction false} AllRanAt(g: Graph, override: bool, dist: (Node, Node) -> real, cases: seq<Case>, os: seq<Outcome>,
                                    runs: seq<CaseRun>, maps: seq<map<RuleKey, Weight>>, counts: seq<nat>, i: nat)
    requires AllRan(g, override, dist, cases, os, runs, maps, counts) && i < |os|
    ensures i < |cases| && CaseRan(g, override, dist, cases[i], maps[i], counts[i], os[i], runs[i], maps[i + 1], counts[i + 1])
  {
    RanThroughAt(g, override, dist, cases, os, runs, maps, counts, |os|, i);
  }

  lemma {:induction false} RanThroughAt(g: Graph, override: bool, dist: (Node, Node) -> real, cases: seq<Case>, os: seq<Outcome>,
                                        runs: seq<CaseRun>, maps: seq<map<RuleKey, Weight>>, counts: seq<nat>, n: nat, i: nat)
    requires RanThrough(g, override, dist, cases, os, runs, maps, counts, n) && i < n
    ensures RanAt(g, override, dist, cases, os, runs, maps, counts, i)
    decreases n
  {
    assert RanAt(g, override, dist, cases, os, runs, maps, counts, n - 1);
    if i < n - 1 {
      RanThroughAt(g, override, dist, cases, os, runs, maps, counts, n - 1, i);
    }
  }

  /** Running one more case leaves the record of the cases before it as it was. */
  lemma {:induction false} RanThroughSnoc(g: Graph, override: bool, dist: (Node, Node) -> real, cases: seq<Case>, os: seq<Outcome>,
                                          runs: seq<CaseRun>, maps: seq<map<RuleKey, Weight>>, counts: seq<nat>,
                                          o: Outcome, r: CaseRun, rules': map<RuleKey, Weight>, count': nat, n: nat)
    requires |runs| == |os| && |maps| == |os| + 1 && |counts| == |os| + 1 && n <= |os|
    requires RanThrough(g, override, dist, cases, os, runs, maps, counts, n)
    ensures RanThrough(g, override, dist, cases, os + [o], runs + [r], maps + [rules'], counts + [count'], n)
    decreases n
  {
    if n > 0 {
      var i := n - 1;
      assert RanAt(g, override, dist, cases, os, runs, maps, counts, i);
      RanThroughSnoc(g, override, dist, cases, os, runs, maps, counts, o, r, rules', count', i);
      assert (os + [o])[i] == os[i] && (runs + [r])[i] == runs[i];
      assert (maps + [rules'])[i] == maps[i] && (maps + [rules'])[i + 1] == maps[i + 1];
      assert (counts + [count'])[i] == counts[i] && (counts + [count'])[i + 1] == counts[i + 1];
      assert RanAt(g, override, dist, cases, os + [o], runs + [r], maps + [rules'], counts + [count'], i);
    }
  }

  /** One more case run, from the state the last one left. */
  lemma AllRanSnoc(g: Graph, override: bool, dist: (Node, Node) -> real, cases: seq<Case>, os: seq<Outcome>,
                   runs: seq<CaseRun>, maps: seq<map<RuleKey, Weight>>, counts: seq<nat>,
                   o: Outcome, r: CaseRun, rules': map<RuleKey, Weight>, count': nat)
    requires AllRan(g, override, dist, cases, os, runs, maps, counts) && |os| < |cases|
    requires CaseRan(g, override, dist, cases[|os|], maps[|os|], counts[|os|], o, r, rules', count')
    ensures AllRan(g, override, dist, cases, os + [o], runs + [r], maps + [rules'], counts + [count'])
  {
    RanThroughSnoc(g, override, dist, cases, os, runs, maps, counts, o, r, rules', count', |os|);
    assert RanAt(g, override, dist, cases, os + [o], runs + [r], maps + [rules'], counts + [count'], |os|);
  }
  /** A case on the map with ways at every waypoint, routed on the tree of the rules it met. */
  lemma RoutedRan(g: Graph, override: bool, dist: (Node, Node) -> real, cs: Case, rules: map<RuleKey, Weight>,
                  count: nat, o: Outcome, r: CaseRun, rules': map<RuleKey, Weight>, count': nat)
    requires forall i :: 0 <= i < |Stops(cs)| ==> Stops(cs)[i] in g.nodes
    requires FirstWithoutWays(g, Stops(cs)[..|Stops(cs)| - 1]).None?
    requires o.Checked? || o.EmptyPath?
    requires BuiltFrom(r.tree, rules, r.order) && CaseRouted(g, Costing(override, r.tree, dist), cs, r.directLegs, r.learnLegs)
    requires o.Checked? ==> CaseVerdict(r.directLegs, r.learnLegs, o)
    requires o.EmptyPath? ==>
               && Relative(SumCosts(r.learnLegs) - SumCosts(r.directLegs), SumCosts(r.directLegs)) >= 0.00000001
               && (|ConcatPaths(r.directLegs)| == 0 || |ConcatPaths(r.learnLegs)| == 0)
    requires o.Checked? && !o.passed ==>
               && |ConcatPaths(r.directLegs)| > 0 && |ConcatPaths(r.learnLegs)| > 0
               && LearntFrom(g, override, rules, count, r.tree, ConcatPaths(r.directLegs), ConcatPaths(r.learnLegs), r.d,
                             Inflated(o.absoluteError), rules', o.added)
               && count' == if o.added then 0 else count
    requires !(o.Checked? && !o.passed) ==> rules' == rules && count' == count
    ensures CaseRan(g, override, dist, cs, rules, count, o, r, rules', count')
  {
  }

  /** No outcome is one of the trainer's crashes. */
  ghost predicate NoCrash(os: seq<Outcome>)
  {
    forall i :: 0 <= i < |os| ==> !os[i].NoWay? && !os[i].EmptyPath?
  }

  /** The totals after one more outcome. */
  lemma TotalsSnoc(os: seq<Outcome>, o: Outcome, relative: real, absolute: real, someFail: bool)
    requires Totals(os, relative, absolute, someFail)
    ensures Totals(os + [o], relative + (if o.Checked? then o.relativeError else 0.0),
                   absolute + (if o.Checked? then o.absoluteError else 0.0), someFail || (o.Checked? && !o.passed))
    ensures SomeAdded(os + [o]) <==> SomeAdded(os) || (o.Checked? && o.added)
    ensures (os + [o])[..|os|] == os && (os + [o])[|os|] == o
    ensures NoCrash(os) && !o.NoWay? && !o.EmptyPath? ==> NoCrash(os + [o])
  {
    OutcomesSnoc(os, o);
    assert (os + [o])[..|os|] == os;
  }

  /** One more outcome adds its errors to the sums and counts in the two tests. */
  lemma OutcomesSnoc(os: seq<Outcome>, o: Outcome)
    ensures SumRelative(os + [o]) == SumRelative(os) + (if o.Checked? then o.relativeError else 0.0)
    ensures SumAbsolute(os + [o]) == SumAbsolute(os) + (if o.Checked? then o.absoluteError else 0.0)
    ensures SomeFailed(os + [o]) <==> SomeFailed(os) || (o.Checked? && !o.passed)
    ensures SomeAdded(os + [o]) <==> SomeAdded(os) || (o.Checked? && o.added)
  {
    var os' := os + [o];
    assert os'[..|os|] == os && os'[|os|] == o;
    if SomeFailed(os) {
      var i :| 0 <= i < |os| && os[i].Checked? && !os[i].passed;
      assert os'[i] == os[i];
    }
    if SomeAdded(os) {
      var i :| 0 <= i < |os| && os[i].Checked? && os[i].added;
      assert os'[i] == os[i];
    }
    if SomeFailed(os') && !(o.Checked? && !o.passed) {
      var i :| 0 <= i < |os'| && os'[i].Checked? && !os'[i].passed;
      assert i < |os| && os[i] == os'[i];
    }
    if SomeAdded(os') && !(o.Checked? && o.added) {
      var i :| 0 <= i < |os'| && os'[i].Checked? && os'[i].added;
      assert i < |os| && os[i] == os'[i];
    }
  }

  /**
   * The state of the training loop over one map: the rules learnt so far
   * and the counters that decide when the loop stops.
   */
  class Training {
    const g: Graph
    const override: bool
    const dist: (Node, Node) -> real
    var currentRules: map<RuleKey, Weight>
    var notImprovedCount: nat
    var bestRelativeError: real
    var bestAbsoluteError: real

    /** The map is consistent, distances are not negative, and the rules are good. */
    ghost predicate Valid()
      reads this
    {
      GraphOk(g) && (forall x, y :: 0.0 <= dist(x, y)) && GoodRules(currentRules)
    }

    constructor (g: Graph, override: bool, dist: (Node, Node) -> real)
      requires GraphOk(g) && forall x, y :: 0.0 <= dist(x, y)
      ensures Valid()
      ensures this.g == g && this.override == override && this.dist == dist
      ensures currentRules == map[] && notImprovedCount == 1
      ensures bestRelativeError == 100000000000000000000.0 && bestAbsoluteError == 100000000000000000000.0
    {
      this.g := g;
      this.override := override;
      this.dist := dist;
      currentRules := map[];
      notImprovedCount := 1;
      bestRelativeError := 100000000000000000000.0;
      bestAbsoluteError := 100000000000000000000.0;
    }

    /** `addRule`: set the rule, then add the missing parents with weight (0,0). */
    method AddRule(rule: RuleKey, points: Weight)
      requires rule != []
      modifies this
      decreases |rule|
      ensures currentRules == WithRule(old(currentRules), rule, points)
      ensures notImprovedCount == old(notImprovedCount)
      ensures bestRelativeError == old(bestRelativeError) && bestAbsoluteError == old(bestAbsoluteError)
    {
      currentRules := currentRules[rule := points];
      var parent := rule[..|rule| - 1];
      if |rule| > 1 && parent !in currentRules {
        AddRule(parent, Zero);
      }
    }

    /**
     * The differences of a failing case: the candidate rules of the two
     * paths that are not rules yet and whose statistics differ (`diff`,
     * listed by `order`), and the used rules whose statistics differ
     * (`existing`, listed by `keys`, with the squared norm `norm2`). A used
     * rule is always a rule, so the trainer's exit for a used rule missing
     * from the map is never taken.
     */
    method CaseDifferences(t: Tree, ghost treeOrder: seq<RuleKey>, directPath: seq<Step>, learnPath: seq<Step>)
      returns (diff: map<RuleKey, Stat>, order: seq<RuleKey>, existing: map<RuleKey, Stat>, keys: seq<RuleKey>, norm2: real,
               ghost directOrders: seq<seq<Conjunct>>, ghost learnOrders: seq<seq<Conjunct>>)
      requires Valid()
      requires (forall k :: k in treeOrder <==> k in currentRules) && forall p :: Get(t, p) == ExpectedIn(currentRules, treeOrder, p)
      requires |directPath| > 0 && |learnPath| > 0 && StoredPath(g, directPath) && StoredPath(g, learnPath)
      ensures CaseDiffs(g, override, currentRules, t, directPath, learnPath,
                        CaseDiff(treeOrder, diff, order, existing, keys, norm2, directOrders, learnOrders))
    {
      var directTags, learnTags;
      directTags, directOrders := TagsFromPath(g, directPath, 3);
      learnTags, learnOrders := TagsFromPath(g, learnPath, 3);
      var directUsedTags := UsedTagsFromPath(g, override, t, directPath);
      var learnUsedTags := UsedTagsFromPath(g, override, t, learnPath);
      UsedKeysAreRules(g, override, currentRules, treeOrder, t, directPath);
      UsedKeysAreRules(g, override, currentRules, treeOrder, t, learnPath);
      diff, order := NewRuleDifferences(learnTags, directTags, currentRules);
      existing, keys, norm2 := UsedDifferences(learnUsedTags, directUsedTags, currentRules);
      forall k | k in diff ensures k != [] && WellKindedKey(k) && |k| <= 4 {
        if k in learnTags {
          CandidateShape(g, learnPath, 3, learnOrders, k);
        } else {
          CandidateShape(g, directPath, 3, directOrders, k);
        }
      }
      CaseDiffsIntro(g, override, currentRules, t, directPath, learnPath,
                     CaseDiff(treeOrder, diff, order, existing, keys, norm2, directOrders, learnOrders));
    }

    /**
     * The correction of the used rules for a failing case with error
     * `absoluteError`: the shares of the used rules and of new rules, the
     * compensation loop when there are used rules to correct, and what it
     * could not place added to the new rules' share.
     */
    method Correct(existing: map<RuleKey, Stat>, keys: seq<RuleKey>, norm2: real, absoluteError: real) returns (newFactor: real)
      requires Valid() && PassReady(currentRules, existing, keys, norm2) && absoluteError > 0.0
      modifies this
      ensures Valid()
      ensures (currentRules, newFactor) == Corrected(old(currentRules), old(notImprovedCount), existing, keys, norm2, absoluteError)
      ensures notImprovedCount == old(notImprovedCount)
      ensures bestRelativeError == old(bestRelativeError) && bestAbsoluteError == old(bestAbsoluteError)
    {
      var oldFactor := 0.0;
      newFactor := 1.0;
      if norm2 > 0.0 {
        if notImprovedCount > 10 {
          oldFactor, newFactor := 0.9, 0.1;
        } else {
          oldFactor, newFactor := 1.0, 0.0;
        }
        var compensateError, n2 := CompensateUsed(existing, keys, absoluteError, oldFactor, norm2);
        if n2 <= 0.0 && compensateError > 0.0 {
          newFactor := newFactor + compensateError / absoluteError;
        }
      }
    }

    /**
     * The update of a failing case with error `absoluteError`: shift the
     * used rules by the old factor's share of the error, move what they
     * could not absorb to the new factor, and add new rules for the new
     * factor's share. It leaves the state `Learned` describes.
     */
    method Learn(existing: map<RuleKey, Stat>, keys: seq<RuleKey>, norm2: real,
                 diff: map<RuleKey, Stat>, order: seq<RuleKey>, absoluteError: real) returns (added: bool)
      requires Valid() && PassReady(currentRules, existing, keys, norm2) && Lists(order, diff) && absoluteError > 0.0
      requires forall k :: k in diff ==> k != [] && WellKindedKey(k)
      modifies this
      ensures Valid()
      ensures var l := Learned(old(currentRules), old(notImprovedCount), existing, keys, norm2, diff, order, absoluteError);
        currentRules == l.rules && (added <==> l.adds != [])
      ensures notImprovedCount == if added then 0 else old(notImprovedCount)
      ensures bestRelativeError == old(bestRelativeError) && bestAbsoluteError == old(bestAbsoluteError)
    {
      var newFactor := Correct(existing, keys, norm2, absoluteError);
      added := false;
      if newFactor > 0.0 {
        MulPos(absoluteError, newFactor);
        added := AddNewRules(diff, order, absoluteError * newFactor);
      }
    }

    /**
     * The two routes of a case on the map, under the tree `rulesToDictTuple`
     * builds from the current rules: the direct one and the one through the
     * waypoints, leg by leg. With non-negative rules neither meets a
     * negative weight.
     */
    method Routes(cs: Case)
      returns (treeOrder: seq<RuleKey>, dictTuple: Tree, direct: RouteResult, learn: RouteResult,
               ghost directLegs: seq<RouteResult>, ghost learnLegs: seq<RouteResult>)
      requires Valid()
      requires forall i :: 0 <= i < |Stops(cs)| ==> Stops(cs)[i] in g.nodes
      requires FirstWithoutWays(g, Stops(cs)[..|Stops(cs)| - 1]).None?
      ensures (forall k :: k in treeOrder <==> k in currentRules) && forall p :: Get(dictTuple, p) == ExpectedIn(currentRules, treeOrder, p)
      ensures NonNegativeTree(dictTuple)
      ensures direct.Ok? && learn.Ok?
      ensures |directLegs| == 1 && |learnLegs| == |Stops(cs)| - 1
      ensures RouteSpec(g, Costing(override, dictTuple, dist), cs.start, cs.end, directLegs[0])
      ensures forall i :: 0 <= i < |learnLegs| ==>
                RouteSpec(g, Costing(override, dictTuple, dist), Stops(cs)[i], Stops(cs)[i + 1], learnLegs[i])
      ensures direct.cost == SumCosts(directLegs) && learn.cost == SumCosts(learnLegs)
      ensures direct.cost >= 0.0 && learn.cost >= 0.0
      ensures StoredPath(g, direct.path) && StoredPath(g, learn.path)
      ensures direct.path == ConcatPaths(directLegs) && learn.path == ConcatPaths(learnLegs)
    {
      var directRoute := [cs.start, cs.end];
      var learnRoute := Stops(cs);
      assert |g.nodes[learnRoute[..|learnRoute| - 1][0]].ways| > 0;
      treeOrder := ListOf(currentRules.Keys);
      dictTuple := RulesToTree(currentRules, treeOrder);
      BuiltTreeNonNegative(currentRules, treeOrder, dictTuple);
      var c := Costing(override, dictTuple, dist);
      direct, directLegs := MultiRoute(g, c, directRoute);
      assert directRoute[0] == cs.start && directRoute[1] == cs.end;
      assert StoredPath(g, direct.path) && direct.cost >= 0.0 by {
        LegsGood(g, c, directRoute, directLegs);
      }
      learn, learnLegs := MultiRoute(g, c, learnRoute);
      assert StoredPath(g, learn.path) && learn.cost >= 0.0 by {
        LegsGood(g, c, learnRoute, learnLegs);
      }
    }

    /**
     * The learning step of a failing case with error `absoluteError`: the
     * differences of the two paths (`d`), then the update `Learned`
     * describes. The rule map keeps its keys unless rules are added, and
     * gains only rules of at most four conjuncts.
     */
    method LearnFrom(dictTuple: Tree, treeOrder: seq<RuleKey>, directPath: seq<Step>, learnPath: seq<Step>, absoluteError: real)
      returns (added: bool, ghost d: CaseDiff)
      requires Valid() && absoluteError > 0.0
      requires (forall k :: k in treeOrder <==> k in currentRules) && forall p :: Get(dictTuple, p) == ExpectedIn(currentRules, treeOrder, p)
      requires |directPath| > 0 && |learnPath| > 0 && StoredPath(g, directPath) && StoredPath(g, learnPath)
      modifies this
      ensures Valid()
      ensures d.treeOrder == treeOrder
      ensures LearntFrom(g, override, old(currentRules), old(notImprovedCount), dictTuple, directPath, learnPath, d,
                         absoluteError, currentRules, added)
      ensures old(currentRules).Keys <= currentRules.Keys
      ensures forall k :: k in currentRules && k !in old(currentRules) ==> |k| <= 4
      ensures !added ==> currentRules.Keys == old(currentRules).Keys
      ensures notImprovedCount == if added then 0 else old(notImprovedCount)
      ensures bestRelativeError == old(bestRelativeError) && bestAbsoluteError == old(bestAbsoluteError)
    {
      var diff, order, existing, keys, norm2, directOrders, learnOrders := CaseDifferences(dictTuple, treeOrder, directPath, learnPath);
      d := CaseDiff(treeOrder, diff, order, existing, keys, norm2, directOrders, learnOrders);
      ghost var before := currentRules;
      LearnedFacts(before, notImprovedCount, existing, keys, norm2, diff, order, absoluteError);
      added := Learn(existing, keys, norm2, diff, order, absoluteError);
      forall k | k in currentRules && k !in before ensures |k| <= 4 {
        var j :| j in diff && (k == j || ProperPrefixKey(k, j));
      }
    }

    /**
     * One training case: skip it when a node is off the map, and report a
     * waypoint without ways, where `route` cannot pick a start way; check
     * the other cases. `NoWay` and `EmptyPath` are the trainer's crashes.
     */
    method RunCase(cs: Case) returns (o: Outcome, ghost r: CaseRun)
      requires Valid()
      modifies this
      ensures Valid()
      ensures CaseRan(g, override, dist, cs, old(currentRules), old(notImprovedCount), o, r, currentRules, notImprovedCount)
      ensures old(currentRules).Keys <= currentRules.Keys
      ensures forall k :: k in currentRules && k !in old(currentRules) ==> |k| <= 4
      ensures !(o.Checked? && o.added) ==> currentRules.Keys == old(currentRules).Keys
      ensures bestRelativeError == old(bestRelativeError) && bestAbsoluteError == old(bestAbsoluteError)
    {
      r := CaseRun([], Empty, [], [], CaseDiff([], map[], [], map[], [], 0.0, [], []));
      var learnRoute := Stops(cs);
      var caseInMap := InMap(g, learnRoute);
      if !caseInMap {
        return Skipped, r;
      }
      var noWay := FirstWithoutWays(g, learnRoute[..|learnRoute| - 1]);
      if noWay.Some? {
        return NoWay(noWay.value), r;
      }
      o, r := CheckCase(cs);
    }

    /**
     * A case on the map: route it directly and through its waypoints with
     * the current rules, and when the waypoint route costs relatively more
     * than the threshold learn from the error. A failing case with an
     * empty route is the `EmptyPath` crash.
     */
    method CheckCase(cs: Case) returns (o: Outcome, ghost r: CaseRun)
      requires Valid()
      requires forall i :: 0 <= i < |Stops(cs)| ==> Stops(cs)[i] in g.nodes
      requires FirstWithoutWays(g, Stops(cs)[..|Stops(cs)| - 1]).None?
      modifies this
      ensures Valid()
      ensures o.Checked? || o.EmptyPath?
      ensures CaseRan(g, override, dist, cs, old(currentRules), old(notImprovedCount), o, r, currentRules, notImprovedCount)
      ensures old(currentRules).Keys <= currentRules.Keys
      ensures forall k :: k in currentRules && k !in old(currentRules) ==> |k| <= 4
      ensures !(o.Checked? && o.added) ==> currentRules.Keys == old(currentRules).Keys
      ensures bestRelativeError == old(bestRelativeError) && bestAbsoluteError == old(bestAbsoluteError)
    {
      var treeOrder, dictTuple, direct, learn;
      ghost var directLegs, learnLegs;
      treeOrder, dictTuple, direct, learn, directLegs, learnLegs := Routes(cs);
      r := CaseRun(treeOrder, dictTuple, directLegs, learnLegs, CaseDiff([], map[], [], map[], [], 0.0, [], []));
      assert BuiltFrom(r.tree, currentRules, r.order);
      assert CaseRouted(g, Costing(override, r.tree, dist), cs, r.directLegs, r.learnLegs);
      var absoluteError := learn.cost - direct.cost;
      var relativeError := Relative(absoluteError, direct.cost);
      if relativeError < 0.00000001 {
        o := Checked(direct.cost, learn.cost, absoluteError, relativeError, true, false);
        RoutedRan(g, override, dist, cs, currentRules, notImprovedCount, o, r, currentRules, notImprovedCount);
        return;
      }
      FailingPositive(absoluteError, direct.cost);
      if |direct.path| == 0 || |learn.path| == 0 {
        assert Relative(SumCosts(r.learnLegs) - SumCosts(r.directLegs), SumCosts(r.directLegs)) >= 0.00000001;
        o := EmptyPath;
        RoutedRan(g, override, dist, cs, currentRules, notImprovedCount, o, r, currentRules, notImprovedCount);
        return;
      }
      var added;
      ghost var d;
      added, d := LearnFrom(dictTuple, treeOrder, direct.path, learn.path, Inflated(absoluteError));
      r := r.(d := d);
      o := Checked(direct.cost, learn.cost, absoluteError, relativeError, false, added);
      RoutedRan(g, override, dist, cs, old(currentRules), old(notImprovedCount), o, r, currentRules, notImprovedCount);
    }

    /**
     * The end of an iteration over the cases: keep the least total errors
     * seen, count the iteration as not improving unless the total absolute
     * error is a new least, and stop when every case passed or after more
     * than 100 iterations without improvement.
     */
    method FinishIteration(totalRelativeError: real, totalAbsoluteError: real, someFail: bool) returns (stop: bool)
      modifies this
      ensures currentRules == old(currentRules)
      ensures bestRelativeError <= old(bestRelativeError) && bestRelativeError <= totalRelativeError
      ensures bestRelativeError == old(bestRelativeError) || bestRelativeError == totalRelativeError
      ensures bestAbsoluteError <= old(bestAbsoluteError) && bestAbsoluteError <= totalAbsoluteError
      ensures bestAbsoluteError == old(bestAbsoluteError) || bestAbsoluteError == totalAbsoluteError
      ensures notImprovedCount == if totalAbsoluteError < old(bestAbsoluteError) then 0 else old(notImprovedCount) + 1
      ensures stop <==> !someFail || notImprovedCount > 100
    {
      if totalRelativeError < bestRelativeError {
        bestRelativeError := totalRelativeError;
      }
      if totalAbsoluteError < bestAbsoluteError {
        bestAbsoluteError := totalAbsoluteError;
        notImprovedCount := 0;
      } else {
        notImprovedCount := notImprovedCount + 1;
      }
      stop := !someFail || notImprovedCount > 100;
    }

    /**
     * One turn of the case loop: `RunCase`, then the running totals, which
     * take the errors of a checked case, and the failure flag, which a
     * failing case sets. The cases run so far (`os`, from the rule maps and
     * counters `maps` and `counts`) grow by this one.
     */
    method CaseTurn(cs: Case, relative: real, absolute: real, someFail: bool, ghost cases: seq<Case>, ghost os: seq<Outcome>,
                    ghost runs: seq<CaseRun>, ghost maps: seq<map<RuleKey, Weight>>, ghost counts: seq<nat>)
      returns (o: Outcome, relative': real, absolute': real, someFail': bool, ghost r: CaseRun)
      requires Valid()
      requires AllRan(g, override, dist, cases, os, runs, maps, counts) && |os| < |cases| && cases[|os|] == cs
      requires maps[|os|] == currentRules && counts[|os|] == notImprovedCount
      modifies this
      ensures Valid()
      ensures AllRan(g, override, dist, cases, os + [o], runs + [r], maps + [currentRules], counts + [notImprovedCount])
      ensures relative' == relative + (if o.Checked? then o.relativeError else 0.0)
      ensures absolute' == absolute + (if o.Checked? then o.absoluteError else 0.0)
      ensures someFail' == (someFail || (o.Checked? && !o.passed))
      ensures !(o.Checked? && !o.passed) ==> currentRules == old(currentRules)
      ensures old(currentRules).Keys <= currentRules.Keys
      ensures forall k :: k in currentRules && k !in old(currentRules) ==> |k| <= 4
      ensures notImprovedCount == if o.Checked? && o.added then 0 else old(notImprovedCount)
      ensures bestRelativeError == old(bestRelativeError) && bestAbsoluteError == old(bestAbsoluteError)
    {
      o, r := RunCase(cs);
      AllRanSnoc(g, override, dist, cases, os, runs, maps, counts, o, r, currentRules, notImprovedCount);
      relative', absolute', someFail' := relative, absolute, someFail;
      if o.Checked? {
        relative' := relative + o.relativeError;
        absolute' := absolute + o.absoluteError;
        if !o.passed {
          someFail' := true;
        }
      }
    }

    /**
     * The pass over the cases of one iteration: every case in turn, summing
     * the errors of the checked cases (`outcomes` lists what each case came
     * to). A crash ends it at once with the case's outcome.
     */
    method RunCases(training: seq<Case>)
      returns (crash: Option<Outcome>, someFail: bool, totalRelativeError: real, totalAbsoluteError: real,
               ghost outcomes: seq<Outcome>, ghost runs: seq<CaseRun>,
               ghost maps: seq<map<RuleKey, Weight>>, ghost counts: seq<nat>)
      requires Valid()
      modifies this
      ensures Valid()
      ensures AllRan(g, override, dist, training, outcomes, runs, maps, counts)
      ensures maps[0] == old(currentRules) && counts[0] == old(notImprovedCount)
      ensures maps[|outcomes|] == currentRules
      ensures counts[|outcomes|] == notImprovedCount
      ensures crash.None? ==> |outcomes| == |training| && NoCrash(outcomes)
      ensures crash.Some? ==> |outcomes| > 0 && crash.value == outcomes[|outcomes| - 1] &&
                              (crash.value.NoWay? || crash.value.EmptyPath?) && NoCrash(outcomes[..|outcomes| - 1])
      ensures Totals(outcomes, totalRelativeError, totalAbsoluteError, someFail)
      ensures bestRelativeError == old(bestRelativeError) && bestAbsoluteError == old(bestAbsoluteError)
      ensures notImprovedCount == if SomeAdded(outcomes) then 0 else old(notImprovedCount)
      ensures old(currentRules).Keys <= currentRules.Keys
      ensures forall k :: k in currentRules && k !in old(currentRules) ==> |k| <= 4
      ensures !someFail ==> currentRules == old(currentRules)
    {
      someFail, crash, outcomes := false, None, [];
      runs, maps, counts := [], [currentRules], [notImprovedCount];
      totalRelativeError, totalAbsoluteError := 0.0, 0.0;
      for i := 0 to |training|
        invariant Valid()
        invariant |outcomes| == i
        invariant AllRan(g, override, dist, training, outcomes, runs, maps, counts)
        invariant maps[0] == old(currentRules) && counts[0] == old(notImprovedCount)
        invariant maps[i] == currentRules && counts[i] == notImprovedCount
        invariant NoCrash(outcomes)
        invariant Totals(outcomes, totalRelativeError, totalAbsoluteError, someFail)
        invariant bestRelativeError == old(bestRelativeError) && bestAbsoluteError == old(bestAbsoluteError)
        invariant notImprovedCount == if SomeAdded(outcomes) then 0 else old(notImprovedCount)
        invariant old(currentRules).Keys <= currentRules.Keys
        invariant forall k :: k in currentRules && k !in old(currentRules) ==> |k| <= 4
        invariant !someFail ==> currentRules == old(currentRules)
      {
        ghost var relative, absolute, failed := totalRelativeError, totalAbsoluteError, someFail;
        var o;
        ghost var r;
        o, totalRelativeError, totalAbsoluteError, someFail, r :=
          CaseTurn(training[i], totalRelativeError, totalAbsoluteError, someFail, training, outcomes, runs, maps, counts);
        TotalsSnoc(outcomes, o, relative, absolute, failed);
        outcomes, runs, maps, counts := outcomes + [o], runs + [r], maps + [currentRules], counts + [notImprovedCount];
        if o.NoWay? || o.EmptyPath? {
          crash := Some(o);
          return;
        }
      }
    }

    /**
     * One iteration of the training loop: the pass over the cases, then,
     * unless a case crashed, the end of the iteration on the totals of the
     * checked cases (`outcomes` lists what each case came to). When every
     * case passes, the rules stay as they were and the loop stops. An
     * iteration that goes on records the logarithms of the best errors and
     * of the number of rules; `domainError` says that one of them is not
     * positive, where the logarithm fails.
     */
    method Iteration(training: seq<Case>)
      returns (crash: Option<Outcome>, someFail: bool, stop: bool, domainError: bool, ghost outcomes: seq<Outcome>, ghost runs: seq<CaseRun>,
               ghost maps: seq<map<RuleKey, Weight>>, ghost counts: seq<nat>)
      requires Valid()
      modifies this
      ensures Valid()
      ensures AllRan(g, override, dist, training, outcomes, runs, maps, counts)
      ensures maps[0] == old(currentRules) && counts[0] == old(notImprovedCount)
      ensures maps[|outcomes|] == currentRules
      ensures crash.Some? ==> counts[|outcomes|] == notImprovedCount
      ensures crash.None? ==> notImprovedCount == if SumAbsolute(outcomes) < old(bestAbsoluteError) then 0 else counts[|outcomes|] + 1
      ensures crash.None? ==> |outcomes| == |training| && NoCrash(outcomes)
      ensures crash.Some? ==> |outcomes| > 0 && crash.value == outcomes[|outcomes| - 1] &&
                              (crash.value.NoWay? || crash.value.EmptyPath?) && NoCrash(outcomes[..|outcomes| - 1])
      ensures someFail <==> SomeFailed(outcomes)
      ensures old(currentRules).Keys <= currentRules.Keys
      ensures forall k :: k in currentRules && k !in old(currentRules) ==> |k| <= 4
      ensures !someFail ==> currentRules == old(currentRules)
      ensures crash.Some? ==>
                && bestRelativeError == old(bestRelativeError) && bestAbsoluteError == old(bestAbsoluteError)
                && notImprovedCount == if SomeAdded(outcomes) then 0 else old(notImprovedCount)
      ensures crash.None? ==>
                && bestRelativeError == (if SumRelative(outcomes) < old(bestRelativeError) then SumRelative(outcomes) else old(bestRelativeError))
                && bestAbsoluteError == (if SumAbsolute(outcomes) < old(bestAbsoluteError) then SumAbsolute(outcomes) else old(bestAbsoluteError))
                && notImprovedCount == (if SumAbsolute(outcomes) < old(bestAbsoluteError) then 0
                                        else (if SomeAdded(outcomes) then 0 else old(notImprovedCount)) + 1)
                && (stop <==> !someFail || notImprovedCount > 100)
      ensures domainError <==>
                crash.None? && !stop && (|currentRules| == 0 || bestRelativeError <= 0.0 || bestAbsoluteError <= 0.0)
    {
      var totalRelativeError, totalAbsoluteError;
      crash, someFail, totalRelativeError, totalAbsoluteError, outcomes, runs, maps, counts := RunCases(training);
      stop, domainError := false, false;
      if crash.None? {
        stop := FinishIteration(totalRelativeError, totalAbsoluteError, someFail);
        if !stop {
          domainError := |currentRules| == 0 || bestRelativeError <= 0.0 || bestAbsoluteError <= 0.0;
        }
      }
    }

    /** `addRule` as the new-rule step calls it: the sequence of calls grows by one, and the counter resets. */
    method AddChosen(e: (RuleKey, Weight), ghost rules: map<RuleKey, Weight>, ghost adds: seq<(RuleKey, Weight)>)
      requires e.0 != [] && forall x :: x in adds ==> x.0 != []
      requires currentRules == WithRules(rules, adds)
      modifies this
      ensures currentRules == WithRules(rules, adds + [e])
      ensures notImprovedCount == 0
      ensures bestRelativeError == old(bestRelativeError) && bestAbsoluteError == old(bestAbsoluteError)
    {
      AddRule(e.0, e.1);
      notImprovedCount := 0;
      WithRulesSnoc(rules, adds, e);
    }

    /**
     * The new-rule step for the error `a` left to new rules: pick the way
     * rule and the node rule with the least score and add a rule for each
     * negative difference among them, resetting the stall counter with
     * every rule added.
     */
    method AddNewRules(diff: map<RuleKey, Stat>, order: seq<RuleKey>, a: real) returns (added: bool)
      requires Valid() && Lists(order, diff) && a > 0.0
      requires forall k :: k in diff ==> k != [] && WellKindedKey(k)
      modifies this
      ensures Valid()
      ensures |order| == 0 ==> currentRules == old(currentRules) && !added
      ensures |order| > 0 ==> currentRules == WithRules(old(currentRules), Additions(diff, order, a)) &&
                              (added <==> Additions(diff, order, a) != [])
      ensures notImprovedCount == if added then 0 else old(notImprovedCount)
      ensures bestRelativeError == old(bestRelativeError) && bestAbsoluteError == old(bestAbsoluteError)
    {
      added := false;
      if |order| == 0 {
        return;
      }
      assert GoodRules(WithRules(currentRules, Additions(diff, order, a))) by {
        AdditionsGood(currentRules, diff, order, a);
      }
      var wayRule := order[FirstMin(order, diff, true)];
      var nodeRule := order[FirstMin(order, diff, false)];
      added := AddChosenRules(diff, wayRule, nodeRule, a);
    }

    /** The `addRule` calls for way rule `wayRule` and node rule `nodeRule`, as `Chosen` lists them. */
    method AddChosenRules(diff: map<RuleKey, Stat>, wayRule: RuleKey, nodeRule: RuleKey, a: real) returns (added: bool)
      requires wayRule in diff && nodeRule in diff && wayRule != [] && nodeRule != []
      modifies this
      ensures currentRules == WithRules(old(currentRules), Chosen(diff, wayRule, nodeRule, a))
      ensures added <==> Chosen(diff, wayRule, nodeRule, a) != []
      ensures notImprovedCount == if added then 0 else old(notImprovedCount)
      ensures bestRelativeError == old(bestRelativeError) && bestAbsoluteError == old(bestAbsoluteError)
    {
      added := false;
      var dw, dn := diff[wayRule], diff[nodeRule];
      ghost var rules := currentRules;
      ghost var adds: seq<(RuleKey, Weight)> := [];
      if nodeRule != wayRule {
        if dw.0 < 0.0 {
          var e := (wayRule, (Amount(a / 2.0, dw.0), 0.0));
          AddChosen(e, rules, adds);
          adds := adds + [e];
          added := true;
        }
        if dn.1 < 0.0 {
          var e := (nodeRule, (0.0, Amount(a / 2.0, dn.1)));
          AddChosen(e, rules, adds);
          adds := adds + [e];
          added := true;
        }
      } else {
        if dw.0 < 0.0 && dw.1 < 0.0 {
          var e := (wayRule, (Amount(a / 2.0, dw.0), Amount(a / 2.0, dw.1)));
          AddChosen(e, rules, []);
          adds := [e];
          added := true;
        } else if dw.0 < 0.0 {
          var e := (wayRule, (Amount(a, dw.0), 0.0));
          AddChosen(e, rules, []);
          adds := [e];
          added := true;
        } else if dw.1 < 0.0 {
          var e := (wayRule, (0.0, Amount(a, dw.1)));
          AddChosen(e, rules, []);
          adds := [e];
          added := true;
        }
      }
      assert adds == Chosen(diff, wayRule, nodeRule, a);
    }

    /** One used rule in a pass: its weight adjusted, and written back only when it changed. */
    method AdjustRule(key: RuleKey, c: Stat, ce: real, f: real, n2: real, nextNorm2: real, nextCE: real)
      returns (c': Stat, nextNorm2': real, nextCE': real)
      requires key in currentRules && n2 != 0.0
      modifies this
      ensures currentRules == old(currentRules)[key := AdjustWeight(old(currentRules)[key], c, ce, f, n2)]
      ensures c' == AdjustCount(old(currentRules)[key], c, ce, f, n2)
      ensures nextNorm2' == nextNorm2 - Removed(old(currentRules)[key], c, ce, f, n2)
      ensures nextCE' == nextCE + Lost(old(currentRules)[key], c, ce, f, n2)
      ensures notImprovedCount == old(notImprovedCount)
      ensures bestRelativeError == old(bestRelativeError) && bestAbsoluteError == old(bestAbsoluteError)
    {
      var w := currentRules[key];
      var w';
      w', c', nextNorm2', nextCE' := AdjustOne(w, c, ce, f, n2, nextNorm2, nextCE);
      if w' != w {
        currentRules := currentRules[key := w'];
      } else {
        assert currentRules == currentRules[key := w'];
      }
    }

    /**
     * One pass of the compensation over the used rules listed by `keys`:
     * every used weight adjusted (written back only where it changed), the
     * differences that still take part, the norm they leave and the error
     * the clamps carry into the next pass.
     */
    method CompensatePass(cur: map<RuleKey, Stat>, keys: seq<RuleKey>, ce: real, f: real, n2: real)
      returns (next: map<RuleKey, Stat>, nextNorm2: real, nextCE: real)
      requires Lists(keys, cur) && cur.Keys <= currentRules.Keys && n2 != 0.0
      modifies this
      ensures currentRules == PassWeights(old(currentRules), cur, ce, f, n2)
      ensures next == PassCounts(old(currentRules), cur, ce, f, n2)
      ensures nextNorm2 == n2 - RemovedOver(old(currentRules), cur, keys, ce, f, n2)
      ensures nextCE == LostOver(old(currentRules), cur, keys, ce, f, n2)
      ensures notImprovedCount == old(notImprovedCount)
      ensures bestRelativeError == old(bestRelativeError) && bestAbsoluteError == old(bestAbsoluteError)
    {
      ghost var rules := currentRules;
      next, nextNorm2, nextCE := cur, n2, 0.0;
      PartNone(rules, cur, ce, f, n2);
      for i := 0 to |keys|
        invariant currentRules == PartWeights(rules, cur, keys[..i], ce, f, n2)
        invariant next == PartCounts(rules, cur, keys[..i], ce, f, n2)
        invariant nextNorm2 == n2 - RemovedOver(rules, cur, keys[..i], ce, f, n2)
        invariant nextCE == LostOver(rules, cur, keys[..i], ce, f, n2)
        invariant notImprovedCount == old(notImprovedCount)
        invariant bestRelativeError == old(bestRelativeError) && bestAbsoluteError == old(bestAbsoluteError)
      {
        var key := keys[i];
        ListedSnoc(keys, cur, i);
        PartSnoc(rules, cur, keys[..i], key, ce, f, n2);
        var c', nn, nc := AdjustRule(key, next[key], ce, f, n2, nextNorm2, nextCE);
        next := next[key := c'];
        nextNorm2, nextCE := nn, nc;
      }
      assert keys[..|keys|] == keys;
      PartWhole(rules, cur, keys, ce, f, n2);
    }

    /**
     * The compensation loop: passes over the used rules while both the
     * norm and the error left are positive. It ends in the state `Passes`
     * describes, returning the error and the norm left.
     */
    method CompensateUsed(existing: map<RuleKey, Stat>, keys: seq<RuleKey>, absoluteError: real, oldFactor: real, norm2: real)
      returns (compensateError: real, n2: real)
      requires Valid() && PassReady(currentRules, existing, keys, norm2) && oldFactor > 0.0
      modifies this
      ensures Valid()
      ensures var r := Passes(old(currentRules), existing, keys, absoluteError, oldFactor, norm2);
        currentRules == r.rules && compensateError == r.error && n2 == r.norm2
      ensures notImprovedCount == old(notImprovedCount)
      ensures bestRelativeError == old(bestRelativeError) && bestAbsoluteError == old(bestAbsoluteError)
    {
      var cur := existing;
      compensateError, n2 := absoluteError, norm2;
      while n2 > 0.0 && compensateError > 0.0
        invariant Valid() && PassReady(currentRules, cur, keys, n2)
        invariant Passes(currentRules, cur, keys, compensateError, oldFactor, n2) ==
                  Passes(old(currentRules), existing, keys, absoluteError, oldFactor, norm2)
        invariant notImprovedCount == old(notImprovedCount)
        invariant bestRelativeError == old(bestRelativeError) && bestAbsoluteError == old(bestAbsoluteError)
        decreases Measure(cur, keys, compensateError)
      {
        PassFacts(currentRules, cur, keys, compensateError, oldFactor, n2);
        PassesStep(currentRules, cur, keys, compensateError, oldFactor, n2);
        ghost var rules := currentRules;
        var next, nextNorm2, nextCE := CompensatePass(cur, keys, compensateError, oldFactor, n2);
        SameKeysGood(rules, currentRules);
        cur, compensateError, n2 := next, nextCE, nextNorm2;
      }
    }
  }
}
