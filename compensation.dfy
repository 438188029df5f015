/**
 * The compensation loop of the trainer (`routrainer.py`, the `while norm2 >
 * 0 and compensateError > 0` loop): the error of a failing case is spread
 * over the rules the two routes used, in proportion to how much more the
 * waypoint route used each of them. A weight that would become negative is
 * clamped at zero; the part of the error it could not absorb is carried
 * into the next pass, and the component stops taking part.
 *
 * The passes are specified here as functions on values; the `Training`
 * class runs them in place.
 */
module Compensation {
  import opened RuleTree
  import opened Attribution
  import opened Learner

  // ----- sign facts about products and quotients -----

  lemma MulNonPos(a: real, b: real)
    requires a > 0.0 && b <= 0.0
    ensures a * b <= 0.0
  {
  }

  lemma DivNonPos(a: real, d: real)
    requires a <= 0.0 && d > 0.0
    ensures a / d <= 0.0
  {
  }

  lemma DivNegNeg(a: real, d: real)
    requires a < 0.0 && d < 0.0
    ensures a / d > 0.0
  {
  }

  // ----- one key -----

  /** A weight component after moving its share `ce * f * c / n2` of the error. */
  function Shift(w: real, c: real, ce: real, f: real, n2: real): real
    requires n2 != 0.0
  {
    w - ce * f * c / n2
  }

  /** Only a component that overshoots below zero is clamped, and only one that was used more. */
  lemma ClampFacts(w: real, c: real, ce: real, f: real, n2: real)
    requires w >= 0.0 && ce > 0.0 && f > 0.0 && n2 > 0.0
    requires Shift(w, c, ce, f, n2) < 0.0
    ensures c > 0.0 && -Shift(w, c, ce, f, n2) * c > 0.0
  {
    var p := ce * f;
    MulPos(ce, f);
    if c <= 0.0 {
      MulNonPos(p, c);
      DivNonPos(p * c, n2);
      assert false;
    }
    MulPos(-Shift(w, c, ce, f, n2), c);
  }

  /** The new weight of a used rule: each component shifted, and clamped at zero. */
  function AdjustWeight(w: Weight, c: Stat, ce: real, f: real, n2: real): Weight
    requires n2 != 0.0
  {
    var l := Shift(w.0, c.0, ce, f, n2);
    var p := Shift(w.1, c.1, ce, f, n2);
    (if l < 0.0 then 0.0 else l, if p < 0.0 then 0.0 else p)
  }

  /** The difference that still takes part: a clamped component counts zero from now on. */
  function AdjustCount(w: Weight, c: Stat, ce: real, f: real, n2: real): Stat
    requires n2 != 0.0
  {
    (if Shift(w.0, c.0, ce, f, n2) < 0.0 then 0.0 else c.0,
     if Shift(w.1, c.1, ce, f, n2) < 0.0 then 0.0 else c.1)
  }

  /** The error a clamp could not move: what the clamped components overshot, times their difference. */
  function Lost(w: Weight, c: Stat, ce: real, f: real, n2: real): real
    requires n2 != 0.0
  {
    var l := Shift(w.0, c.0, ce, f, n2);
    var p := Shift(w.1, c.1, ce, f, n2);
    (if l < 0.0 then -l * c.0 else 0.0) + (if p < 0.0 then -p * c.1 else 0.0)
  }

  /** The squares that leave the norm with the clamped components. */
  function Removed(w: Weight, c: Stat, ce: real, f: real, n2: real): real
    requires n2 != 0.0
  {
    (if Shift(w.0, c.0, ce, f, n2) < 0.0 then c.0 * c.0 else 0.0) +
    (if Shift(w.1, c.1, ce, f, n2) < 0.0 then c.1 * c.1 else 0.0)
  }

  /** How many components of a difference take part. */
  function NonZero(c: Stat): nat
  {
    (if c.0 != 0.0 then 1 else 0) + (if c.1 != 0.0 then 1 else 0)
  }

  /**
   * For one key: the new weight is non-negative, the lost error is not
   * negative, no component starts taking part again, a lost error means one
   * stopped, and the norm loses exactly the squares of the components that
   * stopped.
   */
  lemma AdjustFacts(w: Weight, c: Stat, ce: real, f: real, n2: real)
    requires w.0 >= 0.0 && w.1 >= 0.0 && ce > 0.0 && f > 0.0 && n2 > 0.0
    ensures AdjustWeight(w, c, ce, f, n2).0 >= 0.0 && AdjustWeight(w, c, ce, f, n2).1 >= 0.0
    ensures Lost(w, c, ce, f, n2) >= 0.0
    ensures NonZero(AdjustCount(w, c, ce, f, n2)) <= NonZero(c)
    ensures Lost(w, c, ce, f, n2) > 0.0 ==> NonZero(AdjustCount(w, c, ce, f, n2)) < NonZero(c)
    ensures Sq(AdjustCount(w, c, ce, f, n2)) == Sq(c) - Removed(w, c, ce, f, n2)
  {
    if Shift(w.0, c.0, ce, f, n2) < 0.0 {
      ClampFacts(w.0, c.0, ce, f, n2);
    }
    if Shift(w.1, c.1, ce, f, n2) < 0.0 {
      ClampFacts(w.1, c.1, ce, f, n2);
    }
  }

  // ----- one pass over the used rules -----

  /** The rule map after one pass: every used rule adjusted, every other rule as it was. */
  function PassWeights(rules: map<RuleKey, Weight>, cur: map<RuleKey, Stat>, ce: real, f: real, n2: real): map<RuleKey, Weight>
    requires n2 != 0.0
  {
    map k | k in rules :: if k in cur then AdjustWeight(rules[k], cur[k], ce, f, n2) else rules[k]
  }

  /** The differences after one pass. */
  function PassCounts(rules: map<RuleKey, Weight>, cur: map<RuleKey, Stat>, ce: real, f: real, n2: real): map<RuleKey, Stat>
    requires n2 != 0.0 && cur.Keys <= rules.Keys
  {
    map k | k in cur :: AdjustCount(rules[k], cur[k], ce, f, n2)
  }

  /** The error carried into the next pass: the lost error of the listed keys. */
  function LostOver(rules: map<RuleKey, Weight>, cur: map<RuleKey, Stat>, keys: seq<RuleKey>, ce: real, f: real, n2: real): real
    requires n2 != 0.0 && forall k :: k in keys ==> k in cur && k in rules
  {
    if keys == [] then 0.0
    else
      var k := keys[|keys| - 1];
      LostOver(rules, cur, keys[..|keys| - 1], ce, f, n2) + Lost(rules[k], cur[k], ce, f, n2)
  }

  /** The components of the listed differences that take part. */
  function NonZeroOver(m: map<RuleKey, Stat>, keys: seq<RuleKey>): nat
    requires forall k :: k in keys ==> k in m
  {
    if keys == [] then 0 else NonZeroOver(m, keys[..|keys| - 1]) + NonZero(m[keys[|keys| - 1]])
  }

  /** What a pass needs: the used rules listed once, all of them rules, and the norm their differences give. */
  ghost predicate PassReady(rules: map<RuleKey, Weight>, cur: map<RuleKey, Stat>, keys: seq<RuleKey>, n2: real)
  {
    Lists(keys, cur) && cur.Keys <= rules.Keys && NonNegativeWeights(rules) &&
    n2 == SquaresOver(cur, keys)
  }

  /**
   * Over any listing of used keys: the lost error is not negative, no
   * component starts taking part, and a lost error means at least one
   * component stopped.
   */
  lemma {:induction false} PassOverFacts(rules: map<RuleKey, Weight>, cur: map<RuleKey, Stat>, keys: seq<RuleKey>, ce: real, f: real, n2: real)
    requires NonNegativeWeights(rules) && cur.Keys <= rules.Keys && forall k :: k in keys ==> k in cur
    requires ce > 0.0 && f > 0.0 && n2 > 0.0
    ensures LostOver(rules, cur, keys, ce, f, n2) >= 0.0
    ensures NonZeroOver(PassCounts(rules, cur, ce, f, n2), keys) <= NonZeroOver(cur, keys)
    ensures LostOver(rules, cur, keys, ce, f, n2) > 0.0 ==>
              NonZeroOver(PassCounts(rules, cur, ce, f, n2), keys) < NonZeroOver(cur, keys)
  {
    if keys != [] {
      var k := keys[|keys| - 1];
      PassOverFacts(rules, cur, keys[..|keys| - 1], ce, f, n2);
      AdjustFacts(rules[k], cur[k], ce, f, n2);
    }
  }

  /**
   * After a pass the weights stay non-negative, the rule map keeps its
   * keys, the norm is that of the new differences, and the pass either
   * moved the whole error or retired a component.
   */
  lemma PassFacts(rules: map<RuleKey, Weight>, cur: map<RuleKey, Stat>, keys: seq<RuleKey>, ce: real, f: real, n2: real)
    requires PassReady(rules, cur, keys, n2) && ce > 0.0 && f > 0.0 && n2 > 0.0
    ensures PassWeights(rules, cur, ce, f, n2).Keys == rules.Keys
    ensures PassReady(PassWeights(rules, cur, ce, f, n2), PassCounts(rules, cur, ce, f, n2), keys,
                      n2 - RemovedOver(rules, cur, keys, ce, f, n2))
    ensures LostOver(rules, cur, keys, ce, f, n2) >= 0.0
    ensures NonZeroOver(PassCounts(rules, cur, ce, f, n2), keys) <= NonZeroOver(cur, keys)
    ensures LostOver(rules, cur, keys, ce, f, n2) > 0.0 ==>
              NonZeroOver(PassCounts(rules, cur, ce, f, n2), keys) < NonZeroOver(cur, keys)
  {
    PassOverFacts(rules, cur, keys, ce, f, n2);
    var r := PassWeights(rules, cur, ce, f, n2);
    forall k | k in r ensures r[k].0 >= 0.0 && r[k].1 >= 0.0 {
      if k in cur {
        AdjustFacts(rules[k], cur[k], ce, f, n2);
      }
    }
    PassSquares(rules, cur, keys, ce, f, n2);
  }

  /** The squares the listed keys remove from the norm. */
  function RemovedOver(rules: map<RuleKey, Weight>, cur: map<RuleKey, Stat>, keys: seq<RuleKey>, ce: real, f: real, n2: real): real
    requires n2 != 0.0 && forall k :: k in keys ==> k in cur && k in rules
  {
    if keys == [] then 0.0
    else
      var k := keys[|keys| - 1];
      RemovedOver(rules, cur, keys[..|keys| - 1], ce, f, n2) + Removed(rules[k], cur[k], ce, f, n2)
  }

  /** The norm of the new differences is the old norm minus the squares of the retired components. */
  lemma {:induction false} PassSquares(rules: map<RuleKey, Weight>, cur: map<RuleKey, Stat>, keys: seq<RuleKey>, ce: real, f: real, n2: real)
    requires cur.Keys <= rules.Keys && forall k :: k in keys ==> k in cur
    requires NonNegativeWeights(rules) && ce > 0.0 && f > 0.0 && n2 > 0.0
    ensures SquaresOver(PassCounts(rules, cur, ce, f, n2), keys) ==
            SquaresOver(cur, keys) - RemovedOver(rules, cur, keys, ce, f, n2)
  {
    if keys != [] {
      var k := keys[|keys| - 1];
      PassSquares(rules, cur, keys[..|keys| - 1], ce, f, n2);
      AdjustFacts(rules[k], cur[k], ce, f, n2);
    }
  }

  // ----- the whole loop -----

  datatype Compensated = Compensated(rules: map<RuleKey, Weight>, counts: map<RuleKey, Stat>, error: real, norm2: real)

  /** The measure the loop decreases: two per component taking part, one while error is left. */
  function Measure(cur: map<RuleKey, Stat>, keys: seq<RuleKey>, ce: real): nat
    requires forall k :: k in keys ==> k in cur
  {
    2 * NonZeroOver(cur, keys) + (if ce > 0.0 then 1 else 0)
  }

  /**
   * The passes the loop makes while both the norm and the error are
   * positive, as a function of the state it starts from.
   */
  function Passes(rules: map<RuleKey, Weight>, cur: map<RuleKey, Stat>, keys: seq<RuleKey>, ce: real, f: real, n2: real): Compensated
    requires PassReady(rules, cur, keys, n2) && f > 0.0
    decreases Measure(cur, keys, ce)
  {
    if n2 > 0.0 && ce > 0.0 then
      PassFacts(rules, cur, keys, ce, f, n2);
      var ce' := LostOver(rules, cur, keys, ce, f, n2);
      Passes(PassWeights(rules, cur, ce, f, n2), PassCounts(rules, cur, ce, f, n2), keys,
                 ce', f, n2 - RemovedOver(rules, cur, keys, ce, f, n2))
    else
      Compensated(rules, cur, ce, n2)
  }

  /** One pass of the loop, as `Passes` takes it. */
  lemma PassesStep(rules: map<RuleKey, Weight>, cur: map<RuleKey, Stat>, keys: seq<RuleKey>, ce: real, f: real, n2: real)
    requires PassReady(rules, cur, keys, n2) && f > 0.0 && n2 > 0.0 && ce > 0.0
    ensures PassReady(PassWeights(rules, cur, ce, f, n2), PassCounts(rules, cur, ce, f, n2), keys, n2 - RemovedOver(rules, cur, keys, ce, f, n2))
    ensures Passes(rules, cur, keys, ce, f, n2) ==
            Passes(PassWeights(rules, cur, ce, f, n2), PassCounts(rules, cur, ce, f, n2), keys,
                   LostOver(rules, cur, keys, ce, f, n2), f, n2 - RemovedOver(rules, cur, keys, ce, f, n2))
  {
    PassFacts(rules, cur, keys, ce, f, n2);
  }

  /**
   * What the loop leaves: it stops with no norm or no error left, the
   * error left is not negative, the norm is that of the differences still
   * taking part, the rule map has the same keys and non-negative weights,
   * and rules outside the used ones keep their weight.
   */
  lemma {:induction false} CompensateFacts(rules: map<RuleKey, Weight>, cur: map<RuleKey, Stat>, keys: seq<RuleKey>, ce: real, f: real, n2: real)
    requires PassReady(rules, cur, keys, n2) && f > 0.0 && ce >= 0.0
    decreases Measure(cur, keys, ce)
    ensures var r := Passes(rules, cur, keys, ce, f, n2);
      && (r.norm2 <= 0.0 || r.error <= 0.0)
      && r.error >= 0.0 && r.norm2 >= 0.0
      && PassReady(r.rules, r.counts, keys, r.norm2)
      && r.rules.Keys == rules.Keys
      && (forall k :: k in rules && k !in cur ==> r.rules[k] == rules[k])
  {
    SquaresNonNegative(cur, keys);
    if n2 > 0.0 && ce > 0.0 {
      var rules' := PassWeights(rules, cur, ce, f, n2);
      var cur' := PassCounts(rules, cur, ce, f, n2);
      var ce' := LostOver(rules, cur, keys, ce, f, n2);
      var n2' := n2 - RemovedOver(rules, cur, keys, ce, f, n2);
      assert PassReady(rules', cur', keys, n2') && ce' >= 0.0 && rules'.Keys == rules.Keys
          && Measure(cur', keys, ce') < Measure(cur, keys, ce) by {
        PassFacts(rules, cur, keys, ce, f, n2);
      }
      assert Passes(rules, cur, keys, ce, f, n2) == Passes(rules', cur', keys, ce', f, n2');
      CompensateFacts(rules', cur', keys, ce', f, n2');
      assert cur'.Keys == cur.Keys;
      assert forall k :: k in rules && k !in cur ==> rules'[k] == rules[k];
    }
  }

  /**
   * A pass with nothing to retire moves the whole error: every used weight
   * shifts by exactly its share and none is clamped.
   */
  lemma {:induction false} NothingLostExact(rules: map<RuleKey, Weight>, cur: map<RuleKey, Stat>, keys: seq<RuleKey>, ce: real, f: real, n2: real, k: RuleKey)
    requires NonNegativeWeights(rules) && cur.Keys <= rules.Keys && forall j :: j in keys ==> j in cur
    requires ce > 0.0 && f > 0.0 && n2 > 0.0
    requires LostOver(rules, cur, keys, ce, f, n2) == 0.0 && k in keys
    ensures PassWeights(rules, cur, ce, f, n2)[k] ==
            (Shift(rules[k].0, cur[k].0, ce, f, n2), Shift(rules[k].1, cur[k].1, ce, f, n2))
    ensures PassCounts(rules, cur, ce, f, n2)[k] == cur[k]
  {
    var last := keys[|keys| - 1];
    PassOverFacts(rules, cur, keys[..|keys| - 1], ce, f, n2);
    AdjustFacts(rules[last], cur[last], ce, f, n2);
    if k != last {
      NothingLostExact(rules, cur, keys[..|keys| - 1], ce, f, n2, k);
    } else {
      if Shift(rules[k].0, cur[k].0, ce, f, n2) < 0.0 {
        ClampFacts(rules[k].0, cur[k].0, ce, f, n2);
        assert false;
      }
      if Shift(rules[k].1, cur[k].1, ce, f, n2) < 0.0 {
        ClampFacts(rules[k].1, cur[k].1, ce, f, n2);
        assert false;
      }
    }
  }
}
