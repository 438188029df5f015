/**
 * How the trainer attributes a path to rules (`routrainer.py`): the
 * candidate rules a path could have used (`combinations`, `tagsFromPath`)
 * and the rules the evaluator actually fired on it (`usedTagsFromPath`).
 * Both build a dictionary from rule to (length, count): rules with a way
 * conjunct collect the walked length, rules with a node conjunct, or
 * without a way conjunct, collect the number of uses.
 */
module Attribution {
  import opened Wrappers
  import opened RuleTree
  import opened Penalty
  import opened Graph
  import opened Search

  /** (length, count) of one rule along a path. */
  type Stat = (real, real)

  predicate Distinct<T(==)>(s: seq<T>)
  {
    forall i, j :: 0 <= i < j < |s| ==> s[i] != s[j]
  }

  // ----- combinations -----

  /** `[e2 for e2 in remain if e2 != e]` */
  function Remove(s: seq<Conjunct>, e: Conjunct): (r: seq<Conjunct>)
    ensures forall x :: x in r <==> x in s && x != e
  {
    if s == [] then [] else (if s[0] == e then [] else [s[0]]) + Remove(s[1..], e)
  }

  /**
   * `combinations(src, depth, prefix)`: every entry of `src` in turn, and
   * after it, while depth remains, the combinations of the entries not yet
   * passed over, one level deeper.
   */
  function Combinations(src: seq<Conjunct>, depth: nat, prefix: RuleKey): seq<RuleKey>
    decreases depth, |src| + 1
  {
    CombineFrom(src, src, depth, prefix)
  }

  /** The loop of `combinations` from the entry `entries[0]` on, with `remain` as it stands there. */
  function CombineFrom(entries: seq<Conjunct>, remain: seq<Conjunct>, depth: nat, prefix: RuleKey): seq<RuleKey>
    decreases depth, |entries|
  {
    if entries == [] then []
    else
      var e := entries[0];
      if depth > 0 then
        var remain' := Remove(remain, e);
        [prefix + [e]] + Combinations(remain', depth - 1, prefix + [e]) + CombineFrom(entries[1..], remain', depth, prefix)
      else
        [prefix + [e]] + CombineFrom(entries[1..], remain, depth, prefix)
  }

  /** `y` arises from `s` by deleting elements: its elements occur in `s` at strictly increasing positions. */
  predicate IsSubseq(y: seq<Conjunct>, s: seq<Conjunct>)
    decreases |s|
  {
    if y == [] then true
    else if s == [] then false
    else (y[0] == s[0] && IsSubseq(y[1..], s[1..])) || IsSubseq(y, s[1..])
  }

  lemma {:induction false} SubseqElements(y: seq<Conjunct>, s: seq<Conjunct>)
    requires IsSubseq(y, s)
    ensures forall c :: c in y ==> c in s
    decreases |s|
  {
    if y != [] {
      if y[0] == s[0] && IsSubseq(y[1..], s[1..]) {
        SubseqElements(y[1..], s[1..]);
        assert forall c :: c in y ==> c == y[0] || c in y[1..];
      } else {
        SubseqElements(y, s[1..]);
      }
    }
  }

  lemma {:induction false} CombineFromFlat(entries: seq<Conjunct>, remain: seq<Conjunct>, prefix: RuleKey)
    ensures |CombineFrom(entries, remain, 0, prefix)| == |entries|
    ensures forall i :: 0 <= i < |entries| ==> CombineFrom(entries, remain, 0, prefix)[i] == prefix + [entries[i]]
    decreases |entries|
  {
    if entries != [] {
      CombineFromFlat(entries[1..], remain, prefix);
      var r := CombineFrom(entries, remain, 0, prefix);
      assert r == [prefix + [entries[0]]] + CombineFrom(entries[1..], remain, 0, prefix);
      forall i | 0 < i < |entries| ensures r[i] == prefix + [entries[i]] {
        assert r[i] == CombineFrom(entries[1..], remain, 0, prefix)[i - 1];
      }
    }
  }

  /** At depth 0 the output is `[prefix + e for e in src]`, in order. */
  lemma CombinationsFlat(src: seq<Conjunct>, prefix: RuleKey)
    ensures |Combinations(src, 0, prefix)| == |src|
    ensures forall i :: 0 <= i < |src| ==> Combinations(src, 0, prefix)[i] == prefix + [src[i]]
  {
    CombineFromFlat(src, src, prefix);
  }

  lemma {:induction false} RemoveAbsent(s: seq<Conjunct>, e: Conjunct)
    requires e !in s
    ensures Remove(s, e) == s
  {
    if s != [] {
      RemoveAbsent(s[1..], e);
      assert [s[0]] + s[1..] == s;
    }
  }

  /** For distinct entries, the first one and the rest split the output into three parts. */
  lemma CombinationsUnfold(s: seq<Conjunct>, d: nat, p: RuleKey)
    requires Distinct(s) && s != []
    ensures Combinations(s, d, p) ==
              [p + [s[0]]] + (if d > 0 then Combinations(s[1..], d - 1, p + [s[0]]) else []) + Combinations(s[1..], d, p)
  {
    if d > 0 {
      assert s[0] !in s[1..];
      RemoveAbsent(s[1..], s[0]);
      assert Remove(s, s[0]) == s[1..];
    } else {
      CombineFromFlat(s[1..], s, p);
      CombineFromFlat(s[1..], s[1..], p);
      assert CombineFrom(s[1..], s, 0, p) == CombineFrom(s[1..], s[1..], 0, p);
    }
  }

  lemma DistinctTail(s: seq<Conjunct>)
    requires Distinct(s) && s != []
    ensures Distinct(s[1..]) && s[0] !in s[1..]
  {
    var t := s[1..];
    forall i, j | 0 <= i < j < |t| ensures t[i] != t[j] {
      assert t[i] == s[i + 1] && t[j] == s[j + 1];
    }
  }

  /** Every output of `combinations` over distinct entries is the prefix and a subsequence `y` of 1 to d + 1 entries. */
  lemma {:induction false} CombinationsSound(s: seq<Conjunct>, d: nat, p: RuleKey, x: RuleKey) returns (y: seq<Conjunct>)
    requires Distinct(s) && x in Combinations(s, d, p)
    ensures x == p + y && IsSubseq(y, s) && 1 <= |y| <= d + 1
    decreases |s|
  {
    assert s != [];
    var s0 := s[0];
    var t := s[1..];
    DistinctTail(s);
    assert x == p + [s0] || (d > 0 && x in Combinations(t, d - 1, p + [s0])) || x in Combinations(t, d, p) by {
      CombinationsUnfold(s, d, p);
    }
    if x == p + [s0] {
      y := [s0];
      assert y[1..] == [];
    } else if d > 0 && x in Combinations(t, d - 1, p + [s0]) {
      var y' := CombinationsSound(t, d - 1, p + [s0], x);
      y := [s0] + y';
      assert y[1..] == y';
      assert p + [s0] + y' == p + y;
    } else {
      y := CombinationsSound(t, d, p, x);
    }
  }

  /** Every such prefix and subsequence is an output. */
  lemma {:induction false} CombinationsComplete(s: seq<Conjunct>, d: nat, p: RuleKey, y: seq<Conjunct>)
    requires Distinct(s) && IsSubseq(y, s) && 1 <= |y| <= d + 1
    ensures p + y in Combinations(s, d, p)
    decreases |s|
  {
    var s0 := s[0];
    var t := s[1..];
    DistinctTail(s);
    CombinationsUnfold(s, d, p);
    if y[0] == s0 && IsSubseq(y[1..], t) {
      if |y| == 1 {
        assert y == [s0];
      } else {
        CombinationsComplete(t, d - 1, p + [s0], y[1..]);
        assert p + y == p + [s0] + y[1..];
      }
    } else {
      CombinationsComplete(t, d, p, y);
    }
  }

  /**
   * For distinct entries, the outputs of `combinations(src, d, prefix)`
   * are exactly `prefix` followed by a subsequence of `src` of length 1 to
   * d + 1.
   */
  lemma CombinationsMembers(s: seq<Conjunct>, d: nat, p: RuleKey, x: RuleKey)
    requires Distinct(s)
    ensures x in Combinations(s, d, p) <==> exists y :: x == p + y && IsSubseq(y, s) && 1 <= |y| <= d + 1
  {
    if x in Combinations(s, d, p) {
      var y := CombinationsSound(s, d, p, x);
    }
    if exists y :: x == p + y && IsSubseq(y, s) && 1 <= |y| <= d + 1 {
      var y :| x == p + y && IsSubseq(y, s) && 1 <= |y| <= d + 1;
      CombinationsComplete(s, d, p, y);
    }
  }

  lemma DistinctConcat<T>(u: seq<T>, v: seq<T>)
    requires Distinct(u) && Distinct(v)
    requires forall x :: x in u ==> x !in v
    ensures Distinct(u + v)
  {
    var w := u + v;
    forall i, j | 0 <= i < j < |w| ensures w[i] != w[j] {
      if j >= |u| && i < |u| {
        assert w[i] in u && w[j] == v[j - |u|];
      } else if i >= |u| {
        assert w[i] == v[i - |u|] && w[j] == v[j - |u|];
      }
    }
  }

  /** Distinct entries give distinct outputs: no combination is listed twice. */
  lemma {:induction false} CombinationsDistinct(s: seq<Conjunct>, d: nat, p: RuleKey)
    requires Distinct(s)
    ensures Distinct(Combinations(s, d, p))
    decreases |s|
  {
    if s == [] {
      assert Combinations(s, d, p) == [];
    } else {
      var s0 := s[0];
      var t := s[1..];
      assert Distinct(t) by {
        forall i, j | 0 <= i < j < |t| ensures t[i] != t[j] {
          assert t[i] == s[i + 1] && t[j] == s[j + 1];
        }
      }
      CombinationsUnfold(s, d, p);
      var a := [p + [s0]];
      var b := if d > 0 then Combinations(t, d - 1, p + [s0]) else [];
      var c := Combinations(t, d, p);
      CombinationsDistinct(t, d, p);
      if d > 0 {
        CombinationsDistinct(t, d - 1, p + [s0]);
      }
      forall x | x in b
        ensures |x| > |p| + 1 && x[|p|] == s0
      {
        CombinationsMembers(t, d - 1, p + [s0], x);
        var y :| x == p + [s0] + y && IsSubseq(y, t) && 1 <= |y| <= d;
      }
      forall x | x in c
        ensures |x| > |p| && x[|p|] != s0
      {
        CombinationsMembers(t, d, p, x);
        var y :| x == p + y && IsSubseq(y, t) && 1 <= |y| <= d + 1;
        SubseqElements(y, t);
        assert y[0] in y;
        assert x[|p|] == y[0];
      }
      DistinctConcat(a, b);
      DistinctConcat(a + b, c);
    }
  }

  /** Whatever the entries, every output extends `prefix` by 1 to depth + 1 of them. */
  lemma {:induction false} CombinationsShape(src: seq<Conjunct>, d: nat, p: RuleKey, x: RuleKey)
    requires x in Combinations(src, d, p)
    ensures |p| < |x| <= |p| + d + 1 && x[..|p|] == p
    ensures forall i :: |p| <= i < |x| ==> x[i] in src
    decreases d, |src| + 1
  {
    CombineFromShape(src, src, d, p, x);
  }

  lemma {:induction false} CombineFromShape(entries: seq<Conjunct>, remain: seq<Conjunct>, d: nat, p: RuleKey, x: RuleKey)
    requires x in CombineFrom(entries, remain, d, p)
    ensures |p| < |x| <= |p| + d + 1 && x[..|p|] == p
    ensures forall i :: |p| <= i < |x| ==> x[i] in entries || x[i] in remain
    decreases d, |entries|
  {
    var e := entries[0];
    assert forall c :: c in entries[1..] ==> c in entries;
    if x == p + [e] {
    } else if d > 0 {
      var remain' := Remove(remain, e);
      if x in Combinations(remain', d - 1, p + [e]) {
        CombinationsShape(remain', d - 1, p + [e], x);
        assert x[..|p|] == (x[..|p| + 1])[..|p|];
      } else {
        CombineFromShape(entries[1..], remain', d, p, x);
      }
    } else {
      CombineFromShape(entries[1..], remain, d, p, x);
    }
  }

  // ----- the statistics along a path -----

  /** Whether a rule has a conjunct of the given kind: the source's `rule.count("W:") > 0`. */
  predicate HasKind(k: RuleKey, kind: string)
  {
    k != [] && (k[0].kind == kind || HasKind(k[1..], kind))
  }

  /** The rules attributed to one step of a path, with multiplicity, and the step's length. */
  datatype StepRules = StepRules(rules: multiset<RuleKey>, len: real)

  function Plus(a: Stat, b: Stat): Stat
  {
    (a.0 + b.0, a.1 + b.1)
  }

  /**
   * What `n` uses of rule `k` on a step of length `len` add to its
   * statistic: the length of each use if `k` has a way conjunct, and one
   * per use if `k` has a node conjunct or no way conjunct.
   */
  function Contribution(n: nat, k: RuleKey, len: real): Stat
  {
    ((if HasKind(k, "W") then (n as real) * len else 0.0),
     (if HasKind(k, "N") || !HasKind(k, "W") then n as real else 0.0))
  }

  /** One more use. */
  function Bump(st: Stat, k: RuleKey, len: real): Stat
  {
    Plus(st, Contribution(1, k, len))
  }

  /** The statistic of rule `k` summed over `steps`. */
  function Tally(steps: seq<StepRules>, k: RuleKey): Stat
  {
    if steps == [] then (0.0, 0.0)
    else
      var s := steps[|steps| - 1];
      Plus(Tally(steps[..|steps| - 1], k), Contribution(s.rules[k], k, s.len))
  }

  /** The distinct elements of a multiset. */
  ghost function Support(m: multiset<RuleKey>): (r: set<RuleKey>)
    ensures forall k :: k in r <==> k in m
    decreases |m|
  {
    if m == multiset{} then {}
    else
      var x :| x in m;
      {x} + Support(m - multiset{x})
  }

  /** The rules some step uses. */
  ghost function Mentioned(steps: seq<StepRules>): set<RuleKey>
  {
    if steps == [] then {} else Mentioned(steps[..|steps| - 1]) + Support(steps[|steps| - 1].rules)
  }

  /** The dictionary the trainer builds: every rule some step uses, with its statistic. */
  ghost function Tallied(steps: seq<StepRules>): map<RuleKey, Stat>
  {
    map k | k in Mentioned(steps) :: Tally(steps, k)
  }

  /** The entry of a dictionary, or (0, 0) when the key is absent. */
  function StatOf(m: map<RuleKey, Stat>, k: RuleKey): Stat
  {
    if k in m then m[k] else (0.0, 0.0)
  }

  lemma {:induction false} MentionedSome(steps: seq<StepRules>, k: RuleKey)
    ensures k in Mentioned(steps) <==> exists i :: 0 <= i < |steps| && k in steps[i].rules
  {
    if steps != [] {
      var front := steps[..|steps| - 1];
      MentionedSome(front, k);
      if exists i :: 0 <= i < |front| && k in front[i].rules {
        var i :| 0 <= i < |front| && k in front[i].rules;
        assert steps[i] == front[i];
      }
      if exists i :: 0 <= i < |steps| && k in steps[i].rules {
        var i :| 0 <= i < |steps| && k in steps[i].rules;
        if i < |front| {
          assert front[i] == steps[i];
        }
      }
    }
  }

  /** A rule no step uses has the statistic (0, 0). */
  lemma {:induction false} TallyUnmentioned(steps: seq<StepRules>, k: RuleKey)
    requires k !in Mentioned(steps)
    ensures Tally(steps, k) == (0.0, 0.0)
  {
    if steps != [] {
      TallyUnmentioned(steps[..|steps| - 1], k);
    }
  }

  /**
   * Rules without a way conjunct collect no length, and rules with a way
   * conjunct but no node conjunct collect no count.
   */
  lemma {:induction false} TallyKinds(steps: seq<StepRules>, k: RuleKey)
    ensures !HasKind(k, "W") ==> Tally(steps, k).0 == 0.0
    ensures HasKind(k, "W") && !HasKind(k, "N") ==> Tally(steps, k).1 == 0.0
  {
    if steps != [] {
      TallyKinds(steps[..|steps| - 1], k);
    }
  }

  /** On a path of non-negative lengths both components are non-negative. */
  lemma {:induction false} TallyNonNegative(steps: seq<StepRules>, k: RuleKey)
    requires forall i :: 0 <= i < |steps| ==> 0.0 <= steps[i].len
    ensures 0.0 <= Tally(steps, k).0 && 0.0 <= Tally(steps, k).1
  {
    if steps != [] {
      var front := steps[..|steps| - 1];
      assert forall i :: 0 <= i < |front| ==> front[i] == steps[i];
      TallyNonNegative(front, k);
      var s := steps[|steps| - 1];
      assert 0.0 <= (s.rules[k] as real) * s.len;
    }
  }

  /** A rule used at most once per step has a count of at most the number of steps. */
  lemma {:induction false} TallyOncePerStep(steps: seq<StepRules>, k: RuleKey)
    requires forall i :: 0 <= i < |steps| ==> steps[i].rules[k] <= 1
    ensures Tally(steps, k).1 <= |steps| as real
  {
    if steps != [] {
      var front := steps[..|steps| - 1];
      assert forall i :: 0 <= i < |front| ==> front[i] == steps[i];
      TallyOncePerStep(front, k);
    }
  }

  lemma MentionedSnoc(steps: seq<StepRules>, m: multiset<RuleKey>, len: real)
    ensures Mentioned(steps + [StepRules(m, len)]) == Mentioned(steps) + Support(m)
  {
    var s := steps + [StepRules(m, len)];
    assert s[..|s| - 1] == steps;
  }

  lemma TallySnoc(steps: seq<StepRules>, m: multiset<RuleKey>, len: real, k: RuleKey)
    ensures Tally(steps + [StepRules(m, len)], k) == Plus(Tally(steps, k), Contribution(m[k], k, len))
  {
    var s := steps + [StepRules(m, len)];
    assert s[..|s| - 1] == steps;
  }

  lemma ContributionSucc(n: nat, k: RuleKey, len: real)
    ensures Contribution(n + 1, k, len) == Plus(Contribution(n, k, len), Contribution(1, k, len))
  {
    var m := n as real;
    assert (n + 1) as real == m + 1.0;
    assert (1 as real) == 1.0;
    assert (m + 1.0) * len == m * len + 1.0 * len;
    var lhs := Contribution(n + 1, k, len);
    var rhs := Plus(Contribution(n, k, len), Contribution(1, k, len));
    assert lhs.0 == rhs.0;
    assert lhs.1 == rhs.1;
  }

  /** An empty step changes nothing. */
  lemma TalliedEmptyStep(steps: seq<StepRules>, len: real)
    ensures Tallied(steps + [StepRules(multiset{}, len)]) == Tallied(steps)
  {
    MentionedSnoc(steps, multiset{}, len);
    assert Support(multiset{}) == {};
    forall k | k in Mentioned(steps) ensures Tally(steps + [StepRules(multiset{}, len)], k) == Tally(steps, k) {
      TallySnoc(steps, multiset{}, len, k);
    }
  }

  /**
   * One more use of `rule` on the last step bumps its entry (treating a
   * missing entry as (0, 0)) and leaves every other entry alone.
   */
  lemma MentionedBump(steps: seq<StepRules>, done: multiset<RuleKey>, len: real, rule: RuleKey)
    ensures Mentioned(steps + [StepRules(done + multiset{rule}, len)]) == Mentioned(steps + [StepRules(done, len)]) + {rule}
  {
    MentionedSnoc(steps, done, len);
    MentionedSnoc(steps, done + multiset{rule}, len);
    assert Support(done + multiset{rule}) == Support(done) + {rule};
  }

  lemma TallyBump(steps: seq<StepRules>, done: multiset<RuleKey>, len: real, rule: RuleKey, k: RuleKey)
    ensures var before := steps + [StepRules(done, len)];
            Tally(steps + [StepRules(done + multiset{rule}, len)], k) ==
              if k == rule then Bump(Tally(before, k), k, len) else Tally(before, k)
  {
    TallySnoc(steps, done, len, k);
    TallySnoc(steps, done + multiset{rule}, len, k);
    if k == rule {
      ContributionSucc(done[rule], rule, len);
    }
  }

  /** The map form of `TallyBump`: the bumped tally is the old one with `rule` bumped. */
  lemma TalliedBumpMap(steps: seq<StepRules>, done: multiset<RuleKey>, len: real, rule: RuleKey)
    ensures var before := steps + [StepRules(done, len)];
            Tallied(steps + [StepRules(done + multiset{rule}, len)]) ==
              Tallied(before)[rule := Bump(Tally(before, rule), rule, len)]
  {
    var before := steps + [StepRules(done, len)];
    var after := steps + [StepRules(done + multiset{rule}, len)];
    var lhs := Tallied(after);
    var rhs := Tallied(before)[rule := Bump(Tally(before, rule), rule, len)];
    MentionedBump(steps, done, len, rule);
    assert lhs.Keys == rhs.Keys;
    forall k | k in lhs.Keys ensures lhs[k] == rhs[k] {
      TallyBump(steps, done, len, rule, k);
    }
  }

  /** The entry of a tally, with absent keys read as (0, 0), is the rule's statistic. */
  lemma StatOfTallied(steps: seq<StepRules>, k: RuleKey)
    ensures StatOf(Tallied(steps), k) == Tally(steps, k)
  {
    if k !in Tallied(steps) {
      TallyUnmentioned(steps, k);
    }
  }

  /**
   * One more use of `rule` on the last step bumps its entry (treating a
   * missing entry as (0, 0)) and leaves every other entry alone.
   */
  lemma TalliedBump(steps: seq<StepRules>, done: multiset<RuleKey>, len: real, rule: RuleKey, r: map<RuleKey, Stat>)
    requires r == Tallied(steps + [StepRules(done, len)])
    ensures Tallied(steps + [StepRules(done + multiset{rule}, len)]) == r[rule := Bump(StatOf(r, rule), rule, len)]
    ensures !HasKind(rule, "W") ==> StatOf(r, rule).0 == 0.0
    ensures HasKind(rule, "W") && !HasKind(rule, "N") ==> StatOf(r, rule).1 == 0.0
  {
    var before := steps + [StepRules(done, len)];
    StatOfTallied(before, rule);
    TalliedBumpMap(steps, done, len, rule);
    TallyKinds(before, rule);
  }

  // ----- rules fired on a path: usedTagsFromPath -----

  /** Every step names a stored way and a stored node. */
  predicate StoredPath(g: Graph, path: seq<Step>)
  {
    forall i :: 0 <= i < |path| ==> path[i].wid in g.ways && path[i].nid in g.nodes
  }

  /** The edge step `i` walks: from the previous step's node (the start node itself for the first step) along its way. */
  function StepEdge(g: Graph, path: seq<Step>, i: nat): Edge
    requires StoredPath(g, path) && i < |path|
  {
    var prev := if i == 0 then path[0].nid else path[i - 1].nid;
    Edge(g.nodes[prev].tags, g.nodes[path[i].nid].tags, g.ways[path[i].wid].tags)
  }

  /** A set as a multiset in which each of its elements occurs once. */
  ghost function Once(s: set<RuleKey>): (m: multiset<RuleKey>)
    ensures forall k :: m[k] == if k in s then 1 else 0
    decreases |s|
  {
    if s == {} then multiset{}
    else
      var x :| x in s;
      Once(s - {x}) + multiset{x}
  }

  lemma ListingOnce(keys: seq<RuleKey>, s: set<RuleKey>)
    requires Distinct(keys) && forall c :: c in keys <==> c in s
    ensures multiset(keys) == Once(s)
  {
    forall k ensures multiset(keys)[k] == Once(s)[k] {
      DistinctOnce(keys, k);
    }
  }

  /** Step `i` attributed to the rules the evaluator fires on its edge, each once. */
  ghost function UsedAt(g: Graph, override: bool, t: Tree, path: seq<Step>, i: nat): StepRules
    requires StoredPath(g, path) && i < |path|
  {
    StepRules(Once(FiredRules(override, t, StepEdge(g, path, i)).Keys), path[i].len)
  }

  /** The first `n` steps so attributed. */
  ghost function UsedSteps(g: Graph, override: bool, t: Tree, path: seq<Step>, n: nat): (r: seq<StepRules>)
    requires StoredPath(g, path) && n <= |path|
    ensures |r| == n
  {
    if n == 0 then [] else UsedSteps(g, override, t, path, n - 1) + [UsedAt(g, override, t, path, n - 1)]
  }

  lemma {:induction false} UsedStepsAt(g: Graph, override: bool, t: Tree, path: seq<Step>, n: nat, i: nat)
    requires StoredPath(g, path) && i < n <= |path|
    ensures UsedSteps(g, override, t, path, n)[i] == UsedAt(g, override, t, path, i)
  {
    if i < n - 1 {
      UsedStepsAt(g, override, t, path, n - 1, i);
    }
  }

  /** The update of `usedTagsFromPath` for one fired rule on a step of length `length`. */
  method BumpUsed(r: map<RuleKey, Stat>, rule: RuleKey, length: real, ghost steps: seq<StepRules>, ghost done: multiset<RuleKey>)
    returns (r': map<RuleKey, Stat>)
    requires r == Tallied(steps + [StepRules(done, length)])
    ensures r' == Tallied(steps + [StepRules(done + multiset{rule}, length)])
  {
    var oldlength, oldcount := 0.0, 0.0;
    if rule in r {
      oldlength, oldcount := r[rule].0, r[rule].1;
    }
    TalliedBump(steps, done, length, rule, r);
    ghost var want := Bump(StatOf(r, rule), rule, length);
    if HasKind(rule, "W") {
      if HasKind(rule, "N") {
        assert want == (oldlength + length, oldcount + 1.0);
        r' := r[rule := (oldlength + length, oldcount + 1.0)];
      } else {
        assert want == (oldlength + length, oldcount);
        r' := r[rule := (oldlength + length, oldcount)];
      }
    } else {
      assert want == (oldlength, oldcount + 1.0);
      r' := r[rule := (oldlength, oldcount + 1.0)];
    }
  }

  /** Adds one step's fired rules, each used once, to the dictionary, in the order the set lists them. */
  method AddUsed(allTags: map<RuleKey, Stat>, used: set<RuleKey>, length: real, ghost steps: seq<StepRules>)
    returns (r: map<RuleKey, Stat>)
    requires allTags == Tallied(steps)
    ensures r == Tallied(steps + [StepRules(Once(used), length)])
  {
    r := allTags;
    var keys := ListOf(used);
    ListingOnce(keys, used);
    TalliedEmptyStep(steps, length);
    for j := 0 to |keys|
      invariant r == Tallied(steps + [StepRules(multiset(keys[..j]), length)])
    {
      r := BumpUsed(r, keys[j], length, steps, multiset(keys[..j]));
      assert keys[..j + 1] == keys[..j] + [keys[j]];
    }
    assert keys[..|keys|] == keys;
  }

  /**
   * `usedTagsFromPath(path, rules)`: the rules fired on each step's edge,
   * the first step pairing the start node with itself, each with the
   * length of the steps it fired on (way rules) and the number of those
   * steps (node rules, or rules without a way conjunct). The source reads
   * `path[0]` and so needs a non-empty path.
   */
  method UsedTagsFromPath(g: Graph, override: bool, t: Tree, path: seq<Step>) returns (allTags: map<RuleKey, Stat>)
    requires |path| > 0 && StoredPath(g, path)
    ensures allTags == Tallied(UsedSteps(g, override, t, path, |path|))
  {
    allTags := map[];
    assert Tallied([]) == map[];
    var lastnode := g.nodes[path[0].nid];
    for i := 0 to |path|
      invariant allTags == Tallied(UsedSteps(g, override, t, path, i))
      invariant lastnode == g.nodes[if i == 0 then path[0].nid else path[i - 1].nid]
    {
      var way := g.ways[path[i].wid];
      var nextnode := g.nodes[path[i].nid];
      var used := FiredRules(override, t, Edge(lastnode.tags, nextnode.tags, way.tags));
      assert Edge(lastnode.tags, nextnode.tags, way.tags) == StepEdge(g, path, i);
      lastnode := nextnode;
      allTags := AddUsed(allTags, used.Keys, path[i].len, UsedSteps(g, override, t, path, i));
    }
  }

  /** The keys are exactly the rules fired on some step. */
  lemma UsedKeys(g: Graph, override: bool, t: Tree, path: seq<Step>, k: RuleKey)
    requires StoredPath(g, path)
    ensures k in Tallied(UsedSteps(g, override, t, path, |path|)) <==>
              exists i :: 0 <= i < |path| && k in FiredRules(override, t, StepEdge(g, path, i))
  {
    var steps := UsedSteps(g, override, t, path, |path|);
    MentionedSome(steps, k);
    if exists i :: 0 <= i < |path| && k in FiredRules(override, t, StepEdge(g, path, i)) {
      var i :| 0 <= i < |path| && k in FiredRules(override, t, StepEdge(g, path, i));
      UsedStepsAt(g, override, t, path, |path|, i);
      assert k in steps[i].rules;
    }
    if k in Tallied(steps) {
      var i :| 0 <= i < |steps| && k in steps[i].rules;
      UsedStepsAt(g, override, t, path, |path|, i);
    }
  }

  // ----- candidate rules of a path: tagsFromPath -----

  /** Tags the trainer disregards altogether. */
  const KillTags: set<string> := {
    "source", "source:geometry", "source:maxspeed", "name", "note", "area", "wikidata", "layer", "railway:pos",
    "wikipedia", "ref", "old_old_name", "old_name", "ref:RNV:RBL", "start_date", "created_by", "railway:signal:speed_limit",
    "end_date", "workrules", "operator", "destination", "admin_level", "railway:position", "railway:position:exact",
    "railway:signal:crossing:states", "ele", "railway:signal:position", "lcn_ref"
  }

  /** The conjunct of the given kind for a tag that is not disregarded. */
  ghost predicate ConjunctOf(kind: string, tags: Tags, c: Conjunct)
  {
    exists j :: 0 <= j < |tags| && tags[j].0 !in KillTags && c == Conjunct(kind, ItemOf(tags[j].0, tags[j].1))
  }

  /** `ctags`: "W:tag==value" for the way's tags that are not disregarded, in dictionary order. */
  function WayConjuncts(tags: Tags): (r: seq<Conjunct>)
    ensures forall c :: c in r <==> ConjunctOf("W", tags, c)
  {
    if tags == [] then []
    else
      var rest := WayConjuncts(tags[1..]);
      assert forall c :: ConjunctOf("W", tags[1..], c) ==> ConjunctOf("W", tags, c) by {
        forall c | ConjunctOf("W", tags[1..], c) ensures ConjunctOf("W", tags, c) {
          var j :| 0 <= j < |tags| - 1 && tags[1..][j].0 !in KillTags && c == Conjunct("W", ItemOf(tags[1..][j].0, tags[1..][j].1));
          assert tags[j + 1] == tags[1..][j];
        }
      }
      assert forall c :: ConjunctOf("W", tags, c) ==>
               (c == Conjunct("W", ItemOf(tags[0].0, tags[0].1)) && tags[0].0 !in KillTags) || ConjunctOf("W", tags[1..], c) by {
        forall c | ConjunctOf("W", tags, c)
          ensures (c == Conjunct("W", ItemOf(tags[0].0, tags[0].1)) && tags[0].0 !in KillTags) || ConjunctOf("W", tags[1..], c)
        {
          var j :| 0 <= j < |tags| && tags[j].0 !in KillTags && c == Conjunct("W", ItemOf(tags[j].0, tags[j].1));
          if j > 0 {
            assert tags[1..][j - 1] == tags[j];
          }
        }
      }
      if tags[0].0 in KillTags then rest else [Conjunct("W", ItemOf(tags[0].0, tags[0].1))] + rest
  }

  /** `newTags`: the set of "N:tag==value" for the node's tags that are not disregarded. */
  function NodeConjuncts(tags: Tags): (r: set<Conjunct>)
    ensures forall c :: c in r <==> ConjunctOf("N", tags, c)
  {
    set j | 0 <= j < |tags| && tags[j].0 !in KillTags :: Conjunct("N", ItemOf(tags[j].0, tags[j].1))
  }

  /** `ntags` at step `i`: the node tags of this step's node and of the previous step's node. */
  function NodeTagsAt(g: Graph, path: seq<Step>, i: nat): set<Conjunct>
    requires StoredPath(g, path) && i < |path|
  {
    NodeConjuncts(g.nodes[path[i].nid].tags) + (if i == 0 then {} else NodeConjuncts(g.nodes[path[i - 1].nid].tags))
  }

  /** `list(s)`: a duplicate-free listing of a set, in an order the set chooses. */
  method ListOf<T>(s: set<T>) returns (r: seq<T>)
    ensures Distinct(r)
    ensures forall c :: c in r <==> c in s
  {
    r := [];
    var todo := s;
    while todo != {}
      invariant todo <= s
      invariant Distinct(r)
      invariant forall c :: c in r <==> c in s && c !in todo
      decreases |todo|
    {
      var c :| c in todo;
      r := r + [c];
      todo := todo - {c};
    }
  }

  /** The orders in which the node tags of each step were listed. */
  ghost predicate NodeOrders(g: Graph, path: seq<Step>, orders: seq<seq<Conjunct>>)
    requires StoredPath(g, path)
  {
    && |orders| == |path|
    && forall i :: 0 <= i < |path| ==> ListedAt(g, path, i, orders[i])
  }

  /** `order` lists the node conjuncts of step `i` without repetition. */
  ghost predicate ListedAt(g: Graph, path: seq<Step>, i: nat, order: seq<Conjunct>)
    requires StoredPath(g, path) && i < |path|
  {
    Distinct(order) && forall c :: c in order <==> c in NodeTagsAt(g, path, i)
  }

  /** `atags` at step `i`: the way conjuncts, then the node conjuncts in their listed order. */
  function ATags(g: Graph, path: seq<Step>, orders: seq<seq<Conjunct>>, i: nat): seq<Conjunct>
    requires StoredPath(g, path) && |orders| == |path| && i < |path|
  {
    WayConjuncts(g.ways[path[i].wid].tags) + orders[i]
  }

  /** Step `i` attributed to all combinations up to `depth` of its way conjuncts and its node conjuncts listed as `order`. */
  ghost function TagAt(g: Graph, path: seq<Step>, depth: nat, i: nat, order: seq<Conjunct>): StepRules
    requires StoredPath(g, path) && i < |path|
  {
    StepRules(multiset(Combinations(WayConjuncts(g.ways[path[i].wid].tags) + order, depth, [])), path[i].len)
  }

  /** The first `n` steps, each attributed to all combinations of its tags up to `depth`. */
  ghost function TagSteps(g: Graph, path: seq<Step>, depth: nat, orders: seq<seq<Conjunct>>, n: nat): (r: seq<StepRules>)
    requires StoredPath(g, path) && n <= |path| && n <= |orders|
    ensures |r| == n
  {
    if n == 0 then [] else TagSteps(g, path, depth, orders, n - 1) + [TagAt(g, path, depth, n - 1, orders[n - 1])]
  }

  lemma {:induction false} TagStepsAt(g: Graph, path: seq<Step>, depth: nat, orders: seq<seq<Conjunct>>, n: nat, i: nat)
    requires StoredPath(g, path) && n <= |path| && n <= |orders| && i < n
    ensures TagSteps(g, path, depth, orders, n)[i] == TagAt(g, path, depth, i, orders[i])
  {
    if i < n - 1 {
      TagStepsAt(g, path, depth, orders, n - 1, i);
    }
  }

  /** Orders listed after the first `n` steps do not change them. */
  lemma {:induction false} TagStepsPrefix(g: Graph, path: seq<Step>, depth: nat, orders: seq<seq<Conjunct>>, o: seq<Conjunct>, n: nat)
    requires StoredPath(g, path) && n <= |path| && n <= |orders|
    ensures TagSteps(g, path, depth, orders + [o], n) == TagSteps(g, path, depth, orders, n)
  {
    if n > 0 {
      TagStepsPrefix(g, path, depth, orders, o, n - 1);
      assert (orders + [o])[n - 1] == orders[n - 1];
    }
  }

  /** Adds one step's combinations, in order, to the dictionary. */
  method AddCandidates(allTags: map<RuleKey, Stat>, combined: seq<RuleKey>, length: real, ghost steps: seq<StepRules>)
    returns (r: map<RuleKey, Stat>)
    requires allTags == Tallied(steps)
    ensures r == Tallied(steps + [StepRules(multiset(combined), length)])
  {
    r := allTags;
    TalliedEmptyStep(steps, length);
    for j := 0 to |combined|
      invariant r == Tallied(steps + [StepRules(multiset(combined[..j]), length)])
    {
      r := BumpCandidate(r, combined[j], length, steps, multiset(combined[..j]));
      assert combined[..j + 1] == combined[..j] + [combined[j]];
    }
    assert combined[..|combined|] == combined;
  }

  /** The update of `tagsFromPath` for one occurrence of candidate `ctag` on a step of length `length`. */
  method BumpCandidate(r: map<RuleKey, Stat>, ctag: RuleKey, length: real, ghost steps: seq<StepRules>, ghost done: multiset<RuleKey>)
    returns (r': map<RuleKey, Stat>)
    requires r == Tallied(steps + [StepRules(done, length)])
    ensures r' == Tallied(steps + [StepRules(done + multiset{ctag}, length)])
  {
    TalliedBump(steps, done, length, ctag, r);
    ghost var want := Bump(StatOf(r, ctag), ctag, length);
    if ctag in r {
      var (l, c) := r[ctag];
      if HasKind(ctag, "W") {
        if HasKind(ctag, "N") {
          assert want == (l + length, c + 1.0);
          r' := r[ctag := (l + length, c + 1.0)];
        } else {
          assert want == (l + length, 0.0);
          r' := r[ctag := (l + length, 0.0)];
        }
      } else {
        assert want == (0.0, c + 1.0);
        r' := r[ctag := (0.0, c + 1.0)];
      }
    } else {
      if HasKind(ctag, "W") {
        if HasKind(ctag, "N") {
          assert want == (length, 1.0);
          r' := r[ctag := (length, 1.0)];
        } else {
          assert want == (length, 0.0);
          r' := r[ctag := (length, 0.0)];
        }
      } else {
        assert want == (0.0, 1.0);
        r' := r[ctag := (0.0, 1.0)];
      }
    }
  }

  /**
   * `tagsFromPath(path, depth)`: every combination up to `depth` of the
   * step's way tags and the node tags of its node and of the previous
   * node, each with the length of the steps it occurs on (rules with a way
   * conjunct) and the number of its occurrences (rules with a node
   * conjunct or without a way conjunct). Way rules without a node conjunct
   * get count 0 and rules without a way conjunct get length 0. `orders`
   * reports the order in which each step listed its node-tag set.
   */
  method TagsFromPath(g: Graph, path: seq<Step>, depth: nat) returns (allTags: map<RuleKey, Stat>, ghost orders: seq<seq<Conjunct>>)
    requires StoredPath(g, path)
    ensures NodeOrders(g, path, orders)
    ensures allTags == Tallied(TagSteps(g, path, depth, orders, |path|))
  {
    allTags := map[];
    orders := [];
    assert Tallied([]) == map[];
    var lastTags: set<Conjunct> := {};
    for i := 0 to |path|
      invariant |orders| == i
      invariant forall j :: 0 <= j < i ==> ListedAt(g, path, j, orders[j])
      invariant lastTags == if i == 0 then {} else NodeConjuncts(g.nodes[path[i - 1].nid].tags)
      invariant allTags == Tallied(TagSteps(g, path, depth, orders, i))
    {
      var way := g.ways[path[i].wid];
      var node := g.nodes[path[i].nid];
      var ctags := WayConjuncts(way.tags);
      var newTags := NodeConjuncts(node.tags);
      var ntags := newTags + lastTags;
      lastTags := newTags;
      var order := ListOf(ntags);
      var atags := ctags + order;
      var combined := Combinations(atags, depth, []);
      allTags := AddCandidates(allTags, combined, path[i].len, TagSteps(g, path, depth, orders, i));
      assert ListedAt(g, path, i, order);
      TagStepsPrefix(g, path, depth, orders, order, i);
      assert (orders + [order])[i] == order;
      assert TagAt(g, path, depth, i, order) == StepRules(multiset(combined), path[i].len);
      ghost var next := orders + [order];
      forall j | 0 <= j <= i ensures ListedAt(g, path, j, next[j]) {
        if j < i {
          assert next[j] == orders[j];
        }
      }
      orders := next;
    }
  }

  /** All conjuncts a candidate rule of step `i` may be built from. */
  ghost predicate OfStep(g: Graph, path: seq<Step>, i: nat, c: Conjunct)
    requires StoredPath(g, path) && i < |path|
  {
    || ConjunctOf("W", g.ways[path[i].wid].tags, c)
    || ConjunctOf("N", g.nodes[path[i].nid].tags, c)
    || (i > 0 && ConjunctOf("N", g.nodes[path[i - 1].nid].tags, c))
  }

  /** Every conjunct of `k` is one step `i` may be built from. */
  ghost predicate BuiltAt(g: Graph, path: seq<Step>, i: nat, k: RuleKey)
    requires StoredPath(g, path) && i < |path|
  {
    forall j :: 0 <= j < |k| ==> OfStep(g, path, i, k[j])
  }

  /**
   * Every candidate rule is a non-empty conjunction, of at most depth + 1
   * conjuncts, of the tags of one step: its way, its node and the previous
   * node, none of them disregarded.
   */
  lemma TagKeysFromOneStep(g: Graph, path: seq<Step>, depth: nat, orders: seq<seq<Conjunct>>, k: RuleKey)
    requires StoredPath(g, path) && NodeOrders(g, path, orders)
    requires k in Tallied(TagSteps(g, path, depth, orders, |path|))
    ensures 0 < |k| <= depth + 1
    ensures exists i :: 0 <= i < |path| && BuiltAt(g, path, i, k)
  {
    var steps := TagSteps(g, path, depth, orders, |path|);
    MentionedSome(steps, k);
    var i :| 0 <= i < |steps| && k in steps[i].rules;
    var combined := Combinations(ATags(g, path, orders, i), depth, []);
    TagStepsAt(g, path, depth, orders, |path|, i);
    assert steps[i] == StepRules(multiset(combined), path[i].len);
    assert k in combined;
    StepCandidate(g, path, depth, orders, i, k);
  }

  lemma StepCandidate(g: Graph, path: seq<Step>, depth: nat, orders: seq<seq<Conjunct>>, i: nat, k: RuleKey)
    requires StoredPath(g, path) && NodeOrders(g, path, orders) && i < |path|
    requires k in Combinations(ATags(g, path, orders, i), depth, [])
    ensures 0 < |k| <= depth + 1
    ensures BuiltAt(g, path, i, k)
  {
    var atags := ATags(g, path, orders, i);
    CombinationsShape(atags, depth, [], k);
    forall j | 0 <= j < |k| ensures OfStep(g, path, i, k[j]) {
      assert k[j] in atags;
      if k[j] !in WayConjuncts(g.ways[path[i].wid].tags) {
        assert k[j] in NodeTagsAt(g, path, i);
      }
    }
  }

  /** Candidate rules are made of "N" and "W" conjuncts only and never mention a disregarded tag. */
  lemma OfStepKinds(g: Graph, path: seq<Step>, i: nat, c: Conjunct)
    requires StoredPath(g, path) && i < |path| && OfStep(g, path, i, c)
    ensures c.kind == "N" || c.kind == "W"
    ensures exists tag, value :: tag !in KillTags && c.item == ItemOf(tag, value)
  {
  }

  /**
   * When the tags of a step are listed without repetition, each candidate
   * rule occurs at most once on that step, so its count never exceeds the
   * number of steps.
   */
  lemma TagCountAtMostSteps(g: Graph, path: seq<Step>, depth: nat, orders: seq<seq<Conjunct>>, k: RuleKey)
    requires StoredPath(g, path) && NodeOrders(g, path, orders)
    requires forall i :: 0 <= i < |path| ==> Distinct(ATags(g, path, orders, i))
    ensures Tally(TagSteps(g, path, depth, orders, |path|), k).1 <= |path| as real
  {
    var steps := TagSteps(g, path, depth, orders, |path|);
    forall i | 0 <= i < |steps| ensures steps[i].rules[k] <= 1 {
      var combined := Combinations(ATags(g, path, orders, i), depth, []);
      TagStepsAt(g, path, depth, orders, |path|, i);
      CombinationsDistinct(ATags(g, path, orders, i), depth, []);
      DistinctOnce(combined, k);
    }
    TallyOncePerStep(steps, k);
  }

  lemma {:induction false} DistinctOnce<T>(s: seq<T>, x: T)
    requires Distinct(s)
    ensures multiset(s)[x] <= 1
  {
    if s != [] {
      var t := s[1..];
      assert s == [s[0]] + t;
      assert Distinct(t) by {
        forall i, j | 0 <= i < j < |t| ensures t[i] != t[j] {
          assert t[i] == s[i + 1] && t[j] == s[j + 1];
        }
      }
      DistinctOnce(t, x);
      if x == s[0] {
        assert x !in t;
      }
    }
  }
}
