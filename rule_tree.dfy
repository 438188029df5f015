/**
 * The rule store: flat rule keys such as "W:highway==primary && W:sidewalk==both"
 * and the nested tree that `rulesToDictTuple` builds from a map of them.
 *
 * A flat key is kept as the list of its conjuncts; the conjunct "K:key==value"
 * has kind "K" and item "key==value". The tree is a pair of dictionaries, the
 * node-scoped one and the way-scoped one, each mapping an item to its weight
 * pair and to the tree of the conjunctions that continue it.
 */
module RuleTree {
  import opened Wrappers

  /** (distance factor, fixed penalty) */
  type Weight = (real, real)

  const Zero: Weight := (0.0, 0.0)

  datatype Conjunct = Conjunct(kind: string, item: string)

  type RuleKey = seq<Conjunct>

  /** Which of the two dictionaries a conjunct is looked up in. */
  datatype Scope = NodeScope | WayScope

  /** Kind "N" selects the node dictionary; every other kind selects the way dictionary. */
  function ScopeOf(kind: string): Scope
  {
    if kind == "N" then NodeScope else WayScope
  }

  /** One step of a walk down the tree. */
  datatype Pos = Pos(scope: Scope, item: string)

  function PosOf(c: Conjunct): Pos
  {
    Pos(ScopeOf(c.kind), c.item)
  }

  /** The walk down the tree that a flat key describes. */
  function PathOf(key: RuleKey): seq<Pos>
  {
    seq(|key|, i requires 0 <= i < |key| => PosOf(key[i]))
  }

  datatype Entry = Entry(weight: Weight, sub: Tree)

  datatype Tree = Tree(node: map<string, Entry>, way: map<string, Entry>)

  const Empty: Tree := Tree(map[], map[])

  function Dict(t: Tree, s: Scope): map<string, Entry>
  {
    if s == NodeScope then t.node else t.way
  }

  function WithDict(t: Tree, s: Scope, d: map<string, Entry>): Tree
  {
    if s == NodeScope then t.(node := d) else t.(way := d)
  }

  /** The weight of the entry that walk `p` reaches, if there is one. */
  function Get(t: Tree, p: seq<Pos>): Option<Weight>
  {
    if p == [] then None
    else
      var d := Dict(t, p[0].scope);
      if p[0].item !in d then None
      else if |p| == 1 then Some(d[p[0].item].weight)
      else Get(d[p[0].item].sub, p[1..])
  }

  predicate IsProperPrefix(p: seq<Pos>, q: seq<Pos>)
  {
    0 < |p| < |q| && p == q[..|p|]
  }

  /**
   * Inserts one flat rule, as one call of `rulesToDictTuple` does for one item:
   * a last conjunct sets the weight and keeps the children, an inner conjunct
   * keeps its weight (or creates the entry with weight (0,0)) and recurses.
   */
  function Insert(t: Tree, key: RuleKey, w: Weight): Tree
    requires key != []
    decreases key
  {
    var s := ScopeOf(key[0].kind);
    var item := key[0].item;
    var d := Dict(t, s);
    if |key| == 1 then
      WithDict(t, s, d[item := Entry(w, if item in d then d[item].sub else Empty)])
    else if item in d then
      WithDict(t, s, d[item := Entry(d[item].weight, Insert(d[item].sub, key[1..], w))])
    else
      WithDict(t, s, d[item := Entry(Zero, Insert(Empty, key[1..], w))])
  }

  lemma PathOfTail(key: RuleKey)
    requires key != []
    ensures PathOf(key[1..]) == PathOf(key)[1..]
    ensures PathOf(key)[0] == PosOf(key[0])
  {
  }

  /**
   * After inserting `key` with weight `w`, the walk of `key` reaches `w`;
   * each proper prefix walk that reached nothing now reaches (0,0); every
   * other walk reaches what it reached before.
   */
  lemma {:induction false} InsertGet(t: Tree, key: RuleKey, w: Weight, p: seq<Pos>)
    requires key != []
    decreases key
    ensures Get(Insert(t, key, w), p) ==
              if p == PathOf(key) then Some(w)
              else if IsProperPrefix(p, PathOf(key)) && Get(t, p) == None then Some(Zero)
              else Get(t, p)
  {
    var r := Insert(t, key, w);
    var q := PathOf(key);
    PathOfTail(key);
    if p == [] {
      return;
    }
    var s := ScopeOf(key[0].kind);
    var item := key[0].item;
    if p[0] != Pos(s, item) {
      assert p != q && !IsProperPrefix(p, q) by { assert q[0] == Pos(s, item); }
      if p[0].scope == s {
        assert Dict(r, s) == Dict(t, s)[item := Dict(r, s)[item]];
      } else {
        assert Dict(r, p[0].scope) == Dict(t, p[0].scope);
      }
      return;
    }
    var d := Dict(t, s);
    assert Dict(r, s)[item] == (if |key| == 1 then Entry(w, if item in d then d[item].sub else Empty)
                                else if item in d then Entry(d[item].weight, Insert(d[item].sub, key[1..], w))
                                else Entry(Zero, Insert(Empty, key[1..], w)));
    if |p| == 1 {
      assert p == q <==> |key| == 1;
      assert IsProperPrefix(p, q) <==> |key| > 1;
      return;
    }
    assert p == q <==> p[1..] == q[1..];
    assert IsProperPrefix(p, q) <==> IsProperPrefix(p[1..], q[1..]);
    var old_sub := if item in d then d[item].sub else Empty;
    assert Get(t, p) == Get(old_sub, p[1..]);
    if |key| > 1 {
      InsertGet(old_sub, key[1..], w, p[1..]);
    } else {
      assert p != q && !IsProperPrefix(p, q);
    }
  }

  /** The last key of `order` whose walk is `p`: in Python a later write wins. */
  function LastWithPath(order: seq<RuleKey>, p: seq<Pos>): (r: Option<RuleKey>)
    ensures r.Some? ==> r.value in order && PathOf(r.value) == p
    ensures r.None? ==> forall k :: k in order ==> PathOf(k) != p
  {
    if order == [] then None
    else if PathOf(order[|order| - 1]) == p then Some(order[|order| - 1])
    else
      var r := LastWithPath(order[..|order| - 1], p);
      assert forall k :: k in order ==> k in order[..|order| - 1] || k == order[|order| - 1];
      r
  }

  ghost predicate PrefixOfSome(order: seq<RuleKey>, p: seq<Pos>)
  {
    exists k :: k in order && IsProperPrefix(p, PathOf(k))
  }

  /**
   * What the tree built by iterating `rules` in `order` holds at walk `p`:
   * the weight of the last key with that walk; (0,0) for a proper prefix of
   * some key's walk; nothing otherwise.
   */
  ghost function ExpectedIn(rules: map<RuleKey, Weight>, order: seq<RuleKey>, p: seq<Pos>): Option<Weight>
    requires forall k :: k in order ==> k in rules
  {
    match LastWithPath(order, p)
    case Some(k) => Some(rules[k])
    case None => if PrefixOfSome(order, p) then Some(Zero) else None
  }

  lemma ExpectedInSnoc(rules: map<RuleKey, Weight>, order: seq<RuleKey>, k: RuleKey, p: seq<Pos>)
    requires forall k' :: k' in order ==> k' in rules
    requires k in rules
    ensures forall k' :: k' in order + [k] ==> k' in rules
    ensures ExpectedIn(rules, order + [k], p) ==
              if p == PathOf(k) then Some(rules[k])
              else if IsProperPrefix(p, PathOf(k)) && ExpectedIn(rules, order, p) == None then Some(Zero)
              else ExpectedIn(rules, order, p)
  {
    var o := order + [k];
    assert o[..|o| - 1] == order;
    assert forall k' :: k' in o <==> k' in order || k' == k;
    if p != PathOf(k) {
      assert LastWithPath(o, p) == LastWithPath(order, p);
      if IsProperPrefix(p, PathOf(k)) {
        assert PrefixOfSome(o, p);
      } else {
        assert PrefixOfSome(o, p) <==> PrefixOfSome(order, p);
      }
    }
  }

  /**
   * `rulesToDictTuple`: iterates the rule map in dictionary order and inserts
   * each rule into an initially empty tree.
   */
  method RulesToTree(rules: map<RuleKey, Weight>, order: seq<RuleKey>) returns (t: Tree)
    requires forall k :: k in order <==> k in rules
    requires forall k :: k in rules ==> k != []
    ensures forall p :: Get(t, p) == ExpectedIn(rules, order, p)
  {
    t := Empty;
    var i := 0;
    while i < |order|
      invariant 0 <= i <= |order|
      invariant forall p :: Get(t, p) == ExpectedIn(rules, order[..i], p)
    {
      var k := order[i];
      var t' := Insert(t, k, rules[k]);
      forall p
        ensures Get(t', p) == ExpectedIn(rules, order[..i + 1], p)
      {
        InsertGet(t, k, rules[k], p);
        assert order[..i + 1] == order[..i] + [k];
        ExpectedInSnoc(rules, order[..i], k, p);
      }
      t := t';
      i := i + 1;
    }
    assert order[..|order|] == order;
  }

  /** No two keys of the map describe the same walk down the tree. */
  ghost predicate Unambiguous(rules: map<RuleKey, Weight>)
  {
    forall k1, k2 :: k1 in rules && k2 in rules && PathOf(k1) == PathOf(k2) ==> k1 == k2
  }

  /** Every conjunct has kind "N" or "W", the two kinds the learner writes. */
  predicate WellKindedKey(k: RuleKey)
  {
    forall i :: 0 <= i < |k| ==> k[i].kind == "N" || k[i].kind == "W"
  }

  ghost predicate WellKinded(rules: map<RuleKey, Weight>)
  {
    forall k :: k in rules ==> k != [] && WellKindedKey(k)
  }

  /** Every proper " && "-prefix of a key is itself a key. */
  ghost predicate PrefixClosed(rules: map<RuleKey, Weight>)
  {
    forall k, m :: k in rules && 1 <= m < |k| ==> k[..m] in rules
  }

  lemma {:induction false} PathOfInjective(k1: RuleKey, k2: RuleKey)
    requires WellKindedKey(k1) && WellKindedKey(k2)
    requires PathOf(k1) == PathOf(k2)
    ensures k1 == k2
  {
    assert |k1| == |PathOf(k1)| == |k2|;
    forall i | 0 <= i < |k1|
      ensures k1[i] == k2[i]
    {
      assert PathOf(k1)[i] == PathOf(k2)[i];
      assert PosOf(k1[i]) == PosOf(k2[i]);
    }
  }

  /** Keys whose conjuncts are all of kind "N" or "W" can never collide in the tree. */
  lemma WellKindedUnambiguous(rules: map<RuleKey, Weight>)
    requires WellKinded(rules)
    ensures Unambiguous(rules)
  {
    forall k1, k2 | k1 in rules && k2 in rules && PathOf(k1) == PathOf(k2)
      ensures k1 == k2
    {
      PathOfInjective(k1, k2);
    }
  }

  /**
   * Without ambiguity the expected content of a walk depends on the rule map
   * only: a walk of a key reaches that key's weight, a proper prefix walk of a
   * key that is no key reaches (0,0), any other walk reaches nothing.
   */
  lemma ExpectedInIsOrderFree(rules: map<RuleKey, Weight>, order: seq<RuleKey>, p: seq<Pos>)
    requires forall k :: k in order <==> k in rules
    requires Unambiguous(rules)
    ensures ExpectedIn(rules, order, p) ==
              if exists k :: k in rules && PathOf(k) == p then
                (var k :| k in rules && PathOf(k) == p; Some(rules[k]))
              else if exists k :: k in rules && IsProperPrefix(p, PathOf(k)) then Some(Zero)
              else None
  {
    match LastWithPath(order, p)
    case Some(k) =>
    case None =>
      assert PrefixOfSome(order, p) <==> exists k :: k in rules && IsProperPrefix(p, PathOf(k));
  }

  /** Two trees that hold the same weight at every walk are the same tree. */
  lemma {:induction false} TreeExtensionality(t1: Tree, t2: Tree)
    requires forall p :: Get(t1, p) == Get(t2, p)
    ensures t1 == t2
  {
    forall s: Scope
      ensures Dict(t1, s) == Dict(t2, s)
    {
      var d1, d2 := Dict(t1, s), Dict(t2, s);
      forall item | item in d1
        ensures item in d2
      {
        assert Get(t1, [Pos(s, item)]).Some?;
      }
      forall item | item in d2
        ensures item in d1
      {
        assert Get(t2, [Pos(s, item)]).Some?;
      }
      forall item | item in d1
        ensures d1[item] == d2[item]
      {
        assert Get(t1, [Pos(s, item)]) == Get(t2, [Pos(s, item)]);
        forall p
          ensures Get(d1[item].sub, p) == Get(d2[item].sub, p)
        {
          if p != [] {
            var q := [Pos(s, item)] + p;
            assert q[1..] == p;
            assert Get(t1, q) == Get(t2, q);
          }
        }
        TreeExtensionality(d1[item].sub, d2[item].sub);
      }
    }
    assert t1.node == Dict(t1, NodeScope) && t2.node == Dict(t2, NodeScope);
    assert t1.way == Dict(t1, WayScope) && t2.way == Dict(t2, WayScope);
  }

  /**
   * The tree does not depend on the order in which the rule map is iterated,
   * once no two keys describe the same walk.
   */
  lemma OrderIndependent(rules: map<RuleKey, Weight>, o1: seq<RuleKey>, o2: seq<RuleKey>, t1: Tree, t2: Tree)
    requires forall k :: k in o1 <==> k in rules
    requires forall k :: k in o2 <==> k in rules
    requires Unambiguous(rules)
    requires forall p :: Get(t1, p) == ExpectedIn(rules, o1, p)
    requires forall p :: Get(t2, p) == ExpectedIn(rules, o2, p)
    ensures t1 == t2
  {
    forall p
      ensures Get(t1, p) == Get(t2, p)
    {
      ExpectedInIsOrderFree(rules, o1, p);
      ExpectedInIsOrderFree(rules, o2, p);
    }
    TreeExtensionality(t1, t2);
  }

  /** Each key's walk reaches that key's own weight, whatever the order. */
  lemma KeysReachTheirWeight(rules: map<RuleKey, Weight>, order: seq<RuleKey>, t: Tree, k: RuleKey)
    requires forall k' :: k' in order <==> k' in rules
    requires Unambiguous(rules)
    requires forall p :: Get(t, p) == ExpectedIn(rules, order, p)
    requires k in rules
    ensures Get(t, PathOf(k)) == Some(rules[k])
  {
    ExpectedInIsOrderFree(rules, order, PathOf(k));
  }
}
