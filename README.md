# Routrainer: a verified model of the route-rule learner

Routrainer learns pedestrian routing preferences from an OpenStreetMap
extract. A rule is a conjunction of tag tests such as
`W:highway==primary && W:sidewalk==both`, with a weight pair
(distance factor, fixed penalty). `W:` tests the way and `N:` tests a node.
The router prices every edge of the map with the rules and runs a
best-first search.

A training case is a start node, an end node and the waypoints the right
route passes. The trainer routes each case twice: directly, and through its
waypoints. When the waypoint route costs relatively more, the trainer
shifts weight onto the rules the two routes used differently. It then adds
new rules built from the tags in which the routes differ.

The project models:

- the handler that collects nodes and ways and builds the adjacency
  (`OSMHandler.node`, `OSMHandler.way`), as a class that updates its two
  dictionaries in place;
- the rule tree that `rulesToDictTuple` builds from the flat rule map, and
  `addRule`;
- the per-edge evaluation `penalty` and its rule-reporting variant
  `penaltyRules`, in override and in additive mode;
- the search `route` (priority queue with lazy deletion, open dictionary,
  closed set) and its chaining `multiRoute`, as methods with loop
  invariants;
- the attribution of a path to rules: `combinations`, `tagsFromPath` and
  `usedTagsFromPath`;
- the per-case update of the main loop: the two difference loops, the
  compensation loop with its clamps, the old/new factor split, the choice
  of new rules, and the stall counters with the stop test. These are
  methods of the class `Training`, which holds the rule map and the
  counters.

The modules follow the program's structure:

- `Wrappers`: Option.
- `RuleTree`: flat keys, the tree, `rulesToDictTuple`.
- `Penalty`: `penalty` and `penaltyRules`.
- `Graph`: records, dictionaries, way adjacency.
- `OSM`: the handler class.
- `Search`: `route` and `multiRoute`.
- `Attribution`: `combinations`, `tagsFromPath`, `usedTagsFromPath`.
- `Learner`: `addRule` and the difference loops.
- `Compensation`: the compensation loop as functions on values.
- `Trainer`: the choice of new rules and the `Training` class.

The properties that matter most are these:

- **Round trip.** Every rule that `penaltyRules` reports over the tree
  built from a prefix-closed map of `N:`/`W:` rules is a key of that map,
  with the same weight. So the trainer's `exit(1)` for a used rule that is
  not a rule can never be reached.
- **Order does not matter.** The rule tree does not depend on the
  dictionary order in which it was built.
- **No negative penalties.** Non-negative rules give non-negative
  penalties, so the router's negative-weight abort never fires.
- **Search.** Every route the search reports is a real path with its cost.
  An empty queue means the target is unreachable.
- **Combinations.** For distinct entries, `combinations` lists exactly
  the non-empty subsequences of up to `depth + 1` entries, with no
  repeats.
- **Compensation.** The loop terminates, keeps every weight non-negative
  and never changes a rule that was not used. A pass either moves the whole
  error or retires a component.
- **New rules.** They make up the share of the error assigned to them. The
  rule map stays prefix-closed with non-negative weights, and every new key
  has at most four conjuncts.

## Model

| member | source | states |
|---|---|---|
| `RuleTree.Get` | routrainer.py:136-151 | The weight stored at the end of a walk through the nested `N:`/`W:` dictionaries, or none when the walk leaves the tree. |
| `RuleTree.Insert` | routrainer.py:125-151 | One flat rule put into the tree: the last conjunct sets the weight and keeps the children; an inner conjunct keeps its weight, or is created with (0,0), and the rest of the rule goes one level down. |
| `RuleTree.InsertGet` | routrainer.py:125-151 | Inserting one flat rule: its walk reaches the new weight; a proper-prefix walk that reached nothing now reaches (0,0); every other walk is unchanged. |
| `RuleTree.LastWithPath` | routrainer.py:123-139 | Finds a listed key with the given walk, or reports none exactly when no listed key has it. |
| `RuleTree.ExpectedInSnoc` | routrainer.py:123-151 | Inserting one more key changes the expected tree content exactly as one insertion does. |
| `RuleTree.RulesToTree` | routrainer.py:119-153 | At every walk, the built tree holds the weight of the last key with that walk. Proper prefixes of a key's walk hold (0,0). Every other walk holds nothing. |
| `RuleTree.PathOfInjective` | routrainer.py:125-135 | Two keys of `N:`/`W:` conjuncts with the same walk are the same key. |
| `RuleTree.WellKindedUnambiguous` | routrainer.py:130-133 | A map of `N:`/`W:` keys never has two keys colliding in the tree. |
| `RuleTree.ExpectedInIsOrderFree` | routrainer.py:123-153 | Without collisions, the content at a walk depends only on the map: a key's own weight, (0,0) for a proper prefix that is not a key, otherwise nothing. |
| `RuleTree.OrderIndependent` | routrainer.py:119-153 | Two iteration orders of the same collision-free map build the same tree. |
| `RuleTree.KeysReachTheirWeight` | routrainer.py:136-142 | Each key's walk reaches that key's own weight, whatever the order. |
| `Penalty.Combine` | OSMHandler.py:101-118 | One matched item: in override mode the deeper sums replace the item's own weight when a deeper rule matched; in additive mode both are added. The count grows by the deeper count, plus one unless override mode took the deeper result. |
| `Penalty.Scan` | OSMHandler.py:95-118 | The loop over one tag list: each `tag==value` found in the node (or way) dictionary is combined with its own weight and the penalty of its sub-tree. |
| `Penalty.Penalty` | OSMHandler.py:79-120 | `penalty`: the from-node's tags, then the to-node's tags against the node rules, then the way's tags against the way rules, summing (length penalty, point penalty, count). |
| `Penalty.CombineFired` | OSMHandler.py:146-157 | One matched item in `penaltyRules`: override mode reports the deeper rules, prefixed by the item, or the item alone when none fired; additive mode reports both. |
| `Penalty.ScanFired` | OSMHandler.py:140-157 | The loop over one tag list, reporting rules with an `N:` or `W:` prefix. |
| `Penalty.FiredRules` | OSMHandler.py:122-159 | `penaltyRules`: the rules that fire on the edge, in the same three scans as `penalty`, each with its stored weight. |
| `Penalty.ScanEmpty` | OSMHandler.py:95-98 | Against an empty tree no tag matches: the running sums and fired rules are returned unchanged. |
| `Penalty.EmptyRules` | OSMHandler.py:79-159 | With no rules, every edge costs (0,0,0) and fires nothing, in both modes. |
| `Penalty.CombineAgree` | OSMHandler.py:103-157 | Once a tag has matched, the match count is positive and the fired-rule map is non-empty. |
| `Penalty.ScanAgree` | OSMHandler.py:95-157 | Scanning one tag list keeps "count positive iff some rule fired" true. |
| `Penalty.ScanGrows` | OSMHandler.py:103-157 | Scanning never lowers the match count and never drops a fired rule. |
| `Penalty.FiredIffCounted` | OSMHandler.py:79-159 | `penaltyRules` reports some rule exactly when `penalty` counts a match, in both modes. |
| `Penalty.ScanNonNegative` | OSMHandler.py:95-118 | Over a tree of non-negative weights, a scan keeps both penalty components non-negative. |
| `Penalty.NonNegativePenalty` | OSMHandler.py:79-120 | Non-negative stored weights give non-negative length and point penalties in either mode. |
| `Penalty.ExampleItems` | OSMHandler.py:96 | The items of the example tags are the expected `tag==value` strings, and they are distinct. |
| `Penalty.FootTreeExample` | OSMHandler.py:105-113 | A single matching rule with no children counts once and contributes its own weight. |
| `Penalty.ServiceTreeStep` | OSMHandler.py:98-118 | The outer rule of the example matches the first way tag; override keeps only the deeper result, additive adds both. |
| `Penalty.ServiceFootExample` | routrainer.py:34-41 | `service`(10,0) with `service && foot==yes`(2,0) gives (2,0) under override and (12,0) under additive mode. |
| `Penalty.PrefixedKeyLocated` | OSMHandler.py:150-151 | A deeper fired key, with the matched conjunct in front, walks to an entry carrying the reported weight. |
| `Penalty.PrefixedLocated` | OSMHandler.py:150-156 | Every key of the deeper result, once prefixed, is located in the tree. |
| `Penalty.CombineFiredLocated` | OSMHandler.py:148-157 | Combining a match with the fired rules keeps every reported key located at its weight. |
| `Penalty.ScanFiredLocated` | OSMHandler.py:140-157 | A scan keeps every reported key walking to an entry with the reported weight. |
| `Penalty.FiredRulesLocated` | OSMHandler.py:122-159 | Every key `penaltyRules` reports is an `N:`/`W:` key whose walk reaches an entry with the reported weight. |
| `Penalty.PrefixWalkIsKeyWalk` | routrainer.py:227-233 | In a prefix-closed map, a proper-prefix walk of a key is the walk of a key. |
| `Penalty.FiredRulesRoundTrip` | OSMHandler.py:122-159 | Over the tree built from a prefix-closed `N:`/`W:` map, each reported rule is a key of the map with its weight. |
| `Graph.Routable` | OSMHandler.py:52 | A way is kept exactly when it has a `highway` tag. |
| `Graph.StoredTags` | OSMHandler.py:53-58 | The stored tag dictionary: the way's tags, with `sidewalk=unknown` added when `sidewalk` is missing. |
| `Graph.LastIndex` | OSMHandler.py:60-66 | The last position of a node on a way, which is the position whose write survives; it holds the node and no later position does. |
| `Graph.WayEntry` | OSMHandler.py:60-66 | The neighbour list a way leaves for one of its nodes: the list written at the node's last position. |
| `Graph.Lookup` | OSMHandler.py:11 | A dictionary lookup misses exactly for absent keys and otherwise returns a stored pair's value. |
| `Graph.Put` | OSMHandler.py:61-66 | Assignment appends a new key and keeps an existing key in place; it introduces only the assigned pair. |
| `Graph.PutLookup` | OSMHandler.py:61-66 | After `a[k] = v`, `k` maps to `v` and every other key to its old value. |
| `Graph.PutFresh` | OSMHandler.py:61-66 | Assigning a new key appends it at the end. |
| `Graph.PutDistinct` | OSMHandler.py:61-66 | Assignment never duplicates a key. |
| `Graph.PutPut` | OSMHandler.py:61-66 | A second assignment to a key overrides the first and keeps its position. |
| `Graph.DictOf` | OSMHandler.py:49 | The tag comprehension has distinct keys, the same key set, and only pairs from the input. |
| `Graph.DictOfDistinct` | OSMHandler.py:49 | Tags that already have distinct keys are copied unchanged. |
| `Graph.StoredTagsSpec` | OSMHandler.py:53-58 | A stored way has distinct keys and `sidewalk=unknown` when the tag was absent; every other key keeps its value and no other key appears. |
| `Graph.Neighbours` | OSMHandler.py:60-66 | Position `i` of a way lists at most its predecessor and successor, and both whenever they exist. |
| `Graph.WayEntryShape` | OSMHandler.py:60-66 | For a way of distinct nodes: no neighbours for a single node, one at either end, two in between. |
| `Graph.ClosedWayEntry` | OSMHandler.py:60-66 | The first node of a closed way keeps only its backward neighbour, because the last position overwrites the first. |
| `Graph.WayEntryAdjacent` | OSMHandler.py:60-66 | Every recorded neighbour is next to an occurrence of the node on the way. |
| `OSM.WrittenStep` | OSMHandler.py:61-66 | Writing the entry of one more position extends the written prefix by that position. |
| `OSM.WrittenAll` | OSMHandler.py:60-66 | Once every position is written, the nodes hold exactly the adjacency `WithWay` describes. |
| `OSM.WithWay` | OSMHandler.py:60-66 | Adding a way keeps the node ids and leaves nodes off the way untouched. |
| `OSM.WithWayLookup` | OSMHandler.py:60-66 | Each node of the way finds its neighbour list under the way's id; its entries for other ways are unchanged. |
| `OSM.WithWayKeepsGraphOk` | OSMHandler.py:51-66 | Adding a way whose nodes are stored keeps every adjacency entry pointing at stored nodes and ways. |
| `OSM.OSMHandler.constructor` | OSMHandler.py:39-43 | A new handler has empty node and way dictionaries and the given mode. |
| `OSM.OSMHandler.AddNode` | OSMHandler.py:45-49 | The node is stored under its id with its tag dictionary and no ways; nothing else changes. |
| `OSM.OSMHandler.SetEntry` | OSMHandler.py:61 | One node's entry for one way is assigned; nothing else changes. |
| `OSM.OSMHandler.WriteAdjacency` | OSMHandler.py:60-66 | The adjacency loop leaves the nodes exactly as `WithWay` describes. |
| `OSM.OSMHandler.AddWay` | OSMHandler.py:51-66 | Without `highway` nothing changes. Otherwise the way is stored with normalised tags and its nodes get their neighbour lists. |
| `Search.EdgeScore` | OSMHandler.py:206-210 | The penalty of an edge: `penalty` over the current node, the neighbour and the way. |
| `Search.StartStep` | OSMHandler.py:182 | The first entry of every path: the start node's first way, the start node, cost 0 and length 0. |
| `Search.NextStep` | OSMHandler.py:208-227 | The entry the search appends for a neighbour: the way, the neighbour, the segment cost and the segment length. |
| `Search.SegmentCost` | OSMHandler.py:218 | A segment never costs less than its length. |
| `Search.PathCostAppend` | OSMHandler.py:162-171 | The cost of concatenated routes is the sum of their costs. |
| `Search.PathCostAtLeastLength` | OSMHandler.py:208-227 | With a non-negative distance, a route costs at least its length. |
| `Search.PathToSnoc` | OSMHandler.py:220-227 | A route extended by one valid step is a route to the step's node, and its cost grows by the step's cost. |
| `Search.PathToEnd` | OSMHandler.py:199-207 | The end of a route is a stored node. |
| `Search.WalkStaysInside` | OSMHandler.py:203-229 | A set closed under adjacency contains every walk that starts in it. |
| `Search.NoNegativeEdge` | OSMHandler.py:210-215 | With non-negative stored weights no edge is negative, so the abort never fires. |
| `Search.RouteSpecCost` | OSMHandler.py:220-227 | Every reported cost is the cost of the reported path. |
| `Search.PopMin` | OSMHandler.py:185 | `heappop` removes a least `(estimate, id)` entry and keeps the rest. |
| `Search.PopIds` | OSMHandler.py:185-188 | Popping loses at most the popped id and adds none. |
| `Search.Exhausted` | OSMHandler.py:230-231 | When the queue runs dry, the target is unreachable from the start. |
| `Search.Relax` | OSMHandler.py:205-229 | For one neighbour: abort exactly on a negative penalty. Otherwise, when the known route is cheaper than the new one nothing changes; else the open dictionary maps the neighbour to the new cost and the path extended by the new step, and its estimate is pushed on the queue. A dictionary entry is only replaced by one that costs no more. |
| `Search.Expand` | OSMHandler.py:203-229 | After expanding a node, either an edge was negative, or every neighbour is closed or queued with a valid route. |
| `Search.Route` | OSMHandler.py:173-231 | The result is a path from start to target with its cost. It is empty only when the target is unreachable, and a negative-weight error only on a negative edge. Non-negative rules never give the error. |
| `Search.LegsDoneSnoc` | OSMHandler.py:166-169 | One more successful search adds its cost and path to the totals. |
| `Search.LegsAborted` | OSMHandler.py:166-169 | An aborted search keeps the earlier legs valid. |
| `Search.MultiRoute` | OSMHandler.py:162-171 | One valid search per consecutive pair of waypoints. On success the cost is their sum, the path their concatenation, and the cost is the path's cost. With fewer than two waypoints the result is (0, []). |
| `Attribution.CombineFrom` | routrainer.py:112-116 | The loop of `combinations` from one entry on: the entry after the prefix, then, while depth remains, the deeper combinations of the entries not yet passed over. |
| `Attribution.Combinations` | routrainer.py:108-117 | `combinations(src, depth, prefix)`: the loop over every entry of `src`, starting with all entries remaining. |
| `Attribution.Contribution` | routrainer.py:176-182 | What n uses of a rule add on a step: n times the length if the rule has a `W:` conjunct, and n to the count if it has an `N:` conjunct or no `W:` conjunct. |
| `Attribution.Tally` | routrainer.py:167-182 | A rule's (length, count) summed over the steps of a path. |
| `Attribution.StepEdge` | routrainer.py:165-171 | The edge a step walks: from the previous step's node (the start node itself for the first step) to the step's node, along its way. |
| `Attribution.Remove` | routrainer.py:115 | Keeps exactly the entries different from the removed one. |
| `Attribution.CombineFromFlat` | routrainer.py:112-117 | At depth 0 the loop lists `prefix + e` for each entry, in order. |
| `Attribution.CombinationsFlat` | routrainer.py:108-117 | At depth 0 the output is `prefix + e` for each entry of the source, in order. |
| `Attribution.RemoveAbsent` | routrainer.py:115 | Removing an absent entry changes nothing. |
| `Attribution.CombinationsUnfold` | routrainer.py:108-117 | For distinct entries, the first entry and the rest split the output into three parts. |
| `Attribution.CombinationsSound` | routrainer.py:108-117 | For distinct entries, every output is the prefix followed by a subsequence of 1 to depth + 1 entries. |
| `Attribution.CombinationsComplete` | routrainer.py:108-117 | Every such prefix-and-subsequence is an output. |
| `Attribution.CombinationsMembers` | routrainer.py:108-117 | Both directions: the outputs are exactly the prefix plus a subsequence of 1 to depth + 1 entries. |
| `Attribution.CombinationsDistinct` | routrainer.py:108-117 | Distinct entries give distinct outputs. |
| `Attribution.CombinationsShape` | routrainer.py:108-117 | Whatever the entries, each output extends the prefix by 1 to depth + 1 entries of the source. |
| `Attribution.CombineFromShape` | routrainer.py:112-117 | Each output of the loop extends the prefix by entries still to come or still remaining. |
| `Attribution.MentionedSome` | routrainer.py:172-182 | A rule gets a key exactly when some step uses it. |
| `Attribution.TallyUnmentioned` | routrainer.py:172-182 | A rule no step uses has the statistic (0,0). |
| `Attribution.TallyKinds` | routrainer.py:176-182 | Rules without a way conjunct collect no length; way rules without a node conjunct collect no count. |
| `Attribution.TallyNonNegative` | routrainer.py:161-184 | With non-negative step lengths, both components are non-negative. |
| `Attribution.TallyOncePerStep` | routrainer.py:176-182 | A rule used at most once per step has a count of at most the number of steps. |
| `Attribution.MentionedSnoc` | routrainer.py:172 | One more step adds exactly the rules it uses. |
| `Attribution.TallySnoc` | routrainer.py:176-182 | One more step adds its contribution to a rule's statistic. |
| `Attribution.ContributionSucc` | routrainer.py:176-182 | n + 1 uses contribute n uses plus one. |
| `Attribution.TalliedEmptyStep` | routrainer.py:172 | A step that fires nothing changes no entry. |
| `Attribution.MentionedBump` | routrainer.py:172-182 | One more use adds the rule to the keys. |
| `Attribution.TallyBump` | routrainer.py:173-182 | One more use bumps that rule's statistic and no other. |
| `Attribution.TalliedBumpMap` | routrainer.py:173-182 | The dictionary after one more use is the old one with that rule's entry bumped. |
| `Attribution.StatOfTallied` | routrainer.py:173-175 | Reading an absent entry as (0,0) gives the rule's statistic. |
| `Attribution.TalliedBump` | routrainer.py:173-182 | The bumped dictionary is the old one with the rule's entry (missing read as (0,0)) bumped by the step length or by one, according to its kinds. |
| `Attribution.ListingOnce` | routrainer.py:172 | Iterating a set lists each of its elements once. |
| `Attribution.BumpUsed` | routrainer.py:173-182 | The update for one fired rule is one more use of it on the current step. |
| `Attribution.AddUsed` | routrainer.py:172-182 | The inner loop adds the step with each fired rule used once. |
| `Attribution.UsedTagsFromPath` | routrainer.py:161-184 | The result maps each rule fired on a step's edge to its summed length and count. The first step pairs the start node with itself. |
| `Attribution.UsedKeys` | routrainer.py:161-184 | Both directions: a rule is a key exactly when it fired on some step. |
| `Attribution.WayConjuncts` | routrainer.py:197 | Exactly the `W:` conjuncts of the way's tags that are not disregarded. |
| `Attribution.NodeConjuncts` | routrainer.py:198 | Exactly the `N:` conjuncts of the node's tags that are not disregarded. |
| `Attribution.ListOf` | routrainer.py:202 | Listing a set gives each element once and nothing else. |
| `Attribution.AddCandidates` | routrainer.py:206-223 | The inner loop adds the step with its combinations, multiplicities included. |
| `Attribution.BumpCandidate` | routrainer.py:207-223 | The update for one candidate is one more occurrence of it on the current step. |
| `Attribution.TagsFromPath` | routrainer.py:186-225 | The result maps every combination of a step's way tags and its own and previous node's tags to its summed length and occurrence count, by kind. |
| `Attribution.TagKeysFromOneStep` | routrainer.py:186-225 | Every candidate is a non-empty conjunction of at most depth + 1 tags of a single step. |
| `Attribution.StepCandidate` | routrainer.py:197-204 | A combination of one step's tags has 1 to depth + 1 conjuncts, all from that step. |
| `Attribution.OfStepKinds` | routrainer.py:197-198 | Candidate conjuncts are `N:` or `W:` and never test a disregarded tag. |
| `Attribution.TagCountAtMostSteps` | routrainer.py:206-223 | When each step lists its tags without repetition, a candidate's count is at most the number of steps. |
| `Learner.WithRule` | routrainer.py:227-233 | `addRule`: set the rule, then add the rule without its last conjunct with (0,0) when it is missing, and so on up. |
| `Learner.Difference` | routrainer.py:376-386 | The value the difference loops compute for a key: learn minus direct, a missing side counting (0,0). |
| `Learner.WithRuleOpen` | routrainer.py:227-233 | On the maps `addRule` meets while recursing: the rule gets its weight, missing prefixes get (0,0), other keys keep theirs, and the result is prefix-closed. |
| `Learner.WithRuleSpec` | routrainer.py:227-233 | On a prefix-closed map, `addRule` sets the rule's weight, adds its missing prefixes with (0,0), keeps every other key, and keeps the map prefix-closed. |
| `Learner.SameKeysGood` | routrainer.py:452-463 | Changing weights only, to non-negative values, keeps the rule map good. |
| `Learner.WithRuleGood` | routrainer.py:227-233 | Adding an `N:`/`W:` rule with non-negative weight keeps the map good and keeps every key. |
| `Learner.BuiltTreeNonNegative` | routrainer.py:119-153 | The tree built from non-negative weights holds only non-negative weights. |
| `Learner.UsedKeysAreRules` | routrainer.py:407-411 | Every rule reported as used is a key of the rule map, so the exit is never taken. |
| `Learner.CandidateShape` | routrainer.py:360-361 | A candidate rule of depth 3 is a non-empty `N:`/`W:` conjunction of at most 4 conjuncts. |
| `Learner.LegGood` | OSMHandler.py:173-231 | Under non-negative rules and distance, a search succeeds with a stored path and a non-negative cost. |
| `Learner.LegsGood` | OSMHandler.py:162-171 | The same holds for the concatenation of chained searches. |
| `Learner.DiffValue` | routrainer.py:377-386 | The signed difference is learn minus direct, a missing side counting (0,0). |
| `Learner.NewRuleDifferences` | routrainer.py:376-392 | Both directions: `differenceTags` holds exactly the candidates that are not rules and whose difference is not (0,0), each with that difference, listed once. |
| `Learner.SquaresSnoc` | routrainer.py:415 | A new listed entry adds its square to the norm. |
| `Learner.SquaresNonNegative` | routrainer.py:374-415 | The squared norm is never negative. |
| `Learner.SquaresUpdate` | routrainer.py:441-448 | Changing one listed entry changes the norm by the change in its square. |
| `Learner.AddExisting` | routrainer.py:413-415 | Recording a used difference extends the listing and adds its square to the norm. |
| `Learner.DiffsOverSnoc` | routrainer.py:395-415 | Visiting one more used key records it exactly when its difference is not (0,0). |
| `Learner.UsedDifferences` | routrainer.py:395-415 | Both directions: `existingUsedTags` holds exactly the used rules with a non-(0,0) difference, with that difference. `norm2` is the sum of their squares. |
| `Compensation.Shift` | routrainer.py:438-439 | A weight component minus its share `compensateError * oldFactor * count / norm2` of the error. |
| `Compensation.AdjustWeight` | routrainer.py:438-450 | The new weight of a used rule: both components shifted, a negative one clamped to 0. |
| `Compensation.AdjustCount` | routrainer.py:440-448 | The difference that still takes part: a clamped component is set to 0 in `existingUsedTags`. |
| `Compensation.Lost` | routrainer.py:443-449 | The error added to `nextCompensateError`: the overshoot of each clamped component times its difference. |
| `Compensation.Removed` | routrainer.py:441-447 | What `nextNorm2` loses: the square of each clamped component's difference. |
| `Compensation.Passes` | routrainer.py:431-466 | The `while norm2 > 0 and compensateError > 0` loop as a function of the state it starts from: one pass over the used keys after another. |
| `Compensation.ClampFacts` | routrainer.py:438-451 | Only a component used more on the waypoint route can overshoot below zero, and its overshoot carries positive error. |
| `Compensation.AdjustFacts` | routrainer.py:436-451 | For one key: the new weight is non-negative and the lost error is not negative. A component never starts taking part again. Lost error means one stopped. The norm loses exactly the squares of the stopped components. |
| `Compensation.PassOverFacts` | routrainer.py:435-463 | Over any listing of used keys: lost error is not negative, no component starts taking part, and lost error means some component stopped. |
| `Compensation.PassFacts` | routrainer.py:433-466 | After a pass the weights stay non-negative and the keys the same. The norm is that of the new differences. The pass either moved the whole error or retired a component. |
| `Compensation.PassSquares` | routrainer.py:441-447 | The new norm is the old norm minus the squares of the retired components. |
| `Compensation.PassesStep` | routrainer.py:431-466 | A pass that starts with a positive norm and error is followed by the passes from the state it leaves, and that state is again ready for a pass. |
| `Compensation.CompensateFacts` | routrainer.py:429-466 | The loop terminates with no norm or no error left. The error is not negative and the norm matches the remaining differences. Keys stay the same, weights stay non-negative, and unused rules keep their weight. |
| `Compensation.NothingLostExact` | routrainer.py:438-439 | A pass that loses nothing shifts every used weight by exactly its share and clamps none. |
| `Trainer.Score` | routrainer.py:476-477 | The sort keys: the length (or node) difference, discounted by one percent per `&&`, and 0 for a rule with no `W:` (or `N:`) conjunct. |
| `Trainer.Amount` | routrainer.py:489 | The new weight `-x / d` for a share `x` of the error over a difference `d`. |
| `Trainer.Factors` | routrainer.py:417-427 | (oldFactor, newFactor): (0,1) without used differences, (0.9,0.1) after more than 10 iterations without improvement, (1,0) otherwise. |
| `Trainer.Corrected` | routrainer.py:417-470 | The factor split and the compensation loop, with the error the loop could not place added to the new-rule share. |
| `Trainer.Learned` | routrainer.py:417-518 | The whole update of a failing case: `Corrected`, then the new rules for the new-rule share. |
| `Trainer.Relative` | routrainer.py:339 | The relative error in percent, against the direct cost plus 0.0001. |
| `Trainer.Inflated` | routrainer.py:358 | A failing case learns from its error raised by a millionth, which stays above the error. |
| `Trainer.TagsOf` | routrainer.py:360-361 | `tagsFromPath(path, 3)` for given listings of the node tag sets. |
| `Trainer.UsedOf` | routrainer.py:363-364 | `usedTagsFromPath` over the tree built from the current rules. |
| `Trainer.CaseDiffs` | routrainer.py:360-415 | The two difference dictionaries of a failing case in both directions: `differenceTags` holds exactly the candidates that are not rules with a non-(0,0) difference, and `existingUsedTags` exactly the used rules with one, each with that difference; `norm2` is the sum of their squares. |
| `Trainer.LearntFrom` | routrainer.py:358-518 | The rule map after a failing case is the one `Learned` gives from those dictionaries, and rules were added exactly when `Learned` adds some. |
| `Trainer.BuiltFrom` | routrainer.py:333 | The tree a case is routed on is the tree of the rule map it met: its order lists exactly the rules, and every lookup is the expected weight of those rules. |
| `Trainer.CaseRouted` | routrainer.py:333-336 | A routed case: one valid direct search and one per waypoint leg, on a non-negative tree, with non-negative summed costs. |
| `Trainer.CaseVerdict` | routrainer.py:338-356 | A checked case: costs the sums of its legs, the errors of lines 338-339, a pass exactly below the threshold, a positive error when it fails, and no rule added when it passes. |
| `Trainer.CaseRan` | routrainer.py:318-364 | What a case came to, from the rule map and counter it met to those it left. Skipped exactly when a stop is off the map; otherwise the `NoWay` crash exactly when a waypoint has no ways, naming the first one. A checked case and the empty-path crash were both routed on the tree of the rules met; the crash comes with a failing error and an empty path (lines 349, 363-364). A failing case leaves the rules `LearntFrom` gives for its error raised by a millionth, and resets the counter exactly when it added a rule; a failing case with a path empty on either side is never checked, since `usedTagsFromPath` reads the first step (lines 165, 363-364); every other case leaves rules and counter as they were. |
| `Trainer.FirstMin` | routrainer.py:476-483 | The stable sort's first entry: the first listed key of least score. |
| `Trainer.Additions` | routrainer.py:487-518 | The new rules are chosen among the listed candidates. |
| `Trainer.Chosen` | routrainer.py:487-518 | The new rules are the chosen way rule and node rule only. |
| `Trainer.WayPart` | routrainer.py:488-494 | The way rule is added only for itself. |
| `Trainer.NodePart` | routrainer.py:496-502 | The node rule is added only for itself. |
| `Trainer.AmountBack` | routrainer.py:489 | The weight `-x / d`, times the difference `d`, gives back the cost `x`. |
| `Trainer.AmountPositive` | routrainer.py:488-489 | Over a negative difference, a positive cost takes a positive weight. |
| `Trainer.AdditionsShape` | routrainer.py:472-518 | At most two rules are added, two only for different keys. Each weight is non-negative with some component positive, and a component is positive only where the waypoint route used the rule less. |
| `Trainer.AdditionsEmpty` | routrainer.py:487-518 | Both directions: nothing is added exactly when the chosen keys have no negative difference to make up. |
| `Trainer.AdditionsRestore` | routrainer.py:487-518 | Weighted by their differences, the new rules restore the whole share of the error, or half when only one of two different keys could take a rule. |
| `Trainer.ChosenRestore` | routrainer.py:487-518 | The same for given way and node rules. |
| `Trainer.WayPartRestore` | routrainer.py:488-494 | A way rule restores its share exactly when its length difference is negative. |
| `Trainer.NodePartRestore` | routrainer.py:496-502 | A node rule restores its share exactly when its node difference is negative. |
| `Trainer.WithRulesGood` | routrainer.py:227-233 | Several `addRule` calls keep the map good and keep every key. New keys are added rules or their prefixes, and each added rule ends with its weight. |
| `Trainer.WithRulesKeeps` | routrainer.py:227-233 | Later `addRule` calls do not change a key that is present and not re-added. |
| `Trainer.WithRulesSnoc` | routrainer.py:227-233 | One more `addRule` after the others is one more step of the fold. |
| `Trainer.AdditionsGood` | routrainer.py:472-518 | Adding the chosen rules keeps the map good and every key. New keys are candidates or their prefixes, and each added rule holds its positive weight. |
| `Trainer.AddedFacts` | routrainer.py:472-518 | The new-rule step grows the map by candidates, and leaves it unchanged when nothing is added. |
| `Trainer.CorrectedFacts` | routrainer.py:417-470 | The correction keeps the map good with the same keys. Without used rules the whole error goes to new rules. When not stalling, new rules get exactly the error the loop could not place. |
| `Trainer.LearnedFacts` | routrainer.py:417-518 | The whole update of a failing case grows the rule map by candidate rules. |
| `Trainer.FailingPositive` | routrainer.py:338-349 | A case whose relative error reaches the threshold has a positive absolute error. |
| `Trainer.AdjustOne` | routrainer.py:436-451 | The inner loop body: shifted and clamped weight, retired difference, reduced norm, carried overshoot. |
| `Trainer.PartSnoc` | routrainer.py:435-463 | Adjusting one more key extends the partial pass by that key. |
| `Trainer.PartWhole` | routrainer.py:435-463 | A pass over every used key is the whole pass. |
| `Trainer.PartNone` | routrainer.py:433-434 | Before the pass nothing is adjusted. |
| `Trainer.Stops` | routrainer.py:320 | The waypoint route starts at the case's start and ends at its end. |
| `Trainer.FirstWithoutWays` | OSMHandler.py:182 | Finds the first waypoint without ways, where `route` fails to pick a start way, or none exactly when every waypoint has a way. |
| `Trainer.InMap` | routrainer.py:322-325 | Both directions: `caseInMap` holds exactly when every waypoint is on the map. |
| `Trainer.AllRanAt` | routrainer.py:318-364 | Case i of the pass started from rule map and counter i, came to outcome i, and left rule map and counter i + 1. |
| `Trainer.AllRanSnoc` | routrainer.py:318 | Running one more case, from the rule map and counter the last one left, extends the record by its outcome and the state it leaves. |
| `Trainer.OutcomesSnoc` | routrainer.py:346-356 | One more outcome adds its errors to the sums when it was checked, and counts as a failure or an addition when it was one. |
| `Trainer.TotalsSnoc` | routrainer.py:346-356 | The running totals and the failure flag after one more outcome are those of the longer list. |
| `Trainer.Training.constructor` | routrainer.py:297-303 | Empty rules, best errors 1e20, stall counter 1. |
| `Trainer.Training.AddRule` | routrainer.py:227-233 | The rule map becomes `WithRule` of the old one; the counters are kept. |
| `Trainer.Training.CaseDifferences` | routrainer.py:360-415 | The two difference loops of a failing case leave the dictionaries `CaseDiffs` describes, over the tree of the current rules. Every used rule is a rule, and every candidate has at most four `N:`/`W:` conjuncts. |
| `Trainer.Training.Correct` | routrainer.py:417-470 | The factor split and the compensation loop leave the state `Corrected` describes. |
| `Trainer.Training.Learn` | routrainer.py:417-518 | The rule map becomes the one `Learned` describes. The stall counter resets exactly when rules were added. |
| `Trainer.Training.Routes` | routrainer.py:333-336 | Builds the tree from the current rules, then runs one valid direct search and one valid search per waypoint leg, with non-negative costs and stored paths. |
| `Trainer.Training.LearnFrom` | routrainer.py:358-518 | The new rule map is the one `Learned` gives from the difference dictionaries of the two paths (`LearntFrom`), and `added` holds exactly when rules were added. The map keeps its keys unless rules were added, gains only keys of at most four conjuncts, and stays good. The counter resets exactly when rules were added. |
| `Trainer.Training.RunCase` | routrainer.py:318-518 | The case came to what `CaseRan` describes, from the rules and counter before the call to those after. Rules only grow, new keys have at most four conjuncts, and the keys change only when a rule was added. The crash outcomes are named. |
| `Trainer.Training.CheckCase` | routrainer.py:333-518 | For a case on the map whose waypoints have ways: a checked outcome or the empty-path crash, as `CaseRan` describes, from the rules and counter before the call to those after. |
| `Trainer.Training.CaseTurn` | routrainer.py:318-356 | One case of the loop: the record of the cases run so far grows by this case, run from the current rules and counter. The totals take the errors of a checked case, a failing case sets `someFail`, and only a failing case changes the rules. |
| `Trainer.Training.RunCases` | routrainer.py:318-519 | Case i came to outcome i from rule map and counter i; the first rule map and counter are those before the pass and the last are those after it. The pass stops at the first crash. The totals are the sums over the checked outcomes, `someFail` holds exactly when a checked case failed, and the counter resets exactly when a case added rules. Without a failure the rules are unchanged. |
| `Trainer.Training.FinishIteration` | routrainer.py:521-530 | The best errors become the minima. The counter resets on a new best absolute error and otherwise grows by one. Stop exactly when nothing failed or the counter exceeds 100. |
| `Trainer.Training.Iteration` | routrainer.py:318-538 | One pass over the cases, case i coming to outcome i from rule map and counter i, starting from the rules and counter before the call; the rules after it are the last rule map. `someFail` holds exactly when a checked case failed, and then only are the rules changed. After a crash the counter is the last one; otherwise the best errors become the minima with the sums over the checked outcomes, the counter resets on a new best absolute error and otherwise is the last one plus one, and the loop stops exactly when nothing failed or the counter exceeds 100. `domainError` holds exactly when the loop goes on without a crash while the rule map is empty or a best error is not positive, where line 538's `math.log` fails. |
| `Trainer.Training.AddChosen` | routrainer.py:487-515 | One more `addRule` call, with the stall counter reset. |
| `Trainer.Training.AddNewRules` | routrainer.py:472-518 | With no candidates nothing changes. Otherwise the map becomes the fold of `Additions`, and the counter resets exactly when a rule was added. |
| `Trainer.Training.AddChosenRules` | routrainer.py:487-518 | The map becomes the fold of `Chosen`, and `added` holds exactly when a rule was added. |
| `Trainer.Training.AdjustRule` | routrainer.py:436-463 | One used rule's weight is adjusted in the map, with its retired difference, norm and carried error. |
| `Trainer.Training.CompensatePass` | routrainer.py:433-466 | One pass leaves the weights, differences, norm and carried error the pass functions describe. |
| `Trainer.Training.CompensateUsed` | routrainer.py:429-466 | The compensation loop leaves the state `Passes` describes. Weights stay non-negative. |

## Left out

- Map loading through osmium (`apply_file`, `relation`), the download of
  the map file, `gpxFromNodeList`, `Node.url`/`__str__`, logging and the
  plot. These are I/O; the handler's `node` and `way` callbacks are
  modelled with the record fields they read.
- Trainer.Training.Iteration: the list of logarithms that line 538 grows is
  not kept. The ValueError that `math.log` raises there, on an empty rule
  map or a best error that is not positive, is reported as the
  `domainError` result, not as an end of the program.
- `OSMHandler.distance`: floating-point trigonometry. The search takes the
  distance as a parameter, and non-negativity is the only property used.
- Floating point: weights, lengths and errors are exact reals, so the
  constants 1e-4, 1e-8, 1.000001, 0.9/0.1 and 1e20 are exact. Rounding is
  not modelled.
- Rule keys are kept as lists of conjuncts, not text. `split(" && ")`,
  `count("W:")` and `count("&&")` become structural operations.
  Collisions that text could produce, such as a tag value containing
  " && ", are not modelled.
- Dictionary and set iteration orders (the rule map in `rulesToDictTuple`,
  `list(ntags)`, `allKeys`, `allUsedKeys`) are chosen by `ListOf` or passed
  in as listings. The results are proved not to depend on them where the
  source's behaviour does not.
- Search.Route: the A* estimate is modelled, but not that the route found
  is the cheapest; the contract says the route is a valid path with its
  cost.
- The outer `while True` of the trainer does not terminate in general.
  One iteration (`Training.Iteration`) and the stop test are modelled
  instead of the unbounded loop.
- The worst-case bookkeeping (`worstError`, `worstTest`, `worstTotal`,
  lines 341-344) and the `unchanged` flag are only logged, so they are
  left out. So are `differenceUsedTags` and `existingTags`, which are
  filled but never read, and the `reason` argument of `addRule`.
- `exit(1)` at a negative penalty becomes the `NegativeWeights` result;
  it is proved unreachable under non-negative rules.
- `exit(1)` at a used rule missing from the map is proved unreachable.
- The crashes of `list(...)[0]` at route start and of `path[0]` on an
  empty path become the `NoWay` and `EmptyPath` outcomes.
- OSM.OSMHandler.AddWay: requires a routable way to have at least one
  node and every node reference to be a stored node. The source stores
  such a way (OSMHandler.py:53) and then crashes: `w.nodes[0]` raises
  IndexError for a way without nodes (line 63), and a reference missing
  from the node dictionary raises KeyError (lines 61-66), after the
  earlier positions were written. These crashes are excluded, not
  modelled.
- OSM.OSMHandler.WriteAdjacency: the same requirement, and the same two
  crashes left unmodelled.
- The description string of a training case, the hard-coded training data
  and `exampleRules`: cases are the `Case` datatype.
