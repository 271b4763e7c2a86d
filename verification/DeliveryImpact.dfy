/** Change impact: which check credit survives from one manifest revision to the next. */
module DeliveryImpact {
  import opened Ordering
  import opened Graphs
  import opened Delivery
  import opened DeliveryGraph
  import opened DeliveryStructure

  // ---------------------------------------------------------------- check inputs and coverage

  ghost predicate Prerequisite(m: Manifest, c: Check, x: Id) {
    Reach(EdgesOf(NodeMap(m.nodes)), c.testId, x)
  }

  /** The fingerprint of every node in the check's prerequisite closure. */
  ghost function InputFingerprints(m: Manifest, c: Check): map<Id, Digest> {
    var nodes := NodeMap(m.nodes);
    map x | x in nodes && Prerequisite(m, c, x) :: NodeFingerprint(nodes[x])
  }

  /** Some prerequisite of the given kind builds on the scenario. */
  ghost predicate ScenarioCovered(m: Manifest, c: Check, scenario: Id, kind: NodeKind) {
    var nodes := NodeMap(m.nodes);
    exists x :: x in nodes && Prerequisite(m, c, x) && nodes[x].kind == kind && Reach(EdgesOf(nodes), x, scenario)
  }

  /** Prerequisites of the kind exist and all of them are file-backed. */
  ghost predicate FileBacked(m: Manifest, c: Check, kind: NodeKind) {
    var nodes := NodeMap(m.nodes);
    && (exists x :: x in nodes && Prerequisite(m, c, x) && nodes[x].kind == kind && nodes[x].file.Some?)
    && (forall x :: x in nodes && Prerequisite(m, c, x) && nodes[x].kind == kind ==> nodes[x].file.Some?)
  }

  ghost predicate ScenarioTraced(m: Manifest, c: Check, s: Id) {
    Prerequisite(m, c, s) && ScenarioCovered(m, c, s, Design) && ScenarioCovered(m, c, s, Implementation)
  }

  /** Every mapped scenario is traced, and every environment-bearing kind is present and file-backed. */
  ghost predicate CoverageComplete(m: Manifest, c: Check) {
    && c.scenarioIds != [] && (forall s :: s in c.scenarioIds ==> ScenarioTraced(m, c, s))
    && FileBacked(m, c, Source) && FileBacked(m, c, Dependency)
    && FileBacked(m, c, Build) && FileBacked(m, c, Environment)
  }

  /** The snapshot the check carries is the current closure, and none of it is stale. */
  ghost predicate InputsCurrent(m: Manifest, stale: set<Id>, c: Check) {
    c.inputSha256 == InputFingerprints(m, c) && forall x :: x in stale ==> !Prerequisite(m, c, x)
  }

  lemma CheckClosureDefined(m: Manifest, c: Check)
    requires Valid(m) && c in m.checks
    ensures NoDangling(NodeMap(m.nodes)) && c.testId in NodeMap(m.nodes)
    ensures forall x :: Prerequisite(m, c, x) ==> x in NodeMap(m.nodes)
  {
    ValidHasNoDangling(m);
    ClosureDefined(NodeMap(m.nodes), c.testId);
  }

  /** The prerequisite closure of a check of a valid manifest. */
  method Prerequisites(m: Manifest, c: Check) returns (r: set<Id>)
    requires Valid(m) && c in m.checks
    ensures r <= NodeMap(m.nodes).Keys && forall x :: x in r <==> Prerequisite(m, c, x)
  {
    CheckClosureDefined(m, c);
    var closed := Closure(NodeMap(m.nodes), c.testId);
    r := closed.value;
  }

  method CheckInputFingerprints(m: Manifest, c: Check) returns (r: map<Id, Digest>)
    requires Valid(m) && c in m.checks
    ensures r == InputFingerprints(m, c)
  {
    var ids := Prerequisites(m, c);
    var nodes := NodeMap(m.nodes);
    r := map x | x in ids :: NodeFingerprint(nodes[x]);
  }

  method AnyCovers(m: Manifest, c: Check, ids: set<Id>, scenario: Id, kind: NodeKind) returns (covered: bool)
    requires Valid(m) && c in m.checks
    requires ids <= NodeMap(m.nodes).Keys && forall x :: x in ids <==> Prerequisite(m, c, x)
    ensures covered <==> ScenarioCovered(m, c, scenario, kind)
  {
    hide NodeMap, EdgesOf, Reach, Prerequisite;
    var nodes := NodeMap(m.nodes);
    ValidHasNoDangling(m);
    var rest := ids;
    covered := false;
    while rest != {}
      invariant rest <= ids
      invariant forall x :: x in ids && x !in rest && nodes[x].kind == kind ==> !Reach(EdgesOf(nodes), x, scenario)
      decreases |rest|
    {
      LeastExists(rest);
      var x :| x in rest && IsLeast(x, rest);
      rest := rest - {x};
      if nodes[x].kind == kind {
        ClosureDefined(nodes, x);
        var closed := Closure(nodes, x);
        if scenario in closed.value { return true; }
      }
    }
  }

  method KindBacked(m: Manifest, c: Check, ids: set<Id>, kind: NodeKind) returns (backed: bool)
    requires ids <= NodeMap(m.nodes).Keys && forall x :: x in ids <==> Prerequisite(m, c, x)
    ensures backed <==> FileBacked(m, c, kind)
  {
    var nodes := NodeMap(m.nodes);
    backed := && (exists x :: x in ids && nodes[x].kind == kind && nodes[x].file.Some?)
              && (forall x :: x in ids && nodes[x].kind == kind ==> nodes[x].file.Some?);
  }

  ghost predicate FirstTraced(m: Manifest, c: Check, n: nat)
    requires n <= |c.scenarioIds|
  {
    forall j :: 0 <= j < n ==> ScenarioTraced(m, c, c.scenarioIds[j])
  }

  lemma FirstTracedGrows(m: Manifest, c: Check, n: nat)
    requires n < |c.scenarioIds| && FirstTraced(m, c, n) && ScenarioTraced(m, c, c.scenarioIds[n])
    ensures FirstTraced(m, c, n + 1)
  {
  }

  method ScenariosTraced(m: Manifest, c: Check, ids: set<Id>) returns (traced: bool)
    requires Valid(m) && c in m.checks
    requires ids <= NodeMap(m.nodes).Keys && forall x :: x in ids <==> Prerequisite(m, c, x)
    ensures traced <==> forall s :: s in c.scenarioIds ==> ScenarioTraced(m, c, s)
  {
    for i := 0 to |c.scenarioIds|
      invariant FirstTraced(m, c, i)
    {
      var s := c.scenarioIds[i];
      assert s in c.scenarioIds;
      if s !in ids { return false; }
      var design := AnyCovers(m, c, ids, s, Design);
      var implementation := AnyCovers(m, c, ids, s, Implementation);
      if !design || !implementation { return false; }
      FirstTracedGrows(m, c, i);
    }
    traced := true;
  }

  method CoverageOf(m: Manifest, c: Check, ids: set<Id>) returns (complete: bool)
    requires Valid(m) && c in m.checks
    requires ids <= NodeMap(m.nodes).Keys && forall x :: x in ids <==> Prerequisite(m, c, x)
    ensures complete <==> CoverageComplete(m, c)
  {
    if c.scenarioIds == [] { return false; }
    complete := ScenariosTraced(m, c, ids);
    if !complete { return; }
    complete := KindBacked(m, c, ids, Source);
    if !complete { return; }
    complete := KindBacked(m, c, ids, Dependency);
    if !complete { return; }
    complete := KindBacked(m, c, ids, Build);
    if !complete { return; }
    complete := KindBacked(m, c, ids, Environment);
  }

  datatype CheckStatus = CheckStatus(coverageComplete: bool, inputsCurrent: bool)

  /** Judges one check against the live files; `stale` holds the nodes whose file is missing or differs. */
  method JudgeCheck(m: Manifest, stale: set<Id>, c: Check) returns (r: CheckStatus)
    requires Valid(m) && c in m.checks
    ensures r.coverageComplete <==> CoverageComplete(m, c)
    ensures r.inputsCurrent <==> InputsCurrent(m, stale, c)
  {
    var ids := Prerequisites(m, c);
    var inputs := CheckInputFingerprints(m, c);
    var complete := CoverageOf(m, c, ids);
    r := CheckStatus(complete, c.inputSha256 == inputs && ids * stale == {});
    if ids * stale == {} {
      forall x | x in stale ensures !Prerequisite(m, c, x) {
        assert x !in ids * stale;
      }
    } else {
      var x :| x in ids * stale;
    }
  }

  // ---------------------------------------------------------------- the affected set

  /** A node of both revisions with one and the same fingerprint. */
  predicate Unchanged(before: map<Id, Node>, after: map<Id, Node>, x: Id) {
    x in before && x in after && NodeFingerprint(before[x]) == NodeFingerprint(after[x])
  }

  function UnionEdges(prev: Manifest, cur: Manifest): Edges {
    EdgesOf(NodeMap(prev.nodes)) + EdgesOf(NodeMap(cur.nodes))
  }

  /** A node of one of the revisions that is not the same in both, or whose file is stale. */
  ghost predicate Seed(prev: Manifest, cur: Manifest, stale: set<Id>, x: Id) {
    var before, after := NodeMap(prev.nodes), NodeMap(cur.nodes);
    x in stale || ((x in before || x in after) && !Unchanged(before, after, x))
  }

  /** `x` can reach a changed or stale node over edges of either revision. */
  ghost predicate Affected(prev: Manifest, cur: Manifest, stale: set<Id>, x: Id) {
    exists s :: Seed(prev, cur, stale, s) && Reach(UnionEdges(prev, cur), x, s)
  }

  /** Whoever depends on a member is a member. */
  ghost predicate DependentClosed(s: set<Id>, e: Edges) {
    forall a, b {:trigger (a, b) in e} :: (a, b) in e && b in s ==> a in s
  }

  lemma {:induction false} DependentClosedHolds(e: Edges, s: set<Id>, a: Id, b: Id, k: nat)
    requires DependentClosed(s, e) && b in s && ReachIn(e, a, b, k)
    ensures a in s
    decreases k
  {
    if k > 0 {
      var c :| (a, c) in e && ReachIn(e, c, b, k - 1);
      DependentClosedHolds(e, s, c, b, k - 1);
    }
  }

  /** The affected set is the least one that holds the seeds and is closed under dependents. */
  lemma AffectedIsLeast(prev: Manifest, cur: Manifest, stale: set<Id>, s: set<Id>, x: Id)
    requires DependentClosed(s, UnionEdges(prev, cur))
    requires forall y :: Seed(prev, cur, stale, y) ==> y in s
    requires Affected(prev, cur, stale, x)
    ensures x in s
  {
    var y :| Seed(prev, cur, stale, y) && Reach(UnionEdges(prev, cur), x, y);
    var k: nat :| ReachIn(UnionEdges(prev, cur), x, y, k);
    DependentClosedHolds(UnionEdges(prev, cur), s, x, y, k);
  }

  lemma AffectedGrows(prev: Manifest, cur: Manifest, stale: set<Id>, a: Id, b: Id)
    requires (a, b) in UnionEdges(prev, cur) && Affected(prev, cur, stale, b)
    ensures Affected(prev, cur, stale, a)
  {
    var s :| Seed(prev, cur, stale, s) && Reach(UnionEdges(prev, cur), b, s);
    ReachStep(UnionEdges(prev, cur), a, b, s);
  }

  lemma NodeEdges(prev: Manifest, cur: Manifest, a: Id, b: Id)
    requires UniqueNodeIds(prev.nodes) && UniqueNodeIds(cur.nodes)
    ensures (a, b) in UnionEdges(prev, cur) <==>
      exists n :: n in prev.nodes + cur.nodes && n.id == a && b in n.dependsOn
  {
    var all := prev.nodes + cur.nodes;
    if (a, b) in EdgesOf(NodeMap(prev.nodes)) {
      assert NodeMap(prev.nodes)[a] in all;
    }
    if (a, b) in EdgesOf(NodeMap(cur.nodes)) {
      assert NodeMap(cur.nodes)[a] in all;
    }
    if n :| n in all && n.id == a && b in n.dependsOn {
      if n in prev.nodes { NodeMapFinds(prev.nodes, n); } else { NodeMapFinds(cur.nodes, n); }
    }
  }

  method ChangedNodes(prev: Manifest, cur: Manifest) returns (changed: set<Id>)
    ensures forall x :: x in changed <==> Seed(prev, cur, {}, x)
  {
    var before, after := NodeMap(prev.nodes), NodeMap(cur.nodes);
    changed := set x | x in before.Keys + after.Keys && !Unchanged(before, after, x);
  }

  /** Nothing in `pass` that depends on a member of `s` is missing from `t`. */
  ghost predicate Passed(pass: seq<Node>, n: nat, s: set<Id>, t: set<Id>)
    requires n <= |pass|
  {
    forall j, d :: 0 <= j < n && d in pass[j].dependsOn && d in s ==> pass[j].id in t
  }

  lemma PassedGrows(pass: seq<Node>, n: nat, s: set<Id>, t: set<Id>, u: set<Id>)
    requires n < |pass| && Passed(pass, n, s, t) && t <= u
    requires forall d :: d in pass[n].dependsOn && d in s ==> pass[n].id in u
    ensures Passed(pass, n + 1, s, u)
  {
  }

  lemma FixpointClosed(prev: Manifest, cur: Manifest, s: set<Id>)
    requires UniqueNodeIds(prev.nodes) && UniqueNodeIds(cur.nodes)
    requires Passed(prev.nodes + cur.nodes, |prev.nodes + cur.nodes|, s, s)
    ensures DependentClosed(s, UnionEdges(prev, cur))
  {
    forall a, b | (a, b) in UnionEdges(prev, cur) && b in s ensures a in s {
      NodeEdges(prev, cur, a, b);
      var n :| n in prev.nodes + cur.nodes && n.id == a && b in n.dependsOn;
      var j :| 0 <= j < |prev.nodes + cur.nodes| && (prev.nodes + cur.nodes)[j] == n;
    }
  }

  function AllIds(prev: Manifest, cur: Manifest): set<Id> {
    set n | n in prev.nodes + cur.nodes :: n.id
  }

  /** One pass over the nodes of both revisions. */
  method Pass(prev: Manifest, cur: Manifest, ghost stale: set<Id>, start: set<Id>) returns (affected: set<Id>)
    requires UniqueNodeIds(prev.nodes) && UniqueNodeIds(cur.nodes)
    requires forall x :: x in start ==> Affected(prev, cur, stale, x)
    ensures start <= affected <= start + AllIds(prev, cur)
    ensures forall x :: x in affected ==> Affected(prev, cur, stale, x)
    ensures Passed(prev.nodes + cur.nodes, |prev.nodes + cur.nodes|, start, affected)
  {
    hide Affected;
    var pass := prev.nodes + cur.nodes;
    affected := start;
    for i := 0 to |pass|
      invariant start <= affected <= start + AllIds(prev, cur)
      invariant forall x :: x in affected ==> Affected(prev, cur, stale, x)
      invariant Passed(pass, i, start, affected)
    {
      var node := pass[i];
      ghost var was := affected;
      if exists d :: d in node.dependsOn && d in affected {
        ghost var d :| d in node.dependsOn && d in affected;
        assert node in pass;
        NodeEdges(prev, cur, node.id, d);
        AffectedGrows(prev, cur, stale, node.id, d);
        affected := affected + {node.id};
      }
      PassedGrows(pass, i, start, was, affected);
    }
  }

  /** Repeats the pass until it adds nothing: the least fixpoint. */
  method AffectedNodes(prev: Manifest, cur: Manifest, stale: set<Id>) returns (changed: set<Id>, affected: set<Id>)
    requires UniqueNodeIds(prev.nodes) && UniqueNodeIds(cur.nodes)
    ensures forall x :: x in changed <==> Seed(prev, cur, {}, x)
    ensures forall x :: x in affected <==> Affected(prev, cur, stale, x)
  {
    changed := ChangedNodes(prev, cur);
    affected := changed + stale;
    ghost var seeds := affected;
    forall x | x in affected ensures Seed(prev, cur, stale, x) && Affected(prev, cur, stale, x) {
      ReachSelf(UnionEdges(prev, cur), x);
    }
    while true
      invariant seeds <= affected <= seeds + AllIds(prev, cur)
      invariant forall x :: x in affected ==> Affected(prev, cur, stale, x)
      decreases |seeds + AllIds(prev, cur)| - |affected|
    {
      var before := affected;
      affected := Pass(prev, cur, stale, before);
      SubsetSize(affected, seeds + AllIds(prev, cur));
      if |before| == |affected| {
        EqualSize(before, affected);
        FixpointClosed(prev, cur, affected);
        break;
      }
      SubsetSize(before, affected);
    }
    forall x | Affected(prev, cur, stale, x) ensures x in affected {
      forall y | Seed(prev, cur, stale, y) ensures y in affected {
        if y !in stale { assert Seed(prev, cur, {}, y); }
      }
      AffectedIsLeast(prev, cur, stale, affected, x);
    }
  }

  lemma EqualSize(a: set<Id>, b: set<Id>)
    requires a <= b && |a| == |b|
    ensures a == b
  {
    if a != b { SubsetSmaller(a, b); }
  }

  // ---------------------------------------------------------------- the impact report

  datatype Report = Report(
    changed: set<Id>, affected: set<Id>,
    invalidated: seq<Id>, preserved: seq<Id>,
    executionChanged: bool, profilesChanged: bool, unknownMapping: bool)

  ghost predicate UnknownMapping(cur: Manifest, otherGaps: bool) {
    otherGaps || exists c :: c in cur.checks && !CoverageComplete(cur, c)
  }

  /** What a current check needs to keep its credit. */
  ghost predicate Eligible(prev: Manifest, cur: Manifest, stale: set<Id>, otherGaps: bool, c: Check) {
    && SameExecution(prev.execution, cur.execution)
    && prev.profiles == cur.profiles && !UnknownMapping(cur, otherGaps)
    && c in prev.checks && c.runId.Some? && c.resultPath.Some?
    && InputsCurrent(cur, stale, c) && !Affected(prev, cur, stale, c.testId)
  }

  /** A check has an affected prerequisite exactly when its test node is affected. */
  lemma StaleFlag(prev: Manifest, cur: Manifest, stale: set<Id>, c: Check)
    ensures (exists x :: Prerequisite(cur, c, x) && Affected(prev, cur, stale, x)) <==> Affected(prev, cur, stale, c.testId)
  {
    var e := UnionEdges(prev, cur);
    if x :| Prerequisite(cur, c, x) && Affected(prev, cur, stale, x) {
      var s :| Seed(prev, cur, stale, s) && Reach(e, x, s);
      ReachMonotone(EdgesOf(NodeMap(cur.nodes)), e, c.testId, x);
      ReachTransitive(e, c.testId, x, s);
    }
    ReachSelf(EdgesOf(NodeMap(cur.nodes)), c.testId);
    assert Prerequisite(cur, c, c.testId);
  }

  /** An unaffected node has the same outgoing edges in both revisions. */
  lemma UnaffectedSameEdges(prev: Manifest, cur: Manifest, stale: set<Id>, x: Id, y: Id)
    requires x in NodeMap(cur.nodes) && !Affected(prev, cur, stale, x)
    ensures x !in stale && Unchanged(NodeMap(prev.nodes), NodeMap(cur.nodes), x)
    ensures (x, y) in EdgesOf(NodeMap(prev.nodes)) <==> (x, y) in EdgesOf(NodeMap(cur.nodes))
  {
    ReachSelf(UnionEdges(prev, cur), x);
    assert !Seed(prev, cur, stale, x);
    var a, b := NodeMap(prev.nodes)[x], NodeMap(cur.nodes)[x];
    FingerprintExact(a, b);
    SameMultiset(a.dependsOn, b.dependsOn);
  }

  /** The prerequisite region of a check. */
  ghost function Region(m: Manifest, c: Check): set<Id> {
    set x | x in NodeMap(m.nodes) && Prerequisite(m, c, x)
  }

  lemma RegionClosed(m: Manifest, c: Check)
    requires Valid(m) && c in m.checks
    ensures c.testId in Region(m, c) && ClosedUnder(Region(m, c), EdgesOf(NodeMap(m.nodes)))
  {
    var e := EdgesOf(NodeMap(m.nodes));
    CheckClosureDefined(m, c);
    ReachSelf(e, c.testId);
    forall x, y | (x, y) in e && x in Region(m, c) ensures y in Region(m, c) {
      ReachThenEdge(e, c.testId, x, y);
    }
  }

  lemma RegionUnaffected(prev: Manifest, cur: Manifest, stale: set<Id>, c: Check, x: Id)
    requires !Affected(prev, cur, stale, c.testId) && x in Region(cur, c)
    ensures !Affected(prev, cur, stale, x)
  {
    StaleFlag(prev, cur, stale, c);
  }

  lemma SameClosure(prev: Manifest, cur: Manifest, stale: set<Id>, c: Check, x: Id)
    requires Valid(cur) && c in cur.checks && !Affected(prev, cur, stale, c.testId)
    ensures Prerequisite(prev, c, x) <==> Prerequisite(cur, c, x)
  {
    var e, f := EdgesOf(NodeMap(prev.nodes)), EdgesOf(NodeMap(cur.nodes));
    RegionClosed(cur, c);
    forall a: Id, b: Id | a in Region(cur, c) ensures (a, b) in e <==> (a, b) in f {
      RegionUnaffected(prev, cur, stale, c, a);
      UnaffectedSameEdges(prev, cur, stale, a, b);
    }
    ReachAgrees(f, e, Region(cur, c), c.testId, x);
  }

  lemma SameFingerprints(prev: Manifest, cur: Manifest, stale: set<Id>, c: Check)
    requires Valid(prev) && Valid(cur) && c in cur.checks && c in prev.checks
    requires !Affected(prev, cur, stale, c.testId)
    ensures InputFingerprints(prev, c) == InputFingerprints(cur, c)
  {
    CheckClosureDefined(cur, c);
    CheckClosureDefined(prev, c);
    var before, after := NodeMap(prev.nodes), NodeMap(cur.nodes);
    forall x ensures x in InputFingerprints(prev, c) <==> x in InputFingerprints(cur, c) {
      SameClosure(prev, cur, stale, c, x);
    }
    forall x | x in InputFingerprints(cur, c) ensures NodeFingerprint(before[x]) == NodeFingerprint(after[x]) {
      RegionUnaffected(prev, cur, stale, c, x);
      UnaffectedSameEdges(prev, cur, stale, x, x);
    }
  }

  /** Impact soundness: a check that keeps its credit has, in both revisions, the same prerequisite
      closure with the same fingerprints, none of it stale, and complete coverage. */
  lemma ImpactSound(prev: Manifest, cur: Manifest, stale: set<Id>, otherGaps: bool, c: Check)
    requires Valid(prev) && Valid(cur) && c in cur.checks
    requires Eligible(prev, cur, stale, otherGaps, c)
    ensures forall x :: Prerequisite(prev, c, x) <==> Prerequisite(cur, c, x)
    ensures InputFingerprints(prev, c) == InputFingerprints(cur, c) == c.inputSha256
    ensures forall x :: Prerequisite(cur, c, x) ==> x !in stale
    ensures CoverageComplete(cur, c)
  {
    forall x ensures Prerequisite(prev, c, x) <==> Prerequisite(cur, c, x) { SameClosure(prev, cur, stale, c, x); }
    SameFingerprints(prev, cur, stale, c);
  }

  // ---------------------------------------------------------------- producing the report

  function CheckIds(checks: seq<Check>): set<Id> {
    set c | c in checks :: c.id
  }

  /** What has been decided about the first `n` current checks. */
  ghost predicate Decided(prev: Manifest, cur: Manifest, stale: set<Id>, otherGaps: bool, n: nat, kept: set<Id>, dropped: set<Id>)
    requires n <= |cur.checks|
  {
    && kept !! dropped && kept + dropped == CheckIds(cur.checks[..n])
    && forall j :: 0 <= j < n ==> (cur.checks[j].id in kept <==> Eligible(prev, cur, stale, otherGaps, cur.checks[j]))
  }

  lemma DecideNext(prev: Manifest, cur: Manifest, stale: set<Id>, otherGaps: bool, n: nat, kept: set<Id>, dropped: set<Id>)
    requires n < |cur.checks| && UniqueCheckIds(cur.checks)
    requires Decided(prev, cur, stale, otherGaps, n, kept, dropped)
    ensures cur.checks[n].id !in kept && cur.checks[n].id !in dropped
    ensures if Eligible(prev, cur, stale, otherGaps, cur.checks[n])
      then Decided(prev, cur, stale, otherGaps, n + 1, kept + {cur.checks[n].id}, dropped)
      else Decided(prev, cur, stale, otherGaps, n + 1, kept, dropped + {cur.checks[n].id})
  {
    assert cur.checks[..n + 1] == cur.checks[..n] + [cur.checks[n]];
    assert CheckIds(cur.checks[..n + 1]) == CheckIds(cur.checks[..n]) + {cur.checks[n].id};
  }

  ghost predicate FirstComplete(m: Manifest, n: nat)
    requires n <= |m.checks|
  {
    forall j :: 0 <= j < n ==> CoverageComplete(m, m.checks[j])
  }

  lemma FirstCompleteGrows(m: Manifest, n: nat)
    requires n < |m.checks| && FirstComplete(m, n) && CoverageComplete(m, m.checks[n])
    ensures FirstComplete(m, n + 1)
  {
  }

  method AnyUnknown(cur: Manifest, otherGaps: bool) returns (unknown: bool)
    requires Valid(cur)
    ensures unknown <==> UnknownMapping(cur, otherGaps)
  {
    if otherGaps { return true; }
    for i := 0 to |cur.checks|
      invariant FirstComplete(cur, i)
    {
      assert cur.checks[i] in cur.checks;
      var status := JudgeCheck(cur, {}, cur.checks[i]);
      if !status.coverageComplete { return true; }
      FirstCompleteGrows(cur, i);
    }
    unknown := false;
  }

  method Keeps(prev: Manifest, cur: Manifest, stale: set<Id>, otherGaps: bool, affected: set<Id>, sameExecution: bool,
               sameProfiles: bool, unknown: bool, c: Check) returns (keeps: bool)
    requires Valid(cur) && c in cur.checks && forall x :: x in affected <==> Affected(prev, cur, stale, x)
    requires sameExecution <==> SameExecution(prev.execution, cur.execution)
    requires sameProfiles <==> prev.profiles == cur.profiles
    requires unknown <==> UnknownMapping(cur, otherGaps)
    ensures keeps <==> Eligible(prev, cur, stale, otherGaps, c)
  {
    hide SameExecution, UnknownMapping, InputsCurrent, CoverageComplete, Affected, Prerequisite, Valid;
    var inputs := Prerequisites(cur, c);
    var status := JudgeCheck(cur, stale, c);
    var staleFlag := exists x :: x in inputs && x in affected;
    StaleFlag(prev, cur, stale, c);
    keeps := sameExecution && sameProfiles && !unknown && c in prev.checks && c.runId.Some? && c.resultPath.Some?
             && status.inputsCurrent && !staleFlag;
  }

  /** The lists of a report: every known check is in exactly one of them. */
  ghost predicate Partitioned(prev: Manifest, cur: Manifest, kept: seq<Id>, dropped: seq<Id>) {
    && (forall x :: x in kept || x in dropped <==> x in CheckIds(prev.checks) + CheckIds(cur.checks))
    && (forall x :: x in kept ==> x !in dropped && x in CheckIds(cur.checks))
    && SortedBy(kept, IdLe) && SortedBy(dropped, IdLe) && Distinct(kept) && Distinct(dropped)
  }

  /** Decides every current check. */
  method DecideAll(prev: Manifest, cur: Manifest, stale: set<Id>, otherGaps: bool, affected: set<Id>, sameExecution: bool,
                   sameProfiles: bool, unknown: bool) returns (kept: set<Id>, dropped: set<Id>)
    requires Valid(cur) && forall x :: x in affected <==> Affected(prev, cur, stale, x)
    requires sameExecution <==> SameExecution(prev.execution, cur.execution)
    requires sameProfiles <==> prev.profiles == cur.profiles
    requires unknown <==> UnknownMapping(cur, otherGaps)
    ensures Decided(prev, cur, stale, otherGaps, |cur.checks|, kept, dropped)
  {
    hide Affected, Eligible, UnknownMapping, SameExecution;
    kept, dropped := {}, {};
    for i := 0 to |cur.checks|
      invariant Decided(prev, cur, stale, otherGaps, i, kept, dropped)
    {
      assert cur.checks[i] in cur.checks;
      var keeps := Keeps(prev, cur, stale, otherGaps, affected, sameExecution, sameProfiles, unknown, cur.checks[i]);
      DecideNext(prev, cur, stale, otherGaps, i, kept, dropped);
      if keeps { kept := kept + {cur.checks[i].id}; } else { dropped := dropped + {cur.checks[i].id}; }
    }
  }

  /** The checks of the previous revision that the current one no longer has. */
  function Vanished(prev: Manifest, cur: Manifest): set<Id> {
    CheckIds(prev.checks) - CheckIds(cur.checks)
  }

  /** Listing the kept and the dropped checks, with the vanished ones among the dropped. */
  lemma ListsPartition(prev: Manifest, cur: Manifest, stale: set<Id>, otherGaps: bool, kept: set<Id>, dropped: set<Id>,
                       preserved: seq<Id>, invalidated: seq<Id>)
    requires Decided(prev, cur, stale, otherGaps, |cur.checks|, kept, dropped)
    requires forall x :: x in preserved <==> x in kept
    requires forall x :: x in invalidated <==> x in dropped + Vanished(prev, cur)
    requires SortedBy(preserved, IdLe) && SortedBy(invalidated, IdLe) && Distinct(preserved) && Distinct(invalidated)
    ensures Partitioned(prev, cur, preserved, invalidated)
    ensures forall c :: c in cur.checks ==> (c.id in preserved <==> Eligible(prev, cur, stale, otherGaps, c))
  {
    hide Eligible, CheckIds;
    assert cur.checks[..|cur.checks|] == cur.checks;
    forall c | c in cur.checks ensures c.id in preserved <==> Eligible(prev, cur, stale, otherGaps, c) {
      var j :| 0 <= j < |cur.checks| && cur.checks[j] == c;
    }
  }

  method Impact(prev: Manifest, cur: Manifest, stale: set<Id>, otherGaps: bool) returns (r: Option<Report>)
    requires Valid(prev) && Valid(cur)
    ensures r.None? <==> prev.projectId != cur.projectId
    ensures r.Some? ==> forall x :: x in r.value.changed <==> Seed(prev, cur, {}, x)
    ensures r.Some? ==> forall x :: x in r.value.affected <==> Affected(prev, cur, stale, x)
    ensures r.Some? ==> Partitioned(prev, cur, r.value.preserved, r.value.invalidated)
    ensures r.Some? ==> forall c :: c in cur.checks ==>
      (c.id in r.value.preserved <==> Eligible(prev, cur, stale, otherGaps, c))
    ensures r.Some? ==>
      && (r.value.executionChanged <==> !SameExecution(prev.execution, cur.execution))
      && (r.value.profilesChanged <==> prev.profiles != cur.profiles)
      && (r.value.unknownMapping <==> UnknownMapping(cur, otherGaps))
  {
    hide Seed, Affected, Eligible, UnknownMapping, SameExecution, Decided, Partitioned, OrderedIds;
    if prev.projectId != cur.projectId { return None; }
    var changed, affected := AffectedNodes(prev, cur, stale);
    var sameExecution := ExecutionFingerprint(prev.execution) == ExecutionFingerprint(cur.execution);
    ExecutionFingerprintExact(prev.execution, cur.execution);
    var sameProfiles := prev.profiles == cur.profiles;
    var unknown := AnyUnknown(cur, otherGaps);
    var kept, dropped := DecideAll(prev, cur, stale, otherGaps, affected, sameExecution, sameProfiles, unknown);
    var preserved := InOrder(kept);
    var invalidated := InOrder(dropped + Vanished(prev, cur));
    ListsPartition(prev, cur, stale, otherGaps, kept, dropped, preserved, invalidated);
    r := Some(Report(changed, affected, invalidated, preserved, !sameExecution, !sameProfiles, unknown));
  }

  /** The public report keeps only credit backed by a verified local run, and moves the rest over. */
  method ReceiptsImpact(prev: Manifest, cur: Manifest, report: Report, verified: set<Id>) returns (r: Report)
    requires Partitioned(prev, cur, report.preserved, report.invalidated)
    ensures Partitioned(prev, cur, r.preserved, r.invalidated)
    ensures forall x :: x in r.preserved <==> x in report.preserved && x in verified
    ensures r == report.(preserved := r.preserved, invalidated := r.invalidated)
  {
    var preserved: seq<Id> := [];
    var invalidated := report.invalidated;
    for i := 0 to |report.preserved|
      invariant forall x :: x in preserved <==> x in verified && x in report.preserved[..i]
      invariant forall x :: x in invalidated <==> x in report.invalidated || (x !in verified && x in report.preserved[..i])
      invariant SortedBy(preserved, IdLe) && Distinct(preserved)
    {
      var id := report.preserved[i];
      assert id in report.preserved && id !in report.preserved[..i];
      assert report.preserved[..i + 1] == report.preserved[..i] + [id];
      if id in verified {
        forall y | y in preserved ensures y < id { assert y in report.preserved[..i]; }
        AppendGreatest(preserved, id);
        preserved := preserved + [id];
      } else {
        invalidated := invalidated + [id];
      }
    }
    assert report.preserved[..|report.preserved|] == report.preserved;
    var sorted := InOrder(Elements(invalidated));
    r := report.(preserved := preserved, invalidated := sorted);
  }
}
