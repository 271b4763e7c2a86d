/** Structural validation: what every manifest handed to the other delivery operations satisfies. */
module DeliveryStructure {
  import opened Ordering
  import opened Graphs
  import opened Delivery
  import opened DeliveryGraph

  predicate HasKind(nodes: map<Id, Node>, id: Id, kind: NodeKind) {
    id in nodes && nodes[id].kind == kind
  }

  ghost predicate NodeRule(nodes: map<Id, Node>, n: Node) {
    && Distinct(n.dependsOn) && (forall d :: d in n.dependsOn ==> d in nodes)
    && (n.kind == Scenario <==> n.scenario.Some?)
    && (n.scenario.Some? ==>
          && Distinct(n.scenario.value.requirements)
          && forall r :: r in n.scenario.value.requirements ==> HasKind(nodes, r, Requirement))
  }

  ghost predicate CheckRule(m: Manifest, nodes: map<Id, Node>, c: Check) {
    && HasKind(nodes, c.testId, Test) && c.commandId in m.execution.commands
    && Distinct(c.scenarioIds) && Distinct(c.categories)
    && forall s :: s in c.scenarioIds ==> HasKind(nodes, s, Scenario)
  }

  ghost predicate UniqueCheckIds(checks: seq<Check>) {
    forall i, j :: 0 <= i < j < |checks| ==> checks[i].id != checks[j].id
  }

  /** A manifest as accepted: unique IDs, typed references, no dangling edge and no cycle. */
  ghost predicate Valid(m: Manifest) {
    var nodes := NodeMap(m.nodes);
    && m.schemaVersion == 1 && |m.nodes| <= MAX_NODES && |m.checks| <= MAX_CHECKS
    && m.execution.commandCwds.Keys <= m.execution.commands.Keys
    && UniqueNodeIds(m.nodes) && (forall n :: n in m.nodes ==> NodeRule(nodes, n))
    && Acyclic(EdgesOf(nodes))
    && UniqueCheckIds(m.checks) && (forall c :: c in m.checks ==> CheckRule(m, nodes, c))
  }

  lemma ValidHasNoDangling(m: Manifest)
    requires forall n :: n in m.nodes ==> NodeRule(NodeMap(m.nodes), n)
    ensures NoDangling(NodeMap(m.nodes))
  {
    var nodes := NodeMap(m.nodes);
    forall a, b | (a, b) in EdgesOf(nodes) ensures b in nodes {
      assert nodes[a] in m.nodes;
    }
  }

  lemma MapInsertSize(m: map<Id, Node>, n: Node)
    ensures |m[n.id := n]| == |m| + (if n.id in m then 0 else 1)
  {
    var r := m[n.id := n];
    assert r.Keys == m.Keys + {n.id};
    assert |r| == |r.Keys| && |m| == |m.Keys|;
    if n.id in m {
      assert r.Keys == m.Keys;
    }
  }

  lemma {:induction false} UniqueExtends(front: seq<Node>, last: Node)
    ensures UniqueNodeIds(front + [last]) <==> UniqueNodeIds(front) && last.id !in NodeMap(front)
  {
    var nodes := front + [last];
    if last.id in NodeMap(front) {
      var i :| 0 <= i < |front| && front[i] == NodeMap(front)[last.id];
      assert nodes[i].id == nodes[|front|].id;
    }
    if UniqueNodeIds(nodes) {
      forall i, j | 0 <= i < j < |front| ensures front[i].id != front[j].id {
        assert nodes[i].id != nodes[j].id;
      }
    } else {
      var i, j :| 0 <= i < j < |nodes| && nodes[i].id == nodes[j].id;
      assert front[i] in front;
    }
  }

  /** Collecting nodes into a map keeps their number exactly when no ID repeats. */
  lemma {:induction false} NodeMapSize(nodes: seq<Node>)
    ensures |NodeMap(nodes)| <= |nodes|
    ensures |NodeMap(nodes)| == |nodes| <==> UniqueNodeIds(nodes)
  {
    if nodes != [] {
      var front, last := nodes[..|nodes| - 1], nodes[|nodes| - 1];
      assert nodes == front + [last];
      NodeMapSize(front);
      MapInsertSize(NodeMap(front), last);
      UniqueExtends(front, last);
    }
  }

  method UniqueIds(values: seq<Id>) returns (ok: bool)
    ensures ok <==> Distinct(values)
  {
    var seen: set<Id> := {};
    for i := 0 to |values|
      invariant forall x :: x in seen <==> exists k :: 0 <= k < i && values[k] == x
      invariant forall j, k :: 0 <= j < k < i ==> values[j] != values[k]
    {
      if values[i] in seen { return false; }
      seen := seen + {values[i]};
    }
    ok := true;
  }

  method ValidateNode(nodes: map<Id, Node>, n: Node) returns (ok: bool)
    ensures ok <==> NodeRule(nodes, n)
  {
    ok := UniqueIds(n.dependsOn);
    if !ok { return; }
    for i := 0 to |n.dependsOn|
      invariant forall j :: 0 <= j < i ==> n.dependsOn[j] in nodes
    {
      if n.dependsOn[i] !in nodes {
        assert n.dependsOn[i] in n.dependsOn;
        return false;
      }
    }
    match n.scenario
    case None => ok := n.kind != Scenario;
    case Some(scenario) =>
      if n.kind != Scenario { return false; }
      ok := UniqueIds(scenario.requirements);
      if !ok { return; }
      for i := 0 to |scenario.requirements|
        invariant forall j :: 0 <= j < i ==> HasKind(nodes, scenario.requirements[j], Requirement)
      {
        if !HasKind(nodes, scenario.requirements[i], Requirement) {
          assert scenario.requirements[i] in scenario.requirements;
          return false;
        }
      }
  }

  method ValidateNodes(nodes: map<Id, Node>, all: seq<Node>) returns (ok: bool)
    ensures ok <==> forall n :: n in all ==> NodeRule(nodes, n)
  {
    for i := 0 to |all|
      invariant forall j :: 0 <= j < i ==> NodeRule(nodes, all[j])
    {
      ok := ValidateNode(nodes, all[i]);
      if !ok {
        assert all[i] in all;
        return;
      }
    }
    ok := true;
  }

  method ValidateCheck(m: Manifest, nodes: map<Id, Node>, c: Check) returns (ok: bool)
    ensures ok <==> CheckRule(m, nodes, c)
  {
    if !HasKind(nodes, c.testId, Test) || c.commandId !in m.execution.commands { return false; }
    ok := UniqueIds(c.scenarioIds);
    if !ok { return; }
    ok := UniqueIds(c.categories);
    if !ok { return; }
    for i := 0 to |c.scenarioIds|
      invariant forall j :: 0 <= j < i ==> HasKind(nodes, c.scenarioIds[j], Scenario)
    {
      if !HasKind(nodes, c.scenarioIds[i], Scenario) {
        assert c.scenarioIds[i] in c.scenarioIds;
        return false;
      }
    }
  }

  method ValidateChecks(m: Manifest, nodes: map<Id, Node>) returns (ok: bool)
    ensures ok <==> UniqueCheckIds(m.checks) && forall c :: c in m.checks ==> CheckRule(m, nodes, c)
  {
    var seen: set<Id> := {};
    for i := 0 to |m.checks|
      invariant forall x :: x in seen <==> exists k :: 0 <= k < i && m.checks[k].id == x
      invariant forall j, k :: 0 <= j < k < i ==> m.checks[j].id != m.checks[k].id
      invariant forall j :: 0 <= j < i ==> CheckRule(m, nodes, m.checks[j])
    {
      if m.checks[i].id in seen { return false; }
      seen := seen + {m.checks[i].id};
      ok := ValidateCheck(m, nodes, m.checks[i]);
      if !ok {
        assert m.checks[i] in m.checks;
        return;
      }
    }
    ok := true;
  }

  /** Accepts exactly the valid manifests; in particular the graph it lets through is acyclic. */
  method ValidateStructure(m: Manifest) returns (ok: bool)
    ensures ok <==> Valid(m)
  {
    if m.schemaVersion != 1 || |m.nodes| > MAX_NODES || |m.checks| > MAX_CHECKS { return false; }
    if !(m.execution.commandCwds.Keys <= m.execution.commands.Keys) { return false; }
    var nodes := NodeMap(m.nodes);
    NodeMapSize(m.nodes);
    if |nodes| != |m.nodes| { return false; }
    ok := ValidateNodes(nodes, m.nodes);
    if !ok { return; }
    ValidHasNoDangling(m);
    ok := CheckAcyclic(m.nodes, nodes);
    if !ok { return; }
    ok := ValidateChecks(m, nodes);
  }
}
