/** Delivery manifests: nodes, checks, fingerprints, and the structural rules every loaded manifest meets. */
module Delivery {
  import opened Ordering
  import opened Graphs

  const MAX_NODES := 2048
  const MAX_CHECKS := 512

  datatype NodeKind =
    | Requirement | Scenario | Planning | Design | Implementation | Test
    | Source | Dependency | Asset | Build | Environment

  datatype DeliveryFile = DeliveryFile(path: string, sha256: string)

  datatype ScenarioManifest = ScenarioManifest(
    requirements: seq<Id>, preconditions: seq<string>, actions: seq<string>,
    expected: seq<string>, failureRecovery: seq<string>)

  datatype Node = Node(
    id: Id, kind: NodeKind, description: string, dependsOn: seq<Id>,
    file: Option<DeliveryFile>, scenario: Option<ScenarioManifest>)

  /** SHA-256 as an injective function: the digest of a serialized node is that node;
      any other 64 hex characters are `Foreign`. */
  datatype Digest = OfNode(node: Node) | Foreign(hex: string)

  datatype Check = Check(
    id: Id, commandId: Id, scenarioIds: seq<Id>, testId: Id, categories: seq<Id>,
    inputSha256: map<Id, Digest>, runId: Option<Id>, resultPath: Option<string>)

  datatype Execution = Execution(
    commands: map<Id, seq<string>>, commandCwds: map<Id, string>, declarations: seq<seq<string>>)

  /** Profiles are keyed by ID and their exemptions by category, so both are order-free as hashed. */
  datatype Profile = Profile(version: nat, notApplicable: map<string, string>)

  datatype Manifest = Manifest(
    schemaVersion: nat, projectId: Id, revision: string, execution: Execution,
    profiles: map<Id, Profile>, nodes: seq<Node>, checks: seq<Check>)

  // ---------------------------------------------------------------- fingerprints

  function Canonical(node: Node): Node {
    var sorted := node.(dependsOn := SortIds(node.dependsOn));
    match node.scenario
    case None => sorted
    case Some(s) => sorted.(scenario := Some(s.(requirements := SortIds(s.requirements))))
  }

  function NodeFingerprint(node: Node): Digest {
    OfNode(Canonical(node))
  }

  ghost predicate SameScenario(s: ScenarioManifest, t: ScenarioManifest) {
    && multiset(s.requirements) == multiset(t.requirements)
    && s.preconditions == t.preconditions && s.actions == t.actions
    && s.expected == t.expected && s.failureRecovery == t.failureRecovery
  }

  /** Two nodes that differ at most in the order of their dependency and requirement lists. */
  ghost predicate SameUpToOrder(a: Node, b: Node) {
    && a.id == b.id && a.kind == b.kind && a.description == b.description && a.file == b.file
    && multiset(a.dependsOn) == multiset(b.dependsOn)
    && a.scenario.Some? == b.scenario.Some?
    && (a.scenario.Some? ==> SameScenario(a.scenario.value, b.scenario.value))
  }

  lemma ScenarioExact(s: ScenarioManifest, t: ScenarioManifest)
    ensures s.(requirements := SortIds(s.requirements)) == t.(requirements := SortIds(t.requirements))
      <==> SameScenario(s, t)
  {
    SortIdsCanonical(s.requirements, t.requirements);
  }

  /** A fingerprint identifies its node up to the order of those two lists. */
  lemma FingerprintExact(a: Node, b: Node)
    ensures NodeFingerprint(a) == NodeFingerprint(b) <==> SameUpToOrder(a, b)
  {
    SortIdsCanonical(a.dependsOn, b.dependsOn);
    if a.scenario.Some? && b.scenario.Some? {
      ScenarioExact(a.scenario.value, b.scenario.value);
    }
  }

  /** The declarations as hashed: every command without a working directory gets the workspace root. */
  function ExecutionFingerprint(e: Execution): Execution {
    e.(commandCwds := (map id | id in e.commands && id !in e.commandCwds :: ".") + e.commandCwds)
  }

  /** Where a command runs: in its declared directory, else in the workspace root. */
  function EffectiveCwd(e: Execution, command: Id): string {
    if command in e.commandCwds then e.commandCwds[command] else "."
  }

  /** The same commands and declarations, every command run in the same directory,
      and the same directories declared for anything else. */
  ghost predicate SameExecution(e: Execution, f: Execution) {
    && e.commands == f.commands && e.declarations == f.declarations
    && (forall c :: c in e.commands ==> EffectiveCwd(e, c) == EffectiveCwd(f, c))
    && (forall c :: c !in e.commands ==> (c in e.commandCwds <==> c in f.commandCwds))
    && (forall c :: c !in e.commands && c in e.commandCwds && c in f.commandCwds ==> e.commandCwds[c] == f.commandCwds[c])
  }

  /** What is hashed for each command and for anything else. */
  lemma HashedCwds(e: Execution, c: Id)
    ensures var h := ExecutionFingerprint(e).commandCwds;
      && (c in h <==> c in e.commands || c in e.commandCwds)
      && (c in e.commands ==> h[c] == EffectiveCwd(e, c))
      && (c in e.commandCwds ==> h[c] == e.commandCwds[c])
  {
  }

  lemma SameFingerprintRunsAlike(e: Execution, f: Execution)
    requires ExecutionFingerprint(e) == ExecutionFingerprint(f)
    ensures SameExecution(e, f)
  {
    assert e.commands == f.commands && e.declarations == f.declarations;
    hide ExecutionFingerprint, EffectiveCwd;
    forall c: Id
      ensures c in e.commands ==> EffectiveCwd(e, c) == EffectiveCwd(f, c)
      ensures c !in e.commands ==> (c in e.commandCwds <==> c in f.commandCwds)
      ensures c !in e.commands && c in e.commandCwds && c in f.commandCwds ==> e.commandCwds[c] == f.commandCwds[c]
    {
      HashedCwds(e, c);
      HashedCwds(f, c);
    }
  }

  lemma AlikeHasSameFingerprint(e: Execution, f: Execution)
    requires SameExecution(e, f)
    ensures ExecutionFingerprint(e) == ExecutionFingerprint(f)
  {
    var a, b := ExecutionFingerprint(e), ExecutionFingerprint(f);
    assert a == e.(commandCwds := a.commandCwds) && b == f.(commandCwds := b.commandCwds);
    hide ExecutionFingerprint, EffectiveCwd;
    forall c: Id
      ensures c in a.commandCwds <==> c in b.commandCwds
      ensures c in a.commandCwds && c in b.commandCwds ==> a.commandCwds[c] == b.commandCwds[c]
    {
      HashedCwds(e, c);
      HashedCwds(f, c);
    }
    assert a.commandCwds == b.commandCwds;
  }

  /** Two executions share a fingerprint exactly when they run the same commands in the same places. */
  lemma ExecutionFingerprintExact(e: Execution, f: Execution)
    ensures ExecutionFingerprint(e) == ExecutionFingerprint(f) <==> SameExecution(e, f)
  {
    hide ExecutionFingerprint, SameExecution;
    if ExecutionFingerprint(e) == ExecutionFingerprint(f) { SameFingerprintRunsAlike(e, f); }
    if SameExecution(e, f) { AlikeHasSameFingerprint(e, f); }
  }

  // ---------------------------------------------------------------- node maps and edges

  function NodeMap(nodes: seq<Node>): (r: map<Id, Node>)
    ensures forall id :: id in r ==> r[id] in nodes && r[id].id == id
    ensures forall n :: n in nodes ==> n.id in r
  {
    if nodes == [] then map[]
    else
      var last := nodes[|nodes| - 1];
      NodeMap(nodes[..|nodes| - 1])[last.id := last]
  }

  ghost predicate UniqueNodeIds(nodes: seq<Node>) {
    forall i, j :: 0 <= i < j < |nodes| ==> nodes[i].id != nodes[j].id
  }

  lemma {:induction false} NodeMapFinds(nodes: seq<Node>, n: Node)
    requires UniqueNodeIds(nodes) && n in nodes
    ensures n.id in NodeMap(nodes) && NodeMap(nodes)[n.id] == n
  {
    var last := nodes[|nodes| - 1];
    if n != last {
      var front := nodes[..|nodes| - 1];
      var i :| 0 <= i < |nodes| && nodes[i] == n;
      assert front[i] == n;
      NodeMapFinds(front, n);
    }
  }

  function EdgesOf(nodes: map<Id, Node>): (e: Edges)
    ensures forall a, b {:trigger (a, b) in e} :: (a, b) in e <==> a in nodes && b in nodes[a].dependsOn
  {
    set a, b | a in nodes.Keys && b in nodes[a].dependsOn :: (a, b)
  }

  /** Every dependency names a node. */
  ghost predicate NoDangling(nodes: map<Id, Node>) {
    ClosedUnder(nodes.Keys, EdgesOf(nodes))
  }
}
