/** The graph walks of manifest loading: the cycle check and the dependency closure. */
module DeliveryGraph {
  import opened Ordering
  import opened Graphs
  import opened Delivery

  // ---------------------------------------------------------------- cycle check

  /** A set of finished nodes: nothing leaves it and no cycle meets it. */
  ghost predicate Finished(done: set<Id>, e: Edges) {
    ClosedUnder(done, e) && forall a :: a in done ==> !Follows(e, a, a)
  }

  /** Finishing a node whose dependencies are all finished. */
  lemma FinishNode(done: set<Id>, id: Id, e: Edges)
    requires Finished(done, e) && id !in done
    requires forall d :: (id, d) in e ==> d in done
    ensures Finished(done + {id}, e)
  {
    if Follows(e, id, id) {
      var c :| (id, c) in e && Reach(e, c, id);
      ClosedHoldsReach(e, done, c, id);
      assert false;
    }
  }

  /** What holds between visits: `visiting` is a path, `done` is finished, and they share no node. */
  ghost predicate Walking(nodes: map<Id, Node>, visiting: set<Id>, done: set<Id>) {
    visiting <= nodes.Keys && done <= nodes.Keys && Finished(done, EdgesOf(nodes)) && done !! visiting
  }

  /** Every node of the path leads to `id`. */
  ghost predicate LeadsTo(visiting: set<Id>, id: Id, e: Edges) {
    forall v :: v in visiting ==> Follows(e, v, id)
  }

  lemma LeadsToChild(visiting: set<Id>, id: Id, child: Id, e: Edges)
    requires LeadsTo(visiting, id, e) && (id, child) in e
    ensures LeadsTo(visiting + {id}, child, e)
  {
    ReachSelf(e, child);
    ReachStep(e, id, child, child);
    forall v | v in visiting ensures Follows(e, v, child) {
      FollowsThenEdge(e, v, id, child);
    }
  }

  /** Depth-first visit. `visiting` is the recursion path, `done` is shared by all roots.
      It refuses exactly when it walks into its own path, which is then a cycle. */
  method Visit(id: Id, nodes: map<Id, Node>, visiting0: set<Id>, done0: set<Id>)
    returns (ok: bool, visiting: set<Id>, done: set<Id>)
    requires NoDangling(nodes) && id in nodes
    requires Walking(nodes, visiting0, done0) && LeadsTo(visiting0, id, EdgesOf(nodes))
    ensures !ok ==> !Acyclic(EdgesOf(nodes))
    ensures ok ==> visiting == visiting0 && id in done && done0 <= done && Walking(nodes, visiting0, done)
    decreases |nodes.Keys - visiting0|
  {
    ghost var e := EdgesOf(nodes);
    visiting, done := visiting0, done0;
    if id in done { return true, visiting, done; }
    if id in visiting {
      assert Follows(e, id, id);
      return false, visiting, done;
    }
    visiting := visiting + {id};
    SubsetSmaller(nodes.Keys - visiting, nodes.Keys - visiting0);
    var deps := nodes[id].dependsOn;
    for i := 0 to |deps|
      invariant visiting == visiting0 + {id} && done0 <= done && Walking(nodes, visiting, done)
      invariant FirstIn(deps, i, done)
    {
      var child := deps[i];
      assert (id, child) in e;
      LeadsToChild(visiting0, id, child, e);
      assert child in nodes;
      ghost var before := done;
      ok, visiting, done := Visit(child, nodes, visiting, done);
      if !ok { return; }
      FirstInGrows(deps, i, before, done);
    }
    FinishNode(done, id, e);
    visiting := visiting - {id};
    done := done + {id};
    ok := true;
  }

  lemma {:induction false} SubsetSmaller(a: set<Id>, b: set<Id>)
    requires a < b
    ensures |a| < |b|
  {
    var x :| x in b && x !in a;
    assert a <= b - {x};
    SubsetSize(a, b - {x});
  }

  lemma {:induction false} SubsetSize(a: set<Id>, b: set<Id>)
    requires a <= b
    ensures |a| <= |b|
    decreases |a|
  {
    if a != {} {
      var x :| x in a;
      SubsetSize(a - {x}, b - {x});
    }
  }

  /** The driver: a fresh path per root, one shared set of finished nodes. */
  method CheckAcyclic(roots: seq<Node>, nodes: map<Id, Node>) returns (ok: bool)
    requires NoDangling(nodes) && forall id :: id in nodes <==> exists n :: n in roots && n.id == id
    ensures ok <==> Acyclic(EdgesOf(nodes))
  {
    ghost var e := EdgesOf(nodes);
    var done: set<Id> := {};
    for i := 0 to |roots|
      invariant done <= nodes.Keys && Finished(done, e)
      invariant forall j :: 0 <= j < i ==> roots[j].id in done
    {
      var child, visiting;
      assert roots[i] in roots;
      child, visiting, done := Visit(roots[i].id, nodes, {}, done);
      if !child { return false; }
    }
    forall a | a in nodes ensures a in done {
      var n :| n in roots && n.id == a;
    }
    ok := true;
  }

  // ---------------------------------------------------------------- dependency closure

  /** Everything `id` depends on, directly or not, including itself. */
  ghost predicate IsClosure(nodes: map<Id, Node>, id: Id, r: set<Id>) {
    forall x :: x in r <==> Reach(EdgesOf(nodes), id, x)
  }

  /** Drains a stack of pending nodes. It fails exactly when the walk leaves the node map. */
  method Closure(nodes: map<Id, Node>, id: Id) returns (r: Option<set<Id>>)
    ensures r.Some? <==> forall x :: Reach(EdgesOf(nodes), id, x) ==> x in nodes
    ensures r.Some? ==> IsClosure(nodes, id, r.value)
  {
    ghost var e := EdgesOf(nodes);
    ReachSelf(e, id);
    var result: set<Id> := {};
    var pending := [id];
    while pending != []
      invariant result <= nodes.Keys && (id in result || id in pending)
      invariant forall x :: x in result || x in pending ==> Reach(e, id, x)
      invariant forall a, b :: (a, b) in e && a in result ==> b in result || b in pending
      decreases |nodes.Keys - result|, |pending|
    {
      var next := pending[|pending| - 1];
      assert next in pending;
      ghost var before := pending;
      pending := pending[..|pending| - 1];
      assert forall x :: x in before ==> x in pending || x == next;
      if next !in result {
        if next !in nodes { return None; }
        forall b | b in nodes[next].dependsOn ensures Reach(e, id, b) {
          ReachThenEdge(e, id, next, b);
        }
        SubsetSmaller(nodes.Keys - (result + {next}), nodes.Keys - result);
        result := result + {next};
        pending := pending + nodes[next].dependsOn;
      }
    }
    assert ClosedUnder(result, e);
    forall x | Reach(e, id, x) ensures x in result {
      ClosedHoldsReach(e, result, id, x);
    }
    r := Some(result);
  }

  /** On a manifest without dangling edges every node has a closure. */
  lemma ClosureDefined(nodes: map<Id, Node>, id: Id)
    requires NoDangling(nodes) && id in nodes
    ensures forall x :: Reach(EdgesOf(nodes), id, x) ==> x in nodes
  {
    forall x | Reach(EdgesOf(nodes), id, x) ensures x in nodes {
      ClosedHoldsReach(EdgesOf(nodes), nodes.Keys, id, x);
    }
  }
}
