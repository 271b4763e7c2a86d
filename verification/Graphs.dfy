/** Reachability in finite directed graphs given by their edge sets. */
module Graphs {
  import opened Ordering

  type Edges = set<(Id, Id)>

  /** `b` lies exactly `k` edges after `a` on some walk. */
  ghost predicate ReachIn(e: Edges, a: Id, b: Id, k: nat)
    decreases k
  {
    if k == 0 then a == b else exists c :: (a, c) in e && ReachIn(e, c, b, k - 1)
  }

  /** `b` is `a` or lies after it. */
  ghost predicate Reach(e: Edges, a: Id, b: Id) {
    exists k: nat :: ReachIn(e, a, b, k)
  }

  /** `b` lies strictly after `a`. */
  ghost predicate Follows(e: Edges, a: Id, b: Id) {
    exists c :: (a, c) in e && Reach(e, c, b)
  }

  ghost predicate Acyclic(e: Edges) {
    forall a :: !Follows(e, a, a)
  }

  /** Edges leaving `s` stay in `s`. */
  ghost predicate ClosedUnder(s: set<Id>, e: Edges) {
    forall a, b {:trigger (a, b) in e} :: (a, b) in e && a in s ==> b in s
  }

  lemma ReachSelf(e: Edges, a: Id)
    ensures Reach(e, a, a)
  {
    assert ReachIn(e, a, a, 0);
  }

  lemma ReachStep(e: Edges, a: Id, c: Id, b: Id)
    requires (a, c) in e && Reach(e, c, b)
    ensures Reach(e, a, b) && Follows(e, a, b)
  {
    var k: nat :| ReachIn(e, c, b, k);
    assert ReachIn(e, a, b, k + 1);
  }

  lemma {:induction false} ReachInThen(e: Edges, a: Id, b: Id, c: Id, k: nat)
    requires ReachIn(e, a, b, k) && Reach(e, b, c)
    ensures Reach(e, a, c)
    decreases k
  {
    if k > 0 {
      var d :| (a, d) in e && ReachIn(e, d, b, k - 1);
      ReachInThen(e, d, b, c, k - 1);
      ReachStep(e, a, d, c);
    }
  }

  lemma ReachTransitive(e: Edges, a: Id, b: Id, c: Id)
    requires Reach(e, a, b) && Reach(e, b, c)
    ensures Reach(e, a, c)
  {
    var k: nat :| ReachIn(e, a, b, k);
    ReachInThen(e, a, b, c, k);
  }

  lemma ReachThenEdge(e: Edges, a: Id, b: Id, c: Id)
    requires Reach(e, a, b) && (b, c) in e
    ensures Reach(e, a, c)
  {
    ReachSelf(e, c);
    ReachStep(e, b, c, c);
    ReachTransitive(e, a, b, c);
  }

  lemma FollowsThenEdge(e: Edges, a: Id, b: Id, c: Id)
    requires Follows(e, a, b) && (b, c) in e
    ensures Follows(e, a, c)
  {
    var d :| (a, d) in e && Reach(e, d, b);
    ReachThenEdge(e, d, b, c);
  }

  /** A closed set holds everything reachable from its members. */
  lemma {:induction false} ClosedHolds(e: Edges, s: set<Id>, a: Id, b: Id, k: nat)
    requires ClosedUnder(s, e) && a in s && ReachIn(e, a, b, k)
    ensures b in s
    decreases k
  {
    if k > 0 {
      var c :| (a, c) in e && ReachIn(e, c, b, k - 1);
      ClosedHolds(e, s, c, b, k - 1);
    }
  }

  lemma ClosedHoldsReach(e: Edges, s: set<Id>, a: Id, b: Id)
    requires ClosedUnder(s, e) && a in s && Reach(e, a, b)
    ensures b in s
  {
    var k: nat :| ReachIn(e, a, b, k);
    ClosedHolds(e, s, a, b, k);
  }

  lemma {:induction false} ReachInMonotone(e: Edges, f: Edges, a: Id, b: Id, k: nat)
    requires e <= f && ReachIn(e, a, b, k)
    ensures ReachIn(f, a, b, k)
    decreases k
  {
    if k > 0 {
      var c :| (a, c) in e && ReachIn(e, c, b, k - 1);
      ReachInMonotone(e, f, c, b, k - 1);
    }
  }

  lemma ReachMonotone(e: Edges, f: Edges, a: Id, b: Id)
    requires e <= f && Reach(e, a, b)
    ensures Reach(f, a, b)
  {
    var k: nat :| ReachIn(e, a, b, k);
    ReachInMonotone(e, f, a, b, k);
  }

  /** Two graphs that agree on the edges leaving a region agree on what is reachable from inside it. */
  lemma {:induction false} ReachInAgrees(e: Edges, f: Edges, s: set<Id>, a: Id, b: Id, k: nat)
    requires ClosedUnder(s, e) && a in s && ReachIn(f, a, b, k)
    requires forall x, y :: x in s && (x, y) in f ==> (x, y) in e
    ensures ReachIn(e, a, b, k)
    decreases k
  {
    if k > 0 {
      var c :| (a, c) in f && ReachIn(f, c, b, k - 1);
      ReachInAgrees(e, f, s, c, b, k - 1);
    }
  }

  lemma ReachAgrees(e: Edges, f: Edges, s: set<Id>, a: Id, b: Id)
    requires ClosedUnder(s, e) && a in s
    requires forall x, y {:trigger (x, y) in e} {:trigger (x, y) in f} :: x in s ==> ((x, y) in e <==> (x, y) in f)
    ensures Reach(e, a, b) <==> Reach(f, a, b)
  {
    forall k: nat ensures ReachIn(e, a, b, k) <==> ReachIn(f, a, b, k) {
      if ReachIn(f, a, b, k) { ReachInAgrees(e, f, s, a, b, k); }
      if ReachIn(e, a, b, k) { ReachInAgrees(f, e, s, a, b, k); }
    }
  }
}
