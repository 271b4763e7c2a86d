/** Identifiers, the order on them, and the stable sort that `slice::sort` and `sort_by_key` stand for. */
module Ordering {

  datatype Option<+T> = None | Some(value: T)

  /** Identifiers matter to these algorithms only through equality and byte order,
      so an identifier is modelled by its rank in that order. */
  type Id = nat

  predicate IdLe(a: Id, b: Id) {
    a <= b
  }

  /** `le` compares any two values one way or the other, and chains. */
  ghost predicate TotalPreorder<T(!new)>(le: (T, T) -> bool) {
    && (forall x, y :: le(x, y) || le(y, x))
    && (forall x, y, z :: le(x, y) && le(y, z) ==> le(x, z))
  }

  ghost predicate SortedBy<T>(xs: seq<T>, le: (T, T) -> bool) {
    forall i, j :: 0 <= i < j < |xs| ==> le(xs[i], xs[j])
  }

  ghost predicate Distinct<T>(xs: seq<T>) {
    forall i, j :: 0 <= i < j < |xs| ==> xs[i] != xs[j]
  }

  function Elements<T>(xs: seq<T>): set<T> {
    set x | x in xs
  }

  /** What `retain` and `filter` leave: the elements that qualify, in order. */
  function Filter<T(!new)>(xs: seq<T>, keep: T -> bool): (r: seq<T>)
    ensures forall x :: x in r <==> x in xs && keep(x)
  {
    if xs == [] then []
    else
      var front, last := Filter(xs[..|xs| - 1], keep), xs[|xs| - 1];
      if keep(last) then front + [last] else front
  }

  lemma FilterStep<T(!new)>(xs: seq<T>, i: nat, keep: T -> bool)
    requires i < |xs|
    ensures Filter(xs[..i + 1], keep) == if keep(xs[i]) then Filter(xs[..i], keep) + [xs[i]] else Filter(xs[..i], keep)
  {
    assert xs[..i + 1][..i] == xs[..i];
  }

  method Retain<T(!new)>(xs: seq<T>, keep: T -> bool) returns (kept: seq<T>)
    ensures kept == Filter(xs, keep)
  {
    kept := [];
    for i := 0 to |xs|
      invariant kept == Filter(xs[..i], keep)
    {
      FilterStep(xs, i, keep);
      if keep(xs[i]) { kept := kept + [xs[i]]; }
    }
    assert xs[..|xs|] == xs;
  }

  lemma {:induction false} FilterAll<T(!new)>(xs: seq<T>, keep: T -> bool)
    requires forall x :: x in xs ==> keep(x)
    ensures Filter(xs, keep) == xs
  {
    if xs != [] { FilterAll(xs[..|xs| - 1], keep); }
  }

  lemma {:induction false} FilterConcat<T(!new)>(a: seq<T>, b: seq<T>, keep: T -> bool)
    ensures Filter(a + b, keep) == Filter(a, keep) + Filter(b, keep)
  {
    if b == [] {
      assert a + b == a;
    } else {
      FilterConcat(a, b[..|b| - 1], keep);
      assert (a + b)[..|a + b| - 1] == a + b[..|b| - 1];
    }
  }

  /** What is kept stays in order. */
  lemma {:induction false} FilterInOrder<T(!new)>(xs: seq<T>, keep: T -> bool, i: nat, j: nat) returns (p: nat, q: nat)
    requires i < j < |Filter(xs, keep)|
    ensures p < q < |xs| && xs[p] == Filter(xs, keep)[i] && xs[q] == Filter(xs, keep)[j]
  {
    var front := xs[..|xs| - 1];
    if j < |Filter(front, keep)| {
      p, q := FilterInOrder(front, keep, i, j);
    } else {
      q := |xs| - 1;
      assert Filter(front, keep)[i] in Filter(front, keep);
      p :| 0 <= p < |front| && front[p] == Filter(front, keep)[i];
    }
  }

  // ---------------------------------------------------------------- members of a set, in order

  /** The members of `ids` that lie in `s`, in order. */
  ghost function Keep(ids: seq<Id>, s: set<Id>): (r: seq<Id>)
    ensures forall x :: x in r <==> x in ids && x in s
  {
    if ids == [] then []
    else
      var last := ids[|ids| - 1];
      if last in s then Keep(ids[..|ids| - 1], s) + [last] else Keep(ids[..|ids| - 1], s)
  }

  lemma {:induction false} KeepNone(ids: seq<Id>, s: set<Id>)
    ensures Keep(ids[..0], s) == []
  {
  }

  lemma {:induction false} KeepStep(ids: seq<Id>, i: nat, s: set<Id>)
    requires i < |ids|
    ensures Keep(ids[..i + 1], s) == if ids[i] in s then Keep(ids[..i], s) + [ids[i]] else Keep(ids[..i], s)
  {
    assert ids[..i + 1][..i] == ids[..i];
  }

  lemma {:induction false} KeepDistinct(ids: seq<Id>, s: set<Id>)
    requires Distinct(ids)
    ensures Distinct(Keep(ids, s))
  {
    if ids != [] {
      var front, last := ids[..|ids| - 1], ids[|ids| - 1];
      KeepDistinct(front, s);
      assert last !in front;
      assert last !in Keep(front, s);
    }
  }

  lemma {:induction false} DistinctSize(xs: seq<Id>, s: set<Id>)
    requires Distinct(xs) && forall x :: x in xs <==> x in s
    ensures |xs| == |s|
  {
    if xs == [] {
      assert s == {};
    } else {
      var front, last := xs[..|xs| - 1], xs[|xs| - 1];
      assert last in s;
      forall x ensures x in front <==> x in s - {last} {
        if x in front { assert x in xs; }
      }
      DistinctSize(front, s - {last});
    }
  }

  lemma {:induction false} KeepNothing(ids: seq<Id>)
    ensures Keep(ids, {}) == []
  {
    if ids != [] { KeepNothing(ids[..|ids| - 1]); }
  }

  lemma {:induction false} KeepSame(ids: seq<Id>, s: set<Id>, t: set<Id>)
    requires forall x :: x in ids ==> (x in s <==> x in t)
    ensures Keep(ids, s) == Keep(ids, t)
  {
    if ids != [] {
      assert ids[|ids| - 1] in ids;
      KeepSame(ids[..|ids| - 1], s, t);
    }
  }

  lemma {:induction false} KeepAll(ids: seq<Id>, s: set<Id>)
    requires forall x :: x in ids ==> x in s
    ensures Keep(ids, s) == ids
  {
    if ids != [] {
      assert ids[|ids| - 1] in ids;
      KeepAll(ids[..|ids| - 1], s);
    }
  }

  // ---------------------------------------------------------------- sorting

  /** Puts `x` in front of the first element it does not exceed. */
  function Insert<T>(x: T, xs: seq<T>, le: (T, T) -> bool): (r: seq<T>)
    ensures multiset(r) == multiset(xs) + multiset{x}
  {
    if xs == [] then [x]
    else if le(x, xs[0]) then [x] + xs
    else
      assert xs == [xs[0]] + xs[1..];
      [xs[0]] + Insert(x, xs[1..], le)
  }

  /** The stable sort. */
  function SortBy<T(!new)>(xs: seq<T>, le: (T, T) -> bool): (r: seq<T>)
    ensures multiset(r) == multiset(xs)
    ensures |r| == |xs|
    ensures forall x :: x in r <==> x in xs
  {
    if xs == [] then []
    else
      assert xs == [xs[0]] + xs[1..];
      var r := Insert(xs[0], SortBy(xs[1..], le), le);
      SameMultiset(r, xs);
      r
  }

  lemma SameMultiset<T(!new)>(a: seq<T>, b: seq<T>)
    requires multiset(a) == multiset(b)
    ensures |a| == |b|
    ensures forall x :: x in a <==> x in b
  {
    assert |a| == |multiset(a)| == |multiset(b)| == |b|;
    forall x ensures x in a <==> x in b {
      assert x in a <==> x in multiset(a);
      assert x in b <==> x in multiset(b);
    }
  }

  lemma {:induction false} InsertSorted<T(!new)>(x: T, xs: seq<T>, le: (T, T) -> bool)
    requires TotalPreorder(le) && SortedBy(xs, le)
    ensures SortedBy(Insert(x, xs, le), le)
  {
    if xs != [] {
      if le(x, xs[0]) {
        forall j | 0 <= j < |xs| ensures le(x, xs[j]) { }
      } else {
        InsertSorted(x, xs[1..], le);
        var tail := Insert(x, xs[1..], le);
        forall y | y in tail ensures le(xs[0], y) {
          assert y in multiset(tail);
          assert y == x || y in xs[1..];
        }
      }
    }
  }

  lemma {:induction false} SortBySorted<T(!new)>(xs: seq<T>, le: (T, T) -> bool)
    requires TotalPreorder(le)
    ensures SortedBy(SortBy(xs, le), le)
  {
    if xs != [] {
      SortBySorted(xs[1..], le);
      InsertSorted(xs[0], SortBy(xs[1..], le), le);
    }
  }

  /** Sorting keeps the order among elements that all compare alike. */
  lemma {:induction false} SortByStable<T(!new)>(xs: seq<T>, le: (T, T) -> bool, alike: T -> bool)
    requires forall x, y :: alike(x) && alike(y) ==> le(x, y)
    ensures Filter(SortBy(xs, le), alike) == Filter(xs, alike)
  {
    if xs != [] {
      var rest := SortBy(xs[1..], le);
      SortByStable(xs[1..], le, alike);
      InsertStable(xs[0], rest, le, alike);
      FilterConcat([xs[0]], rest, alike);
      FilterConcat([xs[0]], xs[1..], alike);
      assert [xs[0]] + xs[1..] == xs;
    }
  }

  lemma {:induction false} InsertStable<T(!new)>(x: T, xs: seq<T>, le: (T, T) -> bool, alike: T -> bool)
    requires forall x, y :: alike(x) && alike(y) ==> le(x, y)
    ensures Filter(Insert(x, xs, le), alike) == Filter([x] + xs, alike)
  {
    hide Filter;
    if xs == [] {
      assert [x] + xs == [x];
    } else if !le(x, xs[0]) {
      var first, rest := [xs[0]], xs[1..];
      InsertStable(x, rest, le, alike);
      FilterConcat(first, Insert(x, rest, le), alike);
      FilterConcat([x], rest, alike);
      FilterConcat([x], xs, alike);
      FilterConcat(first, rest, alike);
      assert first + rest == xs;
      FilterSingle(xs[0], alike);
      FilterSingle(x, alike);
      EmptyCommutes(Filter(first, alike), Filter([x], alike), Filter(rest, alike));
    }
  }

  lemma EmptyCommutes<T>(a: seq<T>, b: seq<T>, c: seq<T>)
    requires a == [] || b == []
    ensures a + (b + c) == b + (a + c)
  {
  }

  lemma FilterSingle<T(!new)>(x: T, keep: T -> bool)
    ensures Filter([x], keep) == if keep(x) then [x] else []
  {
    assert [x][..0] == [];
  }

  /** On the elements of `xs`, values that compare both ways are the same value. */
  ghost predicate Antisymmetric<T>(xs: seq<T>, le: (T, T) -> bool) {
    forall i, j :: 0 <= i < |xs| && 0 <= j < |xs| && le(xs[i], xs[j]) && le(xs[j], xs[i]) ==> xs[i] == xs[j]
  }

  lemma HeadsAgree<T(!new)>(a: seq<T>, b: seq<T>, le: (T, T) -> bool)
    requires a != [] && SortedBy(a, le) && SortedBy(b, le) && multiset(a) == multiset(b)
    requires Antisymmetric(a, le)
    ensures b != [] && a[0] == b[0]
  {
    SameMultiset(a, b);
    assert a[0] in b && b[0] in a;
    var i :| 0 <= i < |b| && b[i] == a[0];
    var j :| 0 <= j < |a| && a[j] == b[0];
    if i != 0 && j != 0 {
      assert le(b[0], b[i]) && le(a[0], a[j]);
    }
  }

  lemma TailMultiset<T>(a: seq<T>)
    requires a != []
    ensures multiset(a[1..]) == multiset(a) - multiset{a[0]}
  {
    assert a == [a[0]] + a[1..];
  }

  /** A sorted sequence is determined by its contents when equal keys mean equal values. */
  lemma {:induction false} SortedUnique<T(!new)>(a: seq<T>, b: seq<T>, le: (T, T) -> bool)
    requires SortedBy(a, le) && SortedBy(b, le) && multiset(a) == multiset(b)
    requires Antisymmetric(a, le)
    ensures a == b
  {
    SameMultiset(a, b);
    if a != [] {
      HeadsAgree(a, b, le);
      TailMultiset(a);
      TailMultiset(b);
      SortedUnique(a[1..], b[1..], le);
      assert a == [a[0]] + a[1..] && b == [b[0]] + b[1..];
    }
  }

  /** The first `n` members of `xs` lie in `s`: what a loop over `xs` has dealt with. */
  ghost predicate FirstIn(xs: seq<Id>, n: nat, s: set<Id>)
    requires n <= |xs|
  {
    forall j :: 0 <= j < n ==> xs[j] in s
  }

  lemma FirstInGrows(xs: seq<Id>, n: nat, s: set<Id>, t: set<Id>)
    requires n < |xs| && FirstIn(xs, n, s) && s <= t && xs[n] in t
    ensures FirstIn(xs, n + 1, t)
  {
  }

  function SortIds(xs: seq<Id>): (r: seq<Id>)
    ensures forall x :: x in r <==> x in xs
  {
    SortBy(xs, IdLe)
  }

  /** Sorting forgets exactly the order. */
  lemma SortIdsCanonical(a: seq<Id>, b: seq<Id>)
    ensures SortIds(a) == SortIds(b) <==> multiset(a) == multiset(b)
  {
    SortBySorted(a, IdLe);
    SortBySorted(b, IdLe);
    if multiset(a) == multiset(b) {
      SortedUnique(SortIds(a), SortIds(b), IdLe);
    }
  }

  predicate IsLeast(x: Id, s: set<Id>) {
    x in s && forall y :: y in s ==> x <= y
  }

  /** A nonempty set has a least member: the one a B-tree set yields next. */
  lemma {:induction false} LeastExists(s: set<Id>)
    requires s != {}
    ensures exists x :: IsLeast(x, s)
    decreases |s|
  {
    var x :| x in s;
    if s == {x} {
      assert IsLeast(x, s);
    } else {
      LeastExists(s - {x});
      var m :| IsLeast(m, s - {x});
      forall y | y in s ensures (if x <= m then x else m) <= y {
        assert y == x || y in s - {x};
      }
      assert IsLeast(if x <= m then x else m, s);
    }
  }

  lemma AppendGreatest(r: seq<Id>, x: Id)
    requires Distinct(r) && SortedBy(r, IdLe) && forall y :: y in r ==> y < x
    ensures Distinct(r + [x]) && SortedBy(r + [x], IdLe)
  {
    assert forall i :: 0 <= i < |r| ==> r[i] in r;
  }

  /** The members of a set in increasing order: how a B-tree set or map is walked. */
  ghost function OrderedIds(s: set<Id>): (r: seq<Id>)
    ensures forall x :: x in r <==> x in s
    ensures |r| == |s|
    decreases |s|
  {
    if s == {} then []
    else
      LeastExists(s);
      var x :| IsLeast(x, s);
      [x] + OrderedIds(s - {x})
  }

  lemma {:induction false} LeastFirst(x: Id, s: set<Id>)
    requires IsLeast(x, s)
    ensures OrderedIds(s) == [x] + OrderedIds(s - {x})
  {
  }

  lemma PrependLeast(x: Id, r: seq<Id>)
    requires Distinct(r) && SortedBy(r, IdLe) && forall y :: y in r ==> x < y
    ensures Distinct([x] + r) && SortedBy([x] + r, IdLe)
  {
    forall i | 0 <= i < |r| ensures x < r[i] { assert r[i] in r; }
  }

  lemma {:induction false} OrderedIdsSorted(s: set<Id>)
    ensures Distinct(OrderedIds(s)) && SortedBy(OrderedIds(s), IdLe)
    decreases |s|
  {
    hide OrderedIds;
    if s != {} {
      LeastExists(s);
      var x :| IsLeast(x, s);
      LeastFirst(x, s);
      OrderedIdsSorted(s - {x});
      PrependLeast(x, OrderedIds(s - {x}));
    }
  }

  /** Lists a set in increasing order, as iterating over a B-tree set does. */
  method InOrder(s: set<Id>) returns (r: seq<Id>)
    ensures forall x :: x in r <==> x in s
    ensures Distinct(r) && SortedBy(r, IdLe)
    ensures r == OrderedIds(s)
  {
    hide OrderedIds;
    r := [];
    var rest := s;
    while rest != {}
      invariant OrderedIds(s) == r + OrderedIds(rest)
      decreases |rest|
    {
      LeastExists(rest);
      var x :| x in rest && IsLeast(x, rest);
      LeastFirst(x, rest);
      r := r + [x];
      rest := rest - {x};
    }
    assert r == OrderedIds(s);
    OrderedIdsSorted(s);
  }
}
