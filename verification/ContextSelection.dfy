/** Bounded context: the greedy, deduplicating selector and the trimming of an oversized begin response. */
module ContextSelection {
  import opened Ordering

  const U32_MAX := 0xFFFF_FFFF

  /** A text known by its digest, which is injective, and its length in bytes. */
  datatype Content = Content(digest: nat, bytes: nat)

  datatype Candidate = Candidate(id: Id, content: Content, priority: nat, createdAt: int, reason: string)

  /** How many objective tokens a text shares with the query. */
  type Overlap = Content -> nat

  function SaturatingIncrement(n: nat): nat {
    if n < U32_MAX then n + 1 else U32_MAX
  }

  /** A length cast to 32 bits: exact below the limit, wrapped beyond it. */
  function ToU32(n: nat): (r: nat)
    ensures n <= U32_MAX ==> r == n
  {
    if n <= U32_MAX then n else n % (U32_MAX + 1)
  }

  // ---------------------------------------------------------------- ranking

  /** Priority first, then more overlap, then newer, then the smaller ID. */
  predicate Ranked(overlap: Overlap, a: Candidate, b: Candidate) {
    a.priority < b.priority || (a.priority == b.priority && (
      overlap(a.content) > overlap(b.content) || (overlap(a.content) == overlap(b.content) && (
        a.createdAt > b.createdAt || (a.createdAt == b.createdAt && a.id <= b.id)))))
  }

  function Rank(overlap: Overlap, candidates: seq<Candidate>): seq<Candidate> {
    SortBy(candidates, (a, b) => Ranked(overlap, a, b))
  }

  /** No two candidates share the whole sort key. */
  ghost predicate DistinctKeys(overlap: Overlap, candidates: seq<Candidate>) {
    forall i, j :: 0 <= i < |candidates| && 0 <= j < |candidates|
      && Ranked(overlap, candidates[i], candidates[j]) && Ranked(overlap, candidates[j], candidates[i])
      ==> candidates[i] == candidates[j]
  }

  // ---------------------------------------------------------------- greedy selection

  datatype Tally = Tally(
    selected: seq<Candidate>, used: nat, seen: set<Content>,
    omitted: nat, deduplicated: nat, oversized: nat, itemLimited: nat)

  const EMPTY_TALLY := Tally([], 0, {}, 0, 0, 0, 0)

  function Consider(t: Tally, c: Candidate, maxItems: nat, maxBytes: nat): Tally {
    if c.content in t.seen then
      t.(omitted := SaturatingIncrement(t.omitted), deduplicated := SaturatingIncrement(t.deduplicated))
    else
      var s := t.(seen := t.seen + {c.content});
      if |t.selected| >= maxItems then
        s.(omitted := SaturatingIncrement(t.omitted), itemLimited := SaturatingIncrement(t.itemLimited))
      else if c.content.bytes > maxBytes - (if t.used <= maxBytes then t.used else maxBytes) then
        s.(omitted := SaturatingIncrement(t.omitted), oversized := SaturatingIncrement(t.oversized))
      else
        s.(used := t.used + c.content.bytes, selected := t.selected + [c])
  }

  function ConsiderAll(ranked: seq<Candidate>, maxItems: nat, maxBytes: nat): Tally {
    if ranked == [] then EMPTY_TALLY
    else Consider(ConsiderAll(ranked[..|ranked| - 1], maxItems, maxBytes), ranked[|ranked| - 1], maxItems, maxBytes)
  }

  function TotalBytes(items: seq<Candidate>): nat {
    if items == [] then 0 else TotalBytes(items[..|items| - 1]) + items[|items| - 1].content.bytes
  }

  ghost predicate DistinctContents(items: seq<Candidate>) {
    forall i, j :: 0 <= i < j < |items| ==> items[i].content != items[j].content
  }

  /** The selection respects both bounds and repeats no content. */
  ghost predicate Within(t: Tally, maxItems: nat, maxBytes: nat) {
    && t.used == TotalBytes(t.selected) <= maxBytes && |t.selected| <= maxItems
    && DistinctContents(t.selected)
    && forall i :: 0 <= i < |t.selected| ==> t.selected[i].content in t.seen
  }

  /** Every one of `n` candidates is selected or omitted for exactly one reason. */
  ghost predicate Counted(t: Tally, n: nat) {
    n <= U32_MAX ==>
      t.omitted == t.deduplicated + t.oversized + t.itemLimited && |t.selected| + t.omitted == n
  }

  lemma StaysWithin(t: Tally, c: Candidate, maxItems: nat, maxBytes: nat)
    requires Within(t, maxItems, maxBytes)
    ensures Within(Consider(t, c, maxItems, maxBytes), maxItems, maxBytes)
  {
    var r := Consider(t, c, maxItems, maxBytes);
    if r.selected != t.selected {
      assert r.selected == t.selected + [c];
      assert r.selected[..|t.selected|] == t.selected;
      AppendDistinct(t.selected, t.seen, c);
    } else {
      assert forall i :: 0 <= i < |r.selected| ==> r.selected[i].content in r.seen;
    }
  }

  lemma AppendDistinct(items: seq<Candidate>, seen: set<Content>, c: Candidate)
    requires DistinctContents(items) && c.content !in seen
    requires forall i :: 0 <= i < |items| ==> items[i].content in seen
    ensures DistinctContents(items + [c])
    ensures forall i :: 0 <= i < |items + [c]| ==> (items + [c])[i].content in seen + {c.content}
  {
  }

  lemma StaysCounted(t: Tally, c: Candidate, n: nat, maxItems: nat, maxBytes: nat)
    requires Counted(t, n)
    ensures Counted(Consider(t, c, maxItems, maxBytes), n + 1)
  {
  }

  /** Whatever is offered, the selection stays within both bounds and repeats no content. */
  lemma {:induction false} SelectionWithin(ranked: seq<Candidate>, maxItems: nat, maxBytes: nat)
    ensures Within(ConsiderAll(ranked, maxItems, maxBytes), maxItems, maxBytes)
  {
    if ranked != [] {
      var front := ranked[..|ranked| - 1];
      SelectionWithin(front, maxItems, maxBytes);
      StaysWithin(ConsiderAll(front, maxItems, maxBytes), ranked[|front|], maxItems, maxBytes);
    }
  }

  /** Every candidate is accounted for exactly once. */
  lemma {:induction false} SelectionCounted(ranked: seq<Candidate>, maxItems: nat, maxBytes: nat)
    ensures Counted(ConsiderAll(ranked, maxItems, maxBytes), |ranked|)
  {
    if ranked != [] {
      var front := ranked[..|ranked| - 1];
      SelectionCounted(front, maxItems, maxBytes);
      StaysCounted(ConsiderAll(front, maxItems, maxBytes), ranked[|front|], |front|, maxItems, maxBytes);
    }
  }

  lemma {:induction false} SelectedFromRanked(ranked: seq<Candidate>, maxItems: nat, maxBytes: nat, c: Candidate)
    requires c in ConsiderAll(ranked, maxItems, maxBytes).selected
    ensures c in ranked
  {
    var front, last := ranked[..|ranked| - 1], ranked[|ranked| - 1];
    if c != last {
      SelectedFromRanked(front, maxItems, maxBytes, c);
    }
  }

  /** The order in which candidates arrive does not matter when no two share a sort key. */
  lemma RankIgnoresOrder(overlap: Overlap, a: seq<Candidate>, b: seq<Candidate>)
    requires multiset(a) == multiset(b) && DistinctKeys(overlap, a)
    ensures Rank(overlap, a) == Rank(overlap, b)
  {
    var le := (x, y) => Ranked(overlap, x, y);
    assert TotalPreorder(le);
    SortBySorted(a, le);
    SortBySorted(b, le);
    var r := SortBy(a, le);
    forall i, j | 0 <= i < |r| && 0 <= j < |r| && le(r[i], r[j]) && le(r[j], r[i]) ensures r[i] == r[j] {
      assert r[i] in a && r[j] in a;
    }
    SortedUnique(SortBy(a, le), SortBy(b, le), le);
  }

  // ---------------------------------------------------------------- what the ranking and the selection are

  ghost predicate SameKey(overlap: Overlap, a: Candidate, b: Candidate) {
    a.priority == b.priority && overlap(a.content) == overlap(b.content) && a.createdAt == b.createdAt && a.id == b.id
  }

  /** Smaller priorities come first, then larger overlaps, then later times, then smaller identifiers. */
  ghost predicate InKeyOrder(overlap: Overlap, a: Candidate, b: Candidate) {
    && a.priority <= b.priority
    && (a.priority == b.priority ==> overlap(a.content) >= overlap(b.content))
    && (a.priority == b.priority && overlap(a.content) == overlap(b.content) ==> a.createdAt >= b.createdAt)
    && (a.priority == b.priority && overlap(a.content) == overlap(b.content) && a.createdAt == b.createdAt ==> a.id <= b.id)
  }

  /** Ranking reorders the candidates by their keys, and leaves those with the key of `c` in the order they came. */
  lemma {:induction false} RankExactly(overlap: Overlap, candidates: seq<Candidate>, c: Candidate)
    ensures multiset(Rank(overlap, candidates)) == multiset(candidates)
    ensures SortedBy(Rank(overlap, candidates), (a, b) => InKeyOrder(overlap, a, b))
    ensures var same := (x: Candidate) => SameKey(overlap, x, c); Filter(Rank(overlap, candidates), same) == Filter(candidates, same)
  {
    var le := (a, b) => Ranked(overlap, a, b);
    var same := (x: Candidate) => SameKey(overlap, x, c);
    assert TotalPreorder(le);
    SortBySorted(candidates, le);
    SortByStable(candidates, le, same);
    hide SortBy, Filter;
    var r := Rank(overlap, candidates);
    forall i, j | 0 <= i < j < |r| ensures InKeyOrder(overlap, r[i], r[j]) { assert le(r[i], r[j]); }
  }

  /** No earlier candidate has this content. */
  ghost predicate New(ranked: seq<Candidate>, i: nat)
    requires i < |ranked|
  {
    forall j :: 0 <= j < i ==> ranked[j].content != ranked[i].content
  }

  ghost predicate Increasing(positions: seq<nat>, n: nat) {
    && (forall j :: 0 <= j < |positions| ==> positions[j] < n)
    && forall j, k :: 0 <= j < k < |positions| ==> positions[j] < positions[k]
  }

  /** The first `k` positions are the ones before `i`. */
  ghost predicate Before(positions: seq<nat>, i: nat, k: nat) {
    && k <= |positions| && (forall j :: 0 <= j < k ==> positions[j] < i)
    && forall j :: k <= j < |positions| ==> i <= positions[j]
  }

  /** Bytes of the candidates at the first `k` positions. */
  ghost function BytesAt(ranked: seq<Candidate>, positions: seq<nat>, k: nat): nat
    requires k <= |positions| && forall j :: 0 <= j < |positions| ==> positions[j] < |ranked|
  {
    if k == 0 then 0 else BytesAt(ranked, positions, k - 1) + ranked[positions[k - 1]].content.bytes
  }

  /** After `k` selected ones, candidate `i` is new, there is a place for it, and its bytes fit. */
  ghost predicate Admitted(ranked: seq<Candidate>, positions: seq<nat>, i: nat, k: nat, maxItems: nat, maxBytes: nat)
    requires i < |ranked| && k <= |positions| && Increasing(positions, |ranked|)
  {
    New(ranked, i) && k < maxItems && BytesAt(ranked, positions, k) + ranked[i].content.bytes <= maxBytes
  }

  /** Each candidate is taken exactly when it is admitted after those taken before it. */
  ghost predicate Greedy(ranked: seq<Candidate>, positions: seq<nat>, maxItems: nat, maxBytes: nat) {
    && Increasing(positions, |ranked|)
    && forall i: nat, k: nat :: i < |ranked| && Before(positions, i, k) ==> (i in positions <==> Admitted(ranked, positions, i, k, maxItems, maxBytes))
  }

  ghost predicate At(ranked: seq<Candidate>, positions: seq<nat>, items: seq<Candidate>) {
    && |items| == |positions|
    && forall j :: 0 <= j < |positions| ==> positions[j] < |ranked| && items[j] == ranked[positions[j]]
  }

  /** The candidates before `n` whose content came before. */
  ghost function Repeats(ranked: seq<Candidate>, n: nat): set<nat>
    requires n <= |ranked|
  {
    set i: nat | i < n && !New(ranked, i)
  }

  /** The new candidates before `n` that found all places taken. */
  ghost function Crowded(ranked: seq<Candidate>, positions: seq<nat>, n: nat, maxItems: nat): set<nat>
    requires n <= |ranked|
  {
    set i: nat | i < n && New(ranked, i) && Full(positions, i, maxItems)
  }

  ghost predicate Full(positions: seq<nat>, i: nat, maxItems: nat) {
    exists k: nat :: Before(positions, i, k) && k >= maxItems
  }

  /** The new candidates before `n` that had a place and did not fit. */
  ghost function Oversized(ranked: seq<Candidate>, positions: seq<nat>, n: nat, maxItems: nat): set<nat>
    requires n <= |ranked|
  {
    set i: nat | i < n && New(ranked, i) && !Full(positions, i, maxItems) && i !in positions
  }

  /** A 32-bit count that stays at its limit. */
  ghost function Capped(n: nat): nat {
    if n < 0x1_0000_0000 then n else 0xFFFF_FFFF
  }

  lemma BeforeGrows(positions: seq<nat>, n: nat, i: nat, k: nat)
    requires Increasing(positions, n) && i <= n
    ensures Before(positions + [n], i, k) <==> Before(positions, i, k)
    ensures Before(positions, n, k) <==> k == |positions|
  {
    var more := positions + [n];
    assert more[|positions|] == n;
    assert forall j :: 0 <= j < |positions| ==> more[j] == positions[j];
    if k < |positions| { assert positions[k] < n; }
  }

  lemma {:induction false} BytesSame(front: seq<Candidate>, ranked: seq<Candidate>, positions: seq<nat>, more: seq<nat>, k: nat)
    requires front <= ranked && positions <= more && k <= |positions|
    requires Increasing(positions, |front|) && Increasing(more, |ranked|)
    ensures BytesAt(front, positions, k) == BytesAt(ranked, more, k)
    decreases k
  {
    if k > 0 {
      BytesSame(front, ranked, positions, more, k - 1);
      assert more[k - 1] == positions[k - 1] && front[positions[k - 1]] == ranked[positions[k - 1]];
    }
  }

  lemma NewSame(front: seq<Candidate>, c: Candidate, i: nat)
    requires i < |front|
    ensures New(front + [c], i) <==> New(front, i)
  {
    var ranked := front + [c];
    assert forall j :: 0 <= j <= i ==> ranked[j] == front[j];
  }

  lemma GreedyGrows(front: seq<Candidate>, c: Candidate, positions: seq<nat>, maxItems: nat, maxBytes: nat) returns (more: seq<nat>)
    requires Greedy(front, positions, maxItems, maxBytes)
    ensures Increasing(positions, |front + [c]|)
    ensures more == if Admitted(front + [c], positions, |front|, |positions|, maxItems, maxBytes) then positions + [|front|] else positions
    ensures Greedy(front + [c], more, maxItems, maxBytes)
  {
    var ranked, n := front + [c], |front|;
    assert Increasing(positions, |ranked|);
    more := if Admitted(ranked, positions, n, |positions|, maxItems, maxBytes) then positions + [n] else positions;
    forall i: nat, k: nat | i < |ranked| && Before(more, i, k)
      ensures i in more <==> Admitted(ranked, more, i, k, maxItems, maxBytes)
    {
      BeforeGrows(positions, n, i, k);
      AdmittedSame(front, c, positions, more, i, k, maxItems, maxBytes);
      if i < n {
        assert i in positions <==> Admitted(front, positions, i, k, maxItems, maxBytes);
      } else {
        assert n !in positions;
      }
    }
  }

  /** What was selected later does not matter to whether a candidate was admitted. */
  lemma AdmittedSame(front: seq<Candidate>, c: Candidate, positions: seq<nat>, more: seq<nat>, i: nat, k: nat, maxItems: nat, maxBytes: nat)
    requires Increasing(positions, |front|) && Increasing(positions, |front + [c]|) && Increasing(more, |front + [c]|)
    requires positions <= more && i <= |front| && k <= |positions|
    ensures Admitted(front + [c], more, i, k, maxItems, maxBytes) <==> Admitted(front + [c], positions, i, k, maxItems, maxBytes)
    ensures i < |front| ==> (Admitted(front + [c], more, i, k, maxItems, maxBytes) <==> Admitted(front, positions, i, k, maxItems, maxBytes))
  {
    var ranked := front + [c];
    BytesSame(front, ranked, positions, more, k);
    BytesSame(front, ranked, positions, positions, k);
    if i < |front| { NewSame(front, c, i); }
    hide New, Increasing;
  }

  lemma FullSame(positions: seq<nat>, n: nat, i: nat, maxItems: nat)
    requires Increasing(positions, n) && i <= n
    ensures Full(positions + [n], i, maxItems) <==> Full(positions, i, maxItems)
    ensures Full(positions, n, maxItems) <==> |positions| >= maxItems
  {
    hide Before;
    forall k: nat ensures (Before(positions + [n], i, k) <==> Before(positions, i, k)) && (Before(positions, n, k) <==> k == |positions|) {
      BeforeGrows(positions, n, i, k);
    }
    assert Before(positions, n, |positions|);
    if k: nat :| Before(positions, i, k) && k >= maxItems { assert Before(positions + [n], i, k); }
  }

  /** One more candidate adds at most its own position to each group. */
  lemma GroupsGrow(front: seq<Candidate>, c: Candidate, positions: seq<nat>, more: seq<nat>, maxItems: nat)
    requires Increasing(positions, |front|) && (more == positions || more == positions + [|front|])
    ensures var ranked, n := front + [c], |front|; var own := {n};
      && Repeats(ranked, n + 1) == Repeats(front, n) + (if New(ranked, n) then {} else own)
      && Crowded(ranked, more, n + 1, maxItems) == Crowded(front, positions, n, maxItems) + (if New(ranked, n) && |positions| >= maxItems then own else {})
      && Oversized(ranked, more, n + 1, maxItems)
         == Oversized(front, positions, n, maxItems) + (if New(ranked, n) && |positions| < maxItems && more == positions then own else {})
  {
    hide New, Full;
    var n := |front|;
    forall i: nat | i < n ensures New(front + [c], i) <==> New(front, i) { NewSame(front, c, i); }
    forall i: nat | i <= n ensures Full(more, i, maxItems) <==> Full(positions, i, maxItems) { FullSame(positions, n, i, maxItems); }
    FullSame(positions, n, n, maxItems);
    assert n !in positions;
  }

  /** The tally's selection is what the positions hold, and its bytes are theirs. */
  ghost predicate Picked(t: Tally, ranked: seq<Candidate>, positions: seq<nat>)
    requires Increasing(positions, |ranked|)
  {
    At(ranked, positions, t.selected) && t.used == BytesAt(ranked, positions, |positions|)
  }

  ghost predicate SeenAll(t: Tally, ranked: seq<Candidate>) {
    forall x :: x in t.seen <==> exists i :: 0 <= i < |ranked| && ranked[i].content == x
  }

  /** The counters say how many candidates were left out for which reason. */
  ghost predicate Tallied(t: Tally, ranked: seq<Candidate>, positions: seq<nat>, maxItems: nat) {
    var n := |ranked|;
    var repeats, crowded, oversized := |Repeats(ranked, n)|, |Crowded(ranked, positions, n, maxItems)|, |Oversized(ranked, positions, n, maxItems)|;
    && t.deduplicated == Capped(repeats) && t.itemLimited == Capped(crowded) && t.oversized == Capped(oversized)
    && t.omitted == Capped(repeats + crowded + oversized)
  }

  lemma SeenStep(t: Tally, front: seq<Candidate>, c: Candidate, maxItems: nat, maxBytes: nat)
    requires SeenAll(t, front)
    ensures New(front + [c], |front|) <==> c.content !in t.seen
    ensures SeenAll(Consider(t, c, maxItems, maxBytes), front + [c])
  {
    var ranked, r := front + [c], Consider(t, c, maxItems, maxBytes);
    assert ranked[|front|] == c && forall i :: 0 <= i < |front| ==> ranked[i] == front[i];
    assert forall x :: x in r.seen <==> x in t.seen || x == c.content;
  }

  lemma CountsGrow(front: seq<Candidate>, c: Candidate, positions: seq<nat>, more: seq<nat>, maxItems: nat)
    requires Increasing(positions, |front|) && (more == positions || more == positions + [|front|])
    ensures var ranked, n := front + [c], |front|; var first := New(ranked, n);
      && |Repeats(ranked, n + 1)| == |Repeats(front, n)| + (if first then 0 else 1)
      && |Crowded(ranked, more, n + 1, maxItems)| == |Crowded(front, positions, n, maxItems)| + (if first && |positions| >= maxItems then 1 else 0)
      && |Oversized(ranked, more, n + 1, maxItems)|
         == |Oversized(front, positions, n, maxItems)| + (if first && |positions| < maxItems && more == positions then 1 else 0)
  {
    GroupsGrow(front, c, positions, more, maxItems);
  }

  /** What is done with the next candidate, by why. */
  lemma ConsiderExactly(t: Tally, c: Candidate, maxItems: nat, maxBytes: nat)
    requires t.used <= maxBytes
    ensures var r := Consider(t, c, maxItems, maxBytes); var first := c.content !in t.seen;
      var place, fits := |t.selected| < maxItems, t.used + c.content.bytes <= maxBytes; var taken := first && place && fits;
      && r.selected == (if taken then t.selected + [c] else t.selected) && r.used == (if taken then t.used + c.content.bytes else t.used)
      && r.omitted == (if taken then t.omitted else SaturatingIncrement(t.omitted))
      && r.deduplicated == (if first then t.deduplicated else SaturatingIncrement(t.deduplicated))
      && r.itemLimited == (if first && !place then SaturatingIncrement(t.itemLimited) else t.itemLimited)
      && r.oversized == (if first && place && !fits then SaturatingIncrement(t.oversized) else t.oversized)
  {
  }

  /** The next candidate is admitted exactly when it is new, has a place and fits. */
  lemma AdmittedNext(t: Tally, front: seq<Candidate>, c: Candidate, positions: seq<nat>, maxItems: nat, maxBytes: nat)
    requires Increasing(positions, |front|) && Increasing(positions, |front + [c]|) && Picked(t, front, positions) && SeenAll(t, front)
    ensures Admitted(front + [c], positions, |front|, |positions|, maxItems, maxBytes)
      <==> c.content !in t.seen && |t.selected| < maxItems && t.used + c.content.bytes <= maxBytes
  {
    SeenStep(t, front, c, maxItems, maxBytes);
    BytesSame(front, front + [c], positions, positions, |positions|);
    hide New, SeenAll;
  }

  lemma PickedStep(t: Tally, front: seq<Candidate>, c: Candidate, positions: seq<nat>, more: seq<nat>, maxItems: nat, maxBytes: nat)
    requires Increasing(positions, |front|) && Increasing(positions, |front + [c]|) && Increasing(more, |front + [c]|)
    requires Picked(t, front, positions) && SeenAll(t, front) && t.used <= maxBytes
    requires more == if Admitted(front + [c], positions, |front|, |positions|, maxItems, maxBytes) then positions + [|front|] else positions
    ensures Picked(Consider(t, c, maxItems, maxBytes), front + [c], more)
  {
    AdmittedNext(t, front, c, positions, maxItems, maxBytes);
    ConsiderExactly(t, c, maxItems, maxBytes);
    hide Consider, SeenAll;
    if Admitted(front + [c], positions, |front|, |positions|, maxItems, maxBytes) {
      hide Admitted, Increasing;
      PickedMore(t, front, c, positions);
    } else {
      hide Admitted;
      BytesSame(front, front + [c], positions, positions, |positions|);
      hide Increasing, BytesAt;
    }
  }

  /** Taking the next candidate. */
  lemma PickedMore(t: Tally, front: seq<Candidate>, c: Candidate, positions: seq<nat>)
    requires Increasing(positions, |front|) && Increasing(positions + [|front|], |front + [c]|) && Picked(t, front, positions)
    ensures Picked(t.(selected := t.selected + [c], used := t.used + c.content.bytes), front + [c], positions + [|front|])
  {
    var ranked, more := front + [c], positions + [|front|];
    BytesSame(front, ranked, positions, more, |positions|);
    assert more[|positions|] == |front| && ranked[|front|] == c;
    forall j | 0 <= j < |positions| ensures ranked[more[j]] == front[positions[j]] { assert more[j] == positions[j]; }
  }

  lemma CappedNext(n: nat)
    ensures SaturatingIncrement(Capped(n)) == Capped(n + 1)
  {
  }

  lemma TalliedStep(t: Tally, front: seq<Candidate>, c: Candidate, positions: seq<nat>, more: seq<nat>, maxItems: nat, maxBytes: nat)
    requires Increasing(positions, |front|) && Increasing(positions, |front + [c]|)
    requires Picked(t, front, positions) && SeenAll(t, front) && Tallied(t, front, positions, maxItems) && t.used <= maxBytes
    requires more == if Admitted(front + [c], positions, |front|, |positions|, maxItems, maxBytes) then positions + [|front|] else positions
    ensures Tallied(Consider(t, c, maxItems, maxBytes), front + [c], more, maxItems)
  {
    AdmittedNext(t, front, c, positions, maxItems, maxBytes);
    ConsiderExactly(t, c, maxItems, maxBytes);
    SeenStep(t, front, c, maxItems, maxBytes);
    CountsGrow(front, c, positions, more, maxItems);
    var n := |front|;
    var repeats, crowded, oversized := |Repeats(front, n)|, |Crowded(front, positions, n, maxItems)|, |Oversized(front, positions, n, maxItems)|;
    CappedNext(repeats);
    CappedNext(crowded);
    CappedNext(oversized);
    CappedNext(repeats + crowded + oversized);
    hide Consider, Admitted, SeenAll, New, Repeats, Crowded, Oversized, Increasing, BytesAt, Capped, SaturatingIncrement;
    assert |t.selected| == |positions|;
    assert |positions + [|front|]| != |positions|;
    if c.content in t.seen {
    } else if |t.selected| >= maxItems {
    } else if t.used + c.content.bytes <= maxBytes {
    }
  }

  /** The selection is the greedy one: each candidate is taken exactly when it is new, has a place and fits after
      those taken before it; the counters say how many were left out for which reason. */
  lemma {:induction false} SelectionExactly(ranked: seq<Candidate>, maxItems: nat, maxBytes: nat) returns (positions: seq<nat>)
    ensures Greedy(ranked, positions, maxItems, maxBytes)
    ensures var t := ConsiderAll(ranked, maxItems, maxBytes);
      Picked(t, ranked, positions) && SeenAll(t, ranked) && Tallied(t, ranked, positions, maxItems)
  {
    if ranked == [] {
      positions := [];
      assert Repeats([], 0) == {} && Crowded([], [], 0, maxItems) == {} && Oversized([], [], 0, maxItems) == {};
    } else {
      var front, c := ranked[..|ranked| - 1], ranked[|ranked| - 1];
      assert ranked == front + [c];
      hide Picked, SeenAll, Tallied, Greedy, Consider, Increasing;
      var before := SelectionExactly(front, maxItems, maxBytes);
      var t := ConsiderAll(front, maxItems, maxBytes);
      positions := GreedyGrows(front, c, before, maxItems, maxBytes);
      SelectionWithin(front, maxItems, maxBytes);
      GreedyIncreases(front, before, maxItems, maxBytes);
      GreedyIncreases(ranked, positions, maxItems, maxBytes);
      PickedStep(t, front, c, before, positions, maxItems, maxBytes);
      SeenStep(t, front, c, maxItems, maxBytes);
      TalliedStep(t, front, c, before, positions, maxItems, maxBytes);
    }
  }

  lemma GreedyIncreases(ranked: seq<Candidate>, positions: seq<nat>, maxItems: nat, maxBytes: nat)
    requires Greedy(ranked, positions, maxItems, maxBytes)
    ensures Increasing(positions, |ranked|)
  {
  }

  datatype Budget = Budget(
    maxItems: nat, maxBytes: nat, usedBytes: nat, omittedItems: nat, candidateItems: nat,
    deduplicated: nat, oversized: nat, itemLimited: nat, tokenUpperBound: nat)

  function BudgetOf(t: Tally, n: nat, maxItems: nat, maxBytes: nat): Budget {
    Budget(maxItems, maxBytes, t.used, t.omitted, ToU32(n), t.deduplicated, t.oversized, t.itemLimited, t.used)
  }

  /** Takes each candidate that is new, under the item limit and within the remaining bytes. */
  method SelectRanked(ranked: seq<Candidate>, maxItems: nat, maxBytes: nat) returns (t: Tally)
    ensures t == ConsiderAll(ranked, maxItems, maxBytes)
    ensures Within(t, maxItems, maxBytes) && Counted(t, |ranked|)
    ensures forall c :: c in t.selected ==> c in ranked
  {
    var used: nat, omitted: nat, deduplicated: nat, oversized: nat, itemLimited: nat := 0, 0, 0, 0, 0;
    var seen: set<Content> := {};
    var selected: seq<Candidate> := [];
    for i := 0 to |ranked|
      invariant Tally(selected, used, seen, omitted, deduplicated, oversized, itemLimited)
        == ConsiderAll(ranked[..i], maxItems, maxBytes)
    {
      var c := ranked[i];
      assert ranked[..i + 1][..i] == ranked[..i];
      if c.content in seen {
        omitted := SaturatingIncrement(omitted);
        deduplicated := SaturatingIncrement(deduplicated);
        continue;
      }
      seen := seen + {c.content};
      if |selected| >= maxItems {
        omitted := SaturatingIncrement(omitted);
        itemLimited := SaturatingIncrement(itemLimited);
        continue;
      }
      if c.content.bytes > maxBytes - (if used <= maxBytes then used else maxBytes) {
        omitted := SaturatingIncrement(omitted);
        oversized := SaturatingIncrement(oversized);
        continue;
      }
      used := used + c.content.bytes;
      selected := selected + [c];
    }
    assert ranked[..|ranked|] == ranked;
    t := Tally(selected, used, seen, omitted, deduplicated, oversized, itemLimited);
    SelectionWithin(ranked, maxItems, maxBytes);
    SelectionCounted(ranked, maxItems, maxBytes);
    forall c | c in t.selected ensures c in ranked { SelectedFromRanked(ranked, maxItems, maxBytes, c); }
  }

  /** The report's limits are those given, its bytes those at the positions taken, and its counters say how many
      candidates there were, modulo 2^32, and how many were left out for which reason. */
  ghost predicate Reports(b: Budget, ranked: seq<Candidate>, positions: seq<nat>, maxItems: nat, maxBytes: nat)
    requires Increasing(positions, |ranked|)
  {
    var n := |ranked|;
    var repeats, crowded, oversized := |Repeats(ranked, n)|, |Crowded(ranked, positions, n, maxItems)|, |Oversized(ranked, positions, n, maxItems)|;
    && b.maxItems == maxItems && b.maxBytes == maxBytes
    && b.usedBytes == b.tokenUpperBound == BytesAt(ranked, positions, |positions|)
    && b.candidateItems == n % 0x1_0000_0000
    && b.deduplicated == Capped(repeats) && b.itemLimited == Capped(crowded) && b.oversized == Capped(oversized)
    && b.omittedItems == Capped(repeats + crowded + oversized)
  }

  lemma BudgetExactly(t: Tally, ranked: seq<Candidate>, positions: seq<nat>, maxItems: nat, maxBytes: nat)
    requires Increasing(positions, |ranked|) && Picked(t, ranked, positions) && Tallied(t, ranked, positions, maxItems)
    ensures Reports(BudgetOf(t, |ranked|, maxItems, maxBytes), ranked, positions, maxItems, maxBytes)
  {
    hide Repeats, Crowded, Oversized, Capped;
  }

  /** Ranks the candidates and selects greedily; `positions` are those of the selected ones in the ranking. */
  method Select(candidates: seq<Candidate>, overlap: Overlap, maxItems: nat, maxBytes: nat)
    returns (selected: seq<Candidate>, budget: Budget, ghost positions: seq<nat>)
    requires maxItems <= U32_MAX && maxBytes <= U32_MAX
    ensures var ranked := Rank(overlap, candidates);
      Greedy(ranked, positions, maxItems, maxBytes) && At(ranked, positions, selected) && Reports(budget, ranked, positions, maxItems, maxBytes)
    ensures |selected| <= maxItems && budget.usedBytes == budget.tokenUpperBound == TotalBytes(selected) <= maxBytes
    ensures DistinctContents(selected) && forall c :: c in selected ==> c in candidates
    ensures |candidates| <= U32_MAX ==>
      && budget.candidateItems == |candidates| == |selected| + budget.omittedItems
      && budget.omittedItems == budget.deduplicated + budget.oversized + budget.itemLimited
  {
    var ranked := Rank(overlap, candidates);
    var t := SelectRanked(ranked, maxItems, maxBytes);
    selected := t.selected;
    budget := BudgetOf(t, |ranked|, maxItems, maxBytes);
    positions := SelectionExactly(ranked, maxItems, maxBytes);
    GreedyIncreases(ranked, positions, maxItems, maxBytes);
    BudgetExactly(t, ranked, positions, maxItems, maxBytes);
    hide Greedy, Reports, SeenAll, Tallied, BytesAt;
  }

  // ---------------------------------------------------------------- trimming the begin response

  const MAX_RESPONSE_BYTES := 15360

  datatype Begin = Begin(items: seq<Candidate>, budget: Budget, responseOmitted: nat)

  /** The budget describes the items it comes with. */
  ghost predicate Accounted(b: Begin) {
    && b.budget.usedBytes == b.budget.tokenUpperBound == TotalBytes(b.items)
    && b.budget.candidateItems == |b.items| + b.budget.omittedItems
  }

  /** The response that keeps only the first `k` items. */
  ghost function Keeping(b: Begin, k: nat): Begin
    requires k <= |b.items|
  {
    var dropped := |b.items| - k;
    var used := TotalBytes(b.items[..k]);
    Begin(b.items[..k],
          b.budget.(usedBytes := used, tokenUpperBound := used, omittedItems := b.budget.omittedItems + dropped),
          b.responseOmitted + dropped)
  }

  /** Drops items from the end until the rendered response fits. It keeps the longest prefix that fits,
      keeps the accounting, and gives up only when not even the empty context fits.
      `bytes` is the size of the rendered response; the subtraction below never goes under zero. */
  method TrimResponse(b: Begin, bytes: Begin -> nat) returns (r: Option<Begin>)
    requires Accounted(b)
    ensures r.None? <==> forall k :: 0 <= k <= |b.items| ==> bytes(Keeping(b, k)) > MAX_RESPONSE_BYTES
    ensures r.Some? ==> Accounted(r.value) && bytes(r.value) <= MAX_RESPONSE_BYTES
    ensures r.Some? ==> |r.value.items| <= |b.items| && r.value == Keeping(b, |r.value.items|)
    ensures r.Some? ==> forall k :: |r.value.items| < k <= |b.items| ==> bytes(Keeping(b, k)) > MAX_RESPONSE_BYTES
  {
    var result := b;
    assert b.items[..|b.items|] == b.items;
    while bytes(result) > MAX_RESPONSE_BYTES
      invariant Accounted(result) && |result.items| <= |b.items| && result == Keeping(b, |result.items|)
      invariant forall k :: |result.items| < k <= |b.items| ==> bytes(Keeping(b, k)) > MAX_RESPONSE_BYTES
      decreases |result.items|
    {
      var n := |result.items|;
      if n == 0 { return None; }
      var item := result.items[n - 1];
      var used: nat := result.budget.usedBytes - item.content.bytes;
      assert b.items[..n][..n - 1] == b.items[..n - 1];
      result := Begin(
        result.items[..n - 1],
        result.budget.(usedBytes := used, omittedItems := result.budget.omittedItems + 1, tokenUpperBound := used),
        result.responseOmitted + 1);
    }
    r := Some(result);
  }
}
