/** The two replay audits: what they compute, and that no reachable store ever fails them. */
module StoreAudit {
  import opened Ordering
  import opened StoreModel
  import opened StoreTasks
  import opened StoreReplay

  const SAMPLE_LIMIT := 20

  datatype Kind = RecordRow | EvidenceRow | ClaimRow | TaskRow

  datatype Label = Label(kind: Kind, id: Id)

  // ---------------------------------------------------------------- lists of findings

  /** Walking an ordered key set finds each member of a subset once. */
  lemma {:induction false} KeepCounts(keys: set<Id>, s: set<Id>)
    requires s <= keys
    ensures |Keep(OrderedIds(keys), s)| == |s|
  {
    OrderedIdsSorted(keys);
    KeepDistinct(OrderedIds(keys), s);
    DistinctSize(Keep(OrderedIds(keys), s), s);
  }

  ghost function Labels(kind: Kind, ids: seq<Id>): (r: seq<Label>)
    ensures |r| == |ids|
  {
    seq(|ids|, i requires 0 <= i < |ids| => Label(kind, ids[i]))
  }

  /** The first twenty. */
  ghost function Capped(xs: seq<Label>): seq<Label> {
    if |xs| <= SAMPLE_LIMIT then xs else xs[..SAMPLE_LIMIT]
  }

  lemma CappedNone(before: seq<Label>, kind: Kind)
    requires |before| <= SAMPLE_LIMIT
    ensures Capped(before + Labels(kind, [])) == before
  {
    assert before + Labels(kind, []) == before;
  }

  /** What a step that keeps a label does to a capped sample. */
  lemma CappedStep(before: seq<Label>, kind: Kind, ids: seq<Id>, id: Id)
    ensures var sample := Capped(before + Labels(kind, ids));
      Capped(before + Labels(kind, ids + [id])) == if |sample| < SAMPLE_LIMIT then sample + [Label(kind, id)] else sample
  {
    assert before + Labels(kind, ids + [id]) == before + Labels(kind, ids) + [Label(kind, id)];
  }

  lemma CappedTwice(a: seq<Label>, b: seq<Label>)
    ensures Capped(Capped(a) + b) == Capped(a + b)
  {
  }

  lemma CappedFour(a: seq<Label>, b: seq<Label>, c: seq<Label>, d: seq<Label>)
    ensures Capped(Capped(Capped(Capped([] + a) + b) + c) + d) == Capped(a + b + c + d)
  {
    assert [] + a == a;
    CappedTwice(a, b);
    CappedTwice(a + b, c);
    CappedTwice(a + b + c, d);
  }

  // ---------------------------------------------------------------- comparing a replay with a table

  /** Rows the replay has and the table lacks or has otherwise. */
  ghost function Differing<T>(expected: map<Id, T>, projected: map<Id, T>): set<Id> {
    set id | id in expected.Keys && (id !in projected || projected[id] != expected[id])
  }

  /** Rows the table has and the replay lacks. */
  ghost function Uncovered<T>(expected: map<Id, T>, projected: map<Id, T>): set<Id> {
    projected.Keys - expected.Keys
  }

  ghost function Mismatched<T>(kind: Kind, expected: map<Id, T>, projected: map<Id, T>): seq<Label> {
    Labels(kind, Keep(OrderedIds(expected.Keys), Differing(expected, projected)))
  }

  ghost function Loose<T>(kind: Kind, expected: map<Id, T>, projected: map<Id, T>): seq<Label> {
    Labels(kind, Keep(OrderedIds(projected.Keys), Uncovered(expected, projected)))
  }

  ghost function Without(s: set<Id>, t: set<Id>): set<Id> {
    s - t
  }

  ghost function Within(s: set<Id>, t: set<Id>): set<Id> {
    s * t
  }

  lemma Divides(x: Id, s: set<Id>, t: set<Id>)
    ensures x in Without(s, t) <==> x in s && x !in t
    ensures x in Within(s, t) <==> x in s && x in t
  {
  }

  lemma {:induction false} DividedCounts(keys: set<Id>, s: set<Id>, t: set<Id>)
    requires s <= keys
    ensures |Keep(OrderedIds(keys), Without(s, t))| == |Without(s, t)|
    ensures |Keep(OrderedIds(keys), Within(s, t))| == |Within(s, t)|
  {
    hide OrderedIds;
    KeepCounts(keys, Without(s, t));
    KeepCounts(keys, Within(s, t));
  }

  lemma WithoutNone(s: set<Id>)
    ensures Without(s, {}) == s && Within(s, {}) == {}
  {
  }

  lemma WithAll(s: set<Id>)
    ensures Without(s, s) == {} && Within(s, s) == s
  {
  }

  class Findings {
    var mismatchCount: nat
    var mismatchSample: seq<Label>
    var legacyCount: nat
    var runnerClaimCount: nat
    var uncoveredSample: seq<Label>

    ghost predicate Valid()
      reads this
    {
      |mismatchSample| <= SAMPLE_LIMIT && |uncoveredSample| <= SAMPLE_LIMIT
    }

    constructor ()
      ensures Valid() && mismatchCount == 0 && mismatchSample == []
      ensures legacyCount == 0 && runnerClaimCount == 0 && uncoveredSample == []
    {
      mismatchCount, mismatchSample, legacyCount, runnerClaimCount, uncoveredSample := 0, [], 0, 0, [];
    }

    method Mismatch(found: Label)
      requires Valid()
      modifies this`mismatchCount, this`mismatchSample
      ensures Valid() && mismatchCount == old(mismatchCount) + 1
      ensures mismatchSample == if |old(mismatchSample)| < SAMPLE_LIMIT then old(mismatchSample) + [found] else old(mismatchSample)
    {
      mismatchCount := mismatchCount + 1;
      if |mismatchSample| < SAMPLE_LIMIT {
        mismatchSample := mismatchSample + [found];
      }
    }

    method NoteUncovered(found: Label, runnerClaim: bool)
      requires Valid()
      modifies this`legacyCount, this`runnerClaimCount, this`uncoveredSample
      ensures Valid()
      ensures legacyCount == old(legacyCount) + (if runnerClaim then 0 else 1)
      ensures runnerClaimCount == old(runnerClaimCount) + (if runnerClaim then 1 else 0)
      ensures uncoveredSample == if |old(uncoveredSample)| < SAMPLE_LIMIT then old(uncoveredSample) + [found] else old(uncoveredSample)
    {
      if runnerClaim {
        runnerClaimCount := runnerClaimCount + 1;
      } else {
        legacyCount := legacyCount + 1;
      }
      if |uncoveredSample| < SAMPLE_LIMIT {
        uncoveredSample := uncoveredSample + [found];
      }
    }

    /** Counts every differing and every uncovered row once, and samples the first of each in key order. */
    method Compare<T(==)>(kind: Kind, expected: map<Id, T>, projected: map<Id, T>, runnerClaims: set<Id>)
      requires Valid()
      modifies this
      ensures Valid()
      ensures mismatchCount == old(mismatchCount) + |Differing(expected, projected)|
      ensures mismatchSample == Capped(old(mismatchSample) + Mismatched(kind, expected, projected))
      ensures kind == ClaimRow ==> legacyCount == old(legacyCount) + |Without(Uncovered(expected, projected), runnerClaims)|
      ensures kind == ClaimRow ==> runnerClaimCount == old(runnerClaimCount) + |Within(Uncovered(expected, projected), runnerClaims)|
      ensures kind != ClaimRow ==> legacyCount == old(legacyCount) + |Uncovered(expected, projected)|
      ensures kind != ClaimRow ==> runnerClaimCount == old(runnerClaimCount)
      ensures uncoveredSample == Capped(old(uncoveredSample) + Loose(kind, expected, projected))
    {
      hide Uncovered, Differing, Mismatched, Loose, Without, Within;
      CompareExpected(kind, expected, projected);
      CompareProjected(kind, expected, projected, runnerClaims);
      WithoutNone(Uncovered(expected, projected));
    }

    method CompareExpected<T(==)>(kind: Kind, expected: map<Id, T>, projected: map<Id, T>)
      requires Valid()
      modifies this`mismatchCount, this`mismatchSample
      ensures Valid()
      ensures mismatchCount == old(mismatchCount) + |Differing(expected, projected)|
      ensures mismatchSample == Capped(old(mismatchSample) + Mismatched(kind, expected, projected))
    {
      hide OrderedIds, Keep, Capped, Labels;
      ghost var differing := Differing(expected, projected);
      var ids := InOrder(expected.Keys);
      KeepNone(ids, differing);
      CappedNone(mismatchSample, kind);
      for i := 0 to |ids|
        invariant Valid()
        invariant mismatchCount == old(mismatchCount) + |Keep(ids[..i], differing)|
        invariant mismatchSample == Capped(old(mismatchSample) + Labels(kind, Keep(ids[..i], differing)))
      {
        var id := ids[i];
        KeepStep(ids, i, differing);
        CappedStep(old(mismatchSample), kind, Keep(ids[..i], differing), id);
        if id !in projected || projected[id] != expected[id] {
          Mismatch(Label(kind, id));
        }
      }
      assert ids[..|ids|] == ids;
      KeepCounts(expected.Keys, differing);
    }

    method CompareProjected<T(==)>(kind: Kind, expected: map<Id, T>, projected: map<Id, T>, runnerClaims: set<Id>)
      requires Valid()
      modifies this`legacyCount, this`runnerClaimCount, this`uncoveredSample
      ensures Valid()
      ensures var runners := if kind == ClaimRow then runnerClaims else {};
        && legacyCount == old(legacyCount) + |Without(Uncovered(expected, projected), runners)|
        && runnerClaimCount == old(runnerClaimCount) + |Within(Uncovered(expected, projected), runners)|
      ensures uncoveredSample == Capped(old(uncoveredSample) + Loose(kind, expected, projected))
    {
      hide OrderedIds, Keep, Capped, Labels, Without, Within;
      ghost var uncovered := Uncovered(expected, projected);
      ghost var runners := if kind == ClaimRow then runnerClaims else {};
      ghost var loose, backed := Without(uncovered, runners), Within(uncovered, runners);
      var ids := InOrder(projected.Keys);
      KeepNone(ids, uncovered);
      KeepNone(ids, loose);
      KeepNone(ids, backed);
      CappedNone(uncoveredSample, kind);
      for i := 0 to |ids|
        invariant Valid()
        invariant legacyCount == old(legacyCount) + |Keep(ids[..i], loose)|
        invariant runnerClaimCount == old(runnerClaimCount) + |Keep(ids[..i], backed)|
        invariant uncoveredSample == Capped(old(uncoveredSample) + Labels(kind, Keep(ids[..i], uncovered)))
      {
        var id := ids[i];
        KeepStep(ids, i, uncovered);
        Divides(id, uncovered, runners);
        KeepStep(ids, i, loose);
        KeepStep(ids, i, backed);
        CappedStep(old(uncoveredSample), kind, Keep(ids[..i], uncovered), id);
        if id !in expected {
          NoteUncovered(Label(kind, id), kind == ClaimRow && id in runnerClaims);
        }
      }
      assert ids[..|ids|] == ids;
      DividedCounts(projected.Keys, uncovered, runners);
    }
  }

  // ---------------------------------------------------------------- the core audit

  datatype CoreAudit = CoreAudit(
    coveredRecords: nat, coveredEvidence: nat, coveredClaims: nat, coveredTasks: nat,
    uncoveredLegacy: nat, uncoveredRunnerClaims: nat, unsupported: nat, mismatches: nat,
    mismatchSample: seq<Label>, uncoveredSample: seq<Label>, consistent: bool)

  predicate CoreKind(r: Request) {
    r.AddRecord? || r.AddEvidence? || r.AssertClaim? || r.CreateTask? || r.ClaimTask? || r.CompleteTask? || r.CancelTask?
  }

  /** How many core events hold a result that does not decode. */
  ghost function Unsupported(events: seq<Event>): nat {
    if events == [] then 0
    else
      var e := events[|events| - 1];
      Unsupported(events[..|events| - 1]) + if CoreKind(e.request) && !Decodable(e) then 1 else 0
  }

  /** The claims some receipt backs. */
  function RunnerClaims(claims: map<Id, Claim>): set<Id> {
    set c | c in claims.Keys && claims[c].receipts != {}
  }

  /** What the audit reports, read off the replays and the tables. */
  ghost predicate CoreFindings(db: Db, a: CoreAudit) {
    var records, evidence := Replay(db.events, PickRecord), Replay(db.events, PickEvidence);
    var claims, tasks := Replay(db.events, PickClaim), Replay(db.events, PickTask);
    var loose := Uncovered(claims, db.claims);
    && a.coveredRecords == |records| && a.coveredEvidence == |evidence|
    && a.coveredClaims == |claims| && a.coveredTasks == |tasks|
    && a.unsupported == Unsupported(db.events)
    && a.mismatches == |Differing(records, db.records)| + |Differing(evidence, db.evidence)|
                       + |Differing(claims, db.claims)| + |Differing(tasks, db.tasks)|
    && a.uncoveredLegacy == |Uncovered(records, db.records)| + |Uncovered(evidence, db.evidence)|
                            + |Without(loose, RunnerClaims(db.claims))| + |Uncovered(tasks, db.tasks)|
    && a.uncoveredRunnerClaims == |Within(loose, RunnerClaims(db.claims))|
    && (a.consistent <==> a.mismatches == 0)
    && a.mismatchSample == Capped(
        Mismatched(RecordRow, records, db.records) + Mismatched(EvidenceRow, evidence, db.evidence)
        + Mismatched(ClaimRow, claims, db.claims) + Mismatched(TaskRow, tasks, db.tasks))
    && a.uncoveredSample == Capped(
        Loose(RecordRow, records, db.records) + Loose(EvidenceRow, evidence, db.evidence)
        + Loose(ClaimRow, claims, db.claims) + Loose(TaskRow, tasks, db.tasks))
  }

  lemma NothingReplayed(events: seq<Event>)
    ensures Replay(events[..0], PickRecord) == map[] && Replay(events[..0], PickEvidence) == map[]
    ensures Replay(events[..0], PickClaim) == map[] && Replay(events[..0], PickTask) == map[] && Unsupported(events[..0]) == 0
  {
  }

  lemma UnsupportedStep(events: seq<Event>, i: nat)
    requires i < |events|
    ensures Unsupported(events[..i + 1])
      == Unsupported(events[..i]) + if CoreKind(events[i].request) && !Decodable(events[i]) then 1 else 0
  {
    assert events[..i + 1][..i] == events[..i];
  }

  /** One pass over the log builds the four replays; each is then compared with its table. */
  method ReplayCore(events: seq<Event>)
    returns (records: map<Id, Record>, evidence: map<Id, Evidence>, claims: map<Id, Claim>, tasks: map<Id, Task>, unsupported: nat)
    ensures records == Replay(events, PickRecord) && evidence == Replay(events, PickEvidence)
    ensures claims == Replay(events, PickClaim) && tasks == Replay(events, PickTask)
    ensures unsupported == Unsupported(events)
  {
    records, evidence, claims, tasks, unsupported := map[], map[], map[], map[], 0;
    NothingReplayed(events);
    hide Replay, Unsupported;
    for i := 0 to |events|
      invariant records == Replay(events[..i], PickRecord) && evidence == Replay(events[..i], PickEvidence)
      invariant claims == Replay(events[..i], PickClaim) && tasks == Replay(events[..i], PickTask)
      invariant unsupported == Unsupported(events[..i])
    {
      var e := events[i];
      assert events[..i + 1] == events[..i] + [e];
      AppendReplays(events[..i], e);
      UnsupportedStep(events, i);
      match e.request
      case AddRecord(_, _, _, _, _) =>
        if e.outcome.RecordOutcome? {
          var r := e.outcome.record;
          if r.origin == McpAgent && r.influence == HistoricalContext {
            r := r.(influence := UntrustedContent);
          }
          records := records[r.id := r];
        } else {
          unsupported := unsupported + 1;
        }
      case AddEvidence(_, _, _) =>
        if e.outcome.EvidenceOutcome? {
          evidence := evidence[e.outcome.evidence.id := e.outcome.evidence];
        } else {
          unsupported := unsupported + 1;
        }
      case AssertClaim(_, _, _, _, _) =>
        if e.outcome.ClaimOutcome? {
          claims := claims[e.outcome.claim.id := e.outcome.claim];
        } else {
          unsupported := unsupported + 1;
        }
      case StartRun(_) =>
      case FinishRun(_) =>
      case InterruptRun(_) =>
      case _ =>
        if e.outcome.TaskOutcome? {
          tasks := tasks[e.outcome.task.id := e.outcome.task];
        } else {
          unsupported := unsupported + 1;
        }
    }
    assert events[..|events|] == events;
  }

  method AuditCoreEvents(db: Db) returns (a: CoreAudit)
    ensures CoreFindings(db, a)
  {
    hide Replay, Capped, Unsupported, Differing, Uncovered, Mismatched, Loose, RunnerClaims, Without, Within;
    var records, evidence, claims, tasks, unsupported := ReplayCore(db.events);
    var runnerClaims := RunnerClaims(db.claims);
    var findings := new Findings();
    findings.Compare(RecordRow, records, db.records, runnerClaims);
    findings.Compare(EvidenceRow, evidence, db.evidence, runnerClaims);
    findings.Compare(ClaimRow, claims, db.claims, runnerClaims);
    findings.Compare(TaskRow, tasks, db.tasks, runnerClaims);
    ghost var m1, m2 := Mismatched(RecordRow, records, db.records), Mismatched(EvidenceRow, evidence, db.evidence);
    ghost var m3, m4 := Mismatched(ClaimRow, claims, db.claims), Mismatched(TaskRow, tasks, db.tasks);
    CappedFour(m1, m2, m3, m4);
    ghost var u1, u2 := Loose(RecordRow, records, db.records), Loose(EvidenceRow, evidence, db.evidence);
    ghost var u3, u4 := Loose(ClaimRow, claims, db.claims), Loose(TaskRow, tasks, db.tasks);
    CappedFour(u1, u2, u3, u4);
    a := CoreAudit(|records|, |evidence|, |claims|, |tasks|, findings.legacyCount, findings.runnerClaimCount,
                   unsupported, findings.mismatchCount, findings.mismatchSample, findings.uncoveredSample,
                   findings.mismatchCount == 0);
  }

  /** No reachable store fails the core audit: nothing mismatches, everything decodes,
      and exactly the runner's claims are uncovered. */
  lemma {:induction false} CoreAuditClean(history: seq<Timed>, a: CoreAudit)
    requires CoreFindings(After(history), a)
    ensures var db := After(history);
      && a.mismatches == 0 && a.consistent && a.mismatchSample == [] && a.unsupported == 0 && a.uncoveredLegacy == 0
      && a.uncoveredRunnerClaims == |RunnerClaims(db.claims)|
      && a.coveredRecords == |db.records| && a.coveredEvidence == |db.evidence| && a.coveredTasks == |db.tasks|
      && a.coveredClaims + |RunnerClaims(db.claims)| == |db.claims|
      && a.uncoveredSample == Capped(Labels(ClaimRow, Keep(OrderedIds(db.claims.Keys), RunnerClaims(db.claims))))
  {
    hide After, OrderedIds, Replay, Differing, Uncovered, RunnerClaims, Keep, Labels, ClaimsCovered, Unsupported;
    HistoryKeepsLog(history);
    var db := After(history);
    var claims := Replay(db.events, PickClaim);
    AllSupported(db.events);
    NothingDiffers(db.records);
    NothingDiffers(db.evidence);
    NothingDiffers(db.tasks);
    ClaimsSplit(claims, db.claims);
    KeepNothing(OrderedIds(claims.Keys));
    var runners := RunnerClaims(db.claims);
    WithAll(runners);
    NoLabels(Labels(RecordRow, []), Labels(EvidenceRow, []), Labels(TaskRow, []), Labels(ClaimRow, Keep(OrderedIds(db.claims.Keys), runners)));
    NoLabels(Labels(RecordRow, []), Labels(EvidenceRow, []), Labels(TaskRow, []), Labels(ClaimRow, []));
  }

  lemma NoLabels(a: seq<Label>, b: seq<Label>, d: seq<Label>, c: seq<Label>)
    requires |a| == |b| == |d| == 0
    ensures a + b + c + d == c
    ensures |c| == 0 ==> Capped(c) == []
  {
  }

  lemma {:induction false} AllSupported(events: seq<Event>)
    requires forall i :: 0 <= i < |events| ==> Decodable(events[i])
    ensures Unsupported(events) == 0
  {
    if events != [] { AllSupported(events[..|events| - 1]); }
  }

  /** Comparing a table with itself. */
  lemma NothingDiffers<T>(rows: map<Id, T>)
    ensures Differing(rows, rows) == {} && Uncovered(rows, rows) == {}
    ensures Keep(OrderedIds(rows.Keys), {}) == []
  {
    hide OrderedIds;
    KeepNothing(OrderedIds(rows.Keys));
  }

  lemma PartSizes(part: set<Id>, whole: set<Id>)
    requires part <= whole
    ensures |part| + |whole - part| == |whole|
  {
  }

  lemma UncoveredAreRunners(replayed: map<Id, Claim>, claims: map<Id, Claim>)
    requires ClaimsCovered(replayed, claims)
    ensures Uncovered(replayed, claims) == RunnerClaims(claims)
  {
  }

  /** The claims the log lacks are the runner's. */
  lemma ClaimsSplit(replayed: map<Id, Claim>, claims: map<Id, Claim>)
    requires ClaimsCovered(replayed, claims)
    ensures Differing(replayed, claims) == {}
    ensures Uncovered(replayed, claims) == RunnerClaims(claims)
    ensures |replayed| + |RunnerClaims(claims)| == |claims|
  {
    hide RunnerClaims;
    UncoveredAreRunners(replayed, claims);
    PartSizes(replayed.Keys, claims.Keys);
    assert |replayed.Keys| == |replayed| && |claims.Keys| == |claims|;
  }

  // ---------------------------------------------------------------- the execution audit

  datatype RunAudit = RunAudit(replayed: nat, projected: nat, mismatches: seq<Id>)

  predicate RunKind(r: Request) {
    r.StartRun? || r.FinishRun? || r.InterruptRun?
  }

  /** The runs that differ and are not listed yet. */
  ghost function Unlisted(replayed: map<Id, Run>, projected: map<Id, Run>, noted: seq<Id>): set<Id> {
    Differing(replayed, projected) + Uncovered(replayed, projected) - Elements(noted)
  }

  /** Appends the identifiers of differing runs that are not already listed. */
  method NoteDiffering(ids: seq<Id>, replayed: map<Id, Run>, projected: map<Id, Run>, noted: seq<Id>) returns (mismatches: seq<Id>)
    requires Distinct(ids)
    ensures mismatches == noted + Keep(ids, Unlisted(replayed, projected, noted))
  {
    mismatches := noted;
    ghost var s := Unlisted(replayed, projected, noted);
    for i := 0 to |ids|
      invariant mismatches == noted + Keep(ids[..i], s)
    {
      var id := ids[i];
      KeepStep(ids, i, s);
      assert id !in ids[..i];
      if (id in replayed) != (id in projected) || (id in replayed && replayed[id] != projected[id]) {
        if id !in mismatches {
          mismatches := mismatches + [id];
        }
      }
    }
    assert ids[..|ids|] == ids;
  }

  lemma {:induction false} NotedFirst(replayed: map<Id, Run>, projected: map<Id, Run>, ids: seq<Id>)
    requires forall x :: x in ids <==> x in replayed.Keys
    ensures Keep(ids, Unlisted(replayed, projected, []))
      == Keep(ids, Differing(replayed, projected))
  {
    KeepSame(ids, Unlisted(replayed, projected, []), Differing(replayed, projected));
  }

  lemma {:induction false} NotedSecond(replayed: map<Id, Run>, projected: map<Id, Run>, ids: seq<Id>, noted: seq<Id>)
    requires forall x :: x in ids <==> x in projected.Keys
    requires forall x :: x in noted <==> x in Differing(replayed, projected)
    ensures Keep(ids, Unlisted(replayed, projected, noted))
      == Keep(ids, Uncovered(replayed, projected))
  {
    KeepSame(ids, Unlisted(replayed, projected, noted), Uncovered(replayed, projected));
  }

  lemma DifferingAreReplayed(replayed: map<Id, Run>, projected: map<Id, Run>)
    ensures Differing(replayed, projected) <= replayed.Keys
  {
  }

  /** The last snapshot of every run, or nothing when one does not decode. */
  method ReplayRuns(events: seq<Event>) returns (replayed: Option<map<Id, Run>>)
    ensures replayed.None? <==> exists e :: e in events && RunKind(e.request) && !Decodable(e)
    ensures replayed.Some? ==> replayed.value == Replay(events, PickRun)
  {
    var runs: map<Id, Run> := map[];
    for i := 0 to |events|
      invariant runs == Replay(events[..i], PickRun)
      invariant forall e :: e in events[..i] && RunKind(e.request) ==> Decodable(e)
    {
      var e := events[i];
      assert events[..i + 1] == events[..i] + [e];
      ReplayAppend(events[..i], e, PickRun);
      if RunKind(e.request) {
        if !Decodable(e) { return None; }
        runs := runs[e.outcome.run.id := e.outcome.run];
      }
    }
    assert events[..|events|] == events;
    return Some(runs);
  }

  /** Each differing run once, those in the log first. */
  method ListDiffering(replayed: map<Id, Run>, projected: map<Id, Run>) returns (mismatches: seq<Id>)
    ensures mismatches == Keep(OrderedIds(replayed.Keys), Differing(replayed, projected))
                          + Keep(OrderedIds(projected.Keys), Uncovered(replayed, projected))
  {
    hide OrderedIds, Keep, Differing, Uncovered, Unlisted;
    var first := InOrder(replayed.Keys);
    mismatches := NoteDiffering(first, replayed, projected, []);
    NotedFirst(replayed, projected, first);
    DifferingAreReplayed(replayed, projected);
    ghost var noted := mismatches;
    var second := InOrder(projected.Keys);
    mismatches := NoteDiffering(second, replayed, projected, mismatches);
    NotedSecond(replayed, projected, second, noted);
  }

  /** The audit of runs: nothing when some snapshot does not decode, else the counts and the differing runs. */
  method AuditExecutionReplay(db: Db) returns (a: Option<RunAudit>)
    ensures a.None? <==> exists e :: e in db.events && RunKind(e.request) && !Decodable(e)
    ensures a.Some? ==> var replayed := Replay(db.events, PickRun);
      && a.value.replayed == |replayed| && a.value.projected == |db.runs|
      && a.value.mismatches == Keep(OrderedIds(replayed.Keys), Differing(replayed, db.runs))
                               + Keep(OrderedIds(db.runs.Keys), Uncovered(replayed, db.runs))
  {
    hide OrderedIds, Replay, Keep, Decodable, Differing, Uncovered;
    var snapshots := ReplayRuns(db.events);
    if snapshots.None? { return None; }
    var mismatches := ListDiffering(snapshots.value, db.runs);
    a := Some(RunAudit(|snapshots.value|, |db.runs|, mismatches));
  }

  /** No reachable store fails the execution audit. */
  lemma {:induction false} RunAuditClean(history: seq<Timed>)
    ensures var db := After(history); var replayed := Replay(db.events, PickRun);
      && (forall e :: e in db.events && RunKind(e.request) ==> Decodable(e))
      && |replayed| == |db.runs|
      && Keep(OrderedIds(replayed.Keys), Differing(replayed, db.runs)) == []
      && Keep(OrderedIds(db.runs.Keys), Uncovered(replayed, db.runs)) == []
  {
    hide After, OrderedIds, Replay;
    HistoryKeepsLog(history);
    var db := After(history);
    NothingDiffers(db.runs);
    KeepNothing(OrderedIds(db.runs.Keys));
  }

  // ---------------------------------------------------------------- what the audits say of any store

  /** Every row the log has a snapshot of is in the table as last reported. */
  ghost predicate Attested<T(!new)>(events: seq<Event>, pick: Pick<T>, rows: map<Id, T>) {
    forall id, row :: LastSnapshot(events, pick, id, row) ==> id in rows && rows[id] == row
  }

  /** Every row of the table has a snapshot in the log. */
  ghost predicate Covered<T(!new)>(events: seq<Event>, pick: Pick<T>, rows: map<Id, T>) {
    forall id :: id in rows ==> exists row :: LastSnapshot(events, pick, id, row)
  }

  lemma {:induction false} AttestedExactly<T(!new)>(events: seq<Event>, pick: Pick<T>, rows: map<Id, T>)
    ensures Differing(Replay(events, pick), rows) == {} <==> Attested(events, pick, rows)
    ensures Uncovered(Replay(events, pick), rows) == {} <==> Covered(events, pick, rows)
  {
    hide Replay, LastSnapshot;
    var replayed := Replay(events, pick);
    forall id, row ensures id in replayed && replayed[id] == row <==> LastSnapshot(events, pick, id, row) { ReplayIsLast(events, pick, id, row); }
    forall id ensures id in replayed <==> exists x: T :: LastSnapshot(events, pick, id, x) { Replayed(events, pick, id); }
    if Differing(replayed, rows) != {} {
      var id :| id in Differing(replayed, rows);
      assert LastSnapshot(events, pick, id, replayed[id]);
    }
    if Attested(events, pick, rows) {
      forall id | id in replayed ensures id in rows && rows[id] == replayed[id] { assert LastSnapshot(events, pick, id, replayed[id]); }
    }
    if Differing(replayed, rows) == {} {
      forall id, row | LastSnapshot(events, pick, id, row) ensures id in rows && rows[id] == row { assert id !in Differing(replayed, rows); }
    }
    if id :| id in rows && id !in replayed { assert id in Uncovered(replayed, rows); }
  }

  lemma {:induction false} Replayed<T(!new)>(events: seq<Event>, pick: Pick<T>, id: Id)
    ensures id in Replay(events, pick) <==> exists x: T :: LastSnapshot(events, pick, id, x)
  {
    hide Replay, LastSnapshot;
    if x: T :| LastSnapshot(events, pick, id, x) { ReplayIsLast(events, pick, id, x); }
    if id in Replay(events, pick) { ReplayIsLast(events, pick, id, Replay(events, pick)[id]); }
  }

  lemma {:induction false} SupportedExactly(events: seq<Event>)
    ensures Unsupported(events) == 0 <==> forall e :: e in events && CoreKind(e.request) ==> Decodable(e)
  {
    hide Decodable;
    if events != [] {
      SupportedExactly(events[..|events| - 1]);
      assert events == events[..|events| - 1] + [events[|events| - 1]];
    }
  }

  /** The claims with no receipt all have a snapshot. */
  ghost predicate ClaimsAttested(events: seq<Event>, claims: map<Id, Claim>) {
    forall id :: id in claims && claims[id].receipts == {} ==> exists row :: LastSnapshot(events, PickClaim, id, row)
  }

  lemma {:induction false} LooseExactly(events: seq<Event>, claims: map<Id, Claim>)
    ensures Without(Uncovered(Replay(events, PickClaim), claims), RunnerClaims(claims)) == {} <==> ClaimsAttested(events, claims)
  {
    hide Replay, LastSnapshot, PickClaim;
    var replayed := Replay(events, PickClaim);
    forall id ensures id in replayed <==> exists row :: LastSnapshot(events, PickClaim, id, row) { Replayed(events, PickClaim, id); }
    if id :| id in claims && claims[id].receipts == {} && id !in replayed {
      assert id in Without(Uncovered(replayed, claims), RunnerClaims(claims));
    }
  }

  /** On any store, reachable or not: the report is consistent exactly when every row of the four tables is as the
      log last reported it; no legacy rows means every other row has a snapshot, but for the runner's claims;
      and nothing unsupported means every core event decodes. */
  lemma {:induction false} CoreAuditExactly(db: Db, a: CoreAudit)
    requires CoreFindings(db, a)
    ensures a.consistent <==>
      && Attested(db.events, PickRecord, db.records) && Attested(db.events, PickEvidence, db.evidence)
      && Attested(db.events, PickClaim, db.claims) && Attested(db.events, PickTask, db.tasks)
    ensures a.uncoveredLegacy == 0 <==>
      && Covered(db.events, PickRecord, db.records) && Covered(db.events, PickEvidence, db.evidence)
      && ClaimsAttested(db.events, db.claims) && Covered(db.events, PickTask, db.tasks)
    ensures a.unsupported == 0 <==> forall e :: e in db.events && CoreKind(e.request) ==> Decodable(e)
  {
    hide Replay, Differing, Uncovered, RunnerClaims, Keep, Labels, Unsupported, Capped, Mismatched, Loose, Attested, Covered, ClaimsAttested, Without, Within;
    AttestedExactly(db.events, PickRecord, db.records);
    AttestedExactly(db.events, PickEvidence, db.evidence);
    AttestedExactly(db.events, PickClaim, db.claims);
    AttestedExactly(db.events, PickTask, db.tasks);
    LooseExactly(db.events, db.claims);
    SupportedExactly(db.events);
  }

  /** On any store: the run audit lists a run exactly when its last snapshot and its row are not the same. */
  lemma {:induction false} RunAuditExactly(db: Db, id: Id)
    ensures var replayed := Replay(db.events, PickRun);
      var listed := Keep(OrderedIds(replayed.Keys), Differing(replayed, db.runs)) + Keep(OrderedIds(db.runs.Keys), Uncovered(replayed, db.runs));
      id !in listed <==> forall row :: LastSnapshot(db.events, PickRun, id, row) <==> id in db.runs && db.runs[id] == row
  {
    hide Replay, OrderedIds, Keep, LastSnapshot, PickRun;
    var replayed := Replay(db.events, PickRun);
    forall row ensures id in replayed && replayed[id] == row <==> LastSnapshot(db.events, PickRun, id, row) { ReplayIsLast(db.events, PickRun, id, row); }
    var listed := Keep(OrderedIds(replayed.Keys), Differing(replayed, db.runs)) + Keep(OrderedIds(db.runs.Keys), Uncovered(replayed, db.runs));
    assert id in listed <==> id in Differing(replayed, db.runs) || id in Uncovered(replayed, db.runs);
    if id in replayed { assert LastSnapshot(db.events, PickRun, id, replayed[id]); }
    if id in db.runs && id !in replayed { assert !LastSnapshot(db.events, PickRun, id, db.runs[id]); }
  }
}
