/** Replaying the event log: the last snapshot of each row, and why it always equals the row. */
module StoreReplay {
  import opened Ordering
  import opened WriteScope
  import opened StoreModel
  import opened StoreFrames
  import opened StoreTasks

  /** The row an event is a snapshot of, with its identifier. */
  type Pick<T> = Event -> Option<(Id, T)>

  function Put<T>(rows: map<Id, T>, row: Option<(Id, T)>): map<Id, T> {
    if row.Some? then rows[row.value.0 := row.value.1] else rows
  }

  /** Applies the snapshots in log order, later ones overwriting earlier ones. */
  function Replay<T>(events: seq<Event>, pick: Pick<T>): map<Id, T> {
    if events == [] then map[]
    else Put(Replay(events[..|events| - 1], pick), pick(events[|events| - 1]))
  }

  lemma {:induction false} ReplayAppend<T>(events: seq<Event>, e: Event, pick: Pick<T>)
    ensures Replay(events + [e], pick) == Put(Replay(events, pick), pick(e))
  {
    assert (events + [e])[..|events|] == events;
  }

  /** The row of the last event that is a snapshot of it. */
  ghost predicate LastSnapshot<T>(events: seq<Event>, pick: Pick<T>, id: Id, row: T) {
    exists k: nat :: LastAt(events, pick, id, k) && pick(events[k]).value.1 == row
  }

  ghost predicate LastAt<T>(events: seq<Event>, pick: Pick<T>, id: Id, k: nat) {
    && k < |events| && Snapshots(events[k], pick, id)
    && forall j :: k < j < |events| ==> !Snapshots(events[j], pick, id)
  }

  ghost predicate Snapshots<T>(e: Event, pick: Pick<T>, id: Id) {
    pick(e).Some? && pick(e).value.0 == id
  }

  lemma {:induction false} ReplayLast<T>(events: seq<Event>, pick: Pick<T>, id: Id) returns (k: int)
    ensures -1 <= k < |events|
    ensures k < 0 ==> id !in Replay(events, pick) && forall j :: 0 <= j < |events| ==> !Snapshots(events[j], pick, id)
    ensures k >= 0 ==> LastAt(events, pick, id, k) && id in Replay(events, pick) && Replay(events, pick)[id] == pick(events[k]).value.1
  {
    k := -1;
    if events != [] {
      var front, last := events[..|events| - 1], events[|events| - 1];
      if Snapshots(last, pick, id) {
        k := |front|;
      } else {
        k := ReplayLast(front, pick, id);
      }
    }
  }

  /** The replay holds, for each row any event is a snapshot of, the last such snapshot. */
  lemma {:induction false} ReplayIsLast<T(!new)>(events: seq<Event>, pick: Pick<T>, id: Id, row: T)
    ensures id in Replay(events, pick) && Replay(events, pick)[id] == row <==> LastSnapshot(events, pick, id, row)
    ensures id in Replay(events, pick) <==> exists x: T :: LastSnapshot(events, pick, id, x)
  {
    hide Replay;
    var k := ReplayLast(events, pick, id);
    if k >= 0 {
      assert LastSnapshot(events, pick, id, pick(events[k]).value.1);
      forall m: nat | LastAt(events, pick, id, m) ensures m == k { }
    }
  }

  // ---------------------------------------------------------------- the snapshots each audit reads

  function PickTask(e: Event): Option<(Id, Task)> {
    if TaskRequest(e.request) && e.outcome.TaskOutcome? then Some((e.outcome.task.id, e.outcome.task)) else None
  }

  /** Old model-authored records were later given less authority; snapshots are read the same way. */
  function Tightened(r: Record): Record {
    if r.origin == McpAgent && r.influence == HistoricalContext then r.(influence := UntrustedContent) else r
  }

  function PickRecord(e: Event): Option<(Id, Record)> {
    if e.request.AddRecord? && e.outcome.RecordOutcome? then Some((e.outcome.record.id, Tightened(e.outcome.record))) else None
  }

  function PickEvidence(e: Event): Option<(Id, Evidence)> {
    if e.request.AddEvidence? && e.outcome.EvidenceOutcome? then Some((e.outcome.evidence.id, e.outcome.evidence)) else None
  }

  function PickClaim(e: Event): Option<(Id, Claim)> {
    if e.request.AssertClaim? && e.outcome.ClaimOutcome? then Some((e.outcome.claim.id, e.outcome.claim)) else None
  }

  function PickRun(e: Event): Option<(Id, Run)> {
    if e.request.StartRun? && e.outcome.RunStarted? then Some((e.outcome.run.id, e.outcome.run))
    else if e.request.FinishRun? && e.outcome.RunFinished? then Some((e.outcome.run.id, e.outcome.run))
    else if e.request.InterruptRun? && e.outcome.RunInterrupted? then Some((e.outcome.run.id, e.outcome.run))
    else None
  }

  /** The result stored with an event is of the sort its kind calls for. */
  predicate Decodable(e: Event) {
    match e.request
    case AddRecord(_, _, _, _, _) => e.outcome.RecordOutcome?
    case AddEvidence(_, _, _) => e.outcome.EvidenceOutcome?
    case AssertClaim(_, _, _, _, _) => e.outcome.ClaimOutcome?
    case StartRun(_) => e.outcome.RunStarted?
    case FinishRun(_) => e.outcome.RunFinished?
    case InterruptRun(_) => e.outcome.RunInterrupted?
    case _ => e.outcome.TaskOutcome?
  }

  /** A task event's result, under the task's identifier. */
  ghost predicate TaskSnapshot(e: Event, id: Id, t: Task) {
    (e.request.CreateTask? || e.request.ClaimTask? || e.request.CompleteTask? || e.request.CancelTask?) && e.outcome == TaskOutcome(t) && t.id == id
  }

  /** A record event's result, with an agent's historical context read as untrusted. */
  ghost predicate RecordSnapshot(e: Event, id: Id, r: Record) {
    && e.request.AddRecord? && e.outcome.RecordOutcome?
    && var x := e.outcome.record;
       && r.id == x.id == id && r.session == x.session && r.kind == x.kind && r.content == x.content
       && r.supersedes == x.supersedes && r.origin == x.origin && r.createdAt == x.createdAt
       && r.influence == (match (x.origin, x.influence) case (McpAgent, HistoricalContext) => UntrustedContent case _ => x.influence)
  }

  ghost predicate EvidenceSnapshot(e: Event, id: Id, x: Evidence) {
    e.request.AddEvidence? && e.outcome == EvidenceOutcome(x) && x.id == id
  }

  ghost predicate ClaimSnapshot(e: Event, id: Id, c: Claim) {
    e.request.AssertClaim? && e.outcome == ClaimOutcome(c) && c.id == id
  }

  ghost predicate RunSnapshot(e: Event, id: Id, r: Run) {
    && r.id == id
    && (|| (e.request.StartRun? && e.outcome.RunStarted? && e.outcome.run == r)
        || (e.request.FinishRun? && e.outcome.RunFinished? && e.outcome.run == r)
        || (e.request.InterruptRun? && e.outcome.RunInterrupted? && e.outcome.run == r))
  }

  /** Which events are snapshots of which rows. */
  lemma PicksExactly(e: Event, id: Id, t: Task, r: Record, x: Evidence, c: Claim, run: Run)
    ensures PickTask(e) == Some((id, t)) <==> TaskSnapshot(e, id, t)
    ensures PickRecord(e) == Some((id, r)) <==> RecordSnapshot(e, id, r)
    ensures PickEvidence(e) == Some((id, x)) <==> EvidenceSnapshot(e, id, x)
    ensures PickClaim(e) == Some((id, c)) <==> ClaimSnapshot(e, id, c)
    ensures PickRun(e) == Some((id, run)) <==> RunSnapshot(e, id, run)
  {
  }

  /** A result decodes exactly when its event is a snapshot of some row. */
  lemma DecodableExactly(e: Event)
    ensures Decodable(e)
      <==> PickTask(e).Some? || PickRecord(e).Some? || PickEvidence(e).Some? || PickClaim(e).Some? || PickRun(e).Some?
  {
  }

  // ---------------------------------------------------------------- the log is the state

  /** Every row of the five tables is the replay of its snapshots; the claims the log does not hold
      are those the runner issued. */
  ghost predicate LogIsState(db: Db) {
    && (forall i :: 0 <= i < |db.events| ==> Decodable(db.events[i]))
    && Replay(db.events, PickTask) == db.tasks
    && Replay(db.events, PickRecord) == db.records
    && Replay(db.events, PickEvidence) == db.evidence
    && Replay(db.events, PickRun) == db.runs
    && ClaimsCovered(Replay(db.events, PickClaim), db.claims)
    && RunsNamed(db)
  }

  ghost predicate ClaimsCovered(replayed: map<Id, Claim>, claims: map<Id, Claim>) {
    && (forall c :: c in replayed ==> c in claims && claims[c] == replayed[c] && claims[c].receipts == {})
    && (forall c :: c in claims && c !in replayed ==> claims[c].receipts != {})
  }

  ghost predicate RunsNamed(db: Db) {
    forall r :: r in db.runs ==> db.runs[r].id == r
  }

  /** What appending an event does to the five replays. */
  lemma {:induction false} AppendReplays(events: seq<Event>, e: Event)
    ensures var more := events + [e];
      && Replay(more, PickTask) == Put(Replay(events, PickTask), PickTask(e))
      && Replay(more, PickRecord) == Put(Replay(events, PickRecord), PickRecord(e))
      && Replay(more, PickEvidence) == Put(Replay(events, PickEvidence), PickEvidence(e))
      && Replay(more, PickRun) == Put(Replay(events, PickRun), PickRun(e))
      && Replay(more, PickClaim) == Put(Replay(events, PickClaim), PickClaim(e))
  {
    ReplayAppend(events, e, PickTask);
    ReplayAppend(events, e, PickRecord);
    ReplayAppend(events, e, PickEvidence);
    ReplayAppend(events, e, PickRun);
    ReplayAppend(events, e, PickClaim);
  }

  /** The tables after a verdict are those before it with the row the event reports, and no other. */
  ghost predicate Reported(db: Db, v: Verdict, e: Event)
    requires v.Commit?
  {
    && Decodable(e) && PickRun(e).None?
    && v.db.tasks == Put(db.tasks, PickTask(e)) && v.db.records == Put(db.records, PickRecord(e))
    && v.db.evidence == Put(db.evidence, PickEvidence(e)) && v.db.claims == Put(db.claims, PickClaim(e))
    && (PickClaim(e).Some? ==> PickClaim(e).value.0 == db.nextId && PickClaim(e).value.1.receipts == {})
  }

  lemma TaskReported(db: Db, r: Request, now: int, seen: Sighting, key: Key)
    requires TasksOk(db) && TaskRequest(r) && Execute(db, r, now, seen).Commit?
    ensures var v := Execute(db, r, now, seen); Reported(db, v, Event(key, v.stream, r, v.outcome, now))
  {
    hide NormalizeAll, SameActiveObjective, DependencyError, UnfinishedError, CollidesWith, ProofsError, TasksOk;
    hide AddRecordTx, AddEvidenceTx, AssertClaimTx;
    ExecuteFrame(db, r, now, seen);
    match r
    case CreateTask(_, _, _, _, _) =>
    case ClaimTask(id, _, _) => TaskIdOk(db, id);
    case CompleteTask(id, _, _, _) => TaskIdOk(db, id);
    case CancelTask(id, _) => TaskIdOk(db, id);
  }

  lemma RowReported(db: Db, r: Request, now: int, seen: Sighting, key: Key)
    requires !TaskRequest(r) && Execute(db, r, now, seen).Commit?
    ensures var v := Execute(db, r, now, seen); Reported(db, v, Event(key, v.stream, r, v.outcome, now))
  {
    hide RecordLinkError, CreateTaskTx, ClaimTaskTx, CompleteTaskTx, CancelTaskTx;
    ExecuteFrame(db, r, now, seen);
    match r
    case AddRecord(_, _, _, _, _) =>
    case AddEvidence(_, _, _) =>
    case AssertClaim(_, _, _, _, _) =>
    case _ =>
  }

  /** A transaction writes exactly the row it reports. */
  lemma ExecuteReports(db: Db, r: Request, now: int, seen: Sighting, key: Key)
    requires TasksOk(db) && Execute(db, r, now, seen).Commit?
    ensures var v := Execute(db, r, now, seen); Reported(db, v, Event(key, v.stream, r, v.outcome, now))
  {
    hide Execute, Reported, TasksOk;
    if TaskRequest(r) { TaskReported(db, r, now, seen, key); } else { RowReported(db, r, now, seen, key); }
  }

  lemma CallKeepsLog(db: Db, key: Key, r: Request, now: int, seen: Sighting)
    requires LogIsState(db) && TasksOk(db) && Minted(db)
    ensures LogIsState(CallTx(db, key, r, now, seen).0)
  {
    hide Execute, WellFormed, Lookup, Decodable, TasksOk, Minted, PickTask, PickRecord, PickEvidence, PickRun, PickClaim, Replay;
    var v := Execute(db, r, now, seen);
    if WellFormed(key, r) && Lookup(db.events, key).None? && v.Commit? {
      var e := Event(key, v.stream, r, v.outcome, now);
      ExecuteFrame(db, r, now, seen);
      ExecuteReports(db, r, now, seen, key);
      AppendReplays(db.events, e);
      var d := CallTx(db, key, r, now, seen).0;
      assert d == v.db.(events := db.events + [e]);
    }
  }

  lemma StartKeepsLog(db: Db, spec: Id, now: int)
    requires LogIsState(db)
    ensures LogIsState(StartTx(db, spec, now).0)
  {
    hide HasRunning, LatestRun, SessionError, Replay;
    var d := StartTx(db, spec, now).0;
    if d != db {
      assert d == db.(runs := d.runs, events := d.events, nextId := db.nextId + 1);
      AppendReplays(db.events, d.events[|db.events|]);
    }
  }

  lemma FinishKeepsLog(db: Db, f: Finish, now: int)
    requires LogIsState(db) && Minted(db)
    ensures LogIsState(FinishTx(db, f, now).0)
  {
    hide SuccessSupported, ArtifactsWithinLimits, DistinctPaths, Blank, Replay;
    var d := FinishTx(db, f, now).0;
    if d != db {
      assert d == db.(runs := db.runs[f.run := d.runs[f.run]], receipts := d.receipts, claims := d.claims,
                      events := d.events, nextId := db.nextId + 2);
      AppendReplays(db.events, d.events[|db.events|]);
    }
  }

  lemma InterruptKeepsLog(db: Db, id: Id, staleAfter: nat, cutoff: int, now: int)
    requires LogIsState(db)
    ensures LogIsState(InterruptOne(db, id, staleAfter, cutoff, now))
  {
    hide Replay;
    var d := InterruptOne(db, id, staleAfter, cutoff, now);
    if d != db {
      assert d == db.(runs := db.runs[id := d.runs[id]], events := d.events);
      AppendReplays(db.events, d.events[|db.events|]);
    }
  }

  lemma {:induction false} InterruptsKeepLog(db: Db, n: nat, staleAfter: nat, cutoff: int, now: int)
    requires LogIsState(db)
    ensures LogIsState(InterruptBelow(db, n, staleAfter, cutoff, now))
    decreases n
  {
    hide InterruptOne, LogIsState;
    if n > 0 {
      InterruptsKeepLog(db, n - 1, staleAfter, cutoff, now);
      InterruptKeepsLog(InterruptBelow(db, n - 1, staleAfter, cutoff, now), n - 1, staleAfter, cutoff, now);
    }
  }

  lemma LogIsStateKept(db: Db, c: Timed)
    requires LogIsState(db) && TasksOk(db) && Minted(db)
    ensures LogIsState(Apply(db, c))
  {
    hide CallTx, StartTx, FinishTx, InterruptBelow, AdminTx, TasksOk, Minted;
    match c.command
    case Call(key, r, seen) => CallKeepsLog(db, key, r, c.now, seen);
    case Start(spec) => StartKeepsLog(db, spec, c.now);
    case FinishWith(f) => FinishKeepsLog(db, f, c.now);
    case Reconcile(staleAfter) => InterruptsKeepLog(db, db.nextId, staleAfter, c.now - staleAfter * 1000, c.now);
    case _ => AdminFrame(db, c.command);
  }

  /** After any history, every table equals the replay of the log. */
  lemma {:induction false} HistoryKeepsLog(history: seq<Timed>)
    ensures LogIsState(After(history))
  {
    hide Apply;
    if history != [] {
      var front := history[..|history| - 1];
      HistoryKeepsLog(front);
      HistoryKeepsTasks(front);
      LogIsStateKept(After(front), history[|front|]);
    }
  }
}
