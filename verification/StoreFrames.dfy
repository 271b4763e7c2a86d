/** Which tables each transaction leaves alone. */
module StoreFrames {
  import opened Ordering
  import opened WriteScope
  import opened StoreModel

  predicate TaskRequest(r: Request) {
    r.CreateTask? || r.ClaimTask? || r.CompleteTask? || r.CancelTask?
  }

  lemma ExecuteFrame(db: Db, r: Request, now: int, seen: Sighting)
    requires Execute(db, r, now, seen).Commit?
    ensures var d := Execute(db, r, now, seen).db;
      && d.sessions == db.sessions && d.specs == db.specs && d.runs == db.runs && d.receipts == db.receipts
      && d.events == db.events && db.nextId <= d.nextId
      && (!TaskRequest(r) ==> d.tasks == db.tasks)
      && (!r.AddRecord? ==> d.records == db.records)
      && (!r.AddEvidence? ==> d.evidence == db.evidence)
      && (!r.AssertClaim? ==> d.claims == db.claims)
  {
    hide NormalizeAll, SameActiveObjective, DependencyError, UnfinishedError, CollidesWith, ProofsError, RecordLinkError;
    var d := Execute(db, r, now, seen).db;
    match r
    case AddRecord(_, _, _, _, _) => assert d == db.(records := d.records, nextId := d.nextId);
    case AddEvidence(_, _, _) => assert d == db.(evidence := d.evidence, nextId := d.nextId);
    case AssertClaim(_, _, _, _, _) => assert d == db.(claims := d.claims, nextId := d.nextId);
    case _ => assert d == db.(tasks := d.tasks, nextId := d.nextId);
  }

  lemma CallFrame(db: Db, key: Key, r: Request, now: int, seen: Sighting)
    ensures var d := CallTx(db, key, r, now, seen).0;
      && d.sessions == db.sessions && d.specs == db.specs && d.runs == db.runs && d.receipts == db.receipts
      && db.events <= d.events && db.nextId <= d.nextId
  {
    hide Execute, WellFormed, Lookup, Append;
    var v := Execute(db, r, now, seen);
    if v.Commit? {
      ExecuteFrame(db, r, now, seen);
      AppendFrame(v.db, key, v.stream, r, v.outcome, now);
    }
  }

  lemma AppendFrame(db: Db, key: Key, stream: Id, r: Request, o: Outcome, now: int)
    ensures var d := Append(db, key, stream, r, o, now);
      && d.sessions == db.sessions && d.specs == db.specs && d.tasks == db.tasks && d.records == db.records
      && d.evidence == db.evidence && d.claims == db.claims && d.runs == db.runs && d.receipts == db.receipts
      && d.nextId == db.nextId && d.events == db.events + [Event(key, stream, r, o, now)]
  {
  }

  /** The tables only callers write to are as before, the log has only grown, and so has the counter. */
  ghost predicate CallerTablesKept(db: Db, d: Db) {
    && d.sessions == db.sessions && d.specs == db.specs && d.tasks == db.tasks && d.records == db.records
    && d.evidence == db.evidence && db.events <= d.events && db.nextId <= d.nextId
  }

  lemma StartFrame(db: Db, spec: Id, now: int)
    ensures var d := StartTx(db, spec, now).0;
      CallerTablesKept(db, d) && d.receipts == db.receipts && d.claims == db.claims
  {
    hide HasRunning, LatestRun, SessionError;
    var d := StartTx(db, spec, now).0;
    if d != db {
      assert d == db.(runs := d.runs, events := d.events, nextId := db.nextId + 1);
    }
  }

  lemma FinishFrame(db: Db, f: Finish, now: int)
    ensures var d := FinishTx(db, f, now).0;
      CallerTablesKept(db, d) && forall x :: x in d.runs <==> x in db.runs
  {
    hide SuccessSupported, ArtifactsWithinLimits, DistinctPaths, Blank;
    var d := FinishTx(db, f, now).0;
    if d != db {
      assert d == db.(runs := db.runs[f.run := d.runs[f.run]], receipts := d.receipts, claims := d.claims,
                      events := d.events, nextId := db.nextId + 2);
    }
  }

  /** What interrupting leaves alone. */
  ghost predicate OnlyRunsTouched(db: Db, d: Db) {
    && CallerTablesKept(db, d) && d.claims == db.claims && d.receipts == db.receipts
    && d.nextId == db.nextId && forall x :: x in d.runs <==> x in db.runs
  }

  lemma InterruptOneFrame(db: Db, id: Id, staleAfter: nat, cutoff: int, now: int)
    ensures OnlyRunsTouched(db, InterruptOne(db, id, staleAfter, cutoff, now))
  {
    var d := InterruptOne(db, id, staleAfter, cutoff, now);
    if d != db {
      assert d == db.(runs := db.runs[id := d.runs[id]], events := d.events);
    }
  }

  lemma {:induction false} InterruptFrame(db: Db, n: nat, staleAfter: nat, cutoff: int, now: int)
    ensures OnlyRunsTouched(db, InterruptBelow(db, n, staleAfter, cutoff, now))
    decreases n
  {
    hide InterruptOne;
    if n > 0 {
      InterruptFrame(db, n - 1, staleAfter, cutoff, now);
      InterruptOneFrame(InterruptBelow(db, n - 1, staleAfter, cutoff, now), n - 1, staleAfter, cutoff, now);
    }
  }

  lemma ReconcileFrame(db: Db, staleAfter: nat, now: int)
    ensures OnlyRunsTouched(db, ReconcileTx(db, staleAfter, now).0)
  {
    hide InterruptBelow;
    InterruptFrame(db, db.nextId, staleAfter, now - staleAfter * 1000, now);
  }

  lemma AdminFrame(db: Db, c: Command)
    ensures var d := AdminTx(db, c);
      && d.tasks == db.tasks && d.records == db.records && d.evidence == db.evidence && d.claims == db.claims
      && d.runs == db.runs && d.receipts == db.receipts && d.events == db.events && db.nextId <= d.nextId
  {
    hide SessionError, DistinctTexts;
    var d := AdminTx(db, c);
    assert d == db.(sessions := d.sessions, specs := d.specs, nextId := d.nextId);
  }
}
