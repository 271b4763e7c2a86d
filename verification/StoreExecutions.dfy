/** What every history of the store keeps about verification runs: one at a time, attempts in a chain,
    finished for good, and a runner-issued claim exactly for each success. */
module StoreExecutions {
  import opened Ordering
  import opened WriteScope
  import opened StoreModel
  import opened StoreFrames
  import opened StoreTasks

  // ---------------------------------------------------------------- the attempt chain

  predicate SameSpec(runs: map<Id, Run>, a: Id, b: Id) {
    a in runs && b in runs && runs[a].spec == runs[b].spec
  }

  /** `p` is the settled attempt just before `id`. */
  predicate Precedes(runs: map<Id, Run>, p: Id, id: Id) {
    && SameSpec(runs, p, id) && p < id
    && runs[p].attempt + 1 == runs[id].attempt && runs[p].status != Running
  }

  ghost predicate RunOk(runs: map<Id, Run>, specs: map<Id, Spec>, id: Id)
    requires id in runs
  {
    var r := runs[id];
    && r.id == id && r.spec in specs && r.session == specs[r.spec].session
    && r.attempt >= 1 && (r.status == Running <==> r.finishedAt.None?)
    && (r.retryOf.None? <==> r.attempt == 1)
    && (r.retryOf.Some? ==> Precedes(runs, r.retryOf.value, id))
  }

  ghost predicate RunsOk(runs: map<Id, Run>, specs: map<Id, Spec>) {
    && (forall id :: id in runs ==> RunOk(runs, specs, id))
    && (forall a, b :: SameSpec(runs, a, b) && a != b ==>
      runs[a].attempt != runs[b].attempt && (runs[a].status == Running ==> runs[b].status != Running))
  }

  lemma {:induction false} LatestIsGreatest(runs: map<Id, Run>, spec: Id, n: nat)
    ensures var l := LatestBelow(runs, spec, n);
      && (l.Some? ==> l.value in runs && runs[l.value].spec == spec && l.value < n)
      && forall id :: id in runs && id < n && runs[id].spec == spec ==> l.Some? && runs[id].attempt <= runs[l.value].attempt
    decreases n
  {
    if n > 0 { LatestIsGreatest(runs, spec, n - 1); }
  }

  /** A new run continues the chain from `prior`, the greatest attempt so far. */
  lemma NewRunOk(runs: map<Id, Run>, specs: map<Id, Spec>, id: Id, r: Run, prior: Option<Id>)
    requires RunsOk(runs, specs) && forall x :: x in runs ==> x < id
    requires r.id == id && r.spec in specs && r.session == specs[r.spec].session && r.status == Running && r.finishedAt.None?
    requires forall x :: x in runs && runs[x].spec == r.spec ==> prior.Some? && runs[x].status != Running
    requires prior.Some? ==> prior.value in runs && runs[prior.value].spec == r.spec
    requires prior.Some? ==> forall x :: x in runs && runs[x].spec == r.spec ==> runs[x].attempt <= runs[prior.value].attempt
    requires r.retryOf == prior && r.attempt == if prior.Some? then runs[prior.value].attempt + 1 else 1
    ensures RunsOk(runs[id := r], specs)
  {
    var after := runs[id := r];
    forall x | x in after ensures RunOk(after, specs, x) {
      if x != id { assert RunOk(runs, specs, x); }
      if prior.Some? { assert RunOk(runs, specs, prior.value); }
    }
    forall a, b | SameSpec(after, a, b) && a != b
      ensures after[a].attempt != after[b].attempt && (after[a].status == Running ==> after[b].status != Running)
    {
      if a != id && b != id { assert SameSpec(runs, a, b); }
    }
  }

  lemma StartKeepsRuns(db: Db, spec: Id, now: int)
    requires Minted(db) && RunsOk(db.runs, db.specs)
    ensures var d := StartTx(db, spec, now).0; RunsOk(d.runs, d.specs)
  {
    hide SessionError, LatestBelow, RunsOk;
    var d := StartTx(db, spec, now).0;
    if d != db {
      LatestIsGreatest(db.runs, spec, db.nextId);
      var id := db.nextId;
      assert d.runs == db.runs[id := d.runs[id]] && d.specs == db.specs;
      NewRunOk(db.runs, db.specs, id, d.runs[id], LatestRun(db, spec));
    }
  }

  /** Settling a running attempt. */
  lemma SettleKeepsRuns(runs: map<Id, Run>, specs: map<Id, Spec>, id: Id, r: Run)
    requires RunsOk(runs, specs) && id in runs && runs[id].status == Running
    requires r.status != Running && r.finishedAt.Some? && r == runs[id].(status := r.status, finishedAt := r.finishedAt)
    ensures RunsOk(runs[id := r], specs)
  {
    var after := runs[id := r];
    forall x | x in after ensures RunOk(after, specs, x) {
      assert RunOk(runs, specs, x);
    }
    forall a, b | SameSpec(after, a, b) && a != b
      ensures after[a].attempt != after[b].attempt && (after[a].status == Running ==> after[b].status != Running)
    {
      assert SameSpec(runs, a, b);
    }
  }

  lemma FinishKeepsRuns(db: Db, f: Finish, now: int)
    requires RunsOk(db.runs, db.specs)
    ensures var d := FinishTx(db, f, now).0; RunsOk(d.runs, d.specs)
  {
    hide SuccessSupported, ArtifactsWithinLimits, DistinctPaths, Blank, RunsOk;
    var d := FinishTx(db, f, now).0;
    if d != db {
      assert d.runs == db.runs[f.run := d.runs[f.run]] && d.specs == db.specs;
      SettleKeepsRuns(db.runs, db.specs, f.run, d.runs[f.run]);
    }
  }

  lemma InterruptKeepsRuns(db: Db, id: Id, staleAfter: nat, cutoff: int, now: int)
    requires RunsOk(db.runs, db.specs)
    ensures var d := InterruptOne(db, id, staleAfter, cutoff, now); RunsOk(d.runs, d.specs)
  {
    hide RunsOk;
    var d := InterruptOne(db, id, staleAfter, cutoff, now);
    if d != db {
      SettleKeepsRuns(db.runs, db.specs, id, d.runs[id]);
    }
  }

  lemma {:induction false} InterruptsKeepRuns(db: Db, n: nat, staleAfter: nat, cutoff: int, now: int)
    requires RunsOk(db.runs, db.specs)
    ensures var d := InterruptBelow(db, n, staleAfter, cutoff, now); RunsOk(d.runs, d.specs)
    decreases n
  {
    hide InterruptOne, RunsOk;
    if n > 0 {
      InterruptsKeepRuns(db, n - 1, staleAfter, cutoff, now);
      InterruptKeepsRuns(InterruptBelow(db, n - 1, staleAfter, cutoff, now), n - 1, staleAfter, cutoff, now);
    }
  }

  lemma AdminKeepsRuns(db: Db, c: Command)
    requires Minted(db) && RunsOk(db.runs, db.specs)
    ensures var d := AdminTx(db, c); RunsOk(d.runs, d.specs)
  {
    hide SessionError, DistinctTexts;
    AdminFrame(db, c);
    var d := AdminTx(db, c);
    assert forall s :: s in db.specs ==> s in d.specs && d.specs[s] == db.specs[s];
    forall x | x in d.runs ensures RunOk(d.runs, d.specs, x) {
      assert RunOk(db.runs, db.specs, x);
    }
  }

  lemma RunsOkKept(db: Db, c: Timed)
    requires Minted(db) && RunsOk(db.runs, db.specs)
    ensures RunsOk(Apply(db, c).runs, Apply(db, c).specs)
  {
    hide CallTx, StartTx, FinishTx, InterruptBelow, AdminTx, RunsOk, Minted;
    match c.command
    case Call(key, r, seen) => CallFrame(db, key, r, c.now, seen);
    case Start(spec) => StartKeepsRuns(db, spec, c.now);
    case FinishWith(f) => FinishKeepsRuns(db, f, c.now);
    case Reconcile(staleAfter) => InterruptsKeepRuns(db, db.nextId, staleAfter, c.now - staleAfter * 1000, c.now);
    case _ => AdminKeepsRuns(db, c.command);
  }

  lemma {:induction false} HistoryKeepsRuns(history: seq<Timed>)
    ensures RunsOk(After(history).runs, After(history).specs)
  {
    hide Apply, RunsOk;
    if history != [] {
      var front := history[..|history| - 1];
      HistoryKeepsRuns(front);
      HistoryKeepsTasks(front);
      RunsOkKept(After(front), history[|front|]);
    } else {
      NoRunsOk(map[]);
    }
  }

  lemma NoRunsOk(specs: map<Id, Spec>)
    ensures RunsOk(map[], specs)
  {
  }

  /** Some run of the spec is its attempt `k`. */
  ghost predicate HasAttempt(runs: map<Id, Run>, spec: Id, k: nat) {
    exists id :: id in runs && runs[id].spec == spec && runs[id].attempt == k
  }

  lemma {:induction false} EarlierAttemptsExist(runs: map<Id, Run>, specs: map<Id, Spec>, id: Id, k: nat)
    requires RunsOk(runs, specs) && id in runs && 1 <= k <= runs[id].attempt
    ensures HasAttempt(runs, runs[id].spec, k)
    decreases id
  {
    assert RunOk(runs, specs, id);
    if k < runs[id].attempt {
      EarlierAttemptsExist(runs, specs, runs[id].retryOf.value, k);
    }
  }

  /** The attempts made are 1 to `n`. */
  ghost predicate AttemptsAre(runs: map<Id, Run>, spec: Id, n: nat) {
    forall k: nat :: HasAttempt(runs, spec, k) <==> 1 <= k <= n
  }

  /** The attempts of every spec are exactly 1 to some `n`, each made once. */
  lemma {:induction false} AttemptsAreConsecutive(history: seq<Timed>, spec: Id)
    ensures exists n: nat :: AttemptsAre(After(history).runs, spec, n)
    ensures forall a, b :: SameSpec(After(history).runs, a, b) && After(history).runs[a].attempt == After(history).runs[b].attempt ==> a == b
  {
    hide Apply, LatestBelow, After;
    HistoryKeepsRuns(history);
    HistoryKeepsTasks(history);
    var db := After(history);
    var l := LatestBelow(db.runs, spec, db.nextId);
    LatestIsGreatest(db.runs, spec, db.nextId);
    var n := if l.Some? then db.runs[l.value].attempt else 0;
    forall k: nat | 1 <= k <= n ensures HasAttempt(db.runs, spec, k) {
      EarlierAttemptsExist(db.runs, db.specs, l.value, k);
    }
    forall k: nat | HasAttempt(db.runs, spec, k) ensures 1 <= k <= n {
      var id :| id in db.runs && db.runs[id].spec == spec && db.runs[id].attempt == k;
      assert RunOk(db.runs, db.specs, id);
    }
    assert AttemptsAre(db.runs, spec, n);
  }

  // ---------------------------------------------------------------- settled runs

  lemma {:induction false} InterruptsKeepSettled(db: Db, n: nat, staleAfter: nat, cutoff: int, now: int, id: Id)
    requires id in db.runs && db.runs[id].status != Running
    ensures var d := InterruptBelow(db, n, staleAfter, cutoff, now); id in d.runs && d.runs[id] == db.runs[id]
    decreases n
  {
    if n > 0 { InterruptsKeepSettled(db, n - 1, staleAfter, cutoff, now, id); }
  }

  lemma StartKeepsSettled(db: Db, spec: Id, now: int, id: Id)
    requires Minted(db) && id in db.runs
    ensures var d := StartTx(db, spec, now).0; id in d.runs && d.runs[id] == db.runs[id]
  {
    hide HasRunning, LatestRun, SessionError;
  }

  lemma FinishKeepsSettled(db: Db, f: Finish, now: int, id: Id)
    requires id in db.runs && db.runs[id].status != Running
    ensures var d := FinishTx(db, f, now).0; id in d.runs && d.runs[id] == db.runs[id]
  {
    hide SuccessSupported, ArtifactsWithinLimits, DistinctPaths, Blank;
  }

  /** A run that has left `running` never changes again. */
  lemma SettledRunKept(db: Db, c: Timed, id: Id)
    requires Minted(db) && id in db.runs && db.runs[id].status != Running
    ensures id in Apply(db, c).runs && Apply(db, c).runs[id] == db.runs[id]
  {
    hide CallTx, StartTx, FinishTx, InterruptBelow, AdminTx, Minted;
    match c.command
    case Call(key, r, seen) => CallFrame(db, key, r, c.now, seen);
    case Start(spec) => StartKeepsSettled(db, spec, c.now, id);
    case FinishWith(f) => FinishKeepsSettled(db, f, c.now, id);
    case Reconcile(staleAfter) => InterruptsKeepSettled(db, db.nextId, staleAfter, c.now - staleAfter * 1000, c.now, id);
    case _ => AdminFrame(db, c.command);
  }

  lemma {:induction false} SettledRunsAreFinal(history: seq<Timed>, later: seq<Timed>, id: Id)
    requires id in After(history).runs && After(history).runs[id].status != Running
    ensures id in After(history + later).runs && After(history + later).runs[id] == After(history).runs[id]
    decreases |later|
  {
    hide Apply;
    if later == [] {
      assert history + later == history;
    } else {
      var front, last := later[..|later| - 1], later[|later| - 1];
      SettledRunsAreFinal(history, front, id);
      HistoryKeepsTasks(history + front);
      SettledRunKept(After(history + front), last, id);
      assert (history + later)[..|history + later| - 1] == history + front;
    }
  }

  /** A result that arrives for a run already settled, say interrupted by a reconcile, is refused
      however much later it comes, and changes nothing. */
  lemma {:induction false} LateFinishRefused(history: seq<Timed>, later: seq<Timed>, f: Finish, now: int)
    requires f.run in After(history).runs && After(history).runs[f.run].status != Running
    ensures var db := After(history + later);
      FinishTx(db, f, now).0 == db && FinishTx(db, f, now).1.Refused?
  {
    hide After, Blank;
    SettledRunsAreFinal(history, later, f.run);
  }

  /** Reconciling interrupts exactly the running attempts that started before the cutoff. */
  lemma {:induction false} InterruptsExactly(db: Db, n: nat, staleAfter: nat, cutoff: int, now: int, id: Id)
    requires id in db.runs
    ensures var d := InterruptBelow(db, n, staleAfter, cutoff, now);
      && id in d.runs
      && d.runs[id] == (if id < n && db.runs[id].status == Running && db.runs[id].startedAt < cutoff
                        then db.runs[id].(status := Interrupted, finishedAt := Some(now)) else db.runs[id])
    decreases n
  {
    if n > 0 { InterruptsExactly(db, n - 1, staleAfter, cutoff, now, id); }
  }

  lemma {:induction false} ReconcileExactly(history: seq<Timed>, staleAfter: nat, now: int, id: Id)
    requires id in After(history).runs && 1 <= staleAfter <= 31_536_000
    ensures var db := After(history); var d := ReconcileTx(db, staleAfter, now).0;
      && id in d.runs
      && d.runs[id] == (if db.runs[id].status == Running && db.runs[id].startedAt < now - staleAfter * 1000
                        then db.runs[id].(status := Interrupted, finishedAt := Some(now)) else db.runs[id])
  {
    hide After, InterruptBelow;
    HistoryKeepsTasks(history);
    InterruptsExactly(After(history), After(history).nextId, staleAfter, now - staleAfter * 1000, now, id);
  }

  // ---------------------------------------------------------------- receipts and the claims they back

  /** The one receipt of a run says how the run ended, and a success met its specification. */
  ghost predicate ReceiptOk(db: Db, x: Id)
    requires x in db.receipts
  {
    var r := db.receipts[x];
    && r.run in db.runs && db.runs[r.run].status == r.finish.status && r.finish.status != Interrupted && r.finish.status != Running
    && db.runs[r.run].spec in db.specs
    && (r.finish.status == Succeeded ==>
        var spec := db.specs[db.runs[r.run].spec];
        && SuccessSupported(spec, r.finish) && x + 1 in db.claims
        && RunnerClaim(db.claims[x + 1], spec, x))
  }

  /** The claim the runner issues for a success. */
  predicate RunnerClaim(c: Claim, spec: Spec, receipt: Id) {
    && c.session == spec.session && c.status == Verified && c.statement == spec.successClaim
    && c.receipts == {receipt} && c.evidence == {}
  }

  predicate HasReceipt(receipts: map<Id, Receipt>, run: Id) {
    exists x :: x in receipts && receipts[x].run == run
  }

  ghost predicate ReceiptsOk(db: Db) {
    && (forall x :: x in db.receipts ==> ReceiptOk(db, x))
    && (forall x, y :: x in db.receipts && y in db.receipts && db.receipts[x].run == db.receipts[y].run ==> x == y)
    && (forall r :: r in db.runs && db.runs[r].status != Running && db.runs[r].status != Interrupted ==> HasReceipt(db.receipts, r))
    && (forall c :: c in db.claims && db.claims[c].receipts != {} ==>
      c > 0 && c - 1 in db.receipts && db.receipts[c - 1].finish.status == Succeeded)
    && (forall s :: s in db.specs ==> s < db.nextId) && (forall c :: c in db.claims ==> c < db.nextId)
  }

  lemma CallKeepsReceipts(db: Db, key: Key, r: Request, now: int, seen: Sighting)
    requires Minted(db) && ReceiptsOk(db)
    ensures ReceiptsOk(CallTx(db, key, r, now, seen).0)
  {
    hide SuccessSupported, CallTx;
    var d := CallTx(db, key, r, now, seen).0;
    CallFrame(db, key, r, now, seen);
    CallClaims(db, key, r, now, seen);
    forall x | x in d.receipts ensures ReceiptOk(d, x) {
      assert ReceiptOk(db, x);
    }
  }

  /** A caller's transaction adds at most one claim, which no receipt backs. */
  ghost predicate OnlyBareClaimsAdded(db: Db, d: Db) {
    && (forall c :: c in db.claims ==> c in d.claims && d.claims[c] == db.claims[c])
    && (forall c :: c in d.claims && c !in db.claims ==> c < d.nextId && d.claims[c].receipts == {})
  }

  lemma ExecuteClaims(db: Db, r: Request, now: int, seen: Sighting)
    requires Minted(db) && Execute(db, r, now, seen).Commit?
    ensures OnlyBareClaimsAdded(db, Execute(db, r, now, seen).db)
  {
    hide CreateTaskTx, ClaimTaskTx, CompleteTaskTx, CancelTaskTx, AddRecordTx, AddEvidenceTx;
    ExecuteFrame(db, r, now, seen);
  }

  lemma CallClaims(db: Db, key: Key, r: Request, now: int, seen: Sighting)
    requires Minted(db)
    ensures OnlyBareClaimsAdded(db, CallTx(db, key, r, now, seen).0)
  {
    hide Execute, WellFormed, Lookup, Append;
    var v := Execute(db, r, now, seen);
    if v.Commit? {
      ExecuteClaims(db, r, now, seen);
      AppendFrame(v.db, key, v.stream, r, v.outcome, now);
    }
  }

  lemma StartKeepsReceipts(db: Db, spec: Id, now: int)
    requires Minted(db) && ReceiptsOk(db)
    ensures ReceiptsOk(StartTx(db, spec, now).0)
  {
    hide HasRunning, LatestRun, SessionError, SuccessSupported;
    var d := StartTx(db, spec, now).0;
    if d != db {
      assert d == db.(runs := db.runs[db.nextId := d.runs[db.nextId]], events := d.events, nextId := db.nextId + 1);
      assert d.runs[db.nextId].status == Running;
      forall x | x in d.receipts ensures ReceiptOk(d, x) {
        assert ReceiptOk(db, x);
      }
    }
  }

  /** What a committed finish writes. */
  lemma FinishShape(db: Db, f: Finish, now: int)
    requires FinishTx(db, f, now).0 != db
    ensures var d := FinishTx(db, f, now).0; var x := db.nextId;
      && f.run in db.runs && db.runs[f.run].status == Running && db.runs[f.run].spec in db.specs
      && f.status != Running && f.status != Interrupted
      && d.sessions == db.sessions && d.specs == db.specs && d.nextId == x + 2
      && d.runs == db.runs[f.run := db.runs[f.run].(status := f.status, finishedAt := Some(now))]
      && d.receipts == db.receipts[x := Receipt(x, f.run, f, now)]
      && (f.status != Succeeded ==> d.claims == db.claims)
      && (f.status == Succeeded ==> var spec := db.specs[db.runs[f.run].spec];
          && SuccessSupported(spec, f) && x + 1 in d.claims
          && d.claims == db.claims[x + 1 := d.claims[x + 1]] && RunnerClaim(d.claims[x + 1], spec, x))
  {
    hide SuccessSupported, ArtifactsWithinLimits, DistinctPaths, Blank;
    var d := FinishTx(db, f, now).0;
    assert d == db.(runs := db.runs[f.run := d.runs[f.run]], receipts := d.receipts, claims := d.claims,
                    events := d.events, nextId := db.nextId + 2);
  }

  lemma FinishReceiptOk(db: Db, f: Finish, now: int, x: Id)
    requires Minted(db) && ReceiptsOk(db) && FinishTx(db, f, now).0 != db && x in FinishTx(db, f, now).0.receipts
    ensures ReceiptOk(FinishTx(db, f, now).0, x)
  {
    hide SuccessSupported, FinishTx, HasReceipt;
    FinishShape(db, f, now);
    if x != db.nextId { assert ReceiptOk(db, x); }
  }

  lemma FinishHasReceipt(db: Db, f: Finish, now: int, r: Id)
    requires ReceiptsOk(db) && Minted(db) && FinishTx(db, f, now).0 != db
    requires var d := FinishTx(db, f, now).0; r in d.runs && d.runs[r].status != Running && d.runs[r].status != Interrupted
    ensures HasReceipt(FinishTx(db, f, now).0.receipts, r)
  {
    hide SuccessSupported, FinishTx, ReceiptOk;
    FinishShape(db, f, now);
    var d := FinishTx(db, f, now).0;
    if r == f.run {
      assert d.receipts[db.nextId].run == r;
    } else {
      var x :| x in db.receipts && db.receipts[x].run == r;
      assert d.receipts[x].run == r;
    }
  }

  lemma FinishReceiptsApart(db: Db, f: Finish, now: int)
    requires Minted(db) && ReceiptsOk(db) && FinishTx(db, f, now).0 != db
    ensures var d := FinishTx(db, f, now).0;
      forall x, y :: x in d.receipts && y in d.receipts && d.receipts[x].run == d.receipts[y].run ==> x == y
  {
    hide SuccessSupported, FinishTx, HasReceipt;
    FinishShape(db, f, now);
    forall x | x in db.receipts ensures db.receipts[x].run != f.run { assert ReceiptOk(db, x); }
  }

  lemma FinishClaimsOk(db: Db, f: Finish, now: int)
    requires Minted(db) && ReceiptsOk(db) && FinishTx(db, f, now).0 != db
    ensures var d := FinishTx(db, f, now).0;
      && (forall c :: c in d.claims && d.claims[c].receipts != {} ==>
        c > 0 && c - 1 in d.receipts && d.receipts[c - 1].finish.status == Succeeded)
      && (forall s :: s in d.specs ==> s < d.nextId) && (forall c :: c in d.claims ==> c < d.nextId)
  {
    hide SuccessSupported, FinishTx, ReceiptOk, HasReceipt;
    FinishShape(db, f, now);
  }

  lemma FinishKeepsReceipts(db: Db, f: Finish, now: int)
    requires Minted(db) && ReceiptsOk(db)
    ensures ReceiptsOk(FinishTx(db, f, now).0)
  {
    hide SuccessSupported, FinishTx, ReceiptOk, HasReceipt;
    var d := FinishTx(db, f, now).0;
    if d != db {
      forall x | x in d.receipts ensures ReceiptOk(d, x) { FinishReceiptOk(db, f, now, x); }
      forall r | r in d.runs && d.runs[r].status != Running && d.runs[r].status != Interrupted ensures HasReceipt(d.receipts, r) {
        FinishHasReceipt(db, f, now, r);
      }
      FinishReceiptsApart(db, f, now);
      FinishClaimsOk(db, f, now);
    }
  }

  lemma InterruptKeepsReceipts(db: Db, id: Id, staleAfter: nat, cutoff: int, now: int)
    requires ReceiptsOk(db)
    ensures ReceiptsOk(InterruptOne(db, id, staleAfter, cutoff, now))
  {
    hide SuccessSupported;
    var d := InterruptOne(db, id, staleAfter, cutoff, now);
    if d != db {
      assert d == db.(runs := db.runs[id := d.runs[id]], events := d.events);
      forall x | x in d.receipts ensures ReceiptOk(d, x) {
        assert ReceiptOk(db, x);
      }
    }
  }

  lemma {:induction false} InterruptsKeepReceipts(db: Db, n: nat, staleAfter: nat, cutoff: int, now: int)
    requires ReceiptsOk(db)
    ensures ReceiptsOk(InterruptBelow(db, n, staleAfter, cutoff, now))
    decreases n
  {
    hide InterruptOne, ReceiptsOk;
    if n > 0 {
      InterruptsKeepReceipts(db, n - 1, staleAfter, cutoff, now);
      InterruptKeepsReceipts(InterruptBelow(db, n - 1, staleAfter, cutoff, now), n - 1, staleAfter, cutoff, now);
    }
  }

  /** Registered specifications never change. */
  lemma AdminSpecs(db: Db, c: Command)
    requires Minted(db)
    ensures var d := AdminTx(db, c);
      && (forall s :: s in db.specs ==> s in d.specs && d.specs[s] == db.specs[s])
      && (forall s :: s in d.specs ==> s < d.nextId)
  {
    hide SessionError, DistinctTexts;
  }

  lemma AdminKeepsReceipts(db: Db, c: Command)
    requires Minted(db) && ReceiptsOk(db)
    ensures ReceiptsOk(AdminTx(db, c))
  {
    hide SessionError, DistinctTexts, SuccessSupported;
    AdminFrame(db, c);
    AdminSpecs(db, c);
    hide AdminTx;
    var d := AdminTx(db, c);
    forall x | x in d.receipts ensures ReceiptOk(d, x) {
      assert ReceiptOk(db, x);
    }
  }

  lemma ReceiptsOkKept(db: Db, c: Timed)
    requires Minted(db) && ReceiptsOk(db)
    ensures ReceiptsOk(Apply(db, c))
  {
    hide CallTx, StartTx, FinishTx, InterruptBelow, AdminTx, ReceiptsOk, Minted;
    match c.command
    case Call(key, r, seen) => CallKeepsReceipts(db, key, r, c.now, seen);
    case Start(spec) => StartKeepsReceipts(db, spec, c.now);
    case FinishWith(f) => FinishKeepsReceipts(db, f, c.now);
    case Reconcile(staleAfter) => InterruptsKeepReceipts(db, db.nextId, staleAfter, c.now - staleAfter * 1000, c.now);
    case _ => AdminKeepsReceipts(db, c.command);
  }

  lemma {:induction false} HistoryKeepsReceipts(history: seq<Timed>)
    ensures ReceiptsOk(After(history))
  {
    hide Apply, SuccessSupported;
    if history != [] {
      var front := history[..|history| - 1];
      HistoryKeepsReceipts(front);
      HistoryKeepsTasks(front);
      ReceiptsOkKept(After(front), history[|front|]);
    }
  }

  /** A claim rests on receipts, all of them of this run. */
  ghost predicate Backs(db: Db, claim: Id, run: Id) {
    && claim in db.claims && db.claims[claim].receipts != {}
    && forall x :: x in db.claims[claim].receipts ==> x in db.receipts && db.receipts[x].run == run
  }

  lemma BackedRun(db: Db, claim: Id, run: Id)
    requires ReceiptsOk(db) && Backs(db, claim, run)
    ensures run in db.runs && db.runs[run].status == Succeeded && db.runs[run].spec in db.specs
    ensures claim > 0 && db.claims[claim].receipts == {claim - 1} && claim - 1 in db.receipts && db.receipts[claim - 1].run == run
    ensures RunnerClaim(db.claims[claim], db.specs[db.runs[run].spec], claim - 1)
    ensures SuccessSupported(db.specs[db.runs[run].spec], db.receipts[claim - 1].finish)
  {
    hide SuccessSupported;
    assert ReceiptOk(db, claim - 1);
    assert claim - 1 in db.claims[claim].receipts;
  }

  /** The receipt shows what the run's specification asks of a success. */
  predicate Meets(db: Db, run: Id, receipt: Id)
    requires run in db.runs && db.runs[run].spec in db.specs && receipt in db.receipts
  {
    SuccessSupported(db.specs[db.runs[run].spec], db.receipts[receipt].finish)
  }

  /** The claim says what the run's specification said it would, is verified,
      and rests on a receipt that meets the specification. */
  ghost predicate Justified(db: Db, claim: Id, run: Id)
    requires claim in db.claims && run in db.runs
  {
    && db.runs[run].spec in db.specs && db.claims[claim].status == Verified
    && db.claims[claim].statement == db.specs[db.runs[run].spec].successClaim
    && exists x :: x in db.claims[claim].receipts && x in db.receipts && Meets(db, run, x)
  }

  /** A receipt-backed claim exists for a run if and only if the run succeeded;
      it is then the only one, and it is justified. */
  lemma {:induction false} ClaimIffSucceeded(history: seq<Timed>, run: Id)
    requires run in After(history).runs
    ensures var db := After(history);
      && (db.runs[run].status == Succeeded <==> exists c: Id :: Backs(db, c, run))
      && (forall a: Id, b: Id :: Backs(db, a, run) && Backs(db, b, run) ==> a == b)
      && forall c: Id :: Backs(db, c, run) ==> Justified(db, c, run)
  {
    hide After, SuccessSupported, ReceiptsOk;
    HistoryKeepsReceipts(history);
    var db := After(history);
    if db.runs[run].status == Succeeded { SucceededIsBacked(db, run); }
    forall c: Id | Backs(db, c, run) ensures db.runs[run].status == Succeeded && Justified(db, c, run) {
      BackedRun(db, c, run);
    }
    forall a: Id, b: Id | Backs(db, a, run) && Backs(db, b, run) ensures a == b {
      BackedRun(db, a, run);
      BackedRun(db, b, run);
      ReceiptsApart(db, a - 1, b - 1);
    }
  }

  lemma ReceiptsApart(db: Db, x: Id, y: Id)
    requires ReceiptsOk(db) && x in db.receipts && y in db.receipts && db.receipts[x].run == db.receipts[y].run
    ensures x == y
  {
  }

  lemma SucceededIsBacked(db: Db, run: Id)
    requires ReceiptsOk(db) && run in db.runs && db.runs[run].status == Succeeded
    ensures exists c: Id :: Backs(db, c, run)
  {
    hide SuccessSupported;
    var x :| x in db.receipts && db.receipts[x].run == run;
    assert ReceiptOk(db, x);
    assert Backs(db, x + 1, run);
  }

  /** Every claim with receipts backs some succeeded run. */
  lemma {:induction false} RunnerClaimsBack(history: seq<Timed>, claim: Id)
    requires claim in After(history).claims && After(history).claims[claim].receipts != {}
    ensures var db := After(history);
      exists run: Id :: run in db.runs && db.runs[run].status == Succeeded && Backs(db, claim, run)
  {
    hide After, SuccessSupported;
    HistoryKeepsReceipts(history);
    var db := After(history);
    assert ReceiptOk(db, claim - 1);
    assert Backs(db, claim, db.receipts[claim - 1].run);
  }
}
