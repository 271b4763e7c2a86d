/** Completion is justified for good: in every reachable store a completed task's criteria are met,
    one to one, by verified claims of its own project. */
module StoreCompletion {
  import opened Ordering
  import opened WriteScope
  import opened StoreModel
  import opened StoreFrames
  import opened StoreTasks
  import opened StoreExecutions

  // ---------------------------------------------------------------- what never changes

  /** Claims are never altered, sessions never move to another project. */
  ghost predicate FactsKept(db: Db, d: Db) {
    && (forall c :: c in db.claims ==> c in d.claims && d.claims[c] == db.claims[c])
    && (forall s :: s in db.sessions ==> s in d.sessions && d.sessions[s].project == db.sessions[s].project)
  }

  lemma FinishKeepsFacts(db: Db, f: Finish, now: int)
    requires Minted(db)
    ensures FactsKept(db, FinishTx(db, f, now).0)
  {
    hide SuccessSupported, FinishTx, RunnerClaim;
    if FinishTx(db, f, now).0 != db { FinishShape(db, f, now); }
  }

  lemma AdminKeepsFacts(db: Db, c: Command)
    requires Minted(db)
    ensures FactsKept(db, AdminTx(db, c))
  {
    hide SessionError, DistinctTexts;
  }

  lemma FactsAreKept(db: Db, c: Timed)
    requires Minted(db)
    ensures FactsKept(db, Apply(db, c))
  {
    hide CallTx, StartTx, FinishTx, ReconcileTx, AdminTx, Minted;
    match c.command
    case Call(key, r, seen) =>
      CallFrame(db, key, r, c.now, seen);
      CallClaims(db, key, r, c.now, seen);
    case Start(spec) => StartFrame(db, spec, c.now);
    case FinishWith(f) => FinishKeepsFacts(db, f, c.now);
    case Reconcile(staleAfter) => ReconcileFrame(db, staleAfter, c.now);
    case _ => AdminKeepsFacts(db, c.command);
  }

  // ---------------------------------------------------------------- justified completion

  /** The proof cites a verified claim of the project that says exactly what the criterion asks. */
  predicate Proves(db: Db, project: Id, p: Proof) {
    && p.claim in db.claims && db.claims[p.claim].status == Verified && db.claims[p.claim].statement == p.criterion
    && db.claims[p.claim].session in db.sessions && db.sessions[db.claims[p.claim].session].project == project
  }

  /** Up to surrounding space, every criterion has a proof and every proof a criterion. */
  ghost predicate MatchCriteria(proofs: seq<Proof>, criteria: seq<string>) {
    && (forall c :: c in criteria ==> HasProof(proofs, Trim(c)))
    && forall i :: 0 <= i < |proofs| ==> HasCriterion(criteria, Trim(proofs[i].criterion))
  }

  ghost predicate HasProof(proofs: seq<Proof>, text: string) {
    exists i :: 0 <= i < |proofs| && Trim(proofs[i].criterion) == text
  }

  ghost predicate HasCriterion(criteria: seq<string>, text: string) {
    exists c :: c in criteria && Trim(c) == text
  }

  lemma InProofs(proofs: seq<Proof>, x: string)
    ensures x in TrimmedProofs(proofs) <==> HasProof(proofs, x)
  {
    hide Trim;
    if x in TrimmedProofs(proofs) {
      var p :| p in proofs && Trim(p.criterion) == x;
      var i :| 0 <= i < |proofs| && proofs[i] == p;
    }
  }

  lemma InCriteria(t: Task, x: string)
    ensures x in TrimmedCriteria(t) <==> HasCriterion(t.criteria, x)
  {
    hide Trim;
  }

  lemma MatchIff(proofs: seq<Proof>, t: Task)
    ensures TrimmedProofs(proofs) == TrimmedCriteria(t) <==> MatchCriteria(proofs, t.criteria)
  {
    hide Trim, TrimmedProofs, TrimmedCriteria;
    var a, b := TrimmedProofs(proofs), TrimmedCriteria(t);
    forall x ensures (x in a <==> HasProof(proofs, x)) && (x in b <==> HasCriterion(t.criteria, x)) {
      InProofs(proofs, x);
      InCriteria(t, x);
    }
    if a == b {
      forall c | c in t.criteria ensures HasProof(proofs, Trim(c)) { assert HasCriterion(t.criteria, Trim(c)); }
      forall i | 0 <= i < |proofs| ensures HasCriterion(t.criteria, Trim(proofs[i].criterion)) {
        assert HasProof(proofs, Trim(proofs[i].criterion));
      }
    }
    if MatchCriteria(proofs, t.criteria) {
      forall x | HasProof(proofs, x) ensures HasCriterion(t.criteria, x) {
        var i :| 0 <= i < |proofs| && Trim(proofs[i].criterion) == x;
      }
      forall x | HasCriterion(t.criteria, x) ensures HasProof(proofs, x) {
        var c :| c in t.criteria && Trim(c) == x;
      }
      assert a == b;
    }
  }

  /** One proof for each criterion, and each proof holds. */
  ghost predicate CompletionOk(db: Db, t: Task) {
    && |t.proofs| == |t.criteria| && MatchCriteria(t.proofs, t.criteria)
    && (forall i, j :: 0 <= i < j < |t.proofs| ==> Trim(t.proofs[i].criterion) != Trim(t.proofs[j].criterion))
    && forall i :: 0 <= i < |t.proofs| ==> Proves(db, t.project, t.proofs[i])
  }

  ghost predicate CompletionsOk(db: Db) {
    forall id :: id in db.tasks && db.tasks[id].status == Completed ==> CompletionOk(db, db.tasks[id])
  }

  lemma {:induction false} ProofsHold(db: Db, t: Task, proofs: seq<Proof>, changed: set<Id>, n: nat)
    requires n <= |proofs| && ProofsError(db, t, proofs, changed, n).None?
    ensures forall i :: 0 <= i < n ==> Proves(db, t.project, proofs[i])
    ensures forall i, j :: 0 <= i < j < n ==> Trim(proofs[i].criterion) != Trim(proofs[j].criterion)
    decreases n
  {
    hide Trim;
    if n > 0 { ProofsHold(db, t, proofs, changed, n - 1); }
  }

  lemma StillJustified(db: Db, d: Db, t: Task)
    requires FactsKept(db, d) && CompletionOk(db, t)
    ensures CompletionOk(d, t)
  {
    hide Trim, MatchCriteria;
    forall i | 0 <= i < |t.proofs| ensures Proves(d, t.project, t.proofs[i]) {
      assert Proves(db, t.project, t.proofs[i]);
    }
  }

  /** A task is completed by one transaction only. */
  lemma ExecuteCompletes(db: Db, r: Request, now: int, seen: Sighting, id: Id)
    requires Execute(db, r, now, seen).Commit?
    requires var d := Execute(db, r, now, seen).db;
      id in d.tasks && d.tasks[id].status == Completed && !(id in db.tasks && db.tasks[id] == d.tasks[id])
    ensures CompletionOk(db, Execute(db, r, now, seen).db.tasks[id])
  {
    hide NormalizeAll, SameActiveObjective, DependencyError, UnfinishedError, CollidesWith, AddRecordTx, AddEvidenceTx, AssertClaimTx;
    hide ProofsError, Trim, TrimmedProofs, TrimmedCriteria, MatchCriteria;
    ExecuteFrame(db, r, now, seen);
    match r
    case CreateTask(_, _, _, _, _) =>
    case ClaimTask(_, _, _) =>
    case CompleteTask(task, _, _, proofs) =>
      ProofsHold(db, db.tasks[task], proofs, seen.changedClaims, |proofs|);
      MatchIff(proofs, db.tasks[task]);
    case CancelTask(_, _) =>
    case _ =>
  }

  lemma CallCompletes(db: Db, key: Key, r: Request, now: int, seen: Sighting, id: Id)
    requires var d := CallTx(db, key, r, now, seen).0;
      id in d.tasks && d.tasks[id].status == Completed && !(id in db.tasks && db.tasks[id] == d.tasks[id])
    ensures CompletionOk(db, CallTx(db, key, r, now, seen).0.tasks[id])
  {
    hide Execute, WellFormed, Lookup, CompletionOk;
    if Execute(db, r, now, seen).Commit? { ExecuteCompletes(db, r, now, seen, id); }
  }

  lemma CompletionsKept(db: Db, c: Timed)
    requires Minted(db) && CompletionsOk(db)
    ensures CompletionsOk(Apply(db, c))
  {
    hide CallTx, StartTx, FinishTx, ReconcileTx, AdminTx, Minted, CompletionOk, FactsKept;
    var d := Apply(db, c);
    FactsAreKept(db, c);
    match c.command {
      case Call(key, r, seen) =>
      case Start(spec) => StartFrame(db, spec, c.now);
      case FinishWith(f) => FinishFrame(db, f, c.now);
      case Reconcile(staleAfter) => ReconcileFrame(db, staleAfter, c.now);
      case _ => AdminFrame(db, c.command);
    }
    forall id | id in d.tasks && d.tasks[id].status == Completed ensures CompletionOk(d, d.tasks[id]) {
      if !(id in db.tasks && db.tasks[id] == d.tasks[id]) {
        assert c.command.Call?;
        CallCompletes(db, c.command.key, c.command.request, c.now, c.command.seen, id);
      }
      StillJustified(db, d, d.tasks[id]);
    }
  }

  /** In every reachable store each completed task is justified. */
  lemma {:induction false} CompletionIsJustified(history: seq<Timed>)
    ensures CompletionsOk(After(history))
  {
    hide Apply, CompletionOk;
    if history != [] {
      var front := history[..|history| - 1];
      CompletionIsJustified(front);
      HistoryKeepsTasks(front);
      CompletionsKept(After(front), history[|front|]);
    }
  }

  // ---------------------------------------------------------------- when a completion goes through

  predicate Superseded(db: Db, claim: Id) {
    exists id :: id in db.claims && db.claims[id].supersedes == Some(claim)
  }

  /** The proof names a criterion and cites an active claim that proves it, whose file is unchanged. */
  predicate ProofAccepted(db: Db, project: Id, p: Proof, changed: set<Id>) {
    !Blank(p.criterion) && Proves(db, project, p) && !Superseded(db, p.claim) && p.claim !in changed
  }

  ghost predicate DistinctCriteria(proofs: seq<Proof>, n: nat)
    requires n <= |proofs|
  {
    forall i, j :: 0 <= i < j < n ==> Trim(proofs[i].criterion) != Trim(proofs[j].criterion)
  }

  lemma {:induction false} NoObjection(db: Db, t: Task, proofs: seq<Proof>, changed: set<Id>, n: nat)
    requires n <= |proofs|
    ensures ProofsError(db, t, proofs, changed, n).None?
      <==> DistinctCriteria(proofs, n) && forall i :: 0 <= i < n ==> ProofAccepted(db, t.project, proofs[i], changed)
    decreases n
  {
    hide Trim, Blank;
    if n > 0 { NoObjection(db, t, proofs, changed, n - 1); }
  }

  /** The worker holds the lease, and the proofs match the criteria one to one and are each accepted. */
  ghost predicate Completable(db: Db, r: Request, now: int, changed: set<Id>)
    requires r.CompleteTask?
  {
    && r.task in db.tasks
    && var t := db.tasks[r.task];
    && t.status == Leased && t.expires.Some? && t.expires.value > now && t.owner == Some(r.worker)
    && |r.proofs| == |t.criteria| && MatchCriteria(r.proofs, t.criteria) && DistinctCriteria(r.proofs, |r.proofs|)
    && forall i :: 0 <= i < |r.proofs| ==> ProofAccepted(db, t.project, r.proofs[i], changed)
  }

  /** A completion goes through exactly then. */
  lemma CompleteExactly(db: Db, r: Request, now: int, changed: set<Id>)
    requires r.CompleteTask?
    ensures CompleteTaskTx(db, r, now, changed).Commit? <==> Completable(db, r, now, changed)
  {
    hide Trim, Blank, ProofsError, TrimmedProofs, TrimmedCriteria, MatchCriteria, ProofAccepted, DistinctCriteria;
    if r.task in db.tasks {
      NoObjection(db, db.tasks[r.task], r.proofs, changed, |r.proofs|);
      MatchIff(r.proofs, db.tasks[r.task]);
    }
  }
}
