/** The store that updates its tables in place. Every method does to its fields exactly what the
    matching transaction does to the tables as a value, so whatever every history keeps, the object keeps. */
module StoreObject {
  import opened Ordering
  import opened WriteScope
  import opened StoreModel
  import opened StoreExecutions
  import StoreFrames

  /** What a request under a used key gets: the stored result again if it is the same request. */
  function DuplicateResult(events: seq<Event>, key: Key, r: Request): Option<Response> {
    match Lookup(events, key)
    case None => None
    case Some(e) => Some(if e.request == r then Done(e.outcome, true) else Refused(Conflict))
  }

  // ---------------------------------------------------------------- write scopes

  lemma {:induction false} NormalizeRefused(scopes: seq<string>, n: nat, m: nat)
    requires n <= m <= |scopes| && NormalizeFirst(scopes, n).None?
    ensures NormalizeFirst(scopes, m).None?
    decreases m
  {
    if n < m { NormalizeRefused(scopes, n, m - 1); }
  }

  method NormalizeWriteScopes(scopes: seq<string>) returns (r: Option<seq<string>>)
    ensures r == NormalizeAll(scopes)
  {
    hide Normalize;
    var normalized := [];
    for i := 0 to |scopes|
      invariant NormalizeFirst(scopes, i) == Some(normalized)
    {
      var scope := NormalizeWriteScope(scopes[i]);
      if scope.None? || scope.value in normalized {
        NormalizeRefused(scopes, i + 1, |scopes|);
        return None;
      }
      normalized := normalized + [scope.value];
    }
    return Some(normalized);
  }

  /** The nested folds over two scope lists, stopping at the first overlap. */
  method ScopesOverlap(left: seq<string>, right: seq<string>) returns (overlap: bool)
    ensures overlap <==> ScopesClash(left, right)
  {
    hide Overlap;
    for i := 0 to |left|
      invariant forall k, j :: 0 <= k < i && 0 <= j < |right| ==> Overlap(left[k], right[j]) == Some(false)
    {
      for j := 0 to |right|
        invariant forall k :: 0 <= k < j ==> Overlap(left[i], right[k]) == Some(false)
      {
        if Overlap(left[i], right[j]) != Some(false) { return true; }
      }
    }
    return false;
  }

  // ---------------------------------------------------------------- first objections

  lemma {:induction false} DependencyErrorStays(db: Db, project: Id, dependsOn: seq<Id>, n: nat, m: nat)
    requires n <= m <= |dependsOn| && DependencyError(db, project, dependsOn, n).Some?
    ensures DependencyError(db, project, dependsOn, m) == DependencyError(db, project, dependsOn, n)
    decreases m
  {
    if n < m { DependencyErrorStays(db, project, dependsOn, n, m - 1); }
  }

  lemma {:induction false} UnfinishedErrorStays(db: Db, dependsOn: seq<Id>, n: nat, m: nat)
    requires n <= m <= |dependsOn| && UnfinishedError(db, dependsOn, n).Some?
    ensures UnfinishedError(db, dependsOn, m) == UnfinishedError(db, dependsOn, n)
    decreases m
  {
    if n < m { UnfinishedErrorStays(db, dependsOn, n, m - 1); }
  }

  lemma {:induction false} ProofsErrorStays(db: Db, t: Task, proofs: seq<Proof>, changed: set<Id>, n: nat, m: nat)
    requires n <= m <= |proofs| && ProofsError(db, t, proofs, changed, n).Some?
    ensures ProofsError(db, t, proofs, changed, m) == ProofsError(db, t, proofs, changed, n)
    decreases m
  {
    if n < m { ProofsErrorStays(db, t, proofs, changed, n, m - 1); }
  }

  // ---------------------------------------------------------------- receipts

  const U64_MAX := 0xFFFF_FFFF_FFFF_FFFF

  lemma {:induction false} TotalGrows(artifacts: seq<Artifact>, n: nat)
    requires n <= |artifacts|
    ensures TotalArtifactBytes(artifacts[..n]) <= TotalArtifactBytes(artifacts)
  {
    if n < |artifacts| {
      TotalGrows(artifacts[..|artifacts| - 1], n);
      assert artifacts[..|artifacts| - 1][..n] == artifacts[..n];
    } else {
      assert artifacts[..n] == artifacts;
    }
  }

  /** Adding up sizes with a sum that sticks at the largest 64-bit value still tells
      whether the true total is over the limit. */
  method WithinTotal(artifacts: seq<Artifact>) returns (ok: bool)
    ensures ok <==> TotalArtifactBytes(artifacts) <= MAX_RECEIPT_ARTIFACT_TOTAL_BYTES
  {
    var total: nat := 0;
    for i := 0 to |artifacts|
      invariant total == (if TotalArtifactBytes(artifacts[..i]) <= U64_MAX then TotalArtifactBytes(artifacts[..i]) else U64_MAX)
    {
      assert artifacts[..i + 1][..i] == artifacts[..i];
      total := if total + artifacts[i].bytes <= U64_MAX then total + artifacts[i].bytes else U64_MAX;
    }
    assert artifacts[..|artifacts|] == artifacts;
    return total <= MAX_RECEIPT_ARTIFACT_TOTAL_BYTES;
  }

  // ---------------------------------------------------------------- reconciling

  predicate Stale(runs: map<Id, Run>, id: Id, cutoff: int) {
    id in runs && runs[id].status == Running && runs[id].startedAt < cutoff
  }

  /** The running attempts from before the cutoff, in the order they were started. */
  function StaleBelow(runs: map<Id, Run>, n: nat, cutoff: int): seq<Id> {
    if n == 0 then []
    else if Stale(runs, n - 1, cutoff) then StaleBelow(runs, n - 1, cutoff) + [n - 1]
    else StaleBelow(runs, n - 1, cutoff)
  }

  function InterruptAll(db: Db, ids: seq<Id>, staleAfter: nat, cutoff: int, now: int): Db {
    if ids == [] then db
    else InterruptOne(InterruptAll(db, ids[..|ids| - 1], staleAfter, cutoff, now), ids[|ids| - 1], staleAfter, cutoff, now)
  }

  /** Interrupting the stale runs one by one is what reconciling does. */
  lemma {:induction false} InterruptAllStale(db: Db, n: nat, staleAfter: nat, cutoff: int, now: int)
    ensures InterruptAll(db, StaleBelow(db.runs, n, cutoff), staleAfter, cutoff, now) == InterruptBelow(db, n, staleAfter, cutoff, now)
    decreases n
  {
    hide InterruptOne;
    if n > 0 {
      InterruptAllStale(db, n - 1, staleAfter, cutoff, now);
      var earlier := StaleBelow(db.runs, n - 1, cutoff);
      if Stale(db.runs, n - 1, cutoff) {
        assert (earlier + [n - 1])[..|earlier|] == earlier;
      } else {
        FreshIsLeft(db, n - 1, staleAfter, cutoff, now);
      }
    }
  }

  lemma {:induction false} FreshIsLeft(db: Db, n: nat, staleAfter: nat, cutoff: int, now: int)
    requires !Stale(db.runs, n, cutoff)
    ensures var d := InterruptBelow(db, n, staleAfter, cutoff, now); InterruptOne(d, n, staleAfter, cutoff, now) == d
  {
    hide InterruptBelow;
    StoreFrames.InterruptFrame(db, n, staleAfter, cutoff, now);
    if n in db.runs { InterruptsExactly(db, n, staleAfter, cutoff, now, n); }
  }

  // ---------------------------------------------------------------- the object

  class Store {
    var sessions: map<Id, Session>
    var specs: map<Id, Spec>
    var tasks: map<Id, Task>
    var records: map<Id, Record>
    var evidence: map<Id, Evidence>
    var claims: map<Id, Claim>
    var runs: map<Id, Run>
    var receipts: map<Id, Receipt>
    var events: seq<Event>
    var nextId: Id

    /** The tables as a value. */
    function View(): Db
      reads this
    {
      Db(sessions, specs, tasks, records, evidence, claims, runs, receipts, events, nextId)
    }

    constructor ()
      ensures View() == EMPTY
    {
      sessions, specs, tasks, records, evidence, claims := map[], map[], map[], map[], map[], map[];
      runs, receipts, events, nextId := map[], map[], [], 0;
    }

    method AppendEvent(key: Key, stream: Id, request: Request, outcome: Outcome, now: int)
      modifies this`events
      ensures events == old(events) + [Event(key, stream, request, outcome, now)]
    {
      events := events + [Event(key, stream, request, outcome, now)];
    }

    method CheckDependencies(project: Id, dependsOn: seq<Id>) returns (error: Option<Error>)
      ensures error == DependencyError(View(), project, dependsOn, |dependsOn|)
    {
      for i := 0 to |dependsOn|
        invariant DependencyError(View(), project, dependsOn, i).None?
      {
        var d := dependsOn[i];
        if d !in tasks || tasks[d].project != project {
          DependencyErrorStays(View(), project, dependsOn, i + 1, |dependsOn|);
          return Some(if d !in tasks then NotFound else Conflict);
        }
      }
      return None;
    }

    method CheckUnfinished(dependsOn: seq<Id>) returns (error: Option<Error>)
      ensures error == UnfinishedError(View(), dependsOn, |dependsOn|)
    {
      for i := 0 to |dependsOn|
        invariant UnfinishedError(View(), dependsOn, i).None?
      {
        var d := dependsOn[i];
        if d !in tasks || tasks[d].status != Completed {
          UnfinishedErrorStays(View(), dependsOn, i + 1, |dependsOn|);
          return Some(if d !in tasks then NotFound else Conflict);
        }
      }
      return None;
    }

    method EnsureWriteScopeAvailable(t: Task, now: int) returns (ok: bool)
      ensures ok <==> !exists id :: id in tasks && CollidesWith(t, tasks[id], now)
    {
      hide ScopesClash;
      if t.scopes == [] {
        NoScopesNoClash(t.scopes);
        return true;
      }
      var rest := tasks.Keys;
      while rest != {}
        invariant rest <= tasks.Keys
        invariant forall id :: id in tasks && id !in rest ==> !CollidesWith(t, tasks[id], now)
        decreases |rest|
      {
        var id :| id in rest;
        var other := tasks[id];
        if other.project == t.project && other.id != t.id && Live(other, now) {
          var overlap := ScopesOverlap(t.scopes, other.scopes);
          if overlap { return false; }
        }
        rest := rest - {id};
      }
      return true;
    }

    method CreateTask(key: Key, r: Request, now: int, seen: Sighting) returns (response: Response)
      requires r.CreateTask?
      modifies this
      ensures (View(), response) == CallTx(old(View()), key, r, now, seen)
    {
      hide Lookup, WellFormed, NormalizeAll, SameActiveObjective, DependencyError;
      if !WellFormed(key, r) { return Refused(Invalid); }
      var retry := DuplicateResult(events, key, r);
      if retry.Some? { return retry.value; }
      var scopes := NormalizeWriteScopes(r.scopes);
      if scopes.None? { return Refused(Invalid); }
      var session := SessionError(View(), r.session);
      if session.Some? { return Refused(session.value); }
      var project := sessions[r.session].project;
      if SameActiveObjective(View(), project, r.objective) { return Refused(Conflict); }
      var dependency := CheckDependencies(project, r.dependsOn);
      if dependency.Some? { return Refused(dependency.value); }
      var id := nextId;
      var task := Task(id, project, r.session, r.objective, r.criteria, scopes.value, r.dependsOn,
                       Queued, None, None, None, [], now, now);
      nextId := nextId + 1;
      tasks := tasks[id := task];
      AppendEvent(key, id, r, TaskOutcome(task), now);
      return Done(TaskOutcome(task), false);
    }

    method ClaimTask(key: Key, r: Request, now: int, seen: Sighting) returns (response: Response)
      requires r.ClaimTask?
      modifies this
      ensures (View(), response) == CallTx(old(View()), key, r, now, seen)
    {
      hide Lookup, WellFormed, UnfinishedError, CollidesWith;
      if !WellFormed(key, r) { return Refused(Invalid); }
      var retry := DuplicateResult(events, key, r);
      if retry.Some? { return retry.value; }
      if r.task !in tasks { return Refused(NotFound); }
      var t := tasks[r.task];
      match t.status {
        case Completed => return Refused(Conflict);
        case Cancelled => return Refused(Conflict);
        case Leased => if t.expires.Some? && t.expires.value > now { return Refused(Conflict); }
        case Queued =>
      }
      var unfinished := CheckUnfinished(t.dependsOn);
      if unfinished.Some? { return Refused(unfinished.value); }
      var available := EnsureWriteScopeAvailable(t, now);
      if !available { return Refused(Conflict); }
      t := t.(status := Leased, owner := Some(r.worker), expires := Some(now + r.leaseSeconds * 1000), updatedAt := now);
      tasks := tasks[r.task := t];
      AppendEvent(key, r.task, r, TaskOutcome(t), now);
      return Done(TaskOutcome(t), false);
    }

    /** The first objection to the proofs, or to what they cover. */
    method ValidateCriterionProofs(t: Task, proofs: seq<Proof>, changed: set<Id>) returns (error: Option<Error>)
      ensures error == if |t.criteria| != |proofs| then Some(Invalid)
        else if ProofsError(View(), t, proofs, changed, |proofs|).Some? then ProofsError(View(), t, proofs, changed, |proofs|)
        else if TrimmedProofs(proofs) != TrimmedCriteria(t) then Some(Invalid) else None
    {
      hide Trim, Blank, ProofError;
      if |t.criteria| != |proofs| { return Some(Invalid); }
      var expected := TrimmedCriteria(t);
      var observed: set<string> := {};
      for i := 0 to |proofs|
        invariant ProofsError(View(), t, proofs, changed, i).None?
        invariant observed == TrimmedProofs(proofs[..i])
      {
        var p := proofs[i];
        var objection: Option<Error> := None;
        ObservedIff(proofs, i);
        if Blank(p.criterion) || Trim(p.criterion) in observed {
          objection := Some(Invalid);
        } else {
          objection := ProofError(View(), t, p, changed);
        }
        if objection.Some? {
          ProofsErrorStays(View(), t, proofs, changed, i + 1, |proofs|);
          return objection;
        }
        observed := observed + {Trim(p.criterion)};
      }
      assert proofs[..|proofs|] == proofs;
      return if observed != expected then Some(Invalid) else None;
    }

    method CompleteTask(key: Key, r: Request, now: int, seen: Sighting) returns (response: Response)
      requires r.CompleteTask?
      modifies this
      ensures (View(), response) == CallTx(old(View()), key, r, now, seen)
    {
      hide Lookup, WellFormed, ProofsError, TrimmedProofs, TrimmedCriteria;
      if !WellFormed(key, r) { return Refused(Invalid); }
      var retry := DuplicateResult(events, key, r);
      if retry.Some? { return retry.value; }
      if r.task !in tasks { return Refused(NotFound); }
      var t := tasks[r.task];
      if t.status != Leased || t.owner != Some(r.worker) || t.expires.None? || t.expires.value <= now {
        return Refused(Conflict);
      }
      var objection := ValidateCriterionProofs(t, r.proofs, seen.changedClaims);
      if objection.Some? { return Refused(objection.value); }
      t := t.(status := Completed, summary := Some(r.summary), proofs := r.proofs, expires := None, updatedAt := now);
      tasks := tasks[r.task := t];
      AppendEvent(key, r.task, r, TaskOutcome(t), now);
      return Done(TaskOutcome(t), false);
    }

    method CancelTask(key: Key, r: Request, now: int, seen: Sighting) returns (response: Response)
      requires r.CancelTask?
      modifies this
      ensures (View(), response) == CallTx(old(View()), key, r, now, seen)
    {
      hide Lookup, WellFormed;
      if !WellFormed(key, r) { return Refused(Invalid); }
      var retry := DuplicateResult(events, key, r);
      if retry.Some? { return retry.value; }
      if r.task !in tasks { return Refused(NotFound); }
      var t := tasks[r.task];
      if t.status == Completed || t.status == Cancelled { return Refused(Conflict); }
      t := t.(status := Cancelled, summary := Some(r.reason), expires := None, updatedAt := now);
      tasks := tasks[r.task := t];
      AppendEvent(key, r.task, r, TaskOutcome(t), now);
      return Done(TaskOutcome(t), false);
    }

    method AddRecord(key: Key, r: Request, now: int, seen: Sighting) returns (response: Response)
      requires r.AddRecord?
      modifies this
      ensures (View(), response) == CallTx(old(View()), key, r, now, seen)
    {
      hide Lookup, WellFormed, RecordLinkError;
      if !WellFormed(key, r) { return Refused(Invalid); }
      var retry := DuplicateResult(events, key, r);
      if retry.Some? { return retry.value; }
      var session := SessionError(View(), r.session);
      if session.Some? { return Refused(session.value); }
      var link := RecordLinkError(View(), r);
      if link.Some? { return Refused(link.value); }
      var record := Record(nextId, r.session, r.kind, r.content, r.supersedes, McpAgent, UntrustedContent, now);
      nextId := nextId + 1;
      records := records[record.id := record];
      AppendEvent(key, r.session, r, RecordOutcome(record), now);
      return Done(RecordOutcome(record), false);
    }

    method AddEvidence(key: Key, r: Request, now: int, seen: Sighting) returns (response: Response)
      requires r.AddEvidence?
      modifies this
      ensures (View(), response) == CallTx(old(View()), key, r, now, seen)
    {
      hide Lookup, WellFormed;
      if !WellFormed(key, r) { return Refused(Invalid); }
      var retry := DuplicateResult(events, key, r);
      if retry.Some? { return retry.value; }
      var session := SessionError(View(), r.session);
      if session.Some? { return Refused(session.value); }
      if seen.digest.None? { return Refused(Invalid); }
      var artifact := Evidence(nextId, r.session, r.locator, seen.digest.value, now);
      nextId := nextId + 1;
      evidence := evidence[artifact.id := artifact];
      AppendEvent(key, r.session, r, EvidenceOutcome(artifact), now);
      return Done(EvidenceOutcome(artifact), false);
    }

    method AssertClaim(key: Key, r: Request, now: int, seen: Sighting) returns (response: Response)
      requires r.AssertClaim?
      modifies this
      ensures (View(), response) == CallTx(old(View()), key, r, now, seen)
    {
      hide Lookup, WellFormed;
      if !WellFormed(key, r) { return Refused(Invalid); }
      var retry := DuplicateResult(events, key, r);
      if retry.Some? { return retry.value; }
      var session := SessionError(View(), r.session);
      if session.Some? { return Refused(session.value); }
      if !seen.claimSupported || !(r.evidence <= evidence.Keys) { return Refused(Conflict); }
      var claim := Claim(nextId, r.session, r.status, r.statement, r.evidence, {}, r.supersedes, now);
      nextId := nextId + 1;
      claims := claims[claim.id := claim];
      AppendEvent(key, r.session, r, ClaimOutcome(claim), now);
      return Done(ClaimOutcome(claim), false);
    }

    method StartExecution(spec: Id, now: int) returns (response: Response)
      modifies this
      ensures (View(), response) == StartTx(old(View()), spec, now)
    {
      hide HasRunning, LatestRun;
      if spec !in specs { return Refused(NotFound); }
      if |specs[spec].artifactPaths| > MAX_RECEIPT_ARTIFACTS { return Refused(Invalid); }
      var session := SessionError(View(), specs[spec].session);
      if session.Some? { return Refused(session.value); }
      if HasRunning(View(), spec) { return Refused(Conflict); }
      var prior := LatestRun(View(), spec);
      var attempt := if prior.Some? && prior.value in runs then runs[prior.value].attempt + 1 else 1;
      var run := Run(nextId, spec, specs[spec].session, Running, attempt, prior, now, None);
      nextId := nextId + 1;
      runs := runs[run.id := run];
      AppendEvent(StartKey(run.id), run.id, StartRun(spec), RunStarted(run), now);
      return Done(RunStarted(run), false);
    }

    method FinishExecution(f: Finish, now: int) returns (response: Response)
      modifies this
      ensures (View(), response) == FinishTx(old(View()), f, now)
    {
      hide SuccessSupported, ArtifactsWithinLimits, DistinctPaths, Blank;
      if f.status == Running || f.status == Interrupted || Blank(f.termination) { return Refused(Invalid); }
      if f.run !in runs { return Refused(NotFound); }
      var run := runs[f.run];
      if run.status != Running { return Refused(Conflict); }
      if run.spec !in specs { return Refused(NotFound); }
      var spec := specs[run.spec];
      if f.status == Succeeded && !SuccessSupported(spec, f) { return Refused(Invalid); }
      if Blank(f.backend) { return Refused(Invalid); }
      var within := CheckArtifacts(f.artifacts);
      if !within { return Refused(Invalid); }
      if !DistinctPaths(f.artifacts) { return Refused(Database); }
      response := Settle(run, spec, f, now);
    }

    /** Writes a checked result: the receipt, the settled run, and for a success the claim it backs. */
    method Settle(running: Run, spec: Spec, f: Finish, now: int) returns (response: Response)
      modifies this
      ensures var db := old(View());
        var receipt := Receipt(db.nextId, f.run, f, now);
        var run := running.(status := f.status, finishedAt := Some(now));
        var claim := if f.status == Succeeded then Some(db.nextId + 1) else None;
        && response == Done(RunFinished(run, receipt, claim), false)
        && View() == Append(
            db.(receipts := db.receipts[receipt.id := receipt], runs := db.runs[f.run := run], nextId := db.nextId + 2,
                claims := if claim.None? then db.claims
                  else db.claims[claim.value := Claim(claim.value, spec.session, Verified, spec.successClaim, {}, {receipt.id}, None, now)]),
            FinishKey(f.run), f.run, FinishRun(f), RunFinished(run, receipt, claim), now)
    {
      var receipt := Receipt(nextId, f.run, f, now);
      receipts := receipts[receipt.id := receipt];
      var run := running.(status := f.status, finishedAt := Some(now));
      runs := runs[f.run := run];
      var verifiedClaim := None;
      if run.status == Succeeded {
        verifiedClaim := Some(nextId + 1);
        claims := claims[nextId + 1 := Claim(nextId + 1, spec.session, Verified, spec.successClaim, {}, {receipt.id}, None, now)];
      }
      nextId := nextId + 2;
      AppendEvent(FinishKey(f.run), f.run, FinishRun(f), RunFinished(run, receipt, verifiedClaim), now);
      return Done(RunFinished(run, receipt, verifiedClaim), false);
    }

    method CheckArtifacts(artifacts: seq<Artifact>) returns (ok: bool)
      ensures ok <==> ArtifactsWithinLimits(artifacts)
    {
      if |artifacts| > MAX_RECEIPT_ARTIFACTS { return false; }
      for i := 0 to |artifacts|
        invariant forall j :: 0 <= j < i ==> artifacts[j].bytes <= MAX_RECEIPT_ARTIFACT_BYTES
      {
        if artifacts[i].bytes > MAX_RECEIPT_ARTIFACT_BYTES { return false; }
      }
      ok := WithinTotal(artifacts);
    }

    /** Interrupts the stale runs and says how many there were, or refuses the bound. */
    method ReconcileExecutions(staleAfter: nat, now: int) returns (count: Option<nat>)
      modifies this
      ensures View() == ReconcileTx(old(View()), staleAfter, now).0
      ensures count.Some? <==> ReconcileTx(old(View()), staleAfter, now).1
      ensures count.Some? ==> count.value == |StaleBelow(old(runs), old(nextId), now - staleAfter * 1000)|
    {
      if staleAfter < 1 || staleAfter > 31_536_000 { return None; }
      var cutoff := now - staleAfter * 1000;
      var stale := StaleBelow(runs, nextId, cutoff);
      ghost var before := View();
      for i := 0 to |stale|
        invariant View() == InterruptAll(before, stale[..i], staleAfter, cutoff, now)
      {
        assert stale[..i + 1][..i] == stale[..i];
        Interrupt(stale[i], staleAfter, cutoff, now);
      }
      assert stale[..|stale|] == stale;
      InterruptAllStale(before, before.nextId, staleAfter, cutoff, now);
      return Some(|stale|);
    }

    method Interrupt(id: Id, staleAfter: nat, cutoff: int, now: int)
      modifies this
      ensures View() == InterruptOne(old(View()), id, staleAfter, cutoff, now)
    {
      if id in runs && runs[id].status == Running && runs[id].startedAt < cutoff {
        var run := runs[id].(status := Interrupted, finishedAt := Some(now));
        runs := runs[id := run];
        AppendEvent(InterruptKey(id), id, InterruptRun(staleAfter), RunInterrupted(run), now);
      }
    }
  }

  lemma NoScopesNoClash(scopes: seq<string>)
    requires scopes == []
    ensures forall right :: !ScopesClash(scopes, right)
  {
  }

  lemma ObservedIff(proofs: seq<Proof>, i: nat)
    requires i < |proofs|
    ensures Trim(proofs[i].criterion) in TrimmedProofs(proofs[..i])
      <==> exists j :: 0 <= j < i && Trim(proofs[j].criterion) == Trim(proofs[i].criterion)
    ensures TrimmedProofs(proofs[..i + 1]) == TrimmedProofs(proofs[..i]) + {Trim(proofs[i].criterion)}
  {
    hide Trim;
    assert proofs[..i + 1] == proofs[..i] + [proofs[i]];
    if j :| 0 <= j < i && Trim(proofs[j].criterion) == Trim(proofs[i].criterion) {
      assert proofs[j] in proofs[..i];
    }
  }
}
