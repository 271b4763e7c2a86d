/** What each operation of the store accepts and what it then writes, field by field. */
module StoreOperations {
  import opened Ordering
  import opened WriteScope
  import opened StoreModel
  import opened StoreFrames
  import opened StoreTasks
  import opened StoreCompletion
  import opened StoreExecutions

  // ---------------------------------------------------------------- texts

  /** `r` is what is left of `s` when the characters that qualify are stripped from both ends. */
  ghost predicate Stripped(s: string, r: string, drop: char -> bool) {
    && (r != "" ==> !drop(r[0]) && !drop(r[|r| - 1]))
    && exists i, j :: 0 <= i <= j <= |s| && Middle(s, i, j, r, drop)
  }

  /** `r` runs from `i` to `j` in `s`, and everything around it qualifies. */
  ghost predicate Middle(s: string, i: nat, j: nat, r: string, drop: char -> bool)
    requires i <= j <= |s|
  {
    r == s[i..j] && (forall k :: 0 <= k < i ==> drop(s[k])) && (forall k :: j <= k < |s| ==> drop(s[k]))
  }

  predicate IsBlankChar(c: char) {
    c == ' '
  }

  lemma {:induction false} TrimEndIs(s: string) returns (j: nat)
    ensures j <= |s| && TrimEnd(s) == s[..j] && (forall k :: j <= k < |s| ==> IsSpace(s[k])) && (j > 0 ==> !IsSpace(s[j - 1]))
  {
    if s != "" && IsSpace(s[|s| - 1]) {
      j := TrimEndIs(s[..|s| - 1]);
    } else {
      j := |s|;
    }
  }

  lemma {:induction false} TrimStartIs(s: string) returns (i: nat)
    ensures i <= |s| && TrimStart(s) == s[i..] && (forall k :: 0 <= k < i ==> IsSpace(s[k])) && (i < |s| ==> !IsSpace(s[i]))
  {
    if s != "" && IsSpace(s[0]) {
      var n := TrimStartIs(s[1..]);
      i := n + 1;
      assert s[1..][n..] == s[i..];
      forall k | 0 <= k < i ensures IsSpace(s[k]) {
        if k > 0 { assert s[1..][k - 1] == s[k]; }
      }
    } else {
      i := 0;
    }
  }

  /** Trimming strips white space from both ends and nothing else. */
  lemma TrimExactly(s: string)
    ensures Stripped(s, Trim(s), IsSpace)
  {
    hide IsSpace, TrimStart, TrimEnd;
    var j := TrimEndIs(s);
    var i := TrimStartIs(s[..j]);
    MiddleOf(s, i, j, IsSpace);
  }

  lemma MiddleOf(s: string, i: nat, j: nat, drop: char -> bool)
    requires i <= j <= |s| && (forall k :: 0 <= k < i ==> drop(s[..j][k])) && (forall k :: j <= k < |s| ==> drop(s[k]))
    requires (i < j ==> !drop(s[..j][i])) && (j > 0 ==> !drop(s[j - 1]))
    ensures Stripped(s, s[..j][i..], drop)
  {
    var r := s[..j][i..];
    assert r == s[i..j];
    forall k | 0 <= k < i ensures drop(s[k]) { assert s[..j][k] == s[k]; }
    assert Middle(s, i, j, r, drop);
  }

  /** Blank text is text that trimming leaves empty. */
  lemma BlankExactly(s: string)
    ensures Blank(s) <==> Trim(s) == ""
  {
    TrimExactly(s);
    hide IsSpace, Trim;
    var i, j :| 0 <= i <= j <= |s| && Middle(s, i, j, Trim(s), IsSpace);
    if Trim(s) != "" { assert s[i] == Trim(s)[0]; }
  }

  lemma {:induction false} TrimSpacesEndIs(s: string) returns (j: nat)
    ensures j <= |s| && TrimSpacesEnd(s) == s[..j] && (forall k :: j <= k < |s| ==> s[k] == ' ') && (j > 0 ==> s[j - 1] != ' ')
  {
    if s != "" && s[|s| - 1] == ' ' {
      j := TrimSpacesEndIs(s[..|s| - 1]);
    } else {
      j := |s|;
    }
  }

  lemma {:induction false} TrimSpacesStartIs(s: string) returns (i: nat)
    ensures i <= |s| && TrimSpacesStart(s) == s[i..] && (forall k :: 0 <= k < i ==> s[k] == ' ') && (i < |s| ==> s[i] != ' ')
  {
    if s != "" && s[0] == ' ' {
      var n := TrimSpacesStartIs(s[1..]);
      i := n + 1;
      assert s[1..][n..] == s[i..];
      forall k | 0 <= k < i ensures s[k] == ' ' {
        if k > 0 { assert s[1..][k - 1] == s[k]; }
      }
    } else {
      i := 0;
    }
  }

  /** Objectives are compared without the spaces around them and without ASCII case. */
  lemma FoldExactly(s: string)
    ensures exists r :: Stripped(s, r, IsBlankChar) && LowercaseOf(FoldObjective(s), r)
  {
    var j := TrimSpacesEndIs(s);
    var i := TrimSpacesStartIs(s[..j]);
    var r := s[..j][i..];
    MiddleOf(s, i, j, IsBlankChar);
    assert FoldObjective(s) == Lower(r);
    LowerExactly(r);
  }

  // ---------------------------------------------------------------- a keyed call

  /** A call that went through: the given tables, its own event at the end of the log, and its outcome. */
  ghost predicate Committed(d: Db, a: Response, tables: Db, key: Key, stream: Id, r: Request, o: Outcome, now: int) {
    a == Done(o, false) && d == tables.(events := tables.events + [Event(key, stream, r, o, now)])
  }

  lemma {:induction false} CallAnswers(db: Db, key: Key, r: Request, now: int, seen: Sighting)
    requires Lookup(db.events, key).None?
    ensures var v := Execute(db, r, now, seen); var (d, a) := CallTx(db, key, r, now, seen);
      if WellFormed(key, r) && v.Commit? then Committed(d, a, v.db, key, v.stream, r, v.outcome, now) else a.Refused? && d == db
  {
    hide Execute, WellFormed;
    if Execute(db, r, now, seen).Commit? { ExecuteFrame(db, r, now, seen); }
  }

  predicate TextKey(key: Key) {
    key.Caller? && !Blank(key.text)
  }

  /** Nonblank, and different from each other even without case and surrounding space. */
  ghost predicate ProperTexts(texts: seq<string>) {
    && (forall i :: 0 <= i < |texts| ==> !Blank(texts[i]))
    && forall i, j :: 0 <= i < j < |texts| ==> Lower(Trim(texts[i])) != Lower(Trim(texts[j]))
  }

  ghost predicate OpenSession(db: Db, session: Id) {
    session in db.sessions && db.sessions[session].open
  }

  // ---------------------------------------------------------------- creating a task

  /** Active work of the project on the same objective. */
  predicate Rivals(t: Task, project: Id, objective: string) {
    t.project == project && (t.status == Queued || t.status == Leased) && FoldObjective(t.objective) == FoldObjective(objective)
  }

  ghost predicate Creatable(db: Db, key: Key, r: Request)
    requires r.CreateTask?
  {
    && TextKey(key) && !Blank(r.objective) && r.criteria != [] && ProperTexts(r.criteria) && ProperTexts(r.scopes)
    && (forall i, j :: 0 <= i < j < |r.dependsOn| ==> r.dependsOn[i] != r.dependsOn[j])
    && NormalFormsDiffer(r.scopes, |r.scopes|)
    && OpenSession(db, r.session)
    && (forall t :: t in db.tasks ==> !Rivals(db.tasks[t], db.sessions[r.session].project, r.objective))
    && (forall i :: 0 <= i < |r.dependsOn| ==> r.dependsOn[i] in db.tasks && db.tasks[r.dependsOn[i]].project == db.sessions[r.session].project)
  }

  /** A queued task, unowned, unleased, without result, made exactly as requested. */
  ghost predicate FreshTask(db: Db, t: Task, r: Request, now: int)
    requires r.CreateTask? && r.session in db.sessions
  {
    && t.id == db.nextId && t.project == db.sessions[r.session].project && t.session == r.session
    && t.objective == r.objective && t.criteria == r.criteria && t.dependsOn == r.dependsOn
    && |t.scopes| == |r.scopes| && (forall i :: 0 <= i < |r.scopes| ==> Normalize(r.scopes[i]) == Some(t.scopes[i]))
    && t.status == Queued && t.owner == None && t.expires == None && t.summary == None && t.proofs == []
    && t.createdAt == now && t.updatedAt == now
  }

  /** The first `n` scopes all have normal forms, no two the same. */
  ghost predicate NormalFormsDiffer(scopes: seq<string>, n: nat)
    requires n <= |scopes|
  {
    && (forall i :: 0 <= i < n ==> Normalize(scopes[i]).Some?)
    && forall i, j :: 0 <= i < j < n ==> Normalize(scopes[i]) != Normalize(scopes[j])
  }

  lemma {:induction false} NormalFormsAre(scopes: seq<string>, n: nat)
    requires n <= |scopes|
    ensures NormalizeFirst(scopes, n).Some? <==> NormalFormsDiffer(scopes, n)
    ensures NormalizeFirst(scopes, n).Some? ==> |NormalizeFirst(scopes, n).value| == n
    ensures NormalizeFirst(scopes, n).Some? ==> forall i :: 0 <= i < n ==> Normalize(scopes[i]) == Some(NormalizeFirst(scopes, n).value[i])
    decreases n
  {
    hide Normalize;
    if n > 0 {
      NormalFormsAre(scopes, n - 1);
      var front, last := NormalizeFirst(scopes, n - 1), Normalize(scopes[n - 1]);
      if front.Some? && last.Some? && last.value in front.value {
        var i :| 0 <= i < n - 1 && front.value[i] == last.value;
        assert Normalize(scopes[i]) == Normalize(scopes[n - 1]);
      }
    }
  }

  lemma {:induction false} NoDependencyError(db: Db, project: Id, dependsOn: seq<Id>, n: nat)
    requires n <= |dependsOn|
    ensures DependencyError(db, project, dependsOn, n).None?
      <==> forall i :: 0 <= i < n ==> dependsOn[i] in db.tasks && db.tasks[dependsOn[i]].project == project
    decreases n
  {
    if n > 0 { NoDependencyError(db, project, dependsOn, n - 1); }
  }

  lemma ProperIff(texts: seq<string>)
    ensures DistinctTexts(texts) <==> ProperTexts(texts)
  {
    hide Trim, Lower, IsSpace;
  }

  /** The tables with the new row, and the row reported. */
  ghost predicate CreatesRow(db: Db, v: Verdict, r: Request, now: int)
    requires r.CreateTask? && v.Commit?
  {
    && db.nextId in v.db.tasks && r.session in db.sessions && FreshTask(db, v.db.tasks[db.nextId], r, now)
    && v.stream == db.nextId && v.outcome == TaskOutcome(v.db.tasks[db.nextId])
    && v.db == db.(tasks := db.tasks[db.nextId := v.db.tasks[db.nextId]], nextId := db.nextId + 1)
  }

  lemma CreateAccepts(db: Db, key: Key, r: Request, now: int)
    requires r.CreateTask?
    ensures WellFormed(key, r) && CreateTaskTx(db, r, now).Commit? <==> Creatable(db, key, r)
  {
    hide Normalize, NormalizeFirst, DependencyError, FoldObjective, Blank, DistinctTexts, ProperTexts, NormalFormsDiffer;
    NormalFormsAre(r.scopes, |r.scopes|);
    ProperIff(r.criteria);
    ProperIff(r.scopes);
    if r.session in db.sessions { NoDependencyError(db, db.sessions[r.session].project, r.dependsOn, |r.dependsOn|); }
  }

  lemma CreateWrites(db: Db, r: Request, now: int)
    requires r.CreateTask? && CreateTaskTx(db, r, now).Commit?
    ensures CreatesRow(db, CreateTaskTx(db, r, now), r, now)
  {
    hide Normalize, NormalizeFirst, DependencyError, SameActiveObjective;
    NormalFormsAre(r.scopes, |r.scopes|);
  }

  /** `d` is `db` with the requested task added under the next identifier, and one event. */
  ghost predicate Created(db: Db, d: Db, a: Response, key: Key, r: Request, now: int)
    requires r.CreateTask?
  {
    && r.session in db.sessions && db.nextId in d.tasks
    && var t := d.tasks[db.nextId];
    && FreshTask(db, t, r, now)
    && Committed(d, a, db.(tasks := db.tasks[db.nextId := t], nextId := db.nextId + 1), key, db.nextId, r, TaskOutcome(t), now)
  }

  /** A creation commits exactly when it is well formed, its scopes have distinct normal forms, its session is open,
      no active task of the project has the objective, and every dependency is a task of the project.
      It then adds exactly the requested row and one event; otherwise nothing changes. */
  lemma {:induction false} CreateExactly(db: Db, key: Key, r: Request, now: int, seen: Sighting)
    requires r.CreateTask? && Lookup(db.events, key).None?
    ensures var (d, a) := CallTx(db, key, r, now, seen);
      if Creatable(db, key, r) then Created(db, d, a, key, r, now) else a.Refused? && d == db
  {
    hide CreateTaskTx, WellFormed, Lookup, Creatable, FreshTask;
    CallAnswers(db, key, r, now, seen);
    CreateAccepts(db, key, r, now);
    if CreateTaskTx(db, r, now).Commit? { CreateWrites(db, r, now); }
  }

  // ---------------------------------------------------------------- claiming, completing, cancelling

  /** One task row changed and one event added, nothing else. */
  ghost predicate Rewritten(db: Db, d: Db, a: Response, id: Id, t: Task, key: Key, r: Request, now: int) {
    Committed(d, a, db.(tasks := db.tasks[id := t]), key, id, r, TaskOutcome(t), now)
  }

  /** A claim in a reachable store commits exactly when it is well formed and the task is claimable. It then marks
      the task leased to the worker until the lease has run, and changes nothing else of it. */
  lemma {:induction false} ClaimCallExactly(history: seq<Timed>, key: Key, r: Request, now: int, seen: Sighting)
    requires r.ClaimTask? && Lookup(After(history).events, key).None?
    ensures var db := After(history); var (d, a) := CallTx(db, key, r, now, seen);
      if TextKey(key) && !Blank(r.worker) && 30 <= r.leaseSeconds <= 86400 && Claimable(db, r.task, now) then
        Rewritten(db, d, a, r.task,
          db.tasks[r.task].(status := Leased, owner := Some(r.worker), expires := Some(now + 1000 * r.leaseSeconds), updatedAt := now), key, r, now)
      else a.Refused? && d == db
  {
    hide After, Lookup, Claimable, UnfinishedError, CollidesWith, Live;
    CallAnswers(After(history), key, r, now, seen);
    if r.leaseSeconds > 0 { ClaimExactly(history, r, now); }
  }

  /** A completion commits exactly when it is well formed and completable. It then writes the summary and the proofs
      and ends the lease; the owner stays on record, and nothing else changes. */
  lemma {:induction false} CompleteCallExactly(db: Db, key: Key, r: Request, now: int, seen: Sighting)
    requires r.CompleteTask? && Lookup(db.events, key).None?
    ensures var (d, a) := CallTx(db, key, r, now, seen);
      if TextKey(key) && !Blank(r.worker) && !Blank(r.summary) && Completable(db, r, now, seen.changedClaims) then
        r.task in db.tasks && Rewritten(db, d, a, r.task,
          db.tasks[r.task].(status := Completed, summary := Some(r.summary), proofs := r.proofs, expires := None, updatedAt := now), key, r, now)
      else a.Refused? && d == db
  {
    hide Lookup, ProofsError, TrimmedCriteria, TrimmedProofs, Live, MatchCriteria, ProofAccepted, DistinctCriteria;
    CallAnswers(db, key, r, now, seen);
    CompleteExactly(db, r, now, seen.changedClaims);
  }

  /** A cancellation commits exactly when it is well formed and the task is queued or leased,
      and writes the reason, clears the lease and keeps the rest. */
  lemma {:induction false} CancelExactly(db: Db, key: Key, r: Request, now: int, seen: Sighting)
    requires r.CancelTask? && Lookup(db.events, key).None?
    ensures var (d, a) := CallTx(db, key, r, now, seen);
      if TextKey(key) && !Blank(r.reason) && r.task in db.tasks && (db.tasks[r.task].status == Queued || db.tasks[r.task].status == Leased) then
        Rewritten(db, d, a, r.task, db.tasks[r.task].(status := Cancelled, summary := Some(r.reason), expires := None, updatedAt := now), key, r, now)
      else a.Refused? && d == db
  {
    hide Lookup;
    CallAnswers(db, key, r, now, seen);
  }

  // ---------------------------------------------------------------- records, evidence, claims

  /** The decision or constraint is of the same kind and project, and nothing replaced it before. */
  ghost predicate Replaceable(db: Db, target: Id, r: Request)
    requires r.AddRecord? && r.session in db.sessions
  {
    && (r.kind == Decision || r.kind == Constraint) && target in db.records && db.records[target].kind == r.kind
    && db.records[target].session in db.sessions
    && db.sessions[db.records[target].session].project == db.sessions[r.session].project
    && forall id :: id in db.records ==> db.records[id].supersedes != Some(target)
  }

  /** A record is added exactly in an open session, of a kind still in use, replacing at most one replaceable record;
      it is always the agent's word and untrusted. */
  lemma {:induction false} RecordExactly(db: Db, key: Key, r: Request, now: int, seen: Sighting)
    requires r.AddRecord? && Lookup(db.events, key).None?
    ensures var (d, a) := CallTx(db, key, r, now, seen); var id := db.nextId;
      if TextKey(key) && !Blank(r.content) && OpenSession(db, r.session) && r.kind != Effect && r.kind != Verification
         && r.verifiesEffect.None? && (r.supersedes.Some? ==> Replaceable(db, r.supersedes.value, r))
      then var row := Record(id, r.session, r.kind, r.content, r.supersedes, McpAgent, UntrustedContent, now);
        Committed(d, a, db.(records := db.records[id := row], nextId := id + 1), key, r.session, r, RecordOutcome(row), now)
      else a.Refused? && d == db
  {
    hide Lookup;
    CallAnswers(db, key, r, now, seen);
  }

  /** Evidence is added exactly in an open session when its content could be read, with the digest seen. */
  lemma {:induction false} EvidenceExactly(db: Db, key: Key, r: Request, now: int, seen: Sighting)
    requires r.AddEvidence? && Lookup(db.events, key).None?
    ensures var (d, a) := CallTx(db, key, r, now, seen); var id := db.nextId;
      if TextKey(key) && !Blank(r.locator) && !Blank(r.summary) && OpenSession(db, r.session) && seen.digest.Some?
      then var row := Evidence(id, r.session, r.locator, seen.digest.value, now);
        Committed(d, a, db.(evidence := db.evidence[id := row], nextId := id + 1), key, r.session, r, EvidenceOutcome(row), now)
      else a.Refused? && d == db
  {
    hide Lookup;
    CallAnswers(db, key, r, now, seen);
  }

  /** A claim is asserted exactly in an open session when it is supported by evidence on record; no receipt backs it. */
  lemma {:induction false} AssertExactly(db: Db, key: Key, r: Request, now: int, seen: Sighting)
    requires r.AssertClaim? && Lookup(db.events, key).None?
    ensures var (d, a) := CallTx(db, key, r, now, seen); var id := db.nextId;
      if TextKey(key) && !Blank(r.statement) && OpenSession(db, r.session) && seen.claimSupported && (forall e :: e in r.evidence ==> e in db.evidence)
      then var row := Claim(id, r.session, r.status, r.statement, r.evidence, {}, r.supersedes, now);
        Committed(d, a, db.(claims := db.claims[id := row], nextId := id + 1), key, r.session, r, ClaimOutcome(row), now)
      else a.Refused? && d == db
  {
    hide Lookup;
    CallAnswers(db, key, r, now, seen);
    assert r.evidence <= db.evidence.Keys <==> forall e :: e in r.evidence ==> e in db.evidence;
  }

  // ---------------------------------------------------------------- runs

  ghost predicate Startable(db: Db, spec: Id) {
    && spec in db.specs && |db.specs[spec].artifactPaths| <= 64 && OpenSession(db, db.specs[spec].session)
    && forall id :: id in db.runs && db.runs[id].spec == spec ==> db.runs[id].status != Running
  }

  /** A run continuing the attempts made so far: the first one, or the next after the last. */
  ghost predicate NextAttempt(db: Db, spec: Id, run: Run, n: nat) {
    && AttemptsAre(db.runs, spec, n) && run.attempt == n + 1
    && (n == 0 ==> run.retryOf == None)
    && (n > 0 ==> run.retryOf.Some? && run.retryOf.value in db.runs)
    && (n > 0 ==> db.runs[run.retryOf.value].spec == spec && db.runs[run.retryOf.value].attempt == n)
  }

  /** A running run of the specification, in its session, added under the next identifier with its own event. */
  ghost predicate Begun(db: Db, d: Db, a: Response, spec: Id, now: int)
    requires spec in db.specs
  {
    && db.nextId in d.runs
    && var run := d.runs[db.nextId];
    && run.id == db.nextId && run.spec == spec && run.session == db.specs[spec].session
    && run.status == Running && run.startedAt == now && run.finishedAt == None
    && (exists n :: NextAttempt(db, spec, run, n))
    && a == Done(RunStarted(run), false)
    && d == db.(runs := db.runs[db.nextId := run], nextId := db.nextId + 1,
                events := db.events + [Event(StartKey(db.nextId), db.nextId, StartRun(spec), RunStarted(run), now)])
  }

  lemma LatestIsLast(db: Db, spec: Id, n: nat)
    requires Minted(db) && RunsOk(db.runs, db.specs) && AttemptsAre(db.runs, spec, n)
    ensures LatestRun(db, spec).None? <==> n == 0
    ensures n > 0 ==> LatestRun(db, spec).value in db.runs && db.runs[LatestRun(db, spec).value].spec == spec
    ensures n > 0 ==> db.runs[LatestRun(db, spec).value].attempt == n
  {
    hide LatestBelow, RunOk;
    LatestIsGreatest(db.runs, spec, db.nextId);
    var l := LatestRun(db, spec);
    if l.Some? { assert HasAttempt(db.runs, spec, db.runs[l.value].attempt); }
    if n > 0 { assert HasAttempt(db.runs, spec, n); }
  }

  /** A run starts exactly when its specification is registered with few enough artifacts in an open session and
      has none running. It is then the next attempt; otherwise nothing changes. */
  lemma {:induction false} StartExactly(history: seq<Timed>, spec: Id, now: int)
    ensures var db := After(history); var (d, a) := StartTx(db, spec, now);
      if Startable(db, spec) then Begun(db, d, a, spec, now) else a.Refused? && d == db
  {
    hide After, LatestRun, RunsOk, Minted, AttemptsAre;
    var db := After(history);
    HistoryKeepsTasks(history);
    HistoryKeepsRuns(history);
    AttemptsAreConsecutive(history, spec);
    var n: nat :| AttemptsAre(db.runs, spec, n);
    LatestIsLast(db, spec, n);
    if Startable(db, spec) {
      assert NextAttempt(db, spec, StartTx(db, spec, now).0.runs[db.nextId], n);
    }
  }

  /** What a success must show: the expected exit after a normal end, enforcement where it was required,
      and each declared path among the artifacts, with no artifact more. */
  ghost predicate ShowsSuccess(spec: Spec, f: Finish) {
    && f.exitCode == Some(spec.expectedExit) && f.termination == "exited" && (spec.sandboxRequired ==> f.enforced)
    && |f.artifacts| == |spec.artifactPaths|
    && forall path :: path in spec.artifactPaths ==> HasPath(f.artifacts, path)
  }

  ghost predicate HasPath(artifacts: seq<Artifact>, path: string) {
    exists x :: x in artifacts && x.path == path
  }

  ghost predicate Acceptable(db: Db, f: Finish) {
    && f.run in db.runs && db.runs[f.run].status == Running && db.runs[f.run].spec in db.specs
    && (f.status == Succeeded || f.status == Failed || f.status == TimedOut)
    && !Blank(f.termination) && !Blank(f.backend)
    && |f.artifacts| <= 64 && (forall i :: 0 <= i < |f.artifacts| ==> f.artifacts[i].bytes <= 67_108_864)
    && TotalArtifactBytes(f.artifacts) <= 134_217_728
    && (forall i, j :: 0 <= i < j < |f.artifacts| ==> f.artifacts[i].path != f.artifacts[j].path)
    && (f.status == Succeeded ==> ShowsSuccess(db.specs[db.runs[f.run].spec], f))
  }

  /** The run settled as reported, its receipt, for a success the claim it backs, and one event. */
  ghost predicate Finished(db: Db, d: Db, a: Response, f: Finish, now: int)
    requires f.run in db.runs && db.runs[f.run].spec in db.specs
  {
    var spec := db.specs[db.runs[f.run].spec];
    var receipt := Receipt(db.nextId, f.run, f, now);
    var run := db.runs[f.run].(status := f.status, finishedAt := Some(now));
    var claim := Claim(db.nextId + 1, spec.session, Verified, spec.successClaim, {}, {db.nextId}, None, now);
    var issued := f.status == Succeeded;
    var o := RunFinished(run, receipt, if issued then Some(db.nextId + 1) else None);
    && a == Done(o, false)
    && d == db.(runs := db.runs[f.run := run], receipts := db.receipts[db.nextId := receipt], nextId := db.nextId + 2,
                claims := if issued then db.claims[db.nextId + 1 := claim] else db.claims,
                events := db.events + [Event(FinishKey(f.run), f.run, FinishRun(f), o, now)])
  }

  lemma ProducedIff(artifacts: seq<Artifact>, path: string)
    ensures Produced(artifacts, path) <==> HasPath(artifacts, path)
  {
    if Produced(artifacts, path) {
      var j :| 0 <= j < |artifacts| && artifacts[j].path == path;
      assert artifacts[j] in artifacts;
    }
    if HasPath(artifacts, path) {
      var x :| x in artifacts && x.path == path;
      var j :| 0 <= j < |artifacts| && artifacts[j] == x;
    }
  }

  lemma CoverIff(artifacts: seq<Artifact>, paths: seq<string>)
    ensures ArtifactsCover(artifacts, paths) <==> |artifacts| == |paths| && forall path :: path in paths ==> HasPath(artifacts, path)
  {
    hide Produced, HasPath;
    forall path ensures Produced(artifacts, path) <==> HasPath(artifacts, path) { ProducedIff(artifacts, path); }
  }

  lemma SuccessIff(spec: Spec, f: Finish)
    ensures SuccessSupported(spec, f) <==> ShowsSuccess(spec, f)
  {
    hide ArtifactsCover, HasPath;
    CoverIff(f.artifacts, spec.artifactPaths);
  }

  lemma {:induction false} LimitsIff(artifacts: seq<Artifact>)
    ensures ArtifactsWithinLimits(artifacts) <==>
      && |artifacts| <= 64 && (forall i :: 0 <= i < |artifacts| ==> artifacts[i].bytes <= 67_108_864)
      && TotalArtifactBytes(artifacts) <= 134_217_728
  {
    hide TotalArtifactBytes;
  }

  /** A result is accepted exactly for a running run, when its texts are there and its artifacts within limits and
      distinct, and, for a success alone, when it shows what the specification asks. Failures are recorded as they come. */
  lemma FinishExactly(db: Db, f: Finish, now: int)
    ensures var (d, a) := FinishTx(db, f, now);
      if Acceptable(db, f) then Finished(db, d, a, f, now) else a.Refused? && d == db
  {
    hide SuccessSupported, ShowsSuccess, ArtifactsWithinLimits, TotalArtifactBytes, Blank;
    if f.run in db.runs && db.runs[f.run].spec in db.specs { SuccessIff(db.specs[db.runs[f.run].spec], f); }
    LimitsIff(f.artifacts);
    assert Acceptable(db, f) <==> FinishTx(db, f, now).1.Done?;
  }

  lemma {:induction false} TotalNext(artifacts: seq<Artifact>, x: Artifact)
    ensures TotalArtifactBytes(artifacts + [x]) == TotalArtifactBytes(artifacts) + x.bytes
  {
    assert (artifacts + [x])[..|artifacts|] == artifacts;
  }

  /** The total is the sum of the sizes. */
  lemma {:induction false} TotalExactly(a: seq<Artifact>, b: seq<Artifact>)
    ensures TotalArtifactBytes(a + b) == TotalArtifactBytes(a) + TotalArtifactBytes(b)
  {
    if b == [] {
      assert a + b == a;
    } else {
      var front, x := b[..|b| - 1], b[|b| - 1];
      assert b == front + [x];
      assert a + b == (a + front) + [x];
      hide TotalArtifactBytes;
      TotalExactly(a, front);
      TotalNext(a + front, x);
      TotalNext(front, x);
    }
  }

  // ---------------------------------------------------------------- reconciling

  ghost predicate StaleRun(db: Db, id: Id, cutoff: int) {
    id in db.runs && db.runs[id].status == Running && db.runs[id].startedAt < cutoff
  }

  /** The run that was going, as it ended. */
  ghost predicate EndedAs(before: Run, after: Run, now: int) {
    && after.id == before.id && after.spec == before.spec && after.session == before.session && after.attempt == before.attempt
    && after.retryOf == before.retryOf && after.startedAt == before.startedAt
    && after.status == Interrupted && after.finishedAt == Some(now)
  }

  /** Exactly the stale runs below `n`, each once, in order. */
  ghost predicate AllStale(db: Db, ids: seq<Id>, n: nat, cutoff: int) {
    && (forall j, k :: 0 <= j < k < |ids| ==> ids[j] < ids[k])
    && forall id: Id :: id in ids <==> id < n && StaleRun(db, id, cutoff)
  }

  ghost predicate InterruptEvent(e: Event, id: Id, run: Run, staleAfter: nat, now: int) {
    && e.key == InterruptKey(id) && e.stream == id && e.request == InterruptRun(staleAfter)
    && e.outcome == RunInterrupted(run) && e.at == now
  }

  /** The listed runs ended, with one event each in that order; nothing else changed. */
  ghost predicate Interrupts(db: Db, d: Db, ids: seq<Id>, staleAfter: nat, now: int) {
    && d == db.(runs := d.runs, events := d.events) && d.runs.Keys == db.runs.Keys
    && (forall id :: id in db.runs ==> if id in ids then EndedAs(db.runs[id], d.runs[id], now) else d.runs[id] == db.runs[id])
    && |d.events| == |db.events| + |ids| && d.events[..|db.events|] == db.events
    && forall k :: 0 <= k < |ids| ==> ids[k] in d.runs && InterruptEvent(d.events[|db.events| + k], ids[k], d.runs[ids[k]], staleAfter, now)
  }

  lemma {:induction false} InterruptsInOrder(db: Db, n: nat, staleAfter: nat, cutoff: int, now: int) returns (ids: seq<Id>)
    ensures AllStale(db, ids, n, cutoff) && Interrupts(db, InterruptBelow(db, n, staleAfter, cutoff, now), ids, staleAfter, now)
    decreases n
  {
    hide AllStale, Interrupts, InterruptOne, StaleRun;
    if n == 0 {
      ids := [];
      NoneStale(db, staleAfter, cutoff, now);
    } else {
      var before := InterruptsInOrder(db, n - 1, staleAfter, cutoff, now);
      ids := if StaleRun(db, n - 1, cutoff) then before + [n - 1] else before;
      StaleGrows(db, before, n - 1, cutoff);
      OneMore(db, InterruptBelow(db, n - 1, staleAfter, cutoff, now), before, n - 1, staleAfter, cutoff, now);
    }
  }

  lemma NoneStale(db: Db, staleAfter: nat, cutoff: int, now: int)
    ensures AllStale(db, [], 0, cutoff) && Interrupts(db, db, [], staleAfter, now)
  {
  }

  lemma StaleGrows(db: Db, ids: seq<Id>, n: Id, cutoff: int)
    requires AllStale(db, ids, n, cutoff)
    ensures n !in ids && AllStale(db, if StaleRun(db, n, cutoff) then ids + [n] else ids, n + 1, cutoff)
  {
    hide StaleRun;
    forall j | 0 <= j < |ids| ensures ids[j] < n { assert ids[j] in ids; }
  }

  lemma OneMore(db: Db, d: Db, ids: seq<Id>, id: Id, staleAfter: nat, cutoff: int, now: int)
    requires Interrupts(db, d, ids, staleAfter, now) && id !in ids
    ensures Interrupts(db, InterruptOne(d, id, staleAfter, cutoff, now), if StaleRun(db, id, cutoff) then ids + [id] else ids, staleAfter, now)
  {
    if StaleRun(db, id, cutoff) {
      var run := d.runs[id].(status := Interrupted, finishedAt := Some(now));
      assert d.runs[id] == db.runs[id];
      InterruptAppends(db, d, ids, id, run, staleAfter, now);
    } else if id in db.runs {
      assert d.runs[id] == db.runs[id];
    }
  }

  lemma InterruptAppends(db: Db, d: Db, ids: seq<Id>, id: Id, run: Run, staleAfter: nat, now: int)
    requires Interrupts(db, d, ids, staleAfter, now) && id !in ids && id in db.runs && EndedAs(db.runs[id], run, now)
    ensures var after := Append(d.(runs := d.runs[id := run]), InterruptKey(id), id, InterruptRun(staleAfter), RunInterrupted(run), now);
      Interrupts(db, after, ids + [id], staleAfter, now)
  {
    hide EndedAs;
    var after := Append(d.(runs := d.runs[id := run]), InterruptKey(id), id, InterruptRun(staleAfter), RunInterrupted(run), now);
    var more := ids + [id];
    assert after.events[..|db.events|] == d.events[..|db.events|];
    assert after.events[|db.events| + |ids|] == Event(InterruptKey(id), id, InterruptRun(staleAfter), RunInterrupted(run), now);
    forall k | 0 <= k < |ids| ensures ids[k] in ids && after.events[|db.events| + k] == d.events[|db.events| + k] && more[k] == ids[k] { }
    forall x | x in db.runs ensures x in more <==> x in ids || x == id { }
  }

  /** In every history a reconcile is refused outside its range, and otherwise interrupts exactly the runs going since
      before the cutoff, with one event each, and touches nothing else. */
  lemma {:induction false} ReconcileWhole(history: seq<Timed>, staleAfter: nat, now: int)
    ensures var db := After(history); var (d, accepted) := ReconcileTx(db, staleAfter, now);
      && (accepted <==> 0 < staleAfter <= 365 * 24 * 3600)
      && (!accepted ==> d == db)
      && (accepted ==> exists ids :: AllStale(db, ids, db.nextId, now - staleAfter * 1000) && Interrupts(db, d, ids, staleAfter, now))
      && forall id :: id in db.runs ==> id < db.nextId
  {
    hide After, InterruptBelow, Interrupts, AllStale;
    var db := After(history);
    HistoryKeepsTasks(history);
    var ids := InterruptsInOrder(db, db.nextId, staleAfter, now - staleAfter * 1000, now);
  }
}
