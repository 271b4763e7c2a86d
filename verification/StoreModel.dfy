/** The durable store as a value: tables, the append-only event log, and what each transaction does to them.
    A refused transaction rolls back, so it returns the tables it was given. */
module StoreModel {
  import opened Ordering
  import opened WriteScope

  // ---------------------------------------------------------------- rows

  datatype Session = Session(project: Id, open: bool)

  datatype TaskStatus = Queued | Leased | Completed | Cancelled

  datatype Proof = Proof(criterion: string, claim: Id)

  datatype Task = Task(
    id: Id, project: Id, session: Id, objective: string, criteria: seq<string>,
    scopes: seq<string>, dependsOn: seq<Id>, status: TaskStatus,
    owner: Option<string>, expires: Option<int>, summary: Option<string>, proofs: seq<Proof>,
    createdAt: int, updatedAt: int)

  datatype RecordKind = Decision | Constraint | TaskProgress | Observation | Effect | Verification | MaterialUnknown
  datatype OriginChannel = Legacy | McpAgent | LocalRunner | CodexHook
  datatype InfluenceClass = VerifiedFact | HistoricalContext | UntrustedContent

  datatype Record = Record(
    id: Id, session: Id, kind: RecordKind, content: string, supersedes: Option<Id>,
    origin: OriginChannel, influence: InfluenceClass, createdAt: int)

  datatype Evidence = Evidence(id: Id, session: Id, locator: string, digest: string, createdAt: int)

  datatype ClaimStatus = Observed | Verified | Inferred | Assumed | Intended | Unknown

  /** `evidence` and `receipts` are the linked rows; a claim with receipts was issued by the runner. */
  datatype Claim = Claim(
    id: Id, session: Id, status: ClaimStatus, statement: string,
    evidence: set<Id>, receipts: set<Id>, supersedes: Option<Id>, createdAt: int)

  datatype Spec = Spec(
    id: Id, session: Id, expectedExit: int, artifactPaths: seq<string>, sandboxRequired: bool, successClaim: string)

  datatype RunStatus = Running | Succeeded | Failed | TimedOut | Interrupted

  datatype Run = Run(
    id: Id, spec: Id, session: Id, status: RunStatus, attempt: nat, retryOf: Option<Id>,
    startedAt: int, finishedAt: Option<int>)

  datatype Artifact = Artifact(path: string, bytes: nat)

  datatype Finish = Finish(
    run: Id, status: RunStatus, exitCode: Option<int>, termination: string,
    backend: string, enforced: bool, artifacts: seq<Artifact>)

  datatype Receipt = Receipt(id: Id, run: Id, finish: Finish, createdAt: int)

  // ---------------------------------------------------------------- requests, events, responses

  datatype Request =
    | CreateTask(session: Id, objective: string, criteria: seq<string>, scopes: seq<string>, dependsOn: seq<Id>)
    | ClaimTask(task: Id, worker: string, leaseSeconds: int)
    | CompleteTask(task: Id, worker: string, summary: string, proofs: seq<Proof>)
    | CancelTask(task: Id, reason: string)
    | AddRecord(session: Id, kind: RecordKind, content: string, supersedes: Option<Id>, verifiesEffect: Option<Id>)
    | AddEvidence(session: Id, locator: string, summary: string)
    | AssertClaim(session: Id, status: ClaimStatus, statement: string, evidence: set<Id>, supersedes: Option<Id>)
    | StartRun(spec: Id)
    | FinishRun(finish: Finish)
    | InterruptRun(staleAfterSeconds: nat)

  datatype Outcome =
    | TaskOutcome(task: Task)
    | RecordOutcome(record: Record)
    | EvidenceOutcome(evidence: Evidence)
    | ClaimOutcome(claim: Claim)
    | RunStarted(run: Run)
    | RunFinished(run: Run, receipt: Receipt, verifiedClaim: Option<Id>)
    | RunInterrupted(run: Run)

  /** Idempotency keys: callers choose theirs, the runner derives its own from the run. */
  datatype Key = Caller(text: string) | StartKey(run: Id) | FinishKey(run: Id) | InterruptKey(run: Id)

  datatype Event = Event(key: Key, stream: Id, request: Request, outcome: Outcome, at: int)

  datatype Error = Invalid | Conflict | NotFound | Database

  datatype Response = Done(outcome: Outcome, duplicate: bool) | Refused(error: Error)

  /** What the file system told the transaction: the digest of the cited file if it could be read,
      whether claim validation accepted the evidence, and the claims whose cited file has changed. */
  datatype Sighting = Sighting(digest: Option<string>, claimSupported: bool, changedClaims: set<Id>)

  datatype Db = Db(
    sessions: map<Id, Session>, specs: map<Id, Spec>,
    tasks: map<Id, Task>, records: map<Id, Record>, evidence: map<Id, Evidence>, claims: map<Id, Claim>,
    runs: map<Id, Run>, receipts: map<Id, Receipt>,
    events: seq<Event>, nextId: Id)

  const EMPTY := Db(map[], map[], map[], map[], map[], map[], map[], map[], [], 0)

  // ---------------------------------------------------------------- the event log

  /** The event committed under a key. */
  function Lookup(events: seq<Event>, key: Key): Option<Event> {
    if events == [] then None
    else
      var earlier := Lookup(events[..|events| - 1], key);
      if earlier.Some? then earlier
      else if events[|events| - 1].key == key then Some(events[|events| - 1])
      else None
  }

  function Append(db: Db, key: Key, stream: Id, request: Request, outcome: Outcome, now: int): Db {
    db.(events := db.events + [Event(key, stream, request, outcome, now)])
  }

  // ---------------------------------------------------------------- request shape

  function TrimEnd(s: string): string {
    if s != "" && IsSpace(s[|s| - 1]) then TrimEnd(s[..|s| - 1]) else s
  }

  function TrimStart(s: string): string {
    if s != "" && IsSpace(s[0]) then TrimStart(s[1..]) else s
  }

  function Trim(s: string): string {
    TrimStart(TrimEnd(s))
  }

  /** Every text is nonblank and no two agree up to case and surrounding space. */
  predicate DistinctTexts(texts: seq<string>) {
    && (forall i :: 0 <= i < |texts| ==> !Blank(texts[i]))
    && (forall i, j :: 0 <= i < j < |texts| ==> Lower(Trim(texts[i])) != Lower(Trim(texts[j])))
  }

  predicate DistinctIds(ids: seq<Id>) {
    forall i, j :: 0 <= i < j < |ids| ==> ids[i] != ids[j]
  }

  /** The checks made on a caller's request before the database is opened. */
  predicate WellFormed(key: Key, request: Request) {
    key.Caller? && !Blank(key.text) && match request
      case CreateTask(_, objective, criteria, scopes, dependsOn) =>
        !Blank(objective) && criteria != [] && DistinctTexts(criteria) && DistinctTexts(scopes) && DistinctIds(dependsOn)
      case ClaimTask(_, worker, leaseSeconds) => !Blank(worker) && 30 <= leaseSeconds <= 86400
      case CompleteTask(_, worker, summary, _) => !Blank(worker) && !Blank(summary)
      case CancelTask(_, reason) => !Blank(reason)
      case AddRecord(_, _, content, _, _) => !Blank(content)
      case AddEvidence(_, locator, summary) => !Blank(locator) && !Blank(summary)
      case AssertClaim(_, _, statement, _, _) => !Blank(statement)
      case _ => false
  }

  // ---------------------------------------------------------------- transactions

  /** What a transaction decides once it is known not to be a retry. */
  datatype Verdict = Commit(db: Db, stream: Id, outcome: Outcome) | Reject(error: Error)

  function SessionError(db: Db, session: Id): Option<Error> {
    if session !in db.sessions then Some(NotFound)
    else if !db.sessions[session].open then Some(Conflict)
    else None
  }

  /** `lower(trim(objective))` as SQL computes it: spaces only, ASCII case only. */
  function FoldObjective(s: string): string {
    Lower(TrimSpacesStart(TrimSpacesEnd(s)))
  }

  function TrimSpacesEnd(s: string): string {
    if s != "" && s[|s| - 1] == ' ' then TrimSpacesEnd(s[..|s| - 1]) else s
  }

  function TrimSpacesStart(s: string): string {
    if s != "" && s[0] == ' ' then TrimSpacesStart(s[1..]) else s
  }

  predicate Active(t: Task) {
    t.status == Queued || t.status == Leased
  }

  predicate SameActiveObjective(db: Db, project: Id, objective: string) {
    exists id :: id in db.tasks && db.tasks[id].project == project && Active(db.tasks[id])
      && FoldObjective(db.tasks[id].objective) == FoldObjective(objective)
  }

  /** The normal forms of the first `n` scopes, distinct, or nothing when one is refused or repeated. */
  function NormalizeFirst(scopes: seq<string>, n: nat): Option<seq<string>>
    requires n <= |scopes|
  {
    if n == 0 then Some([])
    else
      var front := NormalizeFirst(scopes, n - 1);
      var last := Normalize(scopes[n - 1]);
      if front.None? || last.None? || last.value in front.value then None
      else Some(front.value + [last.value])
  }

  function NormalizeAll(scopes: seq<string>): Option<seq<string>> {
    NormalizeFirst(scopes, |scopes|)
  }

  /** The first dependency among the first `n` that is missing or belongs to another project. */
  function DependencyError(db: Db, project: Id, dependsOn: seq<Id>, n: nat): Option<Error>
    requires n <= |dependsOn|
  {
    if n == 0 then None
    else
      var earlier := DependencyError(db, project, dependsOn, n - 1);
      var d := dependsOn[n - 1];
      if earlier.Some? then earlier
      else if d !in db.tasks then Some(NotFound)
      else if db.tasks[d].project != project then Some(Conflict)
      else None
  }

  function CreateTaskTx(db: Db, r: Request, now: int): Verdict
    requires r.CreateTask?
  {
    var scopes := NormalizeAll(r.scopes);
    if scopes.None? then Reject(Invalid)
    else
      var session := SessionError(db, r.session);
      if session.Some? then Reject(session.value)
      else
        var project := db.sessions[r.session].project;
        if SameActiveObjective(db, project, r.objective) then Reject(Conflict)
        else
          var dependency := DependencyError(db, project, r.dependsOn, |r.dependsOn|);
          if dependency.Some? then Reject(dependency.value)
          else
            var id := db.nextId;
            var task := Task(id, project, r.session, r.objective, r.criteria, scopes.value, r.dependsOn,
                             Queued, None, None, None, [], now, now);
            Commit(db.(tasks := db.tasks[id := task], nextId := id + 1), id, TaskOutcome(task))
  }

  /** A lease that has not run out at `now`. */
  predicate Live(t: Task, now: int) {
    t.status == Leased && t.expires.Some? && t.expires.value > now
  }

  /** The first of the first `n` dependencies that is not completed. */
  function UnfinishedError(db: Db, dependsOn: seq<Id>, n: nat): Option<Error>
    requires n <= |dependsOn|
  {
    if n == 0 then None
    else
      var earlier := UnfinishedError(db, dependsOn, n - 1);
      var d := dependsOn[n - 1];
      if earlier.Some? then earlier
      else if d !in db.tasks then Some(NotFound)
      else if db.tasks[d].status != Completed then Some(Conflict)
      else None
  }

  /** Some scope of one task overlaps some scope of the other. */
  predicate ScopesClash(left: seq<string>, right: seq<string>) {
    exists i, j :: 0 <= i < |left| && 0 <= j < |right| && Overlap(left[i], right[j]) != Some(false)
  }

  /** A live lease of the same project that the task would collide with. */
  predicate CollidesWith(t: Task, other: Task, now: int) {
    other.project == t.project && other.id != t.id && Live(other, now) && ScopesClash(t.scopes, other.scopes)
  }

  function ClaimTaskTx(db: Db, r: Request, now: int): Verdict
    requires r.ClaimTask?
  {
    if r.task !in db.tasks then Reject(NotFound)
    else
      var t := db.tasks[r.task];
      if t.status == Completed || t.status == Cancelled || Live(t, now) then Reject(Conflict)
      else
        var unfinished := UnfinishedError(db, t.dependsOn, |t.dependsOn|);
        if unfinished.Some? then Reject(unfinished.value)
        else if exists id :: id in db.tasks && CollidesWith(t, db.tasks[id], now) then Reject(Conflict)
        else
          var task := t.(status := Leased, owner := Some(r.worker), expires := Some(now + r.leaseSeconds * 1000), updatedAt := now);
          Commit(db.(tasks := db.tasks[r.task := task]), r.task, TaskOutcome(task))
  }

  /** An active, exactly matching, verified claim of the task's project whose cited file is unchanged. */
  function ProofError(db: Db, t: Task, p: Proof, changed: set<Id>): Option<Error> {
    if p.claim !in db.claims then Some(NotFound)
    else
      var c := db.claims[p.claim];
      if || c.status != Verified || c.session !in db.sessions || db.sessions[c.session].project != t.project
         || c.statement != p.criterion || (exists id :: id in db.claims && db.claims[id].supersedes == Some(p.claim))
         || p.claim in changed
      then Some(Conflict)
      else None
  }

  /** The first objection to the first `n` proofs. */
  function ProofsError(db: Db, t: Task, proofs: seq<Proof>, changed: set<Id>, n: nat): Option<Error>
    requires n <= |proofs|
  {
    if n == 0 then None
    else
      var earlier := ProofsError(db, t, proofs, changed, n - 1);
      var p := proofs[n - 1];
      if earlier.Some? then earlier
      else if Blank(p.criterion) then Some(Invalid)
      else if exists i :: 0 <= i < n - 1 && Trim(proofs[i].criterion) == Trim(p.criterion) then Some(Invalid)
      else ProofError(db, t, p, changed)
  }

  function TrimmedCriteria(t: Task): set<string> {
    set c | c in t.criteria :: Trim(c)
  }

  function TrimmedProofs(proofs: seq<Proof>): set<string> {
    set p | p in proofs :: Trim(p.criterion)
  }

  function CompleteTaskTx(db: Db, r: Request, now: int, changed: set<Id>): Verdict
    requires r.CompleteTask?
  {
    if r.task !in db.tasks then Reject(NotFound)
    else
      var t := db.tasks[r.task];
      if !Live(t, now) || t.owner != Some(r.worker) then Reject(Conflict)
      else if |t.criteria| != |r.proofs| then Reject(Invalid)
      else
        var objection := ProofsError(db, t, r.proofs, changed, |r.proofs|);
        if objection.Some? then Reject(objection.value)
        else if TrimmedProofs(r.proofs) != TrimmedCriteria(t) then Reject(Invalid)
        else
          var task := t.(status := Completed, summary := Some(r.summary), proofs := r.proofs, expires := None, updatedAt := now);
          Commit(db.(tasks := db.tasks[r.task := task]), r.task, TaskOutcome(task))
  }

  function CancelTaskTx(db: Db, r: Request, now: int): Verdict
    requires r.CancelTask?
  {
    if r.task !in db.tasks then Reject(NotFound)
    else
      var t := db.tasks[r.task];
      if t.status == Completed || t.status == Cancelled then Reject(Conflict)
      else
        var task := t.(status := Cancelled, summary := Some(r.reason), expires := None, updatedAt := now);
        Commit(db.(tasks := db.tasks[r.task := task]), r.task, TaskOutcome(task))
  }

  function RecordLinkError(db: Db, r: Request): Option<Error>
    requires r.AddRecord? && r.session in db.sessions
  {
    if r.kind == Effect || r.kind == Verification then Some(Invalid)
    else if r.supersedes.Some? && r.kind != Decision && r.kind != Constraint then Some(Invalid)
    else if r.supersedes.Some? && r.supersedes.value !in db.records then Some(NotFound)
    else if r.supersedes.Some? && (
        var target := db.records[r.supersedes.value];
        || target.kind != r.kind || target.session !in db.sessions
        || db.sessions[target.session].project != db.sessions[r.session].project
        || exists id :: id in db.records && db.records[id].supersedes == r.supersedes) then Some(Conflict)
    else if r.verifiesEffect.Some? then Some(Invalid)
    else None
  }

  function AddRecordTx(db: Db, r: Request, now: int): Verdict
    requires r.AddRecord?
  {
    var session := SessionError(db, r.session);
    if session.Some? then Reject(session.value)
    else
      var link := RecordLinkError(db, r);
      if link.Some? then Reject(link.value)
      else
        var id := db.nextId;
        var record := Record(id, r.session, r.kind, r.content, r.supersedes, McpAgent, UntrustedContent, now);
        Commit(db.(records := db.records[id := record], nextId := id + 1), r.session, RecordOutcome(record))
  }

  function AddEvidenceTx(db: Db, r: Request, now: int, digest: Option<string>): Verdict
    requires r.AddEvidence?
  {
    var session := SessionError(db, r.session);
    if session.Some? then Reject(session.value)
    else if digest.None? then Reject(Invalid)
    else
      var id := db.nextId;
      var evidence := Evidence(id, r.session, r.locator, digest.value, now);
      Commit(db.(evidence := db.evidence[id := evidence], nextId := id + 1), r.session, EvidenceOutcome(evidence))
  }

  function AssertClaimTx(db: Db, r: Request, now: int, supported: bool): Verdict
    requires r.AssertClaim?
  {
    var session := SessionError(db, r.session);
    if session.Some? then Reject(session.value)
    else if !supported || !(r.evidence <= db.evidence.Keys) then Reject(Conflict)
    else
      var id := db.nextId;
      var claim := Claim(id, r.session, r.status, r.statement, r.evidence, {}, r.supersedes, now);
      Commit(db.(claims := db.claims[id := claim], nextId := id + 1), r.session, ClaimOutcome(claim))
  }

  // ---------------------------------------------------------------- caller transactions

  function Execute(db: Db, request: Request, now: int, seen: Sighting): Verdict {
    match request
    case CreateTask(_, _, _, _, _) => CreateTaskTx(db, request, now)
    case ClaimTask(_, _, _) => ClaimTaskTx(db, request, now)
    case CompleteTask(_, _, _, _) => CompleteTaskTx(db, request, now, seen.changedClaims)
    case CancelTask(_, _) => CancelTaskTx(db, request, now)
    case AddRecord(_, _, _, _, _) => AddRecordTx(db, request, now)
    case AddEvidence(_, _, _) => AddEvidenceTx(db, request, now, seen.digest)
    case AssertClaim(_, _, _, _, _) => AssertClaimTx(db, request, now, seen.claimSupported)
    case _ => Reject(Invalid)
  }

  /** A keyed call: shape checks, then the retry check, then the transaction itself. */
  function CallTx(db: Db, key: Key, request: Request, now: int, seen: Sighting): (Db, Response) {
    if !WellFormed(key, request) then (db, Refused(Invalid))
    else match Lookup(db.events, key)
      case Some(e) => (db, if e.request == request then Done(e.outcome, true) else Refused(Conflict))
      case None =>
        match Execute(db, request, now, seen)
        case Reject(e) => (db, Refused(e))
        case Commit(after, stream, outcome) => (Append(after, key, stream, request, outcome, now), Done(outcome, false))
  }

  // ---------------------------------------------------------------- runner transactions

  const MAX_RECEIPT_ARTIFACTS := 64
  const MAX_RECEIPT_ARTIFACT_BYTES := 64 * 1024 * 1024
  const MAX_RECEIPT_ARTIFACT_TOTAL_BYTES := 128 * 1024 * 1024

  predicate HasRunning(db: Db, spec: Id) {
    exists id :: id in db.runs && db.runs[id].spec == spec && db.runs[id].status == Running
  }

  /** Among the runs of a spec with an ID below `n`, the one with the greatest attempt. */
  function LatestBelow(runs: map<Id, Run>, spec: Id, n: nat): Option<Id> {
    if n == 0 then None
    else
      var earlier := LatestBelow(runs, spec, n - 1);
      var id := n - 1;
      if id in runs && runs[id].spec == spec
         && (earlier.None? || earlier.value !in runs || runs[id].attempt >= runs[earlier.value].attempt)
      then Some(id) else earlier
  }

  function LatestRun(db: Db, spec: Id): Option<Id> {
    LatestBelow(db.runs, spec, db.nextId)
  }

  function StartTx(db: Db, spec: Id, now: int): (Db, Response) {
    if spec !in db.specs then (db, Refused(NotFound))
    else if |db.specs[spec].artifactPaths| > MAX_RECEIPT_ARTIFACTS then (db, Refused(Invalid))
    else
      var session := SessionError(db, db.specs[spec].session);
      if session.Some? then (db, Refused(session.value))
      else if HasRunning(db, spec) then (db, Refused(Conflict))
      else
        var prior := LatestRun(db, spec);
        var attempt := if prior.Some? && prior.value in db.runs then db.runs[prior.value].attempt + 1 else 1;
        var id := db.nextId;
        var run := Run(id, spec, db.specs[spec].session, Running, attempt, prior, now, None);
        (Append(db.(runs := db.runs[id := run], nextId := id + 1), StartKey(id), id, StartRun(spec), RunStarted(run), now),
         Done(RunStarted(run), false))
  }

  function TotalArtifactBytes(artifacts: seq<Artifact>): nat {
    if artifacts == [] then 0
    else TotalArtifactBytes(artifacts[..|artifacts| - 1]) + artifacts[|artifacts| - 1].bytes
  }

  /** The sizes a receipt may carry, each path once. */
  predicate ArtifactsWithinLimits(artifacts: seq<Artifact>) {
    && |artifacts| <= MAX_RECEIPT_ARTIFACTS
    && (forall i :: 0 <= i < |artifacts| ==> artifacts[i].bytes <= MAX_RECEIPT_ARTIFACT_BYTES)
    && TotalArtifactBytes(artifacts) <= MAX_RECEIPT_ARTIFACT_TOTAL_BYTES
  }

  predicate DistinctPaths(artifacts: seq<Artifact>) {
    forall i, j :: 0 <= i < j < |artifacts| ==> artifacts[i].path != artifacts[j].path
  }

  predicate Produced(artifacts: seq<Artifact>, path: string) {
    exists j :: 0 <= j < |artifacts| && artifacts[j].path == path
  }

  predicate ArtifactsCover(artifacts: seq<Artifact>, paths: seq<string>) {
    |artifacts| == |paths| && forall i :: 0 <= i < |paths| ==> Produced(artifacts, paths[i])
  }

  /** What a run reported as succeeded must show. */
  predicate SuccessSupported(spec: Spec, f: Finish) {
    && f.exitCode == Some(spec.expectedExit) && f.termination == "exited"
    && (spec.sandboxRequired ==> f.enforced) && ArtifactsCover(f.artifacts, spec.artifactPaths)
  }

  function FinishTx(db: Db, f: Finish, now: int): (Db, Response) {
    if f.status == Running || f.status == Interrupted || Blank(f.termination) then (db, Refused(Invalid))
    else if f.run !in db.runs then (db, Refused(NotFound))
    else
      var run := db.runs[f.run];
      if run.status != Running then (db, Refused(Conflict))
      else if run.spec !in db.specs then (db, Refused(NotFound))
      else
        var spec := db.specs[run.spec];
        if (f.status == Succeeded && !SuccessSupported(spec, f)) || Blank(f.backend)
           || !ArtifactsWithinLimits(f.artifacts) then (db, Refused(Invalid))
        else if !DistinctPaths(f.artifacts) then (db, Refused(Database))
        else
          var receipt := Receipt(db.nextId, f.run, f, now);
          var finished := run.(status := f.status, finishedAt := Some(now));
          var claimId := if f.status == Succeeded then Some(db.nextId + 1) else None;
          var claims := if claimId.None? then db.claims
            else db.claims[claimId.value := Claim(claimId.value, spec.session, Verified, spec.successClaim, {}, {receipt.id}, None, now)];
          var after := db.(runs := db.runs[f.run := finished], receipts := db.receipts[receipt.id := receipt],
                           claims := claims, nextId := db.nextId + 2);
          var outcome := RunFinished(finished, receipt, claimId);
          (Append(after, FinishKey(f.run), f.run, FinishRun(f), outcome, now), Done(outcome, false))
  }

  /** Interrupts one run that has been going since before the cutoff. */
  function InterruptOne(db: Db, id: Id, staleAfter: nat, cutoff: int, now: int): Db {
    if id in db.runs && db.runs[id].status == Running && db.runs[id].startedAt < cutoff then
      var run := db.runs[id].(status := Interrupted, finishedAt := Some(now));
      Append(db.(runs := db.runs[id := run]), InterruptKey(id), id, InterruptRun(staleAfter), RunInterrupted(run), now)
    else db
  }

  /** The stale runs with an ID below `n`, in the order they were started. */
  function InterruptBelow(db: Db, n: nat, staleAfter: nat, cutoff: int, now: int): Db {
    if n == 0 then db
    else InterruptOne(InterruptBelow(db, n - 1, staleAfter, cutoff, now), n - 1, staleAfter, cutoff, now)
  }

  function ReconcileTx(db: Db, staleAfter: nat, now: int): (Db, bool) {
    if 1 <= staleAfter <= 31_536_000 then (InterruptBelow(db, db.nextId, staleAfter, now - staleAfter * 1000, now), true)
    else (db, false)
  }

  // ---------------------------------------------------------------- whole runs

  /** Everything that can happen to the store. Opening and closing sessions and registering
      specifications stand for transactions whose own events no audit replays. */
  datatype Command =
    | Call(key: Key, request: Request, seen: Sighting)
    | Start(spec: Id)
    | FinishWith(finish: Finish)
    | Reconcile(staleAfter: nat)
    | OpenSession(project: Id)
    | CloseSession(session: Id)
    | RegisterSpec(session: Id, expectedExit: int, artifactPaths: seq<string>, sandboxRequired: bool, successClaim: string)

  datatype Timed = Timed(command: Command, now: int)

  /** Opening and closing sessions and registering specifications. */
  function AdminTx(db: Db, c: Command): Db {
    match c
    case OpenSession(project) => db.(sessions := db.sessions[db.nextId := Session(project, true)], nextId := db.nextId + 1)
    case CloseSession(s) => if s in db.sessions then db.(sessions := db.sessions[s := db.sessions[s].(open := false)]) else db
    case RegisterSpec(s, e, paths, sandbox, claim) =>
      if SessionError(db, s).Some? || !DistinctTexts(paths) then db
      else db.(specs := db.specs[db.nextId := Spec(db.nextId, s, e, paths, sandbox, claim)], nextId := db.nextId + 1)
    case _ => db
  }

  function Apply(db: Db, c: Timed): Db {
    match c.command
    case Call(key, request, seen) => CallTx(db, key, request, c.now, seen).0
    case Start(spec) => StartTx(db, spec, c.now).0
    case FinishWith(f) => FinishTx(db, f, c.now).0
    case Reconcile(staleAfter) => ReconcileTx(db, staleAfter, c.now).0
    case _ => AdminTx(db, c.command)
  }

  /** The store after a history of commands, oldest first. */
  function After(history: seq<Timed>): Db {
    if history == [] then EMPTY else Apply(After(history[..|history| - 1]), history[|history| - 1])
  }
}
