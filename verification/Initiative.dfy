/** Initiatives as values: what the three writers record, how a stream is replayed,
    and when an initiative is ready to claim. */
module Initiative {
  import opened Ordering
  import opened WriteScope

  const MAX_EVENTS := 512

  // ---------------------------------------------------------------- the rest of the store, as seen here

  datatype Session = Session(project: Id, open: bool)

  datatype EvidenceKind = WorkspaceFile | UserStatement | OtherKind

  datatype Grade = Direct | Reported | OtherGrade

  datatype Evidence = Evidence(project: Id, kind: EvidenceKind, grade: Grade, createdAt: int)

  /** `proofsCurrent` is the verdict of proof validation, `workflowComplete` the stage of its workflow. */
  datatype Task = Task(
    project: Id, criteria: seq<string>, completed: bool, updatedAt: int, proofs: seq<string>,
    proofsCurrent: bool, workflowComplete: bool)

  /** `current` are the evidence rows whose file still has the recorded bytes. */
  datatype World = World(sessions: map<Id, Session>, evidence: map<Id, Evidence>, tasks: map<Id, Task>, current: set<Id>)

  /** What time leaves alone: evidence, and a task's project and criteria. */
  ghost predicate Later(w: World, v: World) {
    && (forall e :: e in w.evidence ==> e in v.evidence && v.evidence[e] == w.evidence[e])
    && (forall t :: t in w.tasks ==> t in v.tasks && v.tasks[t].project == w.tasks[t].project && v.tasks[t].criteria == w.tasks[t].criteria)
  }

  // ---------------------------------------------------------------- rows

  datatype Kind = Planning | Design | Integration | Release

  function Rank(k: Kind): nat {
    match k
    case Planning => 0
    case Design => 1
    case Integration => 2
    case Release => 3
  }

  datatype Requirement = Requirement(id: string, statement: string, criterion: string)

  datatype Plan = Plan(
    revision: Id, createdAt: int, objective: string, targetUser: string, successMeasure: string, requirements: seq<Requirement>)

  datatype Artifact = Artifact(kind: Kind, evidence: Id, createdAt: int)

  datatype Link = Link(requirement: string, task: Id)

  datatype Gap =
    | Unlinked(requirement: string)
    | Unverified(requirement: string, task: Id)
    | ArtifactMissing(kind: Kind)
    | ArtifactStale(kind: Kind)
    | DesignBeforePlanning
    | DesignAfterImplementation
    | IntegrationBeforeImplementation
    | ReleaseBeforeIntegration

  datatype Status = Status(initiative: Id, plan: Plan, artifacts: seq<Artifact>, links: seq<Link>, missing: seq<Gap>, ready: bool)

  datatype Request =
    | MakePlan(session: Id, initiative: Option<Id>, revisionEvidence: Option<Id>,
               objective: string, targetUser: string, successMeasure: string, requirements: seq<Requirement>)
    | RecordArtifact(session: Id, target: Id, kind: Kind, evidence: Id)
    | LinkTask(session: Id, target: Id, requirement: string, task: Id)

  datatype Event = Event(key: string, stream: Id, request: Request, status: Status, occurredAt: int)

  datatype Error = Invalid | Conflict | NotFound

  datatype Result<+T> = Ok(value: T) | Err(error: Error)

  // ---------------------------------------------------------------- status updates

  /** The artifacts a new one of the given kind leaves standing. */
  predicate Survives(a: Artifact, kind: Kind) {
    match kind
    case Planning => false
    case Design => a.kind == Planning
    case Integration => a.kind != Release
    case Release => true
  }

  function ApplyArtifact(s: Status, kind: Kind, evidence: Id, createdAt: int): Status {
    var kept := Filter(Filter(s.artifacts, (a: Artifact) => Survives(a, kind)), (a: Artifact) => a.kind != kind);
    s.(artifacts := kept + [Artifact(kind, evidence, createdAt)])
  }

  predicate BeforeIntegration(a: Artifact) {
    a.kind != Integration && a.kind != Release
  }

  function ApplyLink(s: Status, requirement: string, task: Id): Result<Status> {
    if Link(requirement, task) in s.links then Err(Conflict)
    else Ok(s.(links := s.links + [Link(requirement, task)], artifacts := Filter(s.artifacts, BeforeIntegration)))
  }

  // ---------------------------------------------------------------- readiness

  /** The task is completed since the plan was made, and its completion proves this requirement. */
  predicate Verified(w: World, plan: Plan, r: Requirement, task: Id) {
    && task in w.tasks
    && var t := w.tasks[task];
    && t.completed && t.updatedAt >= plan.createdAt && t.proofsCurrent && t.workflowComplete && r.criterion in t.proofs
  }

  function LinksOf(links: seq<Link>, requirement: string): seq<Link> {
    Filter(links, (l: Link) => l.requirement == requirement)
  }

  function LinkGaps(w: World, plan: Plan, r: Requirement, links: seq<Link>): seq<Gap> {
    if links == [] then []
    else
      var front, last := LinkGaps(w, plan, r, links[..|links| - 1]), links[|links| - 1];
      if Verified(w, plan, r, last.task) then front else front + [Unverified(r.id, last.task)]
  }

  /** When the linked tasks that verify a requirement were last updated. */
  function LinkTimes(w: World, plan: Plan, r: Requirement, links: seq<Link>): seq<int> {
    if links == [] then []
    else
      var front, last := LinkTimes(w, plan, r, links[..|links| - 1]), links[|links| - 1];
      if Verified(w, plan, r, last.task) then front + [w.tasks[last.task].updatedAt] else front
  }

  /** The gaps of the first `n` requirements. */
  function RequirementGaps(w: World, s: Status, n: nat): seq<Gap>
    requires n <= |s.plan.requirements|
  {
    if n == 0 then []
    else
      var r := s.plan.requirements[n - 1];
      var links := LinksOf(s.links, r.id);
      RequirementGaps(w, s, n - 1) + (if links == [] then [Unlinked(r.id)] else []) + LinkGaps(w, s.plan, r, links)
  }

  function Times(w: World, s: Status, n: nat): seq<int>
    requires n <= |s.plan.requirements|
  {
    if n == 0 then []
    else
      var r := s.plan.requirements[n - 1];
      Times(w, s, n - 1) + LinkTimes(w, s.plan, r, LinksOf(s.links, r.id))
  }

  function Greatest(times: seq<int>, floor: int): int {
    if times == [] then floor
    else
      var g := Greatest(times[..|times| - 1], floor);
      if times[|times| - 1] > g then times[|times| - 1] else g
  }

  function Least(times: seq<int>): Option<int> {
    if times == [] then None
    else
      var l := Least(times[..|times| - 1]);
      if l.None? || times[|times| - 1] < l.value then Some(times[|times| - 1]) else l
  }

  function Find(artifacts: seq<Artifact>, kind: Kind): Option<Artifact> {
    if artifacts == [] then None
    else
      var earlier := Find(artifacts[..|artifacts| - 1], kind);
      if earlier.Some? then earlier
      else if artifacts[|artifacts| - 1].kind == kind then Some(artifacts[|artifacts| - 1]) else None
  }

  function ArtifactGap(w: World, s: Status, kind: Kind): seq<Gap> {
    var a := Find(s.artifacts, kind);
    if a.None? then [ArtifactMissing(kind)] else if a.value.evidence !in w.current then [ArtifactStale(kind)] else []
  }

  function ArtifactGaps(w: World, s: Status): seq<Gap> {
    ArtifactGap(w, s, Planning) + ArtifactGap(w, s, Design) + ArtifactGap(w, s, Integration) + ArtifactGap(w, s, Release)
  }

  function OrderGaps(s: Status, latest: int, earliest: Option<int>): seq<Gap> {
    var planning, design := Find(s.artifacts, Planning), Find(s.artifacts, Design);
    var integration, release := Find(s.artifacts, Integration), Find(s.artifacts, Release);
    (if planning.Some? && design.Some? && design.value.createdAt < planning.value.createdAt then [DesignBeforePlanning] else [])
    + (if design.Some? && earliest.Some? && design.value.createdAt > earliest.value then [DesignAfterImplementation] else [])
    + (if integration.Some? && integration.value.createdAt < latest then [IntegrationBeforeImplementation] else [])
    + (if integration.Some? && release.Some? && release.value.createdAt < integration.value.createdAt then [ReleaseBeforeIntegration] else [])
  }

  function Missing(w: World, s: Status): seq<Gap> {
    var n := |s.plan.requirements|;
    var times := Times(w, s, n);
    RequirementGaps(w, s, n) + ArtifactGaps(w, s) + OrderGaps(s, Greatest(times, s.plan.createdAt), Least(times))
  }

  /** Some link of a planned requirement names no task. */
  predicate DanglingLink(w: World, s: Status) {
    exists i :: 0 <= i < |s.links| && s.links[i].task !in w.tasks
      && exists j :: 0 <= j < |s.plan.requirements| && s.plan.requirements[j].id == s.links[i].requirement
  }

  function Refresh(w: World, s: Status): Result<Status> {
    if DanglingLink(w, s) then Err(NotFound)
    else Ok(s.(missing := Missing(w, s), ready := Missing(w, s) == []))
  }

  // ---------------------------------------------------------------- replay

  function CheckEvidence(w: World, project: Id, evidence: Id, kind: EvidenceKind, grade: Grade, notBefore: int): Result<int> {
    if evidence in w.evidence && w.evidence[evidence].project == project && w.evidence[evidence].kind == kind
       && w.evidence[evidence].grade == grade && w.evidence[evidence].createdAt >= notBefore
    then Ok(w.evidence[evidence].createdAt)
    else Err(Conflict)
  }

  function FindRequirement(requirements: seq<Requirement>, id: string): Option<Requirement> {
    if requirements == [] then None
    else
      var earlier := FindRequirement(requirements[..|requirements| - 1], id);
      if earlier.Some? then earlier
      else if requirements[|requirements| - 1].id == id then Some(requirements[|requirements| - 1]) else None
  }

  /** The snapshot stored with an event is what replay arrives at. */
  predicate Agrees(snapshot: Status, s: Status) {
    snapshot.plan == s.plan && snapshot.artifacts == s.artifacts && snapshot.links == s.links
  }

  function Fresh(id: Id, plan: Plan): Status {
    Status(id, plan, [], [], [], false)
  }

  predicate PlanMatches(id: Id, r: Request, plan: Plan, occurredAt: int)
    requires r.MakePlan?
  {
    && (r.initiative.None? || r.initiative.value == id) && plan.createdAt == occurredAt
    && plan.objective == r.objective && plan.targetUser == r.targetUser
    && plan.successMeasure == r.successMeasure && plan.requirements == r.requirements
  }

  /** What one event does to the replayed status, before its snapshot is compared. */
  function Effect(w: World, project: Id, id: Id, current: Option<Status>, e: Event): Result<Status> {
    match e.request
    case MakePlan(_, _, _, _, _, _, _) =>
      if PlanMatches(id, e.request, e.status.plan, e.occurredAt) then Ok(Fresh(id, e.status.plan)) else Err(Conflict)
    case RecordArtifact(_, target, kind, evidence) =>
      if target != id || current.None? then Err(Conflict)
      else
        var time := CheckEvidence(w, project, evidence, WorkspaceFile, Direct, current.value.plan.createdAt);
        if time.Err? then Err(time.error) else Ok(ApplyArtifact(current.value, kind, evidence, time.value))
    case LinkTask(_, target, requirement, task) =>
      if target != id || current.None? then Err(Conflict)
      else
        var r := FindRequirement(current.value.plan.requirements, requirement);
        if r.None? then Err(Conflict)
        else if task !in w.tasks then Err(NotFound)
        else if w.tasks[task].project != project || r.value.criterion !in w.tasks[task].criteria then Err(Conflict)
        else ApplyLink(current.value, requirement, task)
  }

  function ReplayStep(w: World, project: Id, id: Id, current: Option<Status>, e: Event): Result<Status> {
    if e.status.initiative != id then Err(Conflict)
    else
      var next := Effect(w, project, id, current, e);
      if next.Err? then next
      else if !Agrees(e.status, next.value) then Err(Conflict)
      else next
  }

  /** Replays a stream; nothing yet before its first event. */
  function Replay(w: World, project: Id, id: Id, log: seq<Event>): Result<Option<Status>> {
    if log == [] then Ok(None)
    else
      var earlier := Replay(w, project, id, log[..|log| - 1]);
      if earlier.Err? then earlier
      else
        var next := ReplayStep(w, project, id, earlier.value, log[|log| - 1]);
        if next.Err? then Err(next.error) else Ok(Some(next.value))
  }

  function ReadStatus(w: World, project: Id, id: Id, log: seq<Event>): Result<Status> {
    var r := Replay(w, project, id, log);
    if r.Err? then Err(r.error) else if r.value.None? then Err(NotFound) else Ok(r.value.value)
  }

  // ---------------------------------------------------------------- the writers

  /** Who owns each initiative, and the log all streams share. */
  datatype Db = Db(owners: map<Id, Id>, events: seq<Event>, nextId: Id)

  function StreamOf(events: seq<Event>, id: Id): seq<Event> {
    Filter(events, (e: Event) => e.stream == id)
  }

  function Lookup(events: seq<Event>, key: string): Option<Event> {
    if events == [] then None
    else
      var earlier := Lookup(events[..|events| - 1], key);
      if earlier.Some? then earlier else if events[|events| - 1].key == key then Some(events[|events| - 1]) else None
  }

  datatype Response = Done(status: Status, duplicate: bool) | Refused(error: Error)

  predicate BoundedText(s: string) {
    !Blank(s) && Bytes(s) <= 2000
  }

  predicate RequirementShape(r: Requirement) {
    BoundedText(r.id) && BoundedText(r.statement) && BoundedText(r.criterion)
  }

  predicate PlanShape(r: Request)
    requires r.MakePlan?
  {
    && BoundedText(r.objective) && BoundedText(r.targetUser) && BoundedText(r.successMeasure)
    && 1 <= |r.requirements| <= 64
    && (forall i :: 0 <= i < |r.requirements| ==> RequirementShape(r.requirements[i]))
    && forall i, j :: 0 <= i < j < |r.requirements| ==> r.requirements[i].id != r.requirements[j].id
  }

  function SessionError(w: World, session: Id): Option<Error> {
    if session !in w.sessions then Some(NotFound) else if !w.sessions[session].open then Some(Conflict) else None
  }

  function OwnerError(db: Db, id: Id, project: Id): Option<Error> {
    if id !in db.owners then Some(NotFound) else if db.owners[id] != project then Some(Conflict) else None
  }

  /** What a writer decides: the stream, its owner, and the status it leaves. */
  datatype Verdict = Commit(stream: Id, owner: Id, status: Status, minted: nat) | Reject(error: Error)

  function Refreshed(w: World, id: Id, owner: Id, s: Status, minted: nat): Verdict {
    var r := Refresh(w, s);
    if r.Err? then Reject(r.error) else Commit(id, owner, r.value, minted)
  }

  function NewPlan(r: Request, revision: Id, now: int): Plan
    requires r.MakePlan?
  {
    Plan(revision, now, r.objective, r.targetUser, r.successMeasure, r.requirements)
  }

  function PlanTx(db: Db, w: World, r: Request, now: int): Verdict
    requires r.MakePlan?
  {
    if SessionError(w, r.session).Some? then Reject(SessionError(w, r.session).value)
    else
      var project := w.sessions[r.session].project;
      match r.initiative
      case None =>
        if r.revisionEvidence.Some? then Reject(Invalid)
        else if |StreamOf(db.events, db.nextId)| >= MAX_EVENTS then Reject(Invalid)
        else Refreshed(w, db.nextId, project, Fresh(db.nextId, NewPlan(r, db.nextId + 1, now)), 2)
      case Some(id) =>
        if OwnerError(db, id, project).Some? then Reject(OwnerError(db, id, project).value)
        else
          var previous := ReadStatus(w, project, id, StreamOf(db.events, id));
          if previous.Err? then Reject(previous.error)
          else if r.revisionEvidence.None? then Reject(Conflict)
          else if CheckEvidence(w, project, r.revisionEvidence.value, UserStatement, Reported, previous.value.plan.createdAt).Err? then Reject(Conflict)
          else if |StreamOf(db.events, id)| >= MAX_EVENTS then Reject(Invalid)
          else Refreshed(w, id, project, Fresh(id, NewPlan(r, db.nextId, now)), 1)
  }

  function ArtifactTx(db: Db, w: World, r: Request): Verdict
    requires r.RecordArtifact?
  {
    if SessionError(w, r.session).Some? then Reject(SessionError(w, r.session).value)
    else
      var project := w.sessions[r.session].project;
      if OwnerError(db, r.target, project).Some? then Reject(OwnerError(db, r.target, project).value)
      else if |StreamOf(db.events, r.target)| >= MAX_EVENTS then Reject(Invalid)
      else
        var status := ReadStatus(w, project, r.target, StreamOf(db.events, r.target));
        if status.Err? then Reject(status.error)
        else
          var time := CheckEvidence(w, project, r.evidence, WorkspaceFile, Direct, status.value.plan.createdAt);
          if time.Err? then Reject(time.error)
          else Refreshed(w, r.target, project, ApplyArtifact(status.value, r.kind, r.evidence, time.value), 0)
  }

  function LinkTx(db: Db, w: World, r: Request): Verdict
    requires r.LinkTask?
  {
    if SessionError(w, r.session).Some? then Reject(SessionError(w, r.session).value)
    else
      var project := w.sessions[r.session].project;
      if OwnerError(db, r.target, project).Some? then Reject(OwnerError(db, r.target, project).value)
      else if |StreamOf(db.events, r.target)| >= MAX_EVENTS then Reject(Invalid)
      else
        var status := ReadStatus(w, project, r.target, StreamOf(db.events, r.target));
        if status.Err? then Reject(status.error)
        else
          var requirement := FindRequirement(status.value.plan.requirements, r.requirement);
          if requirement.None? then Reject(NotFound)
          else if r.task !in w.tasks then Reject(NotFound)
          else if w.tasks[r.task].project != project then Reject(Conflict)
          else if requirement.value.criterion !in w.tasks[r.task].criteria then Reject(Conflict)
          else
            var linked := ApplyLink(status.value, r.requirement, r.task);
            if linked.Err? then Reject(linked.error) else Refreshed(w, r.target, project, linked.value, 0)
  }

  function Execute(db: Db, w: World, r: Request, now: int): Verdict {
    match r
    case MakePlan(_, _, _, _, _, _, _) => PlanTx(db, w, r, now)
    case RecordArtifact(_, _, _, _) => ArtifactTx(db, w, r)
    case LinkTask(_, _, _, _) => LinkTx(db, w, r)
  }

  function Write(db: Db, w: World, key: string, r: Request, now: int): (Db, Response) {
    if Blank(key) || (r.MakePlan? && !PlanShape(r)) then (db, Refused(Invalid))
    else match Lookup(db.events, key)
      case Some(e) => (db, if e.request == r then Done(e.status, true) else Refused(Conflict))
      case None =>
        match Execute(db, w, r, now)
        case Reject(e) => (db, Refused(e))
        case Commit(stream, owner, status, minted) =>
          (Db(db.owners[stream := owner], db.events + [Event(key, stream, r, status, now)], db.nextId + minted), Done(status, false))
  }

  datatype Step = Step(world: World, key: string, request: Request, now: int)

  function After(history: seq<Step>): Db {
    if history == [] then Db(map[], [], 0)
    else
      var last := history[|history| - 1];
      Write(After(history[..|history| - 1]), last.world, last.key, last.request, last.now).0
  }

  /** The world only moves on. */
  ghost predicate Flows(history: seq<Step>, now: World) {
    && (forall i, j :: 0 <= i < j < |history| ==> Later(history[i].world, history[j].world))
    && forall i :: 0 <= i < |history| ==> Later(history[i].world, now)
  }
}
