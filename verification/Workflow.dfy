/** A task's workflow as values: planning, advancing, recording steps, and what is missing for the next stage. */
module Workflow {
  import opened Ordering
  import opened WriteScope
  import opened WorkflowProcedure

  const MAX_EVENTS := 128

  // ---------------------------------------------------------------- the rest of the store, as seen here

  datatype TaskStatus = Active | Finished | Cancelled

  datatype Task = Task(status: TaskStatus, session: Id, sessionOpen: bool)

  datatype EvidenceKind = WorkspaceFile | UserStatement | OtherKind

  datatype Grade = Direct | Reported | OtherGrade

  /** `sequence` is the position in the log of the event that registered the evidence. */
  datatype Evidence = Evidence(session: Id, kind: EvidenceKind, grade: Grade, createdAt: int, sequence: Option<nat>)

  datatype Disposition = Delegate | Skip | NotRequired

  datatype Decision = Decision(id: Id, materialChange: bool, reviewer: Disposition, createdAt: int)

  datatype Report = Report(decision: Id, byReviewer: bool, completed: bool)

  /** `bound` are the evidence rows that another task's workflow of the project already cites;
      `sequence` is the position the next event will take. */
  datatype World = World(
    task: Option<Task>, evidence: map<Id, Evidence>, bound: set<Id>,
    decisions: seq<Decision>, reports: seq<Report>, sequence: nat)

  /** What time leaves alone: a finished task, its session, evidence, and delegation history. */
  ghost predicate Later(w: World, v: World) {
    && (w.task.Some? ==> v.task.Some? && v.task.value.session == w.task.value.session)
    && (w.task.Some? && w.task.value.status != Active ==> v.task.Some? && v.task.value.status == w.task.value.status)
    && (forall e :: e in w.evidence ==> e in v.evidence && v.evidence[e] == w.evidence[e])
    && w.decisions <= v.decisions && w.reports <= v.reports && w.sequence <= v.sequence
  }

  ghost predicate DecisionsDistinct(w: World) {
    forall i, j :: 0 <= i < j < |w.decisions| ==> w.decisions[i].id != w.decisions[j].id
  }

  // ---------------------------------------------------------------- rows

  datatype Resolution = Resolution(unknown: string, evidence: Id)

  datatype Plan = Plan(
    revision: Id, createdAt: int, objective: string, targetUser: string, constraints: string, successMeasure: string,
    unknowns: seq<string>, resolutions: seq<Resolution>, scopeEvidence: Option<Id>,
    userDecision: bool, materialChange: bool, profile: Option<Profile>, depth: Option<Depth>, version: Option<nat>)

  datatype Transition = Transition(stage: Stage, artifacts: seq<Id>, userDecision: Option<Id>, decision: Option<Id>)

  datatype StepDisposition = Done | Skipped | ReworkRequired

  datatype StepStatus = StepStatus(step: StepId, stage: Stage, disposition: StepDisposition, evidence: seq<Id>, reason: Option<string>)

  datatype Field = Objective | TargetUser | Constraints | SuccessMeasure

  datatype Gap =
    | PlanMissing
    | TemplateUnsupported
    | StepMissing(step: StepId)
    | FieldMissing(field: Field)
    | UnknownsUnresolved
    | AssessmentMissing
    | MaterialityDiffers
    | ReviewerDecisionMissing
    | ProofsIncomplete
    | ReviewerNotReported
    | DesignDecisionMissing

  datatype Status = Status(stage: Stage, plan: Option<Plan>, transitions: seq<Transition>, steps: seq<StepStatus>, missing: seq<Gap>)

  const START := Status(Intake, None, [], [], [])

  datatype Request =
    | MakePlan(objective: string, targetUser: string, constraints: string, successMeasure: string,
               unknowns: seq<string>, resolutions: seq<Resolution>, scopeEvidence: Option<Id>,
               userDecision: bool, materialChange: bool, profile: Option<Profile>, depth: Option<Depth>)
    | Advance(expected: Stage, artifacts: seq<Id>, decisionEvidence: Option<Id>)
    | Record(step: StepId, disposition: StepDisposition, evidence: seq<Id>, reason: Option<string>)

  datatype Event = Event(key: string, request: Request, status: Status, sequence: nat)

  datatype Error = Invalid | Conflict | NotFound

  datatype Response = Ok(status: Status, duplicate: bool) | Refused(error: Error)

  // ---------------------------------------------------------------- request shape

  predicate DistinctIds(ids: seq<Id>) {
    forall i, j :: 0 <= i < j < |ids| ==> ids[i] != ids[j]
  }

  predicate UnknownShape(u: string) {
    !Blank(u) && Bytes(u) <= 500
  }

  predicate WellFormed(key: string, r: Request) {
    !Blank(key) && match r
      case MakePlan(objective, targetUser, constraints, successMeasure, unknowns, resolutions, _, _, _, profile, depth) =>
        && (profile.Some? <==> depth.Some?)
        && Bytes(objective) <= 2000 && Bytes(targetUser) <= 2000 && Bytes(constraints) <= 2000 && Bytes(successMeasure) <= 2000
        && |unknowns| <= 16 && (forall i :: 0 <= i < |unknowns| ==> UnknownShape(unknowns[i]))
        && |resolutions| <= 16
      case Advance(_, artifacts, _) => |artifacts| <= 8 && DistinctIds(artifacts)
      case Record(step, _, evidence, reason) =>
        && (step.Unlisted? ==> !Blank(step.name)) && |evidence| <= 8 && DistinctIds(evidence)
        && (reason.Some? ==> Bytes(reason.value) <= 500)
  }

  // ---------------------------------------------------------------- reading the log

  function Definitions(p: Plan): seq<Definition> {
    DefinitionsFor(p.profile, p.depth, p.version)
  }

  predicate StepSettled(steps: seq<StepStatus>, step: StepId) {
    exists i :: 0 <= i < |steps| && steps[i].step == step && (steps[i].disposition == Done || steps[i].disposition == Skipped)
  }

  /** The first `n` definitions whose stage is current and whose step is not settled. */
  function StepGaps(defs: seq<Definition>, s: Status, n: nat): seq<Gap>
    requires n <= |defs|
  {
    if n == 0 then []
    else
      var front, d := StepGaps(defs, s, n - 1), defs[n - 1];
      if d.stage == s.stage && !StepSettled(s.steps, d.step) then front + [StepMissing(d.step)] else front
  }

  function FieldGap(f: Field, text: string): seq<Gap> {
    if Blank(text) then [FieldMissing(f)] else []
  }

  function IntakeGaps(p: Plan): seq<Gap> {
    FieldGap(Objective, p.objective) + FieldGap(TargetUser, p.targetUser) + FieldGap(Constraints, p.constraints)
    + FieldGap(SuccessMeasure, p.successMeasure) + (if p.unknowns != [] then [UnknownsUnresolved] else [])
  }

  function DesignGaps(w: World, p: Plan): seq<Gap> {
    if w.decisions == [] || w.decisions[|w.decisions| - 1].createdAt < p.createdAt then [AssessmentMissing]
    else if w.decisions[|w.decisions| - 1].materialChange != p.materialChange then [MaterialityDiffers]
    else if p.materialChange && w.decisions[|w.decisions| - 1].reviewer == NotRequired then [ReviewerDecisionMissing]
    else []
  }

  function FindDecision(decisions: seq<Decision>, id: Id): Option<Decision> {
    if decisions == [] then None
    else
      var earlier := FindDecision(decisions[..|decisions| - 1], id);
      if earlier.Some? then earlier
      else if decisions[|decisions| - 1].id == id then Some(decisions[|decisions| - 1]) else None
  }

  /** The decision the transition to implementation was bound to. */
  function Bound(transitions: seq<Transition>): Option<Id> {
    if transitions == [] then None
    else
      var front, last := transitions[..|transitions| - 1], transitions[|transitions| - 1];
      if exists i :: 0 <= i < |front| && front[i].stage == Implementation then Bound(front)
      else if last.stage == Implementation then last.decision else None
  }

  predicate ReviewerDone(reports: seq<Report>, decision: Id) {
    exists i :: 0 <= i < |reports| && reports[i].decision == decision && reports[i].byReviewer && reports[i].completed
  }

  function VerificationGaps(w: World, task: Task, transitions: seq<Transition>): seq<Gap> {
    (if task.status != Finished then [ProofsIncomplete] else [])
    + var bound := Bound(transitions);
      var decision := if bound.None? then None else FindDecision(w.decisions, bound.value);
      if decision.None? then [DesignDecisionMissing]
      else if decision.value.reviewer == Delegate && !ReviewerDone(w.reports, decision.value.id) then [ReviewerNotReported]
      else []
  }

  function StageGaps(w: World, task: Task, s: Status, p: Plan): seq<Gap> {
    match s.stage
    case Intake => IntakeGaps(p)
    case Design => DesignGaps(w, p)
    case Verification => VerificationGaps(w, task, s.transitions)
    case _ => []
  }

  function Missing(w: World, task: Task, s: Status): seq<Gap> {
    if s.plan.None? then [PlanMissing]
    else
      var p := s.plan.value;
      (if p.profile.Some? && ModuleSteps(p.profile.value, p.version).None? then [TemplateUnsupported] else [])
      + StepGaps(Definitions(p), s, |Definitions(p)|) + StageGaps(w, task, s, p)
  }

  function Refreshed(w: World, task: Task, s: Status): Status {
    s.(missing := Missing(w, task, s))
  }

  /** The status the last event left, with what is missing now. */
  function ReadStatus(w: World, task: Task, log: seq<Event>): Status {
    Refreshed(w, task, if log == [] then START else log[|log| - 1].status)
  }

  // ---------------------------------------------------------------- evidence

  predicate EvidenceIs(w: World, session: Id, id: Id, kind: EvidenceKind, grade: Grade, notBefore: int) {
    && id in w.evidence && w.evidence[id].session == session && w.evidence[id].kind == kind
    && w.evidence[id].grade == grade && w.evidence[id].createdAt >= notBefore
  }

  predicate EvidenceFits(w: World, session: Id, id: Id, kind: EvidenceKind, grade: Grade, notBefore: int) {
    EvidenceIs(w, session, id, kind, grade, notBefore) && id !in w.bound
  }

  /** A resolution cites a direct file or a reported user statement of the task's session. */
  predicate Resolves(w: World, session: Id, id: Id, notBefore: int) {
    EvidenceIs(w, session, id, WorkspaceFile, Direct, notBefore) || EvidenceIs(w, session, id, UserStatement, Reported, notBefore)
  }

  predicate ResolutionFits(w: World, session: Id, id: Id, notBefore: int) {
    Resolves(w, session, id, notBefore) && id !in w.bound
  }

  predicate IsRework(e: Event) {
    e.request.Record? && e.request.disposition == ReworkRequired
  }

  /** The position of the last rework of the stream. */
  function LatestRework(log: seq<Event>): Option<nat> {
    if log == [] then None
    else
      var earlier := LatestRework(log[..|log| - 1]);
      var e := log[|log| - 1];
      if IsRework(e) && (earlier.None? || e.sequence > earlier.value) then Some(e.sequence) else earlier
  }

  predicate AfterRework(w: World, log: seq<Event>, id: Id) {
    var latest := LatestRework(log);
    latest.None? || (id in w.evidence && w.evidence[id].sequence.Some? && w.evidence[id].sequence.value > latest.value)
  }

  // ---------------------------------------------------------------- planning

  function TaskError(w: World): Option<Error> {
    if w.task.None? then Some(NotFound)
    else if w.task.value.status != Active || !w.task.value.sessionOpen then Some(Conflict)
    else None
  }

  function ResolutionsFor(resolutions: seq<Resolution>, unknown: string): seq<Resolution> {
    Filter(resolutions, (r: Resolution) => r.unknown == unknown)
  }

  /** The unknown is kept, or one resolution with fitting evidence removes it. */
  predicate UnknownHandled(w: World, session: Id, r: Request, unknown: string, notBefore: int)
    requires r.MakePlan?
  {
    unknown in r.unknowns
    || (|ResolutionsFor(r.resolutions, unknown)| == 1
        && ResolutionFits(w, session, ResolutionsFor(r.resolutions, unknown)[0].evidence, notBefore))
  }

  predicate UnknownsHandled(w: World, session: Id, r: Request, known: seq<string>, notBefore: int)
    requires r.MakePlan?
  {
    forall i :: 0 <= i < |known| ==> UnknownHandled(w, session, r, known[i], notBefore)
  }

  predicate ResolutionsNameRemoved(r: Request, known: seq<string>)
    requires r.MakePlan?
  {
    forall i :: 0 <= i < |r.resolutions| ==> r.resolutions[i].unknown in known && r.resolutions[i].unknown !in r.unknowns
  }

  function ProfileOf(r: Request): Option<Profile>
    requires r.MakePlan?
  {
    if r.profile.None? && r.depth.None? then Some(General) else r.profile
  }

  function DepthOf(r: Request): Option<Depth>
    requires r.MakePlan?
  {
    if r.profile.None? && r.depth.None? then Some(if r.materialChange then Standard else Light) else r.depth
  }

  predicate Shallower(a: Option<Depth>, b: Option<Depth>) {
    b.Some? && (a.None? || DepthRank(a.value) < DepthRank(b.value))
  }

  /** The request asks for less deciding, reviewing or procedure than the plan, or for another profile. */
  predicate Relaxes(p: Plan, r: Request)
    requires r.MakePlan?
  {
    || (p.userDecision && !r.userDecision) || (p.materialChange && !r.materialChange)
    || p.profile != ProfileOf(r) || (p.profile.Some? && ProfileOf(r).None?)
    || Shallower(DepthOf(r), p.depth)
  }

  function PlanError(w: World, log: seq<Event>, r: Request): Option<Error>
    requires r.MakePlan?
  {
    if TaskError(w).Some? then TaskError(w)
    else if |log| >= MAX_EVENTS then Some(Invalid)
    else
      var session := w.task.value.session;
      var previous := ReadStatus(w, w.task.value, log).plan;
      var known := if previous.Some? then previous.value.unknowns else [];
      var since := if previous.Some? then previous.value.createdAt else 0;
      if !UnknownsHandled(w, session, r, known, since) then Some(Conflict)
      else if !ResolutionsNameRemoved(r, known) then Some(Invalid)
      else if previous.Some? && Relaxes(previous.value, r) then
        if r.scopeEvidence.None? || !EvidenceFits(w, session, r.scopeEvidence.value, UserStatement, Reported, since) then Some(Conflict) else None
      else if r.scopeEvidence.Some? then Some(Invalid)
      else None
  }

  function NewPlan(r: Request, revision: Id, now: int): Plan
    requires r.MakePlan?
  {
    Plan(revision, now, r.objective, r.targetUser, r.constraints, r.successMeasure, r.unknowns, r.resolutions, r.scopeEvidence,
         r.userDecision, r.materialChange, ProfileOf(r), DepthOf(r),
         if ProfileOf(r).Some? then Some(NewVersion(ProfileOf(r).value)) else None)
  }

  // ---------------------------------------------------------------- advancing

  function Next(s: Stage): Option<Stage> {
    match s
    case Intake => Some(Planning)
    case Planning => Some(Design)
    case Design => Some(Implementation)
    case Implementation => Some(Verification)
    case Verification => Some(Completed)
    case Completed => None
  }

  predicate TakesArtifacts(s: Stage) {
    s == Planning || s == Design || s == Implementation
  }

  predicate AllFit(w: World, session: Id, ids: seq<Id>, notBefore: int) {
    forall i :: 0 <= i < |ids| ==> EvidenceFits(w, session, ids[i], WorkspaceFile, Direct, notBefore)
  }

  function AdvanceError(w: World, log: seq<Event>, r: Request): Option<Error>
    requires r.Advance?
  {
    if w.task.None? then Some(NotFound)
    else
      var task := w.task.value;
      var s := ReadStatus(w, task, log);
      if task.status == Cancelled then Some(Conflict)
      else if task.status == Finished && s.stage != Verification then Some(Conflict)
      else if task.status == Active && !task.sessionOpen then Some(Conflict)
      else if s.stage != r.expected || s.plan.None? || Missing(w, task, s) != [] || Next(s.stage).None? then Some(Conflict)
      else
        var since := s.plan.value.createdAt;
        if TakesArtifacts(s.stage) && (r.artifacts == [] || !AllFit(w, task.session, r.artifacts, since)) then Some(Conflict)
        else if !TakesArtifacts(s.stage) && r.artifacts != [] then Some(Invalid)
        else if s.stage == Design && s.plan.value.userDecision
             && (r.decisionEvidence.None? || !EvidenceFits(w, task.session, r.decisionEvidence.value, UserStatement, Reported, since)) then Some(Conflict)
        else if !(s.stage == Design && s.plan.value.userDecision) && r.decisionEvidence.Some? then Some(Invalid)
        else if |log| >= MAX_EVENTS then Some(Invalid)
        else None
  }

  function Advanced(w: World, s: Status, r: Request): Status
    requires r.Advance? && Next(s.stage).Some?
  {
    var decision := if s.stage == Design && w.decisions != [] then Some(w.decisions[|w.decisions| - 1].id) else None;
    s.(stage := Next(s.stage).value,
       transitions := s.transitions + [Transition(Next(s.stage).value, r.artifacts, r.decisionEvidence, decision)])
  }

  // ---------------------------------------------------------------- recording steps

  function FindDefinition(defs: seq<Definition>, step: StepId): Option<Definition> {
    if defs == [] then None
    else
      var earlier := FindDefinition(defs[..|defs| - 1], step);
      if earlier.Some? then earlier
      else if defs[|defs| - 1].step == step then Some(defs[|defs| - 1]) else None
  }

  predicate Reasoned(r: Request)
    requires r.Record?
  {
    r.reason.Some? && !Blank(r.reason.value)
  }

  /** The evidence and reason fit the disposition. */
  predicate DispositionShape(r: Request, d: Definition)
    requires r.Record?
  {
    match r.disposition
    case Done => r.evidence != [] && r.reason.None?
    case Skipped => d.skippable && r.evidence == [] && Reasoned(r)
    case ReworkRequired => Reasoned(r)
  }

  predicate StepEvidenceFits(w: World, log: seq<Event>, session: Id, r: Request, notBefore: int)
    requires r.Record?
  {
    forall i :: 0 <= i < |r.evidence| ==>
      EvidenceFits(w, session, r.evidence[i], WorkspaceFile, Direct, notBefore) && (r.disposition == Done ==> AfterRework(w, log, r.evidence[i]))
  }

  function RecordError(w: World, log: seq<Event>, r: Request): Option<Error>
    requires r.Record?
  {
    if TaskError(w).Some? then TaskError(w)
    else
      var s := ReadStatus(w, w.task.value, log);
      if s.plan.None? then Some(Conflict)
      else
        var d := FindDefinition(Definitions(s.plan.value), r.step);
        if d.None? then Some(Invalid)
        else if r.disposition == ReworkRequired && (Index(d.value.stage) > Index(s.stage) || s.stage == Completed) then Some(Conflict)
        else if r.disposition != ReworkRequired && d.value.stage != s.stage then Some(Conflict)
        else if !DispositionShape(r, d.value) then Some(Invalid)
        else if !StepEvidenceFits(w, log, w.task.value.session, r, s.plan.value.createdAt) then Some(Conflict)
        else if |log| >= MAX_EVENTS then Some(Invalid)
        else None
  }

  function Recorded(s: Status, r: Request, d: Definition): Status
    requires r.Record?
  {
    var entry := StepStatus(r.step, d.stage, r.disposition, r.evidence, r.reason);
    if r.disposition == ReworkRequired then
      s.(stage := d.stage,
         transitions := Filter(s.transitions, (t: Transition) => Index(t.stage) <= Index(d.stage)),
         steps := Filter(s.steps, (x: StepStatus) => Index(x.stage) < Index(d.stage)) + [entry])
    else
      s.(steps := Filter(s.steps, (x: StepStatus) => x.step != r.step) + [entry])
  }

  // ---------------------------------------------------------------- transactions

  function RequestError(w: World, log: seq<Event>, r: Request): Option<Error> {
    match r
    case MakePlan(_, _, _, _, _, _, _, _, _, _, _) => PlanError(w, log, r)
    case Advance(_, _, _) => AdvanceError(w, log, r)
    case Record(_, _, _, _) => RecordError(w, log, r)
  }

  /** The status an accepted request leaves, before what is missing is worked out again. */
  function Outcome(w: World, log: seq<Event>, r: Request, now: int): Status
    requires RequestError(w, log, r).None?
  {
    var s := ReadStatus(w, w.task.value, log);
    match r
    case MakePlan(_, _, _, _, _, _, _, _, _, _, _) => Status(Intake, Some(NewPlan(r, w.sequence, now)), [], [], [])
    case Advance(_, _, _) => Advanced(w, s, r)
    case Record(step, _, _, _) => Recorded(s, r, FindDefinition(Definitions(s.plan.value), step).value)
  }

  function Lookup(log: seq<Event>, key: string): Option<Event> {
    if log == [] then None
    else
      var earlier := Lookup(log[..|log| - 1], key);
      if earlier.Some? then earlier else if log[|log| - 1].key == key then Some(log[|log| - 1]) else None
  }

  /** A keyed request; `elsewhere` says an event of another stream or kind holds the key. */
  function Submit(log: seq<Event>, w: World, key: string, r: Request, elsewhere: bool, now: int): (seq<Event>, Response) {
    if !WellFormed(key, r) then (log, Refused(Invalid))
    else if elsewhere then (log, Refused(Conflict))
    else match Lookup(log, key)
      case Some(e) => (log, if e.request == r then Ok(e.status, true) else Refused(Conflict))
      case None =>
        if RequestError(w, log, r).Some? then (log, Refused(RequestError(w, log, r).value))
        else
          var s := Refreshed(w, w.task.value, Outcome(w, log, r, now));
          (log + [Event(key, r, s, w.sequence)], Ok(s, false))
  }

  datatype Step = Step(world: World, key: string, request: Request, elsewhere: bool, now: int)

  function After(history: seq<Step>): seq<Event> {
    if history == [] then []
    else
      var c := history[|history| - 1];
      Submit(After(history[..|history| - 1]), c.world, c.key, c.request, c.elsewhere, c.now).0
  }

  /** The world only moves on, up to `now`. */
  ghost predicate Flows(history: seq<Step>, now: World) {
    && DecisionsDistinct(now) && (forall i :: 0 <= i < |history| ==> DecisionsDistinct(history[i].world))
    && (forall i, j :: 0 <= i < j < |history| ==> Later(history[i].world, history[j].world))
    && forall i :: 0 <= i < |history| ==> Later(history[i].world, now)
  }
}
