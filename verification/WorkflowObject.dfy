/** One task's workflow stream as an object: the checks as loops, the status changed step by step. */
module WorkflowObject {
  import opened Ordering
  import opened WriteScope
  import opened WorkflowProcedure
  import opened Workflow

  // ---------------------------------------------------------------- loops over a plan and its evidence

  /** What is missing for the next stage, gathered in the order the checks are made. */
  method CollectMissing(w: World, task: Task, s: Status) returns (gaps: seq<Gap>)
    ensures gaps == Missing(w, task, s)
  {
    hide DefinitionsFor, StepSettled, StageGaps;
    if s.plan.None? { return [PlanMissing]; }
    var p := s.plan.value;
    gaps := [];
    if p.profile.Some? && ModuleSteps(p.profile.value, p.version).None? {
      gaps := gaps + [TemplateUnsupported];
    }
    ghost var first := gaps;
    var defs := Definitions(p);
    for i := 0 to |defs|
      invariant gaps == first + StepGaps(defs, s, i)
    {
      if defs[i].stage == s.stage && !StepSettled(s.steps, defs[i].step) {
        gaps := gaps + [StepMissing(defs[i].step)];
      }
    }
    var rest := CollectStageGaps(w, task, s, p);
    gaps := gaps + rest;
  }

  method CollectStageGaps(w: World, task: Task, s: Status, p: Plan) returns (gaps: seq<Gap>)
    ensures gaps == StageGaps(w, task, s, p)
  {
    hide Blank, FindDecision, Bound, ReviewerDone;
    gaps := [];
    match s.stage
    case Intake =>
      if Blank(p.objective) { gaps := gaps + [FieldMissing(Objective)]; }
      if Blank(p.targetUser) { gaps := gaps + [FieldMissing(TargetUser)]; }
      if Blank(p.constraints) { gaps := gaps + [FieldMissing(Constraints)]; }
      if Blank(p.successMeasure) { gaps := gaps + [FieldMissing(SuccessMeasure)]; }
      if p.unknowns != [] { gaps := gaps + [UnknownsUnresolved]; }
    case Planning =>
    case Design =>
      if w.decisions == [] || w.decisions[|w.decisions| - 1].createdAt < p.createdAt {
        gaps := gaps + [AssessmentMissing];
      } else if w.decisions[|w.decisions| - 1].materialChange != p.materialChange {
        gaps := gaps + [MaterialityDiffers];
      } else if p.materialChange && w.decisions[|w.decisions| - 1].reviewer == NotRequired {
        gaps := gaps + [ReviewerDecisionMissing];
      }
    case Implementation =>
    case Verification =>
      if task.status != Finished { gaps := gaps + [ProofsIncomplete]; }
      var bound := FindBound(s.transitions);
      var decision := if bound.None? then None else FindDecision(w.decisions, bound.value);
      if decision.None? {
        gaps := gaps + [DesignDecisionMissing];
      } else if decision.value.reviewer == Delegate && !ReviewerDone(w.reports, decision.value.id) {
        gaps := gaps + [ReviewerNotReported];
      }
    case Completed =>
  }

  lemma {:induction false} BoundFirst(transitions: seq<Transition>, i: nat)
    requires i < |transitions| && transitions[i].stage == Implementation
    requires forall k :: 0 <= k < i ==> transitions[k].stage != Implementation
    ensures Bound(transitions) == transitions[i].decision
  {
    var front := transitions[..|transitions| - 1];
    if i < |front| {
      assert front[i].stage == Implementation;
      BoundFirst(front, i);
    }
  }

  /** The decision named by the first transition into implementation. */
  method FindBound(transitions: seq<Transition>) returns (bound: Option<Id>)
    ensures bound == Bound(transitions)
  {
    for i := 0 to |transitions|
      invariant forall k :: 0 <= k < i ==> transitions[k].stage != Implementation
    {
      if transitions[i].stage == Implementation {
        BoundFirst(transitions, i);
        return transitions[i].decision;
      }
    }
    return None;
  }

  /** Every prior unknown is kept or removed with one evidenced resolution. */
  method CheckUnknowns(w: World, session: Id, r: Request, known: seq<string>, notBefore: int) returns (ok: bool)
    requires r.MakePlan?
    ensures ok <==> UnknownsHandled(w, session, r, known, notBefore)
  {
    hide ResolutionFits;
    for i := 0 to |known|
      invariant forall k :: 0 <= k < i ==> UnknownHandled(w, session, r, known[k], notBefore)
    {
      if known[i] in r.unknowns { continue; }
      var unknown := known[i];
      var resolutions := Retain(r.resolutions, (x: Resolution) => x.unknown == unknown);
      assert resolutions == ResolutionsFor(r.resolutions, unknown) by { SameFilter(r.resolutions, unknown); }
      if |resolutions| != 1 || !ResolutionFits(w, session, resolutions[0].evidence, notBefore) {
        assert !UnknownHandled(w, session, r, known[i], notBefore);
        return false;
      }
    }
    return true;
  }

  lemma {:induction false} SameFilter(resolutions: seq<Resolution>, unknown: string)
    ensures ResolutionsFor(resolutions, unknown) == Filter(resolutions, (x: Resolution) => x.unknown == unknown)
  {
  }

  method CheckArtifacts(w: World, session: Id, ids: seq<Id>, notBefore: int) returns (ok: bool)
    ensures ok <==> AllFit(w, session, ids, notBefore)
  {
    hide EvidenceFits;
    for i := 0 to |ids|
      invariant forall k :: 0 <= k < i ==> EvidenceFits(w, session, ids[k], WorkspaceFile, Direct, notBefore)
    {
      if !EvidenceFits(w, session, ids[i], WorkspaceFile, Direct, notBefore) { return false; }
    }
    return true;
  }

  method CheckStepEvidence(w: World, log: seq<Event>, session: Id, r: Request, notBefore: int) returns (ok: bool)
    requires r.Record?
    ensures ok <==> StepEvidenceFits(w, log, session, r, notBefore)
  {
    hide EvidenceFits, AfterRework;
    for i := 0 to |r.evidence|
      invariant forall k :: 0 <= k < i ==>
        EvidenceFits(w, session, r.evidence[k], WorkspaceFile, Direct, notBefore) && (r.disposition == Done ==> AfterRework(w, log, r.evidence[k]))
    {
      if !EvidenceFits(w, session, r.evidence[i], WorkspaceFile, Direct, notBefore) { return false; }
      if r.disposition == Done && !AfterRework(w, log, r.evidence[i]) { return false; }
    }
    return true;
  }

  // ---------------------------------------------------------------- the object

  class Stream {
    var log: seq<Event>

    constructor ()
      ensures log == After([])
    {
      log := [];
    }

    /** What a request under a used key gets. */
    function DuplicateResult(key: string, r: Request): Option<Response>
      reads this
    {
      match Lookup(log, key)
      case None => None
      case Some(e) => Some(if e.request == r then Ok(e.status, true) else Refused(Conflict))
    }

    method ReadBack(w: World, task: Task) returns (s: Status)
      ensures s == ReadStatus(w, task, log)
    {
      hide Missing;
      s := if log == [] then START else log[|log| - 1].status;
      var gaps := CollectMissing(w, task, s);
      s := s.(missing := gaps);
    }

    /** Works out what is missing and commits the status as the event's result. */
    method CommitStatus(w: World, task: Task, key: string, r: Request, changed: Status) returns (response: Response)
      modifies this
      ensures var s := Refreshed(w, task, changed);
        response == Ok(s, false) && log == old(log) + [Event(key, r, s, w.sequence)]
    {
      hide Missing;
      var gaps := CollectMissing(w, task, changed);
      var s := changed.(missing := gaps);
      log := log + [Event(key, r, s, w.sequence)];
      return Ok(s, false);
    }

    method PlanWorkflow(w: World, key: string, r: Request, elsewhere: bool, now: int) returns (response: Response)
      requires r.MakePlan?
      modifies this
      ensures (log, response) == Submit(old(log), w, key, r, elsewhere, now)
    {
      hide WellFormed, Lookup, Missing, ReadStatus, UnknownsHandled, ResolutionsNameRemoved, Relaxes, EvidenceFits;
      if !WellFormed(key, r) { return Refused(Invalid); }
      if elsewhere { return Refused(Conflict); }
      var retry := DuplicateResult(key, r);
      if retry.Some? { return retry.value; }
      if TaskError(w).Some? { return Refused(TaskError(w).value); }
      if |log| >= MAX_EVENTS { return Refused(Invalid); }
      var session := w.task.value.session;
      var read := ReadBack(w, w.task.value);
      var previous := read.plan;
      var known := if previous.Some? then previous.value.unknowns else [];
      var since := if previous.Some? then previous.value.createdAt else 0;
      var handled := CheckUnknowns(w, session, r, known, since);
      if !handled { return Refused(Conflict); }
      if !ResolutionsNameRemoved(r, known) { return Refused(Invalid); }
      if previous.Some? && Relaxes(previous.value, r) {
        if r.scopeEvidence.None? { return Refused(Conflict); }
        if !EvidenceFits(w, session, r.scopeEvidence.value, UserStatement, Reported, since) { return Refused(Conflict); }
      } else if r.scopeEvidence.Some? {
        return Refused(Invalid);
      }
      var s := Status(Intake, Some(NewPlan(r, w.sequence, now)), [], [], []);
      response := CommitStatus(w, w.task.value, key, r, s);
    }

    method AdvanceWorkflow(w: World, key: string, r: Request, elsewhere: bool, now: int) returns (response: Response)
      requires r.Advance?
      modifies this
      ensures (log, response) == Submit(old(log), w, key, r, elsewhere, now)
    {
      hide WellFormed, Lookup, Missing, ReadStatus, EvidenceFits, AllFit;
      if !WellFormed(key, r) { return Refused(Invalid); }
      if elsewhere { return Refused(Conflict); }
      var retry := DuplicateResult(key, r);
      if retry.Some? { return retry.value; }
      if w.task.None? { return Refused(NotFound); }
      var task := w.task.value;
      var s := ReadBack(w, task);
      if task.status == Cancelled { return Refused(Conflict); }
      if task.status == Finished {
        if s.stage != Verification { return Refused(Conflict); }
      } else if !task.sessionOpen {
        return Refused(Conflict);
      }
      if s.stage != r.expected || s.plan.None? { return Refused(Conflict); }
      var gaps := CollectMissing(w, task, s);
      if gaps != [] { return Refused(Conflict); }
      var next := Next(s.stage);
      if next.None? { return Refused(Conflict); }
      var since := s.plan.value.createdAt;
      if TakesArtifacts(s.stage) {
        if r.artifacts == [] { return Refused(Conflict); }
        var fit := CheckArtifacts(w, task.session, r.artifacts, since);
        if !fit { return Refused(Conflict); }
      } else if r.artifacts != [] {
        return Refused(Invalid);
      }
      if s.stage == Design && s.plan.value.userDecision {
        if r.decisionEvidence.None? { return Refused(Conflict); }
        if !EvidenceFits(w, task.session, r.decisionEvidence.value, UserStatement, Reported, since) { return Refused(Conflict); }
      } else if r.decisionEvidence.Some? {
        return Refused(Invalid);
      }
      if |log| >= MAX_EVENTS { return Refused(Invalid); }
      var decision: Option<Id> := None;
      if s.stage == Design && w.decisions != [] { decision := Some(w.decisions[|w.decisions| - 1].id); }
      s := s.(stage := next.value);
      s := s.(transitions := s.transitions + [Transition(next.value, r.artifacts, r.decisionEvidence, decision)]);
      response := CommitStatus(w, task, key, r, s);
    }

    method RecordWorkflowStep(w: World, key: string, r: Request, elsewhere: bool, now: int) returns (response: Response)
      requires r.Record?
      modifies this
      ensures (log, response) == Submit(old(log), w, key, r, elsewhere, now)
    {
      hide WellFormed, Lookup, Missing, ReadStatus, FindDefinition, Definitions, DispositionShape, StepEvidenceFits;
      if !WellFormed(key, r) { return Refused(Invalid); }
      if elsewhere { return Refused(Conflict); }
      var retry := DuplicateResult(key, r);
      if retry.Some? { return retry.value; }
      if TaskError(w).Some? { return Refused(TaskError(w).value); }
      var task := w.task.value;
      var s := ReadBack(w, task);
      if s.plan.None? { return Refused(Conflict); }
      var definition := FindDefinition(Definitions(s.plan.value), r.step);
      if definition.None? { return Refused(Invalid); }
      var d := definition.value;
      if r.disposition == ReworkRequired {
        if Index(d.stage) > Index(s.stage) || s.stage == Completed { return Refused(Conflict); }
      } else if d.stage != s.stage {
        return Refused(Conflict);
      }
      if !DispositionShape(r, d) { return Refused(Invalid); }
      var fit := CheckStepEvidence(w, log, task.session, r, s.plan.value.createdAt);
      if !fit { return Refused(Conflict); }
      if |log| >= MAX_EVENTS { return Refused(Invalid); }
      var changed := ChangeSteps(s, r, d);
      response := CommitStatus(w, task, key, r, changed);
    }

    /** Reopens the stage and forgets what came after, or replaces the step's record; then records the step. */
    method ChangeSteps(before: Status, r: Request, d: Definition) returns (s: Status)
      requires r.Record?
      ensures s == Recorded(before, r, d)
    {
      s := before;
      if r.disposition == ReworkRequired {
        s := s.(stage := d.stage);
        var transitions := Retain(s.transitions, (t: Transition) => Index(t.stage) <= Index(d.stage));
        var steps := Retain(s.steps, (x: StepStatus) => Index(x.stage) < Index(d.stage));
        s := s.(transitions := transitions, steps := steps);
      } else {
        var steps := Retain(s.steps, (x: StepStatus) => x.step != r.step);
        s := s.(steps := steps);
      }
      s := s.(steps := s.steps + [StepStatus(r.step, d.stage, r.disposition, r.evidence, r.reason)]);
    }
  }
}
