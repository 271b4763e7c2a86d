/** What every run of a workflow keeps: the shape of its stages and steps, justified transitions,
    evidenced removal of unknowns, and a completion nothing undoes. */
module WorkflowRuns {
  import opened Ordering
  import opened WriteScope
  import opened WorkflowProcedure
  import opened Workflow

  // ---------------------------------------------------------------- the shape of a status

  /** The stages after intake up to the current one, each once, in order. */
  ghost predicate TransitionsOk(s: Status) {
    && |s.transitions| == Index(s.stage)
    && forall i :: 0 <= i < |s.transitions| ==> Index(s.transitions[i].stage) == i + 1
  }

  /** A recorded step is one the procedure defines, not ahead of the stage; a skip was allowed,
      and rework is only asked for at the current stage. */
  ghost predicate StepOk(defs: seq<Definition>, stage: Stage, x: StepStatus) {
    && Index(x.stage) <= Index(stage)
    && (x.disposition == ReworkRequired ==> x.stage == stage)
    && exists d :: d in defs && d.step == x.step && d.stage == x.stage && (x.disposition == Skipped ==> d.skippable)
  }

  /** A completed step cites direct file evidence of the session, no older than the plan. */
  ghost predicate StepEvidenced(w: World, session: Id, p: Plan, x: StepStatus) {
    x.disposition == Done ==>
      x.evidence != [] && forall i :: 0 <= i < |x.evidence| ==> EvidenceIs(w, session, x.evidence[i], WorkspaceFile, Direct, p.createdAt)
  }

  ghost predicate OncePerStep(steps: seq<StepStatus>) {
    forall i, j :: 0 <= i < j < |steps| ==> steps[i].step != steps[j].step
  }

  /** Every procedure step of an earlier stage is completed or skipped. */
  ghost predicate EarlierSettled(defs: seq<Definition>, s: Status) {
    forall d :: d in defs && Index(d.stage) < Index(s.stage) ==> StepSettled(s.steps, d.step)
  }

  ghost predicate StepsOk(w: World, session: Id, p: Plan, s: Status) {
    && OncePerStep(s.steps) && EarlierSettled(Definitions(p), s)
    && forall i :: 0 <= i < |s.steps| ==> StepOk(Definitions(p), s.stage, s.steps[i]) && StepEvidenced(w, session, p, s.steps[i])
  }

  // ---------------------------------------------------------------- what transitions rest on

  /** A delegation decision made for this plan, of its materiality, that settles who reviews a material change. */
  predicate DecisionFits(w: World, p: Plan, id: Id) {
    exists i :: 0 <= i < |w.decisions| && w.decisions[i].id == id && w.decisions[i].materialChange == p.materialChange
      && w.decisions[i].createdAt >= p.createdAt && (p.materialChange ==> w.decisions[i].reviewer != NotRequired)
  }

  ghost predicate ArtifactsOk(w: World, session: Id, p: Plan, t: Transition) {
    t.artifacts != [] && forall i :: 0 <= i < |t.artifacts| ==> EvidenceIs(w, session, t.artifacts[i], WorkspaceFile, Direct, p.createdAt)
  }

  /** What the transition into a stage shows. */
  ghost predicate TransitionOk(w: World, session: Id, p: Plan, t: Transition) {
    && (t.stage == Design || t.stage == Implementation || t.stage == Verification ==> ArtifactsOk(w, session, p, t))
    && (t.stage == Implementation ==> t.decision.Some? && DecisionFits(w, p, t.decision.value))
    && (t.stage == Implementation && p.userDecision ==>
        t.userDecision.Some? && EvidenceIs(w, session, t.userDecision.value, UserStatement, Reported, p.createdAt))
  }

  predicate IntakeSettled(p: Plan) {
    p.unknowns == [] && !Blank(p.objective) && !Blank(p.targetUser) && !Blank(p.constraints) && !Blank(p.successMeasure)
  }

  /** The task is finished and the bound decision's review, if delegated, is reported complete. */
  ghost predicate CompletionOk(w: World, s: Status) {
    && w.task.Some? && w.task.value.status == Finished
    && exists d :: d in w.decisions && Bound(s.transitions) == Some(d.id) && (d.reviewer == Delegate ==> ReviewerDone(w.reports, d.id))
  }

  ghost predicate StatusOk(w: World, session: Id, s: Status) {
    && s.plan.Some? && TransitionsOk(s) && StepsOk(w, session, s.plan.value, s)
    && (forall i :: 0 <= i < |s.transitions| ==> TransitionOk(w, session, s.plan.value, s.transitions[i]))
    && (s.stage != Intake ==> IntakeSettled(s.plan.value))
    && (s.stage == Completed ==> CompletionOk(w, s))
  }

  // ---------------------------------------------------------------- time passing

  lemma TransitionOkLater(w: World, v: World, session: Id, p: Plan, t: Transition)
    requires Later(w, v) && TransitionOk(w, session, p, t)
    ensures TransitionOk(v, session, p, t)
  {
    if t.stage == Implementation {
      var i :| 0 <= i < |w.decisions| && w.decisions[i].id == t.decision.value && w.decisions[i].materialChange == p.materialChange
        && w.decisions[i].createdAt >= p.createdAt && (p.materialChange ==> w.decisions[i].reviewer != NotRequired);
      assert v.decisions[i] == w.decisions[i];
    }
  }

  lemma CompletionOkLater(w: World, v: World, s: Status)
    requires Later(w, v) && CompletionOk(w, s)
    ensures CompletionOk(v, s)
  {
    hide Bound;
    var d :| d in w.decisions && Bound(s.transitions) == Some(d.id) && (d.reviewer == Delegate ==> ReviewerDone(w.reports, d.id));
    assert d in v.decisions;
    if d.reviewer == Delegate {
      var i :| 0 <= i < |w.reports| && w.reports[i].decision == d.id && w.reports[i].byReviewer && w.reports[i].completed;
      assert v.reports[i] == w.reports[i];
    }
  }

  lemma StatusOkLater(w: World, v: World, session: Id, s: Status)
    requires Later(w, v) && StatusOk(w, session, s)
    ensures StatusOk(v, session, s)
  {
    hide Definitions, StepOk, TransitionOk, CompletionOk, IntakeSettled, OncePerStep, EarlierSettled;
    forall i | 0 <= i < |s.transitions| ensures TransitionOk(v, session, s.plan.value, s.transitions[i]) {
      TransitionOkLater(w, v, session, s.plan.value, s.transitions[i]);
    }
    if s.stage == Completed { CompletionOkLater(w, v, s); }
    forall i | 0 <= i < |s.steps| ensures StepEvidenced(v, session, s.plan.value, s.steps[i]) {
      assert StepEvidenced(w, session, s.plan.value, s.steps[i]);
    }
  }

  // ---------------------------------------------------------------- gaps

  lemma {:induction false} StepGapsNone(defs: seq<Definition>, s: Status, n: nat)
    requires n <= |defs|
    ensures StepGaps(defs, s, n) == [] <==> forall i :: 0 <= i < n && defs[i].stage == s.stage ==> StepSettled(s.steps, defs[i].step)
    decreases n
  {
    hide StepSettled;
    if n > 0 { StepGapsNone(defs, s, n - 1); }
  }

  lemma {:induction false} FindDefinitionIs(defs: seq<Definition>, step: StepId)
    ensures FindDefinition(defs, step).Some? ==> FindDefinition(defs, step).value in defs && FindDefinition(defs, step).value.step == step
  {
    if defs != [] { FindDefinitionIs(defs[..|defs| - 1], step); }
  }

  lemma {:induction false} FindDecisionIs(decisions: seq<Decision>, id: Id)
    ensures FindDecision(decisions, id).Some? ==> FindDecision(decisions, id).value in decisions && FindDecision(decisions, id).value.id == id
  {
    if decisions != [] { FindDecisionIs(decisions[..|decisions| - 1], id); }
  }

  // ---------------------------------------------------------------- advancing

  lemma {:induction false} AdvanceSettlesEarlier(defs: seq<Definition>, s: Status, t: Status)
    requires EarlierSettled(defs, s) && StepGaps(defs, s, |defs|) == []
    requires t.steps == s.steps && Index(t.stage) == Index(s.stage) + 1
    ensures EarlierSettled(defs, t)
  {
    hide StepGaps;
    StepGapsNone(defs, s, |defs|);
    hide StepSettled;
    forall d | d in defs && Index(d.stage) < Index(t.stage) ensures StepSettled(t.steps, d.step) {
      var i :| 0 <= i < |defs| && defs[i] == d;
      if Index(d.stage) == Index(s.stage) { SameStage(d.stage, s.stage); }
    }
  }

  lemma SameStage(a: Stage, b: Stage)
    requires Index(a) == Index(b)
    ensures a == b
  {
  }

  /** Once no step gap is left, the current stage's steps are settled like the earlier ones. */
  lemma {:induction false} AdvanceSettles(w: World, session: Id, p: Plan, s: Status, t: Status)
    requires s.plan == Some(p) && StepsOk(w, session, p, s) && StepGaps(Definitions(p), s, |Definitions(p)|) == []
    requires t.steps == s.steps && Index(t.stage) == Index(s.stage) + 1
    ensures StepsOk(w, session, p, t)
  {
    hide StepGaps, StepEvidenced, EarlierSettled, Definitions, StepSettled;
    var defs := Definitions(p);
    StepGapsNone(defs, s, |defs|);
    AdvanceSettlesEarlier(defs, s, t);
    forall i | 0 <= i < |t.steps| ensures StepOk(defs, t.stage, t.steps[i]) {
      assert StepOk(defs, s.stage, s.steps[i]);
      NoReworkLeft(defs, s, i);
    }
  }

  lemma NoReworkLeft(defs: seq<Definition>, s: Status, i: nat)
    requires i < |s.steps| && OncePerStep(s.steps) && StepOk(defs, s.stage, s.steps[i])
    requires forall k :: 0 <= k < |defs| && defs[k].stage == s.stage ==> StepSettled(s.steps, defs[k].step)
    ensures s.steps[i].disposition != ReworkRequired
  {
    if s.steps[i].stage == s.stage {
      var d :| d in defs && d.step == s.steps[i].step && d.stage == s.steps[i].stage;
      var k :| 0 <= k < |defs| && defs[k] == d;
      var j :| 0 <= j < |s.steps| && s.steps[j].step == d.step && (s.steps[j].disposition == Done || s.steps[j].disposition == Skipped);
      assert i == j;
    }
  }

  lemma {:induction false} MissingNone(w: World, task: Task, s: Status)
    requires s.plan.Some? && Missing(w, task, s) == []
    ensures StepGaps(Definitions(s.plan.value), s, |Definitions(s.plan.value)|) == [] && StageGaps(w, task, s, s.plan.value) == []
  {
    hide StepGaps, StageGaps, Definitions;
  }

  lemma DesignDone(w: World, p: Plan)
    requires DesignGaps(w, p) == []
    ensures w.decisions != [] && DecisionFits(w, p, w.decisions[|w.decisions| - 1].id)
  {
    var i := |w.decisions| - 1;
    assert w.decisions[i].id == w.decisions[i].id;
  }

  /** The transition an accepted advance adds. */
  lemma NewTransitionOk(w: World, log: seq<Event>, r: Request)
    requires r.Advance? && AdvanceError(w, log, r).None?
    ensures var s := ReadStatus(w, w.task.value, log); var t := Advanced(w, s, r);
      && t.transitions == s.transitions + [t.transitions[|s.transitions|]]
      && t.transitions[|s.transitions|].stage == t.stage
      && TransitionOk(w, w.task.value.session, s.plan.value, t.transitions[|s.transitions|])
  {
    hide Missing, Definitions, DecisionFits;
    var s := ReadStatus(w, w.task.value, log);
    MissingNone(w, w.task.value, s);
    if s.stage == Design { DesignDone(w, s.plan.value); }
  }

  lemma IntakeDone(p: Plan)
    requires IntakeGaps(p) == []
    ensures IntakeSettled(p)
  {
    assert FieldGap(Objective, p.objective) == [] && FieldGap(TargetUser, p.targetUser) == [];
    assert FieldGap(Constraints, p.constraints) == [] && FieldGap(SuccessMeasure, p.successMeasure) == [];
  }

  lemma {:induction false} BoundSnoc(transitions: seq<Transition>, t: Transition)
    requires t.stage != Implementation
    ensures Bound(transitions + [t]) == Bound(transitions)
  {
    assert (transitions + [t])[..|transitions|] == transitions;
    if !(exists i :: 0 <= i < |transitions| && transitions[i].stage == Implementation) { BoundNone(transitions); }
  }

  lemma {:induction false} BoundNone(transitions: seq<Transition>)
    requires forall i :: 0 <= i < |transitions| ==> transitions[i].stage != Implementation
    ensures Bound(transitions).None?
  {
  }

  lemma VerificationDone(w: World, task: Task, s: Status)
    requires w.task == Some(task) && VerificationGaps(w, task, s.transitions) == []
    ensures CompletionOk(w, s)
  {
    hide Bound;
    FindDecisionIs(w.decisions, Bound(s.transitions).value);
  }

  lemma AdvanceKeepsOk(w: World, log: seq<Event>, r: Request)
    requires r.Advance? && AdvanceError(w, log, r).None?
    requires StatusOk(w, w.task.value.session, ReadStatus(w, w.task.value, log))
    ensures StatusOk(w, w.task.value.session, Advanced(w, ReadStatus(w, w.task.value, log), r))
  {
    hide Definitions, TransitionOk, StepsOk, CompletionOk, StepGaps, Bound, VerificationGaps, IntakeGaps, DesignGaps;
    var s := ReadStatus(w, w.task.value, log);
    var t := Advanced(w, s, r);
    MissingNone(w, w.task.value, s);
    AdvanceSettles(w, w.task.value.session, s.plan.value, s, t);
    NewTransitionOk(w, log, r);
    if s.stage == Intake { IntakeDone(s.plan.value); }
    if s.stage == Verification {
      VerificationDone(w, w.task.value, s);
      BoundSnoc(s.transitions, t.transitions[|s.transitions|]);
      SameCompletion(w, s, t);
    }
  }

  lemma SameCompletion(w: World, s: Status, t: Status)
    requires CompletionOk(w, s) && Bound(t.transitions) == Bound(s.transitions)
    ensures CompletionOk(w, t)
  {
  }

  // ---------------------------------------------------------------- recording

  lemma {:induction false} FilterSteps(steps: seq<StepStatus>, keep: StepStatus -> bool)
    requires OncePerStep(steps)
    ensures OncePerStep(Filter(steps, keep))
  {
    if steps != [] {
      var front := steps[..|steps| - 1];
      FilterSteps(front, keep);
      var kept := Filter(front, keep);
      forall i | 0 <= i < |kept| ensures kept[i].step != steps[|front|].step {
        assert kept[i] in kept;
        var j :| 0 <= j < |front| && front[j] == kept[i];
      }
    }
  }

  /** A filter that keeps a settled step's record keeps it settled. */
  lemma {:induction false} StillSettled(steps: seq<StepStatus>, keep: StepStatus -> bool, more: seq<StepStatus>, step: StepId)
    requires StepSettled(steps, step) && forall x :: x in steps && x.step == step ==> keep(x)
    ensures StepSettled(Filter(steps, keep) + more, step)
  {
    var i :| 0 <= i < |steps| && steps[i].step == step && (steps[i].disposition == Done || steps[i].disposition == Skipped);
    assert steps[i] in steps && steps[i] in Filter(steps, keep);
    var kept := Filter(steps, keep);
    var j :| 0 <= j < |kept| && kept[j] == steps[i];
    assert (kept + more)[j] == kept[j];
  }

  lemma NewStepOk(w: World, log: seq<Event>, r: Request, d: Definition, stage: Stage)
    requires r.Record? && RecordError(w, log, r).None?
    requires d == FindDefinition(Definitions(ReadStatus(w, w.task.value, log).plan.value), r.step).value && stage == d.stage
    ensures var s := ReadStatus(w, w.task.value, log); var x := StepStatus(r.step, d.stage, r.disposition, r.evidence, r.reason);
      StepOk(Definitions(s.plan.value), stage, x) && StepEvidenced(w, w.task.value.session, s.plan.value, x)
  {
    hide Definitions, Missing;
    FindDefinitionIs(Definitions(ReadStatus(w, w.task.value, log).plan.value), r.step);
  }

  /** Recording a step of the current stage as completed or skipped. */
  lemma SettleKeepsSteps(w: World, session: Id, p: Plan, s: Status, r: Request, d: Definition)
    requires s.plan == Some(p) && StepsOk(w, session, p, s) && r.Record? && r.disposition != ReworkRequired
    requires d in Definitions(p) && d.step == r.step && d.stage == s.stage
    requires var x := StepStatus(r.step, d.stage, r.disposition, r.evidence, r.reason);
      StepOk(Definitions(p), s.stage, x) && StepEvidenced(w, session, p, x)
    ensures StepsOk(w, session, p, Recorded(s, r, d))
  {
    hide StepOk, StepEvidenced;
    var keep := (x: StepStatus) => x.step != r.step;
    var kept := Filter(s.steps, keep);
    var x := StepStatus(r.step, d.stage, r.disposition, r.evidence, r.reason);
    FilterSteps(s.steps, keep);
    forall e | e in Definitions(p) && Index(e.stage) < Index(s.stage) ensures StepSettled(kept + [x], e.step) {
      if e.step == d.step {
        StepsDetermine(p.profile, p.depth, p.version, d, e);
      }
      StillSettled(s.steps, keep, [x], e.step);
    }
    hide Definitions;
    forall i | 0 <= i < |kept| ensures kept[i] in s.steps && kept[i].step != r.step { assert kept[i] in kept; }
  }

  /** Reopening a stage: later steps are forgotten, the rework is recorded at the reopened stage. */
  lemma ReworkKeepsSteps(w: World, session: Id, p: Plan, s: Status, r: Request, d: Definition)
    requires s.plan == Some(p) && StepsOk(w, session, p, s) && r.Record? && r.disposition == ReworkRequired
    requires Index(d.stage) <= Index(s.stage) && d in Definitions(p) && d.step == r.step
    requires var x := StepStatus(r.step, d.stage, r.disposition, r.evidence, r.reason);
      StepOk(Definitions(p), d.stage, x) && StepEvidenced(w, session, p, x)
    ensures StepsOk(w, session, p, Recorded(s, r, d))
  {
    hide StepEvidenced, EvidenceIs;
    var keep := (x: StepStatus) => Index(x.stage) < Index(d.stage);
    var kept := Filter(s.steps, keep);
    var x := StepStatus(r.step, d.stage, r.disposition, r.evidence, r.reason);
    FilterSteps(s.steps, keep);
    forall i | 0 <= i < |kept|
      ensures StepOk(Definitions(p), d.stage, kept[i]) && StepEvidenced(w, session, p, kept[i]) && kept[i].step != r.step
    {
      assert kept[i] in kept;
      var j :| 0 <= j < |s.steps| && s.steps[j] == kept[i];
      assert StepOk(Definitions(p), s.stage, s.steps[j]);
      StageOfStep(p, s.stage, kept[i], d);
    }
    forall e | e in Definitions(p) && Index(e.stage) < Index(d.stage) ensures StepSettled(kept + [x], e.step) {
      forall y | y in s.steps && y.step == e.step ensures keep(y) {
        var j :| 0 <= j < |s.steps| && s.steps[j] == y;
        StageOfStep(p, s.stage, y, e);
      }
      StillSettled(s.steps, keep, [x], e.step);
    }
  }

  /** A recorded step is at the stage its definition says. */
  lemma StageOfStep(p: Plan, stage: Stage, x: StepStatus, d: Definition)
    requires StepOk(Definitions(p), stage, x) && d in Definitions(p)
    ensures x.step == d.step ==> x.stage == d.stage
  {
    var e :| e in Definitions(p) && e.step == x.step && e.stage == x.stage;
    if x.step == d.step { StepsDetermine(p.profile, p.depth, p.version, d, e); }
  }

  /** Dropping the transitions past a stage keeps the first ones. */
  lemma {:induction false} TruncatedTransitions(transitions: seq<Transition>, n: nat, keep: Transition -> bool)
    requires n <= |transitions| && (forall t :: keep(t) <==> Index(t.stage) <= n)
    requires forall i :: 0 <= i < |transitions| ==> Index(transitions[i].stage) == i + 1
    ensures Filter(transitions, keep) == transitions[..n]
  {
    if n < |transitions| {
      var front := transitions[..|transitions| - 1];
      TruncatedTransitions(front, n, keep);
      assert front[..n] == transitions[..n];
    } else {
      FilterAll(transitions, keep);
      assert transitions[..n] == transitions;
    }
  }

  lemma ReworkKeepsTransitions(w: World, session: Id, s: Status, r: Request, d: Definition)
    requires StatusOk(w, session, s) && r.Record? && r.disposition == ReworkRequired && Index(d.stage) <= Index(s.stage)
    ensures var t := Recorded(s, r, d);
      && TransitionsOk(t) && t.transitions == s.transitions[..Index(d.stage)]
      && forall i :: 0 <= i < |t.transitions| ==> TransitionOk(w, session, s.plan.value, t.transitions[i])
  {
    hide TransitionOk, StepsOk, CompletionOk, IntakeSettled;
    TruncatedTransitions(s.transitions, Index(d.stage), (t: Transition) => Index(t.stage) <= Index(d.stage));
  }

  lemma RecordKeepsOk(w: World, log: seq<Event>, r: Request)
    requires r.Record? && RecordError(w, log, r).None?
    requires StatusOk(w, w.task.value.session, ReadStatus(w, w.task.value, log))
    ensures var s := ReadStatus(w, w.task.value, log);
      StatusOk(w, w.task.value.session, Recorded(s, r, FindDefinition(Definitions(s.plan.value), r.step).value))
  {
    hide Definitions, TransitionOk, StepsOk, CompletionOk, IntakeSettled, DispositionShape, StepEvidenceFits, Missing, Index, StepOk, StepEvidenced;
    var s := ReadStatus(w, w.task.value, log);
    var session := w.task.value.session;
    var d := FindDefinition(Definitions(s.plan.value), r.step).value;
    FindDefinitionIs(Definitions(s.plan.value), r.step);
    DefinedStage(s.plan.value, d);
    if r.disposition == ReworkRequired {
      NewStepOk(w, log, r, d, d.stage);
      ReworkKeepsSteps(w, session, s.plan.value, s, r, d);
      ReworkKeepsTransitions(w, session, s, r, d);
      NotPastIntake(s.stage, d.stage);
    } else {
      NewStepOk(w, log, r, d, s.stage);
      SettleKeepsSteps(w, session, s.plan.value, s, r, d);
      SettleKeepsTransitions(s, r, d);
    }
  }

  lemma SettleKeepsTransitions(s: Status, r: Request, d: Definition)
    requires TransitionsOk(s) && r.Record? && r.disposition != ReworkRequired
    ensures var t := Recorded(s, r, d); TransitionsOk(t) && t.transitions == s.transitions && t.plan == s.plan && t.stage == s.stage
  {
  }

  lemma NotPastIntake(s: Stage, t: Stage)
    requires Index(t) <= Index(s)
    ensures t != Intake ==> s != Intake
  {
  }

  /** No procedure has steps after verification. */
  lemma DefinedStage(p: Plan, d: Definition)
    requires d in Definitions(p)
    ensures d.stage != Completed
  {
    hide SortBy, Catalog;
    var profile, depth, modular := p.profile.value, p.depth.value, ModuleSteps(p.profile.value, p.version).value;
    CatalogIs(COMMON_STEPS, profile, depth, false, d);
    CatalogIs(modular, profile, depth, true, d);
  }

  // ---------------------------------------------------------------- plans

  /** The plans of a stream, oldest first. */
  function Plans(log: seq<Event>): seq<Plan> {
    if log == [] then []
    else
      var front, last := Plans(log[..|log| - 1]), log[|log| - 1];
      if last.request.MakePlan? && last.status.plan.Some? then front + [last.status.plan.value] else front
  }

  /** Exactly one resolution of the plan names the unknown, with evidence that resolves it. */
  ghost predicate RemovedWithEvidence(w: World, session: Id, prev: Plan, next: Plan, unknown: string) {
    && unknown in prev.unknowns && unknown !in next.unknowns
    && |ResolutionsFor(next.resolutions, unknown)| == 1
    && Resolves(w, session, ResolutionsFor(next.resolutions, unknown)[0].evidence, prev.createdAt)
  }

  /** The plan asks for less than the one before. */
  predicate Relaxed(prev: Plan, next: Plan) {
    || (prev.userDecision && !next.userDecision) || (prev.materialChange && !next.materialChange)
    || prev.profile != next.profile || Shallower(next.depth, prev.depth)
  }

  /** A revision drops unknowns only with evidence, and relaxes only on the user's word. */
  ghost predicate Follows(w: World, session: Id, prev: Plan, next: Plan) {
    && (forall u :: u in prev.unknowns ==> u in next.unknowns || RemovedWithEvidence(w, session, prev, next, u))
    && (Relaxed(prev, next) ==>
        next.scopeEvidence.Some? && EvidenceIs(w, session, next.scopeEvidence.value, UserStatement, Reported, prev.createdAt))
  }

  ghost predicate PlansOk(w: World, session: Id, plans: seq<Plan>) {
    forall k :: 0 < k < |plans| ==> Follows(w, session, plans[k - 1], plans[k])
  }

  lemma FollowsLater(w: World, v: World, session: Id, prev: Plan, next: Plan)
    requires Later(w, v) && Follows(w, session, prev, next)
    ensures Follows(v, session, prev, next)
  {
    hide ResolutionsFor, Relaxed;
    forall u | u in prev.unknowns && u !in next.unknowns ensures RemovedWithEvidence(v, session, prev, next, u) {
      assert RemovedWithEvidence(w, session, prev, next, u);
    }
  }

  lemma PlanChecked(w: World, log: seq<Event>, r: Request, prev: Plan)
    requires r.MakePlan? && PlanError(w, log, r).None? && ReadStatus(w, w.task.value, log).plan == Some(prev)
    ensures w.task.Some? && UnknownsHandled(w, w.task.value.session, r, prev.unknowns, prev.createdAt)
    ensures Relaxes(prev, r) ==>
      r.scopeEvidence.Some? && EvidenceIs(w, w.task.value.session, r.scopeEvidence.value, UserStatement, Reported, prev.createdAt)
  {
    hide UnknownsHandled, Relaxes, ResolutionsNameRemoved, Missing;
  }

  lemma NewPlanFollows(w: World, log: seq<Event>, r: Request, now: int, prev: Plan)
    requires r.MakePlan? && PlanError(w, log, r).None? && ReadStatus(w, w.task.value, log).plan == Some(prev)
    ensures Follows(w, w.task.value.session, prev, NewPlan(r, w.sequence, now))
  {
    hide ReadStatus, ResolutionsFor, PlanError, EvidenceIs;
    PlanChecked(w, log, r, prev);
    var next := NewPlan(r, w.sequence, now);
    forall u | u in prev.unknowns && u !in next.unknowns ensures RemovedWithEvidence(w, w.task.value.session, prev, next, u) {
      var i :| 0 <= i < |prev.unknowns| && prev.unknowns[i] == u;
      assert UnknownHandled(w, w.task.value.session, r, prev.unknowns[i], prev.createdAt);
    }
  }

  // ---------------------------------------------------------------- whole runs

  /** The last event's status is well formed, its plan is the last plan, and plans follow one another. */
  ghost predicate RunOk(w: World, log: seq<Event>) {
    && |log| <= MAX_EVENTS
    && (log == [] ==> Plans(log) == [])
    && (log != [] ==>
        && w.task.Some? && StatusOk(w, w.task.value.session, log[|log| - 1].status)
        && Plans(log) != [] && log[|log| - 1].status.plan == Some(Plans(log)[|Plans(log)| - 1])
        && PlansOk(w, w.task.value.session, Plans(log)))
  }

  lemma RunOkLater(w: World, v: World, log: seq<Event>)
    requires Later(w, v) && RunOk(w, log)
    ensures RunOk(v, log)
  {
    hide StatusOk, Follows, Plans;
    if log != [] {
      StatusOkLater(w, v, w.task.value.session, log[|log| - 1].status);
      var plans := Plans(log);
      forall k | 0 < k < |plans| ensures Follows(v, v.task.value.session, plans[k - 1], plans[k]) {
        FollowsLater(w, v, w.task.value.session, plans[k - 1], plans[k]);
      }
    }
  }

  lemma RefreshKeepsOk(w: World, session: Id, s: Status, task: Task)
    requires StatusOk(w, session, s)
    ensures StatusOk(w, session, Refreshed(w, task, s))
  {
    hide Missing, Definitions, StepOk, StepEvidenced, TransitionOk, IntakeSettled;
  }

  lemma NewPlanOk(w: World, session: Id, p: Plan)
    ensures StatusOk(w, session, Status(Intake, Some(p), [], [], []))
  {
    hide Definitions;
  }

  /** Whatever request is accepted, the status it leaves is well formed. */
  lemma OutcomeOk(w: World, log: seq<Event>, r: Request, now: int)
    requires RunOk(w, log) && RequestError(w, log, r).None?
    ensures var s := Outcome(w, log, r, now);
      && StatusOk(w, w.task.value.session, s)
      && s.plan == (if r.MakePlan? then Some(NewPlan(r, w.sequence, now)) else ReadStatus(w, w.task.value, log).plan)
      && (!r.MakePlan? ==> log != [])
      && |log| < MAX_EVENTS
  {
    hide StatusOk, Missing, Definitions, Plans, DispositionShape, StepEvidenceFits, AllFit, Relaxes, ResolutionsNameRemoved, NewPlan;
    var session := w.task.value.session;
    if log != [] { RefreshKeepsOk(w, session, log[|log| - 1].status, w.task.value); }
    match r
    case MakePlan(_, _, _, _, _, _, _, _, _, _, _) => NewPlanOk(w, session, NewPlan(r, w.sequence, now));
    case Advance(_, _, _) => AdvanceKeepsOk(w, log, r);
    case Record(_, _, _, _) => RecordKeepsOk(w, log, r);
  }

  lemma {:induction false} PlansSnoc(log: seq<Event>, e: Event)
    ensures Plans(log + [e]) == if e.request.MakePlan? && e.status.plan.Some? then Plans(log) + [e.status.plan.value] else Plans(log)
  {
    assert (log + [e])[..|log|] == log;
  }

  lemma AcceptedKeepsRun(w: World, log: seq<Event>, r: Request, now: int, e: Event)
    requires RunOk(w, log) && RequestError(w, log, r).None?
    requires e.request == r && e.status == Refreshed(w, w.task.value, Outcome(w, log, r, now))
    ensures RunOk(w, log + [e])
  {
    hide StatusOk, Missing, Outcome, RequestError, Follows, Plans;
    AcceptedHasTask(w, log, r);
    var session := w.task.value.session;
    OutcomeOk(w, log, r, now);
    RefreshKeepsOk(w, session, Outcome(w, log, r, now), w.task.value);
    PlansSnoc(log, e);
    if r.MakePlan? && log != [] { NewPlanFollows(w, log, r, now, Plans(log)[|Plans(log)| - 1]) by { PlanAccepted(w, log, r); } }
  }

  lemma AcceptedHasTask(w: World, log: seq<Event>, r: Request)
    requires RequestError(w, log, r).None?
    ensures w.task.Some?
  {
  }

  lemma PlanAccepted(w: World, log: seq<Event>, r: Request)
    requires r.MakePlan? && RequestError(w, log, r).None?
    ensures PlanError(w, log, r).None?
  {
  }

  /** In every run, in any world since its last event. */
  lemma {:induction false} HistoryKeepsRun(history: seq<Step>, w: World)
    requires Flows(history, w)
    ensures RunOk(w, After(history))
  {
    hide RequestError, Outcome, WellFormed, Lookup, Refreshed, RunOk, Later;
    if history != [] {
      var front, c := history[..|history| - 1], history[|history| - 1];
      HistoryKeepsRun(front, c.world);
      if RequestError(c.world, After(front), c.request).None? {
        AcceptedHasTask(c.world, After(front), c.request);
        var s := Refreshed(c.world, c.world.task.value, Outcome(c.world, After(front), c.request, c.now));
        AcceptedKeepsRun(c.world, After(front), c.request, c.now, Event(c.key, c.request, s, c.world.sequence));
      }
      RunOkLater(c.world, w, After(history));
    } else {
      NoRunOk(w);
    }
  }

  lemma NoRunOk(w: World)
    ensures RunOk(w, [])
  {
  }

  // ---------------------------------------------------------------- the theorems

  /** The status a stream stands at. */
  function Current(log: seq<Event>): Status {
    if log == [] then START else log[|log| - 1].status
  }

  /** In every run the transitions are exactly the stages after intake up to the current one, a step has at most
      one status, every step of an earlier stage is completed or allowed to be skipped, and no rework is left
      below the current stage, through advances, rework and replanning alike. */
  lemma {:induction false} WorkflowShape(history: seq<Step>, w: World)
    requires Flows(history, w)
    ensures var s := Current(After(history));
      && TransitionsOk(s) && OncePerStep(s.steps)
      && (s.plan.None? ==> s.stage == Intake && s.steps == [])
      && (s.plan.Some? ==> EarlierSettled(Definitions(s.plan.value), s))
      && (forall i :: 0 <= i < |s.steps| && s.steps[i].stage != s.stage ==> s.steps[i].disposition != ReworkRequired)
      && forall i :: 0 <= i < |s.steps| ==> s.plan.Some? && StepOk(Definitions(s.plan.value), s.stage, s.steps[i])
  {
    hide After, Definitions, Later;
    HistoryKeepsRun(history, w);
  }

  /** Once completed, no later request changes anything; at most an exact retry gets its old answer again. */
  lemma CompletedRefuses(log: seq<Event>, w: World, key: string, r: Request, elsewhere: bool, now: int)
    requires RunOk(w, log) && Current(log).stage == Completed
    ensures Submit(log, w, key, r, elsewhere, now).0 == log
    ensures Submit(log, w, key, r, elsewhere, now).1.Ok? ==> Submit(log, w, key, r, elsewhere, now).1.duplicate
  {
    hide StepsOk, TransitionOk, TransitionsOk, IntakeSettled, PlansOk, Plans, WellFormed, Lookup, Missing;
  }

  lemma {:induction false} CompletionIsAbsorbing(history: seq<Step>, later: seq<Step>, w: World)
    requires Flows(history + later, w) && Current(After(history)).stage == Completed
    ensures After(history + later) == After(history)
    decreases |later|
  {
    hide Submit, Current, RunOk, Later;
    if later == [] {
      assert history + later == history;
    } else {
      var front, c := later[..|later| - 1], later[|later| - 1];
      assert (history + later)[..|history + later| - 1] == history + front;
      FlowsPrefix(history + later, w);
      CompletionIsAbsorbing(history, front, c.world);
      HistoryKeepsRun(history + front, c.world);
      CompletedRefuses(After(history + front), c.world, c.key, c.request, c.elsewhere, c.now);
    }
  }

  lemma FlowsPrefix(history: seq<Step>, w: World)
    requires history != [] && Flows(history, w)
    ensures Flows(history[..|history| - 1], history[|history| - 1].world)
  {
  }

  lemma {:induction false} BoundIs(transitions: seq<Transition>)
    requires |transitions| >= 3 && forall i :: 0 <= i < |transitions| ==> Index(transitions[i].stage) == i + 1
    ensures Bound(transitions) == transitions[2].decision
  {
    var front := transitions[..|transitions| - 1];
    if |transitions| > 3 {
      assert front[2].stage == Implementation;
      BoundIs(front);
    } else {
      assert transitions[2].stage == Implementation;
    }
  }

  /** A completed workflow's task is finished; its implementation stage names a delegation decision that was made
      for the plan and matches its materiality; and a delegated review was reported complete. */
  lemma {:induction false} CompletionIsJustified(history: seq<Step>, w: World)
    requires Flows(history, w) && Current(After(history)).stage == Completed
    ensures var s := Current(After(history));
      && w.task.Some? && w.task.value.status == Finished && s.plan.Some? && |s.transitions| == 5
      && s.transitions[2].stage == Implementation && s.transitions[2].decision.Some?
      && DecisionFits(w, s.plan.value, s.transitions[2].decision.value)
      && forall d :: d in w.decisions && d.id == s.transitions[2].decision.value && d.reviewer == Delegate ==> ReviewerDone(w.reports, d.id)
  {
    hide After, StepsOk, Plans, PlansOk, Bound, DecisionFits, ReviewerDone, Later;
    HistoryKeepsRun(history, w);
    var s := Current(After(history));
    BoundIs(s.transitions);
    assert TransitionOk(w, w.task.value.session, s.plan.value, s.transitions[2]);
    forall d, e | d in w.decisions && e in w.decisions && d.id == e.id ensures d == e { }
  }

  /** Past the design stage the same holds of the bound decision, and of the user's decision where the plan asks for one. */
  lemma {:induction false} ImplementationIsBound(history: seq<Step>, w: World)
    requires Flows(history, w) && Index(Current(After(history)).stage) >= Index(Implementation)
    ensures var s := Current(After(history));
      && w.task.Some? && s.plan.Some? && |s.transitions| >= 3 && s.transitions[2].stage == Implementation
      && TransitionOk(w, w.task.value.session, s.plan.value, s.transitions[2])
  {
    hide After, StepsOk, Plans, PlansOk, TransitionOk, CompletionOk, Later;
    HistoryKeepsRun(history, w);
  }

  lemma {:induction false} RemovalExists(w: World, session: Id, plans: seq<Plan>, k: nat, unknown: string)
    requires PlansOk(w, session, plans) && k < |plans| && unknown in plans[k].unknowns
    requires unknown !in plans[|plans| - 1].unknowns
    ensures exists m :: k < m < |plans| && RemovedWithEvidence(w, session, plans[m - 1], plans[m], unknown)
    decreases |plans| - k
  {
    hide RemovedWithEvidence;
    assert Follows(w, session, plans[k + 1 - 1], plans[k + 1]);
    if unknown in plans[k + 1].unknowns {
      RemovalExists(w, session, plans, k + 1, unknown);
    } else {
      assert RemovedWithEvidence(w, session, plans[k + 1 - 1], plans[k + 1], unknown);
    }
  }

  /** Leaving intake takes an answer to every material unknown ever recorded: each was dropped by some later plan
      with exactly one resolution, citing evidence registered since the plan that still held it. */
  lemma {:induction false} UnknownsAreResolved(history: seq<Step>, w: World, k: nat, unknown: string)
    requires Flows(history, w) && Current(After(history)).stage != Intake
    requires k < |Plans(After(history))| && unknown in Plans(After(history))[k].unknowns
    ensures w.task.Some?
    ensures var plans := Plans(After(history));
      exists m :: k < m < |plans| && RemovedWithEvidence(w, w.task.value.session, plans[m - 1], plans[m], unknown)
  {
    hide After, StepsOk, TransitionOk, TransitionsOk, CompletionOk, PlansOk, Plans, RemovedWithEvidence, Later;
    HistoryKeepsRun(history, w);
    RemovalExists(w, w.task.value.session, Plans(After(history)), k, unknown);
  }

  /** A plan's requirements only ratchet up unless the user said otherwise since the plan before. */
  lemma {:induction false} PlansRatchet(history: seq<Step>, w: World, k: nat)
    requires Flows(history, w) && 0 < k < |Plans(After(history))|
    requires Relaxed(Plans(After(history))[k - 1], Plans(After(history))[k])
    ensures var prev, next := Plans(After(history))[k - 1], Plans(After(history))[k];
      && w.task.Some? && next.scopeEvidence.Some?
      && EvidenceIs(w, w.task.value.session, next.scopeEvidence.value, UserStatement, Reported, prev.createdAt)
  {
    hide After, StatusOk, Plans, Relaxed, EvidenceIs, RemovedWithEvidence, Later;
    HistoryKeepsRun(history, w);
    assert Follows(w, w.task.value.session, Plans(After(history))[k - 1], Plans(After(history))[k]);
  }
}
