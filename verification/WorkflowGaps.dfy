/** Which steps a plan's procedure has, and what each gap of a status means. */
module WorkflowGaps {
  import opened Ordering
  import opened WriteScope
  import opened WorkflowProcedure
  import opened Workflow
  import opened WorkflowRuns

  // ---------------------------------------------------------------- the procedure of a plan

  /** The depth asked for is at least the one given. */
  ghost predicate Reaches(depth: Depth, minimum: Depth) {
    minimum == Light || depth == High || (depth == Standard && minimum == Standard)
  }

  /** The procedures known: the two older profiles in their first version, the frontend in its second. */
  ghost predicate Known(profile: Option<Profile>, version: Option<nat>) {
    || (profile == Some(General) && version == Some(1)) || (profile == Some(Ui) && version == Some(1))
    || (profile == Some(Frontend) && version == Some(2))
  }

  ghost predicate Lists(specs: seq<Spec>, d: Definition, i: nat) {
    i < |specs| && specs[i].step == d.step && specs[i].stage == d.stage && specs[i].skippable == d.skippable
  }

  /** A step of the common list the depth asks for; some are for the UI profile only. */
  ghost predicate CommonStep(p: Plan, d: Definition, i: nat) {
    && Lists(COMMON_STEPS, d, i) && !d.browserModule && p.depth.Some? && Reaches(p.depth.value, COMMON_STEPS[i].minimumDepth)
    && (COMMON_STEPS[i].uiOnly ==> p.profile == Some(Ui))
  }

  ghost predicate BrowserStep(p: Plan, d: Definition, i: nat) {
    Lists(BROWSER_STEPS, d, i) && d.browserModule && p.profile == Some(Frontend) && p.depth.Some? && Reaches(p.depth.value, BROWSER_STEPS[i].minimumDepth)
  }

  ghost predicate OrderedByStage(defs: seq<Definition>) {
    forall i, j :: 0 <= i < j < |defs| ==> Index(defs[i].stage) <= Index(defs[j].stage)
  }

  lemma CommonExactly(p: Plan, d: Definition)
    requires p.profile.Some? && p.depth.Some?
    ensures d in Catalog(COMMON_STEPS, p.profile.value, p.depth.value, false) <==> exists i: nat :: CommonStep(p, d, i)
  {
    hide COMMON_STEPS, Catalog;
    CatalogIs(COMMON_STEPS, p.profile.value, p.depth.value, false, d);
    if i :| 0 <= i < |COMMON_STEPS| && Admits(COMMON_STEPS[i], p.profile.value, p.depth.value) && Defined(COMMON_STEPS[i], false) == d {
      assert CommonStep(p, d, i);
    }
    if i: nat :| CommonStep(p, d, i) { assert Defined(COMMON_STEPS[i], false) == d; }
  }

  lemma BrowserExactly(p: Plan, d: Definition)
    requires p.profile == Some(Frontend) && p.depth.Some?
    ensures d in Catalog(BROWSER_STEPS, Frontend, p.depth.value, true) <==> exists i: nat :: BrowserStep(p, d, i)
  {
    hide Catalog;
    BrowserForAll();
    hide BROWSER_STEPS;
    CatalogIs(BROWSER_STEPS, Frontend, p.depth.value, true, d);
    if i :| 0 <= i < |BROWSER_STEPS| && Admits(BROWSER_STEPS[i], Frontend, p.depth.value) && Defined(BROWSER_STEPS[i], true) == d {
      assert BrowserStep(p, d, i);
    }
    if i: nat :| BrowserStep(p, d, i) { assert Defined(BROWSER_STEPS[i], true) == d; }
  }

  lemma BrowserForAll()
    ensures forall i :: 0 <= i < |BROWSER_STEPS| ==> !BROWSER_STEPS[i].uiOnly
  {
  }

  lemma StageOrder()
    ensures TotalPreorder(EarlierStage)
  {
  }

  /** A plan's procedure: nothing when it names no known one, else exactly the listed steps its profile and depth ask
      for, by stage. */
  lemma ProcedureExactly(p: Plan, d: Definition)
    ensures OrderedByStage(Definitions(p))
    ensures d in Definitions(p)
      <==> Known(p.profile, p.version) && ((exists i: nat :: CommonStep(p, d, i)) || (exists i: nat :: BrowserStep(p, d, i)))
  {
    hide SortBy, Catalog, COMMON_STEPS, BROWSER_STEPS;
    if p.profile.Some? && p.depth.Some? && Known(p.profile, p.version) {
      var modular := ModuleSteps(p.profile.value, p.version).value;
      var all := Catalog(COMMON_STEPS, p.profile.value, p.depth.value, false) + Catalog(modular, p.profile.value, p.depth.value, true);
      StageOrder();
      SortBySorted(all, EarlierStage);
      CommonExactly(p, d);
      if p.profile == Some(Frontend) {
        BrowserExactly(p, d);
      } else {
        NothingListed(p.profile.value, p.depth.value);
      }
    }
  }

  lemma {:induction false} NothingListed(p: Profile, q: Depth)
    ensures Catalog([], p, q, true) == []
  {
  }

  predicate AtStage(d: Definition, stage: Stage) {
    d.stage == stage
  }

  /** Within a stage the common steps come first, each list in its own order. */
  lemma ProcedureInOrder(p: Plan, stage: Stage)
    requires Known(p.profile, p.version) && p.depth.Some?
    ensures var profile, depth := p.profile.value, p.depth.value; var at := (d: Definition) => AtStage(d, stage);
      Filter(Definitions(p), at) == Filter(Catalog(COMMON_STEPS, profile, depth, false), at)
        + Filter(Catalog(ModuleSteps(profile, p.version).value, profile, depth, true), at)
  {
    hide Filter, SortBy, Catalog, COMMON_STEPS, BROWSER_STEPS;
    var at := (d: Definition) => AtStage(d, stage);
    var common := Catalog(COMMON_STEPS, p.profile.value, p.depth.value, false);
    var modular := Catalog(ModuleSteps(p.profile.value, p.version).value, p.profile.value, p.depth.value, true);
    SortByStable(common + modular, EarlierStage, at);
    FilterConcat(common, modular, at);
  }

  // ---------------------------------------------------------------- gaps

  ghost predicate SettledStep(s: Status, step: StepId) {
    exists x :: x in s.steps && x.step == step && x.disposition != ReworkRequired
  }

  lemma SettledExactly(s: Status, step: StepId)
    ensures StepSettled(s.steps, step) <==> SettledStep(s, step)
  {
    if x :| x in s.steps && x.step == step && x.disposition != ReworkRequired {
      var i :| 0 <= i < |s.steps| && s.steps[i] == x;
    }
  }

  ghost predicate OpenStep(p: Plan, s: Status, d: Definition, step: StepId) {
    d in Definitions(p) && d.step == step && d.stage == s.stage && !SettledStep(s, step)
  }

  lemma {:induction false} StepGapsExactly(defs: seq<Definition>, s: Status, n: nat, g: Gap)
    requires n <= |defs|
    ensures g in StepGaps(defs, s, n)
      <==> g.StepMissing? && exists i :: 0 <= i < n && defs[i].step == g.step && defs[i].stage == s.stage && !StepSettled(s.steps, defs[i].step)
    decreases n
  {
    hide StepSettled;
    if n > 0 { StepGapsExactly(defs, s, n - 1, g); }
  }

  /** The decision a stream's first transition to implementation named. */
  ghost predicate BoundTo(transitions: seq<Transition>, id: Id) {
    exists k: nat :: FirstImplementation(transitions, k) && transitions[k].decision == Some(id)
  }

  ghost predicate FirstImplementation(transitions: seq<Transition>, k: nat) {
    && k < |transitions| && transitions[k].stage == Implementation
    && forall i :: 0 <= i < k ==> transitions[i].stage != Implementation
  }

  lemma {:induction false} FirstAt(transitions: seq<Transition>) returns (k: int)
    ensures -1 <= k < |transitions|
    ensures k < 0 ==> Bound(transitions).None? && forall i :: 0 <= i < |transitions| ==> transitions[i].stage != Implementation
    ensures k >= 0 ==> FirstImplementation(transitions, k) && Bound(transitions) == transitions[k].decision
  {
    k := -1;
    if transitions != [] {
      var front := transitions[..|transitions| - 1];
      k := FirstAt(front);
      assert forall i :: 0 <= i < |front| ==> front[i] == transitions[i];
      if k < 0 && transitions[|front|].stage == Implementation { k := |front|; }
    }
  }

  lemma {:induction false} BoundExactly(transitions: seq<Transition>, id: Id)
    ensures Bound(transitions) == Some(id) <==> BoundTo(transitions, id)
  {
    hide Bound;
    var k := FirstAt(transitions);
    if i: nat :| FirstImplementation(transitions, i) && transitions[i].decision == Some(id) { assert i == k; }
  }

  /** The decision the implementation rests on, among those the task has. */
  ghost predicate RestsOn(w: World, s: Status, d: Decision) {
    d in w.decisions && BoundTo(s.transitions, d.id)
  }

  ghost predicate ReviewReported(w: World, id: Id) {
    exists t :: t in w.reports && t.decision == id && t.byReviewer && t.completed
  }

  lemma {:induction false} FindDecisionAt(decisions: seq<Decision>, d: Decision)
    requires d in decisions && forall i, j :: 0 <= i < j < |decisions| ==> decisions[i].id != decisions[j].id
    ensures FindDecision(decisions, d.id) == Some(d)
  {
    FindDecisionIs(decisions, d.id);
    FindDecisionSome(decisions, d);
    var e := FindDecision(decisions, d.id).value;
    var i :| 0 <= i < |decisions| && decisions[i] == d;
    var j :| 0 <= j < |decisions| && decisions[j] == e;
    assert i == j;
  }

  lemma {:induction false} FindDecisionSome(decisions: seq<Decision>, d: Decision)
    requires d in decisions
    ensures FindDecision(decisions, d.id).Some?
  {
    if decisions[|decisions| - 1] != d { FindDecisionSome(decisions[..|decisions| - 1], d); }
  }

  ghost predicate LatestDecision(w: World, d: Decision) {
    w.decisions != [] && d == w.decisions[|w.decisions| - 1]
  }

  /** What each gap of the current stage says. */
  ghost predicate Lacks(w: World, task: Task, s: Status, p: Plan, g: Gap) {
    match g
    case PlanMissing => false
    case TemplateUnsupported => p.profile.Some? && !Known(p.profile, p.version)
    case StepMissing(step) => exists d :: OpenStep(p, s, d, step)
    case FieldMissing(Objective) => s.stage == Intake && !HasInk(p.objective)
    case FieldMissing(TargetUser) => s.stage == Intake && !HasInk(p.targetUser)
    case FieldMissing(Constraints) => s.stage == Intake && !HasInk(p.constraints)
    case FieldMissing(SuccessMeasure) => s.stage == Intake && !HasInk(p.successMeasure)
    case UnknownsUnresolved => s.stage == Intake && p.unknowns != []
    case AssessmentMissing => s.stage == Design && !exists d :: LatestDecision(w, d) && d.createdAt >= p.createdAt
    case MaterialityDiffers => s.stage == Design && exists d :: LatestDecision(w, d) && d.createdAt >= p.createdAt && d.materialChange != p.materialChange
    case ReviewerDecisionMissing =>
      s.stage == Design && p.materialChange
      && exists d :: LatestDecision(w, d) && d.createdAt >= p.createdAt && d.materialChange && d.reviewer == NotRequired
    case ProofsIncomplete => s.stage == Verification && task.status != Finished
    case DesignDecisionMissing => s.stage == Verification && !exists d :: RestsOn(w, s, d)
    case ReviewerNotReported => s.stage == Verification && exists d :: RestsOn(w, s, d) && d.reviewer == Delegate && !ReviewReported(w, d.id)
  }

  ghost predicate Lacking(w: World, task: Task, s: Status, g: Gap) {
    if s.plan.None? then g == PlanMissing else Lacks(w, task, s, s.plan.value, g)
  }

  lemma IntakeExactly(p: Plan, g: Gap)
    ensures g in IntakeGaps(p) <==> match g
      case FieldMissing(Objective) => !HasInk(p.objective)
      case FieldMissing(TargetUser) => !HasInk(p.targetUser)
      case FieldMissing(Constraints) => !HasInk(p.constraints)
      case FieldMissing(SuccessMeasure) => !HasInk(p.successMeasure)
      case UnknownsUnresolved => p.unknowns != []
      case _ => false
  {
    InkExactly(p.objective);
    InkExactly(p.targetUser);
    InkExactly(p.constraints);
    InkExactly(p.successMeasure);
    hide HasInk, Blank;
    var a, b, c, d := FieldGap(Objective, p.objective), FieldGap(TargetUser, p.targetUser), FieldGap(Constraints, p.constraints), FieldGap(SuccessMeasure, p.successMeasure);
    var e := if p.unknowns != [] then [UnknownsUnresolved] else [];
    assert IntakeGaps(p) == a + b + c + d + e;
    assert g in IntakeGaps(p) <==> g in a || g in b || g in c || g in d || g in e;
  }

  lemma DesignExactly(w: World, p: Plan, g: Gap)
    ensures g in DesignGaps(w, p) <==> match g
      case AssessmentMissing => !exists d :: LatestDecision(w, d) && d.createdAt >= p.createdAt
      case MaterialityDiffers => exists d :: LatestDecision(w, d) && d.createdAt >= p.createdAt && d.materialChange != p.materialChange
      case ReviewerDecisionMissing =>
        p.materialChange && exists d :: LatestDecision(w, d) && d.createdAt >= p.createdAt && d.materialChange && d.reviewer == NotRequired
      case _ => false
  {
    if w.decisions != [] { assert LatestDecision(w, w.decisions[|w.decisions| - 1]); }
  }

  lemma RestsExactly(w: World, s: Status, d: Decision)
    requires DecisionsDistinct(w)
    ensures RestsOn(w, s, d) <==> Bound(s.transitions).Some? && FindDecision(w.decisions, Bound(s.transitions).value) == Some(d)
  {
    hide Bound, BoundTo;
    BoundExactly(s.transitions, d.id);
    if d in w.decisions { FindDecisionAt(w.decisions, d); }
    if Bound(s.transitions).Some? { FindDecisionIs(w.decisions, Bound(s.transitions).value); }
  }

  lemma ReviewExactly(w: World, id: Id)
    ensures ReviewerDone(w.reports, id) <==> ReviewReported(w, id)
  {
    if t :| t in w.reports && t.decision == id && t.byReviewer && t.completed {
      var i :| 0 <= i < |w.reports| && w.reports[i] == t;
    }
  }

  lemma VerificationExactly(w: World, task: Task, s: Status, g: Gap)
    requires DecisionsDistinct(w)
    ensures g in VerificationGaps(w, task, s.transitions) <==> match g
      case ProofsIncomplete => task.status != Finished
      case DesignDecisionMissing => !exists d :: RestsOn(w, s, d)
      case ReviewerNotReported => exists d :: RestsOn(w, s, d) && d.reviewer == Delegate && !ReviewReported(w, d.id)
      case _ => false
  {
    hide Bound, RestsOn, ReviewReported, ReviewerDone;
    forall d ensures RestsOn(w, s, d) <==> Bound(s.transitions).Some? && FindDecision(w.decisions, Bound(s.transitions).value) == Some(d) {
      RestsExactly(w, s, d);
    }
    if Bound(s.transitions).Some? {
      var d := FindDecision(w.decisions, Bound(s.transitions).value);
      if d.Some? { assert RestsOn(w, s, d.value); ReviewExactly(w, d.value.id); }
    }
  }

  lemma {:induction false} StepsExactly(p: Plan, s: Status, g: Gap)
    ensures g in StepGaps(Definitions(p), s, |Definitions(p)|) <==> g.StepMissing? && exists d :: OpenStep(p, s, d, g.step)
  {
    hide Definitions, StepGaps, StepSettled, SettledStep;
    var defs := Definitions(p);
    StepGapsExactly(defs, s, |defs|, g);
    if g.StepMissing? {
      SettledExactly(s, g.step);
      if d :| OpenStep(p, s, d, g.step) { var i :| 0 <= i < |defs| && defs[i] == d; }
      if i :| 0 <= i < |defs| && defs[i].step == g.step && defs[i].stage == s.stage && !StepSettled(s.steps, defs[i].step) {
        assert OpenStep(p, s, defs[i], g.step);
      }
    }
  }

  lemma StageExactly(w: World, task: Task, s: Status, p: Plan, g: Gap)
    requires DecisionsDistinct(w)
    ensures g in StageGaps(w, task, s, p) <==> !g.StepMissing? && g != TemplateUnsupported && Lacks(w, task, s, p, g)
  {
    hide IntakeGaps, DesignGaps, VerificationGaps, RestsOn, ReviewReported, LatestDecision, HasInk, OpenStep;
    IntakeExactly(p, g);
    DesignExactly(w, p, g);
    VerificationExactly(w, task, s, g);
  }

  lemma TemplateExactly(p: Plan)
    ensures p.profile.Some? ==> (ModuleSteps(p.profile.value, p.version).None? <==> !Known(p.profile, p.version))
  {
  }

  /** The gap list of any status: which gaps it names, and why. */
  lemma MissingExactly(w: World, task: Task, s: Status, g: Gap)
    requires DecisionsDistinct(w)
    ensures g in Missing(w, task, s) <==> Lacking(w, task, s, g)
  {
    hide StepGaps, StageGaps, Definitions, Known, ModuleSteps;
    if s.plan.Some? {
      var p := s.plan.value;
      TemplateExactly(p);
      StepsExactly(p, s, g);
      StageExactly(w, task, s, p, g);
      hide Lacks, OpenStep;
      var first := if p.profile.Some? && ModuleSteps(p.profile.value, p.version).None? then [TemplateUnsupported] else [];
      var steps, stage := StepGaps(Definitions(p), s, |Definitions(p)|), StageGaps(w, task, s, p);
      assert Missing(w, task, s) == first + steps + stage;
      assert g in Missing(w, task, s) <==> g in first || g in steps || g in stage;
      LacksTwo(w, task, s, p, g);
    }
  }

  lemma LacksTwo(w: World, task: Task, s: Status, p: Plan, g: Gap)
    ensures g.StepMissing? ==> (Lacks(w, task, s, p, g) <==> exists d :: OpenStep(p, s, d, g.step))
    ensures g == TemplateUnsupported ==> (Lacks(w, task, s, p, g) <==> p.profile.Some? && !Known(p.profile, p.version))
  {
  }

  lemma {:induction false} StepGapsSame(defs: seq<Definition>, s: Status, t: Status, n: nat)
    requires n <= |defs| && s.stage == t.stage && s.steps == t.steps
    ensures StepGaps(defs, s, n) == StepGaps(defs, t, n)
    decreases n
  {
    hide StepSettled;
    if n > 0 { StepGapsSame(defs, s, t, n - 1); }
  }

  /** The list does not depend on the list kept so far. */
  lemma MissingSame(w: World, task: Task, s: Status)
    ensures Missing(w, task, Refreshed(w, task, s)) == Missing(w, task, s) == Refreshed(w, task, s).missing
  {
    hide StepGaps, Definitions, ModuleSteps, IntakeGaps, DesignGaps, VerificationGaps;
    if s.plan.Some? {
      var defs := Definitions(s.plan.value);
      StepGapsSame(defs, s, Refreshed(w, task, s), |defs|);
    }
  }
}
