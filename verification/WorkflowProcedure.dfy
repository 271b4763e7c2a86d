/** The procedure a workflow plan selects: which steps, at which stage, and whether they may be skipped. */
module WorkflowProcedure {
  import opened Ordering

  datatype Stage = Intake | Planning | Design | Implementation | Verification | Completed

  function Index(s: Stage): nat {
    match s
    case Intake => 0
    case Planning => 1
    case Design => 2
    case Implementation => 3
    case Verification => 4
    case Completed => 5
  }

  datatype Profile = General | Ui | Frontend

  datatype Depth = Light | Standard | High

  function DepthRank(d: Depth): nat {
    match d
    case Light => 0
    case Standard => 1
    case High => 2
  }

  /** The steps any procedure knows, and whatever else a caller may name. */
  datatype StepId =
    | ProblemAndOutcome | BaselineAndConstraints | OptionsAndRisks | VerificationStrategy | DeliveryContract
    | ConceptComparison | InteractionSpec | VerticalSlice | ScenarioWalkthrough | RenderedBrowserReview
    | MechanicalChecks | QualityReview | ResidualRisks | ResponsiveAccessibilityReview | BrowserScenarios
    | Unlisted(name: string)

  datatype Spec = Spec(step: StepId, stage: Stage, minimumDepth: Depth, uiOnly: bool, skippable: bool)

  datatype Definition = Definition(step: StepId, stage: Stage, skippable: bool, browserModule: bool)

  const COMMON_STEPS := [
    Spec(ProblemAndOutcome, Intake, Light, false, false),
    Spec(BaselineAndConstraints, Planning, Light, false, false),
    Spec(OptionsAndRisks, Planning, Standard, false, true),
    Spec(VerificationStrategy, Planning, Standard, false, true),
    Spec(DeliveryContract, Design, Light, false, false),
    Spec(ConceptComparison, Design, Standard, true, true),
    Spec(InteractionSpec, Design, Standard, true, true),
    Spec(VerticalSlice, Implementation, Light, false, false),
    Spec(ScenarioWalkthrough, Implementation, Standard, false, true),
    Spec(RenderedBrowserReview, Implementation, Standard, true, false),
    Spec(MechanicalChecks, Verification, Light, false, false),
    Spec(QualityReview, Verification, Standard, false, true),
    Spec(ResidualRisks, Verification, High, false, true),
    Spec(ResponsiveAccessibilityReview, Verification, High, true, false)]

  const BROWSER_STEPS := [
    Spec(BrowserScenarios, Planning, Standard, false, false),
    Spec(RenderedBrowserReview, Implementation, Light, false, false),
    Spec(ResponsiveAccessibilityReview, Verification, Standard, false, false)]

  const LEGACY_VERSION := 1
  const FRONTEND_VERSION := 2

  function NewVersion(p: Profile): nat {
    if p == Frontend then FRONTEND_VERSION else LEGACY_VERSION
  }

  /** The extra steps of a profile's module, if that version of it is known. */
  function ModuleSteps(p: Profile, version: Option<nat>): Option<seq<Spec>> {
    match (p, version)
    case (Frontend, Some(2)) => Some(BROWSER_STEPS)
    case (General, Some(1)) => Some([])
    case (Ui, Some(1)) => Some([])
    case _ => None
  }

  predicate Admits(s: Spec, profile: Profile, depth: Depth) {
    DepthRank(depth) >= DepthRank(s.minimumDepth) && (!s.uiOnly || profile == Ui)
  }

  function Defined(s: Spec, browserModule: bool): Definition {
    Definition(s.step, s.stage, s.skippable, browserModule)
  }

  function Catalog(specs: seq<Spec>, profile: Profile, depth: Depth, browserModule: bool): seq<Definition> {
    if specs == [] then []
    else
      var front, last := Catalog(specs[..|specs| - 1], profile, depth, browserModule), specs[|specs| - 1];
      if Admits(last, profile, depth) then front + [Defined(last, browserModule)] else front
  }

  predicate EarlierStage(a: Definition, b: Definition) {
    Index(a.stage) <= Index(b.stage)
  }

  /** The common steps and the module's, by stage; nothing when no procedure or an unknown version was chosen. */
  function DefinitionsFor(profile: Option<Profile>, depth: Option<Depth>, version: Option<nat>): seq<Definition> {
    if profile.None? || depth.None? then []
    else
      var modular := ModuleSteps(profile.value, version);
      if modular.None? then []
      else SortBy(Catalog(COMMON_STEPS, profile.value, depth.value, false) + Catalog(modular.value, profile.value, depth.value, true), EarlierStage)
  }

  // ---------------------------------------------------------------- a step has one definition

  predicate DistinctSteps(specs: seq<Spec>) {
    forall i, j :: 0 <= i < j < |specs| ==> specs[i].step != specs[j].step
  }

  /** What the two lists share is marked for the UI profile only. */
  predicate OnlyUiShared(common: seq<Spec>, modular: seq<Spec>) {
    forall i, j :: 0 <= i < |common| && 0 <= j < |modular| && common[i].step == modular[j].step ==> common[i].uiOnly
  }

  lemma {:induction false} CatalogIs(specs: seq<Spec>, profile: Profile, depth: Depth, browserModule: bool, d: Definition)
    ensures d in Catalog(specs, profile, depth, browserModule)
      <==> exists i :: 0 <= i < |specs| && Admits(specs[i], profile, depth) && Defined(specs[i], browserModule) == d
  {
    if specs != [] { CatalogIs(specs[..|specs| - 1], profile, depth, browserModule, d); }
  }

  /** Where the common list names a step. */
  function Position(step: StepId): nat {
    match step
    case ProblemAndOutcome => 0
    case BaselineAndConstraints => 1
    case OptionsAndRisks => 2
    case VerificationStrategy => 3
    case DeliveryContract => 4
    case ConceptComparison => 5
    case InteractionSpec => 6
    case VerticalSlice => 7
    case ScenarioWalkthrough => 8
    case RenderedBrowserReview => 9
    case MechanicalChecks => 10
    case QualityReview => 11
    case ResidualRisks => 12
    case ResponsiveAccessibilityReview => 13
    case _ => 14
  }

  lemma CommonPosition(i: nat)
    requires i < |COMMON_STEPS|
    ensures Position(COMMON_STEPS[i].step) == i && (i == 9 || i == 13 ==> COMMON_STEPS[i].uiOnly)
  {
  }

  lemma BrowserPosition(j: nat)
    requires j < |BROWSER_STEPS|
    ensures Position(BROWSER_STEPS[j].step) == if j == 0 then 14 else if j == 1 then 9 else 13
    ensures j < 3
  {
  }

  /** Both lists name each step once, and share only steps the common list marks for the UI profile. */
  lemma TablesDistinct()
    ensures DistinctSteps(COMMON_STEPS) && DistinctSteps(BROWSER_STEPS)
    ensures OnlyUiShared(COMMON_STEPS, BROWSER_STEPS)
  {
    hide COMMON_STEPS, BROWSER_STEPS, Position;
    forall i, j | 0 <= i < j < |COMMON_STEPS| ensures COMMON_STEPS[i].step != COMMON_STEPS[j].step {
      CommonPosition(i);
      CommonPosition(j);
    }
    forall i, j | 0 <= i < j < |BROWSER_STEPS| ensures BROWSER_STEPS[i].step != BROWSER_STEPS[j].step {
      BrowserPosition(i);
      BrowserPosition(j);
    }
    forall i, j | 0 <= i < |COMMON_STEPS| && 0 <= j < |BROWSER_STEPS| && COMMON_STEPS[i].step == BROWSER_STEPS[j].step ensures COMMON_STEPS[i].uiOnly {
      CommonPosition(i);
      BrowserPosition(j);
      assert |COMMON_STEPS| == 14 by { CommonCount(); }
    }
  }

  lemma CommonCount()
    ensures |COMMON_STEPS| == 14
  {
  }

  lemma {:induction false} CatalogDetermines(specs: seq<Spec>, profile: Profile, depth: Depth, browserModule: bool, d: Definition, e: Definition)
    requires DistinctSteps(specs)
    requires d in Catalog(specs, profile, depth, browserModule) && e in Catalog(specs, profile, depth, browserModule) && d.step == e.step
    ensures d == e
  {
    CatalogIs(specs, profile, depth, browserModule, d);
    CatalogIs(specs, profile, depth, browserModule, e);
  }

  /** In every procedure a step identifier has one stage and one skip rule. */
  lemma StepsDetermine(profile: Option<Profile>, depth: Option<Depth>, version: Option<nat>, d: Definition, e: Definition)
    requires d in DefinitionsFor(profile, depth, version) && e in DefinitionsFor(profile, depth, version) && d.step == e.step
    ensures d == e
  {
    hide SortBy, Catalog;
    TablesDistinct();
    hide COMMON_STEPS, BROWSER_STEPS;
    var p, q, modular := profile.value, depth.value, ModuleSteps(profile.value, version).value;
    var common, browser := Catalog(COMMON_STEPS, p, q, false), Catalog(modular, p, q, true);
    if d in common && e in common { CatalogDetermines(COMMON_STEPS, p, q, false, d, e); }
    else if d in browser && e in browser { CatalogDetermines(modular, p, q, true, d, e); }
    else if d in common { Apart(p, q, modular, version, d, e); }
    else { Apart(p, q, modular, version, e, d); }
  }

  /** A common step and a module step of one procedure have different identifiers. */
  lemma {:induction false} Apart(p: Profile, q: Depth, modular: seq<Spec>, version: Option<nat>, d: Definition, e: Definition)
    requires ModuleSteps(p, version) == Some(modular)
    requires d in Catalog(COMMON_STEPS, p, q, false) && e in Catalog(modular, p, q, true)
    ensures d.step != e.step
  {
    hide Catalog;
    TablesDistinct();
    CatalogIs(COMMON_STEPS, p, q, false, d);
    CatalogIs(modular, p, q, true, e);
  }
}
