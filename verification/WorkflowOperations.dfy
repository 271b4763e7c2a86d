/** What each workflow request needs and what it then records, field by field. */
module WorkflowOperations {
  import opened Ordering
  import opened WriteScope
  import opened WorkflowProcedure
  import opened Workflow
  import opened WorkflowRuns
  import opened WorkflowGaps

  // ---------------------------------------------------------------- evidence and shape

  /** The row exists, is of the task's session, of this kind and grade, no older, and not another task's already. */
  ghost predicate Cites(w: World, session: Id, id: Id, kind: EvidenceKind, grade: Grade, since: int) {
    && id in w.evidence && id !in w.bound
    && var e := w.evidence[id];
       e.session == session && e.kind == kind && e.grade == grade && since <= e.createdAt
  }

  ghost predicate CitesFile(w: World, session: Id, id: Id, since: int) {
    Cites(w, session, id, WorkspaceFile, Direct, since)
  }

  ghost predicate CitesUser(w: World, session: Id, id: Id, since: int) {
    Cites(w, session, id, UserStatement, Reported, since)
  }

  /** Registered after every rework the stream has recorded. */
  ghost predicate SinceRework(w: World, log: seq<Event>, id: Id) {
    forall e :: e in log && e.request.Record? && e.request.disposition == ReworkRequired
      ==> id in w.evidence && w.evidence[id].sequence.Some? && w.evidence[id].sequence.value > e.sequence
  }

  lemma {:induction false} LatestIsGreatest(log: seq<Event>)
    ensures LatestRework(log).None? <==> forall e :: e in log ==> !IsRework(e)
    ensures LatestRework(log).Some? ==> forall e :: e in log && IsRework(e) ==> e.sequence <= LatestRework(log).value
    ensures LatestRework(log).Some? ==> exists e :: e in log && IsRework(e) && e.sequence == LatestRework(log).value
  {
    if log != [] {
      var front, last := log[..|log| - 1], log[|log| - 1];
      LatestIsGreatest(front);
      assert log == front + [last];
      if LatestRework(front).Some? {
        var e :| e in front && IsRework(e) && e.sequence == LatestRework(front).value;
        assert e in log;
      }
      if IsRework(last) { assert last in log; }
    }
  }

  lemma AfterReworkExactly(w: World, log: seq<Event>, id: Id)
    ensures AfterRework(w, log, id) <==> SinceRework(w, log, id)
  {
    hide LatestRework;
    LatestIsGreatest(log);
    if LatestRework(log).Some? {
      var e :| e in log && IsRework(e) && e.sequence == LatestRework(log).value;
    }
  }

  ghost predicate DistinctRows(ids: seq<Id>) {
    |ids| <= 8 && Distinct(ids)
  }

  ghost predicate Shaped(key: string, r: Request) {
    && HasInk(key)
    && match r
       case MakePlan(objective, targetUser, constraints, successMeasure, unknowns, resolutions, _, _, _, profile, depth) =>
         && (profile.Some? <==> depth.Some?)
         && Bytes(objective) <= 2000 && Bytes(targetUser) <= 2000 && Bytes(constraints) <= 2000 && Bytes(successMeasure) <= 2000
         && |unknowns| <= 16 && (forall u :: u in unknowns ==> HasInk(u) && Bytes(u) <= 500)
         && |resolutions| <= 16
       case Advance(_, artifacts, _) => DistinctRows(artifacts)
       case Record(step, _, evidence, reason) =>
         && (step.Unlisted? ==> HasInk(step.name)) && DistinctRows(evidence)
         && (reason.Some? ==> Bytes(reason.value) <= 500)
  }

  lemma UnknownsShaped(unknowns: seq<string>)
    ensures (forall i :: 0 <= i < |unknowns| ==> UnknownShape(unknowns[i])) <==> forall u :: u in unknowns ==> HasInk(u) && Bytes(u) <= 500
  {
    hide Bytes, Blank, HasInk;
    forall i | 0 <= i < |unknowns| ensures unknowns[i] in unknowns && (Blank(unknowns[i]) <==> !HasInk(unknowns[i])) {
      InkExactly(unknowns[i]);
    }
  }

  lemma ShapeExactly(key: string, r: Request)
    ensures WellFormed(key, r) <==> Shaped(key, r)
  {
    hide Bytes, Blank, HasInk;
    InkExactly(key);
    match r
    case MakePlan(_, _, _, _, unknowns, _, _, _, _, _, _) => UnknownsShaped(unknowns);
    case Advance(_, _, _) =>
    case Record(step, _, _, _) => if step.Unlisted? { InkExactly(step.name); }
  }

  // ---------------------------------------------------------------- a keyed request

  ghost predicate KeyFree(log: seq<Event>, key: string) {
    forall i :: 0 <= i < |log| ==> log[i].key != key
  }

  ghost predicate KeysDistinct(log: seq<Event>) {
    forall i, j :: 0 <= i < j < |log| ==> log[i].key != log[j].key
  }

  lemma {:induction false} LookupExactly(log: seq<Event>, key: string)
    ensures Lookup(log, key).None? <==> KeyFree(log, key)
    ensures Lookup(log, key).Some? ==> Lookup(log, key).value in log && Lookup(log, key).value.key == key
  {
    if log != [] {
      var front := log[..|log| - 1];
      LookupExactly(front, key);
      assert forall i :: 0 <= i < |front| ==> front[i] == log[i];
    }
  }

  lemma {:induction false} HistoryKeepsKeys(history: seq<Step>)
    ensures KeysDistinct(After(history))
  {
    hide WellFormed, RequestError, Refreshed, Outcome;
    if history != [] {
      var c := history[|history| - 1];
      HistoryKeepsKeys(history[..|history| - 1]);
      LookupExactly(After(history[..|history| - 1]), c.key);
    }
  }

  /** One more event, holding the request and the status it leaves. */
  ghost predicate Records(log: seq<Event>, next: seq<Event>, a: Response, w: World, key: string, r: Request, s: Status) {
    next == log + [Event(key, r, s, w.sequence)] && a == Ok(s, false)
  }

  ghost predicate AskedBefore(log: seq<Event>, key: string, r: Request) {
    exists i :: 0 <= i < |log| && log[i].key == key && log[i].request == r
  }

  /** A repeated request gets its recorded answer, anything else is refused, and nothing is added. */
  ghost predicate RepeatsOrRefuses(log: seq<Event>, next: seq<Event>, a: Response, key: string, r: Request, known: bool) {
    && next == log
    && if known && AskedBefore(log, key, r)
       then exists i :: 0 <= i < |log| && log[i].key == key && a == Ok(log[i].status, true)
       else a.Refused?
  }

  lemma SubmitExactly(log: seq<Event>, w: World, key: string, r: Request, elsewhere: bool, now: int)
    requires KeysDistinct(log)
    ensures var (next, a) := Submit(log, w, key, r, elsewhere, now);
      if Shaped(key, r) && !elsewhere && KeyFree(log, key) && RequestError(w, log, r).None?
      then Records(log, next, a, w, key, r, Refreshed(w, w.task.value, Outcome(w, log, r, now)))
      else RepeatsOrRefuses(log, next, a, key, r, Shaped(key, r) && !elsewhere)
  {
    hide Shaped, WellFormed, Outcome, Refreshed, Lookup;
    ShapeExactly(key, r);
    LookupExactly(log, key);
    if Lookup(log, key).Some? {
      var i :| 0 <= i < |log| && log[i] == Lookup(log, key).value;
      assert forall j :: 0 <= j < |log| && log[j].key == key ==> j == i;
    } else if RequestError(w, log, r).None? {
      AcceptedHasTask(w, log, r);
      hide RequestError;
    }
  }

  // ---------------------------------------------------------------- planning

  ghost predicate Working(w: World) {
    w.task.Some? && w.task.value.status == Active && w.task.value.sessionOpen
  }

  ghost function ChosenProfile(r: Request): Profile
    requires r.MakePlan?
  {
    if r.profile.Some? then r.profile.value else General
  }

  ghost function ChosenDepth(r: Request): Depth
    requires r.MakePlan?
  {
    if r.depth.Some? then r.depth.value else if r.materialChange then Standard else Light
  }

  /** Resolution `i`, and no other, answers the unknown. */
  ghost predicate OnlyAnswer(resolutions: seq<Resolution>, i: nat, unknown: string) {
    && i < |resolutions| && resolutions[i].unknown == unknown
    && forall j :: 0 <= j < |resolutions| && j != i ==> resolutions[j].unknown != unknown
  }

  ghost predicate AnsweredOnce(w: World, session: Id, r: Request, unknown: string, since: int)
    requires r.MakePlan?
  {
    exists i: nat :: OnlyAnswer(r.resolutions, i, unknown)
      && (CitesFile(w, session, r.resolutions[i].evidence, since) || CitesUser(w, session, r.resolutions[i].evidence, since))
  }

  /** Less deciding, less reviewing, another profile, or a shallower procedure than before. */
  ghost predicate AsksLess(prev: Plan, r: Request)
    requires r.MakePlan?
  {
    || (prev.userDecision && !r.userDecision) || (prev.materialChange && !r.materialChange)
    || prev.profile != Some(ChosenProfile(r))
    || (prev.depth.Some? && !Reaches(ChosenDepth(r), prev.depth.value))
  }

  /** A first plan resolves nothing and relaxes nothing; a revision answers each unknown it drops, answers nothing
      else, and cites the user exactly when it asks for less. */
  ghost predicate Revises(w: World, prev: Option<Plan>, r: Request)
    requires r.MakePlan? && w.task.Some?
  {
    match prev
    case None => r.resolutions == [] && r.scopeEvidence.None?
    case Some(p) =>
      var session := w.task.value.session;
      && (forall u :: u in p.unknowns && u !in r.unknowns ==> AnsweredOnce(w, session, r, u, p.createdAt))
      && (forall x :: x in r.resolutions ==> x.unknown in p.unknowns && x.unknown !in r.unknowns)
      && if AsksLess(p, r) then r.scopeEvidence.Some? && CitesUser(w, session, r.scopeEvidence.value, p.createdAt)
         else r.scopeEvidence.None?
  }

  /** The plan keeps the request, field by field, under a new revision. */
  ghost predicate PlanOf(p: Plan, r: Request, revision: Id, now: int) {
    && r.MakePlan? && p.revision == revision && p.createdAt == now
    && p.objective == r.objective && p.targetUser == r.targetUser && p.constraints == r.constraints && p.successMeasure == r.successMeasure
    && p.unknowns == r.unknowns && p.resolutions == r.resolutions && p.scopeEvidence == r.scopeEvidence
    && p.userDecision == r.userDecision && p.materialChange == r.materialChange
    && p.profile == Some(ChosenProfile(r)) && p.depth == Some(ChosenDepth(r))
    && p.version == Some(if ChosenProfile(r) == Frontend then 2 else 1)
  }

  /** The stream starts over at intake with the new plan. */
  ghost predicate StartsOver(log: seq<Event>, next: seq<Event>, a: Response, w: World, key: string, r: Request, now: int)
    requires w.task.Some?
  {
    exists s: Status ::
      Records(log, next, a, w, key, r, s) && s.stage == Intake && s.transitions == [] && s.steps == []
      && s.plan.Some? && PlanOf(s.plan.value, r, w.sequence, now) && s.missing == Missing(w, w.task.value, s)
  }

  lemma {:induction false} ResolutionsExactly(resolutions: seq<Resolution>, unknown: string)
    ensures ResolutionsFor(resolutions, unknown) == [] <==> forall i :: 0 <= i < |resolutions| ==> resolutions[i].unknown != unknown
    ensures |ResolutionsFor(resolutions, unknown)| == 1 <==> exists i: nat :: OnlyAnswer(resolutions, i, unknown)
    ensures forall i: nat :: OnlyAnswer(resolutions, i, unknown) ==> ResolutionsFor(resolutions, unknown) == [resolutions[i]]
  {
    if resolutions != [] {
      var front, last := resolutions[..|resolutions| - 1], resolutions[|resolutions| - 1];
      ResolutionsExactly(front, unknown);
      assert forall i :: 0 <= i < |front| ==> front[i] == resolutions[i];
      forall i: nat | OnlyAnswer(resolutions, i, unknown) && i < |front| ensures OnlyAnswer(front, i, unknown) { }
      if last.unknown != unknown {
        forall i: nat | OnlyAnswer(front, i, unknown) ensures OnlyAnswer(resolutions, i, unknown) { }
      } else if ResolutionsFor(front, unknown) == [] {
        assert OnlyAnswer(resolutions, |front|, unknown);
      }
    }
  }

  lemma HandledExactly(w: World, session: Id, r: Request, unknown: string, since: int)
    requires r.MakePlan?
    ensures UnknownHandled(w, session, r, unknown, since) <==> unknown in r.unknowns || AnsweredOnce(w, session, r, unknown, since)
  {
    hide ResolutionsFor;
    ResolutionsExactly(r.resolutions, unknown);
    if |ResolutionsFor(r.resolutions, unknown)| == 1 {
      var i: nat :| OnlyAnswer(r.resolutions, i, unknown);
      assert ResolutionsFor(r.resolutions, unknown) == [r.resolutions[i]];
      forall j: nat | OnlyAnswer(r.resolutions, j, unknown) ensures r.resolutions[j] == r.resolutions[i] { }
    }
  }

  lemma UnknownsExactly(w: World, session: Id, r: Request, known: seq<string>, since: int)
    requires r.MakePlan?
    ensures UnknownsHandled(w, session, r, known, since) <==> forall u :: u in known && u !in r.unknowns ==> AnsweredOnce(w, session, r, u, since)
    ensures ResolutionsNameRemoved(r, known) <==> forall x :: x in r.resolutions ==> x.unknown in known && x.unknown !in r.unknowns
  {
    hide UnknownHandled, AnsweredOnce;
    forall u ensures UnknownHandled(w, session, r, u, since) <==> u in r.unknowns || AnsweredOnce(w, session, r, u, since) {
      HandledExactly(w, session, r, u, since);
    }
    forall i | 0 <= i < |r.resolutions| ensures r.resolutions[i] in r.resolutions { }
    forall i | 0 <= i < |known| ensures known[i] in known { }
  }

  lemma RelaxesExactly(p: Plan, r: Request)
    requires r.MakePlan? && (r.profile.Some? <==> r.depth.Some?)
    ensures Relaxes(p, r) <==> AsksLess(p, r)
    ensures ProfileOf(r) == Some(ChosenProfile(r)) && DepthOf(r) == Some(ChosenDepth(r))
  {
  }

  lemma PlanErrorExactly(w: World, log: seq<Event>, r: Request)
    requires r.MakePlan? && (r.profile.Some? <==> r.depth.Some?)
    ensures PlanError(w, log, r).None? <==> Working(w) && |log| < 128 && Revises(w, Current(log).plan, r)
  {
    hide UnknownsHandled, ResolutionsNameRemoved, Relaxes, AsksLess, AnsweredOnce, Missing;
    if w.task.Some? {
      var prev := Current(log).plan;
      assert ReadStatus(w, w.task.value, log).plan == prev;
      var known := if prev.Some? then prev.value.unknowns else [];
      var since := if prev.Some? then prev.value.createdAt else 0;
      UnknownsExactly(w, w.task.value.session, r, known, since);
      if prev.Some? {
        RelaxesExactly(prev.value, r);
      } else {
        NoResolutions(r);
      }
    }
  }

  lemma NoResolutions(r: Request)
    requires r.MakePlan?
    ensures (forall x :: x in r.resolutions ==> false) <==> r.resolutions == []
  {
    if r.resolutions != [] { assert r.resolutions[0] in r.resolutions; }
  }

  /** A plan is accepted exactly when the task is being worked on, there is room, and it revises the plan before
      properly; the stream then starts over with what was asked for. */
  lemma {:induction false} PlanExactly(history: seq<Step>, w: World, key: string, r: Request, elsewhere: bool, now: int)
    requires r.MakePlan?
    ensures var log := After(history); var (next, a) := Submit(log, w, key, r, elsewhere, now);
      if Shaped(key, r) && !elsewhere && KeyFree(log, key) && Working(w) && |log| < 128 && Revises(w, Current(log).plan, r)
      then StartsOver(log, next, a, w, key, r, now)
      else RepeatsOrRefuses(log, next, a, key, r, Shaped(key, r) && !elsewhere)
  {
    hide After, Submit, Missing, Revises, RepeatsOrRefuses;
    var log := After(history);
    HistoryKeepsKeys(history);
    SubmitExactly(log, w, key, r, elsewhere, now);
    if Shaped(key, r) {
      PlanErrorExactly(w, log, r);
      hide Shaped, PlanError;
      if !elsewhere && KeyFree(log, key) && RequestError(w, log, r).None? {
        NewPlanExactly(w, log, r, now);
      }
    }
  }

  lemma NewPlanExactly(w: World, log: seq<Event>, r: Request, now: int)
    requires r.MakePlan? && (r.profile.Some? <==> r.depth.Some?) && RequestError(w, log, r).None? && w.task.Some?
    ensures var s := Refreshed(w, w.task.value, Outcome(w, log, r, now));
      && s.stage == Intake && s.transitions == [] && s.steps == [] && s.plan.Some?
      && PlanOf(s.plan.value, r, w.sequence, now) && s.missing == Missing(w, w.task.value, s)
  {
    MissingSame(w, w.task.value, Outcome(w, log, r, now));
    hide RequestError, Missing;
    RelaxesExactly(NewPlan(r, w.sequence, now), r);
  }

  // ---------------------------------------------------------------- advancing

  ghost predicate AllFiles(w: World, session: Id, ids: seq<Id>, since: int) {
    forall id :: id in ids ==> CitesFile(w, session, id, since)
  }

  /** Leaving planning, design and implementation takes files. */
  ghost predicate FilesFit(w: World, session: Id, stage: Stage, p: Plan, ids: seq<Id>) {
    if stage == Planning || stage == Design || stage == Implementation
    then ids != [] && AllFiles(w, session, ids, p.createdAt)
    else ids == []
  }

  /** Leaving design takes the user's word where the plan asks for it. */
  ghost predicate WordFits(w: World, session: Id, stage: Stage, p: Plan, word: Option<Id>) {
    if stage == Design && p.userDecision then word.Some? && CitesUser(w, session, word.value, p.createdAt) else word.None?
  }

  /** An active task needs its session open; a finished one may only close verification. */
  ghost predicate MayAdvance(task: Task, stage: Stage) {
    match task.status
    case Active => task.sessionOpen
    case Finished => stage == Verification
    case Cancelled => false
  }

  ghost predicate NothingLacks(w: World, task: Task, s: Status) {
    forall g :: !Lacking(w, task, s, g)
  }

  ghost predicate Advances(w: World, s: Status, r: Request)
    requires r.Advance?
  {
    && w.task.Some? && MayAdvance(w.task.value, s.stage)
    && s.stage == r.expected && s.stage != Completed && s.plan.Some? && NothingLacks(w, w.task.value, s)
    && FilesFit(w, w.task.value.session, s.stage, s.plan.value, r.artifacts)
    && WordFits(w, w.task.value.session, s.stage, s.plan.value, r.decisionEvidence)
  }

  /** One stage further, with a transition that names what it rests on. */
  ghost predicate MovedOn(w: World, s: Status, t: Status, r: Request) {
    && r.Advance? && Index(t.stage) == Index(s.stage) + 1 && t.plan == s.plan && t.steps == s.steps
    && t.transitions != [] && t.transitions[..|t.transitions| - 1] == s.transitions
    && var x := t.transitions[|t.transitions| - 1];
       && x.stage == t.stage && x.artifacts == r.artifacts && x.userDecision == r.decisionEvidence
       && if s.stage == Design then exists d :: LatestDecision(w, d) && x.decision == Some(d.id) else x.decision.None?
  }

  ghost predicate GoesOn(log: seq<Event>, next: seq<Event>, a: Response, w: World, key: string, r: Request)
    requires w.task.Some?
  {
    exists t: Status ::
      Records(log, next, a, w, key, r, t) && MovedOn(w, Current(log), t, r) && t.missing == Missing(w, w.task.value, t)
  }

  lemma FilesExactly(w: World, session: Id, ids: seq<Id>, since: int)
    ensures AllFit(w, session, ids, since) <==> AllFiles(w, session, ids, since)
  {
    forall i | 0 <= i < |ids| ensures ids[i] in ids { }
  }

  lemma NothingExactly(w: World, task: Task, s: Status)
    requires DecisionsDistinct(w)
    ensures Missing(w, task, s) == [] <==> NothingLacks(w, task, s)
  {
    hide Missing, Lacking;
    forall g ensures g in Missing(w, task, s) <==> Lacking(w, task, s, g) { MissingExactly(w, task, s, g); }
    if Missing(w, task, s) != [] { assert Missing(w, task, s)[0] in Missing(w, task, s); }
  }

  lemma AdvanceErrorExactly(w: World, log: seq<Event>, r: Request)
    requires r.Advance? && DecisionsDistinct(w)
    ensures AdvanceError(w, log, r).None? <==> Advances(w, Current(log), r) && |log| < 128
  {
    hide Missing, NothingLacks, AllFit, AllFiles;
    if w.task.Some? {
      var s := Current(log);
      MissingSame(w, w.task.value, s);
      NothingExactly(w, w.task.value, s);
      if s.plan.Some? { FilesExactly(w, w.task.value.session, r.artifacts, s.plan.value.createdAt); }
    }
  }

  lemma AdvancedExactly(w: World, log: seq<Event>, r: Request, now: int)
    requires r.Advance? && DecisionsDistinct(w) && RequestError(w, log, r).None? && w.task.Some? && Advances(w, Current(log), r)
    ensures var t := Refreshed(w, w.task.value, Outcome(w, log, r, now));
      MovedOn(w, Current(log), t, r) && t.missing == Missing(w, w.task.value, t)
  {
    MissingSame(w, w.task.value, Outcome(w, log, r, now));
    if Current(log).stage == Design { DesignHasDecision(w, Current(log)); }
    AdvancedMoves(w, w.task.value, Current(log), r);
    hide RequestError, Missing, NothingLacks, MovedOn;
    assert Outcome(w, log, r, now) == Advanced(w, ReadStatus(w, w.task.value, log), r);
  }

  lemma AdvancedMoves(w: World, task: Task, s: Status, r: Request)
    requires r.Advance? && s.stage != Completed && (s.stage == Design ==> w.decisions != [] && LatestDecision(w, w.decisions[|w.decisions| - 1]))
    ensures MovedOn(w, s, Refreshed(w, task, Advanced(w, Refreshed(w, task, s), r)), r)
  {
    hide Missing;
  }

  lemma DesignHasDecision(w: World, s: Status)
    requires s.stage == Design && s.plan.Some? && w.task.Some? && NothingLacks(w, w.task.value, s)
    ensures w.decisions != [] && LatestDecision(w, w.decisions[|w.decisions| - 1])
  {
    assert !Lacking(w, w.task.value, s, AssessmentMissing);
  }

  /** An advance is accepted exactly at the stage it expects, when nothing is lacking there and it brings what the
      stage asks for; the workflow is then one stage further. */
  lemma {:induction false} AdvanceExactly(history: seq<Step>, w: World, key: string, r: Request, elsewhere: bool, now: int)
    requires r.Advance? && DecisionsDistinct(w)
    ensures var log := After(history); var (next, a) := Submit(log, w, key, r, elsewhere, now);
      if Shaped(key, r) && !elsewhere && KeyFree(log, key) && Advances(w, Current(log), r) && |log| < 128
      then GoesOn(log, next, a, w, key, r)
      else RepeatsOrRefuses(log, next, a, key, r, Shaped(key, r) && !elsewhere)
  {
    hide After, Submit, Missing, RepeatsOrRefuses, AdvanceError, Shaped, Advances, MovedOn, DecisionsDistinct;
    var log := After(history);
    HistoryKeepsKeys(history);
    SubmitExactly(log, w, key, r, elsewhere, now);
    AdvanceErrorExactly(w, log, r);
    if Shaped(key, r) && !elsewhere && KeyFree(log, key) && RequestError(w, log, r).None? {
      AcceptedHasTask(w, log, r);
      AdvancedExactly(w, log, r, now);
    }
  }

  // ---------------------------------------------------------------- recording steps

  ghost predicate HasReason(r: Request)
    requires r.Record?
  {
    r.reason.Some? && HasInk(r.reason.value)
  }

  ghost predicate RecordFits(w: World, log: seq<Event>, s: Status, d: Definition, r: Request)
    requires r.Record? && w.task.Some? && s.plan.Some?
  {
    var session, since := w.task.value.session, s.plan.value.createdAt;
    match r.disposition
    case Done =>
      && d.stage == s.stage && r.evidence != [] && r.reason.None?
      && AllFiles(w, session, r.evidence, since) && forall id :: id in r.evidence ==> SinceRework(w, log, id)
    case Skipped => d.stage == s.stage && d.skippable && r.evidence == [] && HasReason(r)
    case ReworkRequired =>
      && Index(d.stage) <= Index(s.stage) && s.stage != Completed && HasReason(r) && AllFiles(w, session, r.evidence, since)
  }

  ghost predicate DefinesStep(s: Status, d: Definition, r: Request) {
    r.Record? && s.plan.Some? && d in Definitions(s.plan.value) && d.step == r.step
  }

  ghost predicate Recordable(w: World, log: seq<Event>, r: Request, d: Definition)
    requires r.Record?
  {
    Working(w) && DefinesStep(Current(log), d, r) && RecordFits(w, log, Current(log), d, r) && |log| < 128
  }

  /** `kept` are the statuses that qualify, in the order they had. */
  ghost predicate KeptOf(kept: seq<StepStatus>, all: seq<StepStatus>, keep: StepStatus -> bool) {
    && OncePerStep(kept) && (forall x :: x in kept <==> x in all && keep(x))
    && forall i: nat, j: nat :: i < j < |kept| ==> InThatOrder(all, kept[i], kept[j])
  }

  ghost predicate InThatOrder(all: seq<StepStatus>, x: StepStatus, y: StepStatus) {
    exists p: nat, q: nat :: p < q < |all| && all[p] == x && all[q] == y
  }

  ghost predicate StatusOfStep(x: StepStatus, r: Request, d: Definition) {
    && r.Record? && x.step == r.step && x.stage == d.stage && x.disposition == r.disposition
    && x.evidence == r.evidence && x.reason == r.reason
  }

  /** Rework goes back to the step's stage and forgets what came after; anything else replaces the step's status. */
  ghost predicate Settles(s: Status, t: Status, r: Request, d: Definition) {
    && r.Record? && t.plan == s.plan && t.steps != [] && StatusOfStep(t.steps[|t.steps| - 1], r, d)
    && var kept := t.steps[..|t.steps| - 1];
       if r.disposition == ReworkRequired
       then t.stage == d.stage && |s.transitions| >= Index(d.stage) && t.transitions == s.transitions[..Index(d.stage)]
            && KeptOf(kept, s.steps, (x: StepStatus) => Index(x.stage) < Index(d.stage))
       else t.stage == s.stage && t.transitions == s.transitions && KeptOf(kept, s.steps, (x: StepStatus) => x.step != r.step)
  }

  ghost predicate NotesStep(log: seq<Event>, next: seq<Event>, a: Response, w: World, key: string, r: Request, d: Definition)
    requires w.task.Some?
  {
    exists t: Status ::
      Records(log, next, a, w, key, r, t) && Settles(Current(log), t, r, d) && t.missing == Missing(w, w.task.value, t)
  }

  lemma {:induction false} FindDefinitionSome(defs: seq<Definition>, d: Definition)
    requires d in defs
    ensures FindDefinition(defs, d.step).Some?
  {
    if defs[|defs| - 1] != d { FindDefinitionSome(defs[..|defs| - 1], d); }
  }

  lemma DefinesExactly(s: Status, r: Request, d: Definition)
    requires r.Record? && s.plan.Some?
    ensures DefinesStep(s, d, r) <==> FindDefinition(Definitions(s.plan.value), r.step) == Some(d)
  {
    hide Definitions, FindDefinition;
    var p := s.plan.value;
    FindDefinitionIs(Definitions(p), r.step);
    if DefinesStep(s, d, r) {
      FindDefinitionSome(Definitions(p), d);
      DefinitionsDetermine(p, d, FindDefinition(Definitions(p), r.step).value);
    }
  }

  lemma DefinitionsDetermine(p: Plan, d: Definition, e: Definition)
    requires d in Definitions(p) && e in Definitions(p) && d.step == e.step
    ensures d == e
  {
    hide DefinitionsFor;
    StepsDetermine(p.profile, p.depth, p.version, d, e);
  }

  lemma StepEvidenceExactly(w: World, log: seq<Event>, session: Id, r: Request, since: int)
    requires r.Record?
    ensures StepEvidenceFits(w, log, session, r, since)
      <==> AllFiles(w, session, r.evidence, since) && (r.disposition == Done ==> forall id :: id in r.evidence ==> SinceRework(w, log, id))
  {
    hide AfterRework, SinceRework, CitesFile;
    forall id ensures AfterRework(w, log, id) <==> SinceRework(w, log, id) { AfterReworkExactly(w, log, id); }
    forall id ensures EvidenceFits(w, session, id, WorkspaceFile, Direct, since) <==> CitesFile(w, session, id, since) {
      CitesFileExactly(w, session, id, since);
    }
    forall i | 0 <= i < |r.evidence| ensures r.evidence[i] in r.evidence { }
  }

  lemma CitesFileExactly(w: World, session: Id, id: Id, since: int)
    ensures EvidenceFits(w, session, id, WorkspaceFile, Direct, since) <==> CitesFile(w, session, id, since)
  {
  }

  ghost predicate InReach(s: Status, d: Definition, r: Request)
    requires r.Record?
  {
    if r.disposition == ReworkRequired then Index(d.stage) <= Index(s.stage) && s.stage != Completed else d.stage == s.stage
  }

  lemma FitsExactly(w: World, log: seq<Event>, s: Status, d: Definition, r: Request)
    requires r.Record? && w.task.Some? && s.plan.Some?
    ensures RecordFits(w, log, s, d, r)
      <==> InReach(s, d, r) && DispositionShape(r, d) && StepEvidenceFits(w, log, w.task.value.session, r, s.plan.value.createdAt)
  {
    StepEvidenceExactly(w, log, w.task.value.session, r, s.plan.value.createdAt);
    hide StepEvidenceFits, SinceRework, CitesFile;
    if r.reason.Some? { InkExactly(r.reason.value); }
    hide Blank, HasInk;
  }

  lemma RecordErrorExactly(w: World, log: seq<Event>, r: Request, d: Definition)
    requires r.Record?
    ensures RecordError(w, log, r).None? && DefinesStep(Current(log), d, r) <==> Recordable(w, log, r, d)
  {
    hide Definitions, FindDefinition, Missing, RecordFits, DispositionShape, StepEvidenceFits, DefinesStep;
    var s := Current(log);
    if w.task.Some? && s.plan.Some? {
      DefinesExactly(s, r, d);
      FitsExactly(w, log, s, d, r);
    }
    DefinesNeedsPlan(s, d, r);
  }

  lemma AcceptedIsDefined(w: World, log: seq<Event>, r: Request) returns (d: Definition)
    requires r.Record? && RecordError(w, log, r).None?
    ensures DefinesStep(Current(log), d, r)
  {
    hide Definitions, FindDefinition, Missing, DispositionShape, StepEvidenceFits, DefinesStep;
    var s := Current(log);
    d := FindDefinition(Definitions(s.plan.value), r.step).value;
    DefinesExactly(s, r, d);
  }

  lemma DefinesNeedsPlan(s: Status, d: Definition, r: Request)
    ensures DefinesStep(s, d, r) ==> s.plan.Some?
  {
  }

  lemma {:induction false} KeptExactly(all: seq<StepStatus>, keep: StepStatus -> bool)
    requires OncePerStep(all)
    ensures KeptOf(Filter(all, keep), all, keep)
  {
    hide Filter;
    FilterSteps(all, keep);
    var kept := Filter(all, keep);
    forall i: nat, j: nat | i < j < |kept| ensures InThatOrder(all, kept[i], kept[j]) {
      var p, q := FilterInOrder(all, keep, i, j);
    }
  }

  lemma RecordedExactly(w: World, session: Id, s: Status, r: Request, d: Definition)
    requires r.Record? && StatusOk(w, session, s) && (r.disposition == ReworkRequired ==> Index(d.stage) <= Index(s.stage))
    ensures Settles(s, Recorded(s, r, d), r, d)
  {
    hide StepOk, StepEvidenced, TransitionOk, CompletionOk, Definitions, IntakeSettled, Filter, KeptOf;
    var t := Recorded(s, r, d);
    assert t.steps[..|t.steps| - 1] + [t.steps[|t.steps| - 1]] == t.steps;
    if r.disposition == ReworkRequired {
      var keep := (x: StepStatus) => Index(x.stage) < Index(d.stage);
      KeptExactly(s.steps, keep);
      assert t.steps[..|t.steps| - 1] == Filter(s.steps, keep);
      ReworkKeepsTransitions(w, session, s, r, d);
    } else {
      var keep := (x: StepStatus) => x.step != r.step;
      KeptExactly(s.steps, keep);
      assert t.steps[..|t.steps| - 1] == Filter(s.steps, keep);
    }
  }

  lemma NewStepExactly(w: World, log: seq<Event>, r: Request, now: int, d: Definition)
    requires r.Record? && RequestError(w, log, r).None? && w.task.Some? && RunOk(w, log) && Recordable(w, log, r, d)
    ensures var t := Refreshed(w, w.task.value, Outcome(w, log, r, now));
      Settles(Current(log), t, r, d) && t.missing == Missing(w, w.task.value, t)
  {
    var s := Current(log);
    MissingSame(w, w.task.value, Outcome(w, log, r, now));
    DefinesExactly(s, r, d);
    assert StatusOk(w, w.task.value.session, s) by { hide StatusOk, Plans, PlansOk, Definitions; }
    RecordedExactly(w, w.task.value.session, s, r, d);
    hide RequestError, Missing, StatusOk, RunOk, Definitions, FindDefinition, RecordFits;
  }

  ghost predicate StepFits(w: World, log: seq<Event>, r: Request)
    requires r.Record?
  {
    exists d :: Recordable(w, log, r, d)
  }

  ghost predicate StepNoted(log: seq<Event>, next: seq<Event>, a: Response, w: World, key: string, r: Request)
    requires w.task.Some?
  {
    exists d :: DefinesStep(Current(log), d, r) && NotesStep(log, next, a, w, key, r, d)
  }

  lemma StepFitsExactly(w: World, log: seq<Event>, r: Request)
    requires r.Record?
    ensures RecordError(w, log, r).None? <==> StepFits(w, log, r)
    ensures StepFits(w, log, r) ==> w.task.Some?
  {
    hide RecordError, DefinesStep, RecordFits;
    forall d
      ensures RecordError(w, log, r).None? && DefinesStep(Current(log), d, r) <==> Recordable(w, log, r, d)
    {
      RecordErrorExactly(w, log, r, d);
    }
    if RecordError(w, log, r).None? {
      var d := AcceptedIsDefined(w, log, r);
      assert Recordable(w, log, r, d);
    }
  }

  lemma StepNotedExactly(w: World, log: seq<Event>, next: seq<Event>, a: Response, key: string, r: Request, now: int)
    requires r.Record? && RequestError(w, log, r).None? && w.task.Some? && RunOk(w, log) && StepFits(w, log, r)
    requires Records(log, next, a, w, key, r, Refreshed(w, w.task.value, Outcome(w, log, r, now)))
    ensures StepNoted(log, next, a, w, key, r)
  {
    hide RunOk, RequestError, Outcome, Refreshed, Missing, DefinesStep, RecordFits, Settles, Records;
    var d :| Recordable(w, log, r, d);
    NewStepExactly(w, log, r, now, d);
  }

  /** In every run a step is recorded exactly when the task is being worked on, the plan's procedure defines it, and
      the evidence and the reason fit its disposition and the stage; completing takes evidence newer than any rework. */
  lemma {:induction false} RecordExactly(history: seq<Step>, w: World, key: string, r: Request, elsewhere: bool, now: int)
    requires r.Record? && Flows(history, w)
    ensures var log := After(history); var (next, a) := Submit(log, w, key, r, elsewhere, now);
      if Shaped(key, r) && !elsewhere && KeyFree(log, key) && StepFits(w, log, r)
      then w.task.Some? && StepNoted(log, next, a, w, key, r)
      else RepeatsOrRefuses(log, next, a, key, r, Shaped(key, r) && !elsewhere)
  {
    hide After, Submit, Missing, RepeatsOrRefuses, RecordError, Shaped, StepFits, StepNoted, Flows, RunOk;
    var log := After(history);
    HistoryKeepsKeys(history);
    HistoryKeepsRun(history, w);
    SubmitExactly(log, w, key, r, elsewhere, now);
    StepFitsExactly(w, log, r);
    if Shaped(key, r) && !elsewhere && KeyFree(log, key) && StepFits(w, log, r) {
      var (next, a) := Submit(log, w, key, r, elsewhere, now);
      StepNotedExactly(w, log, next, a, key, r, now);
    }
  }
}
