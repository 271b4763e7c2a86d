/** The session's delegation log as an object, and the status that is read back from it. */
module DelegationLog {
  import opened Ordering
  import opened WriteScope
  import opened SessionDelegation

  // ---------------------------------------------------------------- advisory gaps

  datatype Gap =
    | AssessmentMissing
    | NotReported(dimension: Dimension)
    | CompletionMissing(dimension: Dimension)
    | ReportedFailed(dimension: Dimension)

  /** What a scope's latest report leaves open. */
  function GapOf(r: Report): Option<Gap> {
    match r.outcome
    case Failed => Some(ReportedFailed(r.dimension))
    case Started => Some(CompletionMissing(r.dimension))
    case Completed => None
  }

  /** The gaps of the latest reports of the given scopes. */
  ghost function GapsOf(reports: seq<Report>, scopes: set<Scope>): set<Gap> {
    set s | s in scopes && Prior(reports, s).Some? && GapOf(Prior(reports, s).value).Some? :: GapOf(Prior(reports, s).value).value
  }

  ghost function Scopes(reports: seq<Report>): set<Scope> {
    set r | r in reports :: ScopeOf(r)
  }

  ghost function ExecutionGaps(reports: seq<Report>): set<Gap> {
    GapsOf(reports, Scopes(reports))
  }

  /** A completion is missing exactly when some scope of the dimension is pending; a failure is shown
      exactly when some scope's latest report failed, whatever other agents reported since. */
  lemma {:induction false} GapsMean(reports: seq<Report>, d: Dimension)
    ensures CompletionMissing(d) in ExecutionGaps(reports) <==> exists s :: s in PendingScopes(reports) && s.dimension == d
    ensures ReportedFailed(d) in ExecutionGaps(reports)
      <==> exists s :: Prior(reports, s).Some? && Prior(reports, s).value.outcome == Failed && s.dimension == d
    ensures AssessmentMissing !in ExecutionGaps(reports) && NotReported(d) !in ExecutionGaps(reports)
  {
    hide PendingScopes;
    forall s ensures s in PendingScopes(reports) <==> s in Scopes(reports) && Prior(reports, s).Some? && Prior(reports, s).value.outcome == Started {
      InPending(reports, s);
      PriorIsReported(reports, s);
    }
    forall s | Prior(reports, s).Some? ensures s in Scopes(reports) && Prior(reports, s).value.dimension == s.dimension {
      PriorIsReported(reports, s);
    }
    if s :| s in PendingScopes(reports) && s.dimension == d { assert s in Scopes(reports); }
    if s :| Prior(reports, s).Some? && Prior(reports, s).value.outcome == Failed && s.dimension == d { assert s in Scopes(reports); }
  }

  /** The last report of its scope is the one a search from the end finds. */
  lemma {:induction false} LastIsPrior(reports: seq<Report>, i: nat)
    requires i < |reports| && forall k :: i < k < |reports| ==> ScopeOf(reports[k]) != ScopeOf(reports[i])
    ensures Prior(reports, ScopeOf(reports[i])) == Some(reports[i])
  {
    if i < |reports| - 1 { LastIsPrior(reports[..|reports| - 1], i); }
  }

  lemma {:induction false} GapsGrow(reports: seq<Report>, seen: set<Scope>, r: Report)
    requires Prior(reports, ScopeOf(r)) == Some(r)
    ensures GapsOf(reports, seen + {ScopeOf(r)}) == GapsOf(reports, seen) + if GapOf(r).Some? then {GapOf(r).value} else {}
  {
  }

  /** Walks the reports from the last, looking only at the first of each scope it meets. */
  method CollectGaps(reports: seq<Report>) returns (gaps: set<Gap>)
    ensures gaps == ExecutionGaps(reports)
  {
    gaps := {};
    var seen: set<Scope> := {};
    var i := |reports|;
    while i > 0
      invariant 0 <= i <= |reports|
      invariant seen == Scopes(reports[i..])
      invariant gaps == GapsOf(reports, seen)
    {
      i := i - 1;
      assert reports[i..] == [reports[i]] + reports[i + 1..];
      var scope := ScopeOf(reports[i]);
      if scope in seen { continue; }
      LastOfScope(reports, i);
      GapsGrow(reports, seen, reports[i]);
      seen := seen + {scope};
      match reports[i].outcome {
        case Failed => gaps := gaps + {ReportedFailed(reports[i].dimension)};
        case Started => gaps := gaps + {CompletionMissing(reports[i].dimension)};
        case Completed =>
      }
    }
    assert reports[0..] == reports;
  }

  lemma {:induction false} LastOfScope(reports: seq<Report>, i: nat)
    requires i < |reports| && ScopeOf(reports[i]) !in Scopes(reports[i + 1..])
    ensures Prior(reports, ScopeOf(reports[i])) == Some(reports[i])
  {
    forall k | i < k < |reports| ensures ScopeOf(reports[k]) != ScopeOf(reports[i]) {
      assert reports[k] == reports[i + 1..][k - i - 1];
    }
    LastIsPrior(reports, i);
  }

  // ---------------------------------------------------------------- the status

  datatype Status = Status(
    decisions: seq<Decision>, reports: seq<Report>, taskAssessments: nat, assessmentMissing: bool, gaps: seq<Gap>)

  /** A dimension the latest decision delegates and nobody has reported on. */
  predicate Unreported(d: Decision, reports: seq<Report>, dimension: Dimension) {
    && ChoiceFor(d, dimension).disposition == Delegate
    && !exists i :: 0 <= i < |reports| && reports[i].decision == d.id && reports[i].dimension == dimension
  }

  function AssessmentGaps(decisions: seq<Decision>, reports: seq<Report>, missing: bool): seq<Gap> {
    if decisions != [] then
      var latest := decisions[|decisions| - 1];
      (if Unreported(latest, reports, Worker) then [NotReported(Worker)] else [])
      + (if Unreported(latest, reports, Reviewer) then [NotReported(Reviewer)] else [])
    else if missing then [AssessmentMissing]
    else []
  }

  /** A set of execution gaps in the byte order of their labels. */
  function Listed(gaps: set<Gap>): seq<Gap> {
    (if CompletionMissing(Reviewer) in gaps then [CompletionMissing(Reviewer)] else [])
    + (if ReportedFailed(Reviewer) in gaps then [ReportedFailed(Reviewer)] else [])
    + (if CompletionMissing(Worker) in gaps then [CompletionMissing(Worker)] else [])
    + (if ReportedFailed(Worker) in gaps then [ReportedFailed(Worker)] else [])
  }

  ghost function StatusOf(log: seq<Entry>, taskAssessments: nat): Status {
    var decisions, reports := Decisions(log), Reports(log);
    var missing := decisions == [] && taskAssessments == 0;
    Status(decisions, reports, taskAssessments, missing,
           AssessmentGaps(decisions, reports, missing) + Listed(ExecutionGaps(reports)))
  }

  lemma {:induction false} ReadPrefix(log: seq<Entry>, i: nat)
    requires i < |log|
    ensures Decisions(log[..i + 1]) == if log[i].item.Decided? then Decisions(log[..i]) + [log[i].item.decision] else Decisions(log[..i])
    ensures Reports(log[..i + 1]) == if log[i].item.Reported? then Reports(log[..i]) + [log[i].item.report] else Reports(log[..i])
  {
    assert log[..i + 1] == log[..i] + [log[i]];
    ReportsStep(log[..i], log[i]);
  }

  /** Reads one stream back, at most one event past the bound; a longer history is an error. */
  method ReadSessionStatus(log: seq<Entry>, taskAssessments: nat) returns (status: Option<Status>)
    ensures status == if |log| <= MAX_EVENTS then Some(StatusOf(log, taskAssessments)) else None
  {
    var rows := if |log| > MAX_EVENTS + 1 then log[..MAX_EVENTS + 1] else log;
    var decisions: seq<Decision> := [];
    var reports: seq<Report> := [];
    for i := 0 to |rows|
      invariant decisions == Decisions(rows[..i]) && reports == Reports(rows[..i])
    {
      ReadPrefix(rows, i);
      match rows[i].item {
        case Decided(d) => decisions := decisions + [d];
        case Reported(r) => reports := reports + [r];
      }
    }
    assert rows[..|rows|] == rows;
    LogCounts(rows);
    if |decisions| + |reports| > MAX_EVENTS { return None; }
    var missing := decisions == [] && taskAssessments == 0;
    var executionGaps := CollectGaps(reports);
    return Some(Status(decisions, reports, taskAssessments, missing,
                       AssessmentGaps(decisions, reports, missing) + Listed(executionGaps)));
  }

  // ---------------------------------------------------------------- the object

  /** One session's stream, extended in place. */
  class Stream {
    var phase: Phase
    var log: seq<Entry>
    var nextId: Id

    function View(): Session
      reads this
    {
      Session(phase, log, nextId)
    }

    constructor ()
      ensures View() == After([])
    {
      phase, log, nextId := Missing, [], 0;
    }

    /** Room for one more event beside everything reserved. */
    method RequireCapacity(status: Status, reservation: nat) returns (error: Option<Error>)
      requires status.decisions == Decisions(log) && status.reports == Reports(log)
      ensures error == CapacityError(log, reservation)
    {
      var count := |status.decisions| + |status.reports|;
      var started: nat := 0;
      for i := 0 to |status.reports|
        invariant started == CountStarted(status.reports[..i]) <= i
      {
        assert status.reports[..i + 1][..i] == status.reports[..i];
        if status.reports[i].outcome == Started { started := started + 1; }
      }
      assert status.reports[..|status.reports|] == status.reports;
      var terminal := |status.reports| - started;
      if started < terminal { return Some(Conflict); }
      var pending := started - terminal;
      return if count >= MAX_EVENTS || count + pending + reservation > MAX_EVENTS then Some(Invalid) else None;
    }

    method Assess(key: string, r: Request, elsewhere: bool, taskAssessments: nat, now: int) returns (response: Response)
      requires r.Assess?
      modifies this
      ensures (View(), response) == Submit(old(View()), key, r, elsewhere, now)
    {
      hide WellFormed, Lookup, CapacityError, StatusOf;
      if !WellFormed(key, r) { return Refused(Invalid); }
      if elsewhere { return Refused(Conflict); }
      var previous := Lookup(log, key);
      if previous.Some? {
        return if previous.value.request == r then Done(previous.value.item, true) else Refused(Conflict);
      }
      if OpenError(phase).Some? { return Refused(OpenError(phase).value); }
      var status := ReadSessionStatus(log, taskAssessments);
      if status.None? { return Refused(Conflict); }
      assert status.value.decisions == Decisions(log) && status.value.reports == Reports(log) by { StatusReads(log, taskAssessments); }
      var full := RequireCapacity(status.value, 1);
      if full.Some? { return Refused(full.value); }
      var item := NewItem(r, nextId, now);
      log := log + [Entry(key, r, item)];
      nextId := nextId + 1;
      return Done(item, false);
    }

    /** The latest report of a scope, searching from the end. */
    method FindPrior(reports: seq<Report>, s: Scope) returns (prior: Option<Report>)
      ensures prior == Prior(reports, s)
    {
      var i := |reports|;
      assert reports[..i] == reports;
      while i > 0
        invariant 0 <= i <= |reports|
        invariant Prior(reports, s) == Prior(reports[..i], s)
      {
        i := i - 1;
        assert reports[..i + 1][..i] == reports[..i];
        if ScopeOf(reports[i]) == s { return Some(reports[i]); }
      }
      return None;
    }

    method ReportRun(key: string, r: Request, elsewhere: bool, taskAssessments: nat, now: int) returns (response: Response)
      requires r.Tell?
      modifies this
      ensures (View(), response) == Submit(old(View()), key, r, elsewhere, now)
    {
      hide WellFormed, Lookup, CapacityError, StatusOf, FindDecision, OtherDimension, Prior;
      if !WellFormed(key, r) { return Refused(Invalid); }
      if elsewhere { return Refused(Conflict); }
      var previous := Lookup(log, key);
      if previous.Some? {
        return if previous.value.request == r then Done(previous.value.item, true) else Refused(Conflict);
      }
      if phase == Missing { return Refused(NotFound); }
      var status := ReadSessionStatus(log, taskAssessments);
      if status.None? { return Refused(Conflict); }
      var decisions, reports := status.value.decisions, status.value.reports;
      assert decisions == Decisions(log) && reports == Reports(log) by { StatusReads(log, taskAssessments); }
      var decision := FindDecision(decisions, r.decision);
      if decision.None? { return Refused(Conflict); }
      if ChoiceFor(decision.value, r.dimension).disposition != Delegate { return Refused(Conflict); }
      var prior := FindPrior(reports, Scope(r.decision, r.dimension, r.agent));
      match r.outcome {
        case Started =>
          if OpenError(phase).Some? { return Refused(OpenError(phase).value); }
          if decisions == [] || decisions[|decisions| - 1].id != r.decision || prior.Some? { return Refused(Conflict); }
        case Completed =>
          var unfit := EndUnfit(prior, r);
          if unfit { return Refused(Conflict); }
        case Failed =>
          var unfit := EndUnfit(prior, r);
          if unfit { return Refused(Conflict); }
      }
      if OtherDimension(reports, r.agent, r.dimension) { return Refused(Conflict); }
      var full := RequireCapacity(status.value, if r.outcome == Started then 2 else 0);
      if full.Some? { return Refused(full.value); }
      var item := NewItem(r, nextId, now);
      log := log + [Entry(key, r, item)];
      nextId := nextId + 1;
      return Done(item, false);
    }

    /** A terminal report without an unfinished start, or with another model or effort. */
    method EndUnfit(prior: Option<Report>, r: Request) returns (unfit: bool)
      requires r.Tell?
      ensures unfit <==> prior.None? || prior.value.outcome != Started || prior.value.model != r.model || prior.value.effort != r.effort
    {
      if prior.None? || prior.value.outcome != Started { return true; }
      return prior.value.model != r.model || prior.value.effort != r.effort;
    }
  }

  lemma {:induction false} StatusReads(log: seq<Entry>, taskAssessments: nat)
    ensures StatusOf(log, taskAssessments).decisions == Decisions(log)
    ensures StatusOf(log, taskAssessments).reports == Reports(log)
  {
  }
}
