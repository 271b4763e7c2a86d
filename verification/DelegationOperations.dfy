/** What a session's delegation log accepts and records, read off its entries one by one. */
module DelegationOperations {
  import opened Ordering
  import opened WriteScope
  import opened SessionDelegation
  import opened DelegationLog

  // ---------------------------------------------------------------- shape

  /** Letters, digits and four punctuation marks, so that bytes are characters. */
  ghost predicate NameLike(s: string, max: nat) {
    && 0 < |s| <= max
    && forall c :: c in s ==> 'a' <= c <= 'z' || 'A' <= c <= 'Z' || '0' <= c <= '9' || c == '.' || c == '-' || c == '_' || c == '/'
  }

  lemma {:induction false} BytesOfName(s: string)
    requires forall i :: 0 <= i < |s| ==> IdentifierChar(s[i])
    ensures Bytes(s) == |s|
  {
    if s != "" { BytesOfName(s[..|s| - 1]); }
  }

  lemma IdentifierExactly(s: string, max: nat)
    ensures Identifier(s, max) <==> NameLike(s, max)
  {
    hide Bytes;
    if forall i :: 0 <= i < |s| ==> IdentifierChar(s[i]) {
      BytesOfName(s);
      if s != "" { assert !IsSpace(s[0]); }
    } else {
      var i :| 0 <= i < |s| && !IdentifierChar(s[i]);
      assert s[i] in s;
    }
  }

  ghost predicate NoteLike(s: string) {
    HasInk(s) && Bytes(s) <= 2000
  }

  ghost predicate KeyLike(s: string) {
    HasInk(s) && Bytes(s) <= 256
  }

  /** Two or more paths ask for a worker or a reason to do without; a material change asks so for a reviewer. */
  ghost predicate Shaped(key: string, r: Request) {
    && KeyLike(key)
    && match r
       case Assess(paths, material, worker, reviewer) =>
         && paths <= 32 && NoteLike(worker.reason) && NoteLike(reviewer.reason)
         && (paths >= 2 ==> worker.disposition == Delegate || worker.disposition == Skip)
         && (material ==> reviewer.disposition == Delegate || reviewer.disposition == Skip)
       case Tell(_, _, agent, model, effort, _, summary) =>
         NameLike(agent, 128) && NameLike(model, 128) && NameLike(effort, 32) && NoteLike(summary)
  }

  lemma ShapeExactly(key: string, r: Request)
    ensures WellFormed(key, r) <==> Shaped(key, r)
  {
    hide Bytes, Identifier, NameLike;
    InkExactly(key);
    match r
    case Assess(_, _, worker, reviewer) =>
      InkExactly(worker.reason);
      InkExactly(reviewer.reason);
    case Tell(_, _, agent, model, effort, _, summary) =>
      InkExactly(summary);
      IdentifierExactly(agent, 128);
      IdentifierExactly(model, 128);
      IdentifierExactly(effort, 32);
  }

  // ---------------------------------------------------------------- the log, entry by entry

  /** Entry `i` reports on the scope. */
  ghost predicate TellsOf(log: seq<Entry>, i: nat, s: Scope) {
    && i < |log| && log[i].item.Reported?
    && log[i].item.report.decision == s.decision && log[i].item.report.dimension == s.dimension && log[i].item.report.agent == s.agent
  }

  ghost predicate StartsAt(log: seq<Entry>, i: nat, s: Scope) {
    TellsOf(log, i, s) && log[i].item.report.outcome == Started
  }

  ghost predicate EndsAt(log: seq<Entry>, i: nat, s: Scope) {
    TellsOf(log, i, s) && log[i].item.report.outcome != Started
  }

  ghost predicate Unheard(log: seq<Entry>, s: Scope) {
    forall i :: 0 <= i < |log| ==> !TellsOf(log, i, s)
  }

  ghost predicate Unfinished(log: seq<Entry>, s: Scope) {
    (exists i: nat :: StartsAt(log, i, s)) && forall i: nat :: !EndsAt(log, i, s)
  }

  ghost predicate DecidesAt(log: seq<Entry>, i: nat, id: Id) {
    i < |log| && log[i].item.Decided? && log[i].item.decision.id == id
  }

  /** Entry `i` is the latest decision, and it delegates the dimension. */
  ghost predicate LatestDelegates(log: seq<Entry>, i: nat, id: Id, dimension: Dimension) {
    && DecidesAt(log, i, id)
    && (forall j :: i < j < |log| ==> !log[j].item.Decided?)
    && match dimension
       case Worker => log[i].item.decision.worker.disposition == Delegate
       case Reviewer => log[i].item.decision.reviewer.disposition == Delegate
  }

  /** No report names the agent in the other dimension. */
  ghost predicate AgentFits(log: seq<Entry>, agent: string, dimension: Dimension) {
    forall i :: 0 <= i < |log| && log[i].item.Reported? && log[i].item.report.agent == agent
      ==> log[i].item.report.dimension == dimension
  }

  ghost predicate KeyFree(log: seq<Entry>, key: string) {
    forall i :: 0 <= i < |log| ==> log[i].key != key
  }

  function IdOf(item: Item): Id {
    match item
    case Decided(d) => d.id
    case Reported(r) => r.id
  }

  /** Identifiers come from the counter, and neither they nor keys are used twice. */
  ghost predicate LogOk(s: Session) {
    && (forall i :: 0 <= i < |s.log| ==> IdOf(s.log[i].item) < s.nextId)
    && forall i, j :: 0 <= i < j < |s.log| ==> IdOf(s.log[i].item) != IdOf(s.log[j].item) && s.log[i].key != s.log[j].key
  }

  lemma {:induction false} LookupExactly(log: seq<Entry>, key: string)
    ensures Lookup(log, key).None? <==> KeyFree(log, key)
    ensures Lookup(log, key).Some? ==> Lookup(log, key).value in log && Lookup(log, key).value.key == key
  {
    if log != [] {
      var front := log[..|log| - 1];
      LookupExactly(front, key);
      assert forall i :: 0 <= i < |front| ==> front[i] == log[i];
      if !KeyFree(front, key) {
        var i :| 0 <= i < |front| && front[i].key == key;
        assert log[i].key == key;
      }
    }
  }

  lemma {:induction false} HistoryKeepsLog(history: seq<Command>)
    ensures LogOk(After(history))
  {
    hide WellFormed, AssessError, TellError;
    if history != [] {
      var s, c := After(history[..|history| - 1]), history[|history| - 1];
      HistoryKeepsLog(history[..|history| - 1]);
      if c.Ask? { LookupExactly(s.log, c.key); }
    }
  }

  lemma {:induction false} ReportsExactly(log: seq<Entry>, r: Report)
    ensures r in Reports(log) <==> exists i :: 0 <= i < |log| && log[i].item == Reported(r)
  {
    if log != [] {
      var front := log[..|log| - 1];
      ReportsExactly(front, r);
      assert log == front + [log[|log| - 1]];
      if i :| 0 <= i < |front| && front[i].item == Reported(r) { assert log[i].item == Reported(r); }
    }
  }

  lemma {:induction false} DecisionsExactly(log: seq<Entry>, d: Decision)
    ensures d in Decisions(log) <==> exists i :: 0 <= i < |log| && log[i].item == Decided(d)
  {
    if log != [] {
      var front := log[..|log| - 1];
      DecisionsExactly(front, d);
      assert log == front + [log[|log| - 1]];
      if i :| 0 <= i < |front| && front[i].item == Decided(d) { assert log[i].item == Decided(d); }
    }
  }

  /** The last of the decisions is the latest entry that decides. */
  lemma {:induction false} LatestAt(log: seq<Entry>) returns (i: int)
    ensures -1 <= i < |log| && (i < 0 <==> Decisions(log) == [])
    ensures forall j :: i < j < |log| ==> !log[j].item.Decided?
    ensures i >= 0 ==> log[i].item == Decided(Decisions(log)[|Decisions(log)| - 1])
  {
    if log == [] || log[|log| - 1].item.Decided? {
      i := |log| - 1;
    } else {
      i := LatestAt(log[..|log| - 1]);
    }
  }

  lemma {:induction false} FindIn(decisions: seq<Decision>, id: Id)
    ensures FindDecision(decisions, id).Some? ==> FindDecision(decisions, id).value in decisions && FindDecision(decisions, id).value.id == id
    ensures FindDecision(decisions, id).None? ==> forall d :: d in decisions ==> d.id != id
  {
    if decisions != [] { FindIn(decisions[..|decisions| - 1], id); }
  }

  /** With identifiers used once, the decision found is the entry that made it. */
  lemma {:induction false} FindExactly(s: Session, i: nat, id: Id)
    requires LogOk(s) && DecidesAt(s.log, i, id)
    ensures FindDecision(Decisions(s.log), id) == Some(s.log[i].item.decision)
  {
    var decisions := Decisions(s.log);
    FindIn(decisions, id);
    DecisionsExactly(s.log, s.log[i].item.decision);
    var d := FindDecision(decisions, id).value;
    DecisionsExactly(s.log, d);
    var j :| 0 <= j < |s.log| && s.log[j].item == Decided(d);
    assert IdOf(s.log[j].item) == IdOf(s.log[i].item);
  }

  lemma {:induction false} InHistory(reports: seq<Report>, s: Scope, r: Report)
    ensures r in History(reports, s) <==> r in reports && ScopeOf(r) == s
  {
    if reports != [] {
      InHistory(reports[..|reports| - 1], s, r);
      assert reports == reports[..|reports| - 1] + [reports[|reports| - 1]];
    }
  }

  lemma {:induction false} TellsMeansInHistory(log: seq<Entry>, i: nat, s: Scope)
    requires TellsOf(log, i, s)
    ensures log[i].item.report in History(Reports(log), s)
  {
    ReportsExactly(log, log[i].item.report);
    InHistory(Reports(log), s, log[i].item.report);
  }

  lemma InHistoryMeansTells(log: seq<Entry>, s: Scope, r: Report) returns (i: nat)
    requires r in History(Reports(log), s)
    ensures TellsOf(log, i, s) && log[i].item.report == r
  {
    ReportsExactly(log, r);
    InHistory(Reports(log), s, r);
    i :| 0 <= i < |log| && log[i].item == Reported(r);
  }

  /** What the search from the end says, read off the entries. */
  lemma {:induction false} PriorExactly(s: Session, scope: Scope)
    requires SessionOk(s)
    ensures var p := Prior(Reports(s.log), scope);
      && (p.None? <==> Unheard(s.log, scope))
      && (p.Some? && p.value.outcome == Started <==> Unfinished(s.log, scope))
      && (Unfinished(s.log, scope) ==> forall i: nat :: TellsOf(s.log, i, scope) ==> s.log[i].item.report == p.value)
  {
    hide PendingScopes, OneDimension, Grounded, Reports, History, Prior;
    var h := History(Reports(s.log), scope);
    assert HistoryOk(h);
    PriorEndsHistory(Reports(s.log), scope);
    forall i: nat | TellsOf(s.log, i, scope) ensures s.log[i].item.report in h { TellsMeansInHistory(s.log, i, scope); }
    if h != [] {
      var first := InHistoryMeansTells(s.log, scope, h[0]);
      assert StartsAt(s.log, first, scope);
      var last := InHistoryMeansTells(s.log, scope, h[|h| - 1]);
      if |h| == 2 { assert EndsAt(s.log, last, scope); }
    }
  }

  /** The scopes that are owed a terminal report. */
  lemma PendingExactly(s: Session, scope: Scope)
    requires SessionOk(s)
    ensures scope in PendingScopes(Reports(s.log)) <==> Unfinished(s.log, scope)
  {
    hide PendingScopes, SessionOk, Prior;
    InPending(Reports(s.log), scope);
    PriorExactly(s, scope);
  }

  // ---------------------------------------------------------------- assessing

  /** One more entry at the end of the log, with the next identifier taken. */
  ghost predicate Appends(s: Session, next: Session, a: Response, key: string, r: Request, item: Item) {
    next == Session(s.phase, s.log + [Entry(key, r, item)], s.nextId + 1) && a == Done(item, false)
  }

  ghost predicate FreshId(log: seq<Entry>, id: Id) {
    forall i :: 0 <= i < |log| ==> IdOf(log[i].item) != id
  }

  ghost predicate AskedBefore(log: seq<Entry>, key: string, r: Request) {
    exists i :: 0 <= i < |log| && log[i].key == key && log[i].request == r
  }

  /** A repeated request gets the recorded answer, anything else the error; the session stays as it is. */
  ghost predicate AnswersOldOr(s: Session, next: Session, a: Response, key: string, r: Request, known: bool, error: Error) {
    && next == s
    && if known && AskedBefore(s.log, key, r)
       then exists i :: 0 <= i < |s.log| && s.log[i].key == key && a == Done(s.log[i].item, true)
       else a == Refused(error)
  }

  lemma AnswersExactly(s: Session, key: string, r: Request, now: int)
    requires LogOk(s) && WellFormed(key, r) && !KeyFree(s.log, key)
    ensures AnswersOldOr(s, Submit(s, key, r, false, now).0, Submit(s, key, r, false, now).1, key, r, true, Conflict)
  {
    hide WellFormed, AssessError, TellError;
    LookupExactly(s.log, key);
    var e := Lookup(s.log, key).value;
    var i :| 0 <= i < |s.log| && s.log[i] == e;
    assert forall j :: 0 <= j < |s.log| && s.log[j].key == key ==> j == i;
  }

  ghost predicate Assessable(s: Session) {
    s.phase == Open && |s.log| + |PendingScopes(Reports(s.log))| + 1 <= 64
  }

  /** The decision keeps the request, field by field. */
  ghost predicate DecisionOf(d: Decision, r: Request, id: Id, now: int) {
    && r.Assess? && d.id == id && d.createdAt == now
    && d.parallelPaths == r.parallelPaths && d.materialChange == r.materialChange
    && d.worker == r.worker && d.reviewer == r.reviewer
  }

  ghost predicate AddsDecision(s: Session, next: Session, a: Response, key: string, r: Request, now: int) {
    exists d :: DecisionOf(d, r, s.nextId, now) && Appends(s, next, a, key, r, Decided(d))
  }

  ghost function AssessRefusal(s: Session, key: string, r: Request, elsewhere: bool): Error {
    if !Shaped(key, r) then Invalid
    else if elsewhere || !KeyFree(s.log, key) then Conflict
    else match s.phase
      case Missing => NotFound
      case Closed => Conflict
      case Open => Invalid
  }

  lemma AssessErrorExactly(s: Session)
    requires SessionOk(s)
    ensures AssessError(s).None? <==> Assessable(s)
    ensures AssessError(s).Some? ==> AssessError(s).value == match s.phase case Missing => NotFound case Closed => Conflict case Open => Invalid
  {
    hide PendingScopes, HistoryOk, OneDimension, Grounded;
    LogCounts(s.log);
  }

  /** In every reachable session an assessment is recorded exactly when it is well shaped, its key is new, the
      session is open and one event and what is owed fit with a place to spare; it is recorded as it was made. */
  lemma {:induction false} AssessExactly(history: seq<Command>, key: string, r: Request, elsewhere: bool, now: int)
    requires r.Assess?
    ensures var s := After(history); var (next, a) := Submit(s, key, r, elsewhere, now);
      if Shaped(key, r) && !elsewhere && KeyFree(s.log, key) && Assessable(s)
      then FreshId(s.log, s.nextId) && AddsDecision(s, next, a, key, r, now)
      else AnswersOldOr(s, next, a, key, r, Shaped(key, r) && !elsewhere, AssessRefusal(s, key, r, elsewhere))
  {
    hide After, SessionOk, WellFormed, Shaped, AssessError, Assessable, Lookup;
    var s := After(history);
    HistoryKeepsSession(history);
    HistoryKeepsLog(history);
    ShapeExactly(key, r);
    LookupExactly(s.log, key);
    AssessErrorExactly(s);
    if WellFormed(key, r) && !elsewhere {
      if KeyFree(s.log, key) {
        var d := Decision(s.nextId, r.parallelPaths, r.materialChange, r.worker, r.reviewer, now);
        assert DecisionOf(d, r, s.nextId, now);
      } else {
        AnswersExactly(s, key, r, now);
      }
    }
  }

  // ---------------------------------------------------------------- reporting

  ghost function ScopeAsked(r: Request): Scope
    requires r.Tell?
  {
    Scope(r.decision, r.dimension, r.agent)
  }

  /** A start is for the latest decision, which delegates the dimension, by an agent not heard of in this scope
      and never in the other dimension. */
  ghost predicate StartFits(s: Session, r: Request)
    requires r.Tell?
  {
    && s.phase == Open
    && (exists i: nat :: LatestDelegates(s.log, i, r.decision, r.dimension))
    && Unheard(s.log, ScopeAsked(r))
    && AgentFits(s.log, r.agent, r.dimension)
  }

  /** An end is for a start that has none, with the same model and effort. */
  ghost predicate EndFits(s: Session, r: Request)
    requires r.Tell?
  {
    && (exists i: nat :: StartsAt(s.log, i, ScopeAsked(r)) && s.log[i].item.report.model == r.model && s.log[i].item.report.effort == r.effort)
    && forall i: nat :: !EndsAt(s.log, i, ScopeAsked(r))
  }

  ghost predicate ReportFits(s: Session, r: Request)
    requires r.Tell?
  {
    if r.outcome == Started then StartFits(s, r) else EndFits(s, r)
  }

  /** A start also needs room for itself and its end, with a place to spare; an end always has its place. */
  ghost predicate Reportable(s: Session, r: Request)
    requires r.Tell?
  {
    ReportFits(s, r) && (r.outcome == Started ==> |s.log| + |PendingScopes(Reports(s.log))| + 2 <= 64)
  }

  /** The report keeps the request, field by field. */
  ghost predicate ReportOf(t: Report, r: Request, id: Id, now: int) {
    && r.Tell? && t.id == id && t.createdAt == now
    && t.decision == r.decision && t.dimension == r.dimension && t.agent == r.agent
    && t.model == r.model && t.effort == r.effort && t.outcome == r.outcome && t.summary == r.summary
  }

  ghost predicate AddsReport(s: Session, next: Session, a: Response, key: string, r: Request, now: int) {
    exists t :: ReportOf(t, r, s.nextId, now) && Appends(s, next, a, key, r, Reported(t))
  }

  ghost function ReportRefusal(s: Session, key: string, r: Request, elsewhere: bool): Error
    requires r.Tell?
  {
    if !Shaped(key, r) then Invalid
    else if elsewhere || !KeyFree(s.log, key) then Conflict
    else if s.phase == Missing then NotFound
    else if ReportFits(s, r) then Invalid
    else Conflict
  }

  lemma {:induction false} AgentExactly(log: seq<Entry>, agent: string, dimension: Dimension)
    ensures OtherDimension(Reports(log), agent, dimension) <==> !AgentFits(log, agent, dimension)
  {
    hide Reports;
    var reports := Reports(log);
    if OtherDimension(reports, agent, dimension) {
      var k :| 0 <= k < |reports| && reports[k].agent == agent && reports[k].dimension != dimension;
      ReportsExactly(log, reports[k]);
    }
    forall i | 0 <= i < |log| && log[i].item.Reported? ensures log[i].item.report in reports {
      ReportsExactly(log, log[i].item.report);
    }
  }

  /** The latest decision is the one asked for and delegates the dimension. */
  lemma LatestExactly(s: Session, id: Id, dimension: Dimension)
    requires LogOk(s)
    ensures var decisions := Decisions(s.log);
      (decisions != [] && decisions[|decisions| - 1].id == id && Delegated(decisions, id, dimension))
      <==> exists i: nat :: LatestDelegates(s.log, i, id, dimension)
  {
    hide Decisions, FindDecision;
    var decisions := Decisions(s.log);
    var last := LatestAt(s.log);
    if last >= 0 {
      if decisions[|decisions| - 1].id == id { FindExactly(s, last, id); }
      if decisions[|decisions| - 1].id == id && Delegated(decisions, id, dimension) {
        assert LatestDelegates(s.log, last, id, dimension);
      }
    }
    if i: nat :| LatestDelegates(s.log, i, id, dimension) { assert i == last; }
  }

  lemma StartErrorExactly(s: Session, r: Request)
    requires SessionOk(s) && LogOk(s) && r.Tell? && r.outcome == Started && s.phase != Missing
    ensures TellError(s, r).None? <==> Reportable(s, r)
    ensures TellError(s, r).Some? ==> TellError(s, r).value == if ReportFits(s, r) then Invalid else Conflict
  {
    hide PendingScopes, Prior, HistoryOk, OneDimension, Grounded, FindDecision, OtherDimension, LogOk, Unheard, AgentFits, LatestDelegates, Decisions, Reports;
    LogCounts(s.log);
    PriorExactly(s, ScopeAsked(r));
    AgentExactly(s.log, r.agent, r.dimension);
    LatestExactly(s, r.decision, r.dimension);
  }

  lemma EndExactly(s: Session, r: Request)
    requires SessionOk(s) && r.Tell? && r.outcome != Started
    ensures EndFits(s, r) <==> Finishes(s.log, r)
  {
    hide PendingScopes, SessionOk, Prior;
    PriorExactly(s, ScopeAsked(r));
    PendingExactly(s, ScopeAsked(r));
    if Finishes(s.log, r) {
      var i: nat :| StartsAt(s.log, i, ScopeAsked(r));
      assert TellsOf(s.log, i, ScopeAsked(r));
    }
  }

  lemma EndErrorExactly(s: Session, r: Request)
    requires SessionOk(s) && r.Tell? && r.outcome != Started && s.phase != Missing
    ensures TellError(s, r).None? <==> Reportable(s, r)
    ensures TellError(s, r).Some? ==> TellError(s, r).value == Conflict && !ReportFits(s, r)
  {
    hide PendingScopes, SessionOk, Prior, EndFits, CapacityError, FindDecision, OtherDimension, Decisions, Reports;
    EndExactly(s, r);
    InPending(Reports(s.log), ScopeAsked(r));
    if EndFits(s, r) {
      FinishPassesGuards(s, r);
    } else {
      SmallLog(s);
    }
  }

  lemma SmallLog(s: Session)
    requires SessionOk(s)
    ensures |s.log| <= MAX_EVENTS
  {
    hide PendingScopes, HistoryOk, OneDimension, Grounded;
  }

  lemma {:induction false} MissingFits(s: Session, r: Request)
    requires SessionOk(s) && r.Tell? && s.phase == Missing
    ensures !ReportFits(s, r)
  {
    hide PendingScopes, HistoryOk, OneDimension, Grounded;
    assert s.log == [];
  }

  /** In every reachable session a report is recorded exactly when it is well shaped, its key is new and it fits:
      a start under the latest decision with room for its end too, or the end of a start; and it is recorded as made. */
  lemma {:induction false} ReportExactly(history: seq<Command>, key: string, r: Request, elsewhere: bool, now: int)
    requires r.Tell?
    ensures var s := After(history); var (next, a) := Submit(s, key, r, elsewhere, now);
      if Shaped(key, r) && !elsewhere && KeyFree(s.log, key) && Reportable(s, r)
      then FreshId(s.log, s.nextId) && AddsReport(s, next, a, key, r, now)
      else AnswersOldOr(s, next, a, key, r, Shaped(key, r) && !elsewhere, ReportRefusal(s, key, r, elsewhere))
  {
    hide After, SessionOk, WellFormed, Shaped, Reportable, ReportFits, Lookup;
    var s := After(history);
    HistoryKeepsSession(history);
    HistoryKeepsLog(history);
    ShapeExactly(key, r);
    LookupExactly(s.log, key);
    TellErrorExactly(s, r);
    hide TellError;
    if WellFormed(key, r) && !elsewhere {
      if KeyFree(s.log, key) {
        var t := Report(s.nextId, r.decision, r.dimension, r.agent, r.model, r.effort, r.outcome, r.summary, now);
        assert ReportOf(t, r, s.nextId, now);
      } else {
        AnswersExactly(s, key, r, now);
      }
    }
  }

  lemma TellErrorExactly(s: Session, r: Request)
    requires SessionOk(s) && LogOk(s) && r.Tell?
    ensures TellError(s, r).None? <==> Reportable(s, r)
    ensures TellError(s, r).Some?
      ==> TellError(s, r).value == if s.phase == Missing then NotFound else if ReportFits(s, r) then Invalid else Conflict
  {
    hide SessionOk, LogOk, StartFits, EndFits, OutcomeError, CapacityError, FindDecision, OtherDimension;
    if s.phase == Missing {
      MissingFits(s, r);
    } else {
      hide TellError;
      if r.outcome == Started { StartErrorExactly(s, r); } else { EndErrorExactly(s, r); }
    }
  }

  // ---------------------------------------------------------------- the gaps of a status

  /** The byte order of the labels of execution gaps, after the gaps of the assessment. */
  function Place(g: Gap): nat {
    match g
    case AssessmentMissing => 0
    case NotReported(Worker) => 1
    case NotReported(Reviewer) => 2
    case CompletionMissing(Reviewer) => 3
    case ReportedFailed(Reviewer) => 4
    case CompletionMissing(Worker) => 5
    case ReportedFailed(Worker) => 6
  }

  ghost predicate NothingDecided(log: seq<Entry>) {
    forall i :: 0 <= i < |log| ==> !log[i].item.Decided?
  }

  ghost predicate Answers(e: Entry, id: Id, dimension: Dimension) {
    e.item.Reported? && e.item.report.decision == id && e.item.report.dimension == dimension
  }

  /** The latest decision delegates the dimension, and no report answers it. */
  ghost predicate Unanswered(log: seq<Entry>, i: nat, dimension: Dimension) {
    && i < |log| && log[i].item.Decided? && LatestDelegates(log, i, log[i].item.decision.id, dimension)
    && forall j :: 0 <= j < |log| ==> !Answers(log[j], log[i].item.decision.id, dimension)
  }

  /** Entry `i` reports a failure, and nothing later reports on its scope. */
  ghost predicate LastFailed(log: seq<Entry>, i: nat, s: Scope) {
    TellsOf(log, i, s) && log[i].item.report.outcome == Failed && forall j :: i < j < |log| ==> !TellsOf(log, j, s)
  }

  lemma {:induction false} PriorAt(log: seq<Entry>, s: Scope) returns (i: int)
    ensures -1 <= i < |log| && forall j :: i < j < |log| ==> !TellsOf(log, j, s)
    ensures if i < 0 then Prior(Reports(log), s).None? else TellsOf(log, i, s) && Prior(Reports(log), s) == Some(log[i].item.report)
  {
    if log == [] {
      i := -1;
    } else {
      var front, last := log[..|log| - 1], log[|log| - 1];
      if last.item.Reported? {
        assert Reports(log)[..|Reports(log)| - 1] == Reports(front);
      }
      if last.item.Reported? && ScopeOf(last.item.report) == s {
        i := |log| - 1;
      } else {
        i := PriorAt(front, s);
        forall j | i < j < |log| ensures !TellsOf(log, j, s) {
          if j < |log| - 1 { assert log[j] == front[j] && !TellsOf(front, j, s); }
        }
      }
    }
  }

  lemma {:induction false} FailedExactly(log: seq<Entry>, s: Scope)
    ensures Prior(Reports(log), s).Some? && Prior(Reports(log), s).value.outcome == Failed <==> exists i: nat :: LastFailed(log, i, s)
  {
    hide Reports, Prior;
    var k := PriorAt(log, s);
    if k >= 0 && log[k].item.report.outcome == Failed { assert LastFailed(log, k, s); }
    if i: nat :| LastFailed(log, i, s) { assert i == k; }
  }

  lemma {:induction false} UnreportedExactly(log: seq<Entry>, dimension: Dimension)
    ensures var decisions := Decisions(log);
      (decisions != [] && Unreported(decisions[|decisions| - 1], Reports(log), dimension)) <==> exists i: nat :: Unanswered(log, i, dimension)
  {
    hide Reports, Decisions;
    var decisions, reports := Decisions(log), Reports(log);
    var last := LatestAt(log);
    forall i | 0 <= i < |log| && log[i].item.Reported? ensures log[i].item.report in reports {
      ReportsExactly(log, log[i].item.report);
    }
    forall k | 0 <= k < |reports| ensures exists i :: 0 <= i < |log| && log[i].item == Reported(reports[k]) {
      ReportsExactly(log, reports[k]);
    }
    if last >= 0 && Unreported(decisions[|decisions| - 1], reports, dimension) {
      forall j | 0 <= j < |log| ensures !Answers(log[j], log[last].item.decision.id, dimension) {
        if log[j].item.Reported? { assert log[j].item.report in reports; }
      }
      assert Unanswered(log, last, dimension);
    }
    if i: nat :| Unanswered(log, i, dimension) { assert i == last; }
  }

  ghost predicate InPlace(gaps: seq<Gap>, low: nat, high: nat) {
    && (forall i :: 0 <= i < |gaps| ==> low <= Place(gaps[i]) < high)
    && forall i, j :: 0 <= i < j < |gaps| ==> Place(gaps[i]) < Place(gaps[j])
  }

  lemma InPlaceConcat(a: seq<Gap>, b: seq<Gap>, low: nat, middle: nat, high: nat)
    requires InPlace(a, low, middle) && InPlace(b, middle, high) && low <= middle <= high
    ensures InPlace(a + b, low, high)
  {
    var all := a + b;
    forall i | 0 <= i < |all| ensures low <= Place(all[i]) < high {
      assert if i < |a| then all[i] == a[i] else all[i] == b[i - |a|];
    }
  }

  lemma ListedInPlace(gaps: set<Gap>)
    ensures InPlace(Listed(gaps), 3, 7)
  {
    var a := if CompletionMissing(Reviewer) in gaps then [CompletionMissing(Reviewer)] else [];
    var b := if ReportedFailed(Reviewer) in gaps then [ReportedFailed(Reviewer)] else [];
    var c := if CompletionMissing(Worker) in gaps then [CompletionMissing(Worker)] else [];
    var d := if ReportedFailed(Worker) in gaps then [ReportedFailed(Worker)] else [];
    assert Listed(gaps) == a + b + c + d;
    hide Listed;
    InPlaceConcat(a, b, 3, 4, 5);
    InPlaceConcat(a + b, c, 3, 5, 6);
    InPlaceConcat(a + b + c, d, 3, 6, 7);
  }

  lemma AssessmentInPlace(decisions: seq<Decision>, reports: seq<Report>, missing: bool)
    ensures InPlace(AssessmentGaps(decisions, reports, missing), 0, 3)
  {
    hide Unreported;
    if decisions != [] {
      var latest := decisions[|decisions| - 1];
      InPlaceConcat(if Unreported(latest, reports, Worker) then [NotReported(Worker)] else [],
                    if Unreported(latest, reports, Reviewer) then [NotReported(Reviewer)] else [], 0, 2, 3);
    }
  }

  /** What the list of gaps holds, by the two sources it is joined from. */
  lemma GapsJoined(decisions: seq<Decision>, reports: seq<Report>, missing: bool, gaps: set<Gap>, d: Dimension)
    ensures var all := AssessmentGaps(decisions, reports, missing) + Listed(gaps);
      && (AssessmentMissing in all <==> decisions == [] && missing)
      && (NotReported(d) in all <==> decisions != [] && Unreported(decisions[|decisions| - 1], reports, d))
      && (CompletionMissing(d) in all <==> CompletionMissing(d) in gaps)
      && (ReportedFailed(d) in all <==> ReportedFailed(d) in gaps)
  {
    AssessmentHolds(decisions, reports, missing, d);
    ListedHolds(gaps, d);
    hide Unreported, AssessmentGaps, Listed;
    var first, second := AssessmentGaps(decisions, reports, missing), Listed(gaps);
    assert forall g :: g in first + second <==> g in first || g in second;
  }

  lemma AssessmentHolds(decisions: seq<Decision>, reports: seq<Report>, missing: bool, d: Dimension)
    ensures var gaps := AssessmentGaps(decisions, reports, missing);
      && (AssessmentMissing in gaps <==> decisions == [] && missing)
      && (NotReported(d) in gaps <==> decisions != [] && Unreported(decisions[|decisions| - 1], reports, d))
      && CompletionMissing(d) !in gaps && ReportedFailed(d) !in gaps
  {
    hide Unreported;
  }

  lemma ListedHolds(gaps: set<Gap>, d: Dimension)
    ensures CompletionMissing(d) in Listed(gaps) <==> CompletionMissing(d) in gaps
    ensures ReportedFailed(d) in Listed(gaps) <==> ReportedFailed(d) in gaps
    ensures AssessmentMissing !in Listed(gaps) && NotReported(d) !in Listed(gaps)
  {
  }

  lemma PendingMeans(s: Session, d: Dimension)
    requires SessionOk(s)
    ensures CompletionMissing(d) in ExecutionGaps(Reports(s.log)) <==> exists scope: Scope :: scope.dimension == d && Unfinished(s.log, scope)
  {
    hide SessionOk, Reports, Unfinished, ExecutionGaps, PendingScopes;
    GapsMean(Reports(s.log), d);
    forall scope ensures scope in PendingScopes(Reports(s.log)) <==> Unfinished(s.log, scope) { PendingExactly(s, scope); }
  }

  lemma {:induction false} FailedMeans(log: seq<Entry>, d: Dimension)
    ensures ReportedFailed(d) in ExecutionGaps(Reports(log)) <==> exists scope: Scope, i: nat :: scope.dimension == d && LastFailed(log, i, scope)
  {
    hide Reports, LastFailed, ExecutionGaps, Prior;
    GapsMean(Reports(log), d);
    forall scope
      ensures Prior(Reports(log), scope).Some? && Prior(Reports(log), scope).value.outcome == Failed <==> exists i: nat :: LastFailed(log, i, scope)
    {
      FailedExactly(log, scope);
    }
  }

  lemma {:induction false} UndecidedMeans(log: seq<Entry>)
    ensures Decisions(log) == [] <==> NothingDecided(log)
  {
    hide Decisions;
    var last := LatestAt(log);
  }

  /** The gaps of a reachable session, each at most once and in order, and what every one of them means. */
  lemma {:induction false} StatusExactly(history: seq<Command>, taskAssessments: nat, d: Dimension)
    ensures var log := After(history).log; var gaps := StatusOf(log, taskAssessments).gaps;
      && (AssessmentMissing in gaps <==> NothingDecided(log) && taskAssessments == 0)
      && (NotReported(d) in gaps <==> exists i: nat :: Unanswered(log, i, d))
      && (CompletionMissing(d) in gaps <==> exists s: Scope :: s.dimension == d && Unfinished(log, s))
      && (ReportedFailed(d) in gaps <==> exists s: Scope, i: nat :: s.dimension == d && LastFailed(log, i, s))
      && InPlace(gaps, 0, 7)
  {
    hide After, SessionOk, Reports, Decisions, Unreported, Unanswered, Unfinished, LastFailed, ExecutionGaps, NothingDecided, InPlace, Listed, AssessmentGaps;
    var s := After(history);
    var decisions, reports := Decisions(s.log), Reports(s.log);
    var missing, gaps := decisions == [] && taskAssessments == 0, ExecutionGaps(reports);
    HistoryKeepsSession(history);
    PendingMeans(s, d);
    FailedMeans(s.log, d);
    UnreportedExactly(s.log, d);
    UndecidedMeans(s.log);
    GapsJoined(decisions, reports, missing, gaps, d);
    AssessmentInPlace(decisions, reports, missing);
    ListedInPlace(gaps);
    InPlaceConcat(AssessmentGaps(decisions, reports, missing), Listed(gaps), 0, 3, 7);
  }
}
