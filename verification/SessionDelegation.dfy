/** Session delegation: a bounded log of decisions and agent reports that keeps room
    for the terminal report of every agent it has let start. */
module SessionDelegation {
  import opened Ordering
  import opened WriteScope

  const MAX_EVENTS := 64

  datatype Dimension = Worker | Reviewer

  datatype Disposition = Delegate | Skip | NotRequired

  datatype Choice = Choice(disposition: Disposition, reason: string)

  datatype Outcome = Started | Completed | Failed

  datatype Decision = Decision(id: Id, parallelPaths: nat, materialChange: bool, worker: Choice, reviewer: Choice, createdAt: int)

  datatype Report = Report(
    id: Id, decision: Id, dimension: Dimension, agent: string, model: string, effort: string,
    outcome: Outcome, summary: string, createdAt: int)

  datatype Request =
    | Assess(parallelPaths: nat, materialChange: bool, worker: Choice, reviewer: Choice)
    | Tell(decision: Id, dimension: Dimension, agent: string, model: string, effort: string, outcome: Outcome, summary: string)

  datatype Item = Decided(decision: Decision) | Reported(report: Report)

  datatype Entry = Entry(key: string, request: Request, item: Item)

  datatype Phase = Missing | Open | Closed

  /** One session and the delegation events of its stream. */
  datatype Session = Session(phase: Phase, log: seq<Entry>, nextId: Id)

  datatype Error = Invalid | Conflict | NotFound

  datatype Response = Done(item: Item, duplicate: bool) | Refused(error: Error)

  // ---------------------------------------------------------------- request shape

  predicate IdentifierChar(c: char) {
    '0' <= c <= '9' || 'A' <= c <= 'Z' || 'a' <= c <= 'z' || c in ".-_/"
  }

  predicate Identifier(s: string, maxBytes: nat) {
    !Blank(s) && Bytes(s) <= maxBytes && forall i :: 0 <= i < |s| ==> IdentifierChar(s[i])
  }

  predicate BoundedText(s: string) {
    !Blank(s) && Bytes(s) <= 2000
  }

  predicate KeyOk(key: string) {
    !Blank(key) && Bytes(key) <= 256
  }

  predicate ChoiceOk(c: Choice, required: bool) {
    BoundedText(c.reason) && !(required && c.disposition == NotRequired)
  }

  predicate WellFormed(key: string, r: Request) {
    KeyOk(key) && match r
      case Assess(paths, material, worker, reviewer) =>
        paths <= 32 && ChoiceOk(worker, paths >= 2) && ChoiceOk(reviewer, material)
      case Tell(_, _, agent, model, effort, _, summary) =>
        Identifier(agent, 128) && Identifier(model, 128) && Identifier(effort, 32) && BoundedText(summary)
  }

  // ---------------------------------------------------------------- reading the log

  function Decisions(log: seq<Entry>): seq<Decision> {
    if log == [] then []
    else
      var front, last := Decisions(log[..|log| - 1]), log[|log| - 1].item;
      if last.Decided? then front + [last.decision] else front
  }

  function Reports(log: seq<Entry>): seq<Report> {
    if log == [] then []
    else
      var front, last := Reports(log[..|log| - 1]), log[|log| - 1].item;
      if last.Reported? then front + [last.report] else front
  }

  function Lookup(log: seq<Entry>, key: string): Option<Entry> {
    if log == [] then None
    else
      var earlier := Lookup(log[..|log| - 1], key);
      if earlier.Some? then earlier else if log[|log| - 1].key == key then Some(log[|log| - 1]) else None
  }

  /** One agent's run under one decision and dimension. */
  datatype Scope = Scope(decision: Id, dimension: Dimension, agent: string)

  function ScopeOf(r: Report): Scope {
    Scope(r.decision, r.dimension, r.agent)
  }

  /** The latest report of a scope. */
  function Prior(reports: seq<Report>, s: Scope): Option<Report> {
    if reports == [] then None
    else if ScopeOf(reports[|reports| - 1]) == s then Some(reports[|reports| - 1])
    else Prior(reports[..|reports| - 1], s)
  }

  /** Everything a scope has reported, oldest first. */
  function History(reports: seq<Report>, s: Scope): seq<Report> {
    if reports == [] then []
    else
      var front, last := History(reports[..|reports| - 1], s), reports[|reports| - 1];
      if ScopeOf(last) == s then front + [last] else front
  }

  function CountStarted(reports: seq<Report>): nat {
    if reports == [] then 0
    else CountStarted(reports[..|reports| - 1]) + if reports[|reports| - 1].outcome == Started then 1 else 0
  }

  // ---------------------------------------------------------------- the guards

  function FindDecision(decisions: seq<Decision>, id: Id): Option<Decision> {
    if decisions == [] then None
    else
      var earlier := FindDecision(decisions[..|decisions| - 1], id);
      if earlier.Some? then earlier
      else if decisions[|decisions| - 1].id == id then Some(decisions[|decisions| - 1]) else None
  }

  function ChoiceFor(d: Decision, dimension: Dimension): Choice {
    if dimension == Worker then d.worker else d.reviewer
  }

  /** Room for one more event and the `reservation` that comes with it, beside what is already reserved. */
  function CapacityError(log: seq<Entry>, reservation: nat): Option<Error> {
    var reports := Reports(log);
    var started := CountStarted(reports);
    var terminal := |reports| - started;
    if started < terminal then Some(Conflict)
    else
      var count := |Decisions(log)| + |reports|;
      var pending := started - terminal;
      if count >= MAX_EVENTS || count + pending + reservation > MAX_EVENTS then Some(Invalid) else None
  }

  function OpenError(phase: Phase): Option<Error> {
    match phase
    case Missing => Some(NotFound)
    case Open => None
    case Closed => Some(Conflict)
  }

  function AssessError(s: Session): Option<Error> {
    if OpenError(s.phase).Some? then OpenError(s.phase)
    else if |s.log| > MAX_EVENTS then Some(Conflict)
    else CapacityError(s.log, 1)
  }

  /** Whether the outcome fits what the scope has reported before. */
  function OutcomeError(s: Session, r: Request): Option<Error>
    requires r.Tell?
  {
    var decisions := Decisions(s.log);
    var prior := Prior(Reports(s.log), Scope(r.decision, r.dimension, r.agent));
    if r.outcome == Started then
      if OpenError(s.phase).Some? then OpenError(s.phase)
      else if decisions == [] || decisions[|decisions| - 1].id != r.decision || prior.Some? then Some(Conflict)
      else None
    else if prior.None? || prior.value.outcome != Started then Some(Conflict)
    else if prior.value.model != r.model || prior.value.effort != r.effort then Some(Conflict)
    else None
  }

  predicate OtherDimension(reports: seq<Report>, agent: string, dimension: Dimension) {
    exists i :: 0 <= i < |reports| && reports[i].agent == agent && reports[i].dimension != dimension
  }

  function TellError(s: Session, r: Request): Option<Error>
    requires r.Tell?
  {
    if s.phase == Missing then Some(NotFound)
    else if |s.log| > MAX_EVENTS then Some(Conflict)
    else
      var decision := FindDecision(Decisions(s.log), r.decision);
      if decision.None? then Some(Conflict)
      else if ChoiceFor(decision.value, r.dimension).disposition != Delegate then Some(Conflict)
      else if OutcomeError(s, r).Some? then OutcomeError(s, r)
      else if OtherDimension(Reports(s.log), r.agent, r.dimension) then Some(Conflict)
      else CapacityError(s.log, if r.outcome == Started then 2 else 0)
  }

  // ---------------------------------------------------------------- transactions

  function NewItem(r: Request, id: Id, now: int): Item {
    match r
    case Assess(paths, material, worker, reviewer) => Decided(Decision(id, paths, material, worker, reviewer, now))
    case Tell(decision, dimension, agent, model, effort, outcome, summary) =>
      Reported(Report(id, decision, dimension, agent, model, effort, outcome, summary, now))
  }

  /** A keyed request; `elsewhere` says an event of another stream or kind holds the key. */
  function Submit(s: Session, key: string, r: Request, elsewhere: bool, now: int): (Session, Response) {
    if !WellFormed(key, r) then (s, Refused(Invalid))
    else if elsewhere then (s, Refused(Conflict))
    else match Lookup(s.log, key)
      case Some(e) => (s, if e.request == r then Done(e.item, true) else Refused(Conflict))
      case None =>
        var error := if r.Assess? then AssessError(s) else TellError(s, r);
        if error.Some? then (s, Refused(error.value))
        else
          var item := NewItem(r, s.nextId, now);
          (s.(log := s.log + [Entry(key, r, item)], nextId := s.nextId + 1), Done(item, false))
  }

  datatype Command = Begin | Close | Ask(key: string, request: Request, elsewhere: bool, now: int)

  function Apply(s: Session, c: Command): Session {
    match c
    case Begin => if s.phase == Missing then s.(phase := Open) else s
    case Close => if s.phase == Open then s.(phase := Closed) else s
    case Ask(key, r, elsewhere, now) => Submit(s, key, r, elsewhere, now).0
  }

  function After(history: seq<Command>): Session {
    if history == [] then Session(Missing, [], 0) else Apply(After(history[..|history| - 1]), history[|history| - 1])
  }

  // ---------------------------------------------------------------- the invariant

  /** A scope's reports: nothing, a start, or a start and one end that kept model and effort. */
  ghost predicate HistoryOk(h: seq<Report>) {
    && |h| <= 2
    && (|h| > 0 ==> h[0].outcome == Started)
    && (|h| == 2 ==> h[1].outcome != Started && h[1].model == h[0].model && h[1].effort == h[0].effort)
  }

  ghost predicate OneDimension(reports: seq<Report>) {
    forall i, j :: 0 <= i < |reports| && 0 <= j < |reports| && reports[i].agent == reports[j].agent
      ==> reports[i].dimension == reports[j].dimension
  }

  /** Each report refers to a decision that delegates its dimension. */
  ghost predicate Grounded(decisions: seq<Decision>, reports: seq<Report>) {
    forall i :: 0 <= i < |reports| ==> Delegated(decisions, reports[i].decision, reports[i].dimension)
  }

  predicate Delegated(decisions: seq<Decision>, id: Id, dimension: Dimension) {
    var d := FindDecision(decisions, id);
    d.Some? && ChoiceFor(d.value, dimension).disposition == Delegate
  }

  /** Terminal reports still owed. */
  ghost function Pending(log: seq<Entry>): int {
    2 * CountStarted(Reports(log)) - |Reports(log)|
  }

  /** The scopes whose agent has started and not ended. */
  ghost function PendingScopes(reports: seq<Report>): set<Scope> {
    set r | r in reports && Prior(reports, ScopeOf(r)).Some? && Prior(reports, ScopeOf(r)).value.outcome == Started :: ScopeOf(r)
  }

  ghost predicate SessionOk(s: Session) {
    && (s.phase == Missing ==> s.log == [])
    && 0 <= Pending(s.log) == |PendingScopes(Reports(s.log))|
    && |s.log| + Pending(s.log) <= MAX_EVENTS
    && (forall scope :: HistoryOk(History(Reports(s.log), scope)))
    && OneDimension(Reports(s.log))
    && Grounded(Decisions(s.log), Reports(s.log))
  }

  lemma {:induction false} PriorEndsHistory(reports: seq<Report>, s: Scope)
    ensures var h := History(reports, s); Prior(reports, s) == if h == [] then None else Some(h[|h| - 1])
  {
    if reports != [] { PriorEndsHistory(reports[..|reports| - 1], s); }
  }

  lemma {:induction false} PriorIsReported(reports: seq<Report>, s: Scope)
    ensures Prior(reports, s).Some? ==> Prior(reports, s).value in reports && ScopeOf(Prior(reports, s).value) == s
  {
    if reports != [] { PriorIsReported(reports[..|reports| - 1], s); }
  }

  lemma {:induction false} InPending(reports: seq<Report>, s: Scope)
    ensures s in PendingScopes(reports) <==> Prior(reports, s).Some? && Prior(reports, s).value.outcome == Started
  {
    PriorIsReported(reports, s);
  }

  /** What one more report does to the set of pending scopes. */
  lemma PendingStep(reports: seq<Report>, r: Report)
    ensures PendingScopes(reports + [r]) == if r.outcome == Started then PendingScopes(reports) + {ScopeOf(r)} else PendingScopes(reports) - {ScopeOf(r)}
  {
    hide PendingScopes;
    var more := reports + [r];
    assert more[..|reports|] == reports;
    forall s ensures s in PendingScopes(more)
      <==> s in (if r.outcome == Started then PendingScopes(reports) + {ScopeOf(r)} else PendingScopes(reports) - {ScopeOf(r)})
    {
      InPending(more, s);
      InPending(reports, s);
    }
  }

  lemma {:induction false} LogCounts(log: seq<Entry>)
    ensures |Decisions(log)| + |Reports(log)| == |log|
    ensures CountStarted(Reports(log)) <= |Reports(log)|
  {
    if log != [] {
      LogCounts(log[..|log| - 1]);
      var front := Reports(log[..|log| - 1]);
      if log[|log| - 1].item.Reported? { assert Reports(log)[..|front|] == front; }
    }
  }

  lemma {:induction false} ReportsStep(log: seq<Entry>, e: Entry)
    ensures Reports(log + [e]) == if e.item.Reported? then Reports(log) + [e.item.report] else Reports(log)
    ensures Decisions(log + [e]) == if e.item.Decided? then Decisions(log) + [e.item.decision] else Decisions(log)
    ensures e.item.Reported? ==> CountStarted(Reports(log + [e])) == CountStarted(Reports(log)) + if e.item.report.outcome == Started then 1 else 0
  {
    assert (log + [e])[..|log|] == log;
    if e.item.Reported? { assert (Reports(log) + [e.item.report])[..|Reports(log)|] == Reports(log); }
  }

  lemma {:induction false} FindKept(decisions: seq<Decision>, d: Decision, id: Id)
    requires FindDecision(decisions, id).Some?
    ensures FindDecision(decisions + [d], id) == FindDecision(decisions, id)
  {
    assert (decisions + [d])[..|decisions|] == decisions;
  }

  lemma AssessKeepsOk(s: Session, e: Entry)
    requires SessionOk(s) && s.phase != Missing && AssessError(s).None? && e.item.Decided?
    ensures SessionOk(s.(log := s.log + [e], nextId := s.nextId + 1))
  {
    hide PendingScopes, History, HistoryOk;
    LogCounts(s.log);
    ReportsStep(s.log, e);
    forall i | 0 <= i < |Reports(s.log)|
      ensures Delegated(Decisions(s.log + [e]), Reports(s.log)[i].decision, Reports(s.log)[i].dimension)
    {
      FindKept(Decisions(s.log), e.item.decision, Reports(s.log)[i].decision);
    }
  }

  lemma TellKeepsHistories(s: Session, r: Request, e: Entry, now: int)
    requires SessionOk(s) && r.Tell? && TellError(s, r).None? && e.item == NewItem(r, s.nextId, now)
    ensures forall scope :: HistoryOk(History(Reports(s.log + [e]), scope))
  {
    hide PendingScopes, CapacityError;
    var reports, more := Reports(s.log), Reports(s.log + [e]);
    ReportsStep(s.log, e);
    assert more[..|reports|] == reports;
    forall scope ensures HistoryOk(History(more, scope)) {
      PriorEndsHistory(reports, scope);
      assert HistoryOk(History(reports, scope));
    }
  }

  lemma TellKeepsPending(s: Session, r: Request, e: Entry, now: int)
    requires SessionOk(s) && r.Tell? && TellError(s, r).None? && e.item == NewItem(r, s.nextId, now)
    ensures Pending(s.log + [e]) == Pending(s.log) + (if r.outcome == Started then 1 else -1)
    ensures Pending(s.log + [e]) == |PendingScopes(Reports(s.log + [e]))|
  {
    hide PendingScopes, History, HistoryOk, Grounded, OneDimension;
    var reports := Reports(s.log);
    ReportsStep(s.log, e);
    PendingStep(reports, e.item.report);
    InPending(reports, ScopeOf(e.item.report));
  }

  lemma TellKeepsGrounded(s: Session, r: Request, e: Entry, now: int)
    requires SessionOk(s) && r.Tell? && TellError(s, r).None? && e.item == NewItem(r, s.nextId, now)
    ensures Grounded(Decisions(s.log + [e]), Reports(s.log + [e]))
  {
    hide PendingScopes, History, HistoryOk, OutcomeError, CapacityError, OneDimension, OtherDimension, FindDecision;
    ReportsStep(s.log, e);
  }

  lemma TellKeepsDimensions(s: Session, r: Request, e: Entry, now: int)
    requires SessionOk(s) && r.Tell? && TellError(s, r).None? && e.item == NewItem(r, s.nextId, now)
    ensures OneDimension(Reports(s.log + [e]))
  {
    hide PendingScopes, History, HistoryOk, OutcomeError, CapacityError, Grounded, FindDecision;
    ReportsStep(s.log, e);
    AppendDimension(Reports(s.log), e.item.report);
  }

  lemma AppendDimension(reports: seq<Report>, r: Report)
    requires OneDimension(reports) && !OtherDimension(reports, r.agent, r.dimension)
    ensures OneDimension(reports + [r])
  {
  }

  lemma TellKeepsOk(s: Session, r: Request, e: Entry, now: int)
    requires SessionOk(s) && r.Tell? && TellError(s, r).None? && e.item == NewItem(r, s.nextId, now)
    ensures SessionOk(s.(log := s.log + [e], nextId := s.nextId + 1))
  {
    hide PendingScopes, History, HistoryOk, OutcomeError, Grounded, OneDimension;
    LogCounts(s.log);
    TellKeepsHistories(s, r, e, now);
    TellKeepsPending(s, r, e, now);
    TellKeepsGrounded(s, r, e, now);
    TellKeepsDimensions(s, r, e, now);
  }

  lemma PhaseKeepsOk(s: Session, phase: Phase)
    requires SessionOk(s) && phase != Missing
    ensures SessionOk(s.(phase := phase))
  {
    hide PendingScopes, History, HistoryOk, Grounded, OneDimension;
  }

  lemma SubmitKeepsOk(s: Session, key: string, r: Request, elsewhere: bool, now: int)
    requires SessionOk(s)
    ensures SessionOk(Submit(s, key, r, elsewhere, now).0)
  {
    hide SessionOk, WellFormed, Lookup, CapacityError, OutcomeError;
    var e := Entry(key, r, NewItem(r, s.nextId, now));
    if r.Assess? && AssessError(s).None? { AssessKeepsOk(s, e); }
    if r.Tell? && TellError(s, r).None? { TellKeepsOk(s, r, e, now); }
  }

  lemma SessionOkKept(s: Session, c: Command)
    requires SessionOk(s)
    ensures SessionOk(Apply(s, c))
  {
    hide SessionOk, Submit;
    match c
    case Begin => PhaseKeepsOk(s, Open);
    case Close => PhaseKeepsOk(s, Closed);
    case Ask(key, r, elsewhere, now) => SubmitKeepsOk(s, key, r, elsewhere, now);
  }

  // ---------------------------------------------------------------- whole runs

  lemma NewSessionOk()
    ensures SessionOk(Session(Missing, [], 0))
  {
    assert PendingScopes([]) == {};
  }

  /** In every reachable session the events and the terminal reports still owed fit in the bound,
      every agent's history is a start or a start and its end, and each agent has one dimension. */
  lemma {:induction false} HistoryKeepsSession(history: seq<Command>)
    ensures SessionOk(After(history))
  {
    hide Apply, SessionOk;
    if history != [] {
      HistoryKeepsSession(history[..|history| - 1]);
      SessionOkKept(After(history[..|history| - 1]), history[|history| - 1]);
    } else {
      NewSessionOk();
    }
  }

  /** A terminal report for a pending start that keeps its model and effort. */
  ghost predicate Finishes(log: seq<Entry>, r: Request) {
    && r.Tell? && r.outcome != Started
    && Scope(r.decision, r.dimension, r.agent) in PendingScopes(Reports(log))
    && Prior(Reports(log), Scope(r.decision, r.dimension, r.agent)).Some?
    && Prior(Reports(log), Scope(r.decision, r.dimension, r.agent)).value.model == r.model
    && Prior(Reports(log), Scope(r.decision, r.dimension, r.agent)).value.effort == r.effort
  }

  lemma FinishHasRoom(s: Session, r: Request)
    requires SessionOk(s) && Finishes(s.log, r)
    ensures CapacityError(s.log, 0).None? && |s.log| <= MAX_EVENTS
  {
    hide PendingScopes, History, HistoryOk, Grounded, OneDimension, Prior;
    LogCounts(s.log);
    assert PendingScopes(Reports(s.log)) != {};
  }

  lemma FinishIsGrounded(s: Session, r: Request)
    requires SessionOk(s) && Finishes(s.log, r)
    ensures Delegated(Decisions(s.log), r.decision, r.dimension)
    ensures !OtherDimension(Reports(s.log), r.agent, r.dimension)
  {
    hide PendingScopes, History, HistoryOk, Prior, Delegated;
    var reports := Reports(s.log);
    PriorIsReported(reports, Scope(r.decision, r.dimension, r.agent));
    var i :| 0 <= i < |reports| && reports[i] == Prior(reports, Scope(r.decision, r.dimension, r.agent)).value;
    assert Delegated(Decisions(s.log), reports[i].decision, reports[i].dimension);
  }

  lemma FinishPassesGuards(s: Session, r: Request)
    requires SessionOk(s) && Finishes(s.log, r)
    ensures TellError(s, r).None?
  {
    hide PendingScopes, History, HistoryOk, CapacityError, OtherDimension, SessionOk, FindDecision;
    InPending(Reports(s.log), Scope(r.decision, r.dimension, r.agent));
    FinishHasRoom(s, r);
    FinishIsGrounded(s, r);
    EmptyHasNone(s, r);
  }

  lemma EmptyHasNone(s: Session, r: Request)
    requires SessionOk(s) && Finishes(s.log, r)
    ensures s.phase != Missing
  {
    hide History, HistoryOk, Grounded, OneDimension;
  }

  /** No terminal report is stranded: for every pending start of every reachable session, open or closed,
      the matching terminal report under a fresh key is recorded, and settles exactly that scope. */
  lemma {:induction false} TerminalReportsNeverStranded(history: seq<Command>, key: string, r: Request, now: int)
    requires Finishes(After(history).log, r)
    requires WellFormed(key, r) && Lookup(After(history).log, key).None?
    ensures var s := After(history); var next := Submit(s, key, r, false, now);
      && next.1 == Done(NewItem(r, s.nextId, now), false)
      && next.0.log == s.log + [Entry(key, r, NewItem(r, s.nextId, now))]
      && PendingScopes(Reports(next.0.log)) == PendingScopes(Reports(s.log)) - {Scope(r.decision, r.dimension, r.agent)}
  {
    hide After, SessionOk, WellFormed, Lookup, TellError;
    var s := After(history);
    HistoryKeepsSession(history);
    FinishPassesGuards(s, r);
    var e := Entry(key, r, NewItem(r, s.nextId, now));
    ReportsStep(s.log, e);
    PendingStep(Reports(s.log), e.item.report);
  }

  // ---------------------------------------------------------------- draining

  /** Keys no event of the log holds, all different, all acceptable. */
  ghost predicate FreshKeys(log: seq<Entry>, keys: seq<string>) {
    && (forall i :: 0 <= i < |keys| ==> KeyOk(keys[i]) && Lookup(log, keys[i]).None?)
    && forall i, j :: 0 <= i < j < |keys| ==> keys[i] != keys[j]
  }

  /** Every report kept was well formed when it was made. */
  ghost predicate ReportsWellFormed(log: seq<Entry>) {
    forall i :: 0 <= i < |Reports(log)| ==> ReportWellFormed(Reports(log)[i])
  }

  predicate ReportWellFormed(r: Report) {
    Identifier(r.agent, 128) && Identifier(r.model, 128) && Identifier(r.effort, 32) && BoundedText(r.summary)
  }

  lemma {:induction false} HistoryKeepsShape(history: seq<Command>)
    ensures ReportsWellFormed(After(history).log)
  {
    hide Identifier, BoundedText, KeyOk, Lookup, AssessError, TellError;
    if history != [] {
      var s, c := After(history[..|history| - 1]), history[|history| - 1];
      HistoryKeepsShape(history[..|history| - 1]);
      if c.Ask? { ReportsStep(s.log, Entry(c.key, c.request, NewItem(c.request, s.nextId, c.now))); }
    }
  }

  /** The commands that report one failure for each pending scope. */
  ghost predicate Drains(history: seq<Command>, ending: seq<Command>) {
    && PendingScopes(Reports(After(history + ending).log)) == {}
    && |ending| == |PendingScopes(Reports(After(history).log))|
    && forall i :: 0 <= i < |ending| ==> ending[i].Ask? && ending[i].request.Tell? && ending[i].request.outcome != Started
  }

  lemma {:induction false} LookupStep(log: seq<Entry>, e: Entry, key: string)
    requires Lookup(log, key).None? && e.key != key
    ensures Lookup(log + [e], key).None?
  {
    assert (log + [e])[..|log|] == log;
  }

  lemma {:induction false} AfterSnoc(history: seq<Command>, c: Command)
    ensures After(history + [c]) == Apply(After(history), c)
  {
    hide Apply;
    assert (history + [c])[..|history|] == history;
  }

  /** The report that ends a pending scope. */
  lemma {:induction false} FinishExists(history: seq<Command>, scope: Scope)
    requires scope in PendingScopes(Reports(After(history).log))
    ensures exists r :: ShapeOk(r) && Finishes(After(history).log, r) && Scope(r.decision, r.dimension, r.agent) == scope
  {
    hide After, Identifier, BoundedText;
    HistoryKeepsShape(history);
    var reports := Reports(After(history).log);
    InPending(reports, scope);
    PriorIsReported(reports, scope);
    var start := Prior(reports, scope).value;
    var i :| 0 <= i < |reports| && reports[i] == start;
    assert ReportWellFormed(reports[i]);
    var r := Tell(scope.decision, scope.dimension, scope.agent, start.model, start.effort, Failed, start.summary);
    assert Finishes(After(history).log, r) && ShapeOk(r);
  }

  predicate ShapeOk(r: Request) {
    r.Tell? && r.outcome != Started && Identifier(r.agent, 128) && Identifier(r.model, 128) && Identifier(r.effort, 32) && BoundedText(r.summary)
  }

  /** Settles one pending scope. */
  lemma DrainOne(history: seq<Command>, key: string, now: int) returns (c: Command)
    requires KeyOk(key) && Lookup(After(history).log, key).None? && PendingScopes(Reports(After(history).log)) != {}
    ensures c.Ask? && c.key == key && c.request.Tell? && c.request.outcome != Started
    ensures exists item :: After(history + [c]).log == After(history).log + [Entry(key, c.request, item)]
    ensures |PendingScopes(Reports(After(history + [c]).log))| + 1 == |PendingScopes(Reports(After(history).log))|
  {
    hide After, Finishes, PendingScopes, SessionOk, KeyOk, Identifier, BoundedText, Lookup, Submit;
    var s := After(history);
    var scope :| scope in PendingScopes(Reports(s.log));
    FinishExists(history, scope);
    var r :| ShapeOk(r) && Finishes(s.log, r) && Scope(r.decision, r.dimension, r.agent) == scope;
    c := Ask(key, r, false, now);
    TerminalReportsNeverStranded(history, key, r, now);
    AfterSnoc(history, c);
  }

  lemma FreshKeysShrink(log: seq<Entry>, keys: seq<string>, e: Entry)
    requires keys != [] && FreshKeys(log, keys) && e.key == keys[0]
    ensures FreshKeys(log + [e], keys[1..])
  {
    hide KeyOk, Lookup;
    forall i | 1 <= i < |keys| ensures Lookup(log + [e], keys[i]).None? {
      LookupStep(log, e, keys[i]);
    }
  }

  /** From every reachable session, closed or not, all pending scopes can be settled within the bound:
      one terminal report each, under any supply of fresh keys. */
  lemma {:induction false} PendingCanDrain(history: seq<Command>, keys: seq<string>, now: int)
    requires FreshKeys(After(history).log, keys) && |PendingScopes(Reports(After(history).log))| <= |keys|
    ensures exists ending :: Drains(history, ending)
    decreases |keys|
  {
    hide After, PendingScopes, FreshKeys, Lookup, Reports, Drains;
    if PendingScopes(Reports(After(history).log)) == {} {
      DrainsNone(history);
    } else {
      assert KeyOk(keys[0]) && Lookup(After(history).log, keys[0]).None? by { FirstFresh(After(history).log, keys); }
      var c := DrainOne(history, keys[0], now);
      var item :| After(history + [c]).log == After(history).log + [Entry(keys[0], c.request, item)];
      FreshKeysShrink(After(history).log, keys, Entry(keys[0], c.request, item));
      PendingCanDrain(history + [c], keys[1..], now);
      var rest :| Drains(history + [c], rest);
      DrainsCons(history, c, rest);
    }
  }

  lemma {:induction false} FirstFresh(log: seq<Entry>, keys: seq<string>)
    requires keys != [] && FreshKeys(log, keys)
    ensures KeyOk(keys[0]) && Lookup(log, keys[0]).None?
  {
  }

  lemma {:induction false} DrainsNone(history: seq<Command>)
    requires PendingScopes(Reports(After(history).log)) == {}
    ensures Drains(history, [])
  {
    assert history + [] == history;
  }

  lemma {:induction false} DrainsCons(history: seq<Command>, c: Command, rest: seq<Command>)
    requires Drains(history + [c], rest) && c.Ask? && c.request.Tell? && c.request.outcome != Started
    requires |PendingScopes(Reports(After(history + [c]).log))| + 1 == |PendingScopes(Reports(After(history).log))|
    ensures Drains(history, [c] + rest)
  {
    hide After, PendingScopes;
    assert history + ([c] + rest) == history + [c] + rest;
  }
}
