/** Replaying any stream the writers can produce never fails and reproduces every recorded snapshot. */
module InitiativeReplay {
  import opened Ordering
  import opened WriteScope
  import opened Initiative

  // ---------------------------------------------------------------- well-formed statuses

  ghost predicate PlanOk(p: Plan) {
    && 1 <= |p.requirements| <= 64
    && forall i, j :: 0 <= i < j < |p.requirements| ==> p.requirements[i].id != p.requirements[j].id
  }

  /** Strictly increasing in phase order, so at most one of each kind. */
  ghost predicate InPhaseOrder(artifacts: seq<Artifact>) {
    forall i, j :: 0 <= i < j < |artifacts| ==> Rank(artifacts[i].kind) < Rank(artifacts[j].kind)
  }

  /** The artifact cites direct workspace evidence of the project, no older than the plan. */
  predicate ArtifactOk(w: World, project: Id, plan: Plan, a: Artifact) {
    CheckEvidence(w, project, a.evidence, WorkspaceFile, Direct, plan.createdAt) == Ok(a.createdAt)
  }

  /** The link ties a planned requirement to a task of the project that carries its criterion. */
  predicate LinkOk(w: World, project: Id, plan: Plan, l: Link) {
    var r := FindRequirement(plan.requirements, l.requirement);
    r.Some? && l.task in w.tasks && w.tasks[l.task].project == project && r.value.criterion in w.tasks[l.task].criteria
  }

  ghost predicate StatusOk(w: World, project: Id, s: Status) {
    && PlanOk(s.plan)
    && InPhaseOrder(s.artifacts) && (forall i :: 0 <= i < |s.artifacts| ==> ArtifactOk(w, project, s.plan, s.artifacts[i]))
    && Distinct(s.links) && (forall i :: 0 <= i < |s.links| ==> LinkOk(w, project, s.plan, s.links[i]))
  }

  // ---------------------------------------------------------------- what one update does

  lemma {:induction false} FilterOrdered(artifacts: seq<Artifact>, keep: Artifact -> bool)
    requires InPhaseOrder(artifacts)
    ensures InPhaseOrder(Filter(artifacts, keep))
  {
    if artifacts != [] {
      var front := artifacts[..|artifacts| - 1];
      FilterOrdered(front, keep);
      forall a | a in front ensures Rank(a.kind) < Rank(artifacts[|front|].kind) {
        var i :| 0 <= i < |front| && front[i] == a;
        assert artifacts[i] == a;
      }
      var kept := Filter(front, keep);
      forall i | 0 <= i < |kept| ensures kept[i] in front { assert kept[i] in kept; }
    }
  }

  ghost function Standing(artifacts: seq<Artifact>, kind: Kind): seq<Artifact> {
    Filter(Filter(artifacts, (a: Artifact) => Survives(a, kind)), (a: Artifact) => a.kind != kind)
  }

  lemma StandingAreEarlier(artifacts: seq<Artifact>, kind: Kind)
    requires InPhaseOrder(artifacts)
    ensures InPhaseOrder(Standing(artifacts, kind))
    ensures forall a :: a in Standing(artifacts, kind) <==> a in artifacts && Rank(a.kind) < Rank(kind)
  {
    FilterOrdered(artifacts, (a: Artifact) => Survives(a, kind));
    FilterOrdered(Filter(artifacts, (a: Artifact) => Survives(a, kind)), (a: Artifact) => a.kind != kind);
  }

  lemma AppendLater(artifacts: seq<Artifact>, a: Artifact)
    requires InPhaseOrder(artifacts) && forall b :: b in artifacts ==> Rank(b.kind) < Rank(a.kind)
    ensures InPhaseOrder(artifacts + [a])
  {
    forall i | 0 <= i < |artifacts| ensures Rank(artifacts[i].kind) < Rank(a.kind) { assert artifacts[i] in artifacts; }
  }

  /** A new artifact drops its own kind and every later phase, and goes last. */
  lemma ArtifactInvalidatesLaterPhases(s: Status, kind: Kind, evidence: Id, createdAt: int)
    requires InPhaseOrder(s.artifacts)
    ensures var after := ApplyArtifact(s, kind, evidence, createdAt);
      && after.plan == s.plan && after.links == s.links && after.artifacts != []
      && InPhaseOrder(after.artifacts)
      && after.artifacts[|after.artifacts| - 1] == Artifact(kind, evidence, createdAt)
      && forall a :: a in after.artifacts[..|after.artifacts| - 1] <==> a in s.artifacts && Rank(a.kind) < Rank(kind)
  {
    hide Filter, Rank, InPhaseOrder, Survives;
    var kept := Standing(s.artifacts, kind);
    StandingAreEarlier(s.artifacts, kind);
    AppendLater(kept, Artifact(kind, evidence, createdAt));
    var after := ApplyArtifact(s, kind, evidence, createdAt);
    assert after.artifacts == kept + [Artifact(kind, evidence, createdAt)];
    assert after.artifacts[..|kept|] == kept;
  }

  /** A new link drops the integration and release artifacts only. */
  lemma LinkInvalidatesIntegration(s: Status, requirement: string, task: Id)
    requires InPhaseOrder(s.artifacts) && ApplyLink(s, requirement, task).Ok?
    ensures var after := ApplyLink(s, requirement, task).value;
      && after.plan == s.plan && after.links == s.links + [Link(requirement, task)]
      && Link(requirement, task) !in s.links && InPhaseOrder(after.artifacts)
      && forall a :: a in after.artifacts <==> a in s.artifacts && Rank(a.kind) < Rank(Integration)
  {
    FilterOrdered(s.artifacts, BeforeIntegration);
  }

  lemma PlanShapeOk(r: Request, plan: Plan)
    requires r.MakePlan? && PlanShape(r) && plan.requirements == r.requirements
    ensures PlanOk(plan)
  {
  }

  /** Whatever an event does, it leaves a well-formed status. */
  lemma EffectKeepsOk(w: World, project: Id, id: Id, current: Option<Status>, e: Event)
    requires current.Some? ==> StatusOk(w, project, current.value)
    requires e.request.MakePlan? ==> PlanShape(e.request)
    requires Effect(w, project, id, current, e).Ok?
    ensures StatusOk(w, project, Effect(w, project, id, current, e).value)
  {
    hide Filter, FindRequirement, PlanShape;
    match e.request
    case MakePlan(_, _, _, _, _, _, _) => PlanShapeOk(e.request, e.status.plan);
    case RecordArtifact(_, _, kind, evidence) => ArtifactKeepsOk(w, project, current.value, kind, evidence);
    case LinkTask(_, _, requirement, task) => LinkKeepsOk(w, project, current.value, requirement, task);
  }

  lemma ArtifactKeepsOk(w: World, project: Id, s: Status, kind: Kind, evidence: Id)
    requires StatusOk(w, project, s)
    requires CheckEvidence(w, project, evidence, WorkspaceFile, Direct, s.plan.createdAt).Ok?
    ensures StatusOk(w, project, ApplyArtifact(s, kind, evidence, CheckEvidence(w, project, evidence, WorkspaceFile, Direct, s.plan.createdAt).value))
  {
    hide PlanOk, LinkOk, ApplyArtifact, Rank;
    var time := CheckEvidence(w, project, evidence, WorkspaceFile, Direct, s.plan.createdAt).value;
    var after := ApplyArtifact(s, kind, evidence, time);
    ArtifactInvalidatesLaterPhases(s, kind, evidence, time);
    forall i | 0 <= i < |after.artifacts| ensures ArtifactOk(w, project, after.plan, after.artifacts[i]) {
      if i < |after.artifacts| - 1 {
        assert after.artifacts[i] in after.artifacts[..|after.artifacts| - 1];
        var j :| 0 <= j < |s.artifacts| && s.artifacts[j] == after.artifacts[i];
        assert ArtifactOk(w, project, s.plan, s.artifacts[j]);
      }
    }
  }

  lemma LinkKeepsOk(w: World, project: Id, s: Status, requirement: string, task: Id)
    requires StatusOk(w, project, s) && LinkOk(w, project, s.plan, Link(requirement, task)) && ApplyLink(s, requirement, task).Ok?
    ensures StatusOk(w, project, ApplyLink(s, requirement, task).value)
  {
    hide PlanOk, ApplyLink, Rank, FindRequirement, CheckEvidence;
    var after := ApplyLink(s, requirement, task).value;
    LinkInvalidatesIntegration(s, requirement, task);
    forall i | 0 <= i < |after.artifacts| ensures ArtifactOk(w, project, after.plan, after.artifacts[i]) {
      assert after.artifacts[i] in s.artifacts;
      var j :| 0 <= j < |s.artifacts| && s.artifacts[j] == after.artifacts[i];
      assert ArtifactOk(w, project, s.plan, s.artifacts[j]);
    }
    forall i | 0 <= i < |after.links| ensures LinkOk(w, project, after.plan, after.links[i]) {
      if i < |s.links| { assert LinkOk(w, project, s.plan, s.links[i]); }
    }
  }

  // ---------------------------------------------------------------- replay in a later world

  lemma EffectStable(w: World, v: World, project: Id, id: Id, current: Option<Status>, e: Event)
    requires Later(w, v) && Effect(w, project, id, current, e).Ok?
    ensures Effect(v, project, id, current, e) == Effect(w, project, id, current, e)
  {
    hide ApplyArtifact, ApplyLink, FindRequirement;
  }

  /** What replayed once replays the same ever after. */
  lemma {:induction false} ReplayStable(w: World, v: World, project: Id, id: Id, log: seq<Event>)
    requires Later(w, v) && Replay(w, project, id, log).Ok?
    ensures Replay(v, project, id, log) == Replay(w, project, id, log)
    decreases |log|
  {
    hide Effect, Later;
    if log != [] {
      var front := log[..|log| - 1];
      ReplayStable(w, v, project, id, front);
      EffectStable(w, v, project, id, Replay(w, project, id, front).value, log[|front|]);
    }
  }

  lemma StatusOkStable(w: World, v: World, project: Id, s: Status)
    requires Later(w, v) && StatusOk(w, project, s)
    ensures StatusOk(v, project, s)
  {
    hide PlanOk, InPhaseOrder, FindRequirement;
    forall i | 0 <= i < |s.artifacts| ensures ArtifactOk(v, project, s.plan, s.artifacts[i]) {
      assert ArtifactOk(w, project, s.plan, s.artifacts[i]);
    }
    forall i | 0 <= i < |s.links| ensures LinkOk(v, project, s.plan, s.links[i]) {
      assert LinkOk(w, project, s.plan, s.links[i]);
    }
  }

  // ---------------------------------------------------------------- streams

  /** The stream replays, to a well-formed status, within its bound. */
  ghost predicate StreamOk(w: World, project: Id, id: Id, log: seq<Event>) {
    var r := ReadStatus(w, project, id, log);
    r.Ok? && r.value.initiative == id && StatusOk(w, project, r.value) && |log| <= MAX_EVENTS
  }

  ghost predicate DbOk(w: World, db: Db) {
    && (forall id :: id in db.owners ==> id < db.nextId && StreamOk(w, db.owners[id], id, StreamOf(db.events, id)))
    && (forall i :: 0 <= i < |db.events| ==> db.events[i].stream in db.owners)
  }

  lemma StreamOkStable(w: World, v: World, project: Id, id: Id, log: seq<Event>)
    requires Later(w, v) && StreamOk(w, project, id, log)
    ensures StreamOk(v, project, id, log)
  {
    hide Replay, StatusOk, Later;
    ReplayStable(w, v, project, id, log);
    StatusOkStable(w, v, project, ReadStatus(w, project, id, log).value);
  }

  lemma DbOkStable(w: World, v: World, db: Db)
    requires Later(w, v) && DbOk(w, db)
    ensures DbOk(v, db)
  {
    hide StreamOk, Later, StreamOf;
    forall id | id in db.owners ensures StreamOk(v, db.owners[id], id, StreamOf(db.events, id)) {
      StreamOkStable(w, v, db.owners[id], id, StreamOf(db.events, id));
    }
  }

  lemma StreamStep(events: seq<Event>, e: Event, id: Id)
    ensures StreamOf(events + [e], id) == if e.stream == id then StreamOf(events, id) + [e] else StreamOf(events, id)
  {
    assert (events + [e])[..|events|] == events;
  }

  lemma {:induction false} StrangersHaveNoStream(events: seq<Event>, id: Id)
    requires forall i :: 0 <= i < |events| ==> events[i].stream != id
    ensures StreamOf(events, id) == []
  {
    if events != [] { StrangersHaveNoStream(events[..|events| - 1], id); }
  }

  /** An event whose snapshot is its effect, refreshed. */
  lemma AppendedReplays(w: World, project: Id, id: Id, log: seq<Event>, e: Event, s: Status)
    requires log == [] || StreamOk(w, project, id, log)
    requires |log| < MAX_EVENTS && (e.request.MakePlan? ==> PlanShape(e.request))
    requires Effect(w, project, id, if log == [] then None else Some(ReadStatus(w, project, id, log).value), e) == Ok(s)
    requires s.initiative == id && Refresh(w, s) == Ok(e.status)
    ensures StreamOk(w, project, id, log + [e])
  {
    hide Effect, StatusOk, PlanShape, Missing, DanglingLink;
    var current := if log == [] then None else Some(ReadStatus(w, project, id, log).value);
    ReplaySnoc(w, project, id, log, e);
    assert Replay(w, project, id, log) == Ok(current);
    assert ReplayStep(w, project, id, current, e) == Ok(s);
    EffectKeepsOk(w, project, id, current, e);
  }

  lemma {:induction false} ReplaySnoc(w: World, project: Id, id: Id, log: seq<Event>, e: Event)
    requires Replay(w, project, id, log).Ok?
    ensures Replay(w, project, id, log + [e])
      == var next := ReplayStep(w, project, id, Replay(w, project, id, log).value, e);
         if next.Err? then Err(next.error) else Ok(Some(next.value))
  {
    assert (log + [e])[..|log|] == log;
  }

  lemma NewPlanMatches(r: Request, id: Id, revision: Id, now: int)
    requires r.MakePlan? && (r.initiative.None? || r.initiative.value == id)
    ensures PlanMatches(id, r, NewPlan(r, revision, now), now)
  {
  }

  /** What a committed write leaves to prove about its event. */
  ghost predicate WriteOk(w: World, db: Db, v: Verdict, e: Event)
    requires v.Commit?
  {
    && StreamOk(w, v.owner, v.stream, StreamOf(db.events, v.stream) + [e])
    && v.stream < db.nextId + v.minted && (v.stream in db.owners ==> db.owners[v.stream] == v.owner)
  }

  lemma PlanReplays(w: World, db: Db, key: string, r: Request, now: int)
    requires DbOk(w, db) && r.MakePlan? && PlanShape(r) && PlanTx(db, w, r, now).Commit?
    ensures var v := PlanTx(db, w, r, now); WriteOk(w, db, v, Event(key, v.stream, r, v.status, now))
  {
    hide StreamOk, PlanShape, StreamOf, ReadStatus, CheckEvidence, PlanMatches;
    var v := PlanTx(db, w, r, now);
    var e := Event(key, v.stream, r, v.status, now);
    var plan := v.status.plan;
    NewPlanMatches(r, v.stream, plan.revision, now);
    if r.initiative.None? { StrangersHaveNoStream(db.events, db.nextId); }
    AppendedReplays(w, v.owner, v.stream, StreamOf(db.events, v.stream), e, Fresh(v.stream, plan));
  }

  lemma ArtifactReplays(w: World, db: Db, key: string, r: Request, now: int)
    requires DbOk(w, db) && r.RecordArtifact? && ArtifactTx(db, w, r).Commit?
    ensures var v := ArtifactTx(db, w, r); WriteOk(w, db, v, Event(key, v.stream, r, v.status, now))
  {
    hide StreamOf, ApplyArtifact, StatusOk, Missing, DanglingLink;
    var v := ArtifactTx(db, w, r);
    var e := Event(key, v.stream, r, v.status, now);
    var log := StreamOf(db.events, v.stream);
    var s := ReadStatus(w, v.owner, v.stream, log).value;
    assert StreamOk(w, v.owner, v.stream, log);
    var time := CheckEvidence(w, v.owner, r.evidence, WorkspaceFile, Direct, s.plan.createdAt).value;
    ArtifactIdentity(s, r.kind, r.evidence, time);
    AppendedReplays(w, v.owner, v.stream, log, e, ApplyArtifact(s, r.kind, r.evidence, time));
  }

  lemma ArtifactIdentity(s: Status, kind: Kind, evidence: Id, time: int)
    ensures ApplyArtifact(s, kind, evidence, time).initiative == s.initiative
  {
  }

  lemma LinkReplays(w: World, db: Db, key: string, r: Request, now: int)
    requires DbOk(w, db) && r.LinkTask? && LinkTx(db, w, r).Commit?
    ensures var v := LinkTx(db, w, r); WriteOk(w, db, v, Event(key, v.stream, r, v.status, now))
  {
    hide StreamOf, StatusOk, Missing, DanglingLink, FindRequirement, Filter;
    var v := LinkTx(db, w, r);
    var e := Event(key, v.stream, r, v.status, now);
    var log := StreamOf(db.events, v.stream);
    assert StreamOk(w, v.owner, v.stream, log);
    var s := ReadStatus(w, v.owner, v.stream, log).value;
    AppendedReplays(w, v.owner, v.stream, log, e, ApplyLink(s, r.requirement, r.task).value);
  }

  lemma WriteKeepsOk(w: World, db: Db, key: string, r: Request, now: int)
    requires DbOk(w, db)
    ensures DbOk(w, Write(db, w, key, r, now).0)
  {
    hide StreamOk, StreamOf, PlanShape, PlanTx, ArtifactTx, LinkTx, Lookup;
    var v := Execute(db, w, r, now);
    if !Blank(key) && (r.MakePlan? ==> PlanShape(r)) && Lookup(db.events, key).None? && v.Commit? {
      var e := Event(key, v.stream, r, v.status, now);
      match r {
        case MakePlan(_, _, _, _, _, _, _) => PlanReplays(w, db, key, r, now);
        case RecordArtifact(_, _, _, _) => ArtifactReplays(w, db, key, r, now);
        case LinkTask(_, _, _, _) => LinkReplays(w, db, key, r, now);
      }
      var d := Write(db, w, key, r, now).0;
      forall id | id in d.owners ensures id < d.nextId && StreamOk(w, d.owners[id], id, StreamOf(d.events, id)) {
        StreamStep(db.events, e, id);
      }
    }
  }

  /** The store holds up in any world from the last write on. */
  lemma {:induction false} HistoryKeepsStreams(history: seq<Step>, w: World)
    requires Flows(history, w)
    ensures DbOk(w, After(history))
  {
    hide Write, Later, StreamOk;
    if history != [] {
      var front, last := history[..|history| - 1], history[|history| - 1];
      HistoryKeepsStreams(front, last.world);
      WriteKeepsOk(last.world, After(front), last.key, last.request, last.now);
      DbOkStable(last.world, w, After(history));
    }
  }

  /** Replay is total and agrees: after any history and in any later world, reading an initiative back
      never fails, and its plan, artifacts and links are those of the last snapshot. Artifacts are in strictly
      increasing phase order and links pairwise distinct. */
  lemma {:induction false} ReplayIsTotal(history: seq<Step>, w: World, id: Id)
    requires Flows(history, w) && id in After(history).owners
    ensures var db := After(history); var log := StreamOf(db.events, id); var r := ReadStatus(w, db.owners[id], id, log);
      && r.Ok? && StatusOk(w, db.owners[id], r.value)
      && log != [] && Agrees(log[|log| - 1].status, r.value)
  {
    hide After, StatusOk, Effect;
    HistoryKeepsStreams(history, w);
    var log := StreamOf(After(history).events, id);
    assert StreamOk(w, After(history).owners[id], id, log);
  }

  /** And so for every earlier snapshot: each prefix of a stream replays to what was recorded then. */
  lemma {:induction false} EverySnapshotReplays(w: World, project: Id, id: Id, log: seq<Event>, n: nat)
    requires Replay(w, project, id, log).Ok? && 1 <= n <= |log|
    ensures ReadStatus(w, project, id, log[..n]).Ok? && Agrees(log[n - 1].status, ReadStatus(w, project, id, log[..n]).value)
    decreases |log|
  {
    hide Effect;
    if n < |log| {
      EverySnapshotReplays(w, project, id, log[..|log| - 1], n);
      assert log[..|log| - 1][..n] == log[..n];
    } else {
      assert log[..n] == log;
    }
  }
}
