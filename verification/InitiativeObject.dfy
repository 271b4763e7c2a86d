/** The initiative store as objects: a status changed in place, and the log the writers extend. */
module InitiativeObject {
  import opened Ordering
  import opened WriteScope
  import opened I = Initiative

  lemma {:induction false} LinkGapStep(w: World, plan: Plan, r: Requirement, links: seq<Link>, j: nat)
    requires j < |links|
    ensures LinkGaps(w, plan, r, links[..j + 1]) == if Verified(w, plan, r, links[j].task) then LinkGaps(w, plan, r, links[..j])
      else LinkGaps(w, plan, r, links[..j]) + [Unverified(r.id, links[j].task)]
  {
    assert links[..j + 1][..j] == links[..j];
  }

  lemma {:induction false} LinkTimeStep(w: World, plan: Plan, r: Requirement, links: seq<Link>, j: nat)
    requires j < |links|
    ensures LinkTimes(w, plan, r, links[..j + 1]) == if Verified(w, plan, r, links[j].task)
      then LinkTimes(w, plan, r, links[..j]) + [w.tasks[links[j].task].updatedAt] else LinkTimes(w, plan, r, links[..j])
  {
    assert links[..j + 1][..j] == links[..j];
  }

  lemma {:induction false} TimesStep(times: seq<int>, t: int, floor: int)
    ensures Greatest(times + [t], floor) == if t > Greatest(times, floor) then t else Greatest(times, floor)
    ensures Least(times + [t]) == if Least(times).None? || t < Least(times).value then Some(t) else Least(times)
  {
    assert (times + [t])[..|times|] == times;
  }

  /** What one more link does to the extremes. */
  lemma {:induction false} ExtremesStep(w: World, plan: Plan, r: Requirement, links: seq<Link>, j: nat, before: seq<int>, floor: int)
    requires j < |links|
    ensures var times := before + LinkTimes(w, plan, r, links[..j]); var more := before + LinkTimes(w, plan, r, links[..j + 1]);
      if Verified(w, plan, r, links[j].task) then
        var t := w.tasks[links[j].task].updatedAt;
        && Greatest(more, floor) == (if t > Greatest(times, floor) then t else Greatest(times, floor))
        && Least(more) == (if Least(times).None? || t < Least(times).value then Some(t) else Least(times))
      else more == times
  {
    hide LinkTimes, Greatest, Least;
    LinkTimeStep(w, plan, r, links, j);
    if Verified(w, plan, r, links[j].task) {
      var times := before + LinkTimes(w, plan, r, links[..j]);
      var t := w.tasks[links[j].task].updatedAt;
      TimesStep(times, t, floor);
      assert before + LinkTimes(w, plan, r, links[..j + 1]) == times + [t];
    }
  }

  /** An initiative's status, updated where it stands. */
  class Board {
    var initiative: Id
    var plan: Plan
    var artifacts: seq<Artifact>
    var links: seq<Link>
    var missing: seq<Gap>
    var ready: bool

    function View(): Status
      reads this
    {
      Status(initiative, plan, artifacts, links, missing, ready)
    }

    constructor (id: Id, plan: Plan)
      ensures View() == Fresh(id, plan)
    {
      this.initiative, this.plan, artifacts, links, missing, ready := id, plan, [], [], [], false;
    }

    method ApplyArtifact(kind: Kind, evidence: Id, createdAt: int)
      modifies this`artifacts
      ensures View() == I.ApplyArtifact(old(View()), kind, evidence, createdAt)
    {
      artifacts := Retain(artifacts, (a: Artifact) => Survives(a, kind));
      artifacts := Retain(artifacts, (a: Artifact) => a.kind != kind);
      artifacts := artifacts + [Artifact(kind, evidence, createdAt)];
    }

    method ApplyLink(requirement: string, task: Id) returns (error: Option<Error>)
      modifies this`links, this`artifacts
      ensures var after := I.ApplyLink(old(View()), requirement, task);
        && View() == (if after.Ok? then after.value else old(View()))
        && error == if after.Ok? then None else Some(after.error)
    {
      for i := 0 to |links|
        invariant Link(requirement, task) !in links[..i]
      {
        if links[i] == Link(requirement, task) { return Some(Conflict); }
      }
      assert links[..|links|] == links;
      links := links + [Link(requirement, task)];
      artifacts := Retain(artifacts, BeforeIntegration);
      return None;
    }

    /** The gaps of the links of one requirement, and the extremes of the verified tasks' updates so far. */
    method RefreshLinks(w: World, r: Requirement, ls: seq<Link>, latest: int, earliest: Option<int>, ghost before: seq<int>)
      returns (gaps: Option<seq<Gap>>, latest': int, earliest': Option<int>)
      requires latest == Greatest(before, plan.createdAt) && earliest == Least(before)
      ensures gaps.None? <==> exists j :: 0 <= j < |ls| && ls[j].task !in w.tasks
      ensures gaps.Some? ==> gaps.value == LinkGaps(w, plan, r, ls)
      ensures gaps.Some? ==> latest' == Greatest(before + LinkTimes(w, plan, r, ls), plan.createdAt)
      ensures gaps.Some? ==> earliest' == Least(before + LinkTimes(w, plan, r, ls))
    {
      latest', earliest' := latest, earliest;
      var found: seq<Gap> := [];
      assert before + LinkTimes(w, plan, r, ls[..0]) == before && LinkGaps(w, plan, r, ls[..0]) == [];
      hide LinkTimes, LinkGaps, Greatest, Least;
      for j := 0 to |ls|
        invariant found == LinkGaps(w, plan, r, ls[..j])
        invariant forall k :: 0 <= k < j ==> ls[k].task in w.tasks
        invariant latest' == Greatest(before + LinkTimes(w, plan, r, ls[..j]), plan.createdAt)
        invariant earliest' == Least(before + LinkTimes(w, plan, r, ls[..j]))
      {
        if ls[j].task !in w.tasks { return None, latest', earliest'; }
        var t := w.tasks[ls[j].task];
        LinkGapStep(w, plan, r, ls, j);
        ExtremesStep(w, plan, r, ls, j, before, plan.createdAt);
        if !t.completed || t.updatedAt < plan.createdAt || !t.proofsCurrent || !t.workflowComplete || r.criterion !in t.proofs {
          found := found + [Unverified(r.id, ls[j].task)];
        } else {
          latest' := if t.updatedAt > latest' then t.updatedAt else latest';
          earliest' := if earliest'.None? || t.updatedAt < earliest'.value then Some(t.updatedAt) else earliest';
        }
      }
      assert ls[..|ls|] == ls;
      return Some(found), latest', earliest';
    }

    method RefreshArtifacts(w: World) returns (gaps: seq<Gap>)
      ensures gaps == ArtifactGaps(w, View())
    {
      gaps := [];
      var kinds := [Planning, Design, Integration, Release];
      for i := 0 to 4
        invariant gaps == (if i > 0 then ArtifactGap(w, View(), Planning) else []) + (if i > 1 then ArtifactGap(w, View(), Design) else [])
          + (if i > 2 then ArtifactGap(w, View(), Integration) else []) + (if i > 3 then ArtifactGap(w, View(), Release) else [])
      {
        var a := Find(artifacts, kinds[i]);
        match a {
          case None => gaps := gaps + [ArtifactMissing(kinds[i])];
          case Some(found) => if found.evidence !in w.current { gaps := gaps + [ArtifactStale(kinds[i])]; }
        }
      }
    }

    method Refresh(w: World) returns (error: Option<Error>)
      modifies this`missing, this`ready
      ensures var after := I.Refresh(w, old(View()));
        && View() == (if after.Ok? then after.value else old(View()))
        && error == if after.Ok? then None else Some(after.error)
    {
      hide LinksOf, LinkGaps, LinkTimes, Greatest, Least, ArtifactGaps, OrderGaps;
      ghost var s := View();
      var found: seq<Gap> := [];
      var latest, earliest := plan.createdAt, None;
      assert latest == Greatest([], plan.createdAt) && earliest == Least([]) by { NoTimes(plan.createdAt); }
      for i := 0 to |plan.requirements|
        invariant View() == s
        invariant found == RequirementGaps(w, s, i)
        invariant latest == Greatest(Times(w, s, i), plan.createdAt) && earliest == Least(Times(w, s, i))
        invariant forall k :: 0 <= k < i ==> Anchored(w, s, k)
      {
        var r := plan.requirements[i];
        var ls := LinksOf(links, r.id);
        if ls == [] { found := found + [Unlinked(r.id)]; }
        var gaps, latest', earliest' := RefreshLinks(w, r, ls, latest, earliest, Times(w, s, i));
        if gaps.None? {
          Unanchored(w, s, i);
          return Some(NotFound);
        }
        found := found + gaps.value;
        latest, earliest := latest', earliest';
      }
      AllAnchored(w, s);
      var current := RefreshArtifacts(w);
      found := found + current + OrderGaps(View(), latest, earliest);
      ready := found == [];
      missing := found;
      return None;
    }
  }

  lemma {:induction false} NoTimes(floor: int)
    ensures Greatest([], floor) == floor && Least([]) == None
  {
  }

  /** Every link of requirement `k` names a task there is. */
  ghost predicate Anchored(w: World, s: Status, k: nat)
    requires k < |s.plan.requirements|
  {
    forall j :: 0 <= j < |LinksOf(s.links, s.plan.requirements[k].id)| ==> LinksOf(s.links, s.plan.requirements[k].id)[j].task in w.tasks
  }

  lemma Unanchored(w: World, s: Status, k: nat)
    requires k < |s.plan.requirements| && !Anchored(w, s, k)
    ensures DanglingLink(w, s)
  {
    var ls := LinksOf(s.links, s.plan.requirements[k].id);
    var j :| 0 <= j < |ls| && ls[j].task !in w.tasks;
    assert ls[j] in ls;
    var i :| 0 <= i < |s.links| && s.links[i] == ls[j];
  }

  lemma AllAnchored(w: World, s: Status)
    requires forall k :: 0 <= k < |s.plan.requirements| ==> Anchored(w, s, k)
    ensures !DanglingLink(w, s)
  {
    forall i, k | 0 <= i < |s.links| && 0 <= k < |s.plan.requirements| && s.plan.requirements[k].id == s.links[i].requirement
      ensures s.links[i].task in w.tasks
    {
      assert Anchored(w, s, k);
      assert s.links[i] in LinksOf(s.links, s.plan.requirements[k].id);
    }
  }

  /** The writers over one shared log. */
  class Initiatives {
    var owners: map<Id, Id>
    var events: seq<Event>
    var nextId: Id

    function View(): Db
      reads this
    {
      Db(owners, events, nextId)
    }

    constructor ()
      ensures View() == After([])
    {
      owners, events, nextId := map[], [], 0;
    }

    /** Replays one stream into a fresh board, checking every snapshot on the way. */
    method ReadBoard(w: World, project: Id, id: Id) returns (r: Result<Board>)
      ensures r.Err? <==> ReadStatus(w, project, id, StreamOf(events, id)).Err?
      ensures r.Err? ==> r.error == ReadStatus(w, project, id, StreamOf(events, id)).error
      ensures r.Ok? ==> fresh(r.value) && r.value.View() == ReadStatus(w, project, id, StreamOf(events, id)).value
    {
      hide StreamOf, Effect, Replay;
      var log := StreamOf(events, id);
      var current: Board? := null;
      assert Replay(w, project, id, log[..0]) == Ok(None) by { NoReplay(w, project, id); }
      for i := 0 to |log|
        invariant current == null ==> Replay(w, project, id, log[..i]) == Ok(None)
        invariant current != null ==> fresh(current) && Replay(w, project, id, log[..i]) == Ok(Some(current.View()))
      {
        ReplayAt(w, project, id, log, i);
        var e := log[i];
        if e.status.initiative != id {
          ReplayFails(w, project, id, log, i + 1);
          return Err(Conflict);
        }
        var error;
        current, error := ApplyEvent(w, project, id, current, e);
        if error.Some? {
          ReplayFails(w, project, id, log, i + 1);
          return Err(error.value);
        }
        if e.status.plan != current.plan || e.status.artifacts != current.artifacts || e.status.links != current.links {
          ReplayFails(w, project, id, log, i + 1);
          return Err(Conflict);
        }
      }
      assert log[..|log|] == log;
      if current == null { return Err(NotFound); }
      return Ok(current);
    }

    /** Applies one event to the board, or starts a new board. */
    method ApplyEvent(w: World, project: Id, id: Id, current: Board?, e: Event) returns (next: Board?, error: Option<Error>)
      modifies current
      ensures var before := if current == null then None else Some(old(current.View()));
        var after := Effect(w, project, id, before, e);
        && error == (if after.Err? then Some(after.error) else None)
        && (after.Ok? ==> next != null && (next == current || fresh(next)) && next.View() == after.value)
    {
      hide FindRequirement;
      next, error := current, None;
      match e.request
      case MakePlan(_, _, _, _, _, _, _) =>
        if !PlanMatches(id, e.request, e.status.plan, e.occurredAt) { return current, Some(Conflict); }
        next := new Board(id, e.status.plan);
      case RecordArtifact(_, target, kind, evidence) =>
        if target != id || current == null { return current, Some(Conflict); }
        var time := CheckEvidence(w, project, evidence, WorkspaceFile, Direct, current.plan.createdAt);
        if time.Err? { return current, Some(time.error); }
        current.ApplyArtifact(kind, evidence, time.value);
      case LinkTask(_, target, requirement, task) =>
        if target != id || current == null { return current, Some(Conflict); }
        var r := FindRequirement(current.plan.requirements, requirement);
        if r.None? { return current, Some(Conflict); }
        if task !in w.tasks { return current, Some(NotFound); }
        if w.tasks[task].project != project || r.value.criterion !in w.tasks[task].criteria { return current, Some(Conflict); }
        error := current.ApplyLink(requirement, task);
    }

    /** Refreshes a board and, if that succeeds, commits it as the event's snapshot. */
    method CommitBoard(w: World, key: string, r: Request, id: Id, owner: Id, minted: nat, board: Board, now: int) returns (response: Response)
      modifies this, board
      ensures var v := Refreshed(w, id, owner, old(board.View()), minted); var db := old(View());
        && response == (if v.Reject? then Refused(v.error) else Done(v.status, false))
        && View() == if v.Reject? then db
            else Db(db.owners[id := owner], db.events + [Event(key, id, r, v.status, now)], db.nextId + minted)
    {
      var error := board.Refresh(w);
      if error.Some? { return Refused(error.value); }
      owners := owners[id := owner];
      events := events + [Event(key, id, r, board.View(), now)];
      nextId := nextId + minted;
      return Done(board.View(), false);
    }

    method PlanInitiative(w: World, key: string, r: Request, now: int) returns (response: Response)
      requires r.MakePlan?
      modifies this
      ensures (View(), response) == Write(old(View()), w, key, r, now)
    {
      hide PlanShape, Lookup, ReadStatus, I.Refresh, StreamOf, CheckEvidence;
      if Blank(key) || !PlanShape(r) { return Refused(Invalid); }
      var prior := Lookup(events, key);
      if prior.Some? {
        return if prior.value.request == r then Done(prior.value.status, true) else Refused(Conflict);
      }
      if SessionError(w, r.session).Some? { return Refused(SessionError(w, r.session).value); }
      var project := w.sessions[r.session].project;
      var id, minted := nextId, 2;
      if r.initiative.Some? {
        id, minted := r.initiative.value, 1;
        if OwnerError(View(), id, project).Some? { return Refused(OwnerError(View(), id, project).value); }
        var previous := ReadBoard(w, project, id);
        if previous.Err? { return Refused(previous.error); }
        if r.revisionEvidence.None? { return Refused(Conflict); }
        var time := CheckEvidence(w, project, r.revisionEvidence.value, UserStatement, Reported, previous.value.plan.createdAt);
        if time.Err? { return Refused(Conflict); }
      } else if r.revisionEvidence.Some? {
        return Refused(Invalid);
      }
      if |StreamOf(events, id)| >= MAX_EVENTS { return Refused(Invalid); }
      var board := new Board(id, NewPlan(r, nextId + minted - 1, now));
      response := CommitBoard(w, key, r, id, project, minted, board, now);
    }

    method RecordInitiativeArtifact(w: World, key: string, r: Request, now: int) returns (response: Response)
      requires r.RecordArtifact?
      modifies this
      ensures (View(), response) == Write(old(View()), w, key, r, now)
    {
      hide Lookup, ReadStatus, I.Refresh, StreamOf, CheckEvidence, I.ApplyArtifact;
      if Blank(key) { return Refused(Invalid); }
      var prior := Lookup(events, key);
      if prior.Some? {
        return if prior.value.request == r then Done(prior.value.status, true) else Refused(Conflict);
      }
      if SessionError(w, r.session).Some? { return Refused(SessionError(w, r.session).value); }
      var project := w.sessions[r.session].project;
      if OwnerError(View(), r.target, project).Some? { return Refused(OwnerError(View(), r.target, project).value); }
      if |StreamOf(events, r.target)| >= MAX_EVENTS { return Refused(Invalid); }
      var board := ReadBoard(w, project, r.target);
      if board.Err? { return Refused(board.error); }
      var time := CheckEvidence(w, project, r.evidence, WorkspaceFile, Direct, board.value.plan.createdAt);
      if time.Err? { return Refused(time.error); }
      board.value.ApplyArtifact(r.kind, r.evidence, time.value);
      response := CommitBoard(w, key, r, r.target, project, 0, board.value, now);
    }

    method LinkInitiativeTask(w: World, key: string, r: Request, now: int) returns (response: Response)
      requires r.LinkTask?
      modifies this
      ensures (View(), response) == Write(old(View()), w, key, r, now)
    {
      hide Lookup, ReadStatus, I.Refresh, StreamOf, FindRequirement, I.ApplyLink;
      if Blank(key) { return Refused(Invalid); }
      var prior := Lookup(events, key);
      if prior.Some? {
        return if prior.value.request == r then Done(prior.value.status, true) else Refused(Conflict);
      }
      if SessionError(w, r.session).Some? { return Refused(SessionError(w, r.session).value); }
      var project := w.sessions[r.session].project;
      if OwnerError(View(), r.target, project).Some? { return Refused(OwnerError(View(), r.target, project).value); }
      if |StreamOf(events, r.target)| >= MAX_EVENTS { return Refused(Invalid); }
      var board := ReadBoard(w, project, r.target);
      if board.Err? { return Refused(board.error); }
      var requirement := FindRequirement(board.value.plan.requirements, r.requirement);
      if requirement.None? || r.task !in w.tasks { return Refused(NotFound); }
      if w.tasks[r.task].project != project || requirement.value.criterion !in w.tasks[r.task].criteria { return Refused(Conflict); }
      var error := board.value.ApplyLink(r.requirement, r.task);
      if error.Some? { return Refused(error.value); }
      response := CommitBoard(w, key, r, r.target, project, 0, board.value, now);
    }
  }

  lemma {:induction false} NoReplay(w: World, project: Id, id: Id)
    ensures Replay(w, project, id, []) == Ok(None)
  {
  }

  lemma {:induction false} ReplayAt(w: World, project: Id, id: Id, log: seq<Event>, i: nat)
    requires i < |log| && Replay(w, project, id, log[..i]).Ok?
    ensures var next := ReplayStep(w, project, id, Replay(w, project, id, log[..i]).value, log[i]);
      Replay(w, project, id, log[..i + 1]) == if next.Err? then Err(next.error) else Ok(Some(next.value))
  {
    assert log[..i + 1][..i] == log[..i];
  }

  /** A replay that fails early fails for good, with the same error. */
  lemma {:induction false} ReplayFails(w: World, project: Id, id: Id, log: seq<Event>, n: nat)
    requires n <= |log| && Replay(w, project, id, log[..n]).Err?
    ensures Replay(w, project, id, log) == Replay(w, project, id, log[..n])
    decreases |log|
  {
    hide Effect;
    if n < |log| {
      assert log[..|log| - 1][..n] == log[..n];
      ReplayFails(w, project, id, log[..|log| - 1], n);
    } else {
      assert log[..n] == log;
    }
  }
}
