/** What each writer of an initiative needs and what it then records, field by field, and what each gap means. */
module InitiativeOperations {
  import opened Ordering
  import opened WriteScope
  import opened Initiative
  import opened InitiativeReplay
  import opened InitiativeReadiness

  // ---------------------------------------------------------------- gaps

  /** The task is completed since the plan, its proofs and workflow stand, and one of its proofs is of the criterion. */
  ghost predicate Proves(w: World, plan: Plan, r: Requirement, task: Id) {
    && task in w.tasks && w.tasks[task].completed && plan.createdAt <= w.tasks[task].updatedAt
    && w.tasks[task].proofsCurrent && w.tasks[task].workflowComplete
    && exists i :: 0 <= i < |w.tasks[task].proofs| && w.tasks[task].proofs[i] == r.criterion
  }

  lemma ProvesExactly(w: World, plan: Plan, r: Requirement, task: Id)
    ensures Verified(w, plan, r, task) <==> Proves(w, plan, r, task)
  {
  }

  /** The link is one of a planned requirement, which its task proves. */
  ghost predicate ProvenLink(w: World, s: Status, l: Link) {
    l in s.links && exists r :: r in s.plan.requirements && r.id == l.requirement && Proves(w, s.plan, r, l.task)
  }

  /** The proving task was last updated at `t`. */
  ghost predicate ProvenAt(w: World, s: Status, l: Link, t: int) {
    ProvenLink(w, s, l) && l.task in w.tasks && w.tasks[l.task].updatedAt == t
  }

  ghost predicate UnprovenLink(w: World, s: Status, l: Link) {
    l in s.links && exists r :: r in s.plan.requirements && r.id == l.requirement && !Proves(w, s.plan, r, l.task)
  }

  ghost predicate Holds(s: Status, a: Artifact, k: Kind) {
    a in s.artifacts && a.kind == k
  }

  /** What each gap of an initiative says. */
  ghost predicate Lacks(w: World, s: Status, g: Gap) {
    match g
    case Unlinked(id) => (exists r :: r in s.plan.requirements && r.id == id) && forall l :: l in s.links ==> l.requirement != id
    case Unverified(id, task) => UnprovenLink(w, s, Link(id, task))
    case ArtifactMissing(k) => !exists a :: Holds(s, a, k)
    case ArtifactStale(k) => exists a :: Holds(s, a, k) && a.evidence !in w.current
    case DesignBeforePlanning => exists a, b :: Holds(s, a, Design) && Holds(s, b, Planning) && a.createdAt < b.createdAt
    case DesignAfterImplementation =>
      exists a, l, t :: Holds(s, a, Design) && ProvenAt(w, s, l, t) && t < a.createdAt
    case IntegrationBeforeImplementation =>
      exists a :: Holds(s, a, Integration)
        && (a.createdAt < s.plan.createdAt || exists l, t :: ProvenAt(w, s, l, t) && a.createdAt < t)
    case ReleaseBeforeIntegration => exists a, b :: Holds(s, a, Release) && Holds(s, b, Integration) && a.createdAt < b.createdAt
  }

  lemma {:induction false} FindAt(s: Status, a: Artifact, k: Kind)
    requires InPhaseOrder(s.artifacts)
    ensures Find(s.artifacts, k) == Some(a) <==> Holds(s, a, k)
    ensures Find(s.artifacts, k).None? <==> forall b :: !Holds(s, b, k)
  {
    FindKind(s.artifacts, k);
    forall b | Holds(s, b, k) ensures Find(s.artifacts, k) == Some(b) {
      FindSome(s.artifacts, b);
      var i :| 0 <= i < |s.artifacts| && s.artifacts[i] == b;
      var j :| 0 <= j < |s.artifacts| && s.artifacts[j] == Find(s.artifacts, k).value;
      assert i == j;
    }
  }

  lemma {:induction false} FindHolds(s: Status, k: Kind)
    requires InPhaseOrder(s.artifacts)
    ensures Find(s.artifacts, k).Some? ==> Holds(s, Find(s.artifacts, k).value, k)
    ensures forall a :: Holds(s, a, k) ==> Find(s.artifacts, k) == Some(a)
  {
    hide Find, Holds, InPhaseOrder;
    forall a ensures Find(s.artifacts, k) == Some(a) <==> Holds(s, a, k) { FindAt(s, a, k); }
    if Find(s.artifacts, k).Some? { assert Find(s.artifacts, k) == Some(Find(s.artifacts, k).value); }
  }

  lemma {:induction false} FindSome(artifacts: seq<Artifact>, a: Artifact)
    requires a in artifacts
    ensures Find(artifacts, a.kind).Some?
  {
    if artifacts[|artifacts| - 1] != a { FindSome(artifacts[..|artifacts| - 1], a); }
  }

  lemma {:induction false} LinkGapsExactly(w: World, plan: Plan, r: Requirement, links: seq<Link>, g: Gap)
    ensures g in LinkGaps(w, plan, r, links)
      <==> g.Unverified? && g.requirement == r.id && exists l :: l in links && l.task == g.task && !Verified(w, plan, r, l.task)
  {
    hide Verified;
    if links != [] {
      var front, last := links[..|links| - 1], links[|links| - 1];
      LinkGapsExactly(w, plan, r, front, g);
      assert links == front + [last];
    }
  }

  /** One requirement's own gaps. */
  ghost predicate RequirementLacks(w: World, s: Status, r: Requirement, g: Gap) {
    match g
    case Unlinked(id) => r.id == id && forall l :: l in s.links ==> l.requirement != id
    case Unverified(id, task) => r.id == id && Link(id, task) in s.links && !Proves(w, s.plan, r, task)
    case _ => false
  }

  lemma {:induction false} OneRequirement(w: World, s: Status, r: Requirement, g: Gap)
    ensures (g in (if LinksOf(s.links, r.id) == [] then [Unlinked(r.id)] else []) || g in LinkGaps(w, s.plan, r, LinksOf(s.links, r.id)))
      <==> RequirementLacks(w, s, r, g)
  {
    hide Proves, Verified;
    var links := LinksOf(s.links, r.id);
    assert forall l :: l in links <==> l in s.links && l.requirement == r.id;
    hide LinksOf;
    if links != [] { assert links[0] in links; }
    LinkGapsExactly(w, s.plan, r, links, g);
    if g.Unverified? {
      ProvesExactly(w, s.plan, r, g.task);
      if l :| l in links && l.task == g.task { assert l == Link(r.id, g.task); }
    }
  }

  lemma {:induction false} RequirementGapsExactly(w: World, s: Status, n: nat, g: Gap)
    requires n <= |s.plan.requirements|
    ensures g in RequirementGaps(w, s, n) <==> exists i :: 0 <= i < n && RequirementLacks(w, s, s.plan.requirements[i], g)
    decreases n
  {
    hide RequirementLacks, LinksOf, LinkGaps;
    if n > 0 {
      var r := s.plan.requirements[n - 1];
      RequirementGapsExactly(w, s, n - 1, g);
      OneRequirement(w, s, r, g);
    }
  }

  lemma ArtifactGapExactly(w: World, s: Status, k: Kind, g: Gap)
    requires InPhaseOrder(s.artifacts)
    ensures g in ArtifactGap(w, s, k) <==> (g == ArtifactMissing(k) || g == ArtifactStale(k)) && Lacks(w, s, g)
  {
    hide Find, Holds;
    FindHolds(s, k);
    FindAt(s, Artifact(k, 0, 0), k);
  }

  lemma ArtifactGapsExactly(w: World, s: Status, g: Gap)
    requires InPhaseOrder(s.artifacts)
    ensures g in ArtifactGaps(w, s) <==> (g.ArtifactMissing? || g.ArtifactStale?) && Lacks(w, s, g)
  {
    hide ArtifactGap, Lacks;
    ArtifactGapExactly(w, s, Planning, g);
    ArtifactGapExactly(w, s, Design, g);
    ArtifactGapExactly(w, s, Integration, g);
    ArtifactGapExactly(w, s, Release, g);
    var a, b, c, d := ArtifactGap(w, s, Planning), ArtifactGap(w, s, Design), ArtifactGap(w, s, Integration), ArtifactGap(w, s, Release);
    assert g in ArtifactGaps(w, s) <==> g in a || g in b || g in c || g in d;
    if g.ArtifactMissing? || g.ArtifactStale? {
      match g.kind case Planning => case Design => case Integration => case Release =>
    }
  }

  /** When the tasks that prove something were last updated. */
  lemma {:induction false} TimesExactly(w: World, s: Status, t: int)
    ensures t in Times(w, s, |s.plan.requirements|) <==> exists l :: ProvenAt(w, s, l, t)
  {
    hide LinkTimes, LinksOf, Proves;
    TimesAre(w, s, |s.plan.requirements|, t);
    if Timed(w, s, |s.plan.requirements|, t) {
      var i :| 0 <= i < |s.plan.requirements| && t in LinkTimes(w, s.plan, s.plan.requirements[i], LinksOf(s.links, s.plan.requirements[i].id));
      var r := s.plan.requirements[i];
      LinkTimesAre(w, s.plan, r, LinksOf(s.links, r.id), t);
      var l :| l in LinksOf(s.links, r.id) && Verified(w, s.plan, r, l.task) && w.tasks[l.task].updatedAt == t;
      LinkIsListed(s, l, i);
      ProvesExactly(w, s.plan, r, l.task);
      assert ProvenAt(w, s, l, t);
    }
    if l :| ProvenAt(w, s, l, t) {
      var r :| r in s.plan.requirements && r.id == l.requirement && Proves(w, s.plan, r, l.task);
      var i :| 0 <= i < |s.plan.requirements| && s.plan.requirements[i] == r;
      LinkIsListed(s, l, i);
      ProvesExactly(w, s.plan, r, l.task);
      LinkTimesAre(w, s.plan, r, LinksOf(s.links, r.id), t);
    }
  }

  predicate OfOrder(g: Gap) {
    g.DesignBeforePlanning? || g.DesignAfterImplementation? || g.IntegrationBeforeImplementation? || g.ReleaseBeforeIntegration?
  }

  /** The gaps of order, by what was found. */
  lemma OrderGapsListed(s: Status, latest: int, earliest: Option<int>, g: Gap)
    ensures g in OrderGaps(s, latest, earliest) <==>
      var planning, design := Find(s.artifacts, Planning), Find(s.artifacts, Design);
      var integration, release := Find(s.artifacts, Integration), Find(s.artifacts, Release);
      match g
      case DesignBeforePlanning => planning.Some? && design.Some? && design.value.createdAt < planning.value.createdAt
      case DesignAfterImplementation => design.Some? && earliest.Some? && earliest.value < design.value.createdAt
      case IntegrationBeforeImplementation => integration.Some? && integration.value.createdAt < latest
      case ReleaseBeforeIntegration => integration.Some? && release.Some? && release.value.createdAt < integration.value.createdAt
      case _ => false
  {
    hide Find;
  }

  lemma {:induction false} OrderGapsExactly(w: World, s: Status, g: Gap)
    requires InPhaseOrder(s.artifacts)
    ensures var times := Times(w, s, |s.plan.requirements|);
      g in OrderGaps(s, Greatest(times, s.plan.createdAt), Least(times)) <==> OfOrder(g) && Lacks(w, s, g)
  {
    hide Find, Holds, Times, ProvenAt, UnprovenLink, InPhaseOrder;
    var times := Times(w, s, |s.plan.requirements|);
    GreatestBounds(times, s.plan.createdAt);
    LeastBounds(times);
    OrderGapsListed(s, Greatest(times, s.plan.createdAt), Least(times), g);
    hide Greatest, Least, OrderGaps;
    forall t ensures t in times <==> exists l :: ProvenAt(w, s, l, t) { TimesExactly(w, s, t); }
    FindHolds(s, Planning);
    FindHolds(s, Design);
    FindHolds(s, Integration);
    FindHolds(s, Release);
    if g.DesignAfterImplementation? {
      if a, l, t :| Holds(s, a, Design) && ProvenAt(w, s, l, t) && t < a.createdAt { assert t in times; }
      if Least(times).Some? { var l :| ProvenAt(w, s, l, Least(times).value); }
    }
    if g.IntegrationBeforeImplementation? {
      if a, l, t :| Holds(s, a, Integration) && ProvenAt(w, s, l, t) && a.createdAt < t { assert t in times; }
      var latest := Greatest(times, s.plan.createdAt);
      if latest in times { var l :| ProvenAt(w, s, l, latest); }
    }
  }

  /** The gap list of a well-formed status: which gaps it names, and why. */
  lemma MissingExactly(w: World, s: Status, g: Gap)
    requires InPhaseOrder(s.artifacts)
    ensures g in Missing(w, s) <==> Lacks(w, s, g)
  {
    hide RequirementGaps, ArtifactGaps, OrderGaps, Times, InPhaseOrder, Greatest, Least;
    var n := |s.plan.requirements|;
    var times := Times(w, s, n);
    RequirementGapsExactly(w, s, n, g);
    ArtifactGapsExactly(w, s, g);
    OrderGapsExactly(w, s, g);
    RequirementLacksExactly(w, s, g);
    hide Lacks, RequirementLacks;
    var a, b, c := RequirementGaps(w, s, n), ArtifactGaps(w, s), OrderGaps(s, Greatest(times, s.plan.createdAt), Least(times));
    assert Missing(w, s) == a + b + c;
    assert g in Missing(w, s) <==> g in a || g in b || g in c;
  }

  lemma RequirementLacksExactly(w: World, s: Status, g: Gap)
    ensures (exists i :: 0 <= i < |s.plan.requirements| && RequirementLacks(w, s, s.plan.requirements[i], g))
      <==> (g.Unlinked? || g.Unverified?) && Lacks(w, s, g)
  {
    hide Proves;
    if (g.Unlinked? || g.Unverified?) && Lacks(w, s, g) {
      var r :| r in s.plan.requirements && RequirementLacks(w, s, r, g);
      var i :| 0 <= i < |s.plan.requirements| && s.plan.requirements[i] == r;
    }
  }

  // ---------------------------------------------------------------- shape and keys

  ghost predicate Text(s: string) {
    HasInk(s) && Bytes(s) <= 2000
  }

  /** Nonblank texts within their size, and one to sixty-four requirements, each under its own name. */
  ghost predicate Shaped(key: string, r: Request) {
    && HasInk(key)
    && (r.MakePlan? ==>
        && Text(r.objective) && Text(r.targetUser) && Text(r.successMeasure) && 0 < |r.requirements| < 65
        && (forall q :: q in r.requirements ==> Text(q.id) && Text(q.statement) && Text(q.criterion))
        && forall i, j :: 0 <= i < |r.requirements| && 0 <= j < |r.requirements| && i != j ==> r.requirements[i].id != r.requirements[j].id)
  }

  lemma TextExactly(s: string)
    ensures BoundedText(s) <==> Text(s)
  {
    InkExactly(s);
    hide Blank, HasInk;
  }

  lemma ShapeExactly(key: string, r: Request)
    ensures Blank(key) || (r.MakePlan? && !PlanShape(r)) <==> !Shaped(key, r)
  {
    InkExactly(key);
    hide Blank, HasInk, BoundedText, Text;
    forall s ensures BoundedText(s) <==> Text(s) { TextExactly(s); }
    if r.MakePlan? {
      forall i | 0 <= i < |r.requirements| ensures r.requirements[i] in r.requirements { }
      assert (forall i :: 0 <= i < |r.requirements| ==> RequirementShape(r.requirements[i])) <==> forall q :: q in r.requirements ==> RequirementShape(q);
    }
  }

  ghost predicate KeyFree(db: Db, key: string) {
    forall i :: 0 <= i < |db.events| ==> db.events[i].key != key
  }

  ghost predicate KeysDistinct(db: Db) {
    forall i, j :: 0 <= i < j < |db.events| ==> db.events[i].key != db.events[j].key
  }

  lemma {:induction false} LookupExactly(events: seq<Event>, key: string)
    ensures Lookup(events, key).None? <==> forall i :: 0 <= i < |events| ==> events[i].key != key
    ensures Lookup(events, key).Some? ==> Lookup(events, key).value in events && Lookup(events, key).value.key == key
  {
    if events != [] {
      var front := events[..|events| - 1];
      LookupExactly(front, key);
      assert forall i :: 0 <= i < |front| ==> front[i] == events[i];
    }
  }

  lemma {:induction false} HistoryKeepsKeys(history: seq<Step>)
    ensures KeysDistinct(After(history))
  {
    hide PlanShape, Execute;
    if history != [] {
      HistoryKeepsKeys(history[..|history| - 1]);
      LookupExactly(After(history[..|history| - 1]).events, history[|history| - 1].key);
    }
  }

  /** One event more on the stream, its owner known, and its status returned. */
  ghost predicate Records(db: Db, next: Db, a: Response, key: string, r: Request, id: Id, project: Id, s: Status, now: int) {
    && next.owners == db.owners[id := project] && next.events == db.events + [Event(key, id, r, s, now)]
    && next.nextId >= db.nextId && a == Done(s, false)
  }

  ghost predicate AskedBefore(db: Db, key: string, r: Request) {
    exists i :: 0 <= i < |db.events| && db.events[i].key == key && db.events[i].request == r
  }

  /** A repeated request gets its recorded answer, anything else is refused, and nothing changes. */
  ghost predicate RepeatsOrRefuses(db: Db, next: Db, a: Response, key: string, r: Request, known: bool) {
    && next == db
    && if known && AskedBefore(db, key, r)
       then exists i :: 0 <= i < |db.events| && db.events[i].key == key && a == Done(db.events[i].status, true)
       else a.Refused?
  }

  lemma WriteExactly(db: Db, w: World, key: string, r: Request, now: int)
    requires KeysDistinct(db)
    ensures var v := Execute(db, w, r, now); var (next, a) := Write(db, w, key, r, now);
      if Shaped(key, r) && KeyFree(db, key) && v.Commit?
      then Records(db, next, a, key, r, v.stream, v.owner, v.status, now) && next.nextId == db.nextId + v.minted
      else RepeatsOrRefuses(db, next, a, key, r, Shaped(key, r))
  {
    hide Shaped, PlanShape, Blank, Lookup, Execute;
    ShapeExactly(key, r);
    LookupExactly(db.events, key);
    if Lookup(db.events, key).Some? {
      var i :| 0 <= i < |db.events| && db.events[i] == Lookup(db.events, key).value;
      assert forall j :: 0 <= j < |db.events| && db.events[j].key == key ==> j == i;
    }
  }

  // ---------------------------------------------------------------- where an initiative stands

  ghost predicate LastOfStream(db: Db, id: Id, k: nat) {
    && k < |db.events| && db.events[k].stream == id
    && forall j :: k < j < |db.events| ==> db.events[j].stream != id
  }

  /** The snapshot of the initiative's last event. */
  ghost predicate StandsAt(db: Db, id: Id, s: Status) {
    exists k: nat :: LastOfStream(db, id, k) && db.events[k].status == s
  }

  lemma {:induction false} StreamLast(events: seq<Event>, id: Id) returns (k: nat)
    requires StreamOf(events, id) != []
    ensures k < |events| && events[k].stream == id && (forall j :: k < j < |events| ==> events[j].stream != id)
    ensures events[k] == StreamOf(events, id)[|StreamOf(events, id)| - 1]
  {
    if events[|events| - 1].stream == id {
      k := |events| - 1;
    } else {
      k := StreamLast(events[..|events| - 1], id);
    }
  }

  /** Reading an initiative back gives the plan, artifacts and links of its last snapshot. */
  lemma {:induction false} ReadsLast(history: seq<Step>, w: World, id: Id, s: Status)
    requires Flows(history, w)
    ensures var db := After(history); id in db.owners <==> exists t :: StandsAt(db, id, t)
    ensures var db := After(history);
      StandsAt(db, id, s) ==>
        id in db.owners && var read := ReadStatus(w, db.owners[id], id, StreamOf(db.events, id));
        read.Ok? && Agrees(s, read.value) && read.value.initiative == id && StatusOk(w, db.owners[id], read.value)
  {
    hide After, StatusOk, Replay, StreamOf, Flows;
    var db := After(history);
    HistoryKeepsStreams(history, w);
    if id in db.owners {
      ReplayIsTotal(history, w, id);
      var k := StreamLast(db.events, id);
      assert LastOfStream(db, id, k) && StandsAt(db, id, db.events[k].status);
      if StandsAt(db, id, s) {
        var m: nat :| LastOfStream(db, id, m) && db.events[m].status == s;
        assert m == k;
      }
    }
  }

  // ---------------------------------------------------------------- what a status shows

  lemma {:induction false} RequirementGapsSame(w: World, s: Status, t: Status, n: nat)
    requires n <= |s.plan.requirements| && s.plan == t.plan && s.links == t.links
    ensures RequirementGaps(w, s, n) == RequirementGaps(w, t, n) && Times(w, s, n) == Times(w, t, n)
    decreases n
  {
    hide LinkGaps, LinkTimes, LinksOf;
    if n > 0 { RequirementGapsSame(w, s, t, n - 1); }
  }

  /** Shows what is missing now, and is ready exactly when that is nothing. */
  ghost predicate Shows(w: World, t: Status) {
    t.missing == Missing(w, t) && (t.ready <==> t.missing == [])
  }

  /** A status none of whose links dangles can be refreshed, and then shows what is missing. */
  lemma RefreshExactly(w: World, s: Status)
    requires !DanglingLink(w, s)
    ensures Refresh(w, s).Ok?
    ensures var t := Refresh(w, s).value;
      t.initiative == s.initiative && t.plan == s.plan && t.artifacts == s.artifacts && t.links == s.links && Shows(w, t)
  {
    hide RequirementGaps, Times, OrderGaps, ArtifactGap, Greatest, Least, DanglingLink;
    RequirementGapsSame(w, s, Refresh(w, s).value, |s.plan.requirements|);
    SameArtifacts(w, s, Refresh(w, s).value);
  }

  lemma SameArtifacts(w: World, s: Status, t: Status)
    requires s.artifacts == t.artifacts
    ensures ArtifactGaps(w, s) == ArtifactGaps(w, t)
    ensures forall latest, earliest :: OrderGaps(s, latest, earliest) == OrderGaps(t, latest, earliest)
  {
    hide Find;
  }

  // ---------------------------------------------------------------- planning

  /** The session is open, and of this project. */
  ghost predicate Speaks(w: World, session: Id, project: Id) {
    session in w.sessions && w.sessions[session].open && w.sessions[session].project == project
  }

  ghost predicate Owns(db: Db, id: Id, project: Id) {
    id in db.owners && db.owners[id] == project
  }

  /** The initiative's stream has room for one more event. */
  ghost predicate Room(db: Db, id: Id) {
    |StreamOf(db.events, id)| < 512
  }

  /** A row of the project, of this kind and grade, no older than `since`. */
  ghost predicate Cites(w: World, project: Id, id: Id, kind: EvidenceKind, grade: Grade, since: int) {
    && id in w.evidence && w.evidence[id].project == project && w.evidence[id].kind == kind && w.evidence[id].grade == grade
    && since <= w.evidence[id].createdAt
  }

  /** A new initiative cites nothing; a revision cites what the user said since the plan it replaces. */
  ghost predicate PlanFits(db: Db, w: World, r: Request, id: Id, project: Id) {
    && r.MakePlan? && Speaks(w, r.session, project)
    && match r.initiative
       case None => id == db.nextId && r.revisionEvidence.None?
       case Some(i) =>
         && id == i && Owns(db, id, project) && Room(db, id) && r.revisionEvidence.Some?
         && exists s :: StandsAt(db, id, s) && Cites(w, project, r.revisionEvidence.value, UserStatement, Reported, s.plan.createdAt)
  }

  /** The plan keeps the request, field by field, under a revision no event has had. */
  ghost predicate PlanOf(db: Db, p: Plan, r: Request, now: int) {
    && r.MakePlan? && p.createdAt == now
    && p.objective == r.objective && p.targetUser == r.targetUser && p.successMeasure == r.successMeasure
    && p.requirements == r.requirements
    && forall e :: e in db.events ==> e.status.plan.revision != p.revision
  }

  /** The initiative, new or not, starts over with the plan alone. */
  ghost predicate StartsOver(db: Db, next: Db, a: Response, w: World, key: string, r: Request, id: Id, project: Id, now: int) {
    exists t: Status ::
      Records(db, next, a, key, r, id, project, t, now) && t.initiative == id && PlanOf(db, t.plan, r, now)
      && t.artifacts == [] && t.links == [] && Shows(w, t)
  }

  /** Identifiers the streams have used come from the counter. */
  ghost predicate IdsBelow(db: Db) {
    forall e :: e in db.events ==> e.status.plan.revision < db.nextId
  }

  lemma {:induction false} ReadPlan(w: World, project: Id, id: Id, events: seq<Event>)
    requires ReadStatus(w, project, id, StreamOf(events, id)).Ok?
    ensures exists e :: e in events && e.status.plan == ReadStatus(w, project, id, StreamOf(events, id)).value.plan
  {
    hide Effect;
    var log := StreamOf(events, id);
    assert log[|log| - 1] in log;
    assert log[|log| - 1] in events;
  }

  lemma ExecuteKeepsIds(db: Db, w: World, r: Request, now: int)
    requires IdsBelow(db) && Execute(db, w, r, now).Commit?
    ensures var v := Execute(db, w, r, now); v.status.plan.revision < db.nextId + v.minted
    ensures r.MakePlan? ==> Execute(db, w, r, now).status.plan.revision >= db.nextId
  {
    hide Replay, Missing, DanglingLink, StreamOf, FindRequirement, IdsBelow, CheckEvidence;
    match r
    case MakePlan(_, _, _, _, _, _, _) =>
    case RecordArtifact(session, target, _, _) =>
      ReadPlan(w, w.sessions[session].project, target, db.events);
      KnownPlan(db, ReadStatus(w, w.sessions[session].project, target, StreamOf(db.events, target)).value.plan);
    case LinkTask(session, target, _, _) =>
      ReadPlan(w, w.sessions[session].project, target, db.events);
      KnownPlan(db, ReadStatus(w, w.sessions[session].project, target, StreamOf(db.events, target)).value.plan);
  }

  lemma KnownPlan(db: Db, p: Plan)
    requires IdsBelow(db) && exists e :: e in db.events && e.status.plan == p
    ensures p.revision < db.nextId
  {
  }

  lemma {:induction false} HistoryKeepsIds(history: seq<Step>)
    ensures IdsBelow(After(history))
  {
    hide PlanShape, Execute, Lookup;
    if history != [] {
      var db, last := After(history[..|history| - 1]), history[|history| - 1];
      HistoryKeepsIds(history[..|history| - 1]);
      if Execute(db, last.world, last.request, last.now).Commit? { ExecuteKeepsIds(db, last.world, last.request, last.now); }
    }
  }

  /** The project a session speaks for, where it can. */
  ghost function ProjectOf(w: World, session: Id): Id {
    if session in w.sessions then w.sessions[session].project else 0
  }

  ghost function PlanTarget(db: Db, r: Request): Id
    requires r.MakePlan?
  {
    if r.initiative.Some? then r.initiative.value else db.nextId
  }

  lemma NoStreamYet(w: World, db: Db)
    requires DbOk(w, db)
    ensures StreamOf(db.events, db.nextId) == [] && db.nextId !in db.owners
  {
    hide StreamOk, StreamOf;
    StrangersHaveNoStream(db.events, db.nextId);
  }

  lemma FreshRefreshes(w: World, id: Id, plan: Plan)
    ensures !DanglingLink(w, Fresh(id, plan))
  {
  }

  /** Whether a plan commits, and what it leaves. */
  lemma {:induction false} PlanVerdict(history: seq<Step>, w: World, r: Request, now: int)
    requires r.MakePlan? && Flows(history, w)
    ensures var db := After(history); var v := PlanTx(db, w, r, now); var (id, project) := (PlanTarget(db, r), ProjectOf(w, r.session));
      && (v.Commit? <==> PlanFits(db, w, r, id, project))
      && (v.Commit? ==> v.stream == id && v.owner == project && v.status.initiative == id && Shows(w, v.status))
      && (v.Commit? ==> v.status.artifacts == [] && v.status.links == [] && v.status.plan == NewPlan(r, v.status.plan.revision, now))
  {
    hide After, Missing, StreamOf, DanglingLink, StandsAt, Replay, Flows, StatusOk, Shows;
    var db := After(history);
    var id, project := PlanTarget(db, r), ProjectOf(w, r.session);
    HistoryKeepsStreams(history, w);
    NoStreamYet(w, db);
    forall s ensures StandsAt(db, id, s) ==> id in db.owners && var read := ReadStatus(w, db.owners[id], id, StreamOf(db.events, id)); read.Ok? && read.value.plan == s.plan {
      ReadsLast(history, w, id, s);
    }
    ReadsLast(history, w, id, Fresh(id, NewPlan(r, 0, now)));
    forall plan ensures !DanglingLink(w, Fresh(id, plan)) && Refresh(w, Fresh(id, plan)).Ok? { FreshRefreshes(w, id, plan); }
    forall plan ensures var t := Refresh(w, Fresh(id, plan)); t.Ok? && t.value.plan == plan && t.value.initiative == id && t.value.artifacts == [] && t.value.links == [] && Shows(w, t.value) {
      FreshRefreshes(w, id, plan);
      RefreshExactly(w, Fresh(id, plan));
    }
    hide Refresh;
  }

  /** In every history a plan is recorded exactly when it is well shaped, under a new key, by an open session; a
      revision also needs its own initiative, room, and the user's word since the plan it replaces. */
  lemma {:induction false} PlanExactly(history: seq<Step>, w: World, key: string, r: Request, now: int)
    requires r.MakePlan? && Flows(history, w)
    ensures var db := After(history); var (next, a) := Write(db, w, key, r, now); var (id, project) := (PlanTarget(db, r), ProjectOf(w, r.session));
      if Shaped(key, r) && KeyFree(db, key) && PlanFits(db, w, r, id, project)
      then StartsOver(db, next, a, w, key, r, id, project, now) && (r.initiative.None? ==> id !in db.owners)
      else RepeatsOrRefuses(db, next, a, key, r, Shaped(key, r))
  {
    hide After, Write, PlanTx, PlanFits, RepeatsOrRefuses, Shaped, Flows, Shows, DbOk;
    var db := After(history);
    HistoryKeepsKeys(history);
    HistoryKeepsIds(history);
    HistoryKeepsStreams(history, w);
    NoStreamYet(w, db);
    PlanVerdict(history, w, r, now);
    WriteExactly(db, w, key, r, now);
    if PlanTx(db, w, r, now).Commit? { ExecuteKeepsIds(db, w, r, now); }
  }

  // ---------------------------------------------------------------- artifacts

  ghost predicate Writes(db: Db, w: World, session: Id, id: Id, project: Id) {
    Speaks(w, session, project) && Owns(db, id, project) && Room(db, id)
  }

  /** The file is direct evidence of the project since the plan. */
  ghost predicate ArtifactFits(db: Db, w: World, r: Request, project: Id, s: Status) {
    && r.RecordArtifact? && Writes(db, w, r.session, r.target, project)
    && StandsAt(db, r.target, s) && Cites(w, project, r.evidence, WorkspaceFile, Direct, s.plan.createdAt)
  }

  /** The new artifact goes last; those of earlier phases stay, in phase order. */
  ghost predicate AddsArtifact(w: World, s: Status, t: Status, r: Request) {
    && r.RecordArtifact? && t.initiative == r.target && t.plan == s.plan && t.links == s.links
    && InPhaseOrder(t.artifacts) && t.artifacts != []
    && r.evidence in w.evidence && t.artifacts[|t.artifacts| - 1] == Artifact(r.kind, r.evidence, w.evidence[r.evidence].createdAt)
    && forall a :: a in t.artifacts[..|t.artifacts| - 1] <==> a in s.artifacts && Rank(a.kind) < Rank(r.kind)
  }

  ghost predicate ArtifactRecorded(db: Db, next: Db, a: Response, w: World, key: string, r: Request, project: Id, s: Status, now: int)
    requires r.RecordArtifact?
  {
    exists t: Status :: Records(db, next, a, key, r, r.target, project, t, now) && AddsArtifact(w, s, t, r) && Shows(w, t)
  }

  lemma ArtifactApplies(w: World, project: Id, read: Status, s: Status, r: Request)
    requires r.RecordArtifact? && StatusOk(w, project, read) && Agrees(s, read) && read.initiative == r.target
    requires Cites(w, project, r.evidence, WorkspaceFile, Direct, s.plan.createdAt)
    ensures var t := Refresh(w, ApplyArtifact(read, r.kind, r.evidence, w.evidence[r.evidence].createdAt));
      t.Ok? && AddsArtifact(w, s, t.value, r) && Shows(w, t.value)
  {
    hide StatusOk, Missing, DanglingLink, Shows, InPhaseOrder, ApplyArtifact, Rank;
    var time := w.evidence[r.evidence].createdAt;
    var after := ApplyArtifact(read, r.kind, r.evidence, time);
    ArtifactIdentity(read, r.kind, r.evidence, time);
    InOrder(w, project, read);
    ArtifactInvalidatesLaterPhases(read, r.kind, r.evidence, time);
    ArtifactKeepsOk(w, project, read, r.kind, r.evidence);
    NothingDangles(w, project, after);
    RefreshExactly(w, after);
    hide Refresh;
  }

  lemma InOrder(w: World, project: Id, s: Status)
    requires StatusOk(w, project, s)
    ensures InPhaseOrder(s.artifacts)
  {
  }

  /** Whether an artifact commits, and what it leaves. */
  lemma {:induction false} ArtifactVerdict(history: seq<Step>, w: World, r: Request, s: Status)
    requires r.RecordArtifact? && Flows(history, w) && StandsAt(After(history), r.target, s)
    ensures var db := After(history); var v := ArtifactTx(db, w, r); var project := ProjectOf(w, r.session);
      && (v.Commit? <==> ArtifactFits(db, w, r, project, s))
      && (v.Commit? ==> v.stream == r.target && v.owner == project && AddsArtifact(w, s, v.status, r) && Shows(w, v.status))
  {
    hide After, Missing, StreamOf, DanglingLink, StandsAt, Replay, Flows, StatusOk, Shows, AddsArtifact, Refresh, ApplyArtifact;
    var db := After(history);
    var project := ProjectOf(w, r.session);
    ReadsLast(history, w, r.target, s);
    if ArtifactFits(db, w, r, project, s) {
      var read := ReadStatus(w, project, r.target, StreamOf(db.events, r.target)).value;
      ArtifactApplies(w, project, read, s, r);
    }
  }

  ghost predicate ArtifactAllowed(db: Db, w: World, r: Request)
    requires r.RecordArtifact?
  {
    exists s :: ArtifactFits(db, w, r, ProjectOf(w, r.session), s)
  }

  lemma ArtifactNeedsOwner(db: Db, w: World, r: Request)
    requires r.RecordArtifact? && ArtifactTx(db, w, r).Commit?
    ensures r.target in db.owners
  {
    hide Replay, Missing, DanglingLink, StreamOf, ApplyArtifact;
  }

  /** In every history an artifact is recorded exactly when an open session of the owning project cites a direct file
      since the plan, with room in the stream; it then drops its own and later phases and goes last. */
  lemma {:induction false} ArtifactExactly(history: seq<Step>, w: World, key: string, r: Request, now: int)
    requires r.RecordArtifact? && Flows(history, w)
    ensures var db := After(history); var (next, a) := Write(db, w, key, r, now); var project := ProjectOf(w, r.session);
      if Shaped(key, r) && KeyFree(db, key) && ArtifactAllowed(db, w, r)
      then forall s :: StandsAt(db, r.target, s) ==> ArtifactRecorded(db, next, a, w, key, r, project, s, now)
      else RepeatsOrRefuses(db, next, a, key, r, Shaped(key, r))
  {
    hide After, Write, ArtifactTx, RepeatsOrRefuses, Shaped, Flows, Shows, StandsAt, AddsArtifact, Records;
    var db := After(history);
    HistoryKeepsKeys(history);
    WriteExactly(db, w, key, r, now);
    forall s | StandsAt(db, r.target, s)
      ensures ArtifactTx(db, w, r).Commit? ==> AddsArtifact(w, s, ArtifactTx(db, w, r).status, r)
      ensures ArtifactTx(db, w, r).Commit? <==> ArtifactFits(db, w, r, ProjectOf(w, r.session), s)
    {
      ArtifactVerdict(history, w, r, s);
    }
    if ArtifactTx(db, w, r).Commit? {
      ArtifactNeedsOwner(db, w, r);
      ReadsLast(history, w, r.target, Fresh(0, Plan(0, 0, "", "", "", [])));
      var s :| StandsAt(db, r.target, s);
      ArtifactVerdict(history, w, r, s);
      assert ArtifactFits(db, w, r, ProjectOf(w, r.session), s);
    }
  }

  // ---------------------------------------------------------------- links

  /** A task of the project that carries the planned requirement's criterion, and is not linked to it yet. */
  ghost predicate LinkFits(db: Db, w: World, r: Request, project: Id, s: Status) {
    && r.LinkTask? && Writes(db, w, r.session, r.target, project) && StandsAt(db, r.target, s)
    && r.task in w.tasks && w.tasks[r.task].project == project
    && (exists q :: q in s.plan.requirements && q.id == r.requirement && q.criterion in w.tasks[r.task].criteria)
    && forall l :: l in s.links ==> l.requirement != r.requirement || l.task != r.task
  }

  /** The link goes last; only the planning and design artifacts stay. */
  ghost predicate AddsLink(s: Status, t: Status, r: Request) {
    && r.LinkTask? && t.initiative == r.target && t.plan == s.plan && InPhaseOrder(t.artifacts)
    && (forall a :: a in t.artifacts <==> a in s.artifacts && (a.kind == Planning || a.kind == Design))
    && t.links != [] && t.links[..|t.links| - 1] == s.links
    && t.links[|t.links| - 1].requirement == r.requirement && t.links[|t.links| - 1].task == r.task
  }

  ghost predicate LinkRecorded(db: Db, next: Db, a: Response, w: World, key: string, r: Request, project: Id, s: Status, now: int)
    requires r.LinkTask?
  {
    exists t: Status :: Records(db, next, a, key, r, r.target, project, t, now) && AddsLink(s, t, r) && Shows(w, t)
  }

  /** The requirement found by name is the one that has it. */
  lemma {:induction false} RequirementExactly(p: Plan, q: Requirement, id: string)
    requires PlanOk(p)
    ensures FindRequirement(p.requirements, id) == Some(q) <==> q in p.requirements && q.id == id
  {
    hide FindRequirement;
    FindNone(p.requirements, id);
    if q in p.requirements && q.id == id {
      var i :| 0 <= i < |p.requirements| && p.requirements[i] == q;
      FindIsThere(p.requirements, i);
    }
  }

  lemma LinkApplies(w: World, project: Id, read: Status, s: Status, r: Request)
    requires r.LinkTask? && StatusOk(w, project, read) && Agrees(s, read) && read.initiative == r.target
    requires LinkOk(w, project, read.plan, Link(r.requirement, r.task)) && ApplyLink(read, r.requirement, r.task).Ok?
    ensures var t := Refresh(w, ApplyLink(read, r.requirement, r.task).value); t.Ok? && AddsLink(s, t.value, r) && Shows(w, t.value)
  {
    hide StatusOk, Missing, DanglingLink, Shows, InPhaseOrder, LinkOk;
    var after := ApplyLink(read, r.requirement, r.task).value;
    InOrder(w, project, read);
    LinkInvalidatesIntegration(read, r.requirement, r.task);
    LinkKeepsOk(w, project, read, r.requirement, r.task);
    NothingDangles(w, project, after);
    RefreshExactly(w, after);
    hide Refresh, Filter;
  }

  lemma LinkableExactly(w: World, project: Id, read: Status, s: Status, r: Request)
    requires r.LinkTask? && StatusOk(w, project, read) && Agrees(s, read)
    ensures LinkOk(w, project, read.plan, Link(r.requirement, r.task)) <==>
      r.task in w.tasks && w.tasks[r.task].project == project
      && exists q :: q in s.plan.requirements && q.id == r.requirement && q.criterion in w.tasks[r.task].criteria
    ensures ApplyLink(read, r.requirement, r.task).Ok? <==> forall l :: l in s.links ==> l.requirement != r.requirement || l.task != r.task
  {
    hide FindRequirement, Filter;
    forall q ensures FindRequirement(s.plan.requirements, r.requirement) == Some(q) <==> q in s.plan.requirements && q.id == r.requirement {
      RequirementExactly(s.plan, q, r.requirement);
    }
  }

  /** Whether a link commits, and what it leaves. */
  lemma {:induction false} LinkVerdict(history: seq<Step>, w: World, r: Request, s: Status)
    requires r.LinkTask? && Flows(history, w) && StandsAt(After(history), r.target, s)
    ensures var db := After(history); var v := LinkTx(db, w, r); var project := ProjectOf(w, r.session);
      && (v.Commit? <==> LinkFits(db, w, r, project, s))
      && (v.Commit? ==> v.stream == r.target && v.owner == project && AddsLink(s, v.status, r) && Shows(w, v.status))
  {
    hide After, Missing, StreamOf, DanglingLink, StandsAt, Replay, Flows, StatusOk, Shows, AddsLink, Refresh, ApplyLink, FindRequirement;
    var db := After(history);
    var project := ProjectOf(w, r.session);
    ReadsLast(history, w, r.target, s);
    if Writes(db, w, r.session, r.target, project) {
      var read := ReadStatus(w, project, r.target, StreamOf(db.events, r.target)).value;
      LinkableExactly(w, project, read, s, r);
      if LinkFits(db, w, r, project, s) { LinkApplies(w, project, read, s, r); }
    }
  }

  ghost predicate LinkAllowed(db: Db, w: World, r: Request)
    requires r.LinkTask?
  {
    exists s :: LinkFits(db, w, r, ProjectOf(w, r.session), s)
  }

  lemma LinkNeedsOwner(db: Db, w: World, r: Request)
    requires r.LinkTask? && LinkTx(db, w, r).Commit?
    ensures r.target in db.owners
  {
    hide Replay, Missing, DanglingLink, StreamOf, ApplyLink, FindRequirement;
  }

  /** In every history a link is recorded exactly when an open session of the owning project links one of its tasks to
      a planned requirement whose criterion the task carries, once; the later artifacts are then dropped. */
  lemma {:induction false} LinkExactly(history: seq<Step>, w: World, key: string, r: Request, now: int)
    requires r.LinkTask? && Flows(history, w)
    ensures var db := After(history); var (next, a) := Write(db, w, key, r, now); var project := ProjectOf(w, r.session);
      if Shaped(key, r) && KeyFree(db, key) && LinkAllowed(db, w, r)
      then forall s :: StandsAt(db, r.target, s) ==> LinkRecorded(db, next, a, w, key, r, project, s, now)
      else RepeatsOrRefuses(db, next, a, key, r, Shaped(key, r))
  {
    hide After, Write, LinkTx, RepeatsOrRefuses, Shaped, Flows, Shows, StandsAt, AddsLink, Records;
    var db := After(history);
    HistoryKeepsKeys(history);
    WriteExactly(db, w, key, r, now);
    forall s | StandsAt(db, r.target, s)
      ensures LinkTx(db, w, r).Commit? ==> AddsLink(s, LinkTx(db, w, r).status, r)
      ensures LinkTx(db, w, r).Commit? <==> LinkFits(db, w, r, ProjectOf(w, r.session), s)
    {
      LinkVerdict(history, w, r, s);
    }
    if LinkTx(db, w, r).Commit? {
      LinkNeedsOwner(db, w, r);
      ReadsLast(history, w, r.target, Fresh(0, Plan(0, 0, "", "", "", [])));
      var s :| StandsAt(db, r.target, s);
      LinkVerdict(history, w, r, s);
      assert LinkFits(db, w, r, ProjectOf(w, r.session), s);
    }
  }
}
