/** When an initiative is ready to claim, and the chronology that follows. */
module InitiativeReadiness {
  import opened Ordering
  import opened Initiative
  import opened InitiativeReplay

  // ---------------------------------------------------------------- what readiness asks, declaratively

  ghost predicate EveryRequirementLinked(s: Status) {
    forall i :: 0 <= i < |s.plan.requirements| ==> exists j :: 0 <= j < |s.links| && s.links[j].requirement == s.plan.requirements[i].id
  }

  /** The link's task verifies the requirement it names. */
  ghost predicate LinkVerified(w: World, s: Status, l: Link) {
    var r := FindRequirement(s.plan.requirements, l.requirement);
    r.Some? && Verified(w, s.plan, r.value, l.task)
  }

  ghost predicate EveryLinkVerified(w: World, s: Status) {
    forall j :: 0 <= j < |s.links| ==> LinkVerified(w, s, s.links[j])
  }

  ghost predicate EveryArtifactCurrent(w: World, s: Status) {
    forall k: Kind :: Find(s.artifacts, k).Some? && Find(s.artifacts, k).value.evidence in w.current
  }

  /** When the artifact of a kind was recorded. */
  ghost function TimeOf(s: Status, k: Kind): int
    requires Find(s.artifacts, k).Some?
  {
    Find(s.artifacts, k).value.createdAt
  }

  /** Plan, planning, design, every linked task's update, integration, release: each no earlier than the last. */
  ghost predicate Chronology(w: World, s: Status)
    requires forall k: Kind :: Find(s.artifacts, k).Some?
  {
    && s.plan.createdAt <= TimeOf(s, Planning) <= TimeOf(s, Design)
    && (forall j :: 0 <= j < |s.links| ==> s.links[j].task in w.tasks)
    && (forall j :: 0 <= j < |s.links| ==> TimeOf(s, Design) <= w.tasks[s.links[j].task].updatedAt <= TimeOf(s, Integration))
    && TimeOf(s, Integration) <= TimeOf(s, Release)
  }

  ghost predicate ReadyCondition(w: World, s: Status) {
    EveryRequirementLinked(s) && EveryLinkVerified(w, s) && EveryArtifactCurrent(w, s) && Chronology(w, s)
  }

  // ---------------------------------------------------------------- gaps of requirements

  lemma {:induction false} FindIsThere(requirements: seq<Requirement>, i: nat)
    requires i < |requirements| && forall a, b :: 0 <= a < b < |requirements| ==> requirements[a].id != requirements[b].id
    ensures FindRequirement(requirements, requirements[i].id) == Some(requirements[i])
  {
    var front := requirements[..|requirements| - 1];
    if i < |front| {
      FindIsThere(front, i);
    } else {
      FindNone(front, requirements[i].id);
    }
  }

  lemma {:induction false} FindNone(requirements: seq<Requirement>, id: string)
    ensures FindRequirement(requirements, id).None? <==> forall i :: 0 <= i < |requirements| ==> requirements[i].id != id
    ensures FindRequirement(requirements, id).Some? ==> FindRequirement(requirements, id).value in requirements && FindRequirement(requirements, id).value.id == id
  {
    if requirements != [] {
      var front := requirements[..|requirements| - 1];
      FindNone(front, id);
      if FindRequirement(front, id).Some? { assert FindRequirement(front, id).value in requirements; }
    }
  }

  lemma {:induction false} LinkGapsNone(w: World, plan: Plan, r: Requirement, links: seq<Link>)
    ensures LinkGaps(w, plan, r, links) == [] <==> forall l :: l in links ==> Verified(w, plan, r, l.task)
  {
    if links != [] {
      LinkGapsNone(w, plan, r, links[..|links| - 1]);
      assert links == links[..|links| - 1] + [links[|links| - 1]];
    }
  }

  /** Requirement `i` has links and each verifies it. */
  ghost predicate Settled(w: World, s: Status, i: nat)
    requires i < |s.plan.requirements|
  {
    var r := s.plan.requirements[i];
    LinksOf(s.links, r.id) != [] && forall l :: l in LinksOf(s.links, r.id) ==> Verified(w, s.plan, r, l.task)
  }

  lemma {:induction false} RequirementGapsNone(w: World, s: Status, n: nat)
    requires n <= |s.plan.requirements|
    ensures RequirementGaps(w, s, n) == [] <==> forall i :: 0 <= i < n ==> Settled(w, s, i)
    decreases n
  {
    hide LinksOf, Verified;
    if n > 0 {
      RequirementGapsNone(w, s, n - 1);
      var r := s.plan.requirements[n - 1];
      LinkGapsNone(w, s.plan, r, LinksOf(s.links, r.id));
      assert RequirementGaps(w, s, n) == [] <==> RequirementGaps(w, s, n - 1) == [] && Settled(w, s, n - 1);
    }
  }

  lemma LinkIsListed(s: Status, l: Link, i: nat)
    requires i < |s.plan.requirements|
    ensures l in LinksOf(s.links, s.plan.requirements[i].id) <==> l in s.links && l.requirement == s.plan.requirements[i].id
  {
  }

  /** No requirement gap means every requirement linked and every link verified. */
  lemma {:induction false} RequirementsSettled(w: World, project: Id, s: Status)
    requires StatusOk(w, project, s)
    ensures RequirementGaps(w, s, |s.plan.requirements|) == [] <==> EveryRequirementLinked(s) && EveryLinkVerified(w, s)
  {
    hide Verified, LinksOf, FindRequirement, InPhaseOrder, ArtifactOk;
    var n := |s.plan.requirements|;
    RequirementGapsNone(w, s, n);
    forall i | 0 <= i < n
      ensures FindRequirement(s.plan.requirements, s.plan.requirements[i].id) == Some(s.plan.requirements[i])
      ensures forall l: Link :: l in LinksOf(s.links, s.plan.requirements[i].id) <==> l in s.links && l.requirement == s.plan.requirements[i].id
    {
      FindIsThere(s.plan.requirements, i);
      forall l: Link ensures l in LinksOf(s.links, s.plan.requirements[i].id) <==> l in s.links && l.requirement == s.plan.requirements[i].id {
        LinkIsListed(s, l, i);
      }
    }
    if forall i :: 0 <= i < n ==> Settled(w, s, i) {
      forall j | 0 <= j < |s.links| ensures LinkVerified(w, s, s.links[j]) { SettledLink(w, project, s, j); }
      forall i | 0 <= i < n ensures exists j :: 0 <= j < |s.links| && s.links[j].requirement == s.plan.requirements[i].id {
        assert Settled(w, s, i);
        assert LinksOf(s.links, s.plan.requirements[i].id)[0] in LinksOf(s.links, s.plan.requirements[i].id);
      }
    }
    if EveryRequirementLinked(s) && EveryLinkVerified(w, s) {
      forall i | 0 <= i < n ensures Settled(w, s, i) { LinkedSettled(w, s, i); }
    }
  }

  /** A link names some planned requirement, and is among those that settle it. */
  lemma SettledLink(w: World, project: Id, s: Status, j: nat)
    requires StatusOk(w, project, s) && j < |s.links|
    requires forall i :: 0 <= i < |s.plan.requirements| ==> Settled(w, s, i)
    ensures LinkVerified(w, s, s.links[j])
  {
    hide Verified, LinksOf, FindRequirement, InPhaseOrder, ArtifactOk;
    var l := s.links[j];
    assert LinkOk(w, project, s.plan, l);
    FindNone(s.plan.requirements, l.requirement);
    var i :| 0 <= i < |s.plan.requirements| && s.plan.requirements[i] == FindRequirement(s.plan.requirements, l.requirement).value;
    LinkIsListed(s, l, i);
    assert Settled(w, s, i);
  }

  lemma LinkedSettled(w: World, s: Status, i: nat)
    requires PlanOk(s.plan) && i < |s.plan.requirements| && EveryRequirementLinked(s) && EveryLinkVerified(w, s)
    ensures Settled(w, s, i)
  {
    hide Verified, LinksOf, FindRequirement;
    var r := s.plan.requirements[i];
    FindIsThere(s.plan.requirements, i);
    var j :| 0 <= j < |s.links| && s.links[j].requirement == r.id;
    LinkIsListed(s, s.links[j], i);
    forall l | l in LinksOf(s.links, r.id) ensures Verified(w, s.plan, r, l.task) {
      LinkIsListed(s, l, i);
      var k :| 0 <= k < |s.links| && s.links[k] == l;
      assert LinkVerified(w, s, s.links[k]);
    }
  }

  // ---------------------------------------------------------------- times

  lemma {:induction false} GreatestBounds(times: seq<int>, floor: int)
    ensures floor <= Greatest(times, floor) && forall t :: t in times ==> t <= Greatest(times, floor)
    ensures Greatest(times, floor) == floor || Greatest(times, floor) in times
  {
    if times != [] {
      GreatestBounds(times[..|times| - 1], floor);
      assert times == times[..|times| - 1] + [times[|times| - 1]];
    }
  }

  lemma {:induction false} LeastBounds(times: seq<int>)
    ensures Least(times).None? <==> times == []
    ensures Least(times).Some? ==> Least(times).value in times && forall t :: t in times ==> Least(times).value <= t
  {
    if times != [] {
      LeastBounds(times[..|times| - 1]);
      assert times == times[..|times| - 1] + [times[|times| - 1]];
    }
  }

  lemma {:induction false} LinkTimesAre(w: World, plan: Plan, r: Requirement, links: seq<Link>, t: int)
    ensures t in LinkTimes(w, plan, r, links)
      <==> exists l :: l in links && Verified(w, plan, r, l.task) && w.tasks[l.task].updatedAt == t
  {
    if links != [] {
      LinkTimesAre(w, plan, r, links[..|links| - 1], t);
      assert links == links[..|links| - 1] + [links[|links| - 1]];
    }
  }

  /** Some verified link of one of the first `n` requirements was last updated at `t`. */
  ghost predicate Timed(w: World, s: Status, n: nat, t: int)
    requires n <= |s.plan.requirements|
  {
    exists i :: 0 <= i < n && t in LinkTimes(w, s.plan, s.plan.requirements[i], LinksOf(s.links, s.plan.requirements[i].id))
  }

  lemma {:induction false} TimesAre(w: World, s: Status, n: nat, t: int)
    requires n <= |s.plan.requirements|
    ensures t in Times(w, s, n) <==> Timed(w, s, n, t)
    decreases n
  {
    hide LinkTimes, LinksOf;
    if n > 0 { TimesAre(w, s, n - 1, t); }
  }

  /** With every link verified, the times are exactly the linked tasks' updates. */
  lemma {:induction false} TimesOfLinks(w: World, project: Id, s: Status, t: int)
    requires StatusOk(w, project, s) && EveryLinkVerified(w, s)
    ensures t in Times(w, s, |s.plan.requirements|) <==> exists j :: 0 <= j < |s.links| && s.links[j].task in w.tasks && w.tasks[s.links[j].task].updatedAt == t
  {
    hide LinkTimes, LinksOf, FindRequirement, InPhaseOrder, ArtifactOk;
    TimesAre(w, s, |s.plan.requirements|, t);
    if Timed(w, s, |s.plan.requirements|, t) {
      var i :| 0 <= i < |s.plan.requirements| && t in LinkTimes(w, s.plan, s.plan.requirements[i], LinksOf(s.links, s.plan.requirements[i].id));
      LinkTimesAre(w, s.plan, s.plan.requirements[i], LinksOf(s.links, s.plan.requirements[i].id), t);
      var l :| l in LinksOf(s.links, s.plan.requirements[i].id) && Verified(w, s.plan, s.plan.requirements[i], l.task) && w.tasks[l.task].updatedAt == t;
      LinkIsListed(s, l, i);
    }
    if j :| 0 <= j < |s.links| && s.links[j].task in w.tasks && w.tasks[s.links[j].task].updatedAt == t {
      LinkIsTimed(w, s, j);
    }
  }

  lemma LinkIsTimed(w: World, s: Status, j: nat)
    requires j < |s.links| && LinkVerified(w, s, s.links[j])
    ensures Timed(w, s, |s.plan.requirements|, w.tasks[s.links[j].task].updatedAt)
  {
    hide LinkTimes, LinksOf, FindRequirement;
    var l := s.links[j];
    FindNone(s.plan.requirements, l.requirement);
    var r := FindRequirement(s.plan.requirements, l.requirement).value;
    var i :| 0 <= i < |s.plan.requirements| && s.plan.requirements[i] == r;
    LinkIsListed(s, l, i);
    LinkTimesAre(w, s.plan, r, LinksOf(s.links, r.id), w.tasks[l.task].updatedAt);
  }

  // ---------------------------------------------------------------- artifacts

  lemma {:induction false} FindKind(artifacts: seq<Artifact>, k: Kind)
    ensures Find(artifacts, k).Some? ==> Find(artifacts, k).value in artifacts && Find(artifacts, k).value.kind == k
  {
    if artifacts != [] {
      FindKind(artifacts[..|artifacts| - 1], k);
    }
  }

  lemma ArtifactGapsNone(w: World, s: Status)
    ensures ArtifactGaps(w, s) == [] <==> EveryArtifactCurrent(w, s)
  {
    hide Find;
    if ArtifactGaps(w, s) == [] {
      assert ArtifactGap(w, s, Planning) == [] && ArtifactGap(w, s, Design) == [] && ArtifactGap(w, s, Integration) == [] && ArtifactGap(w, s, Release) == [];
      forall k: Kind ensures Find(s.artifacts, k).Some? && Find(s.artifacts, k).value.evidence in w.current {
        match k case Planning => case Design => case Integration => case Release =>
      }
    }
  }

  lemma {:induction false} NotBeforePlan(w: World, project: Id, s: Status, k: Kind)
    requires StatusOk(w, project, s) && Find(s.artifacts, k).Some?
    ensures s.plan.createdAt <= TimeOf(s, k)
  {
    hide Find, FindRequirement;
    FindKind(s.artifacts, k);
    var i :| 0 <= i < |s.artifacts| && s.artifacts[i] == Find(s.artifacts, k).value;
    assert ArtifactOk(w, project, s.plan, s.artifacts[i]);
  }

  /** With all artifacts there and all links verified, no order gap means the chronology holds. */
  lemma {:induction false} OrderGapsNone(w: World, project: Id, s: Status)
    requires StatusOk(w, project, s) && EveryLinkVerified(w, s) && EveryArtifactCurrent(w, s)
    ensures var times := Times(w, s, |s.plan.requirements|);
      OrderGaps(s, Greatest(times, s.plan.createdAt), Least(times)) == [] <==> Chronology(w, s)
  {
    hide Find, FindRequirement, StatusOk, Times;
    var times := Times(w, s, |s.plan.requirements|);
    GreatestBounds(times, s.plan.createdAt);
    LeastBounds(times);
    NotBeforePlan(w, project, s, Planning);
    NotBeforePlan(w, project, s, Integration);
    forall j | 0 <= j < |s.links| ensures s.links[j].task in w.tasks && w.tasks[s.links[j].task].updatedAt in times {
      assert LinkVerified(w, s, s.links[j]);
      TimesOfLinks(w, project, s, w.tasks[s.links[j].task].updatedAt);
    }
    forall t | t in times ensures exists j :: 0 <= j < |s.links| && s.links[j].task in w.tasks && w.tasks[s.links[j].task].updatedAt == t {
      TimesOfLinks(w, project, s, t);
    }
  }

  // ---------------------------------------------------------------- readiness

  /** Ready to claim, that is nothing missing, exactly under the declared condition. */
  lemma ReadyIff(w: World, project: Id, s: Status)
    requires StatusOk(w, project, s)
    ensures Missing(w, s) == [] <==> ReadyCondition(w, s)
  {
    hide RequirementGaps, ArtifactGaps, OrderGaps, Times, StatusOk, EveryRequirementLinked, EveryLinkVerified, Chronology, Find;
    RequirementsSettled(w, project, s);
    ArtifactGapsNone(w, s);
    if EveryLinkVerified(w, s) && EveryArtifactCurrent(w, s) { OrderGapsNone(w, project, s); }
  }

  lemma NothingDangles(w: World, project: Id, s: Status)
    requires StatusOk(w, project, s)
    ensures !DanglingLink(w, s)
  {
    hide FindRequirement, InPhaseOrder, PlanOk;
    forall i | 0 <= i < |s.links| ensures s.links[i].task in w.tasks {
      assert LinkOk(w, project, s.plan, s.links[i]);
    }
  }

  /** Asking for the status of any initiative the writers made succeeds, says ready exactly when every
      requirement is linked, every link verified and every artifact current, in order, and then
      plan <= planning <= design <= every linked task's update <= integration <= release. */
  lemma {:induction false} ReadinessImpliesChronology(history: seq<Step>, w: World, id: Id)
    requires Flows(history, w) && id in After(history).owners
    ensures var db := After(history); var project := db.owners[id];
      var s := ReadStatus(w, project, id, StreamOf(db.events, id));
      && s.Ok? && Refresh(w, s.value).Ok?
      && (Refresh(w, s.value).value.ready <==> Refresh(w, s.value).value.missing == [])
      && (Refresh(w, s.value).value.ready <==> ReadyCondition(w, s.value))
  {
    hide After, StatusOk, Missing, ReadyCondition;
    ReplayIsTotal(history, w, id);
    var db := After(history);
    var s := ReadStatus(w, db.owners[id], id, StreamOf(db.events, id)).value;
    NothingDangles(w, db.owners[id], s);
    ReadyIff(w, db.owners[id], s);
  }
}
