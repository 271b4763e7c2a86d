/** What every history of the store keeps about tasks: dependency discipline, justified completion,
    and leases that never share a workspace path. */
module StoreTasks {
  import opened Ordering
  import opened Graphs
  import opened WriteScope
  import opened StoreModel
  import opened StoreFrames

  // ---------------------------------------------------------------- minted identifiers

  /** Row identifiers come from the counter. */
  ghost predicate Minted(db: Db) {
    && (forall id :: id in db.sessions ==> id < db.nextId)
    && (forall id :: id in db.specs ==> id < db.nextId)
    && (forall id :: id in db.tasks ==> id < db.nextId)
    && (forall id :: id in db.records ==> id < db.nextId)
    && (forall id :: id in db.evidence ==> id < db.nextId)
    && (forall id :: id in db.claims ==> id < db.nextId)
    && (forall id :: id in db.runs ==> id < db.nextId)
    && (forall id :: id in db.receipts ==> id < db.nextId)
  }

  lemma ExecuteKeepsMinted(db: Db, r: Request, now: int, seen: Sighting)
    requires Minted(db) && Execute(db, r, now, seen).Commit?
    ensures Minted(Execute(db, r, now, seen).db)
  {
    hide NormalizeAll, SameActiveObjective, DependencyError, UnfinishedError, CollidesWith, ProofsError, RecordLinkError;
    match r
    case CreateTask(_, _, _, _, _) =>
    case ClaimTask(_, _, _) =>
    case CompleteTask(_, _, _, _) =>
    case CancelTask(_, _) =>
    case AddRecord(_, _, _, _, _) =>
    case AddEvidence(_, _, _) =>
    case AssertClaim(_, _, _, _, _) =>
    case _ =>
  }

  lemma StartKeepsMinted(db: Db, spec: Id, now: int)
    requires Minted(db)
    ensures Minted(StartTx(db, spec, now).0)
  {
    hide HasRunning, LatestRun, SessionError;
  }

  lemma FinishKeepsMinted(db: Db, f: Finish, now: int)
    requires Minted(db)
    ensures Minted(FinishTx(db, f, now).0)
  {
    hide SuccessSupported, ArtifactsWithinLimits, DistinctPaths, Blank;
  }

  lemma AdminKeepsMinted(db: Db, c: Command)
    requires Minted(db)
    ensures Minted(AdminTx(db, c))
  {
    hide SessionError, DistinctTexts;
  }

  lemma CallKeepsMinted(db: Db, key: Key, r: Request, now: int, seen: Sighting)
    requires Minted(db)
    ensures Minted(CallTx(db, key, r, now, seen).0)
  {
    hide Execute, WellFormed, Lookup;
    if Execute(db, r, now, seen).Commit? { ExecuteKeepsMinted(db, r, now, seen); }
  }

  lemma MintedKept(db: Db, c: Timed)
    requires Minted(db)
    ensures Minted(Apply(db, c))
  {
    hide CallTx, StartTx, FinishTx, ReconcileTx, AdminTx;
    match c.command
    case Call(key, r, seen) => CallKeepsMinted(db, key, r, c.now, seen);
    case Start(spec) => StartKeepsMinted(db, spec, c.now);
    case FinishWith(f) => FinishKeepsMinted(db, f, c.now);
    case Reconcile(staleAfter) => ReconcileFrame(db, staleAfter, c.now);
    case _ => AdminKeepsMinted(db, c.command);
  }

  // ---------------------------------------------------------------- dependency discipline

  ghost predicate TaskOk(tasks: map<Id, Task>, id: Id)
    requires id in tasks
  {
    var t := tasks[id];
    && t.id == id
    && (forall i :: 0 <= i < |t.scopes| ==> Normalize(t.scopes[i]) == Some(t.scopes[i]))
    && (forall d :: d in t.dependsOn ==> d in tasks && d < id && tasks[d].project == t.project)
    && (t.status == Leased <==> t.expires.Some?)
    && (t.status == Leased || t.status == Completed ==> forall d :: d in t.dependsOn ==> tasks[d].status == Completed)
  }

  ghost predicate TasksOk(db: Db) {
    forall id :: id in db.tasks ==> TaskOk(db.tasks, id)
  }

  lemma {:induction false} DependenciesFound(db: Db, project: Id, dependsOn: seq<Id>, n: nat)
    requires n <= |dependsOn| && DependencyError(db, project, dependsOn, n).None?
    ensures forall i :: 0 <= i < n ==> dependsOn[i] in db.tasks && db.tasks[dependsOn[i]].project == project
    decreases n
  {
    if n > 0 { DependenciesFound(db, project, dependsOn, n - 1); }
  }

  lemma {:induction false} DependenciesCompleted(db: Db, dependsOn: seq<Id>, n: nat)
    requires n <= |dependsOn| && UnfinishedError(db, dependsOn, n).None?
    ensures forall i :: 0 <= i < n ==> dependsOn[i] in db.tasks && db.tasks[dependsOn[i]].status == Completed
    decreases n
  {
    if n > 0 { DependenciesCompleted(db, dependsOn, n - 1); }
  }

  lemma {:induction false} ScopesNormal(scopes: seq<string>, n: nat)
    requires n <= |scopes| && NormalizeFirst(scopes, n).Some?
    ensures forall i :: 0 <= i < |NormalizeFirst(scopes, n).value| ==>
      Normalize(NormalizeFirst(scopes, n).value[i]) == Some(NormalizeFirst(scopes, n).value[i])
    decreases n
  {
    if n > 0 {
      ScopesNormal(scopes, n - 1);
      NormalizeIdempotent(scopes[n - 1]);
    }
  }

  lemma CreateKeepsTasks(db: Db, r: Request, now: int)
    requires r.CreateTask? && Minted(db) && TasksOk(db) && CreateTaskTx(db, r, now).Commit?
    ensures TasksOk(CreateTaskTx(db, r, now).db)
  {
    ScopesNormal(r.scopes, |r.scopes|);
    DependenciesFound(db, db.sessions[r.session].project, r.dependsOn, |r.dependsOn|);
    var after := CreateTaskTx(db, r, now).db.tasks;
    forall id | id in after ensures TaskOk(after, id) {
      if id != db.nextId { assert TaskOk(db.tasks, id); }
    }
  }

  /** Changing the status of a task that is neither completed nor cancelled disturbs no dependent. */
  lemma UpdateKeepsTasks(tasks: map<Id, Task>, id: Id, t: Task)
    requires id in tasks && forall x :: x in tasks ==> TaskOk(tasks, x)
    requires Active(tasks[id]) && t.id == id && t.project == tasks[id].project
    requires t.scopes == tasks[id].scopes && t.dependsOn == tasks[id].dependsOn
    requires t.status == Leased <==> t.expires.Some?
    requires t.status == Leased || t.status == Completed ==>
      forall d :: d in t.dependsOn ==> d in tasks && tasks[d].status == Completed
    ensures var after := tasks[id := t]; forall x :: x in after ==> TaskOk(after, x)
  {
    var after := tasks[id := t];
    forall x | x in after ensures TaskOk(after, x) {
      assert TaskOk(tasks, x) && TaskOk(tasks, id);
      if id in tasks[x].dependsOn {
        assert tasks[id].status != Completed;
      }
    }
  }

  lemma ClaimKeepsTasks(db: Db, r: Request, now: int)
    requires r.ClaimTask? && TasksOk(db) && ClaimTaskTx(db, r, now).Commit?
    ensures TasksOk(ClaimTaskTx(db, r, now).db)
  {
    var t := db.tasks[r.task];
    DependenciesCompleted(db, t.dependsOn, |t.dependsOn|);
    UpdateKeepsTasks(db.tasks, r.task, ClaimTaskTx(db, r, now).db.tasks[r.task]);
  }

  lemma CompleteKeepsTasks(db: Db, r: Request, now: int, changed: set<Id>)
    requires r.CompleteTask? && TasksOk(db) && CompleteTaskTx(db, r, now, changed).Commit?
    ensures TasksOk(CompleteTaskTx(db, r, now, changed).db)
  {
    assert TaskOk(db.tasks, r.task);
    UpdateKeepsTasks(db.tasks, r.task, CompleteTaskTx(db, r, now, changed).db.tasks[r.task]);
  }

  lemma CancelKeepsTasks(db: Db, r: Request, now: int)
    requires r.CancelTask? && TasksOk(db) && CancelTaskTx(db, r, now).Commit?
    ensures TasksOk(CancelTaskTx(db, r, now).db)
  {
    assert TaskOk(db.tasks, r.task);
    UpdateKeepsTasks(db.tasks, r.task, CancelTaskTx(db, r, now).db.tasks[r.task]);
  }

  lemma ExecuteKeepsTasks(db: Db, r: Request, now: int, seen: Sighting)
    requires Minted(db) && TasksOk(db) && Execute(db, r, now, seen).Commit?
    ensures TasksOk(Execute(db, r, now, seen).db)
  {
    hide CreateTaskTx, ClaimTaskTx, CompleteTaskTx, CancelTaskTx, AddRecordTx, AddEvidenceTx, AssertClaimTx;
    match r
    case CreateTask(_, _, _, _, _) => CreateKeepsTasks(db, r, now);
    case ClaimTask(_, _, _) => ClaimKeepsTasks(db, r, now);
    case CompleteTask(_, _, _, _) => CompleteKeepsTasks(db, r, now, seen.changedClaims);
    case CancelTask(_, _) => CancelKeepsTasks(db, r, now);
    case _ => ExecuteFrame(db, r, now, seen);
  }

  lemma CallKeepsTasks(db: Db, key: Key, r: Request, now: int, seen: Sighting)
    requires Minted(db) && TasksOk(db)
    ensures TasksOk(CallTx(db, key, r, now, seen).0)
  {
    hide Execute, WellFormed, Lookup;
    if Execute(db, r, now, seen).Commit? { ExecuteKeepsTasks(db, r, now, seen); }
  }

  lemma TasksOkKept(db: Db, c: Timed)
    requires Minted(db) && TasksOk(db)
    ensures TasksOk(Apply(db, c))
  {
    hide CallTx, StartTx, FinishTx, ReconcileTx, AdminTx;
    match c.command
    case Call(key, r, seen) => CallKeepsTasks(db, key, r, c.now, seen);
    case Start(spec) => StartFrame(db, spec, c.now);
    case FinishWith(f) => FinishFrame(db, f, c.now);
    case Reconcile(staleAfter) => ReconcileFrame(db, staleAfter, c.now);
    case _ => AdminFrame(db, c.command);
  }

  lemma {:induction false} HistoryKeepsTasks(history: seq<Timed>)
    ensures Minted(After(history)) && TasksOk(After(history))
  {
    hide Apply;
    if history != [] {
      var front := history[..|history| - 1];
      HistoryKeepsTasks(front);
      MintedKept(After(front), history[|front|]);
      TasksOkKept(After(front), history[|front|]);
    }
  }

  function TaskEdges(db: Db): (e: Edges)
    ensures forall a, b {:trigger (a, b) in e} :: (a, b) in e <==> a in db.tasks && b in db.tasks[a].dependsOn
  {
    set a, b | a in db.tasks.Keys && b in db.tasks[a].dependsOn :: (a, b)
  }

  lemma EdgeDescends(db: Db, a: Id, b: Id)
    requires TasksOk(db) && (a, b) in TaskEdges(db)
    ensures b < a && b in db.tasks && db.tasks[a].project == db.tasks[b].project
    ensures db.tasks[a].status == Leased || db.tasks[a].status == Completed ==> db.tasks[b].status == Completed
  {
    assert TaskOk(db.tasks, a);
  }

  lemma {:induction false} ReachDescends(db: Db, a: Id, b: Id, k: nat)
    requires TasksOk(db) && ReachIn(TaskEdges(db), a, b, k)
    ensures b <= a
    decreases k
  {
    hide TasksOk, TaskEdges;
    if k > 0 {
      var c: Id :| (a, c) in TaskEdges(db) && ReachIn(TaskEdges(db), c, b, k - 1);
      EdgeDescends(db, a, c);
      ReachDescends(db, c, b, k - 1);
    }
  }

  lemma TaskGraphAcyclic(db: Db)
    requires TasksOk(db)
    ensures Acyclic(TaskEdges(db))
  {
    hide TasksOk, TaskEdges, ReachIn;
    forall a: Id, c: Id, k: nat | (a, c) in TaskEdges(db) && ReachIn(TaskEdges(db), c, a, k) ensures false {
      EdgeDescends(db, a, c);
      ReachDescends(db, c, a, k);
    }
  }

  /** In every reachable store the task graph is acyclic, stays within one project,
      and work only starts on tasks whose dependencies are all completed. */
  lemma {:induction false} DependencyDiscipline(history: seq<Timed>)
    ensures var db := After(history);
      && Acyclic(TaskEdges(db))
      && forall a: Id, b: Id {:trigger (a, b) in TaskEdges(db)} :: (a, b) in TaskEdges(db) ==>
        && b in db.tasks && db.tasks[a].project == db.tasks[b].project
        && (db.tasks[a].status == Leased || db.tasks[a].status == Completed ==> db.tasks[b].status == Completed)
  {
    hide TasksOk, Apply, Acyclic;
    HistoryKeepsTasks(history);
    var db := After(history);
    TaskGraphAcyclic(db);
    forall a: Id, b: Id | (a, b) in TaskEdges(db)
      ensures b in db.tasks && db.tasks[a].project == db.tasks[b].project
      ensures db.tasks[a].status == Leased || db.tasks[a].status == Completed ==> db.tasks[b].status == Completed
    {
      EdgeDescends(db, a, b);
    }
  }

  // ---------------------------------------------------------------- terminal tasks

  lemma ExecuteKeepsFinished(db: Db, r: Request, now: int, seen: Sighting, id: Id)
    requires Minted(db) && Execute(db, r, now, seen).Commit?
    requires id in db.tasks && !Active(db.tasks[id])
    ensures id in Execute(db, r, now, seen).db.tasks && Execute(db, r, now, seen).db.tasks[id] == db.tasks[id]
  {
    hide NormalizeAll, SameActiveObjective, DependencyError, UnfinishedError, CollidesWith, ProofsError;
    hide AddRecordTx, AddEvidenceTx, AssertClaimTx;
    ExecuteFrame(db, r, now, seen);
    match r
    case CreateTask(_, _, _, _, _) =>
    case ClaimTask(_, _, _) =>
    case CompleteTask(_, _, _, _) =>
    case CancelTask(_, _) =>
    case _ =>
  }

  lemma CallKeepsFinished(db: Db, key: Key, r: Request, now: int, seen: Sighting, id: Id)
    requires Minted(db) && id in db.tasks && !Active(db.tasks[id])
    ensures var d := CallTx(db, key, r, now, seen).0; id in d.tasks && d.tasks[id] == db.tasks[id]
  {
    hide Execute, WellFormed, Lookup;
    if Execute(db, r, now, seen).Commit? { ExecuteKeepsFinished(db, r, now, seen, id); }
  }

  /** A completed or cancelled task never changes again, whatever command comes. */
  lemma FinishedTasksAreFinal(db: Db, c: Timed, id: Id)
    requires Minted(db) && id in db.tasks && !Active(db.tasks[id])
    ensures id in Apply(db, c).tasks && Apply(db, c).tasks[id] == db.tasks[id]
  {
    hide CallTx, StartTx, FinishTx, ReconcileTx, AdminTx;
    match c.command
    case Call(key, r, seen) => CallKeepsFinished(db, key, r, c.now, seen, id);
    case Start(spec) => StartFrame(db, spec, c.now);
    case FinishWith(f) => FinishFrame(db, f, c.now);
    case Reconcile(staleAfter) => ReconcileFrame(db, staleAfter, c.now);
    case _ => AdminFrame(db, c.command);
  }

  // ---------------------------------------------------------------- leases

  lemma ClashSymmetric(left: seq<string>, right: seq<string>)
    requires ScopesClash(left, right)
    ensures ScopesClash(right, left)
  {
    hide Normalize;
    var i, j :| 0 <= i < |left| && 0 <= j < |right| && Overlap(left[i], right[j]) != Some(false);
    assert Overlap(right[j], left[i]) == Overlap(left[i], right[j]);
  }

  /** Two tasks of one project both under an unexpired lease. */
  predicate BothLive(s: Task, t: Task, now: int) {
    s.project == t.project && Live(s, now) && Live(t, now)
  }

  /** No two live leases of one project have clashing scopes. */
  ghost predicate LeasesApart(tasks: map<Id, Task>, now: int) {
    forall a, b :: a in tasks && b in tasks && a != b && BothLive(tasks[a], tasks[b], now)
      ==> !ScopesClash(tasks[a].scopes, tasks[b].scopes)
  }

  /** Time passing only ends leases. */
  lemma LeasesApartLater(tasks: map<Id, Task>, now: int, later: int)
    requires LeasesApart(tasks, now) && now <= later
    ensures LeasesApart(tasks, later)
  {
    forall a, b | a in tasks && b in tasks && a != b && BothLive(tasks[a], tasks[b], later)
      ensures !ScopesClash(tasks[a].scopes, tasks[b].scopes)
    {
      assert BothLive(tasks[a], tasks[b], now);
    }
  }

  /** Granting a lease that collides with no live one. */
  lemma GrantKeepsApart(tasks: map<Id, Task>, id: Id, t: Task, now: int)
    requires LeasesApart(tasks, now) && id in tasks && (forall x :: x in tasks ==> tasks[x].id == x)
    requires t.id == id && t.project == tasks[id].project && t.scopes == tasks[id].scopes
    requires !(exists x :: x in tasks && CollidesWith(tasks[id], tasks[x], now))
    ensures LeasesApart(tasks[id := t], now)
  {
    var after := tasks[id := t];
    forall a, b | a in after && b in after && a != b && BothLive(after[a], after[b], now)
      ensures !ScopesClash(after[a].scopes, after[b].scopes)
    {
      if a == id {
        assert !CollidesWith(tasks[id], tasks[b], now);
      } else if b == id {
        assert !CollidesWith(tasks[id], tasks[a], now);
        if ScopesClash(after[a].scopes, after[b].scopes) { ClashSymmetric(after[a].scopes, after[b].scopes); }
      }
    }
  }

  /** Writing a task row that holds no live lease. */
  lemma ReleaseKeepsApart(tasks: map<Id, Task>, id: Id, t: Task, now: int)
    requires LeasesApart(tasks, now) && !Live(t, now)
    ensures LeasesApart(tasks[id := t], now)
  {
    var after := tasks[id := t];
    forall a, b | a in after && b in after && a != b && BothLive(after[a], after[b], now)
      ensures !ScopesClash(after[a].scopes, after[b].scopes)
    {
      assert a != id && b != id;
    }
  }

  lemma ExecuteKeepsLeases(db: Db, r: Request, now: int, seen: Sighting)
    requires Minted(db) && TasksOk(db) && LeasesApart(db.tasks, now) && Execute(db, r, now, seen).Commit?
    ensures LeasesApart(Execute(db, r, now, seen).db.tasks, now)
  {
    hide NormalizeAll, SameActiveObjective, DependencyError, UnfinishedError, CollidesWith, ProofsError;
    hide AddRecordTx, AddEvidenceTx, AssertClaimTx, ScopesClash, LeasesApart, TaskOk;
    ExecuteFrame(db, r, now, seen);
    var d := Execute(db, r, now, seen).db;
    match r
    case CreateTask(_, _, _, _, _) => ReleaseKeepsApart(db.tasks, db.nextId, d.tasks[db.nextId], now);
    case ClaimTask(id, _, _) =>
      forall x | x in db.tasks ensures db.tasks[x].id == x { TaskIdOk(db, x); }
      GrantKeepsApart(db.tasks, id, d.tasks[id], now);
    case CompleteTask(id, _, _, _) => ReleaseKeepsApart(db.tasks, id, d.tasks[id], now);
    case CancelTask(id, _) => ReleaseKeepsApart(db.tasks, id, d.tasks[id], now);
    case _ =>
  }

  lemma TaskIdOk(db: Db, x: Id)
    requires TasksOk(db) && x in db.tasks
    ensures db.tasks[x].id == x
  {
    assert TaskOk(db.tasks, x);
  }

  lemma CallKeepsLeases(db: Db, key: Key, r: Request, now: int, seen: Sighting)
    requires Minted(db) && TasksOk(db) && LeasesApart(db.tasks, now)
    ensures LeasesApart(CallTx(db, key, r, now, seen).0.tasks, now)
  {
    hide Execute, WellFormed, Lookup, LeasesApart;
    if Execute(db, r, now, seen).Commit? { ExecuteKeepsLeases(db, r, now, seen); }
  }

  lemma LeasesKept(db: Db, c: Timed)
    requires Minted(db) && TasksOk(db) && LeasesApart(db.tasks, c.now)
    ensures LeasesApart(Apply(db, c).tasks, c.now)
  {
    hide CallTx, StartTx, FinishTx, ReconcileTx, AdminTx, LeasesApart, TasksOk, Minted;
    match c.command
    case Call(key, r, seen) => CallKeepsLeases(db, key, r, c.now, seen);
    case Start(spec) => StartFrame(db, spec, c.now);
    case FinishWith(f) => FinishFrame(db, f, c.now);
    case Reconcile(staleAfter) => ReconcileFrame(db, staleAfter, c.now);
    case _ => AdminFrame(db, c.command);
  }

  /** The clock never goes back. */
  ghost predicate Chronological(history: seq<Timed>) {
    forall i, j :: 0 <= i < j < |history| ==> history[i].now <= history[j].now
  }

  lemma {:induction false} HistoryKeepsLeases(history: seq<Timed>, now: int)
    requires Chronological(history) && (history != [] ==> history[|history| - 1].now <= now)
    ensures LeasesApart(After(history).tasks, now)
  {
    hide Apply;
    if history != [] {
      var front, last := history[..|history| - 1], history[|history| - 1];
      HistoryKeepsLeases(front, last.now);
      HistoryKeepsTasks(front);
      LeasesKept(After(front), last);
      LeasesApartLater(After(history).tasks, last.now, now);
    }
  }

  lemma {:induction false} FirstUnfinished(db: Db, dependsOn: seq<Id>, n: nat)
    requires n <= |dependsOn|
    requires forall d :: d in dependsOn ==> d in db.tasks && db.tasks[d].status == Completed
    ensures UnfinishedError(db, dependsOn, n).None?
    decreases n
  {
    if n > 0 { FirstUnfinished(db, dependsOn, n - 1); }
  }

  /** A workspace path is under a task's write scope. */
  ghost predicate Covers(t: Task, path: seq<string>) {
    exists i :: 0 <= i < |t.scopes| && Normalize(t.scopes[i]).Some? && Under(path, t.scopes[i])
  }

  /** Some workspace path is under both tasks' write scopes. */
  ghost predicate ShareAPath(s: Task, t: Task) {
    exists path :: Covers(s, path) && Covers(t, path)
  }

  ghost predicate NormalScopes(t: Task) {
    forall i :: 0 <= i < |t.scopes| ==> Normalize(t.scopes[i]) == Some(t.scopes[i])
  }

  /** The text test over two scope lists finds a clash exactly when some path is under both tasks. */
  lemma ClashIffShared(s: Task, t: Task)
    requires NormalScopes(s) && NormalScopes(t)
    ensures ScopesClash(s.scopes, t.scopes) <==> ShareAPath(s, t)
  {
    hide Normalize, Overlap, Under;
    if ScopesClash(s.scopes, t.scopes) {
      var i, j :| 0 <= i < |s.scopes| && 0 <= j < |t.scopes| && Overlap(s.scopes[i], t.scopes[j]) != Some(false);
      OverlapMeansSharedSubtree(s.scopes[i], t.scopes[j]);
      var path :| Under(path, s.scopes[i]) && Under(path, t.scopes[j]);
      assert Covers(s, path) && Covers(t, path);
    }
    if path :| Covers(s, path) && Covers(t, path) {
      var i :| 0 <= i < |s.scopes| && Normalize(s.scopes[i]).Some? && Under(path, s.scopes[i]);
      var j :| 0 <= j < |t.scopes| && Normalize(t.scopes[j]).Some? && Under(path, t.scopes[j]);
      OverlapMeansSharedSubtree(s.scopes[i], t.scopes[j]);
    }
  }

  /** A task of the same project, under an unexpired lease, whose scopes share a path. */
  ghost predicate Blocks(other: Task, t: Task, now: int) {
    && other.project == t.project && other.status == Leased && other.expires.Some? && other.expires.value > now
    && ShareAPath(t, other)
  }

  /** Nothing stands in the way of a lease: the task is open and unleased, its dependencies are completed,
      and no path it writes is under another task of its project with a live lease. */
  ghost predicate Claimable(db: Db, id: Id, now: int) {
    && id in db.tasks
    && (db.tasks[id].status == Queued
        || (db.tasks[id].status == Leased && db.tasks[id].expires.Some? && db.tasks[id].expires.value <= now))
    && (forall d :: d in db.tasks[id].dependsOn ==> d in db.tasks && db.tasks[d].status == Completed)
    && forall x :: x in db.tasks && x != id ==> !Blocks(db.tasks[x], db.tasks[id], now)
  }

  /** The worker holds the task at every moment before the deadline, and at none after. */
  ghost predicate LeasedTo(t: Task, worker: string, deadline: int) {
    t.owner == Some(worker) && forall at :: Live(t, at) <==> at < deadline
  }

  /** A claim goes through exactly when the task is claimable, and gives the worker the task
      from now until just before the lease runs out. */
  lemma {:induction false} ClaimExactly(history: seq<Timed>, r: Request, now: int)
    requires r.ClaimTask? && r.leaseSeconds > 0
    ensures var db := After(history); var v := ClaimTaskTx(db, r, now);
      && (v.Commit? <==> Claimable(db, r.task, now))
      && (v.Commit? ==> r.task in v.db.tasks && LeasedTo(v.db.tasks[r.task], r.worker, now + r.leaseSeconds * 1000))
  {
    hide After, ScopesClash, ShareAPath, UnfinishedError;
    HistoryKeepsTasks(history);
    var db := After(history);
    if r.task in db.tasks {
      var t := db.tasks[r.task];
      LeasedExpires(db, r.task);
      if UnfinishedError(db, t.dependsOn, |t.dependsOn|).None? {
        DependenciesCompleted(db, t.dependsOn, |t.dependsOn|);
      }
      if forall d :: d in t.dependsOn ==> d in db.tasks && db.tasks[d].status == Completed {
        FirstUnfinished(db, t.dependsOn, |t.dependsOn|);
      }
      ClaimableScopes(db, r.task, now);
    }
  }

  lemma LeasedExpires(db: Db, id: Id)
    requires TasksOk(db) && id in db.tasks
    ensures db.tasks[id].status == Leased <==> db.tasks[id].expires.Some?
  {
    assert TaskOk(db.tasks, id);
  }

  lemma ClaimableScopes(db: Db, id: Id, now: int)
    requires TasksOk(db) && id in db.tasks
    ensures (forall x :: x in db.tasks && x != id ==> !Blocks(db.tasks[x], db.tasks[id], now))
      <==> !exists x :: x in db.tasks && CollidesWith(db.tasks[id], db.tasks[x], now)
  {
    hide ScopesClash, ShareAPath, Normalize;
    forall x | x in db.tasks
      ensures db.tasks[x].id == x && (ScopesClash(db.tasks[id].scopes, db.tasks[x].scopes) <==> ShareAPath(db.tasks[id], db.tasks[x]))
    {
      assert TaskOk(db.tasks, x) && TaskOk(db.tasks, id);
      ClashIffShared(db.tasks[id], db.tasks[x]);
    }
    hide TasksOk;
    if x :| x in db.tasks && x != id && Blocks(db.tasks[x], db.tasks[id], now) {
      assert CollidesWith(db.tasks[id], db.tasks[x], now);
    }
    if x :| x in db.tasks && CollidesWith(db.tasks[id], db.tasks[x], now) {
      assert Blocks(db.tasks[x], db.tasks[id], now);
    }
  }

  /** Lease exclusion: after any history under a clock that never goes back, at any moment since,
      no workspace path lies under the scopes of two distinct tasks of one project that both hold a live lease. */
  lemma {:induction false} LeaseExclusion(history: seq<Timed>, now: int, a: Id, b: Id, path: seq<string>)
    requires Chronological(history) && (history != [] ==> history[|history| - 1].now <= now)
    requires a in After(history).tasks && b in After(history).tasks && a != b
    requires After(history).tasks[a].project == After(history).tasks[b].project
    requires Live(After(history).tasks[a], now) && Live(After(history).tasks[b], now)
    ensures !(Covers(After(history).tasks[a], path) && Covers(After(history).tasks[b], path))
  {
    hide Apply, Normalize, Overlap;
    HistoryKeepsLeases(history, now);
    var s, t := After(history).tasks[a], After(history).tasks[b];
    if Covers(s, path) && Covers(t, path) {
      var i :| 0 <= i < |s.scopes| && Normalize(s.scopes[i]).Some? && Under(path, s.scopes[i]);
      var j :| 0 <= j < |t.scopes| && Normalize(t.scopes[j]).Some? && Under(path, t.scopes[j]);
      OverlapMeansSharedSubtree(s.scopes[i], t.scopes[j]);
      assert false;
    }
  }
}
