/** The idempotent log: an exact retry at any later time is a no-op that returns the stored result,
    a key never means two things, and no append ever repeats a key. */
module StoreIdempotency {
  import opened Ordering
  import opened WriteScope
  import opened StoreModel
  import opened StoreFrames
  import opened StoreTasks
  import opened StoreExecutions

  // ---------------------------------------------------------------- lookups and log growth

  lemma {:induction false} LookupFinds(events: seq<Event>, key: Key)
    ensures Lookup(events, key).None? <==> forall i :: 0 <= i < |events| ==> events[i].key != key
    ensures Lookup(events, key).Some? ==> Lookup(events, key).value in events && Lookup(events, key).value.key == key
  {
    if events != [] {
      var front := events[..|events| - 1];
      LookupFinds(front, key);
      if Lookup(front, key).Some? { assert Lookup(front, key).value in events; }
    }
  }

  /** The first event under a key stays the one found, however the log grows. */
  lemma {:induction false} LookupKept(events: seq<Event>, more: seq<Event>, key: Key)
    requires events <= more && Lookup(events, key).Some?
    ensures Lookup(more, key) == Lookup(events, key)
    decreases |more|
  {
    if |more| > |events| {
      LookupKept(events, more[..|more| - 1], key);
    } else {
      assert more == events;
    }
  }

  lemma LogGrows(db: Db, c: Timed)
    ensures db.events <= Apply(db, c).events
  {
    hide CallTx, StartTx, FinishTx, ReconcileTx, AdminTx;
    match c.command
    case Call(key, r, seen) => CallFrame(db, key, r, c.now, seen);
    case Start(spec) => StartFrame(db, spec, c.now);
    case FinishWith(f) => FinishFrame(db, f, c.now);
    case Reconcile(staleAfter) => ReconcileFrame(db, staleAfter, c.now);
    case _ => AdminFrame(db, c.command);
  }

  lemma {:induction false} HistoryGrowsLog(history: seq<Timed>, later: seq<Timed>)
    ensures After(history).events <= After(history + later).events
    decreases |later|
  {
    hide Apply;
    if later == [] {
      assert history + later == history;
    } else {
      var front, last := later[..|later| - 1], later[|later| - 1];
      HistoryGrowsLog(history, front);
      LogGrows(After(history + front), last);
      assert (history + later)[..|history + later| - 1] == history + front;
    }
  }

  // ---------------------------------------------------------------- retries

  /** A call that went through leaves its result under its key. */
  lemma {:induction false} CommittedIsFound(db: Db, key: Key, r: Request, now: int, seen: Sighting)
    requires CallTx(db, key, r, now, seen).1.Done? && !CallTx(db, key, r, now, seen).1.duplicate
    ensures var d := CallTx(db, key, r, now, seen).0; var o := CallTx(db, key, r, now, seen).1.outcome;
      && WellFormed(key, r)
      && Lookup(d.events, key).Some? && Lookup(d.events, key).value.request == r && Lookup(d.events, key).value.outcome == o
  {
    hide Execute, WellFormed;
    var v := Execute(db, r, now, seen);
    assert v.Commit? && Lookup(db.events, key).None?;
    ExecuteFrame(db, r, now, seen);
    var d := CallTx(db, key, r, now, seen).0;
    assert d.events == db.events + [Event(key, v.stream, r, v.outcome, now)];
    assert d.events[..|d.events| - 1] == db.events;
  }

  /** Whatever has happened since a call went through, repeating it exactly returns the result it had
      and changes nothing; any other request under its key is refused and changes nothing. */
  lemma {:induction false} RetryIsNoOp(history: seq<Timed>, key: Key, r: Request, now: int, seen: Sighting, later: seq<Timed>,
                    again: Request, at: int, seenLater: Sighting)
    requires CallTx(After(history), key, r, now, seen).1.Done? && !CallTx(After(history), key, r, now, seen).1.duplicate
    ensures var outcome := CallTx(After(history), key, r, now, seen).1.outcome;
      var db := After(history + [Timed(Call(key, r, seen), now)] + later);
      CallTx(db, key, again, at, seenLater)
        == (db, if again == r then Done(outcome, true) else Refused(if WellFormed(key, again) then Conflict else Invalid))
  {
    hide Execute, WellFormed, After;
    var call := Timed(Call(key, r, seen), now);
    CommittedIsFound(After(history), key, r, now, seen);
    AfterSnoc(history, call);
    HistoryGrowsLog(history + [call], later);
    LookupKept(After(history + [call]).events, After(history + [call] + later).events, key);
  }

  lemma {:induction false} AfterSnoc(history: seq<Timed>, c: Timed)
    ensures After(history + [c]) == Apply(After(history), c)
  {
    hide Apply;
    assert (history + [c])[..|history|] == history;
  }

  // ---------------------------------------------------------------- keys are unique

  /** An internal key is used only once its run exists, and a settling key only once the run has settled. */
  predicate KeyUsable(runs: map<Id, Run>, key: Key) {
    match key
    case Caller(_) => true
    case StartKey(r) => r in runs
    case FinishKey(r) => r in runs && runs[r].status != Running
    case InterruptKey(r) => r in runs && runs[r].status != Running
  }

  ghost predicate KeysOk(events: seq<Event>, runs: map<Id, Run>) {
    && (forall i, j :: 0 <= i < j < |events| ==> events[i].key != events[j].key)
    && (forall i :: 0 <= i < |events| ==> KeyUsable(runs, events[i].key))
  }

  /** Appending under a key that was not usable before. */
  lemma FreshKeyOk(events: seq<Event>, runs: map<Id, Run>, e: Event, after: map<Id, Run>)
    requires KeysOk(events, runs) && KeyUsable(after, e.key)
    requires forall i :: 0 <= i < |events| ==> events[i].key != e.key
    requires forall r :: r in runs ==> r in after && (runs[r].status != Running ==> after[r].status != Running)
    ensures KeysOk(events + [e], after)
  {
  }

  lemma CallKeepsKeys(db: Db, key: Key, r: Request, now: int, seen: Sighting)
    requires KeysOk(db.events, db.runs)
    ensures var d := CallTx(db, key, r, now, seen).0; KeysOk(d.events, d.runs)
  {
    hide Execute, Lookup, KeysOk;
    var v := Execute(db, r, now, seen);
    if WellFormed(key, r) && Lookup(db.events, key).None? && v.Commit? {
      ExecuteFrame(db, r, now, seen);
      LookupFinds(db.events, key);
      FreshKeyOk(db.events, db.runs, Event(key, v.stream, r, v.outcome, now), db.runs);
    }
  }

  lemma StartKeepsKeys(db: Db, spec: Id, now: int)
    requires KeysOk(db.events, db.runs) && Minted(db)
    ensures var d := StartTx(db, spec, now).0; KeysOk(d.events, d.runs)
  {
    hide HasRunning, LatestRun, SessionError, KeysOk;
    var d := StartTx(db, spec, now).0;
    if d != db {
      assert d == db.(runs := db.runs[db.nextId := d.runs[db.nextId]], events := d.events, nextId := db.nextId + 1);
      UnusableIsFresh(db, StartKey(db.nextId));
      FreshKeyOk(db.events, db.runs, d.events[|db.events|], d.runs);
    }
  }

  lemma UnusableIsFresh(db: Db, key: Key)
    requires KeysOk(db.events, db.runs) && !KeyUsable(db.runs, key)
    ensures forall i :: 0 <= i < |db.events| ==> db.events[i].key != key
  {
  }

  lemma FinishKeepsKeys(db: Db, f: Finish, now: int)
    requires KeysOk(db.events, db.runs)
    ensures var d := FinishTx(db, f, now).0; KeysOk(d.events, d.runs)
  {
    hide SuccessSupported, ArtifactsWithinLimits, DistinctPaths, Blank, KeysOk;
    var d := FinishTx(db, f, now).0;
    if d != db {
      assert d == db.(runs := db.runs[f.run := d.runs[f.run]], receipts := d.receipts, claims := d.claims,
                      events := d.events, nextId := db.nextId + 2);
      UnusableIsFresh(db, FinishKey(f.run));
      FreshKeyOk(db.events, db.runs, d.events[|db.events|], d.runs);
    }
  }

  lemma {:induction false} InterruptsKeepKeys(db: Db, n: nat, staleAfter: nat, cutoff: int, now: int)
    requires KeysOk(db.events, db.runs)
    ensures var d := InterruptBelow(db, n, staleAfter, cutoff, now); KeysOk(d.events, d.runs)
    decreases n
  {
    hide InterruptOne, KeysOk;
    if n > 0 {
      InterruptsKeepKeys(db, n - 1, staleAfter, cutoff, now);
      InterruptKeepsKeys(InterruptBelow(db, n - 1, staleAfter, cutoff, now), n - 1, staleAfter, cutoff, now);
    }
  }

  lemma InterruptKeepsKeys(db: Db, id: Id, staleAfter: nat, cutoff: int, now: int)
    requires KeysOk(db.events, db.runs)
    ensures var d := InterruptOne(db, id, staleAfter, cutoff, now); KeysOk(d.events, d.runs)
  {
    hide KeysOk;
    var d := InterruptOne(db, id, staleAfter, cutoff, now);
    if d != db {
      assert d == db.(runs := db.runs[id := d.runs[id]], events := d.events);
      UnusableIsFresh(db, InterruptKey(id));
      FreshKeyOk(db.events, db.runs, d.events[|db.events|], d.runs);
    }
  }

  lemma KeysKept(db: Db, c: Timed)
    requires KeysOk(db.events, db.runs) && Minted(db)
    ensures var d := Apply(db, c); KeysOk(d.events, d.runs)
  {
    hide CallTx, StartTx, FinishTx, InterruptBelow, AdminTx, KeysOk, Minted;
    match c.command
    case Call(key, r, seen) => CallKeepsKeys(db, key, r, c.now, seen);
    case Start(spec) => StartKeepsKeys(db, spec, c.now);
    case FinishWith(f) => FinishKeepsKeys(db, f, c.now);
    case Reconcile(staleAfter) => InterruptsKeepKeys(db, db.nextId, staleAfter, c.now - staleAfter * 1000, c.now);
    case _ => AdminFrame(db, c.command);
  }

  /** The unique index on event keys is never violated: no two events of any history share a key. */
  lemma {:induction false} KeysAreUnique(history: seq<Timed>)
    ensures KeysOk(After(history).events, After(history).runs)
  {
    hide Apply;
    if history != [] {
      var front := history[..|history| - 1];
      KeysAreUnique(front);
      HistoryKeepsTasks(front);
      KeysKept(After(front), history[|front|]);
    }
  }
}
