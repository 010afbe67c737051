/** Every step of the assessment protocol keeps its invariant. */
module ProtocolInvariant {
  import opened Lifecycle
  import opened Protocol
  import opened RunHistory
  import opened Store
  import opened Wrappers
  import Bytes
  import Recheck

  // ---------------------------------------------------------------- one stage changes

  /** A stage row that may replace row `n` of a running manifest. */
  predicate Replaces(m: Manifest, n: nat, row: StageRow, now: Time, h: History)
    requires n < |m.stages|
  {
    && StageChecks(row) && row.request == m.stages[n].request
    && (row.startedAt.Some? ==> row.startedAt.value <= now)
    && StageRuns(row, h)
  }

  lemma StageReplaced(m: Manifest, n: nat, row: StageRow, now: Time, tokens: set<Uuid>, h: History)
    requires Fits(m, now, tokens, h) && m.status == Running && n < |m.stages| && Replaces(m, n, row, now, h)
    requires (forall i | 0 <= i < n :: Done(m.stages[i])) && forall i | n < i < |m.stages| :: m.stages[i].status == StagePending
    ensures Fits(m.(stages := m.stages[n := row]), now, tokens, h)
  {
  }

  /** Manifests with the same stages in the same places reserve the same runs. */
  predicate SamePlans(before: map<Uuid, Manifest>, after: map<Uuid, Manifest>) {
    && before.Keys == after.Keys
    && forall id | id in before ::
         && |before[id].stages| == |after[id].stages|
         && forall i | 0 <= i < |before[id].stages| :: before[id].stages[i].request == after[id].stages[i].request
  }

  lemma PlansKept(before: map<Uuid, Manifest>, after: map<Uuid, Manifest>)
    requires PlannedOnce(before) && SamePlans(before, after)
    ensures PlannedOnce(after)
  {
  }

  /** The worker replaces the row of its current stage and moves on. */
  lemma WorkerReplaces(s: Sys, db: Db, row: StageRow, next: nat, phase: Phase)
    requires Inv(s) && s.worker.At? && HasStage(s.db, Here(s.worker))
    requires PutStage(s.db, Here(s.worker), row) == Success(db)
    requires Replaces(s.db.manifests[s.worker.assessment], s.worker.next, row, s.db.clock, s.db.history)
    requires Position(db.manifests[s.worker.assessment].stages, next, phase)
    requires ScanKnown(db.manifests[s.worker.assessment], next, phase, db.history)
    ensures Inv(Sys(db, At(s.worker.assessment, s.worker.token, next, phase), s.tokens))
  {
    var id, n := s.worker.assessment, s.worker.next;
    var m := s.db.manifests[id];
    StageReplaced(m, n, row, s.db.clock, s.tokens, s.db.history);
    OthersFit(s, db, id);
    PlansKept(s.db.manifests, db.manifests);
    StillOneRunning(s.db, db, id);
  }

  /** Every manifest fits if the one that changed does. */
  lemma OthersFit(s: Sys, db: Db, id: Uuid)
    requires AllFit(s) && id in db.manifests && db.manifests.Keys == s.db.manifests.Keys
    requires db.history == s.db.history && db.clock == s.db.clock
    requires Fits(db.manifests[id], db.clock, s.tokens, db.history)
    requires forall other | other in db.manifests && other != id :: db.manifests[other] == s.db.manifests[other]
    ensures forall worker :: AllFit(Sys(db, worker, s.tokens))
  {
  }

  lemma StillOneRunning(before: Db, after: Db, id: Uuid)
    requires OneRunning(before) && after.manifests.Keys == before.manifests.Keys
    requires forall other | other in after.manifests :: after.manifests[other].status == before.manifests[other].status
    ensures OneRunning(after)
  {
  }

  /** Nothing depends on which stages have reports. */
  lemma ReportsIrrelevant(s: Sys, reports: set<StageId>)
    requires Inv(s)
    ensures Inv(s.(db := s.db.(reports := reports)))
  {
  }

  lemma Skips(s: Sys, db: Db, next: nat, phase: Phase)
    requires Inv(s) && s.worker.At? && StageStep(s, SkipNext, db, next, phase)
    ensures Inv(Sys(db, At(s.worker.assessment, s.worker.token, next, phase), s.tokens))
  {
    var here := Here(s.worker);
    var x := StageAt(s.db, here);
    assert StageRuns(x, s.db.history);
    var row := x.(status := StageSkipped, finishedAt := Some(s.db.clock), reason := Some(Skipped(x.request.skipReason.value)));
    WorkerReplaces(s, db, row, next, phase);
  }

  lemma Starts(s: Sys, db: Db, next: nat, phase: Phase)
    requires Inv(s) && s.worker.At? && StageStep(s, StartNext, db, next, phase)
    ensures Inv(Sys(db, At(s.worker.assessment, s.worker.token, next, phase), s.tokens))
  {
    var here := Here(s.worker);
    var row := StageAt(s.db, here).(status := StageRunning, startedAt := Some(s.db.clock));
    WorkerReplaces(s, db, row, next, phase);
  }

  lemma Finishes(
    s: Sys, db: Db, status: StageStatus, reason: Option<Note>, resultRun: Option<Uuid>, next: nat, phase: Phase)
    requires Inv(s) && s.worker.At? && s.worker.phase.Inside?
    requires FinishStage(s.db, Here(s.worker), s.worker.token, status, reason, resultRun) == Success(db)
    requires status == StageCompleted ==>
               s.worker.phase.scanned && resultRun == s.db.manifests[s.worker.assessment].stages[s.worker.next].request.plannedRun
    requires if status == StageInterrupted then next == s.worker.next && phase == Stopped
             else next == s.worker.next + 1 && phase == Between
    ensures Inv(Sys(db, At(s.worker.assessment, s.worker.token, next, phase), s.tokens))
  {
    var here := Here(s.worker);
    var x := StageAt(s.db, here);
    assert StageRuns(x, s.db.history) && StageChecks(x);
    var row := x.(status := status, finishedAt := Some(s.db.clock), reason := reason, resultRun := resultRun);
    WorkerReplaces(s, db, row, next, phase);
  }

  lemma Persists(s: Sys, db: Db, report: Recheck.RecheckReport, failed: bool, next: nat, phase: Phase)
    requires Inv(s) && s.worker.At? && StageStep(s, PersistReport(report, failed), db, next, phase)
    ensures Inv(Sys(db, At(s.worker.assessment, s.worker.token, next, phase), s.tokens))
  {
    var here := Here(s.worker);
    var r := s.(db := s.db.(reports := s.db.reports + {here}));
    ReportsIrrelevant(s, s.db.reports + {here});
    var x := StageAt(s.db, here);
    assert StageChecks(x) && x.request.plannedRun.None?;
    var row := x.(status := if failed then StageFailed else StageCompleted, finishedAt := Some(s.db.clock),
                  reason := if failed then Some(IncompleteRecheck) else None);
    WorkerReplaces(r, db, row, next, phase);
  }

  // ---------------------------------------------------------------- runs change

  /** The runs reserved by stages that have not started, or never will, still do not exist. */
  predicate Unbegun(m: Manifest, h: History) {
    forall i | 0 <= i < |m.stages| && m.stages[i].request.plannedRun.Some?
               && (m.stages[i].status == StagePending || m.stages[i].status == StageSkipped) ::
      m.stages[i].request.plannedRun.value !in h.runs
  }

  lemma RunsMove(m: Manifest, h: History, later: History)
    requires RunsFit(m, h) && Extends(h, later) && Unbegun(m, later)
    ensures RunsFit(m, later)
  {
    forall i | 0 <= i < |m.stages|
      ensures StageRuns(m.stages[i], later)
    {
      var x := m.stages[i];
      assert StageRuns(x, h);
      if x.request.plannedRun.Some? && x.status == StageCompleted {
        assert RowKept(h.runs[x.request.plannedRun.value], later.runs[x.request.plannedRun.value]);
      }
    }
  }

  lemma ScanStillKnown(m: Manifest, next: nat, phase: Phase, h: History, later: History)
    requires ScanKnown(m, next, phase, h) && Extends(h, later)
    ensures ScanKnown(m, next, phase, later)
  {
    if phase == Inside(true) && next < |m.stages| {
      var run := m.stages[next].request.plannedRun.value;
      assert RowKept(h.runs[run], later.runs[run]);
    }
  }

  lemma HistoryMoves(s: Sys, later: History)
    requires Inv(s) && Extends(s.db.history, later) && Coherent(later)
    requires forall id | id in s.db.manifests :: Unbegun(s.db.manifests[id], later)
    ensures Inv(s.(db := s.db.(history := later)))
  {
    forall id | id in s.db.manifests
      ensures Fits(s.db.manifests[id], s.db.clock, s.tokens, later)
    {
      RunsMove(s.db.manifests[id], s.db.history, later);
    }
    if s.worker.At? {
      ScanStillKnown(s.db.manifests[s.worker.assessment], s.worker.next, s.worker.phase, s.db.history, later);
    }
  }

  lemma StillUnbegun(m: Manifest, h: History, later: History)
    requires RunsFit(m, h) && later.runs.Keys == h.runs.Keys
    ensures Unbegun(m, later)
  {
    forall i | 0 <= i < |m.stages| && m.stages[i].request.plannedRun.Some?
               && (m.stages[i].status == StagePending || m.stages[i].status == StageSkipped)
      ensures m.stages[i].request.plannedRun.value !in later.runs
    {
      assert StageRuns(m.stages[i], h);
      assert m.stages[i].request.plannedRun.value !in h.runs.Keys;
    }
  }

  lemma SameRunsMove(s: Sys, later: History)
    requires Inv(s) && Extends(s.db.history, later) && Coherent(later) && later.runs.Keys == s.db.history.runs.Keys
    ensures Inv(s.(db := s.db.(history := later)))
  {
    forall id | id in s.db.manifests
      ensures Unbegun(s.db.manifests[id], later)
    {
      StillUnbegun(s.db.manifests[id], s.db.history, later);
    }
    HistoryMoves(s, later);
  }

  lemma IngestRuns(h: History, now: Time, run: Uuid, raw: seq<Bytes.Byte>, stderr: seq<Bytes.Byte>, adapters: Adapters)
    ensures Ingest(h, now, run, raw, stderr, adapters).history.runs.Keys == h.runs.Keys
  {
  }

  lemma NewRunKeeps(h: History, now: Time, run: Uuid, start: RunStart)
    requires Coherent(h) && run !in h.runs
    ensures Coherent(NewRun(h, now, run, start)) && Extends(h, NewRun(h, now, run, start))
  {
    var later := NewRun(h, now, run, start);
    assert run !in h.outputs;
    forall r | r in later.runs
      ensures RunCoherent(later, r)
    {
      if r != run {
        assert RunCoherent(h, r);
      }
    }
  }

  lemma InPlanned(db: Db, id: StageId)
    requires HasStage(db, id) && StageAt(db, id).request.plannedRun.Some?
    ensures StageAt(db, id).request.plannedRun.value in Planned(db)
  {
  }

  /** A reserved run is begun only while the stage that reserved it is running. */
  lemma BegunRuns(db: Db, run: Uuid, start: RunStart, owner: Option<StageId>, id: StageId)
    requires PlannedOnce(db.manifests) && Begin(db, run, start, owner).Success? && run !in db.history.runs
    requires HasStage(db, id)
    ensures StageAt(db, id).request.plannedRun == Some(run) ==> owner == Some(id) && StageAt(db, id).status == StageRunning
  {
    if StageAt(db, id).request.plannedRun == Some(run) {
      InPlanned(db, id);
    }
  }

  lemma Begins(s: Sys, run: Uuid, start: RunStart, owner: Option<StageId>, db: Db)
    requires Inv(s) && Begin(s.db, run, start, owner) == Success(db)
    ensures Inv(s.(db := db))
  {
    if run !in s.db.history.runs {
      var later := NewRun(s.db.history, s.db.clock, run, start);
      NewRunKeeps(s.db.history, s.db.clock, run, start);
      forall id | id in s.db.manifests
        ensures Unbegun(s.db.manifests[id], later)
      {
        forall i | 0 <= i < |s.db.manifests[id].stages| && s.db.manifests[id].stages[i].request.plannedRun.Some?
                   && (s.db.manifests[id].stages[i].status == StagePending || s.db.manifests[id].stages[i].status == StageSkipped)
          ensures s.db.manifests[id].stages[i].request.plannedRun.value !in later.runs
        {
          var x := s.db.manifests[id].stages[i];
          assert StageRuns(x, s.db.history);
          BegunRuns(s.db, run, start, owner, StageId(id, i));
        }
      }
      HistoryMoves(s, later);
    }
  }

  // ---------------------------------------------------------------- manifests change

  lemma FreshPlans(s: Sys, id: Uuid, project: string, requests: seq<StageRequest>)
    requires PlannedOnce(s.db.manifests) && DistinctPlans(requests) && PlansOf(requests) * Planned(s.db) == {}
    requires id !in s.db.manifests
    ensures PlannedOnce(s.db.manifests[id := NewManifest(s.db, project, requests)])
  {
    var after := s.db.manifests[id := NewManifest(s.db, project, requests)];
    forall a, i, b, j |
      && a in after && 0 <= i < |after[a].stages| && b in after && 0 <= j < |after[b].stages|
      && after[a].stages[i].request.plannedRun.Some?
      && after[a].stages[i].request.plannedRun == after[b].stages[j].request.plannedRun
      ensures a == b && i == j
    {
      var run := after[a].stages[i].request.plannedRun.value;
      assert run in PlansOf(requests) * Planned(s.db) <==> run in PlansOf(requests) && run in Planned(s.db);
      if a != id {
        InPlanned(s.db, StageId(a, i));
      }
      if b != id {
        InPlanned(s.db, StageId(b, j));
      }
    }
  }

  lemma NewFits(s: Sys, project: string, requests: seq<StageRequest>)
    requires requests != [] && PlansOf(requests) * s.db.history.runs.Keys == {}
    ensures Fits(NewManifest(s.db, project, requests), s.db.clock, s.tokens, s.db.history)
  {
    var m := NewManifest(s.db, project, requests);
    forall i | 0 <= i < |m.stages|
      ensures StageRuns(m.stages[i], s.db.history) && StageChecks(m.stages[i])
    {
      var r := requests[i];
      if r.plannedRun.Some? {
        assert r.plannedRun.value in PlansOf(requests);
        assert r.plannedRun.value in PlansOf(requests) * s.db.history.runs.Keys <==> r.plannedRun.value in s.db.history.runs;
      }
    }
  }

  lemma Enqueues(s: Sys, id: Uuid, project: string, requests: seq<StageRequest>, authorized: StageRequest -> bool, db: Db)
    requires Inv(s) && Enqueue(s.db, id, project, requests, authorized) == Success(db)
    ensures Inv(s.(db := db))
  {
    FreshPlans(s, id, project, requests);
    NewFits(s, project, requests);
  }

  lemma Ticks(s: Sys, elapsed: nat)
    requires Inv(s)
    ensures Inv(s.(db := s.db.(clock := s.db.clock + elapsed)))
  {
    forall id | id in s.db.manifests
      ensures Fits(s.db.manifests[id], s.db.clock + elapsed, s.tokens, s.db.history)
    {
      assert Timely(s.db.manifests[id], s.db.clock);
    }
  }

  /** One manifest row replaced by another that plans the same stages. */
  lemma ManifestReplaced(s: Sys, id: Uuid, m: Manifest)
    requires Inv(s) && id in s.db.manifests && m.stages == s.db.manifests[id].stages
    requires Fits(m, s.db.clock, s.tokens, s.db.history)
    ensures var t := s.(db := s.db.(manifests := s.db.manifests[id := m])); AllFit(t) && PlannedOnce(t.db.manifests)
  {
    PlansKept(s.db.manifests, s.db.manifests[id := m]);
  }

  lemma ClaimedFits(m: Manifest, now: Time, token: Uuid, tokens: set<Uuid>, h: History)
    requires Fits(m, now, tokens, h) && m.status == Pending && token in tokens
    ensures Fits(m.(status := Running, token := Some(token), startedAt := Some(now)), now, tokens, h)
    ensures Position(m.stages, 0, Between)
  {
  }

  lemma Claims(s: Sys, id: Uuid, db: Db)
    requires Inv(s) && s.worker.Holding? && id in s.db.manifests && s.db.manifests[id].status == Pending
    requires Claim(s.db, s.worker.token, id) == Success(db)
    ensures Inv(Sys(db, At(id, s.worker.token, 0, Between), s.tokens))
  {
    var m := s.db.manifests[id];
    ClaimedFits(m, s.db.clock, s.worker.token, s.tokens, s.db.history);
    ManifestReplaced(s, id, m.(status := Running, token := Some(s.worker.token), startedAt := Some(s.db.clock)));
  }

  lemma OutcomeConsistent(m: Manifest, now: Time)
    requires Consistent(m) && m.status == Running && !StillOpen(m.stages)
    ensures var (status, reason) := Outcome(m.stages);
            var closed := m.(status := status, token := None, finishedAt := Some(now), reason := reason);
            ManifestChecks(closed) ==> Consistent(closed)
  {
    forall i | 0 <= i < |m.stages|
      ensures m.stages[i].status != StageRunning
      ensures !AnyIs(m.stages, StageInterrupted) ==> Done(m.stages[i])
      ensures !AnyIs(m.stages, StageInterrupted) && !AnyIs(m.stages, StageFailed) ==>
                m.stages[i].status == StageCompleted || m.stages[i].status == StageSkipped
    {
      assert AnyIs(m.stages, m.stages[i].status);
    }
  }

  function Closed(m: Manifest, now: Time): Manifest {
    var (status, reason) := Outcome(m.stages);
    m.(status := status, token := None, finishedAt := Some(now), reason := reason)
  }

  lemma ClosedFits(m: Manifest, now: Time, tokens: set<Uuid>, h: History)
    requires Fits(m, now, tokens, h) && m.status == Running && !StillOpen(m.stages)
    ensures Fits(Closed(m, now), now, tokens, h)
  {
    OutcomeConsistent(m, now);
  }

  lemma Closes(s: Sys, db: Db)
    requires Inv(s) && s.worker.At? && Finalize(s.db, s.worker.assessment, s.worker.token) == Success(db)
    ensures Inv(Sys(db, Idle, s.tokens))
  {
    var id := s.worker.assessment;
    var m := s.db.manifests[id];
    ClosedFits(m, s.db.clock, s.tokens, s.db.history);
    ManifestReplaced(s, id, Closed(m, s.db.clock));
  }

  // ---------------------------------------------------------------- reconciliation

  lemma AbandonedChecks(x: StageRow, now: Time)
    requires StageChecks(x) && (x.startedAt.Some? ==> x.startedAt.value <= now)
    ensures StageChecks(AbandonedStage(x, now)) && AbandonedStage(x, now).status != StageRunning
  {
  }

  /** Marking a running manifest interrupted violates no constraint, and keeps its shape. */
  lemma AbandonedFits(m: Manifest, now: Time, tokens: set<Uuid>, h: History)
    requires Fits(m, now, tokens, h)
    ensures Fits(Abandoned(m, now), now, tokens, h) && Abandoned(m, now).status != Running
  {
    if m.status == Running {
      var a := Abandoned(m, now);
      forall i | 0 <= i < |a.stages|
        ensures StageChecks(a.stages[i]) && a.stages[i].status != StageRunning && StageRuns(a.stages[i], h)
      {
        AbandonedChecks(m.stages[i], now);
        assert StageRuns(m.stages[i], h);
      }
    }
  }

  lemma InterruptKeeps(h: History, stale: set<Uuid>, now: Time)
    requires Coherent(h)
    ensures Coherent(InterruptRuns(h, stale, now)) && Extends(h, InterruptRuns(h, stale, now))
    ensures InterruptRuns(h, stale, now).runs.Keys == h.runs.Keys
  {
    var later := InterruptRuns(h, stale, now);
    forall r | r in h.runs
      ensures RunCoherent(later, r)
      ensures RowKept(h.runs[r], later.runs[r]) && ScanKept(h.scans[r], later.scans[r])
    {
      assert RunCoherent(h, r);
      SettledStory(h.runs[r], h.scans[r], now, RunInterrupted, Some(OwnerDisconnected));
    }
  }

  lemma Reconciles(s: Sys)
    requires Inv(s) && s.worker == Idle
    ensures Inv(s.(db := ReconcileStale(s.db))) && NoneRunning(ReconcileStale(s.db))
  {
    var h, now := s.db.history, s.db.clock;
    var later := InterruptRuns(h, StaleRuns(s.db), now);
    InterruptKeeps(h, StaleRuns(s.db), now);
    var u := s.(db := s.db.(history := later));
    SameRunsMove(s, later);
    forall id | id in u.db.manifests
      ensures Fits(Abandoned(u.db.manifests[id], now), now, s.tokens, later)
      ensures Abandoned(u.db.manifests[id], now).status != Running
    {
      AbandonedFits(u.db.manifests[id], now, s.tokens, later);
    }
    PlansKept(s.db.manifests, ReconcileStale(s.db).manifests);
  }

  lemma Acquires(s: Sys, token: Uuid)
    requires Inv(s) && s.worker == Idle
    ensures Inv(Sys(ReconcileStale(s.db), Holding(token), s.tokens + {token}))
  {
    Reconciles(s);
    var db := ReconcileStale(s.db);
    forall id | id in db.manifests
      ensures Fits(db.manifests[id], db.clock, s.tokens + {token}, db.history)
    {
      assert Fits(db.manifests[id], db.clock, s.tokens, db.history);
    }
  }

  // ---------------------------------------------------------------- every step

  /** A call with a token that no row carries is refused. */
  lemma Fenced(db: Db, call: Call, token: Uuid)
    requires Retired(db, token)
    ensures Perform(db, call, token).Failure?
  {
  }

  lemma OtherKeeps(s: Sys, what: Outside, db: Db)
    requires Inv(s) && OtherStep(s, what, db)
    ensures Inv(s.(db := db))
  {
    match what
    case Tick(elapsed) => Ticks(s, elapsed);
    case Enqueued(id, project, requests, authorized) => Enqueues(s, id, project, requests, authorized, db);
    case BeginRun(run, start, owner) => Begins(s, run, start, owner, db);
    case IngestRun(run, raw, stderr, adapters) =>
      IngestKeeps(s.db.history, s.db.clock, run, raw, stderr, adapters);
      IngestRuns(s.db.history, s.db.clock, run, raw, stderr, adapters);
      SameRunsMove(s, db.history);
    case AbandonRun(run, status, error) =>
      FinishKeeps(s.db.history, s.db.clock, run, status, error);
      SameRunsMove(s, db.history);
    case StaleCall(call, token) => Fenced(s.db, call, token);
  }

  lemma ScansReturn(
    s: Sys, raw: seq<Bytes.Byte>, stderr: seq<Bytes.Byte>, adapters: Adapters, db: Db, next: nat, phase: Phase)
    requires Inv(s) && s.worker.At? && StageStep(s, ScanReturns(raw, stderr, adapters), db, next, phase)
    ensures Inv(Sys(db, At(s.worker.assessment, s.worker.token, next, phase), s.tokens))
  {
    var run := StageAt(s.db, Here(s.worker)).request.plannedRun.value;
    IngestKeeps(s.db.history, s.db.clock, run, raw, stderr, adapters);
    IngestRuns(s.db.history, s.db.clock, run, raw, stderr, adapters);
    SameRunsMove(s, db.history);
  }

  lemma StageKeeps(s: Sys, move: Move, db: Db, next: nat, phase: Phase)
    requires Inv(s) && s.worker.At? && StageStep(s, move, db, next, phase)
    ensures Inv(Sys(db, At(s.worker.assessment, s.worker.token, next, phase), s.tokens))
  {
    match move
    case SkipNext => Skips(s, db, next, phase);
    case StartNext => Starts(s, db, next, phase);
    case ScanReturns(raw, stderr, adapters) => ScansReturn(s, raw, stderr, adapters, db, next, phase);
    case CompleteScan =>
      Finishes(s, db, StageCompleted, None, StageAt(s.db, Here(s.worker)).request.plannedRun, next, phase);
    case FailStage(resultRun) => Finishes(s, db, StageFailed, Some(ExecutionFailed), resultRun, next, phase);
    case StopStage(resultRun) => Finishes(s, db, StageInterrupted, Some(OperatorCancelled), resultRun, next, phase);
    case PersistReport(report, failed) => Persists(s, db, report, failed, next, phase);
  }

  /** The invariant holds initially, and every step keeps it. */
  lemma Invariant(s: Sys, e: Event, t: Sys)
    requires Inv(s) && Step(s, e, t)
    ensures Inv(t)
  {
    match e
    case Elsewhere(what) =>
      OtherKeeps(s, what, t.db);
      assert t == s.(db := t.db);
    case AtStage(move) =>
      StageKeeps(s, move, t.db, t.worker.next, t.worker.phase);
      assert t == Sys(t.db, At(s.worker.assessment, s.worker.token, t.worker.next, t.worker.phase), s.tokens);
    case Acquire(token) => Acquires(s, token);
    case ClaimNext(pick, id) => Claims(s, id, t.db);
    case Close => Closes(s, t.db);
    case Crash =>
  }

  lemma Initially()
    ensures Inv(START)
  {
  }
}
