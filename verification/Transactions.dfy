/**
  What the transactions that plan, claim, begin and reconcile work do, said of the rows: when
  each is refused, and what it leaves.
 */
module Transactions {
  import opened Lifecycle
  import opened RunHistory
  import opened Store
  import opened Wrappers
  import Recheck

  // ---------------------------------------------------------------- planning

  /** The two requests ask for the same work, whatever runs they reserve. */
  predicate SameWork(a: StageRequest, b: StageRequest) {
    a.kind == b.kind && a.work == b.work && a.target == b.target && a.skipReason == b.skipReason
  }

  /** Some stage of some manifest has reserved the run. */
  predicate Reserves(db: Db, run: Uuid) {
    exists id, i :: id in db.manifests && 0 <= i < |db.manifests[id].stages|
                    && db.manifests[id].stages[i].request.plannedRun == Some(run)
  }

  /** Nobody knows the runs that the requests reserve, and none is reserved twice. */
  predicate FreshRuns(db: Db, requests: seq<StageRequest>) {
    && (forall i | 0 <= i < |requests| && requests[i].plannedRun.Some? ::
          requests[i].plannedRun.value !in db.history.runs && !Reserves(db, requests[i].plannedRun.value))
    && (forall i, j | 0 <= i < j < |requests| && requests[i].plannedRun.Some? ::
          requests[i].plannedRun != requests[j].plannedRun)
  }

  /** A pending manifest with a pending stage for each request, in order. */
  predicate PlannedAs(m: Manifest, project: string, requests: seq<StageRequest>, now: Time) {
    && m.project == project && m.status == Pending && m.token.None? && m.createdAt == now
    && m.startedAt.None? && m.finishedAt.None? && m.reason.None? && |m.stages| == |requests|
    && forall i | 0 <= i < |requests| ::
         && m.stages[i].request == requests[i] && m.stages[i].status == StagePending && m.stages[i].resultRun.None?
         && m.stages[i].startedAt.None? && m.stages[i].finishedAt.None? && m.stages[i].reason.None?
  }

  lemma PlannedIs(db: Db, run: Uuid)
    ensures run in Planned(db) <==> Reserves(db, run)
  {
    if Reserves(db, run) {
      var id, i :| id in db.manifests && 0 <= i < |db.manifests[id].stages|
                   && db.manifests[id].stages[i].request.plannedRun == Some(run);
      assert db.manifests[id].stages[i].request.plannedRun.Some?;
    }
  }

  /** What a plan must be to be enqueued, exactly, and what it becomes; nothing else changes. */
  lemma EnqueueExactly(
    db: Db, id: Uuid, project: string, requests: seq<StageRequest>, authorized: StageRequest -> bool)
    ensures var r := Enqueue(db, id, project, requests, authorized);
            && (r.Success? <==>
                  && requests != [] && id !in db.manifests && FreshRuns(db, requests)
                  && (forall i | 0 <= i < |requests| :: authorized(requests[i]))
                  && (forall i, j | 0 <= i < j < |requests| :: !SameWork(requests[i], requests[j])))
            && (r.Success? ==>
                  && r.value == db.(manifests := r.value.manifests)
                  && r.value.manifests.Keys == db.manifests.Keys + {id}
                  && (forall other | other in db.manifests :: r.value.manifests[other] == db.manifests[other])
                  && PlannedAs(r.value.manifests[id], project, requests, db.clock))
  {
    forall run
      ensures run in Planned(db) <==> Reserves(db, run)
    {
      PlannedIs(db, run);
    }
    forall i, j | 0 <= i < j < |requests|
      ensures Fingerprint(requests[i]) == Fingerprint(requests[j]) <==> SameWork(requests[i], requests[j])
    {
    }
    var plans := PlansOf(requests);
    assert forall i | 0 <= i < |requests| && requests[i].plannedRun.Some? :: requests[i].plannedRun.value in plans;
    assert plans * db.history.runs.Keys != {} <==> exists run :: run in plans && run in db.history.runs by {
      if run :| run in plans && run in db.history.runs {
        assert run in plans * db.history.runs.Keys;
      }
    }
    assert plans * Planned(db) != {} <==> exists run :: run in plans && Reserves(db, run) by {
      if run :| run in plans && Reserves(db, run) {
        assert run in plans * Planned(db);
      }
    }
  }

  // ---------------------------------------------------------------- claiming

  /** The manifest may be claimed: it is pending, and the one asked for if one is. */
  predicate Eligible(db: Db, pick: Option<Uuid>, id: Uuid) {
    id in db.manifests && db.manifests[id].status == Pending && (pick == Some(id) || pick.None?)
  }

  /** A claim takes the manifest created first, by identifier among equals, and marks it running. */
  lemma ClaimExactly(db: Db, token: Uuid, pick: Option<Uuid>, first: Uuid)
    ensures IsNext(db, pick, Some(first)) <==>
            && Eligible(db, pick, first)
            && forall id | Eligible(db, pick, id) && id != first ::
                 || db.manifests[first].createdAt < db.manifests[id].createdAt
                 || (db.manifests[first].createdAt == db.manifests[id].createdAt && first < id)
    ensures IsNext(db, pick, None) <==> forall id :: !Eligible(db, pick, id)
    ensures Eligible(db, pick, first) && Claim(db, token, first).Success? ==>
              var after := Claim(db, token, first).value;
              && after == db.(manifests := db.manifests[first := after.manifests[first]])
              && after.manifests[first]
                 == db.manifests[first].(status := Running, token := Some(token), startedAt := Some(db.clock))
  {
    assert forall id :: Claimable(db, pick, id) <==> Eligible(db, pick, id);
  }

  // ---------------------------------------------------------------- beginning

  /** The stage runs, belongs to the project, and has reserved the run. */
  predicate OwnedBy(db: Db, owner: StageId, run: Uuid, project: string) {
    && owner.assessment in db.manifests && db.manifests[owner.assessment].project == project
    && owner.ordinal < |db.manifests[owner.assessment].stages|
    && var x := db.manifests[owner.assessment].stages[owner.ordinal];
       x.status == StageRunning && x.request.plannedRun == Some(run)
  }

  /** Whoever may begin the run: its owner if a stage has reserved it, anyone but a stage otherwise. */
  predicate MayBegin(db: Db, run: Uuid, project: string, owner: Option<StageId>) {
    if Reserves(db, run) then owner.Some? && OwnedBy(db, owner.value, run, project) else owner.None?
  }

  /** The rows of a run that was just begun. */
  predicate BegunAs(h: History, run: Uuid, start: RunStart, now: Time) {
    && run in h.runs && run in h.scans
    && h.runs[run].project == start.project && h.runs[run].input == start.input && h.runs[run].maxBytes == start.maxBytes
    && h.runs[run].status == RunRunning && h.runs[run].createdAt == now
    && h.runs[run].finishedAt.None? && h.runs[run].error.None?
    && h.scans[run].scanner == start.scanner && h.scans[run].context == start.context
    && h.scans[run].status == RunRunning && h.scans[run].createdAt == now
    && h.scans[run].finishedAt.None? && h.scans[run].error.None?
  }

  /** When a run may be begun, exactly, and what beginning it leaves; nothing else changes. */
  lemma BeginExactly(db: Db, run: Uuid, start: RunStart, owner: Option<StageId>)
    ensures var r := Begin(db, run, start, owner);
            && (run !in db.history.runs ==>
                  && (r.Success? <==> MayBegin(db, run, start.project, owner))
                  && (r.Success? ==>
                        && r.value == db.(history := r.value.history)
                        && BegunAs(r.value.history, run, start, db.clock)
                        && r.value.history.runs.Keys == db.history.runs.Keys + {run}
                        && r.value.history.outputs == db.history.outputs && r.value.history.files == db.history.files
                        && (forall other | other in db.history.runs :: r.value.history.runs[other] == db.history.runs[other])
                        && (forall other | other in db.history.scans && other != run ::
                              r.value.history.scans[other] == db.history.scans[other])))
            && (run in db.history.runs ==>
                  && (r.Success? <==>
                        && MayBegin(db, run, start.project, owner) && owner.None? && run in db.history.scans
                        && db.history.runs[run].project == start.project && db.history.runs[run].input == start.input
                        && db.history.scans[run].scanner == start.scanner && db.history.scans[run].context == start.context)
                  && (r.Success? ==> r.value == db))
  {
    PlannedIs(db, run);
  }

  // ---------------------------------------------------------------- reconciling

  /** A row that was running, interrupted now; any other row as it was. */
  predicate StageReconciled(x: StageRow, y: StageRow, now: Time) {
    if x.status == StageRunning then
      && y.request == x.request && y.resultRun == x.resultRun && y.startedAt == x.startedAt
      && y.status == StageInterrupted && y.finishedAt == Some(now) && y.reason == Some(WorkerDisconnected)
    else y == x
  }

  predicate ManifestReconciled(m: Manifest, n: Manifest, now: Time) {
    if m.status == Running then
      && n.project == m.project && n.createdAt == m.createdAt && n.startedAt == m.startedAt
      && n.status == Interrupted && n.token.None? && n.finishedAt == Some(now) && n.reason == Some(WorkerDisconnected)
      && |n.stages| == |m.stages|
      && forall i | 0 <= i < |m.stages| :: StageReconciled(m.stages[i], n.stages[i], now)
    else n == m
  }

  /** A stage of a manifest that is still marked running has reserved the run. */
  predicate Abandons(db: Db, run: Uuid) {
    exists id, i :: id in db.manifests && db.manifests[id].status == Running && 0 <= i < |db.manifests[id].stages|
                    && db.manifests[id].stages[i].request.plannedRun == Some(run)
  }

  lemma StaleIs(db: Db, run: Uuid)
    ensures run in StaleRuns(db) <==> Abandons(db, run)
  {
    if Abandons(db, run) {
      var id, i :| id in db.manifests && db.manifests[id].status == Running && 0 <= i < |db.manifests[id].stages|
                   && db.manifests[id].stages[i].request.plannedRun == Some(run);
      assert db.manifests[id].stages[i].request.plannedRun.Some?;
    }
  }

  /**
    What a worker start does to what an earlier one left: the manifest that was running, its
    running stage, and the running runs that its stages reserved are interrupted now; and every
    other row stays as it was.
   */
  lemma ReconcileExactly(db: Db)
    ensures var after := ReconcileStale(db);
            && after.clock == db.clock && after.reports == db.reports
            && after.manifests.Keys == db.manifests.Keys
            && (forall id | id in db.manifests :: ManifestReconciled(db.manifests[id], after.manifests[id], db.clock))
            && after.history.outputs == db.history.outputs && after.history.files == db.history.files
            && after.history.runs.Keys == db.history.runs.Keys && after.history.scans.Keys == db.history.scans.Keys
            && (forall run | run in db.history.runs ::
                  after.history.runs[run]
                  == if Abandons(db, run) && db.history.runs[run].status == RunRunning then
                       db.history.runs[run].(status := RunInterrupted, finishedAt := Some(db.clock), error := Some(OwnerDisconnected))
                     else db.history.runs[run])
            && (forall run | run in db.history.scans ::
                  after.history.scans[run]
                  == if Abandons(db, run) && db.history.scans[run].status == RunRunning then
                       db.history.scans[run].(status := RunInterrupted, finishedAt := Some(db.clock), error := Some(OwnerDisconnected))
                     else db.history.scans[run])
  {
    forall run
      ensures run in StaleRuns(db) <==> Abandons(db, run)
    {
      StaleIs(db, run);
    }
  }

  // ---------------------------------------------------------------- stages

  /** The rows satisfy the constraints of their tables, and nothing started after the present. */
  predicate RowsHold(db: Db) {
    forall id | id in db.manifests ::
      && ManifestChecks(db.manifests[id])
      && (db.manifests[id].startedAt.Some? ==> db.manifests[id].startedAt.value <= db.clock)
      && forall i | 0 <= i < |db.manifests[id].stages| ::
           && StageChecks(db.manifests[id].stages[i])
           && (db.manifests[id].stages[i].startedAt.Some? ==> db.manifests[id].stages[i].startedAt.value <= db.clock)
  }

  /** Nothing has changed but the row of one stage. */
  predicate OnlyStage(before: Db, after: Db, id: StageId, row: StageRow) {
    && HasStage(before, id) && HasStage(after, id)
    && after == before.(manifests := after.manifests) && after.manifests.Keys == before.manifests.Keys
    && (forall other | other in before.manifests && other != id.assessment :: after.manifests[other] == before.manifests[other])
    && var m, n := before.manifests[id.assessment], after.manifests[id.assessment];
       n == m.(stages := n.stages) && |n.stages| == |m.stages| && n.stages[id.ordinal] == row
       && forall i | 0 <= i < |m.stages| && i != id.ordinal :: n.stages[i] == m.stages[i]
  }

  /** The worker with the token runs the manifest. */
  predicate Runs(db: Db, id: Uuid, token: Uuid) {
    id in db.manifests && db.manifests[id].status == Running && db.manifests[id].token == Some(token)
  }

  /** A stage is started exactly when it is pending and its manifest carries the token. */
  lemma StartExactly(db: Db, id: StageId, token: Uuid)
    requires RowsHold(db)
    ensures var r := StartStage(db, id, token);
            && (r.Success? <==>
                  && HasStage(db, id) && StageAt(db, id).status == StagePending
                  && db.manifests[id.assessment].token == Some(token))
            && (r.Success? ==>
                  OnlyStage(db, r.value, id, StageAt(db, id).(status := StageRunning, startedAt := Some(db.clock))))
  {
  }

  /** A stage is skipped exactly when it is pending and the worker runs its manifest. */
  lemma SkipExactly(db: Db, id: StageId, token: Uuid, why: string)
    requires RowsHold(db)
    ensures var r := SkipStage(db, id, token, why);
            && (r.Success? <==>
                  Runs(db, id.assessment, token) && HasStage(db, id) && StageAt(db, id).status == StagePending)
            && (r.Success? ==>
                  OnlyStage(
                    db, r.value, id,
                    StageAt(db, id).(status := StageSkipped, finishedAt := Some(db.clock), reason := Some(Skipped(why)))))
  {
  }

  /** The run may stand as the result of the stage. */
  predicate MayResult(db: Db, id: StageId, status: StageStatus, run: Option<Uuid>)
    requires HasStage(db, id)
  {
    var request := StageAt(db, id).request;
    && (run.Some? ==>
          && request.kind != RecheckStage && run == request.plannedRun && run.value in db.history.runs
          && db.history.runs[run.value].project == db.manifests[id.assessment].project)
    && (status == StageCompleted && request.kind != RecheckStage ==> run.Some?)
  }

  /**
    A stage is finished exactly when it is running under the worker, the status is a final one
    with a reason unless it is completed, and the run may be its result.
   */
  lemma FinishExactly(
    db: Db, id: StageId, token: Uuid, status: StageStatus, reason: Option<Note>, run: Option<Uuid>)
    requires RowsHold(db)
    ensures var r := FinishStage(db, id, token, status, reason, run);
            && (r.Success? <==>
                  && (status == StageCompleted || status == StageFailed || status == StageInterrupted)
                  && Runs(db, id.assessment, token) && HasStage(db, id) && StageAt(db, id).status == StageRunning
                  && (reason.None? <==> status == StageCompleted) && MayResult(db, id, status, run))
            && (r.Success? ==>
                  OnlyStage(
                    db, r.value, id,
                    StageAt(db, id).(status := status, finishedAt := Some(db.clock), reason := reason, resultRun := run)))
  {
  }

  /** A recheck report is stored exactly once, with its running stage, for the plan of that stage. */
  lemma PersistExactly(db: Db, id: StageId, token: Uuid, report: Recheck.RecheckReport, failed: bool)
    requires RowsHold(db)
    ensures var r := PersistRecheck(db, id, token, report, failed);
            && (r.Success? <==>
                  && Runs(db, id.assessment, token) && HasStage(db, id) && StageAt(db, id).status == StageRunning
                  && StageAt(db, id).request.kind == RecheckStage
                  && report.project == db.manifests[id.assessment].project
                  && Recheck.MatchesPlan(report, StageAt(db, id).request.target.value) && id !in db.reports)
            && (r.Success? ==>
                  && r.value.reports == db.reports + {id}
                  && OnlyStage(
                       db.(reports := db.reports + {id}), r.value, id,
                       StageAt(db, id).(
                         status := if failed then StageFailed else StageCompleted, finishedAt := Some(db.clock),
                         reason := if failed then Some(IncompleteRecheck) else None)))
  {
  }

  /** Some stage of the manifest has the status. */
  predicate HasStatus(m: Manifest, status: StageStatus) {
    exists x :: x in m.stages && x.status == status
  }

  /**
    A manifest is closed exactly when the worker runs it, none of its stages runs, and none waits
    unless one was interrupted. Its status is that of its worst stage, and nothing else changes.
   */
  lemma FinalizeExactly(db: Db, id: Uuid, token: Uuid)
    requires RowsHold(db)
    ensures var r := Finalize(db, id, token);
            && (r.Success? <==>
                  && Runs(db, id, token) && !HasStatus(db.manifests[id], StageRunning)
                  && (HasStatus(db.manifests[id], StagePending) ==> HasStatus(db.manifests[id], StageInterrupted)))
            && (r.Success? ==>
                  && r.value == db.(manifests := db.manifests[id := r.value.manifests[id]])
                  && var m, n := db.manifests[id], r.value.manifests[id];
                     && n == m.(status := n.status, token := None, finishedAt := Some(db.clock), reason := n.reason)
                     && (HasStatus(m, StageInterrupted) ==> n.status == Interrupted && n.reason == Some(SomeStageInterrupted))
                     && (!HasStatus(m, StageInterrupted) && HasStatus(m, StageFailed) ==>
                           n.status == Failed && n.reason == Some(SomeStageFailed))
                     && (!HasStatus(m, StageInterrupted) && !HasStatus(m, StageFailed) ==>
                           n.status == Completed && n.reason.None?))
  {
    if id in db.manifests {
      var stages := db.manifests[id].stages;
      forall status
        ensures AnyIs(stages, status) <==> HasStatus(db.manifests[id], status)
      {
        if AnyIs(stages, status) {
          var i :| 0 <= i < |stages| && stages[i].status == status;
          assert stages[i] in stages;
        }
      }
    }
  }
}
