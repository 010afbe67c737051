/** The transactions of `orchestration/store.py`, and the reservation step of `History.begin`. */
module Store {
  import opened Lifecycle
  import opened RunHistory
  import opened Wrappers
  import Evidence
  import Recheck

  datatype StageId = StageId(assessment: Uuid, ordinal: nat)

  /** The tables, with the clock that `now()` reads. */
  datatype Db = Db(clock: Time, manifests: map<Uuid, Manifest>, reports: set<StageId>, history: History)

  datatype StoreError =
    | NoStages
    | RepeatedWork
    | NotAuthorized
    | RepeatedRun
    | RunExists
    | AssessmentExists
    | ConstraintViolated
    | NotStartable
    | NotOwned
    | NotSkippable
    | NotFinishable
    | InvalidStatus
    | ReportMismatch
    | Unfinished
    | Reserved
    | NoReservation
    | DifferentInput
    | Replayed

  predicate HasStage(db: Db, id: StageId) {
    id.assessment in db.manifests && id.ordinal < |db.manifests[id.assessment].stages|
  }

  function StageAt(db: Db, id: StageId): StageRow
    requires HasStage(db, id)
  {
    db.manifests[id.assessment].stages[id.ordinal]
  }

  /** The row of one stage replaced; everything else as before. */
  function WithStage(db: Db, id: StageId, row: StageRow): Db
    requires HasStage(db, id)
  {
    var m := db.manifests[id.assessment];
    db.(manifests := db.manifests[id.assessment := m.(stages := m.stages[id.ordinal := row])])
  }

  /** A result run must be a stored run of the same project. */
  predicate RunReferenced(db: Db, project: string, run: Option<Uuid>) {
    run.Some? ==> run.value in db.history.runs && db.history.runs[run.value].project == project
  }

  function PutStage(db: Db, id: StageId, row: StageRow): Result<Db, StoreError>
    requires HasStage(db, id)
  {
    if !StageChecks(row) || !RunReferenced(db, db.manifests[id.assessment].project, row.resultRun) then
      Failure(ConstraintViolated)
    else Success(WithStage(db, id, row))
  }

  function PutManifest(db: Db, id: Uuid, m: Manifest): Result<Db, StoreError> {
    if !ManifestChecks(m) then Failure(ConstraintViolated) else Success(db.(manifests := db.manifests[id := m]))
  }

  // ---------------------------------------------------------------- enqueueing

  /** The run identifiers that stages have reserved. */
  function Planned(db: Db): set<Uuid> {
    set id, i | id in db.manifests && 0 <= i < |db.manifests[id].stages|
                && db.manifests[id].stages[i].request.plannedRun.Some?
      :: db.manifests[id].stages[i].request.plannedRun.value
  }

  /** What identifies the work of a request, whatever run it was given. */
  function Fingerprint(r: StageRequest): RequestFields {
    r.(plannedRun := None)
  }

  predicate DistinctWork(requests: seq<StageRequest>) {
    forall i, j | 0 <= i < j < |requests| :: Fingerprint(requests[i]) != Fingerprint(requests[j])
  }

  predicate DistinctPlans(requests: seq<StageRequest>) {
    forall i, j | 0 <= i < j < |requests| ::
      requests[i].plannedRun.Some? ==> requests[i].plannedRun != requests[j].plannedRun
  }

  function PlansOf(requests: seq<StageRequest>): set<Uuid> {
    set i | 0 <= i < |requests| && requests[i].plannedRun.Some? :: requests[i].plannedRun.value
  }

  function NewStage(r: StageRequest): StageRow {
    StageRow(r, StagePending, None, None, None, None)
  }

  function NewManifest(db: Db, project: string, requests: seq<StageRequest>): Manifest {
    Manifest(
      project, Pending, None, db.clock, None, None, None,
      seq(|requests|, i requires 0 <= i < |requests| => NewStage(requests[i])))
  }

  /** `enqueue`; `authorized` stands for the check of a request against the configured scope. */
  function Enqueue(
    db: Db, id: Uuid, project: string, requests: seq<StageRequest>, authorized: StageRequest -> bool)
    : Result<Db, StoreError>
  {
    if requests == [] then Failure(NoStages)
    else if !DistinctWork(requests) then Failure(RepeatedWork)
    else if exists i :: 0 <= i < |requests| && !authorized(requests[i]) then Failure(NotAuthorized)
    else if !DistinctPlans(requests) then Failure(RepeatedRun)
    else if PlansOf(requests) * db.history.runs.Keys != {} then Failure(RunExists)
    else if id in db.manifests then Failure(AssessmentExists)
    else if PlansOf(requests) * Planned(db) != {} then Failure(ConstraintViolated)
    else Success(db.(manifests := db.manifests[id := NewManifest(db, project, requests)]))
  }

  // ---------------------------------------------------------------- claiming

  predicate Claimable(db: Db, pick: Option<Uuid>, id: Uuid) {
    id in db.manifests && db.manifests[id].status == Pending && (pick.None? || pick == Some(id))
  }

  /** Order of creation, then of identifier. */
  predicate Before(db: Db, a: Uuid, b: Uuid)
    requires a in db.manifests && b in db.manifests
  {
    var x, y := db.manifests[a].createdAt, db.manifests[b].createdAt;
    x < y || (x == y && a <= b)
  }

  /** The manifest that a claim takes: the oldest pending one, or none. */
  predicate IsNext(db: Db, pick: Option<Uuid>, next: Option<Uuid>) {
    match next
    case None => forall id | id in db.manifests :: !Claimable(db, pick, id)
    case Some(first) =>
      && Claimable(db, pick, first)
      && forall id | id in db.manifests && Claimable(db, pick, id) :: Before(db, first, id)
  }

  /** The claim of a pending manifest. */
  function Claim(db: Db, token: Uuid, id: Uuid): Result<Db, StoreError>
    requires id in db.manifests && db.manifests[id].status == Pending
  {
    PutManifest(
      db, id, db.manifests[id].(status := Running, token := Some(token), startedAt := Some(db.clock)))
  }

  // ---------------------------------------------------------------- stage transitions

  /** The token that owns a running manifest. */
  function Owner(db: Db, id: Uuid): Option<Uuid> {
    if id in db.manifests && db.manifests[id].status == Running then db.manifests[id].token else None
  }

  /** `start_stage`, which looks at the token alone. */
  function StartStage(db: Db, id: StageId, token: Uuid): Result<Db, StoreError> {
    if HasStage(db, id) && StageAt(db, id).status == StagePending && db.manifests[id.assessment].token == Some(token) then
      PutStage(db, id, StageAt(db, id).(status := StageRunning, startedAt := Some(db.clock)))
    else Failure(NotStartable)
  }

  /** `skip_stage` */
  function SkipStage(db: Db, id: StageId, token: Uuid, reason: string): Result<Db, StoreError> {
    if Owner(db, id.assessment) != Some(token) then Failure(NotOwned)
    else if !HasStage(db, id) || StageAt(db, id).status != StagePending then Failure(NotSkippable)
    else
      PutStage(db, id, StageAt(db, id).(status := StageSkipped, finishedAt := Some(db.clock), reason := Some(Skipped(reason))))
  }

  /** `finish_stage` */
  function FinishStage(
    db: Db, id: StageId, token: Uuid, status: StageStatus, reason: Option<Note>, resultRun: Option<Uuid>)
    : Result<Db, StoreError>
  {
    if status != StageCompleted && status != StageFailed && status != StageInterrupted then Failure(InvalidStatus)
    else if Owner(db, id.assessment) != Some(token) then Failure(NotOwned)
    else if !HasStage(db, id) || StageAt(db, id).status != StageRunning then Failure(NotFinishable)
    else
      PutStage(
        db, id,
        StageAt(db, id).(status := status, finishedAt := Some(db.clock), reason := reason, resultRun := resultRun))
  }

  /** `persist_recheck`, once the artifacts have been published. */
  function PersistRecheck(db: Db, id: StageId, token: Uuid, report: Recheck.RecheckReport, failed: bool)
    : Result<Db, StoreError>
  {
    if !HasStage(db, id) || report.project != db.manifests[id.assessment].project
       || StageAt(db, id).request.kind != RecheckStage then Failure(ReportMismatch)
    else if Owner(db, id.assessment) != Some(token) || StageAt(db, id).status != StageRunning then Failure(NotOwned)
    else if !Recheck.MatchesPlan(report, StageAt(db, id).request.target.value) then Failure(ReportMismatch)
    else if id in db.reports then Failure(ConstraintViolated)
    else
      PutStage(
        db.(reports := db.reports + {id}), id,
        StageAt(db, id).(
          status := if failed then StageFailed else StageCompleted, finishedAt := Some(db.clock),
          reason := if failed then Some(IncompleteRecheck) else None))
  }

  // ---------------------------------------------------------------- closing a manifest

  /** The status and reason that a manifest's stages amount to. */
  function Outcome(stages: seq<StageRow>): (AssessmentStatus, Option<Note>) {
    if AnyIs(stages, StageInterrupted) then (Interrupted, Some(SomeStageInterrupted))
    else if AnyIs(stages, StageFailed) then (Failed, Some(SomeStageFailed))
    else (Completed, None)
  }

  predicate StillOpen(stages: seq<StageRow>) {
    AnyIs(stages, StageRunning) || (AnyIs(stages, StagePending) && !AnyIs(stages, StageInterrupted))
  }

  /** `finalize` */
  function Finalize(db: Db, id: Uuid, token: Uuid): Result<Db, StoreError> {
    if Owner(db, id) != Some(token) then Failure(NotOwned)
    else
      var m := db.manifests[id];
      if StillOpen(m.stages) then Failure(Unfinished)
      else
        var (status, reason) := Outcome(m.stages);
        PutManifest(db, id, m.(status := status, token := None, finishedAt := Some(db.clock), reason := reason))
  }

  function AbandonedStage(x: StageRow, now: Time): StageRow {
    if x.status == StageRunning then
      x.(status := StageInterrupted, finishedAt := Some(now), reason := Some(WorkerDisconnected))
    else x
  }

  function Abandoned(m: Manifest, now: Time): Manifest {
    if m.status == Running then
      m.(status := Interrupted, token := None, finishedAt := Some(now), reason := Some(WorkerDisconnected),
         stages := seq(|m.stages|, i requires 0 <= i < |m.stages| => AbandonedStage(m.stages[i], now)))
    else m
  }

  /** The runs reserved by stages of manifests that are still marked running. */
  function StaleRuns(db: Db): set<Uuid> {
    set id, i | id in db.manifests && db.manifests[id].status == Running && 0 <= i < |db.manifests[id].stages|
                && db.manifests[id].stages[i].request.plannedRun.Some?
      :: db.manifests[id].stages[i].request.plannedRun.value
  }

  function InterruptRuns(h: History, stale: set<Uuid>, now: Time): History {
    h.(runs := map r | r in h.runs ::
                 if r in stale then SettledRow(h.runs[r], now, RunInterrupted, Some(OwnerDisconnected)) else h.runs[r],
       scans := map r | r in h.scans ::
                  if r in stale then SettledScan(h.scans[r], now, RunInterrupted, Some(OwnerDisconnected)) else h.scans[r])
  }

  /** `reconcile_stale`: whatever is marked running is marked interrupted. */
  function ReconcileStale(db: Db): Db {
    db.(manifests := map id | id in db.manifests :: Abandoned(db.manifests[id], db.clock),
        history := InterruptRuns(db.history, StaleRuns(db), db.clock))
  }

  // ---------------------------------------------------------------- beginning a run

  /** What a run is begun with, beside its identifier. */
  datatype RunStart = RunStart(project: string, input: string, maxBytes: nat, scanner: Evidence.Scanner, context: string)

  /** Stage `id` has reserved `run`, belongs to the project, and is running. */
  predicate Owns(db: Db, id: StageId, run: Uuid, project: string) {
    && HasStage(db, id) && StageAt(db, id).request.plannedRun == Some(run)
    && db.manifests[id.assessment].project == project && StageAt(db, id).status == StageRunning
  }

  predicate SameStart(h: History, run: Uuid, start: RunStart)
    requires run in h.runs
  {
    && run in h.scans && h.scans[run].scanner == start.scanner && h.scans[run].context == start.context
    && h.runs[run].project == start.project && h.runs[run].input == start.input
  }

  function NewRun(h: History, now: Time, run: Uuid, start: RunStart): History {
    h.(runs := h.runs[run := RunRow(start.project, start.input, start.maxBytes, RunRunning, now, None, None)],
       scans := h.scans[run := ScanRow(start.scanner, start.context, RunRunning, now, None, None)])
  }

  /** The transaction of `History.begin`: `owner` is the stage on whose behalf a run is begun. */
  function Begin(db: Db, run: Uuid, start: RunStart, owner: Option<StageId>): Result<Db, StoreError> {
    var reserved := run in Planned(db);
    if reserved && !(owner.Some? && Owns(db, owner.value, run, start.project)) then Failure(Reserved)
    else if owner.Some? && !reserved then Failure(NoReservation)
    else if run in db.history.runs then
      if !SameStart(db.history, run, start) then Failure(DifferentInput)
      else if owner.Some? then Failure(Replayed)
      else Success(db)
    else Success(db.(history := NewRun(db.history, db.clock, run, start)))
  }
}
