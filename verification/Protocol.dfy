/**
  The durable assessment protocol as a state machine: the worker that holds the advisory
  lock, everyone else who may touch the tables meanwhile, and a crash between any two
  transactions. The invariants below hold in every state of every run.
 */
module Protocol {
  import opened Bytes
  import opened Lifecycle
  import opened RunHistory
  import opened Store
  import opened Wrappers
  import Recheck

  // ---------------------------------------------------------------- the machine

  /** Where the worker is with its current stage. */
  datatype Phase =
    | Between                  // before stage `next`
    | Inside(scanned: bool)    // stage `next` is running; its scan may have returned
    | Stopped                  // stage `next` was interrupted by the operator

  datatype Worker =
    | Idle
    | Holding(token: Uuid)
    | At(assessment: Uuid, token: Uuid, next: nat, phase: Phase)

  /** The tables, the one worker that can hold the lock, and the tokens that were ever drawn. */
  datatype Sys = Sys(db: Db, worker: Worker, tokens: set<Uuid>)

  /** A call that presents a worker token. */
  datatype Call =
    | CallStart(id: StageId)
    | CallSkip(id: StageId, why: string)
    | CallFinish(id: StageId, status: StageStatus, reason: Option<Note>, resultRun: Option<Uuid>)
    | CallPersist(id: StageId, report: Recheck.RecheckReport, failed: bool)
    | CallFinalize(assessment: Uuid)

  function Perform(db: Db, call: Call, token: Uuid): Result<Db, StoreError> {
    match call
    case CallStart(id) => StartStage(db, id, token)
    case CallSkip(id, why) => SkipStage(db, id, token, why)
    case CallFinish(id, status, reason, resultRun) => FinishStage(db, id, token, status, reason, resultRun)
    case CallPersist(id, report, failed) => PersistRecheck(db, id, token, report, failed)
    case CallFinalize(id) => Finalize(db, id, token)
  }

  /** A call that is refused leaves the tables as they were. */
  function After(db: Db, r: Result<Db, StoreError>): Db {
    match r
    case Success(changed) => changed
    case Failure(_) => db
  }

  /** What other processes may do at any time, whoever holds the lock. */
  datatype Outside =
    | Tick(elapsed: nat)
    | Enqueued(id: Uuid, project: string, requests: seq<StageRequest>, authorized: StageRequest -> bool)
    | BeginRun(run: Uuid, start: RunStart, owner: Option<StageId>)
    | IngestRun(run: Uuid, raw: seq<Byte>, stderr: seq<Byte>, adapters: Adapters)
    | AbandonRun(run: Uuid, status: RunStatus, error: Option<RunError>)
    | StaleCall(call: Call, token: Uuid)

  /** What the worker may do at a stage of the manifest it claimed. */
  datatype Move =
    | SkipNext
    | StartNext
    | ScanReturns(raw: seq<Byte>, stderr: seq<Byte>, adapters: Adapters)
    | CompleteScan
    | FailStage(resultRun: Option<Uuid>)
    | StopStage(resultRun: Option<Uuid>)
    | PersistReport(report: Recheck.RecheckReport, failed: bool)

  datatype Event =
    | Elsewhere(what: Outside)
    | AtStage(move: Move)
    | Acquire(token: Uuid)
    | ClaimNext(pick: Option<Uuid>, id: Uuid)
    | Close
    | Crash

  /** No row carries the token: its manifest was closed or reconciled, or it never owned one. */
  predicate Retired(db: Db, token: Uuid) {
    forall id | id in db.manifests :: db.manifests[id].token != Some(token)
  }

  function Here(w: Worker): StageId
    requires w.At?
  {
    StageId(w.assessment, w.next)
  }

  /** Other processes enqueue, import, scan, reconcile runs, or call too late. */
  predicate OtherStep(s: Sys, what: Outside, db: Db) {
    match what
    case Tick(elapsed) => db == s.db.(clock := s.db.clock + elapsed)
    case Enqueued(id, project, requests, authorized) => Enqueue(s.db, id, project, requests, authorized) == Success(db)
    case BeginRun(run, start, owner) => Begin(s.db, run, start, owner) == Success(db)
    case IngestRun(run, raw, stderr, adapters) =>
      db == s.db.(history := Ingest(s.db.history, s.db.clock, run, raw, stderr, adapters).history)
    case AbandonRun(run, status, error) =>
      && (status == RunFailed || status == RunInterrupted)
      && db == s.db.(history := Finish(s.db.history, s.db.clock, run, status, error))
    case StaleCall(call, token) => Retired(s.db, token) && db == After(s.db, Perform(s.db, call, token))
  }

  /** An ingestion that is answered with a report. */
  predicate IngestsInto(before: Db, run: Uuid, raw: seq<Byte>, stderr: seq<Byte>, adapters: Adapters, db: Db) {
    var i := Ingest(before.history, before.clock, run, raw, stderr, adapters);
    i.answer.Success? && db == before.(history := i.history)
  }

  /** The worker moves at its stage, and is then at stage `next`. */
  predicate StageStep(s: Sys, move: Move, db: Db, next: nat, phase: Phase)
    requires s.worker.At?
  {
    var w, here := s.worker, Here(s.worker);
    match move
    case SkipNext =>
      && w.phase == Between && HasStage(s.db, here) && StageAt(s.db, here).request.skipReason.Some?
      && SkipStage(s.db, here, w.token, StageAt(s.db, here).request.skipReason.value) == Success(db)
      && next == w.next + 1 && phase == Between
    case StartNext =>
      && w.phase == Between && HasStage(s.db, here) && StageAt(s.db, here).request.skipReason.None?
      && StartStage(s.db, here, w.token) == Success(db) && next == w.next && phase == Inside(false)
    case ScanReturns(raw, stderr, adapters) =>
      && w.phase == Inside(false) && HasStage(s.db, here) && StageAt(s.db, here).request.plannedRun.Some?
      && IngestsInto(s.db, StageAt(s.db, here).request.plannedRun.value, raw, stderr, adapters, db)
      && next == w.next && phase == Inside(true)
    case CompleteScan =>
      && w.phase == Inside(true) && HasStage(s.db, here)
      && FinishStage(s.db, here, w.token, StageCompleted, None, StageAt(s.db, here).request.plannedRun) == Success(db)
      && next == w.next + 1 && phase == Between
    case FailStage(resultRun) =>
      && w.phase.Inside?
      && FinishStage(s.db, here, w.token, StageFailed, Some(ExecutionFailed), resultRun) == Success(db)
      && next == w.next + 1 && phase == Between
    case StopStage(resultRun) =>
      && w.phase.Inside?
      && FinishStage(s.db, here, w.token, StageInterrupted, Some(OperatorCancelled), resultRun) == Success(db)
      && next == w.next && phase == Stopped
    case PersistReport(report, failed) =>
      && w.phase.Inside? && PersistRecheck(s.db, here, w.token, report, failed) == Success(db)
      && next == w.next + 1 && phase == Between
  }

  predicate Step(s: Sys, e: Event, t: Sys) {
    match e
    case Elsewhere(what) => OtherStep(s, what, t.db) && t.worker == s.worker && t.tokens == s.tokens
    case AtStage(move) =>
      && s.worker.At? && t.worker.At? && t.tokens == s.tokens
      && t.worker.assessment == s.worker.assessment && t.worker.token == s.worker.token
      && StageStep(s, move, t.db, t.worker.next, t.worker.phase)
    case Acquire(token) =>
      && s.worker == Idle && token !in s.tokens
      && t == Sys(ReconcileStale(s.db), Holding(token), s.tokens + {token})
    case ClaimNext(pick, id) =>
      && s.worker.Holding? && IsNext(s.db, pick, Some(id))
      && id in s.db.manifests && s.db.manifests[id].status == Pending
      && Claim(s.db, s.worker.token, id) == Success(t.db)
      && t.worker == At(id, s.worker.token, 0, Between) && t.tokens == s.tokens
    case Close =>
      && s.worker.At? && Finalize(s.db, s.worker.assessment, s.worker.token) == Success(t.db)
      && t.worker == Idle && t.tokens == s.tokens
    case Crash => t == s.(worker := Idle)
  }

  const START: Sys := Sys(Db(0, map[], {}, History(map[], map[], map[], map[])), Idle, {})

  // ---------------------------------------------------------------- the invariant

  /** Nothing started after the present. */
  predicate Timely(m: Manifest, now: Time) {
    && (m.startedAt.Some? ==> m.startedAt.value <= now)
    && forall i | 0 <= i < |m.stages| && m.stages[i].startedAt.Some? :: m.stages[i].startedAt.value <= now
  }

  /** A reserved run does not exist before its stage starts, and succeeded if its stage completed. */
  predicate StageRuns(x: StageRow, h: History) {
    x.request.plannedRun.Some? ==>
      && (x.status == StagePending || x.status == StageSkipped ==> x.request.plannedRun.value !in h.runs)
      && (x.status == StageCompleted ==>
            && x.resultRun == x.request.plannedRun
            && x.request.plannedRun.value in h.runs && h.runs[x.request.plannedRun.value].status == RunSucceeded)
  }

  predicate RunsFit(m: Manifest, h: History) {
    forall i | 0 <= i < |m.stages| :: StageRuns(m.stages[i], h)
  }

  predicate Fits(m: Manifest, now: Time, tokens: set<Uuid>, h: History) {
    && Consistent(m) && Timely(m, now) && RunsFit(m, h)
    && (m.token.Some? ==> m.token.value in tokens)
  }

  predicate AllFit(s: Sys) {
    forall id | id in s.db.manifests :: Fits(s.db.manifests[id], s.db.clock, s.tokens, s.db.history)
  }

  /** Each run identifier is reserved by at most one stage. */
  predicate PlannedOnce(manifests: map<Uuid, Manifest>) {
    forall a, i, b, j ::
      && a in manifests && 0 <= i < |manifests[a].stages|
      && b in manifests && 0 <= j < |manifests[b].stages|
      && manifests[a].stages[i].request.plannedRun.Some?
      && manifests[a].stages[i].request.plannedRun == manifests[b].stages[j].request.plannedRun
      ==> a == b && i == j
  }

  /** At most one manifest is running. */
  predicate OneRunning(db: Db) {
    forall a, b | a in db.manifests && b in db.manifests
                  && db.manifests[a].status == Running && db.manifests[b].status == Running :: a == b
  }

  predicate NoneRunning(db: Db) {
    forall a | a in db.manifests :: db.manifests[a].status != Running
  }

  /** The stages before `next` are done, those after it pending, and stage `next` is where the phase says. */
  predicate Position(stages: seq<StageRow>, next: nat, phase: Phase) {
    && next <= |stages|
    && (forall i | 0 <= i < next :: Done(stages[i]))
    && (forall i | next < i < |stages| :: stages[i].status == StagePending)
    && match phase
       case Between => next < |stages| ==> stages[next].status == StagePending
       case Inside(_) => next < |stages| && stages[next].status == StageRunning
       case Stopped => next < |stages| && stages[next].status == StageInterrupted
  }

  /** The scan of the current stage has returned only if its run succeeded. */
  predicate ScanKnown(m: Manifest, next: nat, phase: Phase, h: History) {
    phase == Inside(true) && next < |m.stages| ==>
      && m.stages[next].request.plannedRun.Some?
      && m.stages[next].request.plannedRun.value in h.runs
      && h.runs[m.stages[next].request.plannedRun.value].status == RunSucceeded
  }

  predicate WorkerFits(s: Sys) {
    match s.worker
    case Idle => true
    case Holding(token) => NoneRunning(s.db) && token in s.tokens
    case At(id, token, next, phase) =>
      && id in s.db.manifests && s.db.manifests[id].status == Running && s.db.manifests[id].token == Some(token)
      && Position(s.db.manifests[id].stages, next, phase)
      && ScanKnown(s.db.manifests[id], next, phase, s.db.history)
  }

  predicate Inv(s: Sys) {
    && AllFit(s) && PlannedOnce(s.db.manifests) && OneRunning(s.db) && Coherent(s.db.history) && WorkerFits(s)
  }
}
