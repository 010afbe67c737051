/**
  The rows of durable assessments: what the database's CHECK constraints admit, and what
  the reader's two lifecycle validators (`orchestration/models.py`) accept.
 */
module Lifecycle {
  import opened Wrappers
  import Evidence
  import Recheck

  type Uuid = Evidence.Uuid
  type Time = Evidence.Time

  datatype StageKind = NmapStage | HttpxStage | NucleiStage | RecheckStage

  /** A planned unit of work; `work` stands for the profile, targets, resources and rule revision. */
  datatype RequestFields = StageRequest(
    kind: StageKind, work: string, target: Option<Recheck.Target>, plannedRun: Option<Uuid>, skipReason: Option<string>)

  /** What `StageRequest.validate_kind` says of targets and planned runs. */
  predicate ValidRequest(r: RequestFields) {
    match r.kind
    case NmapStage => r.target.None? && r.plannedRun.Some?
    case RecheckStage => r.target.Some? && r.plannedRun.None?
    case _ => r.target.Some? && r.plannedRun.Some?
  }

  type StageRequest = r: RequestFields | ValidRequest(r)
    witness StageRequest(NmapStage, "", None, Some(0), None)

  datatype StageStatus = StagePending | StageRunning | StageCompleted | StageFailed | StageSkipped | StageInterrupted

  datatype Note =
    | WorkerDisconnected
    | OperatorCancelled
    | ExecutionFailed
    | IncompleteRecheck
    | Skipped(text: string)
    | SomeStageInterrupted
    | SomeStageFailed

  datatype StageRow = StageRow(
    request: StageRequest, status: StageStatus, resultRun: Option<Uuid>,
    startedAt: Option<Time>, finishedAt: Option<Time>, reason: Option<Note>)

  datatype AssessmentStatus = Pending | Running | Completed | Failed | Interrupted

  /** A manifest row with its stage rows in ordinal order; a stage is known by manifest and ordinal. */
  datatype Manifest = Manifest(
    project: string, status: AssessmentStatus, token: Option<Uuid>, createdAt: Time,
    startedAt: Option<Time>, finishedAt: Option<Time>, reason: Option<Note>, stages: seq<StageRow>)

  predicate InOrder(start: Option<Time>, finish: Option<Time>) {
    start.Some? && finish.Some? ==> start.value <= finish.value
  }

  // ---------------------------------------------------------------- what the database admits

  predicate StageLifecycle(x: StageRow) {
    match x.status
    case StagePending => x.startedAt.None? && x.finishedAt.None? && x.reason.None? && x.resultRun.None?
    case StageRunning => x.startedAt.Some? && x.finishedAt.None? && x.reason.None? && x.resultRun.None?
    case StageCompleted => x.startedAt.Some? && x.finishedAt.Some? && x.reason.None?
    case StageSkipped => x.startedAt.None? && x.finishedAt.Some? && x.reason.Some? && x.resultRun.None?
    case _ => x.startedAt.Some? && x.finishedAt.Some? && x.reason.Some?
  }

  /** The constraints of the table `assessment_stages`. */
  predicate StageChecks(x: StageRow) {
    var recheck := x.request.kind == RecheckStage;
    && (if recheck then x.request.plannedRun.None? else x.request.plannedRun.Some?)
    && (if recheck then x.resultRun.None? else x.resultRun.None? || x.resultRun == x.request.plannedRun)
    && (x.status == StageCompleted ==> recheck || x.resultRun.Some?)
    && StageLifecycle(x)
    && InOrder(x.startedAt, x.finishedAt)
  }

  predicate ManifestLifecycle(m: Manifest) {
    match m.status
    case Pending => m.startedAt.None? && m.finishedAt.None? && m.token.None? && m.reason.None?
    case Running => m.startedAt.Some? && m.finishedAt.None? && m.token.Some? && m.reason.None?
    case Completed => m.startedAt.Some? && m.finishedAt.Some? && m.token.None? && m.reason.None?
    case _ => m.startedAt.Some? && m.finishedAt.Some? && m.token.None? && m.reason.Some?
  }

  /** The constraints of the table `assessment_manifests`. */
  predicate ManifestChecks(m: Manifest) {
    ManifestLifecycle(m) && InOrder(m.startedAt, m.finishedAt)
  }

  // ---------------------------------------------------------------- what the reader accepts

  /** `PlannedStage.consistent_lifecycle` */
  predicate StageReadable(x: StageRow) {
    && InOrder(x.startedAt, x.finishedAt)
    && match x.status
       case StagePending => x.startedAt.None? && x.finishedAt.None? && x.reason.None? && x.resultRun.None?
       case StageRunning => x.startedAt.Some? && x.finishedAt.None? && x.reason.None? && x.resultRun.None?
       case StageCompleted =>
         && x.startedAt.Some? && x.finishedAt.Some? && x.reason.None?
         && ((x.request.kind == RecheckStage && x.resultRun.None?) || x.resultRun == x.request.plannedRun)
       case StageSkipped => x.startedAt.None? && x.finishedAt.Some? && x.reason.Some? && x.resultRun.None?
       case _ =>
         && x.startedAt.Some? && x.finishedAt.Some? && x.reason.Some?
         && (x.resultRun.None? || x.resultRun == x.request.plannedRun)
  }

  predicate AllIn(stages: seq<StageRow>, statuses: set<StageStatus>) {
    forall i | 0 <= i < |stages| :: stages[i].status in statuses
  }

  predicate AnyIs(stages: seq<StageRow>, status: StageStatus) {
    exists i :: 0 <= i < |stages| && stages[i].status == status
  }

  /** `AssessmentManifest.ordered_stages`, whose order and identity clauses the representation grants. */
  predicate ManifestReadable(m: Manifest) {
    && m.stages != []
    && InOrder(m.startedAt, m.finishedAt)
    && match m.status
       case Pending =>
         && m.startedAt.None? && m.finishedAt.None? && m.token.None? && m.reason.None?
         && AllIn(m.stages, {StagePending})
       case Running => m.startedAt.Some? && m.finishedAt.None? && m.token.Some? && m.reason.None?
       case Completed =>
         && m.startedAt.Some? && m.finishedAt.Some? && m.token.None? && m.reason.None?
         && AllIn(m.stages, {StageCompleted, StageSkipped})
       case Failed =>
         && m.startedAt.Some? && m.finishedAt.Some? && m.token.None? && m.reason.Some?
         && AnyIs(m.stages, StageFailed)
         && AllIn(m.stages, {StageCompleted, StageFailed, StageSkipped})
       case Interrupted =>
         && m.startedAt.Some? && m.finishedAt.Some? && m.token.None? && m.reason.Some?
         && AnyIs(m.stages, StageInterrupted)
         && !AnyIs(m.stages, StageRunning)
  }

  /** `OrchestrationStore.get` returns the manifest instead of raising. */
  predicate Readable(m: Manifest) {
    ManifestReadable(m) && forall i | 0 <= i < |m.stages| :: StageReadable(m.stages[i])
  }

  // ---------------------------------------------------------------- the shape of a manifest

  predicate Done(x: StageRow) {
    x.status.StageCompleted? || x.status.StageFailed? || x.status.StageSkipped?
  }

  predicate AllDone(stages: seq<StageRow>) {
    forall i | 0 <= i < |stages| :: Done(stages[i])
  }

  /** Before any stage that is not pending, all stages are completed, failed or skipped. */
  predicate Shaped(stages: seq<StageRow>) {
    forall i, j | 0 <= i < j < |stages| && stages[j].status != StagePending :: Done(stages[i])
  }

  /**
    The shape spelled out: some stages that are done, then at most one that runs or was
    interrupted, then stages that are pending.
   */
  lemma {:induction false} ShapeOf(stages: seq<StageRow>) returns (k: nat)
    requires Shaped(stages)
    ensures k <= |stages| && forall i | 0 <= i < k :: Done(stages[i])
    ensures k < |stages| ==> stages[k].status.StageRunning? || stages[k].status.StageInterrupted? || stages[k].status.StagePending?
    ensures forall i | k < i < |stages| :: stages[i].status == StagePending
  {
    if stages == [] {
      k := 0;
    } else {
      var n := |stages| - 1;
      var before := stages[..n];
      k := ShapeOf(before);
      assert forall i | 0 <= i < n :: before[i] == stages[i];
      if k == n && Done(stages[n]) {
        k := n + 1;
      } else if k < n {
        assert before[k] == stages[k];
      }
    }
  }

  /** The row constraints are at least as strict as the reader's stage validator. */
  lemma ChecksSuffice(x: StageRow)
    requires StageChecks(x)
    ensures StageReadable(x)
  {
  }

  /** What is known of a manifest beyond its row constraints. */
  predicate Consistent(m: Manifest) {
    && m.stages != [] && ManifestChecks(m) && Shaped(m.stages)
    && (forall i | 0 <= i < |m.stages| :: StageChecks(m.stages[i]))
    && (m.status == Pending ==> AllIn(m.stages, {StagePending}))
    && (m.status == Completed ==> AllIn(m.stages, {StageCompleted, StageSkipped}))
    && (m.status == Failed ==> AllDone(m.stages) && AnyIs(m.stages, StageFailed))
    && (m.status == Interrupted ==> !AnyIs(m.stages, StageRunning))
  }

  /** An interrupted manifest in which no stage is interrupted. */
  predicate Orphaned(m: Manifest) {
    m.status == Interrupted && !AnyIs(m.stages, StageInterrupted)
  }

  /** Of consistent manifests the reader rejects exactly the orphaned ones. */
  lemma ReadableExactly(m: Manifest)
    requires Consistent(m)
    ensures Readable(m) <==> !Orphaned(m)
  {
    forall i | 0 <= i < |m.stages|
      ensures StageReadable(m.stages[i])
    {
      ChecksSuffice(m.stages[i]);
    }
  }
}
