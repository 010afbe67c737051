/** `orchestration/worker.py`: the loop of one worker run, as a path of the protocol. */
module AssessmentWork {
  import opened Bytes
  import opened Engine
  import opened Lifecycle
  import opened Protocol
  import opened ProtocolLaws
  import opened RunHistory
  import opened Store
  import opened Wrappers
  import Evidence
  import Recheck

  /** Some steps lead from `s` to `t`. */
  ghost predicate Reaches(s: Sys, t: Sys) {
    exists states: seq<Sys>, events: seq<Event> ::
      Chain(states, events) && states[0] == s && states[|events|] == t
  }

  lemma ReachesItself(s: Sys)
    ensures Reaches(s, s)
  {
    var states: seq<Sys>, events: seq<Event> := [s], [];
    assert Chain(states, events) && states[0] == s && states[|events|] == s;
  }

  lemma ReachesNext(s: Sys, t: Sys, e: Event, u: Sys)
    requires Reaches(s, t) && Step(t, e, u)
    ensures Reaches(s, u)
  {
    var states: seq<Sys>, events: seq<Event> :| Chain(states, events) && states[0] == s && states[|events|] == t;
    var more, past := states + [u], events + [e];
    forall i | 0 <= i < |past|
      ensures Step(more[i], past[i], more[i + 1])
    {
      if i < |events| {
        assert more[i] == states[i] && past[i] == events[i] && more[i + 1] == states[i + 1];
      }
    }
    assert Chain(more, past) && more[0] == s && more[|past|] == u;
  }

  lemma ReachesKeeps(s: Sys, t: Sys)
    requires Reaches(s, t) && Inv(s)
    ensures Inv(t)
  {
    var states: seq<Sys>, events: seq<Event> :| Chain(states, events) && states[0] == s && states[|events|] == t;
    ChainKeeps(states, events, |events|);
  }

  lemma ReachesLater(s: Sys, t: Sys)
    requires Reaches(s, t) && Inv(s)
    ensures Later(s.db, t.db)
  {
    var states: seq<Sys>, events: seq<Event> :| Chain(states, events) && states[0] == s && states[|events|] == t;
    ChainForward(states, events, 0, |events|);
  }

  lemma ChainsJoin(xs: seq<Sys>, es: seq<Event>, ys: seq<Sys>, fs: seq<Event>)
    requires Chain(xs, es) && Chain(ys, fs) && xs[|es|] == ys[0]
    ensures Chain(xs[..|es|] + ys, es + fs)
  {
    var states, events := xs[..|es|] + ys, es + fs;
    forall i | 0 <= i < |events|
      ensures Step(states[i], events[i], states[i + 1])
    {
      if i < |es| {
        assert states[i] == xs[i] && events[i] == es[i] && states[i + 1] == xs[i + 1];
      } else {
        assert states[i] == ys[i - |es|] && events[i] == fs[i - |es|] && states[i + 1] == ys[i - |es| + 1];
      }
    }
  }

  lemma ReachesJoin(s: Sys, t: Sys, u: Sys)
    requires Reaches(s, t) && Reaches(t, u)
    ensures Reaches(s, u)
  {
    var xs: seq<Sys>, es: seq<Event> :| Chain(xs, es) && xs[0] == s && xs[|es|] == t;
    var ys: seq<Sys>, fs: seq<Event> :| Chain(ys, fs) && ys[0] == t && ys[|fs|] == u;
    ChainsJoin(xs, es, ys, fs);
    var states, events := xs[..|es|] + ys, es + fs;
    assert states[0] == s && states[|events|] == u;
  }

  lemma ReachesElsewhere(s: Sys, t: Sys, what: Outside, db: Db)
    requires Reaches(s, t) && OtherStep(t, what, db)
    ensures Reaches(s, t.(db := db))
  {
    ReachesNext(s, t, Elsewhere(what), t.(db := db));
  }

  lemma ReachesStage(s: Sys, t: Sys, move: Move, db: Db, next: nat, phase: Phase)
    requires Reaches(s, t) && t.worker.At? && StageStep(t, move, db, next, phase)
    ensures Reaches(s, Sys(db, At(t.worker.assessment, t.worker.token, next, phase), t.tokens))
  {
    ReachesNext(s, t, AtStage(move), Sys(db, At(t.worker.assessment, t.worker.token, next, phase), t.tokens));
  }

  lemma ReachesCrash(s: Sys, t: Sys)
    requires Reaches(s, t)
    ensures Reaches(s, t.(worker := Idle))
  {
    ReachesNext(s, t, Crash, t.(worker := Idle));
  }

  lemma StageThere(s: Sys, t: Sys, id: StageId)
    requires Reaches(s, t) && Inv(s) && HasStage(s.db, id)
    ensures HasStage(t.db, id)
  {
    ReachesLater(s, t);
    assert LaterManifest(s.db.manifests[id.assessment], t.db.manifests[id.assessment]);
  }

  // ---------------------------------------------------------------- what the world does

  /** How a scan goes: `start` is what its run is begun with, if it gets that far. */
  datatype ScanFate =
    | ScanEnds(start: Option<RunStart>, raw: seq<Byte>, stderr: seq<Byte>, adapters: Adapters)
    | ScanFails(start: Option<RunStart>)
    | ScanCancelled(start: Option<RunStart>)
    | ScanDies

  datatype RecheckFate =
    | RecheckEnds(report: Recheck.RecheckReport)
    | RecheckFails
    | RecheckCancelled
    | RecheckDies

  /**
    What becomes of one stage: whether the operator interrupts before it starts, whether its
    request is still authorized, how long it takes, and how its work goes. The fate after the
    last stage says whether the operator interrupts once all of them have finished.
   */
  datatype Fate = Fate(interrupted: bool, authorized: bool, elapsed: nat, scan: ScanFate, recheck: RecheckFate)

  /** How a stage is left: normally, by the operator's interrupt, or by an error that nobody handles. */
  datatype Exit = Went | OperatorStopped | Escaped

  /** How `run_one` is left. */
  datatype Return = NothingPending | Returned(manifest: Manifest) | Interrupt | Error

  /** Some manifest is readable, and interrupted or with all of its stages finished. */
  predicate LeftInterrupted(manifests: map<Uuid, Manifest>) {
    exists id :: id in manifests && Readable(manifests[id])
                 && (manifests[id].status == Interrupted || Settled(manifests[id]))
  }

  /**
    What an ending says of the stored manifests: a normal return hands over a stored manifest
    that is settled and readable, an interrupt leaves one that is readable and either interrupted
    or settled.
   */
  predicate Reports(r: Return, manifests: map<Uuid, Manifest>) {
    && (r.Returned? ==>
          Settled(r.manifest) && Readable(r.manifest) && exists id :: id in manifests && manifests[id] == r.manifest)
    && (r == Interrupt ==> LeftInterrupted(manifests))
  }

  // ---------------------------------------------------------------- what a stage's row says of its fate

  predicate RowIs(row: StageRow, status: StageStatus, reason: Option<Note>) {
    row.status == status && row.reason == reason
  }

  predicate AllComplete(report: Recheck.RecheckReport) {
    forall i | 0 <= i < |report.acquisitions| :: report.acquisitions[i].status == Evidence.Completed
  }

  /** The report is of the project, and covers the plan of the request. */
  predicate Answers(report: Recheck.RecheckReport, request: StageRequest, project: string) {
    && report.project == project && request.kind == Lifecycle.RecheckStage
    && Recheck.MatchesPlan(report, request.target.value)
  }

  /**
    The row of a recheck stage that was left: completed exactly if a report that was stored has
    every acquisition complete, failed as incomplete if it has not, failed if none was stored,
    and interrupted exactly if the operator cancelled it.
   */
  predicate RecheckedRow(row: StageRow, fate: RecheckFate, project: string) {
    match fate
    case RecheckEnds(report) =>
      || (Answers(report, row.request, project) && AllComplete(report) && RowIs(row, StageCompleted, None))
      || (Answers(report, row.request, project) && !AllComplete(report) && RowIs(row, StageFailed, Some(IncompleteRecheck)))
      || RowIs(row, StageFailed, Some(ExecutionFailed))
    case RecheckFails => RowIs(row, StageFailed, Some(ExecutionFailed))
    case RecheckCancelled => RowIs(row, StageInterrupted, Some(OperatorCancelled))
    case RecheckDies => false
  }

  /** The run recorded exactly these bytes as its output. */
  predicate RecordedOutput(h: History, run: Option<Uuid>, raw: seq<Byte>, stderr: seq<Byte>) {
    run.Some? && run.value in h.outputs && h.outputs[run.value] == Output(Evidence.Sha256(raw), Evidence.Sha256(stderr))
  }

  /**
    The row of a scanner stage that was left: completed only if the scan ended and its planned
    run recorded that output, failed if not, and interrupted exactly if the operator cancelled it.
   */
  predicate ScannerRow(row: StageRow, fate: ScanFate, h: History) {
    match fate
    case ScanEnds(start, raw, stderr, _) =>
      || (start.Some? && RowIs(row, StageCompleted, None) && row.resultRun == row.request.plannedRun
          && RecordedOutput(h, row.request.plannedRun, raw, stderr))
      || RowIs(row, StageFailed, Some(ExecutionFailed))
    case ScanFails(_) => RowIs(row, StageFailed, Some(ExecutionFailed))
    case ScanCancelled(_) => RowIs(row, StageInterrupted, Some(OperatorCancelled))
    case ScanDies => false
  }

  /** The row of a stage that was left, by what became of it. */
  predicate RowSays(row: StageRow, fate: Fate, project: string, h: History) {
    if row.request.skipReason.Some? then RowIs(row, StageSkipped, Some(Skipped(row.request.skipReason.value)))
    else if row.request.kind == Lifecycle.RecheckStage then RecheckedRow(row, fate.recheck, project)
    else ScannerRow(row, fate.scan, h)
  }

  /** The first `n` stages of a manifest were authorized and not interrupted, and their rows say what became of them. */
  predicate RowsSay(db: Db, id: Uuid, fates: nat -> Fate, n: nat) {
    && id in db.manifests && n <= |db.manifests[id].stages|
    && forall i: nat | i < n ::
         && fates(i).authorized && !fates(i).interrupted && Done(db.manifests[id].stages[i])
         && RowSays(db.manifests[id].stages[i], fates(i), db.manifests[id].project, db.history)
  }

  /** Every stage of a manifest was authorized and not interrupted, and its row says what became of it. */
  predicate StagesSay(m: Manifest, fates: nat -> Fate, h: History) {
    forall i: nat | i < |m.stages| ::
      fates(i).authorized && !fates(i).interrupted && RowSays(m.stages[i], fates(i), m.project, h)
  }

  /** A row once left says the same for ever. */
  lemma RowsStay(a: Db, b: Db, id: Uuid, fates: nat -> Fate, n: nat)
    requires RowsSay(a, id, fates, n) && Later(a, b)
    ensures RowsSay(b, id, fates, n)
  {
    assert LaterManifest(a.manifests[id], b.manifests[id]);
    forall i: nat | i < n
      ensures b.manifests[id].stages[i] == a.manifests[id].stages[i]
    {
      assert LaterStage(a.manifests[id].stages[i], b.manifests[id].stages[i]);
    }
  }

  /** An ingestion that is answered has recorded the output. */
  lemma AnswerRecorded(h: History, now: Time, run: Uuid, raw: seq<Byte>, stderr: seq<Byte>, adapters: Adapters)
    requires Coherent(h)
    ensures var i := Ingest(h, now, run, raw, stderr, adapters);
            i.answer.Success? ==> RecordedOutput(i.history, Some(run), raw, stderr)
  {
    IngestKeeps(h, now, run, raw, stderr, adapters);
  }

  /** A turn of the stage loop may start from where the loop has got to. */
  lemma TurnBegins(start: Sys, here: Sys, id: StageId)
    requires Reaches(start, here) && Inv(start) && HasStage(start.db, id)
    ensures Inv(here) && Reaches(here, here) && HasStage(here.db, id)
  {
    ReachesKeeps(start, here);
    ReachesItself(here);
    StageThere(start, here, id);
  }

  /** What one turn adds. */
  lemma TurnEnds(start: Sys, here: Sys, next: Sys, id: Uuid, fates: nat -> Fate, n: nat)
    requires Reaches(start, here) && Reaches(here, next) && Inv(here)
    requires RowsSay(here.db, id, fates, n) && HasStage(next.db, StageId(id, n))
    requires var row := StageAt(next.db, StageId(id, n));
             && fates(n).authorized && !fates(n).interrupted && row.status != StageInterrupted
             && RowSays(row, fates(n), next.db.manifests[id].project, next.db.history)
    ensures Reaches(start, next) && RowsSay(next.db, id, fates, n + 1)
  {
    ReachesJoin(start, here, next);
    ReachesLater(here, next);
    RowsStay(here.db, next.db, id, fates, n);
  }

  class AssessmentWorker {
    const database: Database
    const store: OrchestrationStore
    const history: HistoryService

    ghost predicate Wired() {
      store.database == database && history.database == database
    }

    constructor (database: Database)
      ensures this.database == database && Wired()
    {
      this.database := database;
      store := new OrchestrationStore(database);
      history := new HistoryService(database);
    }

    ghost function Now(worker: Worker, tokens: set<Uuid>): Sys
      reads database
    {
      Sys(database.Contents(), worker, tokens)
    }

    /** Where the worker is, given how a stage was left. */
    ghost function Left(id: StageId, token: Uuid, exit: Exit): Worker {
      match exit
      case Went => At(id.assessment, token, id.ordinal + 1, Between)
      case OperatorStopped => At(id.assessment, token, id.ordinal, Stopped)
      case Escaped => Idle
    }

    /** The stage has its row, for the same request of the same project. */
    ghost predicate LeftRow(before: Db, after: Db, id: StageId) {
      && HasStage(before, id) && HasStage(after, id)
      && StageAt(after, id).request == StageAt(before, id).request
      && after.manifests[id.assessment].project == before.manifests[id.assessment].project
    }

    /** The planned run of the stage can be begun now. */
    ghost predicate CanBegin(db: Db, id: StageId, run: Uuid, start: Option<RunStart>) {
      start.Some? && run !in db.history.runs && Begin(db, run, start.value, Some(id)).Success?
    }

    /** The scan ends, its run can be begun, and the ingestion of its output is answered with a report. */
    ghost predicate ScanAnswered(db: Db, id: StageId, run: Uuid, fate: ScanFate) {
      && fate.ScanEnds? && CanBegin(db, id, run, fate.start)
      && var begun := Begin(db, run, fate.start.value, Some(id)).value;
         Ingest(begun.history, begun.clock, run, fate.raw, fate.stderr, fate.adapters).answer.Success?
    }

    /** The report can be stored with the stage now. */
    ghost predicate CanStore(db: Db, id: StageId, token: Uuid, report: Recheck.RecheckReport) {
      PersistRecheck(db, id, token, report, !AllComplete(report)).Success?
    }

    /** A stage finished as failed or interrupted; an error in doing so escapes. */
    method Conclude(id: StageId, token: Uuid, stopped: bool, resultRun: Option<Uuid>, ghost origin: Sys, ghost tokens: set<Uuid>)
      returns (exit: Exit)
      requires Wired()
      requires Reaches(origin, Now(At(id.assessment, token, id.ordinal, Inside(false)), tokens))
      modifies database
      ensures exit == Escaped || exit == (if stopped then OperatorStopped else Went)
      ensures Reaches(origin, Now(Left(id, token, exit), tokens))
      ensures database.history == old(database.history)
      ensures exit != Escaped ==> LeftRow(old(database.Contents()), database.Contents(), id)
      ensures exit != Escaped ==>
                if stopped then RowIs(StageAt(database.Contents(), id), StageInterrupted, Some(OperatorCancelled))
                else RowIs(StageAt(database.Contents(), id), StageFailed, Some(ExecutionFailed))
    {
      ghost var before := Now(At(id.assessment, token, id.ordinal, Inside(false)), tokens);
      var status := if stopped then StageInterrupted else StageFailed;
      var reason := if stopped then OperatorCancelled else ExecutionFailed;
      var raised := store.FinishStage(id, token, status, Some(reason), resultRun);
      if raised.Some? {
        ReachesCrash(origin, before);
        return Escaped;
      }
      exit := if stopped then OperatorStopped else Went;
      if stopped {
        ReachesStage(origin, before, StopStage(resultRun), database.Contents(), id.ordinal, Stopped);
      } else {
        ReachesStage(origin, before, FailStage(resultRun), database.Contents(), id.ordinal + 1, Between);
      }
    }

    /** The run of a stage as its result, if the run exists. */
    method ResultRun(run: Uuid) returns (r: Option<Uuid>)
      ensures r == if run in database.history.runs then Some(run) else None
    {
      return if run in database.history.runs then Some(run) else None;
    }

    /** The start of `scan_history`: a run that exists already is never begun again. */
    method BeginScan(id: StageId, token: Uuid, run: Uuid, start: Option<RunStart>, ghost origin: Sys, ghost tokens: set<Uuid>)
      returns (begun: bool)
      requires Wired()
      requires Reaches(origin, Now(At(id.assessment, token, id.ordinal, Inside(false)), tokens))
      modifies database
      ensures Reaches(origin, Now(At(id.assessment, token, id.ordinal, Inside(false)), tokens))
      ensures database.manifests == old(database.manifests)
      ensures begun <==> CanBegin(old(database.Contents()), id, run, start)
      ensures begun ==> Begin(old(database.Contents()), run, start.value, Some(id)) == Success(database.Contents())
    {
      ghost var before := Now(At(id.assessment, token, id.ordinal, Inside(false)), tokens);
      if start.None? || run in database.history.runs {
        return false;
      }
      var raised := history.Begin(run, start.value, Some(id));
      if raised.None? {
        ReachesElsewhere(origin, before, BeginRun(run, start.value, Some(id)), database.Contents());
      }
      return raised.None?;
    }

    /** The end of `scan_history`, and of the stage if the output is accepted. */
    method IngestScan(
      id: StageId, token: Uuid, run: Uuid, raw: seq<Byte>, stderr: seq<Byte>, adapters: Adapters,
      ghost origin: Sys, ghost tokens: set<Uuid>)
      returns (exit: Exit)
      requires Wired() && HasStage(database.Contents(), id)
      requires StageAt(database.Contents(), id).request.plannedRun == Some(run) && Inv(origin)
      requires Reaches(origin, Now(At(id.assessment, token, id.ordinal, Inside(false)), tokens))
      modifies database
      ensures exit != OperatorStopped
      ensures Reaches(origin, Now(Left(id, token, exit), tokens))
      ensures exit == Went ==>
                && LeftRow(old(database.Contents()), database.Contents(), id)
                && var row := StageAt(database.Contents(), id);
                   if Ingest(old(database.history), old(database.clock), run, raw, stderr, adapters).answer.Success? then
                     && RowIs(row, StageCompleted, None) && row.resultRun == Some(run)
                     && RecordedOutput(database.history, Some(run), raw, stderr)
                   else RowIs(row, StageFailed, Some(ExecutionFailed))
    {
      ghost var before := Now(At(id.assessment, token, id.ordinal, Inside(false)), tokens);
      ReachesKeeps(origin, before);
      AnswerRecorded(database.history, database.clock, run, raw, stderr, adapters);
      var answer := history.Ingest(run, raw, stderr, adapters);
      if answer.Failure? {
        ReachesElsewhere(origin, before, IngestRun(run, raw, stderr, adapters), database.Contents());
        if answer.error == Unparsable || answer.error == NoSuchRun {
          ReachesCrash(origin, Now(At(id.assessment, token, id.ordinal, Inside(false)), tokens));
          return Escaped;
        }
        var result := ResultRun(run);
        exit := Conclude(id, token, false, result, origin, tokens);
        return;
      }
      ReachesStage(origin, before, ScanReturns(raw, stderr, adapters), database.Contents(), id.ordinal, Inside(true));
      exit := this.CompleteScan(id, token, run, origin, tokens);
    }

    /** The stage of a scan whose output was accepted. */
    method CompleteScan(id: StageId, token: Uuid, run: Uuid, ghost origin: Sys, ghost tokens: set<Uuid>)
      returns (exit: Exit)
      requires Wired() && HasStage(database.Contents(), id)
      requires StageAt(database.Contents(), id).request.plannedRun == Some(run)
      requires Reaches(origin, Now(At(id.assessment, token, id.ordinal, Inside(true)), tokens))
      modifies database
      ensures exit != OperatorStopped
      ensures Reaches(origin, Now(Left(id, token, exit), tokens))
      ensures database.history == old(database.history)
      ensures exit == Went ==>
                && LeftRow(old(database.Contents()), database.Contents(), id)
                && var row := StageAt(database.Contents(), id);
                   RowIs(row, StageCompleted, None) && row.resultRun == Some(run)
    {
      ghost var scanned := Now(At(id.assessment, token, id.ordinal, Inside(true)), tokens);
      var raised := store.FinishStage(id, token, StageCompleted, None, Some(run));
      if raised.Some? {
        ReachesCrash(origin, scanned);
        return Escaped;
      }
      ReachesStage(origin, scanned, Move.CompleteScan, database.Contents(), id.ordinal + 1, Between);
      return Went;
    }

    /** A scan that produced nothing to ingest: its run, if it was begun, is settled first. */
    method AbortScan(
      id: StageId, token: Uuid, run: Uuid, start: Option<RunStart>, stopped: bool, ghost origin: Sys, ghost tokens: set<Uuid>)
      returns (exit: Exit)
      requires Wired()
      requires Reaches(origin, Now(At(id.assessment, token, id.ordinal, Inside(false)), tokens))
      modifies database
      ensures exit == Escaped || exit == (if stopped then OperatorStopped else Went)
      ensures Reaches(origin, Now(Left(id, token, exit), tokens))
      ensures exit != Escaped ==> LeftRow(old(database.Contents()), database.Contents(), id)
      ensures exit != Escaped ==>
                if stopped then RowIs(StageAt(database.Contents(), id), StageInterrupted, Some(OperatorCancelled))
                else RowIs(StageAt(database.Contents(), id), StageFailed, Some(ExecutionFailed))
    {
      var begun := BeginScan(id, token, run, start, origin, tokens);
      if begun {
        ghost var before := Now(At(id.assessment, token, id.ordinal, Inside(false)), tokens);
        var status := if stopped then RunInterrupted else RunFailed;
        var error := if stopped then RunCancelled else RunExecutionFailed;
        history.Fail(run, status, error);
        ReachesElsewhere(origin, before, AbandonRun(run, status, Some(error)), database.Contents());
      }
      var result := ResultRun(run);
      exit := Conclude(id, token, stopped, result, origin, tokens);
    }

    /** `_scanner_stage` */
    method ScannerStage(id: StageId, token: Uuid, run: Uuid, fate: ScanFate, ghost origin: Sys, ghost tokens: set<Uuid>)
      returns (exit: Exit)
      requires Wired() && HasStage(database.Contents(), id)
      requires StageAt(database.Contents(), id).request.plannedRun == Some(run) && Inv(origin)
      requires Reaches(origin, Now(At(id.assessment, token, id.ordinal, Inside(false)), tokens))
      modifies database
      ensures Reaches(origin, Now(Left(id, token, exit), tokens))
      ensures exit != Escaped ==>
                && LeftRow(old(database.Contents()), database.Contents(), id)
                && ScannerRow(StageAt(database.Contents(), id), fate, database.history)
                && (StageAt(database.Contents(), id).status == StageCompleted
                    <==> ScanAnswered(old(database.Contents()), id, run, fate))
                && (exit == OperatorStopped <==> fate.ScanCancelled?)
    {
      match fate
      case ScanEnds(start, raw, stderr, adapters) =>
        var begun := BeginScan(id, token, run, start, origin, tokens);
        if begun {
          exit := IngestScan(id, token, run, raw, stderr, adapters, origin, tokens);
        } else {
          var result := ResultRun(run);
          exit := Conclude(id, token, false, result, origin, tokens);
        }
      case ScanFails(start) => exit := AbortScan(id, token, run, start, false, origin, tokens);
      case ScanCancelled(start) => exit := AbortScan(id, token, run, start, true, origin, tokens);
      case ScanDies =>
        ReachesCrash(origin, Now(At(id.assessment, token, id.ordinal, Inside(false)), tokens));
        exit := Escaped;
    }

    /** `_recheck_stage` */
    method RecheckStage(id: StageId, token: Uuid, fate: RecheckFate, ghost origin: Sys, ghost tokens: set<Uuid>)
      returns (exit: Exit)
      requires Wired()
      requires Reaches(origin, Now(At(id.assessment, token, id.ordinal, Inside(false)), tokens))
      modifies database
      ensures Reaches(origin, Now(Left(id, token, exit), tokens))
      ensures exit != Escaped ==>
                && LeftRow(old(database.Contents()), database.Contents(), id)
                && RecheckedRow(StageAt(database.Contents(), id), fate, database.manifests[id.assessment].project)
                && (RowIs(StageAt(database.Contents(), id), StageFailed, Some(ExecutionFailed))
                    <==> fate.RecheckFails? || (fate.RecheckEnds? && !CanStore(old(database.Contents()), id, token, fate.report)))
                && (exit == OperatorStopped <==> fate.RecheckCancelled?)
    {
      match fate
      case RecheckEnds(report) =>
        ghost var before := Now(At(id.assessment, token, id.ordinal, Inside(false)), tokens);
        var failed := exists i :: 0 <= i < |report.acquisitions| && !report.acquisitions[i].status.Completed?;
        var raised := store.PersistRecheck(id, token, report, failed);
        if raised.None? {
          ReachesStage(origin, before, PersistReport(report, failed), database.Contents(), id.ordinal + 1, Between);
          exit := Went;
        } else {
          exit := Conclude(id, token, false, None, origin, tokens);
        }
      case RecheckFails => exit := Conclude(id, token, false, None, origin, tokens);
      case RecheckCancelled => exit := Conclude(id, token, true, None, origin, tokens);
      case RecheckDies =>
        ReachesCrash(origin, Now(At(id.assessment, token, id.ordinal, Inside(false)), tokens));
        exit := Escaped;
    }

    /** One iteration of the stage loop. */
    method RunStage(id: StageId, token: Uuid, fate: Fate, ghost origin: Sys, ghost tokens: set<Uuid>) returns (exit: Exit)
      requires Wired() && Inv(origin) && HasStage(database.Contents(), id)
      requires Reaches(origin, Now(At(id.assessment, token, id.ordinal, Between), tokens))
      modifies database
      ensures Reaches(origin, Now(Left(id, token, exit), tokens))
      ensures exit != Escaped ==>
                && fate.authorized && LeftRow(old(database.Contents()), database.Contents(), id)
                && RowSays(
                     StageAt(database.Contents(), id), fate, database.manifests[id.assessment].project, database.history)
                && (exit == OperatorStopped <==> StageAt(database.Contents(), id).status == StageInterrupted)
    {
      ghost var before := Now(At(id.assessment, token, id.ordinal, Between), tokens);
      var request := database.manifests[id.assessment].stages[id.ordinal].request;
      if !fate.authorized {
        ReachesCrash(origin, before);
        return Escaped;
      }
      if request.skipReason.Some? {
        var refused := store.SkipStage(id, token, request.skipReason.value);
        if refused.Some? {
          ReachesCrash(origin, before);
          return Escaped;
        }
        ReachesStage(origin, before, SkipNext, database.Contents(), id.ordinal + 1, Between);
        return Went;
      }
      var raised := store.StartStage(id, token);
      if raised.Some? {
        ReachesCrash(origin, before);
        return Escaped;
      }
      ReachesStage(origin, before, StartNext, database.Contents(), id.ordinal, Inside(false));
      ghost var inside := Now(At(id.assessment, token, id.ordinal, Inside(false)), tokens);
      database.Wait(fate.elapsed);
      ReachesElsewhere(origin, inside, Tick(fate.elapsed), database.Contents());
      if request.kind == Lifecycle.RecheckStage {
        exit := this.RecheckStage(id, token, fate.recheck, origin, tokens);
      } else {
        exit := ScannerStage(id, token, request.plannedRun.value, fate.scan, origin, tokens);
      }
    }

    /** A manifest closed by the worker that owns it. */
    method CloseManifest(id: Uuid, token: Uuid, next: nat, phase: Phase, ghost origin: Sys, ghost tokens: set<Uuid>)
      returns (closed: bool)
      requires Wired() && Inv(origin)
      requires Reaches(origin, Now(At(id, token, next, phase), tokens))
      modifies database
      ensures Reaches(origin, Now(Idle, tokens))
      ensures closed ==> id in database.manifests && Readable(database.manifests[id])
      ensures closed && phase == Between ==> Settled(database.manifests[id])
      ensures closed && phase == Stopped ==> database.manifests[id].status == Interrupted
      ensures closed ==>
                && id in old(database.manifests) && database.history == old(database.history)
                && database.manifests[id].stages == old(database.manifests)[id].stages
                && database.manifests[id].project == old(database.manifests)[id].project
    {
      ghost var before := Now(At(id, token, next, phase), tokens);
      var raised := store.Finalize(id, token);
      if raised.Some? {
        ReachesCrash(origin, before);
        return false;
      }
      ghost var after := Now(Idle, tokens);
      ReachesNext(origin, before, Close, after);
      ReachesKeeps(origin, before);
      ClosedManifest(before, after);
      return true;
    }

    /**
      An operator's interrupt: the manifest is closed if its stages allow it, whether one of
      them was interrupted or all have finished, and left to reconciliation otherwise.
     */
    method InterruptManifest(id: Uuid, token: Uuid, next: nat, phase: Phase, ghost origin: Sys, ghost tokens: set<Uuid>)
      returns (r: Return)
      requires Wired() && Inv(origin)
      requires !phase.Inside? && Reaches(origin, Now(At(id, token, next, phase), tokens))
      modifies database
      ensures Reaches(origin, Now(Idle, tokens))
      ensures (r == Interrupt && Reports(r, database.manifests)) || r == Error
      ensures r == Interrupt ==>
                && id in database.manifests && Readable(database.manifests[id])
                && (phase == Between ==> Settled(database.manifests[id]))
                && (phase == Stopped ==> database.manifests[id].status == Interrupted)
    {
      var closed := CloseManifest(id, token, next, phase, origin, tokens);
      return if closed then Interrupt else Error;
    }

    /** The end of the stage loop: the manifest is closed and read back. */
    method ReturnManifest(id: Uuid, token: Uuid, next: nat, ghost origin: Sys, ghost tokens: set<Uuid>) returns (r: Return)
      requires Wired() && Inv(origin)
      requires Reaches(origin, Now(At(id, token, next, Between), tokens))
      modifies database
      ensures Reaches(origin, Now(Idle, tokens))
      ensures (r.Returned? && Reports(r, database.manifests)) || r == Error
      ensures r.Returned? ==>
                && id in old(database.manifests) && database.history == old(database.history)
                && r.manifest.stages == old(database.manifests)[id].stages
                && r.manifest.project == old(database.manifests)[id].project
    {
      var closed := CloseManifest(id, token, next, Between, origin, tokens);
      return if closed then Returned(database.manifests[id]) else Error;
    }

    /**
      `run_one`. Whatever becomes of the stages, the tables move along a path of the protocol;
      a normal return means that no stage is left pending, running or interrupted, that the
      manifest is failed exactly when some stage failed, and that the reader accepts it.
     */
    method RunOne(token: Uuid, pick: Option<Uuid>, fates: nat -> Fate, ghost tokens: set<Uuid>) returns (r: Return)
      requires Wired() && Inv(Now(Idle, tokens)) && token !in tokens
      modifies database
      ensures Reaches(old(Now(Idle, tokens)), Now(Idle, tokens + {token}))
      ensures Reports(r, database.manifests)
      ensures r.Returned? ==> StagesSay(r.manifest, fates, database.history)
      ensures r == NothingPending ==>
                && database.Contents() == Store.ReconcileStale(old(database.Contents()))
                && IsNext(database.Contents(), pick, None)
    {
      ghost var origin, all := Now(Idle, tokens), tokens + {token};
      store.ReconcileStale();
      ReachesItself(origin);
      ghost var holding := Now(Holding(token), all);
      ReachesNext(origin, origin, Acquire(token), holding);
      var claimed := store.Claim(token, pick);
      if claimed.Failure? || claimed.value.None? {
        ReachesCrash(origin, holding);
        return if claimed.Success? then NothingPending else Error;
      }
      var id := claimed.value.value;
      ghost var start := Now(At(id, token, 0, Between), all);
      ReachesNext(origin, holding, ClaimNext(pick, id), start);
      ReachesKeeps(origin, start);
      r := RunStages(id, token, fates, start, all);
      ReachesJoin(origin, start, Now(Idle, all));
    }

    /** One turn of the stage loop, with the interrupt that may come before its stage. */
    method NextStage(id: StageId, token: Uuid, fate: Fate, ghost origin: Sys, ghost tokens: set<Uuid>)
      returns (left: Option<Return>)
      requires Wired() && Inv(origin) && HasStage(origin.db, id)
      requires Reaches(origin, Now(At(id.assessment, token, id.ordinal, Between), tokens))
      modifies database
      ensures left.None? ==> Reaches(origin, Now(At(id.assessment, token, id.ordinal + 1, Between), tokens))
      ensures left.Some? ==>
                && Reaches(origin, Now(Idle, tokens))
                && (left.value == Interrupt || left.value == Error) && Reports(left.value, database.manifests)
      ensures left.None? ==>
                && !fate.interrupted && fate.authorized && HasStage(database.Contents(), id)
                && var row := StageAt(database.Contents(), id);
                   row.status != StageInterrupted
                   && RowSays(row, fate, database.manifests[id.assessment].project, database.history)
    {
      var r;
      if fate.interrupted {
        r := InterruptManifest(id.assessment, token, id.ordinal, Between, origin, tokens);
        return Some(r);
      }
      StageThere(origin, Now(At(id.assessment, token, id.ordinal, Between), tokens), id);
      var exit := RunStage(id, token, fate, origin, tokens);
      match exit
      case Escaped => return Some(Error);
      case OperatorStopped =>
        r := InterruptManifest(id.assessment, token, id.ordinal, Stopped, origin, tokens);
        return Some(r);
      case Went => return None;
    }

    /** The stage loop, and what follows it. */
    method RunStages(id: Uuid, token: Uuid, fates: nat -> Fate, ghost start: Sys, ghost tokens: set<Uuid>) returns (r: Return)
      requires Wired() && Inv(start) && start == Now(At(id, token, 0, Between), tokens)
      modifies database
      ensures Reaches(start, Now(Idle, tokens))
      ensures r != NothingPending
      ensures Reports(r, database.manifests)
      ensures r.Returned? ==> StagesSay(r.manifest, fates, database.history)
    {
      ReachesItself(start);
      var count := |database.manifests[id].stages|;
      for n := 0 to count
        invariant Reaches(start, Now(At(id, token, n, Between), tokens))
        invariant RowsSay(database.Contents(), id, fates, n)
      {
        ghost var here := Now(At(id, token, n, Between), tokens);
        TurnBegins(start, here, StageId(id, n));
        var left := NextStage(StageId(id, n), token, fates(n), here, tokens);
        if left.Some? {
          ReachesJoin(start, here, Now(Idle, tokens));
          return left.value;
        }
        TurnEnds(start, here, Now(At(id, token, n + 1, Between), tokens), id, fates, n);
      }
      ghost var all := Now(At(id, token, count, Between), tokens);
      ReachesLater(start, all);
      if fates(count).interrupted {
        r := InterruptManifest(id, token, count, Between, start, tokens);
        return;
      }
      r := ReturnManifest(id, token, count, start, tokens);
    }
  }
}
