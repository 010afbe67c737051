/**
  The mutable side: the stored tables, the store's and the history's methods that update
  them in place, and the worker's loop over the stages of a manifest.
 */
module Engine {
  import opened Bytes
  import opened Lifecycle
  import opened Protocol
  import opened RunHistory
  import opened Runs
  import opened Store
  import opened Wrappers
  import Recheck

  class Database {
    var clock: Time
    var manifests: map<Uuid, Manifest>
    var reports: set<StageId>
    var history: History

    ghost function Contents(): Db
      reads this
    {
      Db(clock, manifests, reports, history)
    }

    constructor ()
      ensures Contents() == START.db
    {
      clock, manifests, reports, history := 0, map[], {}, History(map[], map[], map[], map[]);
    }

    method Wait(elapsed: nat)
      modifies this`clock
      ensures Contents() == old(Contents()).(clock := old(clock) + elapsed)
    {
      clock := clock + elapsed;
    }
  }

  /** What a caller of a transaction learns: nothing, or the error raised. */
  function Raised(r: Result<Db, StoreError>): Option<StoreError> {
    match r
    case Success(_) => None
    case Failure(e) => Some(e)
  }

  lemma {:induction false} OldestExists(db: Db, ids: set<Uuid>)
    requires ids != {} && ids <= db.manifests.Keys
    ensures exists first :: first in ids && forall id | id in ids :: Before(db, first, id)
  {
    var some :| some in ids;
    var rest := ids - {some};
    assert forall id | id in ids :: id == some || id in rest;
    if rest == {} {
      assert Before(db, some, some);
    } else {
      OldestExists(db, rest);
      var first :| first in rest && forall id | id in rest :: Before(db, first, id);
      if Before(db, some, first) {
        assert forall id | id in ids :: Before(db, some, id);
      } else {
        assert forall id | id in ids :: Before(db, first, id);
      }
    }
  }

  class OrchestrationStore {
    const database: Database

    constructor (database: Database)
      ensures this.database == database
    {
      this.database := database;
    }

    /** UPDATE of one stage row, under the table's constraints. */
    method UpdateStage(id: StageId, row: StageRow) returns (raised: Option<StoreError>)
      requires HasStage(database.Contents(), id)
      modifies database`manifests
      ensures var r := PutStage(old(database.Contents()), id, row);
              database.Contents() == After(old(database.Contents()), r) && raised == Raised(r)
    {
      var m := database.manifests[id.assessment];
      var runs := database.history.runs;
      if !StageChecks(row) {
        return Some(ConstraintViolated);
      }
      if row.resultRun.Some?
         && (row.resultRun.value !in runs || runs[row.resultRun.value].project != m.project) {
        return Some(ConstraintViolated);
      }
      database.manifests := database.manifests[id.assessment := m.(stages := m.stages[id.ordinal := row])];
      return None;
    }

    /** UPDATE of one manifest row, under the table's constraints. */
    method UpdateManifest(id: Uuid, m: Manifest) returns (raised: Option<StoreError>)
      modifies database`manifests
      ensures var r := PutManifest(old(database.Contents()), id, m);
              database.Contents() == After(old(database.Contents()), r) && raised == Raised(r)
    {
      if !ManifestChecks(m) {
        return Some(ConstraintViolated);
      }
      database.manifests := database.manifests[id := m];
      return None;
    }

    /** The loops of `enqueue`: over the requests to be checked, then over the rows to be inserted. */
    method Enqueue(id: Uuid, project: string, requests: seq<StageRequest>, authorized: StageRequest -> bool)
      returns (raised: Option<StoreError>)
      modifies database`manifests
      ensures var r := Store.Enqueue(old(database.Contents()), id, project, requests, authorized);
              database.Contents() == After(old(database.Contents()), r) && raised == Raised(r)
    {
      if requests == [] {
        return Some(NoStages);
      }
      if !DistinctWork(requests) {
        return Some(RepeatedWork);
      }
      for i := 0 to |requests|
        invariant forall k | 0 <= k < i :: authorized(requests[k])
      {
        if !authorized(requests[i]) {
          return Some(NotAuthorized);
        }
      }
      if !DistinctPlans(requests) {
        return Some(RepeatedRun);
      }
      if PlansOf(requests) * database.history.runs.Keys != {} {
        return Some(RunExists);
      }
      if id in database.manifests {
        return Some(AssessmentExists);
      }
      var db := Db(database.clock, database.manifests, database.reports, database.history);
      if PlansOf(requests) * Planned(db) != {} {
        return Some(ConstraintViolated);
      }
      var rows: seq<StageRow> := [];
      for ordinal := 0 to |requests|
        invariant |rows| == ordinal
        invariant forall k | 0 <= k < ordinal :: rows[k] == NewStage(requests[k])
      {
        rows := rows + [NewStage(requests[ordinal])];
      }
      assert rows == NewManifest(db, project, requests).stages;
      database.manifests := database.manifests[id := Manifest(project, Pending, None, database.clock, None, None, None, rows)];
      return None;
    }

    /** SELECT ... ORDER BY created_at, id LIMIT 1. */
    method Oldest(pick: Option<Uuid>) returns (next: Option<Uuid>)
      ensures IsNext(database.Contents(), pick, next)
    {
      var db := Db(database.clock, database.manifests, database.reports, database.history);
      var candidates := set id | id in db.manifests.Keys && Claimable(db, pick, id);
      if candidates == {} {
        assert forall id | id in db.manifests :: Claimable(db, pick, id) ==> id in candidates;
        return None;
      }
      OldestExists(db, candidates);
      var first: Uuid :| first in candidates && forall id | id in candidates :: Before(db, first, id);
      return Some(first);
    }

    /** `claim` */
    method Claim(token: Uuid, pick: Option<Uuid>) returns (r: Result<Option<Uuid>, StoreError>)
      modifies database`manifests
      ensures r.Failure? ==> database.Contents() == old(database.Contents())
      ensures r.Success? ==> IsNext(old(database.Contents()), pick, r.value)
      ensures r == Success(None) ==> database.Contents() == old(database.Contents())
      ensures r.Success? && r.value.Some? ==>
                Store.Claim(old(database.Contents()), token, r.value.value) == Success(database.Contents())
    {
      var next := Oldest(pick);
      if next.None? {
        return Success(None);
      }
      var m := database.manifests[next.value];
      var raised := UpdateManifest(
        next.value, m.(status := Running, token := Some(token), startedAt := Some(database.clock)));
      return if raised.None? then Success(next) else Failure(raised.value);
    }

    /** `start_stage` */
    method StartStage(id: StageId, token: Uuid) returns (raised: Option<StoreError>)
      modifies database`manifests
      ensures var r := Store.StartStage(old(database.Contents()), id, token);
              database.Contents() == After(old(database.Contents()), r) && raised == Raised(r)
    {
      if id.assessment !in database.manifests {
        return Some(NotStartable);
      }
      var m := database.manifests[id.assessment];
      if id.ordinal >= |m.stages| || m.stages[id.ordinal].status != StagePending || m.token != Some(token) {
        return Some(NotStartable);
      }
      raised := UpdateStage(id, m.stages[id.ordinal].(status := StageRunning, startedAt := Some(database.clock)));
    }

    method OwnerOf(id: Uuid) returns (owner: Option<Uuid>)
      ensures owner == Owner(database.Contents(), id)
    {
      if id in database.manifests && database.manifests[id].status == Running {
        return database.manifests[id].token;
      }
      return None;
    }

    /** `skip_stage` */
    method SkipStage(id: StageId, token: Uuid, why: string) returns (raised: Option<StoreError>)
      modifies database`manifests
      ensures var r := Store.SkipStage(old(database.Contents()), id, token, why);
              database.Contents() == After(old(database.Contents()), r) && raised == Raised(r)
    {
      var owner := OwnerOf(id.assessment);
      if owner != Some(token) {
        return Some(NotOwned);
      }
      var m := database.manifests[id.assessment];
      if id.ordinal >= |m.stages| || m.stages[id.ordinal].status != StagePending {
        return Some(NotSkippable);
      }
      raised := UpdateStage(
        id, m.stages[id.ordinal].(status := StageSkipped, finishedAt := Some(database.clock), reason := Some(Skipped(why))));
    }

    /** `finish_stage` */
    method FinishStage(id: StageId, token: Uuid, status: StageStatus, reason: Option<Note>, resultRun: Option<Uuid>)
      returns (raised: Option<StoreError>)
      modifies database`manifests
      ensures var r := Store.FinishStage(old(database.Contents()), id, token, status, reason, resultRun);
              database.Contents() == After(old(database.Contents()), r) && raised == Raised(r)
    {
      if status != StageCompleted && status != StageFailed && status != StageInterrupted {
        return Some(InvalidStatus);
      }
      var owner := OwnerOf(id.assessment);
      if owner != Some(token) {
        return Some(NotOwned);
      }
      var m := database.manifests[id.assessment];
      if id.ordinal >= |m.stages| || m.stages[id.ordinal].status != StageRunning {
        return Some(NotFinishable);
      }
      raised := UpdateStage(
        id,
        m.stages[id.ordinal].(
          status := status, finishedAt := Some(database.clock), reason := reason, resultRun := resultRun));
    }

    /** `persist_recheck`: nothing stays behind when the stage cannot be completed. */
    method PersistRecheck(id: StageId, token: Uuid, report: Recheck.RecheckReport, failed: bool)
      returns (raised: Option<StoreError>)
      modifies database`manifests, database`reports
      ensures var r := Store.PersistRecheck(old(database.Contents()), id, token, report, failed);
              database.Contents() == After(old(database.Contents()), r) && raised == Raised(r)
    {
      if id.assessment !in database.manifests {
        return Some(ReportMismatch);
      }
      var m := database.manifests[id.assessment];
      if id.ordinal >= |m.stages| || report.project != m.project || m.stages[id.ordinal].request.kind != RecheckStage {
        return Some(ReportMismatch);
      }
      var x := m.stages[id.ordinal];
      var owner := OwnerOf(id.assessment);
      if owner != Some(token) || x.status != StageRunning {
        return Some(NotOwned);
      }
      if !Recheck.MatchesPlan(report, x.request.target.value) {
        return Some(ReportMismatch);
      }
      if id in database.reports {
        return Some(ConstraintViolated);
      }
      var before := database.reports;
      database.reports := before + {id};
      raised := UpdateStage(
        id,
        x.(status := if failed then StageFailed else StageCompleted, finishedAt := Some(database.clock),
           reason := if failed then Some(IncompleteRecheck) else None));
      if raised.Some? {
        database.reports := before;
      }
    }

    /** `finalize` */
    method Finalize(id: Uuid, token: Uuid) returns (raised: Option<StoreError>)
      modifies database`manifests
      ensures var r := Store.Finalize(old(database.Contents()), id, token);
              database.Contents() == After(old(database.Contents()), r) && raised == Raised(r)
    {
      var owner := OwnerOf(id);
      if owner != Some(token) {
        return Some(NotOwned);
      }
      var m := database.manifests[id];
      if AnyIs(m.stages, StageRunning) || (AnyIs(m.stages, StagePending) && !AnyIs(m.stages, StageInterrupted)) {
        return Some(Unfinished);
      }
      var status, reason;
      if AnyIs(m.stages, StageInterrupted) {
        status, reason := Interrupted, Some(SomeStageInterrupted);
      } else if AnyIs(m.stages, StageFailed) {
        status, reason := Failed, Some(SomeStageFailed);
      } else {
        status, reason := Completed, None;
      }
      raised := UpdateManifest(
        id, m.(status := status, token := None, finishedAt := Some(database.clock), reason := reason));
    }

    /** `reconcile_stale`: three UPDATE statements. */
    method ReconcileStale()
      modifies database`manifests, database`history
      ensures database.Contents() == Store.ReconcileStale(old(database.Contents()))
    {
      var db := Db(database.clock, database.manifests, database.reports, database.history);
      var stale := StaleRuns(db);
      database.history := InterruptRuns(database.history, stale, database.clock);
      database.manifests := map id | id in database.manifests :: Abandoned(database.manifests[id], database.clock);
    }
  }

  class HistoryService {
    const database: Database

    constructor (database: Database)
      ensures this.database == database
    {
      this.database := database;
    }

    /** `begin` */
    method Begin(run: Uuid, start: RunStart, owner: Option<StageId>) returns (raised: Option<StoreError>)
      modifies database`history
      ensures var r := Store.Begin(old(database.Contents()), run, start, owner);
              database.Contents() == After(old(database.Contents()), r) && raised == Raised(r)
    {
      var db := Db(database.clock, database.manifests, database.reports, database.history);
      var reserved := run in Planned(db);
      if reserved && (owner.None? || !Owns(db, owner.value, run, start.project)) {
        return Some(Reserved);
      }
      if owner.Some? && !reserved {
        return Some(NoReservation);
      }
      if run in database.history.runs {
        if !SameStart(database.history, run, start) {
          return Some(DifferentInput);
        }
        if owner.Some? {
          return Some(Replayed);
        }
        return None;
      }
      database.history := NewRun(database.history, database.clock, run, start);
      return None;
    }

    /** `ingest`: a file published before a failure stays published; rows do not. */
    method Ingest(run: Uuid, raw: seq<Byte>, stderr: seq<Byte>, adapters: Adapters)
      returns (answer: Result<ParsedReport, IngestError>)
      modifies database`history
      ensures var i := RunHistory.Ingest(old(database.history), database.clock, run, raw, stderr, adapters);
              database.history == i.history && answer == i.answer
    {
      var h := database.history;
      if run !in h.runs || run !in h.scans {
        return Failure(NoSuchRun);
      }
      var row, scan := h.runs[run], h.scans[run];
      if |raw| + |stderr| > row.maxBytes || |stderr| > MAX_STDERR {
        return Failure(OverLimit);
      }
      var parsed := adapters.parse(scan.scanner, row.input, scan.context, raw);
      if parsed.None? {
        return Failure(Unparsable);
      }
      var report := parsed.value;
      if !adapters.permits(row.input, scan.context, report) {
        return Failure(OutOfScope);
      }
      if row.status == RunSucceeded {
        return Repeated(h, run, raw, stderr, report);
      }
      if row.status != RunRunning {
        return Failure(TerminalRun);
      }
      var first := Publish(h.files, StdoutPath(h, run), raw);
      if first.None? {
        return Failure(WouldOverwrite);
      }
      database.history := database.history.(files := first.value);
      var second := Publish(first.value, StderrPath(run), stderr);
      if second.None? {
        return Failure(WouldOverwrite);
      }
      database.history := Recorded(database.history.(files := second.value), run, raw, stderr);
      database.history := Finish(database.history, database.clock, run, RunSucceeded, None);
      return Success(report);
    }

    /**
      `_finish`, on behalf of a scan that failed or was cancelled. Exactly a running run is
      settled, in both of its rows and at the present time; no other run, and no artifact, is
      touched; and coherent tables stay coherent.
     */
    method Fail(run: Uuid, status: RunStatus, error: RunError)
      modifies database`history
      ensures database.history == Finish(old(database.history), database.clock, run, status, Some(error))
      ensures var before, after := old(database.history), database.history;
              && after.runs.Keys == before.runs.Keys && after.scans.Keys == before.scans.Keys
              && after.outputs == before.outputs && after.files == before.files
              && (forall r | r in before.runs && (r != run || Terminal(before.runs[r].status)) ::
                    after.runs[r] == before.runs[r])
              && (forall r | r in before.scans && (r != run || Terminal(before.scans[r].status)) ::
                    after.scans[r] == before.scans[r])
      ensures var before, after := old(database.history), database.history;
              Coherent(before) && (status == RunFailed || status == RunInterrupted) ==>
                && Coherent(after) && Extends(before, after)
                && (run in before.runs && before.runs[run].status == RunRunning ==>
                      && after.runs[run].status == after.scans[run].status == status
                      && after.runs[run].finishedAt == after.scans[run].finishedAt == Some(database.clock)
                      && after.runs[run].error == after.scans[run].error == Some(error))
    {
      ghost var before := database.history;
      var runs, scans := database.history.runs, database.history.scans;
      if run in runs && runs[run].status == RunRunning {
        runs := runs[run := runs[run].(status := status, finishedAt := Some(database.clock), error := Some(error))];
      }
      if run in scans && scans[run].status == RunRunning {
        scans := scans[run := scans[run].(status := status, finishedAt := Some(database.clock), error := Some(error))];
      }
      database.history := database.history.(runs := runs, scans := scans);
      FinishUpdates(before, database.clock, run, status, Some(error), runs, scans);
      if Coherent(before) && (status == RunFailed || status == RunInterrupted) {
        FinishKeeps(before, database.clock, run, status, Some(error));
        if run in before.runs {
          assert RunCoherent(before, run);
        }
      }
    }
  }

  /** The two guarded updates are what finishing a run amounts to. */
  lemma FinishUpdates(
    h: History, now: Time, run: Uuid, status: RunStatus, error: Option<RunError>,
    runs: map<Uuid, RunRow>, scans: map<Uuid, ScanRow>)
    requires runs == if run in h.runs && h.runs[run].status == RunRunning
                     then h.runs[run := h.runs[run].(status := status, finishedAt := Some(now), error := error)] else h.runs
    requires scans == if run in h.scans && h.scans[run].status == RunRunning
                      then h.scans[run := h.scans[run].(status := status, finishedAt := Some(now), error := error)] else h.scans
    ensures Finish(h, now, run, status, error) == h.(runs := runs, scans := scans)
  {
    assert Finish(h, now, run, status, error).runs == runs;
    assert Finish(h, now, run, status, error).scans == scans;
  }
}
