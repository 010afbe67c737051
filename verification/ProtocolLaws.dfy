/** What holds over every run of the assessment protocol, crashes included. */
module ProtocolLaws {
  import opened Lifecycle
  import opened Protocol
  import opened ProtocolInvariant
  import opened RunHistory
  import opened Store
  import opened Wrappers
  import Bytes
  import Recheck

  /** A chain of steps: the states passed through, and the event between each two. */
  predicate Chain(states: seq<Sys>, events: seq<Event>) {
    && |states| == |events| + 1
    && forall i | 0 <= i < |events| :: Step(states[i], events[i], states[i + 1])
  }

  /** A run of the protocol starts with empty tables. */
  predicate Run(states: seq<Sys>, events: seq<Event>) {
    Chain(states, events) && states[0] == START
  }

  lemma {:induction false} ChainKeeps(states: seq<Sys>, events: seq<Event>, i: nat)
    requires Chain(states, events) && Inv(states[0]) && i < |states|
    ensures Inv(states[i])
  {
    if i > 0 {
      ChainKeeps(states, events, i - 1);
      Invariant(states[i - 1], events[i - 1], states[i]);
    }
  }

  /** The invariant holds in every state of every run. */
  lemma Always(states: seq<Sys>, events: seq<Event>, i: nat)
    requires Run(states, events) && i < |states|
    ensures Inv(states[i])
  {
    Initially();
    ChainKeeps(states, events, i);
  }

  lemma NextInv(states: seq<Sys>, events: seq<Event>, i: nat)
    requires Run(states, events) && i < |events|
    ensures Inv(states[i]) && Step(states[i], events[i], states[i + 1])
  {
    Always(states, events, i);
  }

  // ---------------------------------------------------------------- shape and ownership

  /**
    In every state of every run, each manifest is some done stages, then at most one that
    runs or was interrupted, then pending ones; it carries a worker token exactly while it
    is running; and no two manifests run at once.
   */
  lemma Shape(states: seq<Sys>, events: seq<Event>, i: nat, id: Uuid) returns (k: nat)
    requires Run(states, events) && i < |states| && id in states[i].db.manifests
    ensures var stages := states[i].db.manifests[id].stages;
            && k <= |stages|
            && (forall n | 0 <= n < k :: Done(stages[n]))
            && (k < |stages| ==> stages[k].status.StageRunning? || stages[k].status.StageInterrupted? || stages[k].status.StagePending?)
            && (forall n | k < n < |stages| :: stages[n].status == StagePending)
    ensures states[i].db.manifests[id].token.Some? <==> states[i].db.manifests[id].status == Running
    ensures OneRunning(states[i].db)
  {
    Always(states, events, i);
    var m := states[i].db.manifests[id];
    assert Fits(m, states[i].db.clock, states[i].tokens, states[i].db.history);
    k := ShapeOf(m.stages);
  }

  // ---------------------------------------------------------------- nothing goes back

  function StageRank(x: StageStatus): nat {
    match x
    case StagePending => 0
    case StageRunning => 1
    case _ => 2
  }

  function Rank(x: AssessmentStatus): nat {
    match x
    case Pending => 0
    case Running => 1
    case _ => 2
  }

  predicate LaterStage(x: StageRow, y: StageRow) {
    && y.request == x.request && StageRank(x.status) <= StageRank(y.status)
    && (StageRank(x.status) == 2 ==> y == x)
  }

  predicate LaterManifest(m: Manifest, n: Manifest) {
    && n.project == m.project && n.createdAt == m.createdAt && |n.stages| == |m.stages|
    && (forall i | 0 <= i < |m.stages| :: LaterStage(m.stages[i], n.stages[i]))
    && Rank(m.status) <= Rank(n.status)
    && (Rank(m.status) == 2 ==> n == m)
  }

  /** Rows stay, keep what they were asked for, and never leave a terminal state. */
  predicate Later(a: Db, b: Db) {
    && (forall id | id in a.manifests :: id in b.manifests && LaterManifest(a.manifests[id], b.manifests[id]))
    && Extends(a.history, b.history)
    && a.clock <= b.clock
  }

  lemma LaterSame(a: Db)
    ensures Later(a, a)
  {
  }

  lemma LaterManifests(m: Manifest, n: Manifest, o: Manifest)
    requires LaterManifest(m, n) && LaterManifest(n, o)
    ensures LaterManifest(m, o)
  {
    forall i | 0 <= i < |m.stages|
      ensures LaterStage(m.stages[i], o.stages[i])
    {
      assert LaterStage(m.stages[i], n.stages[i]) && LaterStage(n.stages[i], o.stages[i]);
    }
  }

  lemma LaterTransitive(a: Db, b: Db, c: Db)
    requires Later(a, b) && Later(b, c)
    ensures Later(a, c)
  {
    ExtendsTransitive(a.history, b.history, c.history);
    forall id | id in a.manifests
      ensures id in c.manifests && LaterManifest(a.manifests[id], c.manifests[id])
    {
      LaterManifests(a.manifests[id], b.manifests[id], c.manifests[id]);
    }
  }

  /** A stage row written by the owner of a running manifest. */
  lemma PutLater(db: Db, id: StageId, row: StageRow, b: Db)
    requires HasStage(db, id) && db.manifests[id.assessment].status == Running
    requires LaterStage(StageAt(db, id), row) && PutStage(db, id, row) == Success(b)
    ensures Later(db, b)
  {
  }

  lemma SkipLater(db: Db, id: StageId, token: Uuid, why: string, b: Db)
    requires SkipStage(db, id, token, why) == Success(b)
    ensures Later(db, b)
  {
    PutLater(
      db, id, StageAt(db, id).(status := StageSkipped, finishedAt := Some(db.clock), reason := Some(Skipped(why))), b);
  }

  lemma StartLater(db: Db, id: StageId, token: Uuid, b: Db)
    requires HasStage(db, id) && db.manifests[id.assessment].status == Running && StartStage(db, id, token) == Success(b)
    ensures Later(db, b)
  {
    PutLater(db, id, StageAt(db, id).(status := StageRunning, startedAt := Some(db.clock)), b);
  }

  lemma FinishLater(
    db: Db, id: StageId, token: Uuid, status: StageStatus, reason: Option<Note>, resultRun: Option<Uuid>, b: Db)
    requires FinishStage(db, id, token, status, reason, resultRun) == Success(b)
    ensures Later(db, b)
  {
    PutLater(
      db, id, StageAt(db, id).(status := status, finishedAt := Some(db.clock), reason := reason, resultRun := resultRun), b);
  }

  lemma PersistLater(db: Db, id: StageId, token: Uuid, report: Recheck.RecheckReport, failed: bool, b: Db)
    requires PersistRecheck(db, id, token, report, failed) == Success(b)
    ensures Later(db, b)
  {
    var reported := db.(reports := db.reports + {id});
    var row := StageAt(db, id).(
      status := if failed then StageFailed else StageCompleted, finishedAt := Some(db.clock),
      reason := if failed then Some(IncompleteRecheck) else None);
    PutLater(reported, id, row, b);
  }

  lemma HistoryLater(db: Db, later: History)
    requires Extends(db.history, later)
    ensures Later(db, db.(history := later))
  {
  }

  lemma IngestLater(db: Db, run: Uuid, raw: seq<Bytes.Byte>, stderr: seq<Bytes.Byte>, adapters: Adapters)
    requires Coherent(db.history)
    ensures Later(db, db.(history := Ingest(db.history, db.clock, run, raw, stderr, adapters).history))
  {
    IngestKeeps(db.history, db.clock, run, raw, stderr, adapters);
    HistoryLater(db, Ingest(db.history, db.clock, run, raw, stderr, adapters).history);
  }

  lemma StageLater(s: Sys, move: Move, db: Db, next: nat, phase: Phase)
    requires Inv(s) && s.worker.At? && StageStep(s, move, db, next, phase)
    ensures Later(s.db, db)
  {
    var here := Here(s.worker);
    match move
    case SkipNext => SkipLater(s.db, here, s.worker.token, StageAt(s.db, here).request.skipReason.value, db);
    case StartNext => StartLater(s.db, here, s.worker.token, db);
    case ScanReturns(raw, stderr, adapters) =>
      IngestLater(s.db, StageAt(s.db, here).request.plannedRun.value, raw, stderr, adapters);
    case CompleteScan =>
      FinishLater(s.db, here, s.worker.token, StageCompleted, None, StageAt(s.db, here).request.plannedRun, db);
    case FailStage(resultRun) =>
      FinishLater(s.db, here, s.worker.token, StageFailed, Some(ExecutionFailed), resultRun, db);
    case StopStage(resultRun) =>
      FinishLater(s.db, here, s.worker.token, StageInterrupted, Some(OperatorCancelled), resultRun, db);
    case PersistReport(report, failed) => PersistLater(s.db, here, s.worker.token, report, failed, db);
  }

  lemma EnqueueLater(
    db: Db, id: Uuid, project: string, requests: seq<StageRequest>, authorized: StageRequest -> bool, b: Db)
    requires Enqueue(db, id, project, requests, authorized) == Success(b)
    ensures Later(db, b)
  {
  }

  lemma BeginLater(db: Db, run: Uuid, start: RunStart, owner: Option<StageId>, b: Db)
    requires Coherent(db.history) && Begin(db, run, start, owner) == Success(b)
    ensures Later(db, b)
  {
    if run !in db.history.runs {
      NewRunKeeps(db.history, db.clock, run, start);
      HistoryLater(db, b.history);
    } else {
      LaterSame(db);
    }
  }

  lemma AbandonLater(db: Db, run: Uuid, status: RunStatus, error: Option<RunError>)
    requires Coherent(db.history) && (status == RunFailed || status == RunInterrupted)
    ensures Later(db, db.(history := Finish(db.history, db.clock, run, status, error)))
  {
    FinishKeeps(db.history, db.clock, run, status, error);
    HistoryLater(db, Finish(db.history, db.clock, run, status, error));
  }

  lemma OtherLater(s: Sys, what: Outside, db: Db)
    requires Inv(s) && OtherStep(s, what, db)
    ensures Later(s.db, db)
  {
    match what
    case Tick(_) => LaterSame(s.db);
    case Enqueued(id, project, requests, authorized) => EnqueueLater(s.db, id, project, requests, authorized, db);
    case BeginRun(run, start, owner) => BeginLater(s.db, run, start, owner, db);
    case IngestRun(run, raw, stderr, adapters) => IngestLater(s.db, run, raw, stderr, adapters);
    case AbandonRun(run, status, error) => AbandonLater(s.db, run, status, error);
    case StaleCall(call, token) =>
      Fenced(s.db, call, token);
      LaterSame(s.db);
  }

  lemma AbandonedLater(m: Manifest, now: Time)
    ensures LaterManifest(m, Abandoned(m, now))
  {
  }

  lemma ReconcileLater(s: Sys)
    requires Inv(s)
    ensures Later(s.db, ReconcileStale(s.db))
  {
    InterruptKeeps(s.db.history, StaleRuns(s.db), s.db.clock);
    forall id | id in s.db.manifests
      ensures LaterManifest(s.db.manifests[id], Abandoned(s.db.manifests[id], s.db.clock))
    {
      AbandonedLater(s.db.manifests[id], s.db.clock);
    }
  }

  lemma ClaimLater(db: Db, token: Uuid, id: Uuid, b: Db)
    requires id in db.manifests && db.manifests[id].status == Pending && Claim(db, token, id) == Success(b)
    ensures Later(db, b)
  {
  }

  lemma CloseLater(db: Db, id: Uuid, token: Uuid, b: Db)
    requires Finalize(db, id, token) == Success(b)
    ensures Later(db, b)
  {
    assert LaterManifest(db.manifests[id], Closed(db.manifests[id], db.clock));
  }

  lemma StepLater(s: Sys, e: Event, t: Sys)
    requires Inv(s) && Step(s, e, t)
    ensures Later(s.db, t.db)
  {
    match e
    case Elsewhere(what) => OtherLater(s, what, t.db);
    case AtStage(move) => StageLater(s, move, t.db, t.worker.next, t.worker.phase);
    case Acquire(_) => ReconcileLater(s);
    case ClaimNext(_, id) => ClaimLater(s.db, s.worker.token, id, t.db);
    case Close => CloseLater(s.db, s.worker.assessment, s.worker.token, t.db);
    case Crash => LaterSame(s.db);
  }

  lemma ChainStep(states: seq<Sys>, events: seq<Event>, i: nat)
    requires Chain(states, events) && Inv(states[0]) && i < |events|
    ensures Later(states[i].db, states[i + 1].db)
  {
    ChainKeeps(states, events, i);
    StepLater(states[i], events[i], states[i + 1]);
  }

  predicate StepwiseLater(states: seq<Sys>) {
    forall i | 0 <= i < |states| - 1 :: Later(states[i].db, states[i + 1].db)
  }

  lemma {:induction false} LaterAlong(states: seq<Sys>, i: nat, j: nat)
    requires StepwiseLater(states) && i <= j < |states|
    ensures Later(states[i].db, states[j].db)
    decreases j - i
  {
    if i == j {
      LaterSame(states[i].db);
    } else {
      LaterAlong(states, i, j - 1);
      LaterTransitive(states[i].db, states[j - 1].db, states[j].db);
    }
  }

  lemma ChainForward(states: seq<Sys>, events: seq<Event>, i: nat, j: nat)
    requires Chain(states, events) && Inv(states[0]) && i <= j < |states|
    ensures Later(states[i].db, states[j].db)
  {
    forall k | 0 <= k < |states| - 1
      ensures Later(states[k].db, states[k + 1].db)
    {
      ChainStep(states, events, k);
    }
    LaterAlong(states, i, j);
  }

  /**
    Nothing is undone: along any run, stages and manifests only move forward, and a terminal
    manifest, stage or run row is still there, unchanged, in every later state.
   */
  lemma Forward(states: seq<Sys>, events: seq<Event>, i: nat, j: nat)
    requires Run(states, events) && i <= j < |states|
    ensures Later(states[i].db, states[j].db)
  {
    Initially();
    ChainForward(states, events, i, j);
  }

  /** Event `i` starts a stage. */
  predicate StartsAt(states: seq<Sys>, i: nat, id: StageId)
    requires i + 1 < |states|
  {
    && HasStage(states[i].db, id) && StageAt(states[i].db, id).status == StagePending
    && HasStage(states[i + 1].db, id) && StageAt(states[i + 1].db, id).status == StageRunning
  }

  /** Event `i` creates the row of a run. */
  predicate BeginsAt(states: seq<Sys>, i: nat, run: Uuid)
    requires i + 1 < |states|
  {
    run !in states[i].db.history.runs && run in states[i + 1].db.history.runs
  }

  /** Over a whole run, each stage is started at most once, and each run is begun at most once. */
  lemma AtMostOnce(states: seq<Sys>, events: seq<Event>, i: nat, j: nat, id: StageId, run: Uuid)
    requires Run(states, events) && i < j && j + 1 < |states|
    ensures !(StartsAt(states, i, id) && StartsAt(states, j, id))
    ensures !(BeginsAt(states, i, run) && BeginsAt(states, j, run))
  {
    Forward(states, events, i + 1, j);
    if StartsAt(states, i, id) && HasStage(states[j].db, id) {
      assert LaterStage(StageAt(states[i + 1].db, id), StageAt(states[j].db, id));
    }
  }

  /**
    A reserved run has no row until its own stage is running; and a scanner stage that is
    completed names its own run, which succeeded.
   */
  lemma ReservedRuns(states: seq<Sys>, events: seq<Event>, i: nat, id: StageId, run: Uuid)
    requires Run(states, events) && i < |states| && HasStage(states[i].db, id)
    requires StageAt(states[i].db, id).request.plannedRun == Some(run)
    ensures var x, h := StageAt(states[i].db, id), states[i].db.history;
            && (x.status == StagePending || x.status == StageSkipped ==> run !in h.runs)
            && (x.status == StageCompleted ==> x.resultRun == Some(run) && run in h.runs && h.runs[run].status == RunSucceeded)
    ensures i + 1 < |states| && BeginsAt(states, i, run) ==> StageAt(states[i].db, id).status == StageRunning
  {
    Always(states, events, i);
    var s := states[i];
    assert Fits(s.db.manifests[id.assessment], s.db.clock, s.tokens, s.db.history);
    assert StageRuns(StageAt(s.db, id), s.db.history);
    if i + 1 < |states| && BeginsAt(states, i, run) {
      BeginningStep(s, events[i], states[i + 1], id, run);
    }
  }

  lemma StageSameRuns(s: Sys, move: Move, db: Db, next: nat, phase: Phase)
    requires s.worker.At? && StageStep(s, move, db, next, phase)
    ensures db.history.runs.Keys == s.db.history.runs.Keys
  {
    if move.ScanReturns? {
      IngestRuns(
        s.db.history, s.db.clock, StageAt(s.db, Here(s.worker)).request.plannedRun.value, move.raw, move.stderr, move.adapters);
    }
  }

  lemma OtherSameRuns(s: Sys, what: Outside, db: Db)
    requires OtherStep(s, what, db) && !what.BeginRun?
    ensures db.history.runs.Keys == s.db.history.runs.Keys
  {
    match what
    case IngestRun(r, raw, stderr, adapters) => IngestRuns(s.db.history, s.db.clock, r, raw, stderr, adapters);
    case StaleCall(call, token) => Fenced(s.db, call, token);
    case _ =>
  }

  predicate IsBegin(e: Event) {
    e.Elsewhere? && e.what.BeginRun?
  }

  lemma OnlyBeginCreates(s: Sys, e: Event, t: Sys)
    requires Inv(s) && Step(s, e, t)
    ensures !IsBegin(e) ==> t.db.history.runs.Keys == s.db.history.runs.Keys
  {
    match e
    case Elsewhere(what) =>
      if !what.BeginRun? {
        OtherSameRuns(s, what, t.db);
      }
    case AtStage(move) => StageSameRuns(s, move, t.db, t.worker.next, t.worker.phase);
    case Acquire(_) => InterruptKeeps(s.db.history, StaleRuns(s.db), s.db.clock);
    case _ =>
  }

  /** Only a begin transaction creates a run row, and for a reserved run only while its stage is running. */
  lemma BeginningStep(s: Sys, e: Event, t: Sys, id: StageId, run: Uuid)
    requires Inv(s) && Step(s, e, t) && run !in s.db.history.runs.Keys && run in t.db.history.runs.Keys
    requires HasStage(s.db, id) && StageAt(s.db, id).request.plannedRun == Some(run)
    ensures IsBegin(e) && e.what.run == run && e.what.owner == Some(id)
    ensures StageAt(s.db, id).status == StageRunning
  {
    OnlyBeginCreates(s, e, t);
    BegunRuns(s.db, e.what.run, e.what.start, e.what.owner, id);
  }

  /** In every state of every run, a run row and its scanner-stage row carry the same status, time and error. */
  lemma RowsAgree(states: seq<Sys>, events: seq<Event>, i: nat, run: Uuid)
    requires Run(states, events) && i < |states|
    ensures var h := states[i].db.history;
            && (run in h.runs <==> run in h.scans)
            && (run in h.runs ==> SameStory(h.runs[run], h.scans[run]))
  {
    Always(states, events, i);
    var h := states[i].db.history;
    if run in h.runs {
      assert RunCoherent(h, run);
    }
  }

  // ---------------------------------------------------------------- fencing

  /** The token was drawn, no row carries it, and the worker does not hold it. */
  predicate Gone(s: Sys, token: Uuid) {
    token in s.tokens && Retired(s.db, token) && (s.worker.Idle? || s.worker.token != token)
  }

  /** When a manifest loses its token, nothing is left running, and the worker does not hold that token. */
  lemma LosesToken(s: Sys, e: Event, t: Sys, id: Uuid, token: Uuid)
    requires Inv(s) && Step(s, e, t) && id in s.db.manifests && s.db.manifests[id].token == Some(token)
    requires id in t.db.manifests && t.db.manifests[id].token != Some(token)
    ensures Gone(t, token)
  {
    assert Fits(s.db.manifests[id], s.db.clock, s.tokens, s.db.history);
    assert s.db.manifests[id].status == Running;
    match e
    case Elsewhere(what) =>
      OtherTokens(s, what, t.db, id);
      assert false;
    case AtStage(move) =>
      assert false;
    case Acquire(_) =>
      Reconciles(s);
      NoTokens(t);
    case ClaimNext(_, _) =>
      assert false;
    case Close =>
      Closes(s, t.db);
      ClosingLeavesNone(s, t);
      NoTokens(t);
    case Crash =>
      assert false;
  }

  lemma OtherTokens(s: Sys, what: Outside, db: Db, id: Uuid)
    requires Inv(s) && OtherStep(s, what, db) && id in s.db.manifests
    ensures id in db.manifests && db.manifests[id] == s.db.manifests[id]
  {
    if what.StaleCall? {
      Fenced(s.db, what.call, what.token);
    }
  }

  lemma ClosingLeavesNone(s: Sys, t: Sys)
    requires Inv(s) && Step(s, Close, t)
    ensures NoneRunning(t.db)
  {
  }

  lemma NoTokens(t: Sys)
    requires AllFit(t) && NoneRunning(t.db)
    ensures forall token :: Retired(t.db, token)
  {
    forall id | id in t.db.manifests
      ensures t.db.manifests[id].token.None?
    {
      assert Fits(t.db.manifests[id], t.db.clock, t.tokens, t.db.history);
    }
  }

  /** Every token that a row carries, it carried before, unless it is `claimed`. */
  predicate TokensFrom(a: Db, b: Db, claimed: Option<Uuid>) {
    forall id | id in b.manifests && b.manifests[id].token.Some? ::
      (id in a.manifests && a.manifests[id].token == b.manifests[id].token) || b.manifests[id].token == claimed
  }

  lemma OtherTokensFrom(s: Sys, what: Outside, db: Db)
    requires Inv(s) && OtherStep(s, what, db)
    ensures TokensFrom(s.db, db, None)
  {
    if what.Enqueued? {
    } else if what.StaleCall? {
      Fenced(s.db, what.call, what.token);
    }
  }

  lemma StageTokensFrom(s: Sys, move: Move, db: Db, next: nat, phase: Phase)
    requires s.worker.At? && StageStep(s, move, db, next, phase)
    ensures TokensFrom(s.db, db, None)
  {
  }

  lemma StepTokensFrom(s: Sys, e: Event, t: Sys)
    requires Inv(s) && Step(s, e, t)
    ensures TokensFrom(s.db, t.db, if e.ClaimNext? then Some(s.worker.token) else None)
    ensures s.tokens <= t.tokens
    ensures t.worker.Idle? || (e.Acquire? && t.worker == Holding(e.token)) || (!s.worker.Idle? && t.worker.token == s.worker.token)
  {
    match e
    case Elsewhere(what) => OtherTokensFrom(s, what, t.db);
    case AtStage(move) => StageTokensFrom(s, move, t.db, t.worker.next, t.worker.phase);
    case _ =>
  }

  /** A token that is gone stays gone. */
  lemma StaysGone(s: Sys, e: Event, t: Sys, token: Uuid)
    requires Inv(s) && Step(s, e, t) && Gone(s, token)
    ensures Gone(t, token)
  {
    StepTokensFrom(s, e, t);
  }

  lemma GoneNext(states: seq<Sys>, events: seq<Event>, i: nat, token: Uuid)
    requires Run(states, events) && i < |events|
    ensures Gone(states[i], token) ==> Gone(states[i + 1], token)
  {
    if Gone(states[i], token) {
      NextInv(states, events, i);
      StaysGone(states[i], events[i], states[i + 1], token);
    }
  }

  predicate GoneOnward(states: seq<Sys>, token: Uuid) {
    forall i | 0 <= i < |states| - 1 && Gone(states[i], token) :: Gone(states[i + 1], token)
  }

  lemma {:induction false} GoneAlong(states: seq<Sys>, j: nat, k: nat, token: Uuid)
    requires GoneOnward(states, token) && j <= k < |states| && Gone(states[j], token)
    ensures Gone(states[k], token)
    decreases k - j
  {
    if j < k {
      GoneAlong(states, j, k - 1, token);
    }
  }

  lemma GoneFrom(states: seq<Sys>, events: seq<Event>, j: nat, k: nat, token: Uuid)
    requires Run(states, events) && j <= k < |states| && Gone(states[j], token)
    ensures Gone(states[k], token)
  {
    forall i | 0 <= i < |states| - 1 && Gone(states[i], token)
      ensures Gone(states[i + 1], token)
    {
      GoneNext(states, events, i, token);
    }
    GoneAlong(states, j, k, token);
  }

  /**
    Fencing. Once a manifest has lost the token it carried, by being closed or reconciled,
    then for the rest of the run no row carries that token again, and every call that
    presents it is refused.
   */
  lemma {:induction false} Fencing(states: seq<Sys>, events: seq<Event>, i: nat, j: nat, k: nat, id: Uuid, token: Uuid, call: Call)
    requires Run(states, events) && i <= j <= k < |states|
    requires id in states[i].db.manifests && states[i].db.manifests[id].token == Some(token)
    requires id in states[j].db.manifests && states[j].db.manifests[id].token != Some(token)
    ensures Retired(states[k].db, token) && Perform(states[k].db, call, token).Failure?
    decreases j - i
  {
    Always(states, events, i);
    Forward(states, events, i, i + 1);
    if states[i + 1].db.manifests[id].token == Some(token) {
      Fencing(states, events, i + 1, j, k, id, token, call);
    } else {
      LosesToken(states[i], events[i], states[i + 1], id, token);
      GoneFrom(states, events, i + 1, k, token);
      Fenced(states[k].db, call, token);
    }
  }

  // ---------------------------------------------------------------- what the reader accepts

  /** In every state of every run, the reader rejects exactly the orphaned manifests. */
  lemma ReaderValidity(states: seq<Sys>, events: seq<Event>, i: nat, id: Uuid)
    requires Run(states, events) && i < |states| && id in states[i].db.manifests
    ensures Readable(states[i].db.manifests[id]) <==> !Orphaned(states[i].db.manifests[id])
  {
    Always(states, events, i);
    assert Fits(states[i].db.manifests[id], states[i].db.clock, states[i].tokens, states[i].db.history);
    ReadableExactly(states[i].db.manifests[id]);
  }

  /** Reconciliation found the manifest running, with no stage of it running or interrupted. */
  predicate FoundBetweenStages(m: Manifest) {
    m.status == Running && !AnyIs(m.stages, StageRunning) && !AnyIs(m.stages, StageInterrupted)
  }

  lemma AbandonedOrphans(m: Manifest, now: Time)
    requires Consistent(m)
    ensures Orphaned(Abandoned(m, now)) <==> Orphaned(m) || FoundBetweenStages(m)
  {
    var a := Abandoned(m, now);
    if m.status == Running {
      forall i | 0 <= i < |m.stages|
        ensures a.stages[i].status == StageInterrupted <==>
                m.stages[i].status == StageRunning || m.stages[i].status == StageInterrupted
      {
      }
      assert AnyIs(a.stages, StageInterrupted) <==> AnyIs(m.stages, StageRunning) || AnyIs(m.stages, StageInterrupted) by {
        if AnyIs(m.stages, StageRunning) {
          var i :| 0 <= i < |m.stages| && m.stages[i].status == StageRunning;
          assert a.stages[i].status == StageInterrupted;
        }
        if AnyIs(m.stages, StageInterrupted) {
          var i :| 0 <= i < |m.stages| && m.stages[i].status == StageInterrupted;
          assert a.stages[i].status == StageInterrupted;
        }
      }
    }
  }

  /**
    Where the rejected manifests come from, exactly: a step makes a manifest unreadable if
    and only if it is a reconciliation that finds it running between two stages.
   */
  lemma OrphanedBy(s: Sys, e: Event, t: Sys, id: Uuid)
    requires Inv(s) && Step(s, e, t) && id in s.db.manifests
    ensures id in t.db.manifests
    ensures Orphaned(t.db.manifests[id]) <==>
            Orphaned(s.db.manifests[id]) || (e.Acquire? && FoundBetweenStages(s.db.manifests[id]))
  {
    StepLater(s, e, t);
    var m := s.db.manifests[id];
    assert Fits(m, s.db.clock, s.tokens, s.db.history);
    assert LaterManifest(m, t.db.manifests[id]);
    match e
    case Elsewhere(what) => OtherTokens(s, what, t.db, id);
    case AtStage(move) => StageKeepsStatus(s, move, t.db, t.worker.next, t.worker.phase, id);
    case Acquire(_) => AbandonedOrphans(m, s.db.clock);
    case _ =>
  }

  /** A manifest that a step adds is not orphaned. */
  lemma NewIsNotOrphaned(s: Sys, e: Event, t: Sys, id: Uuid)
    requires Inv(s) && Step(s, e, t) && id !in s.db.manifests && id in t.db.manifests
    ensures !Orphaned(t.db.manifests[id])
  {
    match e
    case Elsewhere(what) =>
      if what.StaleCall? {
        Fenced(s.db, what.call, what.token);
      }
    case AtStage(move) => StageSameManifests(s, move, t.db, t.worker.next, t.worker.phase);
    case _ =>
  }

  lemma StageSameManifests(s: Sys, move: Move, db: Db, next: nat, phase: Phase)
    requires s.worker.At? && StageStep(s, move, db, next, phase)
    ensures db.manifests.Keys == s.db.manifests.Keys
  {
  }

  /** Event `j` is a reconciliation that finds the manifest running between two stages. */
  predicate OrphansAt(states: seq<Sys>, events: seq<Event>, j: nat, id: Uuid)
    requires |states| == |events| + 1 && j < |events|
  {
    events[j].Acquire? && id in states[j].db.manifests && FoundBetweenStages(states[j].db.manifests[id])
  }

  predicate OrphanedBefore(states: seq<Sys>, events: seq<Event>, i: nat, id: Uuid)
    requires |states| == |events| + 1 && i <= |events|
  {
    exists j: nat :: j < i && OrphansAt(states, events, j, id)
  }

  lemma OrphanedStep(states: seq<Sys>, events: seq<Event>, i: nat, id: Uuid)
    requires Run(states, events) && i < |events| && id in states[i + 1].db.manifests
    ensures Orphaned(states[i + 1].db.manifests[id]) <==>
            || (id in states[i].db.manifests && Orphaned(states[i].db.manifests[id]))
            || OrphansAt(states, events, i, id)
  {
    NextInv(states, events, i);
    if id in states[i].db.manifests {
      OrphanedBy(states[i], events[i], states[i + 1], id);
    } else {
      NewIsNotOrphaned(states[i], events[i], states[i + 1], id);
    }
  }

  lemma {:induction false} OrphanedExactly(states: seq<Sys>, events: seq<Event>, i: nat, id: Uuid)
    requires Run(states, events) && i < |states| && id in states[i].db.manifests
    ensures Orphaned(states[i].db.manifests[id]) <==> OrphanedBefore(states, events, i, id)
  {
    if i > 0 {
      OrphanedStep(states, events, i - 1, id);
      if id in states[i - 1].db.manifests {
        OrphanedExactly(states, events, i - 1, id);
      } else {
        NeverOrphanedBefore(states, events, i - 1, id);
      }
      OneMore(states, events, i - 1, id);
    }
  }

  lemma OneMore(states: seq<Sys>, events: seq<Event>, i: nat, id: Uuid)
    requires |states| == |events| + 1 && i < |events|
    ensures OrphanedBefore(states, events, i + 1, id) <==>
            OrphanedBefore(states, events, i, id) || OrphansAt(states, events, i, id)
  {
  }

  lemma NeverOrphanedBefore(states: seq<Sys>, events: seq<Event>, i: nat, id: Uuid)
    requires Run(states, events) && i <= |events| && id !in states[i].db.manifests
    ensures !OrphanedBefore(states, events, i, id)
  {
    forall j: nat | j < i
      ensures id !in states[j].db.manifests
    {
      Forward(states, events, j, i);
    }
  }

  /**
    What the reader rejects, over a whole run: a manifest is rejected in some state exactly
    when at some earlier point a reconciliation found it running between two stages.
   */
  lemma RejectedExactly(states: seq<Sys>, events: seq<Event>, i: nat, id: Uuid)
    requires Run(states, events) && i < |states| && id in states[i].db.manifests
    ensures !Readable(states[i].db.manifests[id]) <==> OrphanedBefore(states, events, i, id)
  {
    ReaderValidity(states, events, i, id);
    OrphanedExactly(states, events, i, id);
  }

  lemma StageKeepsStatus(s: Sys, move: Move, db: Db, next: nat, phase: Phase, id: Uuid)
    requires Inv(s) && s.worker.At? && StageStep(s, move, db, next, phase) && id in s.db.manifests
    ensures id in db.manifests && db.manifests[id].status == s.db.manifests[id].status
  {
  }

  /** The first request of the witness below. */
  function Request(): StageRequest {
    StageRequest(NmapStage, "network-services", None, Some(7), None)
  }

  function Witness(n: nat): Sys {
    var pending := Manifest("p", Pending, None, 0, None, None, None, [NewStage(Request())]);
    var running := pending.(status := Running, token := Some(1), startedAt := Some(0));
    var h := START.db.history;
    if n == 0 then START
    else if n == 1 then Sys(Db(0, map[5 := pending], {}, h), Idle, {})
    else if n == 2 then Sys(Db(0, map[5 := pending], {}, h), Holding(1), {1})
    else if n == 3 then Sys(Db(0, map[5 := running], {}, h), At(5, 1, 0, Between), {1})
    else if n == 4 then Sys(Db(0, map[5 := running], {}, h), Idle, {1})
    else Sys(ReconcileStale(Witness(4).db), Holding(2), {1, 2})
  }

  function WitnessEvent(n: nat): Event {
    if n == 0 then Elsewhere(Enqueued(5, "p", [Request()], r => true))
    else if n == 1 then Acquire(1)
    else if n == 2 then ClaimNext(None, 5)
    else if n == 3 then Crash
    else Acquire(2)
  }

  lemma WitnessEnqueues()
    ensures Step(Witness(0), WitnessEvent(0), Witness(1))
  {
    var requests, db := [Request()], START.db;
    assert NewManifest(db, "p", requests).stages == [NewStage(Request())];
    assert PlansOf(requests) * db.history.runs.Keys == {} && PlansOf(requests) * Planned(db) == {};
    assert Witness(1).db.manifests == db.manifests[5 := NewManifest(db, "p", requests)];
  }

  lemma WitnessAcquires()
    ensures Step(Witness(1), WitnessEvent(1), Witness(2))
  {
    var db := Witness(1).db;
    assert ReconcileStale(db).manifests == db.manifests;
    assert InterruptRuns(db.history, StaleRuns(db), 0).runs == map[] && InterruptRuns(db.history, StaleRuns(db), 0).scans == map[];
  }

  lemma WitnessClaims()
    ensures Step(Witness(2), WitnessEvent(2), Witness(3))
  {
    var db := Witness(2).db;
    assert Witness(3).db.manifests == db.manifests[5 := Witness(3).db.manifests[5]];
  }

  lemma WitnessSteps(n: nat)
    requires n < 5
    ensures Step(Witness(n), WitnessEvent(n), Witness(n + 1))
  {
    if n == 0 {
      WitnessEnqueues();
    } else if n == 1 {
      WitnessAcquires();
    } else if n == 2 {
      WitnessClaims();
    }
  }

  lemma WitnessRun(n: nat) returns (states: seq<Sys>, events: seq<Event>)
    requires n <= 5
    ensures Run(states, events) && |events| == n && states[n] == Witness(n)
  {
    if n == 0 {
      states, events := [START], [];
    } else {
      var before, past := WitnessRun(n - 1);
      WitnessSteps(n - 1);
      states, events := before + [Witness(n)], past + [WitnessEvent(n - 1)];
      forall i | 0 <= i < |events|
        ensures Step(states[i], events[i], states[i + 1])
      {
        if i < n - 1 {
          assert states[i] == before[i] && events[i] == past[i] && states[i + 1] == before[i + 1];
        }
      }
    }
  }

  /**
    The reader can meet a manifest it rejects: enqueue one, claim it, crash before its first
    stage starts, and reconcile.
   */
  lemma UnreadableReachable() returns (states: seq<Sys>, events: seq<Event>)
    ensures Run(states, events) && 5 in states[|events|].db.manifests
    ensures !Readable(states[|events|].db.manifests[5])
  {
    states, events := WitnessRun(5);
    var m := Witness(4).db.manifests[5];
    assert m.stages[0].status == StagePending && Abandoned(m, 0).stages[0].status == StagePending;
    assert !AnyIs(Abandoned(m, 0).stages, StageInterrupted);
    ReaderValidity(states, events, 5, 5);
  }

  // ---------------------------------------------------------------- closing

  /** What a worker leaves when it closes a manifest after its last stage. */
  predicate Settled(m: Manifest) {
    && AllDone(m.stages)
    && (m.status == Failed <==> AnyIs(m.stages, StageFailed))
    && (m.status == Completed <==> !AnyIs(m.stages, StageFailed))
  }

  /**
    A manifest that its worker closes leaves no stage pending, running or interrupted and is
    failed exactly when some stage failed, unless the operator interrupted a stage; then it
    is interrupted. Either way the reader accepts it.
   */
  lemma ClosedManifest(s: Sys, t: Sys)
    requires Inv(s) && Step(s, Close, t)
    ensures var id := s.worker.assessment;
            && id in t.db.manifests && Readable(t.db.manifests[id])
            && (s.worker.phase == Between ==> Settled(t.db.manifests[id]))
            && (s.worker.phase == Stopped ==> t.db.manifests[id].status == Interrupted)
            && !s.worker.phase.Inside?
  {
    Closes(s, t.db);
    var id := s.worker.assessment;
    var m, closed := s.db.manifests[id], t.db.manifests[id];
    assert Fits(closed, t.db.clock, t.tokens, t.db.history);
    ReadableExactly(closed);
    assert closed.stages == m.stages && !StillOpen(m.stages);
    assert s.worker.phase == Between && s.worker.next < |m.stages| ==> AnyIs(m.stages, StagePending);
    assert s.worker.phase == Stopped ==> AnyIs(m.stages, StageInterrupted);
    assert s.worker.phase.Inside? ==> AnyIs(m.stages, StageRunning);
  }
}
