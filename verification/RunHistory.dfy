/**
  Run rows, scanner-stage rows and stored artifacts (`storage/history.py`), with each
  transaction as one step. Artifacts are a map from path to bytes that is never overwritten.
 */
module RunHistory {
  import opened Bytes
  import opened Evidence
  import opened Runs
  import opened Wrappers

  datatype RunStatus = RunRunning | RunSucceeded | RunFailed | RunInterrupted

  datatype RunError = InvalidReport | RunExecutionFailed | RunCancelled | OwnerDisconnected

  /** A row of `runs`; `input` stands for the scope snapshot, the profile and its revision, and the kind. */
  datatype RunRow = RunRow(
    project: string, input: string, maxBytes: nat, status: RunStatus, createdAt: Time,
    finishedAt: Option<Time>, error: Option<RunError>)

  /** A row of the scanner-stage table, which shares the run's identifier. */
  datatype ScanRow = ScanRow(
    scanner: Scanner, context: string, status: RunStatus, createdAt: Time,
    finishedAt: Option<Time>, error: Option<RunError>)

  /** The artifact rows of a run, one for each role. */
  datatype Output = Output(stdout: Digest, stderr: Digest)

  datatype Path = Path(run: Uuid, name: string)

  datatype History = History(
    runs: map<Uuid, RunRow>, scans: map<Uuid, ScanRow>, outputs: map<Uuid, Output>, files: map<Path, seq<Byte>>)

  /** What the scanner adapters and the authorized scope make of a run's output. */
  datatype Adapters = Adapters(
    parse: (Scanner, string, string, seq<Byte>) -> Option<ParsedReport>,
    permits: (string, string, ParsedReport) -> bool)

  datatype IngestError =
    | NoSuchRun
    | OverLimit
    | Unparsable
    | OutOfScope
    | DifferentArtifacts
    | StoredCopyCorrupt
    | TerminalRun
    | WouldOverwrite

  const MAX_STDERR: nat := 65536

  function ArtifactName(s: Scanner): string {
    if s == Nmap then "stdout.xml" else "stdout.jsonl"
  }

  function StdoutPath(h: History, run: Uuid): Path
    requires run in h.scans
  {
    Path(run, ArtifactName(h.scans[run].scanner))
  }

  function StderrPath(run: Uuid): Path {
    Path(run, "stderr.txt")
  }

  predicate Terminal(s: RunStatus) {
    !s.RunRunning?
  }

  function SettledRow(r: RunRow, now: Time, status: RunStatus, error: Option<RunError>): RunRow {
    if r.status == RunRunning then r.(status := status, finishedAt := Some(now), error := error) else r
  }

  function SettledScan(s: ScanRow, now: Time, status: RunStatus, error: Option<RunError>): ScanRow {
    if s.status == RunRunning then s.(status := status, finishedAt := Some(now), error := error) else s
  }

  /** `_finish`: each of the two rows is settled if it is still running. */
  function Finish(h: History, now: Time, run: Uuid, status: RunStatus, error: Option<RunError>): History {
    h.(runs := if run in h.runs then h.runs[run := SettledRow(h.runs[run], now, status, error)] else h.runs,
       scans := if run in h.scans then h.scans[run := SettledScan(h.scans[run], now, status, error)] else h.scans)
  }

  /** `ArtifactStore.publish`: an existing artifact is never overwritten. */
  function Publish(files: map<Path, seq<Byte>>, path: Path, raw: seq<Byte>): Option<map<Path, seq<Byte>>> {
    if path !in files then Some(files[path := raw])
    else if files[path] == raw then Some(files)
    else None
  }

  predicate Stored(files: map<Path, seq<Byte>>, path: Path, raw: seq<Byte>) {
    path in files && files[path] == raw
  }

  /** The report that a run's output amounts to, if it is acceptable at all. */
  function Reading(h: History, run: Uuid, raw: seq<Byte>, stderr: seq<Byte>, adapters: Adapters)
    : Result<ParsedReport, IngestError>
  {
    if run !in h.runs || run !in h.scans then Failure(NoSuchRun)
    else if |raw| + |stderr| > h.runs[run].maxBytes || |stderr| > MAX_STDERR then Failure(OverLimit)
    else
      var row, scan := h.runs[run], h.scans[run];
      match adapters.parse(scan.scanner, row.input, scan.context, raw)
      case None => Failure(Unparsable)
      case Some(report) =>
        if adapters.permits(row.input, scan.context, report) then Success(report) else Failure(OutOfScope)
  }

  /** Everything one ingestion leaves behind: the tables, and the answer to the caller. */
  datatype Ingestion = Ingestion(history: History, answer: Result<ParsedReport, IngestError>)

  /** What a run that already succeeded answers to another ingestion. */
  function Repeated(h: History, run: Uuid, raw: seq<Byte>, stderr: seq<Byte>, report: ParsedReport)
    : Result<ParsedReport, IngestError>
    requires run in h.scans
  {
    if run !in h.outputs || h.outputs[run] != Output(Sha256(raw), Sha256(stderr)) then Failure(DifferentArtifacts)
    else if !Stored(h.files, StdoutPath(h, run), raw) || !Stored(h.files, StderrPath(run), stderr) then
      Failure(StoredCopyCorrupt)
    else Success(report)
  }

  function Recorded(h: History, run: Uuid, raw: seq<Byte>, stderr: seq<Byte>): History {
    h.(outputs := h.outputs[run := Output(Sha256(raw), Sha256(stderr))])
  }

  /** The first ingestion: both artifacts published, their rows added, and the run settled. */
  function Accepted(h: History, now: Time, run: Uuid, raw: seq<Byte>, stderr: seq<Byte>, report: ParsedReport): Ingestion
    requires run in h.scans
  {
    match Publish(h.files, StdoutPath(h, run), raw)
    case None => Ingestion(h, Failure(WouldOverwrite))
    case Some(files) =>
      match Publish(files, StderrPath(run), stderr)
      case None => Ingestion(h.(files := files), Failure(WouldOverwrite))
      case Some(more) =>
        Ingestion(Finish(Recorded(h.(files := more), run, raw, stderr), now, run, RunSucceeded, None), Success(report))
  }

  /** `History.ingest` */
  function Ingest(h: History, now: Time, run: Uuid, raw: seq<Byte>, stderr: seq<Byte>, adapters: Adapters): Ingestion {
    match Reading(h, run, raw, stderr, adapters)
    case Failure(e) => Ingestion(h, Failure(e))
    case Success(report) =>
      if h.runs[run].status == RunSucceeded then Ingestion(h, Repeated(h, run, raw, stderr, report))
      else if h.runs[run].status != RunRunning then Ingestion(h, Failure(TerminalRun))
      else Accepted(h, now, run, raw, stderr, report)
  }

  // ---------------------------------------------------------------- what the tables keep

  /** A run and its scanner stage tell the same story. */
  predicate SameStory(r: RunRow, s: ScanRow) {
    && r.status == s.status && r.finishedAt == s.finishedAt && r.error == s.error
    && (r.status == RunRunning <==> r.finishedAt.None?)
    && (r.status == RunRunning || r.status == RunSucceeded ==> r.error.None?)
  }

  /** The artifacts a run recorded are the bytes that are stored. */
  predicate Kept(h: History, run: Uuid)
    requires run in h.scans && run in h.outputs
  {
    && StdoutPath(h, run) in h.files && h.outputs[run].stdout == Sha256(h.files[StdoutPath(h, run)])
    && StderrPath(run) in h.files && h.outputs[run].stderr == Sha256(h.files[StderrPath(run)])
  }

  /** What is known of one run: its two rows agree, and exactly the succeeded runs have artifacts. */
  predicate RunCoherent(h: History, run: Uuid)
    requires run in h.runs && run in h.scans
  {
    && SameStory(h.runs[run], h.scans[run])
    && (run in h.outputs <==> h.runs[run].status == RunSucceeded)
    && (run in h.outputs ==> Kept(h, run))
  }

  /** The invariant of the history tables. */
  predicate Coherent(h: History) {
    && h.runs.Keys == h.scans.Keys && h.outputs.Keys <= h.scans.Keys
    && forall run | run in h.runs :: RunCoherent(h, run)
  }

  predicate RowKept(r: RunRow, later: RunRow) {
    && later.project == r.project && later.input == r.input && later.maxBytes == r.maxBytes
    && (Terminal(r.status) ==> later == r)
  }

  predicate ScanKept(s: ScanRow, later: ScanRow) {
    && later.scanner == s.scanner && later.context == s.context
    && (Terminal(s.status) ==> later == s)
  }

  predicate FilesKept(files: map<Path, seq<Byte>>, later: map<Path, seq<Byte>>) {
    forall path | path in files :: path in later && later[path] == files[path]
  }

  /** What no later transaction undoes: rows stay, terminal ones unchanged, and so do artifacts. */
  predicate Extends(h: History, later: History) {
    && (forall run | run in h.runs :: run in later.runs && RowKept(h.runs[run], later.runs[run]))
    && (forall run | run in h.scans :: run in later.scans && ScanKept(h.scans[run], later.scans[run]))
    && (forall run | run in h.outputs :: run in later.outputs && later.outputs[run] == h.outputs[run])
    && FilesKept(h.files, later.files)
  }

  lemma ExtendsTransitive(a: History, b: History, c: History)
    requires Extends(a, b) && Extends(b, c)
    ensures Extends(a, c)
  {
  }

  lemma SettledStory(r: RunRow, s: ScanRow, now: Time, status: RunStatus, error: Option<RunError>)
    requires SameStory(r, s) && Terminal(status) && (status == RunSucceeded ==> error.None?)
    ensures SameStory(SettledRow(r, now, status, error), SettledScan(s, now, status, error))
    ensures RowKept(r, SettledRow(r, now, status, error)) && ScanKept(s, SettledScan(s, now, status, error))
    ensures SettledRow(r, now, status, error).status == if r.status == RunRunning then status else r.status
  {
  }

  lemma FinishAt(h: History, now: Time, run: Uuid, status: RunStatus, error: Option<RunError>, r: Uuid)
    requires h.runs.Keys == h.scans.Keys && r in h.runs
    ensures var settled := Finish(h, now, run, status, error);
            && settled.runs.Keys == settled.scans.Keys == h.runs.Keys
            && settled.outputs == h.outputs && settled.files == h.files
            && settled.runs[r] == (if r == run then SettledRow(h.runs[r], now, status, error) else h.runs[r])
            && settled.scans[r] == (if r == run then SettledScan(h.scans[r], now, status, error) else h.scans[r])
  {
  }

  lemma FinishCoherent(h: History, now: Time, run: Uuid, status: RunStatus, error: Option<RunError>, r: Uuid)
    requires Coherent(h) && Terminal(status) && status != RunSucceeded && r in h.runs
    ensures r in Finish(h, now, run, status, error).runs && r in Finish(h, now, run, status, error).scans
    ensures RunCoherent(Finish(h, now, run, status, error), r)
    ensures RowKept(h.runs[r], Finish(h, now, run, status, error).runs[r])
    ensures ScanKept(h.scans[r], Finish(h, now, run, status, error).scans[r])
  {
    assert RunCoherent(h, r);
    FinishAt(h, now, run, status, error, r);
    SettledStory(h.runs[r], h.scans[r], now, status, error);
  }

  /** Settling a run as failed or interrupted keeps the tables coherent and undoes nothing. */
  lemma FinishKeeps(h: History, now: Time, run: Uuid, status: RunStatus, error: Option<RunError>)
    requires Coherent(h) && Terminal(status) && status != RunSucceeded
    ensures Coherent(Finish(h, now, run, status, error)) && Extends(h, Finish(h, now, run, status, error))
  {
    forall r | r in h.runs
      ensures r in Finish(h, now, run, status, error).runs && r in Finish(h, now, run, status, error).scans
      ensures RunCoherent(Finish(h, now, run, status, error), r)
      ensures RowKept(h.runs[r], Finish(h, now, run, status, error).runs[r])
      ensures ScanKept(h.scans[r], Finish(h, now, run, status, error).scans[r])
    {
      FinishCoherent(h, now, run, status, error, r);
    }
  }

  lemma PublishKeeps(files: map<Path, seq<Byte>>, path: Path, raw: seq<Byte>)
    requires Publish(files, path, raw).Some?
    ensures var more := Publish(files, path, raw).value;
            && Stored(more, path, raw)
            && FilesKept(files, more)
  {
  }

  lemma FilesKeep(h: History, files: map<Path, seq<Byte>>)
    requires Coherent(h) && FilesKept(h.files, files)
    ensures Coherent(h.(files := files)) && Extends(h, h.(files := files))
  {
    forall run | run in h.runs
      ensures RunCoherent(h.(files := files), run)
    {
      assert RunCoherent(h, run);
    }
  }

  lemma SettleKeeps(h: History, now: Time, run: Uuid, raw: seq<Byte>, stderr: seq<Byte>)
    requires Coherent(h) && run in h.runs && h.runs[run].status == RunRunning
    requires Stored(h.files, StdoutPath(h, run), raw) && Stored(h.files, StderrPath(run), stderr)
    ensures Coherent(Finish(Recorded(h, run, raw, stderr), now, run, RunSucceeded, None))
    ensures Extends(h, Finish(Recorded(h, run, raw, stderr), now, run, RunSucceeded, None))
  {
    var settled := Finish(Recorded(h, run, raw, stderr), now, run, RunSucceeded, None);
    assert RunCoherent(h, run) && run !in h.outputs;
    forall r | r in settled.runs
      ensures RunCoherent(settled, r)
    {
      assert RunCoherent(h, r);
    }
  }

  /** Ingestion keeps the tables coherent and undoes nothing, even when it fails half-way. */
  lemma IngestKeeps(h: History, now: Time, run: Uuid, raw: seq<Byte>, stderr: seq<Byte>, adapters: Adapters)
    requires Coherent(h)
    ensures var i := Ingest(h, now, run, raw, stderr, adapters);
            && Coherent(i.history) && Extends(h, i.history)
            && (i.answer.Success? ==>
                  && run in i.history.runs && i.history.runs[run].status == RunSucceeded
                  && i.history.outputs[run] == Output(Sha256(raw), Sha256(stderr)))
  {
    var i := Ingest(h, now, run, raw, stderr, adapters);
    if Reading(h, run, raw, stderr, adapters).Success? && h.runs[run].status == RunRunning {
      var first := Publish(h.files, StdoutPath(h, run), raw);
      if first.Some? {
        PublishKeeps(h.files, StdoutPath(h, run), raw);
        FilesKeep(h, first.value);
        var second := Publish(first.value, StderrPath(run), stderr);
        if second.Some? {
          PublishKeeps(first.value, StderrPath(run), stderr);
          FilesKeep(h, second.value);
          SettleKeeps(h.(files := second.value), now, run, raw, stderr);
          ExtendsTransitive(h, h.(files := second.value), i.history);
        }
      }
    }
  }

  lemma SucceededRepeats(h: History, now: Time, run: Uuid, raw: seq<Byte>, stderr: seq<Byte>, adapters: Adapters)
    requires run in h.runs && run in h.scans && h.runs[run].status == RunSucceeded && RunCoherent(h, run)
    ensures var again := Ingest(h, now, run, raw, stderr, adapters);
            && again.history == h
            && (h.outputs[run] == Output(Sha256(raw), Sha256(stderr)) ==>
                  again.answer == Reading(h, run, raw, stderr, adapters))
            && (h.outputs[run] != Output(Sha256(raw), Sha256(stderr)) ==> again.answer.Failure?)
  {
  }

  lemma SameReading(h: History, later: History, run: Uuid, raw: seq<Byte>, stderr: seq<Byte>, adapters: Adapters)
    requires run in h.runs && run in h.scans && run in later.runs && run in later.scans
    requires RowKept(h.runs[run], later.runs[run]) && ScanKept(h.scans[run], later.scans[run])
    ensures Reading(h, run, raw, stderr, adapters) == Reading(later, run, raw, stderr, adapters)
  {
  }

  lemma TakenIsReading(h: History, now: Time, run: Uuid, raw: seq<Byte>, stderr: seq<Byte>, adapters: Adapters)
    requires Ingest(h, now, run, raw, stderr, adapters).answer.Success?
    ensures Ingest(h, now, run, raw, stderr, adapters).answer == Reading(h, run, raw, stderr, adapters)
    ensures run in h.runs && run in h.scans
  {
  }

  /**
    Ingesting again. Once a run has taken some bytes, then at any later time the same bytes
    get the same report and change nothing, and any other bytes are refused and change nothing.
   */
  lemma IngestAgain(
    h: History, now: Time, run: Uuid, raw: seq<Byte>, stderr: seq<Byte>, adapters: Adapters,
    first: History, report: ParsedReport, later: History, next: Time, raw': seq<Byte>, stderr': seq<Byte>)
    requires Coherent(h) && Ingest(h, now, run, raw, stderr, adapters) == Ingestion(first, Success(report))
    requires Coherent(later) && Extends(first, later)
    ensures Ingest(later, next, run, raw', stderr', adapters).history == later
    ensures raw' == raw && stderr' == stderr ==> Ingest(later, next, run, raw', stderr', adapters).answer == Success(report)
    ensures raw' != raw || stderr' != stderr ==> Ingest(later, next, run, raw', stderr', adapters).answer.Failure?
  {
    IngestKeeps(h, now, run, raw, stderr, adapters);
    TakenIsReading(h, now, run, raw, stderr, adapters);
    ExtendsTransitive(h, first, later);
    assert RowKept(first.runs[run], later.runs[run]);
    assert RunCoherent(later, run);
    SucceededRepeats(later, next, run, raw', stderr', adapters);
    SameReading(h, later, run, raw, stderr, adapters);
  }

  /**
    A run that failed or was interrupted is never taken up again: at any later time its rows
    are what they were, it has no artifacts, and whatever bytes are offered are refused and
    change nothing.
   */
  lemma TerminalTakesNothing(
    h: History, later: History, now: Time, run: Uuid, raw: seq<Byte>, stderr: seq<Byte>, adapters: Adapters)
    requires Extends(h, later)
    requires run in h.runs && (h.runs[run].status == RunFailed || h.runs[run].status == RunInterrupted)
    ensures run in later.runs && later.runs[run] == h.runs[run]
    ensures Coherent(h) && Coherent(later) ==>
              run in later.scans && later.scans[run] == h.scans[run] && run !in later.outputs
    ensures Ingest(later, now, run, raw, stderr, adapters).history == later
    ensures Ingest(later, now, run, raw, stderr, adapters).answer.Failure?
  {
    assert RowKept(h.runs[run], later.runs[run]);
    if Coherent(h) && Coherent(later) {
      assert RunCoherent(h, run) && ScanKept(h.scans[run], later.scans[run]) && RunCoherent(later, run);
    }
  }

  // ---------------------------------------------------------------- what is accepted

  /** The output keeps to the limits, is a report, and the scope permits it. */
  predicate Acceptable(
    h: History, run: Uuid, raw: seq<Byte>, stderr: seq<Byte>, adapters: Adapters, report: ParsedReport)
    requires run in h.runs && run in h.scans
  {
    && |raw| + |stderr| <= h.runs[run].maxBytes && |stderr| <= 65536
    && adapters.parse(h.scans[run].scanner, h.runs[run].input, h.scans[run].context, raw) == Some(report)
    && adapters.permits(h.runs[run].input, h.scans[run].context, report)
  }

  /** Where the output of a run is kept. */
  function ReportFile(h: History, run: Uuid): Path
    requires run in h.scans
  {
    Path(run, if h.scans[run].scanner == Nmap then "stdout.xml" else "stdout.jsonl")
  }

  /** The two files of a run: the scanner's output and its messages. */
  predicate HoldsFiles(h: History, run: Uuid, raw: seq<Byte>, stderr: seq<Byte>)
    requires run in h.scans
  {
    var stdout, messages := ReportFile(h, run), Path(run, "stderr.txt");
    stdout in h.files && h.files[stdout] == raw && messages in h.files && h.files[messages] == stderr
  }

  /** No other bytes stand where the files of the run would. */
  predicate FilesFree(h: History, run: Uuid, raw: seq<Byte>, stderr: seq<Byte>)
    requires run in h.scans
  {
    var stdout, messages := ReportFile(h, run), Path(run, "stderr.txt");
    (stdout in h.files ==> h.files[stdout] == raw) && (messages in h.files ==> h.files[messages] == stderr)
  }

  /**
    When an ingestion is answered with a report: exactly when the output is acceptable and the
    run is either running, with its files free, or succeeded with this very output. It then
    holds these bytes; and an output that is not acceptable changes nothing.
   */
  lemma IngestExactly(
    h: History, now: Time, run: Uuid, raw: seq<Byte>, stderr: seq<Byte>, adapters: Adapters, report: ParsedReport)
    requires Coherent(h) && run in h.runs
    ensures var i := Ingest(h, now, run, raw, stderr, adapters);
            && (i.answer == Success(report)
                <==> && Acceptable(h, run, raw, stderr, adapters, report)
                     && ((h.runs[run].status == RunRunning && FilesFree(h, run, raw, stderr))
                         || (h.runs[run].status == RunSucceeded && HoldsFiles(h, run, raw, stderr))))
            && (i.answer == Success(report) ==>
                  && HoldsFiles(i.history, run, raw, stderr)
                  && i.history.runs[run].status == RunSucceeded && i.history.runs[run].error.None?
                  && (h.runs[run].status == RunRunning ==> i.history.runs[run].finishedAt == Some(now)))
            && ((forall r :: !Acceptable(h, run, raw, stderr, adapters, r)) ==> i.history == h)
  {
    assert RunCoherent(h, run);
    var reading := Reading(h, run, raw, stderr, adapters);
    assert reading.Success? ==> Acceptable(h, run, raw, stderr, adapters, reading.value);
    if h.runs[run].status == RunSucceeded {
      SucceededOutput(h, run, raw, stderr);
    }
  }

  /** A succeeded run recorded what its files hold. */
  lemma SucceededOutput(h: History, run: Uuid, raw: seq<Byte>, stderr: seq<Byte>)
    requires Coherent(h) && run in h.runs && h.runs[run].status == RunSucceeded
    ensures HoldsFiles(h, run, raw, stderr) <==> run in h.outputs && h.outputs[run] == Output(Sha256(raw), Sha256(stderr))
  {
    assert RunCoherent(h, run);
    assert Kept(h, run);
  }
}
