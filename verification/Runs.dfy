/** Completed scanner runs, as history hands them to correlation, assessment and comparison. */
module Runs {
  import opened Evidence
  import opened Wrappers

  datatype Transport = Tcp | Udp | Sctp

  datatype ServiceEndpoint = ServiceEndpoint(address: Address, transport: Transport, port: nat)

  /** What an observation is about; an HTTP endpoint is always the root of its origin. */
  datatype Subject =
    | HostSubject(address: Address)
    | OriginSubject(origin: Origin)
    | ServiceSubject(endpoint: ServiceEndpoint)
    | HttpSubject(origin: Origin)

  datatype Observation = Observation(subject: Subject, key: Key, value: Value, evidence: seq<EvidenceRef>)

  datatype ScannerMatch = ScannerMatch(
    origin: Origin, location: string, templateId: string, templateRevision: string, matcher: string,
    evidence: seq<EvidenceRef>)

  datatype ParsedReport = ParsedReport(
    evidence: EvidenceRef, observations: seq<Observation>, matches: seq<ScannerMatch>)

  datatype WebTarget = WebTarget(origin: Origin, addresses: seq<Address>)

  datatype Role = Stdout | Stderr

  datatype StoredArtifact = StoredArtifact(role: Role, sha: Digest)

  datatype RunKind = Scan | Import

  datatype RunSource = RunSource(
    runId: Uuid, project: string, kind: RunKind, createdAt: Time, finishedAt: Option<Time>,
    webTarget: Option<WebTarget>, report: ParsedReport, artifacts: seq<StoredArtifact>)

  predicate DistinctRuns(sources: seq<RunSource>) {
    forall i, j | 0 <= i < j < |sources| :: sources[i].runId != sources[j].runId
  }

  function RunIds(sources: seq<RunSource>): set<Uuid> {
    set i | 0 <= i < |sources| :: sources[i].runId
  }
}
