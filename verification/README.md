# A verified model of ScopeLens

ScopeLens scans authorized hosts and web origins, keeps what the scanners and its own
rechecks captured, draws narrow assessments from that evidence, and compares two selections
of assessments to say what is new, unchanged, resolved or unknown. This project models the
parts of it whose promises rest on state, order or arithmetic, and proves those promises in
Dafny. `dafny verify dfyconfig.toml` checks all of it.

## What is modelled

**Reading a response** (`Bytes`, `HttpHead`, `Chunked`, `Response`, `WireText`,
`Waiting`, `TruncatedBodies`, `Acquire`). The strict
HTTP/1.1 parser is re-run on a growing buffer, with a verdict of *need more*, *malformed* or
*complete*. It accepts a subset of RFC 9112: status lines (section 4), fields (section 5),
`Content-Length` and chunked bodies (sections 6.3 and 7.1); it refuses close-delimited
bodies, chunk extensions and trailers. The results are about prefixes: at most one prefix of
any byte stream is ever complete, the language accepted is exactly the one written down by an
independent encoder, the way a stream is split into reads does not matter, and a truncated
capture agrees with every message it is a prefix of. `WireText` writes that language down once
more in text literals and numerals alone, so that nothing in it is defined through the reader.

**Assessing** (`Evidence`, `Facts`, `Rules`, `Recheck`, `HeaderEvidence`, `Runs`,
`Correlation`, `CorrelationLaws`, `Relations`, `Capture`, `CaptureLoops`, `HttpxHsts`,
`ReviewedTemplates`). The exposure and HSTS assessors over fresh rechecks, from the lines and
text on the wire to the verdict; the grouping of stored scanner runs, with its restriction,
partition and input-order laws, and each thing it says traced to the observations and matches
it comes from; and the assessments drawn from stored captures, whose loops are proved to list
exactly one assessment under each expected identity, and whose outcomes are characterised by
the matches and header records themselves.

**Comparing** (`FreshContext`, `Comparison`, `ComparisonSides`, `ComparisonLaws`,
`Bindings`, `HistoricalStates`, `StateLaws`, `LastingStates`, `FreshStates`, `HealthReasons`,
`ReportedReasons`, `Feedback`, `ReviewedRevisions`, `Selections`). Where and when evidence is
from is said of the observations and runs; the fold that gathers it by backend address is given
in closed form, and the decision chain is combined with it into the exact conditions under
which a context is `resolved` or `unchanged`. The direction of time, what the order of evidence
can and cannot change, and the agreement of producers and validators follow; and the
comparison of two selections of stored runs is carried from loading to report.

**Orchestrating** (`Lifecycle`, `RunHistory`, `Store`, `Transactions`, `Protocol`,
`ProtocolInvariant`, `ProtocolLaws`, `Engine`, `AssessmentWork`). The tables are maps, each transaction is one
step, CHECK constraints and foreign keys are guards that refuse, and a crash may fall between
any two transactions. The invariant is inductive over every run of the machine. `Engine` holds
the classes whose methods update the tables in place, each proved to be its transaction, and
`AssessmentWork` the worker's loop, proved to move the tables along a path of the machine
whatever becomes of the stages, and to leave each stage's row saying what became of it. `Transactions`
says of the rows when each transaction is refused and exactly what it changes.

**Capturing output** (`Drains`, `NmapReport`, `NmapElements`, `NmapScan`). Two reader tasks share one byte
budget under every interleaving; and an accepted Nmap scan accounts for every requested port
of every permitted host, by pigeonhole over the adapter's refusal of duplicates.

Digests and JSON identities are injective: a digest is known by its content, an identity by
its parts. Regular expressions on pages, URL and address parsing, scope authorization and the
scanner adapters of `ingest` are parameters. Times are integers from a clock that does not go
back.

## Where the code and what one would expect of it differ

- The reader's lifecycle validators do not accept every reachable manifest. A crash right
  after a claim, or between two stages, followed by reconciliation leaves an interrupted
  manifest without an interrupted stage, and reading it raises. `ProtocolLaws.ReaderValidity`
  and `ProtocolLaws.OrphanedBy` say exactly which manifests those are and which step makes
  them, `ProtocolLaws.RejectedExactly` that over a whole run a manifest is rejected exactly
  when some earlier worker start found it running between stages, and
  `ProtocolLaws.UnreadableReachable` gives the run.
- The health *reason* that a comparison reports can depend on the order in which evidence is
  listed, because of several failing copies of one artifact the first is blamed.
  `HealthReasons.BlameDependsOnOrder` gives two valid reports that differ in that order alone
  and get different coverage reasons; `HealthReasons.OrderIrrelevantExactly` says exactly when
  the order cannot matter, and `HealthReasons.ReachableReasons` which reasons some order leads
  to. No state and no state reason depends on it (`StateLaws.OrderOfEvidence`,
  `StateLaws.StatesIgnoreOrder`).
- `resolved` needs, beside healthy, valid, bound and later evidence, that no template
  revision other than the reviewed one is named on either side. Between the rechecks that
  ScopeLens makes this never decides, because they name none
  (`ReviewedRevisions.RechecksAreReviewed`); over reports that the validators and the
  comparator accept it does (`ReviewedRevisions.RevisionDecides`).
- A chunked body whose zero size is followed by something other than a line end is not refused
  at once: the reader waits until a whole trailer has arrived, and refuses it then
  (`Waiting.ChunksWaitExactly`).

## Model

| member | source | states |
|---|---|---|
| Bytes.Find | src/scopelens/assessment/recheck.py:67 | an offset that the search reports is at or after the start and holds the whole pattern |
| Bytes.FindFirst | src/scopelens/assessment/recheck.py:67 | the search misses nothing: an occurrence is never preceded by a later answer |
| Bytes.FindExtend | src/scopelens/assessment/recheck.py:97 | more bytes never move an occurrence that was found |
| HttpHead.ParseHeaders | src/scopelens/assessment/recheck.py:64-90 | the header loop yields the head of the specification, with the 32 KiB limit on both sides of the boundary |
| HttpHead.HeadExtend | src/scopelens/assessment/recheck.py:64-90 | the verdict on a head is stable: once complete or malformed, no further bytes change it |
| HttpHead.HeadRoundTrip | src/scopelens/assessment/recheck.py:64-90 | any valid spelling of a status line and fields is read back, names lowered and blanks dropped |
| HttpHead.AcceptsOnlyHeads | src/scopelens/assessment/recheck.py:64-90 | every accepted head is the wire form of some valid spelling, and was read correctly |
| Chunked.DecodeChunked | src/scopelens/assessment/recheck.py:93-123 | the decoding loop yields what the specification says, in full and partial mode |
| Chunked.DecodeExtend | src/scopelens/assessment/recheck.py:93-123 | a decoded or refused chunked body stays so when bytes follow, at the same consumed length |
| Chunked.PartialIsPrefix | src/scopelens/assessment/recheck.py:98-119 | partial mode yields an initial part of what the finished body would decode to, or nothing |
| Chunked.RoundTrip | src/scopelens/assessment/recheck.py:93-123 | encoding any non-empty chunks, CRLF in the data included, and decoding gives back the data and the exact consumed length, whatever follows |
| Chunked.ProperPrefixWaits | src/scopelens/assessment/recheck.py:97-119 | a proper prefix of an encoded body waits for more, and partial mode gives a prefix of the data |
| Chunked.AcceptsOnlyCodings | src/scopelens/assessment/recheck.py:93-123 | the decoder accepts nothing but encodings, and decodes them to their data |
| TruncatedBodies.PartialIsReceived | src/scopelens/assessment/recheck.py:98-119 | of a proper prefix of an encoded body, partial mode recovers exactly the data bytes that arrived, until only the final line end is missing |
| Response.VerdictExtend | src/scopelens/assessment/recheck.py:126-168 | after a complete or malformed buffer, every longer one is malformed |
| Response.VerdictsProgress | src/scopelens/assessment/recheck.py:126-168 | along the prefixes of any stream: waiting, then malformed for good or one completion followed by malformed for good |
| Response.BeforeCompletion | src/scopelens/assessment/recheck.py:126-168 | every proper prefix of a complete response waits |
| Response.UniqueCompletion | src/scopelens/assessment/recheck.py:126-168 | at most one prefix of any stream is a complete response |
| Response.EofNeverCompletes | src/scopelens/assessment/recheck.py:166-168 | the end of the stream completes only what was complete without it |
| WireText.DecimalExactly | src/scopelens/assessment/recheck.py:150-157 | a length field is read as a number exactly when its bytes are the decimal digits of it, zeros in front or not |
| WireText.DigitsAreRead | src/scopelens/assessment/recheck.py:150-157 | every number written in decimal digits, after any number of zeros, is read as itself |
| WireText.HexExactly | src/scopelens/assessment/recheck.py:104-107 | a chunk size is read as a number exactly when its bytes are the hexadecimal digits of it, in either case |
| WireText.StatusIs | src/scopelens/assessment/recheck.py:36-90 | three bytes are a status from 100 to 599 exactly when they are its decimal digits |
| WireText.LowerSpells | src/scopelens/assessment/recheck.py:89 | a field name is the one looked for exactly when its letters are, case aside |
| WireText.HeadIs | src/scopelens/assessment/recheck.py:64-90 | the heads that are accepted are exactly those spelled out in text: the status line, name and value characters, line ends and limit |
| WireText.OneValue | src/scopelens/assessment/recheck.py:56-59 | a name has one value exactly when one field line bears it, and the value is that of the line |
| WireText.TextRoundTrip | src/scopelens/assessment/recheck.py:126-168 | every message so spelled, its length or chunk sizes written as numerals, is complete and read as its status, its lines and its body |
| Response.MessageRoundTrip | src/scopelens/assessment/recheck.py:126-168 | the same for the wire form of every valid message of the encoder |
| WireText.AcceptsOnlyText | src/scopelens/assessment/recheck.py:126-168 | nothing but a message spelled out in text is complete, and it is read as what it says |
| Response.AcceptsOnlyMessages | src/scopelens/assessment/recheck.py:126-168 | every complete buffer is the wire form of a valid message and means what it was parsed as |
| Waiting.ChunksWaitExactly | src/scopelens/assessment/recheck.py:93-123 | the chunked decoder waits exactly on the beginnings of encodings, and after a zero size while what follows neither ends the body nor shows itself a trailer |
| Waiting.WaitsExactly | src/scopelens/assessment/recheck.py:64-168 | the reader waits exactly while the head has not ended within the limit or the body its lines announce has not all arrived; every other buffer is a message or refused |
| Response.RecoveredAgrees | src/scopelens/assessment/recheck.py:187-224 | what is recovered from truncated bytes has the status and header flags of any complete message they begin, and a prefix of its body |
| Acquire.ReadResponse | src/scopelens/assessment/recheck.py:270-288 | the read loop ends and yields the reading of the specification |
| Acquire.Retained | src/scopelens/assessment/recheck.py:270-288 | never more than the budget is retained, always an initial part of the stream, and a truncated capture fills the budget |
| Acquire.CompleteIff | src/scopelens/assessment/recheck.py:270-288 | the loop ends complete exactly when some read boundary within the budget is a complete response |
| Acquire.ReadingExactly | src/scopelens/assessment/recheck.py:270-294 | how a capture ends and with which bytes, for every stream, split, ending and budget: the first read boundary that does not wait, or does not fit, or the ending decides |
| Acquire.OneEnding | src/scopelens/assessment/recheck.py:270-294 | it ends in no other way |
| Acquire.SplitIndependent | src/scopelens/assessment/recheck.py:270-288 | any split of a self-delimited message that fits the budget ends complete with the same response |
| Acquire.SameBytes | src/scopelens/assessment/recheck.py:270-288 | two splits of one stream that both end complete retained identical bytes |
| Recheck.AcquiredIsValid | src/scopelens/assessment/recheck.py:312-360 | whatever the network does, the reported acquisition and its body satisfy their validators |
| HeaderEvidence.CapturedLines | src/scopelens/assessment/recheck.py:312-350 | whatever a capture records, complete or truncated, its own lines say: the HSTS flag exactly if a strict-transport-security line stands in the head, a challenge exactly if one of three does, identity encoding exactly if every content-encoding line says so |
| HeaderEvidence.CapturedMessage | src/scopelens/assessment/recheck.py:326-343 | a complete capture is a message, with its status, lines and whole body recorded |
| HeaderEvidence.CutMessage | src/scopelens/assessment/recheck.py:187-224 | of a message cut short, nothing is recovered before its head is complete or when only the end of its last chunk line is missing; and else its status, its lines and every body byte that arrived |
| HeaderEvidence.RecoveredExactly | src/scopelens/assessment/recheck.py:187-224 | of any bytes: something is recovered exactly if the head is whole, nothing is malformed and the lines say how to read the body |
| HeaderEvidence.HstsVerdict | src/scopelens/assessment/rules.py:312-452 | from the bytes of any connection to the HSTS outcome and reason: the lines, the status and the page decide, as stated |
| HeaderEvidence.ExposureVerdict | src/scopelens/assessment/rules.py:146-309 | from the bytes to the exposure outcome and reason: on a message its status, lines and the text of its body decide; without one, how the capture failed |
| HeaderEvidence.MarkersAre | src/scopelens/assessment/rules.py:269-280 | the reviewed markers are found exactly where their texts stand in the body |
| HeaderEvidence.NotRunExactly | src/scopelens/assessment/recheck.py:377-424 | a resource is left out exactly at the deadline or when the pause would reach it; nothing is recorded of it, and every rule says the check was not run |
| Recheck.CapturedFromHead | src/scopelens/assessment/recheck.py:312-360 | a captured response of any reading is made of the head that its retained bytes begin with |
| Recheck.HstsNeverOpposite | src/scopelens/assessment/rules.py:312-452 | the HSTS verdict from a truncated capture is never the opposite of the one from the full response |
| Recheck.RecheckWeb | src/scopelens/assessment/recheck.py:377-424 | the report is valid, covers exactly the planned resources and the three rules, and all of it is accepted by the comparator |
| Recheck.SoundReport | src/scopelens/assessment/models.py:181-197 | assessments that are each sound on a cited acquisition, under distinct claims, make a valid and accepted report |
| FreshContext.ExposureAccepted | src/scopelens/assessment/rules.py:146-309 | what the exposure assessor says of a valid exchange is accepted exactly when the exchange is at the rule's own resource |
| FreshContext.HstsAccepted | src/scopelens/assessment/rules.py:312-452 | the same for the HSTS assessor |
| FreshContext.AcceptedHsts | src/scopelens/comparison/compare.py:190-245 | an accepted HSTS outcome is the one the captured header block dictates, and the assessor's own under the stated condition |
| FreshContext.AcceptedExposure | src/scopelens/comparison/compare.py:190-245 | an accepted exposure outcome rests on a complete reply of an admissible status, and is the assessor's own exactly when the body bears it out |
| Facts.LookupAll | src/scopelens/comparison/compare.py:224-228 | facts with distinct keys are all found under their keys |
| Correlation.Correlate | src/scopelens/analysis/correlation.py:63-227 | the loops over dictionaries yield the grouping of the specification, with its errors |
| CorrelationLaws.EventMembers | src/scopelens/analysis/correlation.py:111-180 | the recorded occurrences are exactly the contributions of the selected runs |
| CorrelationLaws.GroupMembers | src/scopelens/analysis/correlation.py:111-180 | a reference stands in a group exactly when some selected run contributes it, and no group is empty |
| CorrelationLaws.IgnoresInputOrder | src/scopelens/analysis/correlation.py:63-71 | selections that are permutations of each other correlate to the same result |
| CorrelationLaws.RestrictionLaw | src/scopelens/analysis/correlation.py:63-227 | correlating part of a selection gives the whole result with references cut to the part and emptied groups dropped |
| CorrelationLaws.ObservationsPartition | src/scopelens/analysis/correlation.py:111-180 | each observation stands in exactly one assertion and in no finding |
| CorrelationLaws.MatchesPartition | src/scopelens/analysis/correlation.py:111-180 | each match stands in exactly one finding and in no assertion |
| CorrelationLaws.NothingDangles | src/scopelens/analysis/correlation.py:83-116 | every identity that a relationship, assertion or finding mentions is in the inventory |
| Relations.SaysExactly | src/scopelens/analysis/correlation.py:73-180 | a reference stands under an item, relationship, assertion or finding exactly when the configured context, observation or match it names says so |
| Relations.CorrelatesExactly | src/scopelens/analysis/correlation.py:63-180 | a selection correlates exactly when it is not empty, of one project, without repeats, and every address and matched resource in it can be read |
| Relations.CopiesExactly | src/scopelens/analysis/correlation.py:219-226 | an artifact is listed as copied exactly when two runs of the selection hold it, with those runs in order |
| CaptureLoops.AssessFindings | src/scopelens/assessment/capture.py:57-147 | the finding loop lists one assessment under each finding's identity |
| CaptureLoops.AssessMissing | src/scopelens/assessment/capture.py:149-202 | the loops over Nuclei origins add one assessment for each check that no finding speaks for |
| CaptureLoops.AssessHstsOrigins | src/scopelens/assessment/capture.py:241-319 | the loop over sighted origins adds one HSTS assessment for each |
| CaptureLoops.FileSightings | src/scopelens/assessment/capture.py:206-239 | the two dictionaries hold exactly the sightings, by origin and by record |
| CaptureLoops.FileRun | src/scopelens/assessment/capture.py:206-239 | the inner loop files the sightings of one run after those of the runs before it |
| CaptureLoops.FileObservation | src/scopelens/assessment/capture.py:206-239 | the innermost loop files one observation under each record it cites |
| CaptureLoops.AssessCorrelation | src/scopelens/assessment/capture.py:322-328 | identities are pairwise distinct, and the list is exactly what the correlation yields |
| CaptureLoops.FindingIdIsNew | src/scopelens/assessment/capture.py:57-78 | two findings of one project never share a claim |
| ReviewedTemplates.NucleiPositiveExactly | src/scopelens/assessment/capture.py:52-147 | from matches to a positive assessment: exactly when some match of the rule's template and matcher has evidence and every one was made by Nuclei with the reviewed revision; its evidence then names that revision alone |
| ReviewedTemplates.NucleiSilentExactly | src/scopelens/assessment/capture.py:57-202 | otherwise there is an assessment exactly if a match was made or Nuclei looked at the origin, and it is inconclusive for the stated reason |
| ReviewedTemplates.FindingRests | src/scopelens/assessment/capture.py:79-147 | the assessment of a finding cites exactly the evidence of its matches, each with its own template, matcher, revision and location |
| ReviewedTemplates.SilenceRests | src/scopelens/assessment/capture.py:149-202 | where nothing matched, exactly the Nuclei runs that looked are cited, each with the number of its matches |
| ReviewedTemplates.OnlyReviewedPositive | src/scopelens/assessment/capture.py:57-147 | no other rule or resource is ever supported positively by stored evidence |
| HttpxHsts.HttpxHstsExactly | src/scopelens/assessment/capture.py:205-319 | from httpx observations to the HSTS assessment: one exactly if some record tells something of the origin, never positive, and negative exactly for an HTTPS hostname of which every record shows the header |
| HttpxHsts.HstsCites | src/scopelens/assessment/capture.py:205-319 | it cites exactly what httpx told of the origin, under the stated prerequisites and reason |
| ComparisonSides.AssessmentEntries | src/scopelens/comparison/compare.py:276-413 | the loops over uses and addresses yield the entries of the specification |
| Bindings.BoundExactly | src/scopelens/comparison/compare.py:124-164 | a run's own evidence is bound to an address exactly as its observations say: the one peer that answered, or the address of the failed probe; or the only address of a Nuclei scan |
| Bindings.ViewBoundExactly | src/scopelens/comparison/compare.py:294-341 | with imports: bound where the scans they repeat all are, and else where their own record is |
| Bindings.ViewTimedExactly | src/scopelens/comparison/compare.py:301-341 | the stretch of time evidence is from: of its finished scan, or from the first start to the last end of the scans an import repeats |
| Bindings.KeysExactly | src/scopelens/comparison/compare.py:294-385 | an assessment of stored evidence has an entry at exactly the addresses some of it is bound to, or at none |
| ComparisonSides.BuildSide | src/scopelens/comparison/compare.py:248-415 | the fold over a selection yields the side of the specification, with the same error or none |
| ComparisonSides.CompareSides | src/scopelens/comparison/compare.py:686-703 | one result for every context of either side, and no other |
| ComparisonSides.CompareAssessments | src/scopelens/comparison/compare.py:663-703 | fails exactly when the projects differ or a side fails; otherwise covers every context and satisfies the report validator |
| ComparisonSides.CoversIsValid | src/scopelens/comparison/models.py:85-102 | results that cover two sides always satisfy the report validator |
| ComparisonLaws.CopiesMean | src/scopelens/comparison/compare.py:370-374 | a digest is recorded healthy exactly when some use that carries it is |
| ComparisonLaws.SpanMeans | src/scopelens/comparison/compare.py:391-408 | the window exists exactly when every use has one, and runs from the earliest start to the latest end |
| ComparisonLaws.TallySums | src/scopelens/comparison/compare.py:294-414 | the fold over an address's evidence in closed form: evidence, health, digests, validity and timing without reference to order |
| HistoricalStates.EntriesStand | src/scopelens/comparison/compare.py:375-385 | an assessment has an entry at exactly the addresses its evidence is bound to, or one at none |
| HistoricalStates.EntriesRecord | src/scopelens/comparison/compare.py:294-414 | each entry records the closed form of the evidence bound to its address |
| HistoricalStates.ResolvedDecision | src/scopelens/comparison/compare.py:488-660 | the decision chain says `resolved` of two entries exactly under the conjunction of its conditions |
| HistoricalStates.LaterMeans | src/scopelens/comparison/compare.py:479-485 | one entry is later than another exactly when all its evidence is, and shares no artifact |
| HistoricalStates.ResolvedExactly | src/scopelens/comparison/compare.py:248-660 | end to end: `resolved` exactly when some baseline assessment supports the condition and some current one its absence, on bound, readable, valid, later and disjoint evidence of the reviewed revision |
| LastingStates.UnchangedExactly | src/scopelens/comparison/compare.py:248-660 | end to end: `unchanged` exactly when both sides support one outcome on bound, readable, valid evidence of the reviewed revision, from the same bytes or later and disjoint |
| LastingStates.EmergingIsNew | src/scopelens/comparison/compare.py:615-660 | a context whose absence was supported and whose condition later is, is new |
| ReviewedTemplates.PositivesPersist | src/scopelens/comparison/compare.py:450-648 | a reviewed match found again leaves its context unchanged exactly when the bytes are the same or all of the later evidence is later and disjoint |
| ReviewedTemplates.PositiveThenNegative | src/scopelens/comparison/compare.py:450-648 | a reviewed match that a later check no longer finds is resolved exactly when the check names no other revision |
| StateLaws.OtherStatesExactly | src/scopelens/comparison/compare.py:488-660 | the decision chain without its order: exactly when a context is new, not observed or unchanged |
| ReportedReasons.ConclusionExactly | src/scopelens/comparison/compare.py:488-660 | the reason and the coverage of every conclusion, without the order of the chain |
| ReportedReasons.CaptureHealthExactly | src/scopelens/comparison/compare.py:97-117 | why stored evidence counts as unhealthy: not recorded, not verified, or not found ready |
| ReportedReasons.SameEvidenceExactly | src/scopelens/comparison/compare.py:167-187 | a stored assessment counts as the expected one exactly when outcome, reason, prerequisites and evidence are the same, in whatever order |
| ReportedReasons.OpeningExactly | src/scopelens/comparison/compare.py:81-94 | which selections are refused at once |
| StateLaws.CaptureProvenance | src/scopelens/comparison/compare.py:97-165 | stored evidence is bound only to addresses approved for the run that produced it, placed in time only by a finished scan, and healthy exactly when its recorded artifact was found ready |
| StateLaws.EntryForward | src/scopelens/comparison/compare.py:310-350 | every built entry starts no later than it finishes |
| StateLaws.ResolvedNotReversed | src/scopelens/comparison/compare.py:615-648 | a context resolved from A to B is unknown from B to A, for want of later evidence |
| StateLaws.SelfComparison | src/scopelens/comparison/compare.py:488-660 | against itself nothing is new or resolved, and a context is unchanged exactly under the stated condition |
| StateLaws.OrderOfEvidence | src/scopelens/comparison/compare.py:294-414 | listing evidence in another order changes neither success nor error, nor any entry beyond order and health reason |
| StateLaws.StatesIgnoreOrder | src/scopelens/comparison/compare.py:488-660 | sides that match up to order give every context the same state, reason and coverage status |
| FreshStates.SupportsExactly | src/scopelens/comparison/compare.py:190-245 | a fresh assessment supports its outcome at an address exactly when its rule is known, evidence is bound there, and every acquisition cited there is admissible, well recorded and has a ready copy |
| FreshStates.FreshSettlesExactly | src/scopelens/comparison/compare.py:190-485 | one fresh assessment settles another exactly under a condition on the cited acquisitions: ready, complete (truncated only for HSTS), of an admissible status, the first all finished before the second began, on different artifacts and naming no revision but the reviewed one |
| FreshStates.FreshResolvedExactly | src/scopelens/comparison/compare.py:248-660 | end to end: a context of two selections of fresh rechecks is resolved exactly when some baseline assessment is so settled by some current one |
| FreshStates.FreshResolved | src/scopelens/comparison/compare.py:350-374 | the assessments behind a resolved context, named, meet that condition |
| FreshStates.FreshResolves | src/scopelens/comparison/compare.py:488-660 | any two assessments that meet it make their context resolved |
| HealthReasons.FirstBlamed | src/scopelens/comparison/compare.py:370-374 | for any list of evidence: of the copies of an artifact that all fail, the one listed first gives the recorded reason |
| HealthReasons.FirstReasonMeans | src/scopelens/comparison/compare.py:386-390 | the reported reason is the least of the recorded failures, and there is none exactly when no digest failed |
| HealthReasons.ReachableReasons | src/scopelens/comparison/compare.py:370-404 | the reasons an entry can be made to report by permuting its evidence are exactly those some failing digest has and every failing digest has a use that equals or exceeds |
| HealthReasons.OrderIrrelevantExactly | src/scopelens/comparison/compare.py:370-404 | every permutation of the evidence reports the same reason exactly when nothing fails or some failing digest has each of its uses carry the least reason of all uses of failing digests |
| HealthReasons.BlameDependsOnOrder | src/scopelens/comparison/compare.py:370-390 | two valid reports that differ in the order of evidence alone are both accepted, and a comparison gives each a different health reason and coverage reason |
| Feedback.OnlyAmbiguousVersions | src/scopelens/comparison/compare.py:276-388 | for a valid report that passes the opening checks, building fails exactly on ambiguous rule versions; the duplicate-context and dangling-reference errors cannot arise |
| Feedback.FindingOccurs | src/scopelens/analysis/correlation.py:163-180 | every finding of a correlation is of its project and groups a match of a selected run |
| Feedback.ExpectedCites | src/scopelens/assessment/capture.py:52-319 | whatever a correlation yields under an identity bears it and cites selected runs only |
| Feedback.OwnReportValid | src/scopelens/assessment/models.py:153-171 | the report made of a correlation always satisfies its validator |
| Feedback.OwnReportAccepted | src/scopelens/comparison/compare.py:257-385 | fed back with its own correlation, the report is never refused, and exactly the entries of known rules are valid |
| Feedback.CapturesNeverResolve | src/scopelens/assessment/capture.py:128-132 | two selections of stored captures never make a context resolved |
| ReviewedRevisions.RechecksAreReviewed | src/scopelens/comparison/compare.py:441-476 | between any two reports that rechecks make, the revisions named are the reviewed ones, with no hypothesis |
| ReviewedRevisions.OneResolved | src/scopelens/comparison/compare.py:462-476 | of two checks of one claim, the condition supported by the earlier and its absence by the later, the named revisions alone decide whether the comparison says resolved |
| ReviewedRevisions.RevisionDecides | src/scopelens/comparison/compare.py:462-476 | a valid pair of reports, all else in order, that is resolved exactly when no revision is named |
| Selections.CorrelateHistory | src/scopelens/storage/correlation.py:26-97 | a selection is refused exactly when it is empty, repeats a run, names a run that is not stored under the project, or does not correlate, in that order |
| Selections.LoadedCount | src/scopelens/storage/correlation.py:49-52 | as many runs are loaded as were asked for exactly when all of them are stored |
| Selections.AssessSelection | src/scopelens/storage/correlation.py:132-142 | a selection that correlates is assessed, one that does not is refused with the same error; the condition of the assessor on findings always holds |
| Selections.SideOfUnion | src/scopelens/storage/correlation.py:157-170 | a side cut out of the correlation of the union correlates whenever the union does, to exactly what the side alone would |
| Selections.CompareHistory | src/scopelens/storage/correlation.py:145-179 | two selections are compared exactly when both are sensible and their union correlates; the results compare the assessments of each side alone, satisfy the report validator, and call nothing resolved |
| Lifecycle.ShapeOf | src/scopelens/orchestration/worker.py:168-184 | the shape of stages spelled out: done, then at most one running or interrupted, then pending |
| Lifecycle.ChecksSuffice | src/scopelens/storage/schema.py:305-332 | a stage row that the database admits is one the reader's stage validator accepts |
| Lifecycle.ReadableExactly | src/scopelens/orchestration/models.py:69-193 | of consistent manifests the reader rejects exactly those interrupted without an interrupted stage |
| RunHistory.FinishKeeps | src/scopelens/storage/history.py:397-415 | settling a run keeps the tables coherent and undoes nothing |
| RunHistory.IngestKeeps | src/scopelens/storage/history.py:182-395 | ingestion keeps the tables coherent and undoes nothing, even when it fails half-way; success means the run succeeded with these artifacts |
| RunHistory.IngestAgain | src/scopelens/storage/history.py:243-269 | at any later time the same bytes get the same report and change nothing, and other bytes are refused and change nothing |
| RunHistory.IngestExactly | src/scopelens/storage/history.py:182-395 | an ingestion is answered exactly when the output keeps to both limits, parses, is permitted, and the run is running with its files free or succeeded with this output; it then holds these bytes, and unacceptable output changes nothing |
| RunHistory.TerminalTakesNothing | src/scopelens/storage/history.py:266-269 | once a run has failed or been interrupted, at any later time its row is the same, and bytes offered for it are refused and change no table and no file |
| RunHistory.ExtendsTransitive | src/scopelens/storage/history.py:397-415 | what one step keeps, any sequence of steps keeps |
| ProtocolInvariant.Invariant | src/scopelens/orchestration/store.py:139-491 | every step of the protocol, crashes and late calls included, keeps the invariant |
| ProtocolInvariant.Initially | src/scopelens/orchestration/store.py:139-160 | empty tables satisfy the invariant |
| ProtocolInvariant.Reconciles | src/scopelens/orchestration/store.py:316-377 | reconciliation violates no constraint and leaves no manifest running |
| ProtocolInvariant.Begins | src/scopelens/storage/history.py:96-180 | beginning a run keeps the invariant: reservations hold |
| ProtocolInvariant.BegunRuns | src/scopelens/storage/history.py:97-120 | a reserved run is begun only for its own stage, while that stage is running |
| ProtocolInvariant.Enqueues | src/scopelens/orchestration/store.py:139-218 | enqueueing keeps every reservation unique and unbegun |
| ProtocolInvariant.Closes | src/scopelens/orchestration/store.py:675-717 | closing keeps the invariant: the status is what the stages amount to |
| ProtocolInvariant.Fenced | src/scopelens/orchestration/store.py:413-491 | a call with a token that no row carries is refused |
| ProtocolLaws.Always | src/scopelens/orchestration/worker.py:159-187 | the invariant holds in every state of every run |
| ProtocolLaws.Shape | src/scopelens/orchestration/store.py:316-491 | in every state, each manifest has the stage shape, carries a token exactly while running, and at most one manifest runs |
| ProtocolLaws.Forward | src/scopelens/orchestration/store.py:413-491 | stages and manifests only move forward, and terminal manifest, stage and run rows never change |
| ProtocolLaws.AtMostOnce | src/scopelens/orchestration/store.py:413-429 | over a whole run each stage is started at most once and each run begun at most once |
| ProtocolLaws.ReservedRuns | src/scopelens/storage/history.py:97-162 | a planned run has no row before its stage is running, and a completed scanner stage names its own run, which succeeded |
| ProtocolLaws.RowsAgree | src/scopelens/storage/history.py:397-415 | a run row and its scanner-stage row always carry the same status, time and error |
| ProtocolLaws.Fencing | src/scopelens/orchestration/store.py:579-611 | once a manifest has lost a token no row ever carries it again and every call that presents it is refused |
| ProtocolLaws.ReaderValidity | src/scopelens/orchestration/models.py:132-193 | in every state the reader rejects exactly the orphaned manifests |
| ProtocolLaws.OrphanedBy | src/scopelens/orchestration/store.py:316-377 | a step orphans a manifest exactly when it is a reconciliation that finds it running between two stages |
| ProtocolLaws.RejectedExactly | src/scopelens/orchestration/store.py:316-377 | over a whole run, the reader rejects a manifest exactly when some earlier event is a worker start that found it running between two stages |
| ProtocolLaws.UnreadableReachable | src/scopelens/orchestration/store.py:316-411 | a run of the protocol that ends in a manifest the reader rejects |
| ProtocolLaws.ClosedManifest | src/scopelens/orchestration/store.py:675-717 | a closed manifest is readable, and after its last stage has none unfinished and is failed exactly when some stage failed |
| Engine.OrchestrationStore.Enqueue | src/scopelens/orchestration/store.py:139-218 | the tables become those of the transaction, or stay as they were with its error |
| Engine.OrchestrationStore.Claim | src/scopelens/orchestration/store.py:379-411 | the oldest pending manifest that may be picked is claimed, and nothing else changes |
| Engine.OrchestrationStore.StartStage | src/scopelens/orchestration/store.py:413-429 | the tables become those of the transaction, or stay as they were with its error |
| Engine.OrchestrationStore.SkipStage | src/scopelens/orchestration/store.py:431-453 | the same for skipping |
| Engine.OrchestrationStore.FinishStage | src/scopelens/orchestration/store.py:455-491 | the same for finishing, with the row constraints as guards |
| Engine.OrchestrationStore.PersistRecheck | src/scopelens/orchestration/store.py:493-611 | the same for a recheck report: row and report are written together or not at all |
| Engine.OrchestrationStore.Finalize | src/scopelens/orchestration/store.py:675-717 | the same for closing a manifest |
| Engine.OrchestrationStore.ReconcileStale | src/scopelens/orchestration/store.py:316-377 | everything marked running becomes interrupted, runs of those manifests included |
| Engine.OldestExists | src/scopelens/orchestration/store.py:390-396 | among any manifests one comes first by creation and identifier |
| Transactions.EnqueueExactly | src/scopelens/orchestration/store.py:139-218 | a plan is taken exactly when it has work, authorized, without repeats and reserving runs nobody knows; it becomes a pending stage for each request, and nothing else changes |
| Transactions.ClaimExactly | src/scopelens/orchestration/store.py:379-411 | the manifest claimed is the pending one created first, by identifier among equals |
| Engine.HistoryService.Begin | src/scopelens/storage/history.py:96-180 | the tables become those of the begin transaction, or stay as they were with its error |
| Engine.HistoryService.Ingest | src/scopelens/storage/history.py:182-395 | tables, files and answer are those of the ingestion, published files included when it fails |
| Engine.HistoryService.Fail | src/scopelens/storage/operations.py:73-77 | a running run gets the status, time and error given, its stage with it; a settled one and every other run are untouched; the tables stay coherent |
| AssessmentWork.AssessmentWorker.ScannerStage | src/scopelens/orchestration/worker.py:43-94 | however a scan goes, the tables move along a path of the protocol; the stage is completed exactly when its run was begun and the ingestion of its output answered, and is then the run of that output; failed or interrupted as the scan was otherwise |
| AssessmentWork.AssessmentWorker.RecheckStage | src/scopelens/orchestration/worker.py:96-157 | the same for a recheck: completed exactly when a report that was stored has every acquisition complete, failed as incomplete when it has not, and failed or interrupted otherwise |
| AssessmentWork.AssessmentWorker.RunStage | src/scopelens/orchestration/worker.py:168-184 | the same for one iteration of the stage loop, skipped stages included |
| AssessmentWork.AssessmentWorker.NextStage | src/scopelens/orchestration/worker.py:167-187 | one turn of the stage loop goes on between stages, or leaves along a protocol path with the manifest as the interrupt or error says |
| AssessmentWork.AssessmentWorker.InterruptManifest | src/scopelens/orchestration/worker.py:185-187 | an interrupt that is raised again leaves a readable manifest: interrupted if a stage was, settled if all stages had finished |
| AssessmentWork.AssessmentWorker.RunOne | src/scopelens/orchestration/worker.py:159-187 | a whole worker run is a path of the protocol; on a normal return every row says what became of its stage; it leaves no stage unfinished, is failed exactly when some stage failed, and is readable; an interrupt, before a stage, in one or after the last, leaves a readable manifest |
| AssessmentWork.ReachesJoin | src/scopelens/orchestration/worker.py:159-187 | paths of the protocol compose |
| Drains.SharedCapture.Drain | src/scopelens/execution/process.py:152-169 | one turn of a task updates counters, file and progress as specified |
| Drains.SharedBudget | src/scopelens/execution/process.py:149-169 | under every interleaving the counters say what the files hold, both budgets are kept, and files are prefixes of their streams |
| Drains.ScheduleIndependent | src/scopelens/execution/process.py:152-169 | whenever the tasks are over, output is accepted exactly when both limits allow all of it, and the files are then complete |
| Drains.NeverStuck | src/scopelens/execution/process.py:155 | a task that is still reading can always take another turn |
| Drains.Bounded | src/scopelens/execution/process.py:155-169 | every interleaving is finite |
| NmapReport.Normalize | src/scopelens/adapters/nmap.py:126-155 | the host loop yields the observations of the specification, or refuses |
| NmapReport.NormalizeHost | src/scopelens/adapters/nmap.py:157-253 | the port loop yields a host's observations, or refuses a repeated or invalid endpoint |
| NmapReport.ReportedOnce | src/scopelens/adapters/nmap.py:126-224 | the state of a service endpoint is reported at most once in a whole report |
| NmapElements.NormalizedExactly | src/scopelens/adapters/nmap.py:126-253 | a report is read exactly when every host and port element is sound, and no address or endpoint is repeated |
| NmapElements.ReportSaysExactly | src/scopelens/adapters/nmap.py:126-253 | an observation is reported exactly when the element of its host or port says so, states and counts included |
| NmapScan.CheckCoverage | src/scopelens/execution/nmap.py:75-107 | the accounting loop accepts exactly the reports in scope, without timeout, whose counts match |
| NmapScan.ScopeExactly | src/scopelens/execution/nmap.py:75-100 | the observations that are let pass are of permitted hosts and of requested, authorized TCP ports, and none is of a timeout |
| NmapScan.Pigeonhole | src/scopelens/execution/nmap.py:88-89 | without repeats there are as many reported TCP endpoints at an address as different ports |
| NmapScan.Coverage | src/scopelens/execution/nmap.py:75-107 | a report in scope is accepted exactly when, for every host, the requested ports without a reported state number the sum of its summaries |
| NmapScan.NoSummaries | src/scopelens/execution/nmap.py:75-107 | without summaries a host's reported ports are exactly the requested ones |
| NmapScan.ScanNmap | src/scopelens/execution/nmap.py:51-113 | whatever the scan accepts accounts for every requested port of every permitted host |

## Left out

- Sockets, TLS, timeouts and cancellation: a read loop sees an arbitrary list of non-empty segments and one of three endings.
- Process groups, spawning and cleanup in `run_process`, and the partial write error of a file.
- SQL isolation and the loss of an advisory lock: each transaction is one atomic step, and one worker holds the lock.
- `get` and the ownership reads that precede the transaction of `persist_recheck` are part of that one step; publishing its artifacts is not modelled there.
- Stage identifiers: a stage is known by its manifest and ordinal, which the table keeps unique.
- Corruption of stored files from outside: the artifact map only grows, so the corrupt-copy error of `ingest` is modelled but not reachable.
- A selected run without a completed report, which the source refuses with a message of its own, is a missing run here; the health found by reading stored artifacts is a parameter.
- Entities, observation rows and the reported exit that `ingest` also stores; `read_report` and health reconciliation.
- `build_plan` and the stage contract checks, which appear as one authorization predicate.
- Sorting of groups, references, assessments and results for presentation; explanation and limitation texts; copy limitations.
- Template revision facts that are not text: the source compares their text, the model their value; Nuclei matches always give text.
- Negative zero and other floating-point distinctions in fact values: equality is that of numbers.
- The `changed` historical state, which no branch of the source produces.
- XML parsing and its depth and count limits; URL, address and page expressions; JSONL adapters.
- FastAPI, the command line, reports, snapshots and the user interface: presentation with only easy members.
- That a terminal assessment stage has no running run row is not claimed, because an ingest error can leave its run running.
