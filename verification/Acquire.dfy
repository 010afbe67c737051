/**
  The read loop of `recheck._acquire`: bytes arrive in segments, the buffer is parsed
  after each, and no more than the artifact budget is ever retained.
 */
module Acquire {
  import opened Bytes
  import opened Evidence
  import opened Response
  import opened Wrappers

  /** How the connection behaves once the segments are used up. */
  datatype Ending = EndOfFile | Stalled | Dropped

  datatype Reading = Reading(status: AcquisitionStatus, raw: seq<Byte>, parsed: Option<Wire>)

  /** A read returns at least one byte, unless it reports end of file. */
  predicate NonEmpty(segments: seq<seq<Byte>>) {
    forall i | 0 <= i < |segments| :: segments[i] != []
  }

  /** The outcome when no segment is left and the buffer still waits for more. */
  function Finish(raw: seq<Byte>, ending: Ending): Reading {
    match ending
    case Stalled => Reading(Timeout, raw, None)
    case Dropped => Reading(TransportError, raw, None)
    case EndOfFile =>
      match ParseResponse(raw, true)
      case Complete(w) => Reading(Completed, raw, Some(w))
      case _ => Reading(MalformedReply, raw, None)
  }

  /** The loop resumed with `raw` already retained and `segments[i..]` still to arrive. */
  function ReadFrom(segments: seq<seq<Byte>>, i: nat, raw: seq<Byte>, ending: Ending, budget: nat): Reading
    requires i <= |segments| && |raw| <= budget
    decreases |segments| - i
  {
    match ParseResponse(raw, false)
    case Complete(w) => Reading(Completed, raw, Some(w))
    case Malformed => Reading(MalformedReply, raw, None)
    case NeedMore =>
      if i == |segments| then Finish(raw, ending)
      else
        var available := budget - |raw|;
        if |segments[i]| > available then Reading(Truncated, raw + segments[i][..available], None)
        else ReadFrom(segments, i + 1, raw + segments[i], ending, budget)
  }

  function Read(segments: seq<seq<Byte>>, ending: Ending, budget: nat): Reading {
    ReadFrom(segments, 0, [], ending, budget)
  }

  /** The loop itself. */
  method ReadResponse(segments: seq<seq<Byte>>, ending: Ending, budget: nat) returns (r: Reading)
    ensures r == Read(segments, ending, budget)
  {
    var raw: seq<Byte> := [];
    var i := 0;
    while true
      invariant i <= |segments| && |raw| <= budget
      invariant Read(segments, ending, budget) == ReadFrom(segments, i, raw, ending, budget)
      decreases |segments| - i
    {
      var verdict := ParseResponse(raw, false);
      if verdict.Complete? {
        return Reading(Completed, raw, Some(verdict.value));
      }
      if verdict.Malformed? {
        return Reading(MalformedReply, raw, None);
      }
      if i == |segments| {
        return Finish(raw, ending);
      }
      var chunk := segments[i];
      var available := budget - |raw|;
      if |chunk| > available {
        return Reading(Truncated, raw + chunk[..available], None);
      }
      raw := raw + chunk;
      i := i + 1;
    }
  }

  /** The response record, and body, that the acquisition reports. */
  function Captured(r: Reading): Option<Recovered> {
    match r.parsed
    case Some(w) => Some(Recovered(Capture(w.status, w.fields, w.body, true), w.body))
    case None => if r.status.Truncated? then IncompleteResponse(r.raw) else None
  }

  // ---------------------------------------------------------------- independence from the split

  /** The first `n` segments, joined. */
  function Joined(segments: seq<seq<Byte>>, n: nat): seq<Byte>
    requires n <= |segments|
  {
    if n == 0 then [] else Joined(segments, n - 1) + segments[n - 1]
  }

  function Stream(segments: seq<seq<Byte>>): seq<Byte> {
    Joined(segments, |segments|)
  }

  lemma {:induction false} JoinedGrows(segments: seq<seq<Byte>>, i: nat, j: nat)
    requires i <= j <= |segments|
    ensures Joined(segments, i) <= Joined(segments, j)
    ensures i < j && NonEmpty(segments) ==> Joined(segments, i) < Joined(segments, j)
    decreases j
  {
    if i < j {
      JoinedGrows(segments, i, j - 1);
    }
  }

  /** At the boundary after `i` segments the buffer is a complete response. */
  predicate CompletesAt(segments: seq<seq<Byte>>, i: nat)
    requires i <= |segments|
  {
    ParseResponse(Joined(segments, i), false).Complete?
  }

  /** What was retained is an initial part of the stream, within the budget; a truncated capture fills it. */
  lemma {:induction false} Retained(segments: seq<seq<Byte>>, i: nat, ending: Ending, budget: nat)
    requires i <= |segments| && |Joined(segments, i)| <= budget
    ensures var r := ReadFrom(segments, i, Joined(segments, i), ending, budget);
            && |r.raw| <= budget && r.raw <= Stream(segments)
            && (r.status.Truncated? ==> |r.raw| == budget < |Stream(segments)|)
            && (r.status.Completed? <==> r.parsed.Some?)
            && (r.parsed.Some? ==> ParseResponse(r.raw, false) == Complete(r.parsed.value))
    decreases |segments| - i
  {
    var raw := Joined(segments, i);
    JoinedGrows(segments, i, |segments|);
    if ParseResponse(raw, false).NeedMore? {
      if i == |segments| {
        EofNeverCompletes(raw);
      } else {
        JoinedGrows(segments, i + 1, |segments|);
        assert Joined(segments, i + 1) == raw + segments[i];
        var available := budget - |raw|;
        if |segments[i]| > available {
          assert raw + segments[i][..available] <= raw + segments[i];
        } else {
          Retained(segments, i + 1, ending, budget);
        }
      }
    }
  }

  /** The buffer waits at a boundary. */
  predicate WaitsAt(segments: seq<seq<Byte>>, i: nat)
    requires i <= |segments|
  {
    ParseResponse(Joined(segments, i), false).NeedMore?
  }

  /** While the buffer waits and the next segment fits, the loop just takes it. */
  lemma OneRead(segments: seq<seq<Byte>>, i: nat, ending: Ending, budget: nat)
    requires i < |segments| && |Joined(segments, i + 1)| <= budget
    requires WaitsAt(segments, i)
    ensures |Joined(segments, i)| <= budget
    ensures ReadFrom(segments, i, Joined(segments, i), ending, budget)
            == ReadFrom(segments, i + 1, Joined(segments, i + 1), ending, budget)
  {
    assert Joined(segments, i + 1) == Joined(segments, i) + segments[i];
  }

  /** The loop passes every boundary at which the buffer waits. */
  lemma {:induction false} PassesWaits(segments: seq<seq<Byte>>, i: nat, k: nat, ending: Ending, budget: nat)
    requires i <= k <= |segments| && |Joined(segments, k)| <= budget
    requires forall j | i <= j < k :: WaitsAt(segments, j)
    ensures |Joined(segments, i)| <= budget
    ensures ReadFrom(segments, i, Joined(segments, i), ending, budget)
            == ReadFrom(segments, k, Joined(segments, k), ending, budget)
    decreases k - i
  {
    if i < k {
      JoinedGrows(segments, i + 1, k);
      assert |Joined(segments, i + 1)| <= budget && WaitsAt(segments, i);
      OneRead(segments, i, ending, budget);
      PassesWaits(segments, i + 1, k, ending, budget);
    }
  }

  /** If some later boundary within the budget completes, the loop reaches it. */
  lemma {:induction false} ReachesCompletion(segments: seq<seq<Byte>>, k: nat, ending: Ending, budget: nat)
    requires NonEmpty(segments) && k <= |segments|
    requires |Joined(segments, k)| <= budget && CompletesAt(segments, k)
    ensures Read(segments, ending, budget).status.Completed?
    ensures Read(segments, ending, budget).raw == Joined(segments, k)
  {
    forall j | 0 <= j < k
      ensures WaitsAt(segments, j)
    {
      JoinedGrows(segments, j, k);
      BeforeCompletion(Joined(segments, j), Joined(segments, k));
    }
    PassesWaits(segments, 0, k, ending, budget);
  }

  /** A completed reading stopped at a boundary that completes. */
  lemma {:induction false} StoppedAtBoundary(segments: seq<seq<Byte>>, i: nat, ending: Ending, budget: nat)
    returns (k: nat)
    requires i <= |segments| && |Joined(segments, i)| <= budget
    requires ReadFrom(segments, i, Joined(segments, i), ending, budget).status.Completed?
    ensures i <= k <= |segments| && CompletesAt(segments, k)
    ensures ReadFrom(segments, i, Joined(segments, i), ending, budget).raw == Joined(segments, k)
    ensures |Joined(segments, k)| <= budget
    decreases |segments| - i
  {
    var raw := Joined(segments, i);
    k := i;
    if ParseResponse(raw, false).NeedMore? {
      EofNeverCompletes(raw);
      assert i < |segments|;
      k := StoppedAtBoundary(segments, i + 1, ending, budget);
    }
  }

  /**
    A capture is complete exactly when some boundary between reads, within the budget,
    is the stream's completion point.
   */
  lemma {:induction false} CompleteIff(segments: seq<seq<Byte>>, ending: Ending, budget: nat)
    requires NonEmpty(segments)
    ensures Read(segments, ending, budget).status.Completed?
            <==> exists k :: 0 <= k <= |segments| && |Joined(segments, k)| <= budget && CompletesAt(segments, k)
  {
    if Read(segments, ending, budget).status.Completed? {
      var k := StoppedAtBoundary(segments, 0, ending, budget);
    }
    forall k | 0 <= k <= |segments| && |Joined(segments, k)| <= budget && CompletesAt(segments, k)
      ensures Read(segments, ending, budget).status.Completed?
    {
      ReachesCompletion(segments, k, ending, budget);
    }
  }

  /**
    However a self-delimited message that fits the budget is split into reads, and however
    the connection ends, the capture is complete and holds that message.
   */
  lemma SplitIndependent(segments: seq<seq<Byte>>, ending: Ending, budget: nat)
    requires NonEmpty(segments) && |Stream(segments)| <= budget
    requires ParseResponse(Stream(segments), false).Complete?
    ensures var r := Read(segments, ending, budget);
            && r.status.Completed? && r.raw == Stream(segments)
            && r.parsed == Some(ParseResponse(Stream(segments), false).value)
  {
    ReachesCompletion(segments, |segments|, ending, budget);
    Retained(segments, 0, ending, budget);
  }

  /**
    Two splits of one stream that both end complete, or both end truncated under one
    budget, retained the same bytes.
   */
  lemma SameBytes(a: seq<seq<Byte>>, aEnding: Ending, aBudget: nat, b: seq<seq<Byte>>, bEnding: Ending, bBudget: nat)
    requires Stream(a) == Stream(b)
    ensures var x, y := Read(a, aEnding, aBudget), Read(b, bEnding, bBudget);
            && (x.status.Completed? && y.status.Completed? ==> x.raw == y.raw && x.parsed == y.parsed)
            && (x.status.Truncated? && y.status.Truncated? && aBudget == bBudget ==> x.raw == y.raw)
  {
    Retained(a, 0, aEnding, aBudget);
    Retained(b, 0, bEnding, bBudget);
    var x, y := Read(a, aEnding, aBudget), Read(b, bEnding, bBudget);
    var stream := Stream(a);
    assert x.raw == stream[..|x.raw|] && y.raw == stream[..|y.raw|];
    if x.status.Completed? && y.status.Completed? {
      UniqueCompletion(stream, |x.raw|, |y.raw|);
    }
  }

  // ---------------------------------------------------------------- how a capture ends

  /**
    Where the loop stops: every earlier boundary waits. Either the boundary completes or is
    malformed; or the next segment does not fit; or the connection ends, and how it ends
    decides. Never does the end of a stream complete anything.
   */
  predicate StopsAt(segments: seq<seq<Byte>>, ending: Ending, budget: nat, k: nat, r: Reading) {
    && k <= |segments| && |Joined(segments, k)| <= budget
    && (forall j | 0 <= j < k :: WaitsAt(segments, j))
    && var verdict := ParseResponse(Joined(segments, k), false);
       match verdict
       case Complete(w) => r == Reading(Completed, Joined(segments, k), Some(w))
       case Malformed => r == Reading(MalformedReply, Joined(segments, k), None)
       case NeedMore =>
         if k < |segments| then
           budget < |Joined(segments, k + 1)| <= |Stream(segments)| && r == Reading(Truncated, Stream(segments)[..budget], None)
         else
           && r.raw == Stream(segments) && r.parsed.None?
           && (r.status == Timeout <==> ending.Stalled?)
           && (r.status == TransportError <==> ending.Dropped?)
           && (r.status == MalformedReply <==> ending.EndOfFile?)
  }

  lemma {:induction false} StopsFrom(segments: seq<seq<Byte>>, i: nat, ending: Ending, budget: nat) returns (k: nat)
    requires i <= |segments| && |Joined(segments, i)| <= budget
    requires forall j | 0 <= j < i :: WaitsAt(segments, j)
    ensures StopsAt(segments, ending, budget, k, ReadFrom(segments, i, Joined(segments, i), ending, budget))
    decreases |segments| - i
  {
    k := i;
    if ParseResponse(Joined(segments, i), false).NeedMore? && i < |segments| {
      JoinedGrows(segments, i + 1, |segments|);
      if |Joined(segments, i + 1)| <= budget {
        assert WaitsAt(segments, i);
        OneRead(segments, i, ending, budget);
        k := StopsFrom(segments, i + 1, ending, budget);
      } else {
        StopsFull(segments, i, ending, budget);
      }
    } else {
      StopsHere(segments, i, ending, budget);
    }
  }

  /** The next segment does not fit. */
  lemma {:induction false} StopsFull(segments: seq<seq<Byte>>, i: nat, ending: Ending, budget: nat)
    requires i < |segments| && |Joined(segments, i)| <= budget < |Joined(segments, i + 1)| <= |Stream(segments)|
    requires Joined(segments, i + 1) <= Stream(segments)
    requires ParseResponse(Joined(segments, i), false).NeedMore?
    ensures ReadFrom(segments, i, Joined(segments, i), ending, budget)
            == Reading(Truncated, Stream(segments)[..budget], None)
  {
    CutStream(Joined(segments, i), segments[i], Stream(segments), budget);
  }

  /** The boundary decides, or the stream is used up. */
  lemma {:induction false} StopsHere(segments: seq<seq<Byte>>, i: nat, ending: Ending, budget: nat)
    requires i <= |segments| && |Joined(segments, i)| <= budget
    requires forall j | 0 <= j < i :: WaitsAt(segments, j)
    requires !ParseResponse(Joined(segments, i), false).NeedMore? || i == |segments|
    ensures StopsAt(segments, ending, budget, i, ReadFrom(segments, i, Joined(segments, i), ending, budget))
  {
    EofNeverCompletes(Joined(segments, i));
  }

  lemma CutStream(raw: seq<Byte>, segment: seq<Byte>, stream: seq<Byte>, budget: nat)
    requires |raw| <= budget < |raw + segment| && raw + segment <= stream
    ensures raw + segment[..budget - |raw|] == stream[..budget]
  {
    assert stream[..budget] == (raw + segment)[..budget];
  }

  /** How a capture ends, and with which bytes, for every stream, split, ending and budget. */
  lemma ReadingExactly(segments: seq<seq<Byte>>, ending: Ending, budget: nat) returns (k: nat)
    ensures StopsAt(segments, ending, budget, k, Read(segments, ending, budget))
  {
    k := StopsFrom(segments, 0, ending, budget);
  }

  /** The loop cannot stop before a boundary that it passes. */
  lemma StopsLater(segments: seq<seq<Byte>>, ending: Ending, budget: nat, k: nat, x: Reading, n: nat, y: Reading)
    requires StopsAt(segments, ending, budget, k, x) && StopsAt(segments, ending, budget, n, y)
    ensures n <= k
  {
    assert k < n ==> WaitsAt(segments, k);
    if k < n {
      JoinedGrows(segments, k + 1, n);
    }
  }

  /** It ends in one way only. */
  lemma OneEnding(segments: seq<seq<Byte>>, ending: Ending, budget: nat, k: nat, r: Reading)
    requires StopsAt(segments, ending, budget, k, r)
    ensures r == Read(segments, ending, budget)
  {
    var n := ReadingExactly(segments, ending, budget);
    StopsLater(segments, ending, budget, k, r, n, Read(segments, ending, budget));
    StopsLater(segments, ending, budget, n, Read(segments, ending, budget), k, r);
  }
}
