/**
 * The event correlation of `dune/daq_trigger_latencies.py`: received TP sets
 * are matched against the TP data requests of the TP buffer. A TP set matches a
 * request when its start time lies in the request's window, both bounds
 * included, and each match yields a latency record. Also the extraction of a
 * number that follows a descriptor in a log line.
 */
module TriggerLatencies {
  import opened Wrappers
  import opened Sorting
  import opened Text

  /** A TP set received by the trigger (`TPSetData`). */
  datatype TPSetData = TPSetData(timeStart: int, adcIntegral: int, realTime: int)

  /** A request for the TPs of a time window (`TPDataRequest`). */
  datatype TPDataRequest = TPDataRequest(windowBegin: int, windowEnd: int, realTime: int)

  /**
   * A latency record (`TPLatency`). The latency is kept as a tick difference;
   * the script divides it by 1e9 to obtain seconds.
   */
  datatype TPLatency = TPLatency(tpReceived: int, tpRequested: int, latency: int)

  /** The sort key of the received TPs. */
  function TimeStartKey(tp: TPSetData): int { tp.timeStart }

  /** The sort key of the requests. */
  function WindowBeginKey(request: TPDataRequest): int { request.windowBegin }

  /** The window test: both bounds are inclusive. */
  predicate InWindow(tp: TPSetData, request: TPDataRequest) {
    request.windowBegin <= tp.timeStart <= request.windowEnd
  }

  /** The record emitted for a matching pair; the latency may be negative and is not clamped. */
  function LatencyOf(tp: TPSetData, request: TPDataRequest): TPLatency {
    TPLatency(tp.realTime, request.realTime, request.realTime - tp.realTime)
  }

  // ------------------------------------------------------------ reference join

  /** Brute force for one request: every TP in the window, in TP order. */
  function WindowMatches(tps: seq<TPSetData>, request: TPDataRequest): seq<TPLatency> {
    if tps == [] then []
    else
      var last := tps[|tps| - 1];
      WindowMatches(tps[..|tps| - 1], request) + (if InWindow(last, request) then [LatencyOf(last, request)] else [])
  }

  /** Brute force over all (request, TP) pairs, grouped by request in request order. */
  function AllMatches(tps: seq<TPSetData>, requests: seq<TPDataRequest>): seq<TPLatency> {
    if requests == [] then []
    else AllMatches(tps, requests[..|requests| - 1]) + WindowMatches(tps, requests[|requests| - 1])
  }

  /** The indices of the TPs that lie in the window. */
  function WindowIndices(tps: seq<TPSetData>, request: TPDataRequest): set<nat> {
    set k: nat | k < |tps| && InWindow(tps[k], request)
  }

  /** The sum, over the requests, of the number of TPs in each window. */
  function TotalInWindows(tps: seq<TPSetData>, requests: seq<TPDataRequest>): nat {
    if requests == [] then 0
    else TotalInWindows(tps, requests[..|requests| - 1]) + |WindowIndices(tps, requests[|requests| - 1])|
  }

  /** The record of every TP of `tps`, one for one. */
  function Records(tps: seq<TPSetData>, request: TPDataRequest): (r: seq<TPLatency>)
    ensures |r| == |tps|
  {
    seq(|tps|, m requires 0 <= m < |tps| => LatencyOf(tps[m], request))
  }

  // ------------------------------------------------------------ the scan as written

  /** The index of the first TP whose start exceeds `bound`, or `|tps|`: where the inner loop breaks. */
  function FirstAbove(tps: seq<TPSetData>, bound: int): (k: nat)
    ensures k <= |tps|
    ensures forall i :: 0 <= i < k ==> tps[i].timeStart <= bound
    ensures k < |tps| ==> tps[k].timeStart > bound
  {
    if tps == [] || tps[0].timeStart > bound then 0
    else 1 + FirstAbove(tps[1..], bound)
  }

  /** What the inner loop collects for one request: the matches before the break. */
  function ScannedMatches(tps: seq<TPSetData>, request: TPDataRequest): seq<TPLatency> {
    WindowMatches(tps[..FirstAbove(tps, request.windowEnd)], request)
  }

  /** What `GetTPLatencies` returns, on any input. */
  function ScannedJoin(tps: seq<TPSetData>, requests: seq<TPDataRequest>): seq<TPLatency> {
    if requests == [] then []
    else ScannedJoin(tps, requests[..|requests| - 1]) + ScannedMatches(tps, requests[|requests| - 1])
  }

  /** One more TP scanned for a request adds its record when it is in the window. */
  lemma WindowMatchesStep(tps: seq<TPSetData>, j: nat, request: TPDataRequest)
    requires j < |tps|
    ensures WindowMatches(tps[..j + 1], request) ==
            WindowMatches(tps[..j], request) + (if InWindow(tps[j], request) then [LatencyOf(tps[j], request)] else [])
  {
    assert tps[..j + 1][..j] == tps[..j];
  }

  /** One more request scanned adds the matches found before its break. */
  lemma ScannedJoinStep(tps: seq<TPSetData>, requests: seq<TPDataRequest>, i: nat)
    requires i < |requests|
    ensures ScannedJoin(tps, requests[..i + 1]) == ScannedJoin(tps, requests[..i]) + ScannedMatches(tps, requests[i])
  {
    assert requests[..i + 1][..i] == requests[..i];
  }

  lemma FirstAboveIs(tps: seq<TPSetData>, bound: int, j: nat)
    requires j <= |tps|
    requires forall k :: 0 <= k < j ==> tps[k].timeStart <= bound
    requires j == |tps| || tps[j].timeStart > bound
    ensures FirstAbove(tps, bound) == j
  {
  }

  /**
   * `GetTPLatencies`: for each request, scan the TPs from the start, record
   * every TP in the window and stop at the first TP past the window's end.
   */
  method GetTPLatencies(received: seq<TPSetData>, requests: seq<TPDataRequest>) returns (latencies: seq<TPLatency>)
    ensures latencies == ScannedJoin(received, requests)
    ensures SortedBy(received, TimeStartKey) ==> latencies == AllMatches(received, requests)
    ensures received == [] || requests == [] ==> latencies == []
  {
    latencies := [];
    var i := 0;
    while i < |requests|
      invariant 0 <= i <= |requests|
      invariant latencies == ScannedJoin(received, requests[..i])
    {
      var request := requests[i];
      ghost var before := latencies;
      var j := 0;
      while j < |received|
        invariant 0 <= j <= |received|
        invariant forall k :: 0 <= k < j ==> received[k].timeStart <= request.windowEnd
        invariant latencies == before + WindowMatches(received[..j], request)
      {
        var tp := received[j];
        WindowMatchesStep(received, j, request);
        if tp.timeStart >= request.windowBegin && tp.timeStart <= request.windowEnd {
          latencies := latencies + [LatencyOf(tp, request)];
          assert latencies == before + (WindowMatches(received[..j], request) + [LatencyOf(tp, request)]);
        } else if tp.timeStart > request.windowEnd {
          break;
        } else {
          assert WindowMatches(received[..j], request) + [] == WindowMatches(received[..j], request);
        }
        j := j + 1;
      }
      FirstAboveIs(received, request.windowEnd, j);
      ScannedJoinStep(received, requests, i);
      i := i + 1;
    }
    assert requests[..i] == requests;
    if SortedBy(received, TimeStartKey) {
      ScannedJoinOnSorted(received, requests);
    }
    if received == [] || requests == [] {
      EmptyInputs(received, requests);
    }
  }

  /**
   * `main`'s correlation: sort the requests by window begin and the TPs by
   * start time, then join. The script first prints the last element of each
   * list, which raises on an empty list: that is `None` here.
   */
  method SortAndCorrelate(received: seq<TPSetData>, requests: seq<TPDataRequest>) returns (latencies: Option<seq<TPLatency>>)
    ensures latencies.None? <==> received == [] || requests == []
    ensures latencies.Some? ==>
      latencies.value == AllMatches(SortByKey(received, TimeStartKey), SortByKey(requests, WindowBeginKey))
  {
    if |received| == 0 || |requests| == 0 {
      return None;
    }
    var sortedRequests := SortByKey(requests, WindowBeginKey);
    var sortedReceived := SortByKey(received, TimeStartKey);
    var joined := GetTPLatencies(sortedReceived, sortedRequests);
    return Some(joined);
  }

  // ------------------------------------------------------------ lemmas

  /** Within a request the records follow the TP order. */
  lemma {:induction false} WindowMatchesAppend(a: seq<TPSetData>, b: seq<TPSetData>, request: TPDataRequest)
    ensures WindowMatches(a + b, request) == WindowMatches(a, request) + WindowMatches(b, request)
    decreases |b|
  {
    if b == [] {
      assert a + b == a;
    } else {
      var b' := b[..|b| - 1];
      var last := b[|b| - 1];
      var tail := if InWindow(last, request) then [LatencyOf(last, request)] else [];
      assert (a + b)[..|a + b| - 1] == a + b';
      assert (a + b)[|a + b| - 1] == last;
      assert WindowMatches(a + b, request) == WindowMatches(a + b', request) + tail;
      assert WindowMatches(b, request) == WindowMatches(b', request) + tail;
      WindowMatchesAppend(a, b', request);
    }
  }

  /** The records are grouped by request, in request order. */
  lemma {:induction false} AllMatchesAppend(tps: seq<TPSetData>, r1: seq<TPDataRequest>, r2: seq<TPDataRequest>)
    ensures AllMatches(tps, r1 + r2) == AllMatches(tps, r1) + AllMatches(tps, r2)
    decreases |r2|
  {
    if r2 == [] {
      assert r1 + r2 == r1;
    } else {
      var r2' := r2[..|r2| - 1];
      var last := r2[|r2| - 1];
      InitOfAppend(r1, r2);
      assert AllMatches(tps, r1 + r2) == AllMatches(tps, r1 + r2') + WindowMatches(tps, last);
      assert AllMatches(tps, r2) == AllMatches(tps, r2') + WindowMatches(tps, last);
      AllMatchesAppend(tps, r1, r2');
      assert AllMatches(tps, r1 + r2) == (AllMatches(tps, r1) + AllMatches(tps, r2')) + WindowMatches(tps, last);
    }
  }

  /** Dropping the last element of `a + b` drops the last element of `b`. */
  lemma InitOfAppend<T>(a: seq<T>, b: seq<T>)
    requires b != []
    ensures (a + b)[..|a + b| - 1] == a + b[..|b| - 1]
    ensures (a + b)[|a + b| - 1] == b[|b| - 1]
  {
  }

  /** Every record of a request comes from a TP in its window and carries that pair's times. */
  lemma {:induction false} WindowMatchesSound(tps: seq<TPSetData>, request: TPDataRequest, m: nat) returns (k: nat)
    requires m < |WindowMatches(tps, request)|
    ensures k < |tps| && InWindow(tps[k], request)
    ensures WindowMatches(tps, request)[m].tpReceived == tps[k].realTime
    ensures WindowMatches(tps, request)[m].tpRequested == request.realTime
    ensures WindowMatches(tps, request)[m].latency == request.realTime - tps[k].realTime
  {
    var init := tps[..|tps| - 1];
    if m < |WindowMatches(init, request)| {
      k := WindowMatchesSound(init, request, m);
    } else {
      k := |tps| - 1;
    }
  }

  /** Every TP in the window of a request yields a record. */
  lemma {:induction false} WindowMatchesComplete(tps: seq<TPSetData>, request: TPDataRequest, k: nat)
    requires k < |tps| && InWindow(tps[k], request)
    ensures LatencyOf(tps[k], request) in WindowMatches(tps, request)
  {
    var init := tps[..|tps| - 1];
    if k < |init| {
      assert init[k] == tps[k];
      WindowMatchesComplete(init, request, k);
    }
  }

  /** One record per TP in the window: nothing is dropped and nothing is deduplicated. */
  lemma {:induction false} WindowMatchesCount(tps: seq<TPSetData>, request: TPDataRequest)
    ensures |WindowMatches(tps, request)| == |WindowIndices(tps, request)|
  {
    if tps != [] {
      var n := |tps| - 1;
      var init := tps[..n];
      WindowMatchesCount(init, request);
      var extra: set<nat> := if InWindow(tps[n], request) then {n} else {};
      assert WindowIndices(tps, request) == WindowIndices(init, request) + extra by {
        forall k: nat | k < n ensures init[k] == tps[k] { }
      }
      assert WindowIndices(init, request) * extra == {};
    }
  }

  /** Every record of the join comes from a request and a TP in its window. */
  lemma {:induction false} AllMatchesSound(tps: seq<TPSetData>, requests: seq<TPDataRequest>, m: nat) returns (i: nat, k: nat)
    requires m < |AllMatches(tps, requests)|
    ensures i < |requests| && k < |tps| && InWindow(tps[k], requests[i])
    ensures AllMatches(tps, requests)[m] == LatencyOf(tps[k], requests[i])
  {
    var init := requests[..|requests| - 1];
    if m < |AllMatches(tps, init)| {
      i, k := AllMatchesSound(tps, init, m);
    } else {
      i := |requests| - 1;
      k := WindowMatchesSound(tps, requests[i], m - |AllMatches(tps, init)|);
    }
  }

  /** Every (request, TP) pair in the window yields a record of the join. */
  lemma {:induction false} AllMatchesComplete(tps: seq<TPSetData>, requests: seq<TPDataRequest>, i: nat, k: nat)
    requires i < |requests| && k < |tps| && InWindow(tps[k], requests[i])
    ensures LatencyOf(tps[k], requests[i]) in AllMatches(tps, requests)
  {
    var init := requests[..|requests| - 1];
    if i < |init| {
      assert init[i] == requests[i];
      AllMatchesComplete(tps, init, i, k);
    } else {
      WindowMatchesComplete(tps, requests[i], k);
    }
  }

  /** The join has one record per (request, TP-in-window) pair. */
  lemma {:induction false} AllMatchesCount(tps: seq<TPSetData>, requests: seq<TPDataRequest>)
    ensures |AllMatches(tps, requests)| == TotalInWindows(tps, requests)
  {
    if requests != [] {
      AllMatchesCount(tps, requests[..|requests| - 1]);
      WindowMatchesCount(tps, requests[|requests| - 1]);
    }
  }

  /** An empty request list or an empty TP list gives no records. */
  lemma {:induction false} EmptyInputs(tps: seq<TPSetData>, requests: seq<TPDataRequest>)
    requires tps == [] || requests == []
    ensures AllMatches(tps, requests) == [] && ScannedJoin(tps, requests) == []
  {
    if requests != [] {
      EmptyInputs(tps, requests[..|requests| - 1]);
    }
  }

  lemma {:induction false} NoneInWindow(tps: seq<TPSetData>, request: TPDataRequest)
    requires forall k :: 0 <= k < |tps| ==> !InWindow(tps[k], request)
    ensures WindowMatches(tps, request) == []
  {
    if tps != [] {
      NoneInWindow(tps[..|tps| - 1], request);
    }
  }

  lemma {:induction false} AllInWindow(tps: seq<TPSetData>, request: TPDataRequest)
    requires forall k :: 0 <= k < |tps| ==> InWindow(tps[k], request)
    ensures WindowMatches(tps, request) == Records(tps, request)
  {
    if tps != [] {
      var init := tps[..|tps| - 1];
      AllInWindow(init, request);
      assert Records(tps, request) == Records(init, request) + [LatencyOf(tps[|tps| - 1], request)];
    }
  }

  /** The scan never reports more than the brute force: its records are a prefix of it. */
  lemma ScannedIsPrefix(tps: seq<TPSetData>, request: TPDataRequest)
    ensures ScannedMatches(tps, request) <= WindowMatches(tps, request)
  {
    var c := FirstAbove(tps, request.windowEnd);
    assert tps == tps[..c] + tps[c..];
    WindowMatchesAppend(tps[..c], tps[c..], request);
  }

  /** On TPs sorted by start time, the early break loses nothing for a request. */
  lemma ScannedMatchesOnSorted(tps: seq<TPSetData>, request: TPDataRequest)
    requires SortedBy(tps, TimeStartKey)
    ensures ScannedMatches(tps, request) == WindowMatches(tps, request)
  {
    var c := FirstAbove(tps, request.windowEnd);
    var head, tail := tps[..c], tps[c..];
    forall k | 0 <= k < |tail| ensures !InWindow(tail[k], request) {
      assert tail[k] == tps[c + k];
      SortedFirstAbove(tps, request.windowEnd, c + k);
    }
    assert tps == head + tail;
    WindowMatchesDropOut(head, tail, request);
  }

  /** TPs appended outside the window add no record. */
  lemma WindowMatchesDropOut(a: seq<TPSetData>, b: seq<TPSetData>, request: TPDataRequest)
    requires forall k :: 0 <= k < |b| ==> !InWindow(b[k], request)
    ensures WindowMatches(a + b, request) == WindowMatches(a, request)
  {
    WindowMatchesAppend(a, b, request);
    NoneInWindow(b, request);
    assert WindowMatches(a, request) + [] == WindowMatches(a, request);
  }

  /**
   * The central property: on TPs sorted by start time, the early-break scan
   * returns exactly the brute-force join over all pairs, in the same order,
   * whatever the order of the requests.
   */
  lemma {:induction false} ScannedJoinOnSorted(tps: seq<TPSetData>, requests: seq<TPDataRequest>)
    requires SortedBy(tps, TimeStartKey)
    ensures ScannedJoin(tps, requests) == AllMatches(tps, requests)
  {
    if requests != [] {
      ScannedJoinOnSorted(tps, requests[..|requests| - 1]);
      ScannedMatchesOnSorted(tps, requests[|requests| - 1]);
    }
  }

  /** Without the sort the early break under-matches: a TP after a later one is lost. */
  lemma UnsortedInputUnderMatches()
    ensures var tps := [TPSetData(300, 0, 10), TPSetData(150, 0, 20)];
            var requests := [TPDataRequest(100, 200, 50)];
            ScannedJoin(tps, requests) == [] && AllMatches(tps, requests) == [TPLatency(20, 50, 30)]
  {
    var tps := [TPSetData(300, 0, 10), TPSetData(150, 0, 20)];
    var requests := [TPDataRequest(100, 200, 50)];
    assert FirstAbove(tps, 200) == 0;
    assert tps[..1] == [tps[0]];
    assert requests[..0] == [];
  }

  /** On sorted TPs, the TPs before the break are exactly those not past `bound`. */
  lemma SortedFirstAbove(tps: seq<TPSetData>, bound: int, k: nat)
    requires SortedBy(tps, TimeStartKey) && k < |tps|
    ensures k < FirstAbove(tps, bound) <==> tps[k].timeStart <= bound
  {
    var c := FirstAbove(tps, bound);
    if k >= c {
      assert TimeStartKey(tps[c]) <= TimeStartKey(tps[k]);
    }
  }

  /** When the TPs in the window are exactly `tps[lo..hi]`, the records are those of the run. */
  lemma WindowMatchesOfRun(tps: seq<TPSetData>, request: TPDataRequest, lo: nat, hi: nat)
    requires lo <= hi <= |tps|
    requires forall k :: 0 <= k < |tps| ==> (InWindow(tps[k], request) <==> lo <= k < hi)
    ensures WindowMatches(tps, request) == Records(tps[lo..hi], request)
  {
    var before, run, after := tps[..lo], tps[lo..hi], tps[hi..];
    forall k | 0 <= k < |after| ensures !InWindow(after[k], request) {
      assert after[k] == tps[hi + k];
    }
    assert tps == (before + run) + after;
    WindowMatchesDropOut(before + run, after, request);
    forall k | 0 <= k < |before| ensures !InWindow(before[k], request) {
      assert before[k] == tps[k];
    }
    NoneInWindow(before, request);
    forall k | 0 <= k < |run| ensures InWindow(run[k], request) {
      assert run[k] == tps[lo + k];
    }
    AllInWindow(run, request);
    WindowMatchesAppend(before, run, request);
    assert [] + Records(run, request) == Records(run, request);
  }

  /**
   * On sorted TPs the TPs of one window form a contiguous run `tps[lo..hi]`,
   * and the request's records are exactly those of that run, in order.
   */
  lemma SortedWindowIsContiguous(tps: seq<TPSetData>, request: TPDataRequest) returns (lo: nat, hi: nat)
    requires SortedBy(tps, TimeStartKey)
    ensures lo <= hi <= |tps|
    ensures forall k :: 0 <= k < |tps| ==> (InWindow(tps[k], request) <==> lo <= k < hi)
    ensures WindowMatches(tps, request) == Records(tps[lo..hi], request)
  {
    hi := FirstAbove(tps, request.windowEnd);
    lo := if request.windowBegin <= request.windowEnd then FirstAbove(tps, request.windowBegin - 1) else hi;
    forall k | 0 <= k < |tps| ensures InWindow(tps[k], request) <==> lo <= k < hi {
      SortedFirstAbove(tps, request.windowEnd, k);
      SortedFirstAbove(tps, request.windowBegin - 1, k);
    }
    WindowMatchesOfRun(tps, request, lo, hi);
  }

  /** Scenario: TPs at 50, 150 and 300 against the window [100, 200] match only the TP at 150. */
  lemma WindowScenario()
    ensures var tps := [TPSetData(50, 0, 900), TPSetData(150, 0, 1000), TPSetData(300, 0, 1100)];
            ScannedJoin(tps, [TPDataRequest(100, 200, 5000)]) == [TPLatency(1000, 5000, 4000)]
  {
    var tps := [TPSetData(50, 0, 900), TPSetData(150, 0, 1000), TPSetData(300, 0, 1100)];
    var request := TPDataRequest(100, 200, 5000);
    assert FirstAbove(tps, 200) == 2;
    assert tps[..2][..1] == [tps[0]] && [tps[0]][..0] == [];
    assert WindowMatches([tps[0]], request) == [];
    assert WindowMatches(tps[..2], request) == [TPLatency(1000, 5000, 4000)];
    assert [request][..0] == [];
    assert ScannedJoin(tps, [request]) == ScannedJoin(tps, []) + ScannedMatches(tps, request);
  }

  // ------------------------------------------------------------ log lines

  /**
   * `GetNumberFromLine(line, text)`: from the first occurrence of `text`, remove
   * every `text + " "`, take the piece before the first space and parse it;
   * `None` where `int()` raises.
   */
  function GetNumberFromLine(line: string, text: string): (r: Option<int>)
    requires Contains(line, text)
    ensures exists p: nat :: OccursAt(line, p, text) && NoneBefore(line, p, text) &&
                             r == NumberAfterDescriptor(line[p..], text)
  {
    var location := Find(line, text);
    NumberAfterDescriptor(line[location..], text)
  }

  /** The steps after the slice: remove every `text + " "`, split on spaces, parse the first piece. */
  function NumberAfterDescriptor(ret: string, text: string): Option<int> {
    var pieces := Split(RemoveAll(ret, text + " "));
    ParseInt(pieces[0])
  }

  /** `text` first occurs right after `prefix`. */
  lemma FindAfterPrefix(line: string, prefix: string, text: string)
    requires |prefix| + |text| <= |line| && line[..|prefix| + |text|] == prefix + text
    requires NoneBefore(prefix + text, |prefix|, text)
    ensures Contains(line, text)
    ensures Find(line, text) == |prefix|
  {
    var p := |prefix|;
    assert line[p..p + |text|] == (prefix + text)[p..];
    assert OccursAt(line, p, text);
    forall i: nat | i < p ensures !OccursAt(line, i, text) {
      var w := line[..p + |text|];
      assert !OccursAt(w, i, text);
      assert w[i..i + |text|] == line[i..i + |text|];
    }
  }

  lemma LineParts(prefix: string, text: string, digits: string, rest: string)
    ensures |prefix| + |text| <= |prefix + text + " " + digits + rest|
    ensures (prefix + text + " " + digits + rest)[..|prefix| + |text|] == prefix + text
    ensures (prefix + text + " " + digits + rest)[|prefix|..] == text + " " + digits + rest
  {
    var line := prefix + text + " " + digits + rest;
    assert line == prefix + (text + " " + digits + rest);
    assert line == (prefix + text) + (" " + digits + rest);
  }

  lemma GetNumberFromLineAt(line: string, text: string, p: nat, suffix: string)
    requires Contains(line, text) && Find(line, text) == p
    requires p <= |line| && line[p..] == suffix
    ensures GetNumberFromLine(line, text) == NumberAfterDescriptor(suffix, text)
  {
  }

  /** After the number, what is left of the line starts a new piece, or is the line's newline. */
  lemma FirstPieceAfterNumber(rest: string, pat: string)
    requires |pat| > 1 && pat[0] != ' '
    requires rest == "" || rest == "\n" || rest[0] == ' '
    ensures Split(RemoveAll(rest, pat))[0] == [] || Split(RemoveAll(rest, pat))[0] == "\n"
  {
    var y := RemoveAll(rest, pat);
    if rest == [] {
      assert y == [];
    } else if rest == "\n" {
      assert y == rest;
      assert y[0] != ' ' && y[1..] == [] && Split(y[1..]) == [[]];
    } else {
      RemoveAllKeepsLeadingSpace(rest, pat);
      assert Split(y) == [[]] + Split(y[1..]);
    }
  }

  /** What follows the descriptor: the first piece after the removal is the digit string. */
  lemma ReadAfterDescriptor(text: string, digits: string, rest: string)
    requires |text| > 0 && !IsDigit(text[0]) && text[0] != ' '
    requires |digits| > 0 && AllDigits(digits)
    requires rest == "" || rest == "\n" || rest[0] == ' '
    ensures NumberAfterDescriptor(text + " " + digits + rest, text) == Some(DigitsValue(digits))
  {
    var pat := text + " ";
    var x := digits + rest;
    var s := text + " " + digits + rest;
    assert s == pat + x;
    RemoveAllLeading(pat, x);
    RemoveAllSkipsDigits(digits, rest, pat);
    var y := RemoveAll(rest, pat);
    assert RemoveAll(s, pat) == digits + y;
    assert NoSpace(digits);
    SplitAfterWord(digits, y);
    FirstPieceAfterNumber(rest, pat);
    var p0 := Split(y)[0];
    assert Split(RemoveAll(s, pat))[0] == digits + p0;
    ParseIntOfDigits(digits);
    if p0 == [] {
      assert digits + p0 == digits;
    }
  }

  /**
   * On `prefix + text + " " + digits + rest`, where `text` first occurs right
   * after `prefix`, the number after the descriptor is read, whatever precedes
   * the descriptor and whatever later occurrences of it follow. The descriptor
   * must start with a character that is neither a digit nor a space.
   */
  lemma GetNumberFromLineReadsNumber(prefix: string, text: string, digits: string, rest: string)
    requires |text| > 0 && !IsDigit(text[0]) && text[0] != ' '
    requires NoneBefore(prefix + text, |prefix|, text)
    requires |digits| > 0 && AllDigits(digits)
    requires rest == "" || rest == "\n" || rest[0] == ' '
    ensures Contains(prefix + text + " " + digits + rest, text)
    ensures GetNumberFromLine(prefix + text + " " + digits + rest, text) == Some(DigitsValue(digits))
  {
    var line := prefix + text + " " + digits + rest;
    var suffix := text + " " + digits + rest;
    LineParts(prefix, text, digits, rest);
    FindAfterPrefix(line, prefix, text);
    ReadAfterDescriptor(text, digits, rest);
    GetNumberFromLineAt(line, text, |prefix|, suffix);
  }

  /** The docstring's example: `"version_number: 5"` with `"version_number:"` gives 5. */
  lemma DocstringExample()
    ensures Contains("version_number: 5", "version_number:")
    ensures GetNumberFromLine("version_number: 5", "version_number:") == Some(5)
  {
    var text, digits := "version_number:", "5";
    assert "version_number: 5" == [] + text + " " + digits + [];
    assert NoneBefore([] + text, 0, text);
    GetNumberFromLineReadsNumber([], text, digits, []);
    assert DigitsValue(digits) == 5 by {
      assert digits[..0] == [];
    }
  }

  /**
   * Why the descriptor must not start with a digit: every `"5 "` is removed,
   * including the number itself, so `"5 5 7"` with descriptor `"5"` reads 7.
   */
  lemma DigitDescriptorMisreads()
    ensures Contains("5 5 7", "5")
    ensures GetNumberFromLine("5 5 7", "5") == Some(7)
  {
    var line, text, pat, seven := "5 5 7", "5", "5 ", "7";
    assert Contains(line, text) && Find(line, text) == 0 by {
      assert line[..1] == [] + text;
      FindAfterPrefix(line, [], text);
    }
    assert RemoveAll(line, pat) == seven by {
      assert line == pat + (pat + seven);
      RemoveAllLeading(pat, pat + seven);
      RemoveAllLeading(pat, seven);
    }
    assert NumberAfterDescriptor(line, text) == Some(7) by {
      SplitJoinSpaces([seven]);
      ParseIntOfDigits(seven);
      assert seven[..0] == [];
    }
    assert line[0..] == line;
    GetNumberFromLineAt(line, text, 0, line);
  }
}
