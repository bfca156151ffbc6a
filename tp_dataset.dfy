/**
 * `dune/generate_tp_dataset.py`: a dataset of trigger primitives for offline
 * replay. The rows of the input are ordered by start time (when they are not
 * already), the first `n` are taken, their start and peak times are made
 * relative to the first start time, and every row within the requested number
 * of seconds is written as one line of eight integers.
 */
module TPDataset {
  import opened Wrappers
  import opened Sorting
  import opened Text

  /** One input row: the eight columns in input order (column 6 is the type, column 7 the detector id). */
  datatype TPRow = TPRow(start: int, overThreshold: int, peak: int, channel: int,
                         adcSum: int, adcPeak: int, tpType: int, detId: int)

  /** One start-time tick is 16 ns. */
  const TickNanoseconds := 16
  const NanosecondsPerSecond := 1_000_000_000

  function StartKey(row: TPRow): int { row.start }

  /** The start-time column `data[:, 0]`. */
  function Starts(rows: seq<TPRow>): seq<int> {
    seq(|rows|, i requires 0 <= i < |rows| => rows[i].start)
  }

  /** What `check_time_ordering` compares the element at `i` with: the previous element, or 0 for the first. */
  function Previous(list: seq<int>, i: nat): int
    requires i < |list|
  {
    if i == 0 then 0 else list[i - 1]
  }

  /** No element is below the one before it, the first being compared with 0. */
  predicate TimeOrdered(list: seq<int>) {
    forall i :: 0 <= i < |list| ==> Previous(list, i) <= list[i]
  }

  /** `check_time_ordering`: the loop visits every element and never exits early. */
  method CheckTimeOrdering(list: seq<int>) returns (ordered: bool)
    ensures ordered <==> TimeOrdered(list)
  {
    ordered := true;
    var previous := 0;
    var i := 0;
    while i < |list|
      invariant 0 <= i <= |list|
      invariant previous == if i == 0 then 0 else list[i - 1]
      invariant ordered <==> TimeOrdered(list[..i])
    {
      var startTime := list[i];
      assert forall k :: 0 <= k < i ==> Previous(list[..i + 1], k) == Previous(list[..i], k);
      if startTime < previous {
        ordered := false;
      }
      previous := startTime;
      i := i + 1;
    }
    assert list[..i] == list;
  }

  lemma {:induction false} TimeOrderedChain(list: seq<int>, i: nat, j: nat)
    requires TimeOrdered(list)
    requires i <= j < |list|
    ensures list[i] <= list[j]
    decreases j - i
  {
    if i < j {
      TimeOrderedChain(list, i, j - 1);
      assert Previous(list, j) <= list[j];
    }
  }

  /** Passing the check means: non-negative and non-decreasing. */
  lemma TimeOrderedIsSortedFromZero(list: seq<int>)
    ensures TimeOrdered(list) <==>
      (forall i :: 0 <= i < |list| ==> 0 <= list[i]) &&
      (forall i, j :: 0 <= i < j < |list| ==> list[i] <= list[j])
  {
    if TimeOrdered(list) {
      forall i, j | 0 <= i < j < |list| ensures list[i] <= list[j] {
        TimeOrderedChain(list, i, j);
      }
      forall i | 0 <= i < |list| ensures 0 <= list[i] {
        assert Previous(list, 0) <= list[0];
        TimeOrderedChain(list, 0, i);
      }
    }
  }

  /**
   * `read_data_file` on the parsed rows: sorted by start time only when the
   * check fails; the transpose that follows does not change the rows.
   */
  method ReadDataFile(rows: seq<TPRow>) returns (data: seq<TPRow>)
    ensures SortedBy(data, StartKey)
    ensures multiset(data) == multiset(rows)
    ensures TimeOrdered(Starts(rows)) ==> data == rows
  {
    var ordered := CheckTimeOrdering(Starts(rows));
    if !ordered {
      data := SortByKey(rows, StartKey);
    } else {
      TimeOrderedIsSortedFromZero(Starts(rows));
      data := rows;
      forall i, j | 0 <= i < j < |rows| ensures StartKey(rows[i]) <= StartKey(rows[j]) {
        assert Starts(rows)[i] <= Starts(rows)[j];
      }
    }
  }

  /** The row-count clamp of the top level: a request for more rows than there are falls back to all of them. */
  function ClampCount(requested: int, available: nat): (n: int)
    ensures n <= available
    ensures n == requested || (n == available && available < requested)
  {
    if available < requested then available else requested
  }

  /** Python's `s[:n]`: a negative `n` counts from the end. */
  function PrefixTo<T>(s: seq<T>, n: int): (r: seq<T>)
    ensures r <= s
  {
    if n >= 0 then (if n <= |s| then s[..n] else s)
    else if |s| + n >= 0 then s[..|s| + n] else []
  }

  /** Start and peak made relative to `shift`; the other columns pass through. */
  function ShiftRow(row: TPRow, shift: int): TPRow {
    row.(start := row.start - shift, peak := row.peak - shift)
  }

  /**
   * Every row shifted by the same amount: adding `shift` back gives the rows
   * again, the other columns are untouched, and the order by start is kept.
   */
  function ShiftTimes(rows: seq<TPRow>, shift: int): (r: seq<TPRow>)
    ensures |r| == |rows|
    ensures forall i :: 0 <= i < |r| ==>
              r[i].(start := r[i].start + shift, peak := r[i].peak + shift) == rows[i]
    ensures SortedBy(r, StartKey) <==> SortedBy(rows, StartKey)
  {
    var r := seq(|rows|, i requires 0 <= i < |rows| => ShiftRow(rows[i], shift));
    assert forall i :: 0 <= i < |r| ==> StartKey(r[i]) == StartKey(rows[i]) - shift;
    r
  }

  /** `start * 16e-9 < num_seconds`, stated exactly on integers. */
  predicate WithinSeconds(row: TPRow, numSeconds: int) {
    TickNanoseconds * row.start < numSeconds * NanosecondsPerSecond
  }

  /** The rows that are written, in order. */
  function Kept(rows: seq<TPRow>, numSeconds: int): seq<TPRow> {
    if rows == [] then []
    else
      var last := rows[|rows| - 1];
      Kept(rows[..|rows| - 1], numSeconds) + (if WithinSeconds(last, numSeconds) then [last] else [])
  }

  /** The eight output fields; `det_id` is written before `type`. */
  function OutputFields(row: TPRow): seq<int> {
    [row.start, row.overThreshold, row.peak, row.channel, row.adcSum, row.adcPeak, row.detId, row.tpType]
  }

  function ToStrings(xs: seq<int>): (r: seq<string>)
    ensures |r| == |xs|
  {
    seq(|xs|, i requires 0 <= i < |xs| => IntToString(xs[i]))
  }

  /** One output line: the fields separated by single spaces, then a newline, and no other newline. */
  function FormatRow(row: TPRow): (line: string)
    ensures |line| > 0 && line[|line| - 1] == '\n'
    ensures forall i :: 0 <= i < |line| - 1 ==> line[i] != '\n'
  {
    var fields := ToStrings(OutputFields(row));
    JoinSpacesOneLine(fields);
    var j := JoinSpaces(fields);
    assert forall i :: 0 <= i < |j| ==> (j + "\n")[i] == j[i];
    j + "\n"
  }

  function FormatAll(rows: seq<TPRow>): (r: seq<string>)
    ensures |r| == |rows|
  {
    if rows == [] then [] else FormatAll(rows[..|rows| - 1]) + [FormatRow(rows[|rows| - 1])]
  }

  /**
   * What `construct_dataset` writes, one string per line: `None` when no row
   * is considered, where `start_time[0]` raises.
   */
  function DatasetLines(data: seq<TPRow>, n: int, numSeconds: int): Option<seq<string>> {
    var considered := PrefixTo(data, n);
    if considered == [] then None
    else Some(FormatAll(Kept(ShiftTimes(considered, considered[0].start), numSeconds)))
  }

  /** `construct_dataset`: the output file is the concatenation of the returned lines. */
  method ConstructDataset(data: seq<TPRow>, n: int, numSeconds: int) returns (lines: Option<seq<string>>)
    ensures lines == DatasetLines(data, n, numSeconds)
  {
    var considered := PrefixTo(data, n);
    if |considered| == 0 {
      return None;
    }
    var timeShift := considered[0].start;
    var shifted := ShiftTimes(considered, timeShift);
    assert DatasetLines(data, n, numSeconds) == Some(FormatAll(Kept(shifted, numSeconds)));
    var written: seq<string> := [];
    var i := 0;
    while i < |shifted|
      invariant 0 <= i <= |shifted|
      invariant written == FormatAll(Kept(shifted[..i], numSeconds))
    {
      WrittenStep(shifted, numSeconds, i);
      var st := shifted[i].start;
      if TickNanoseconds * st < numSeconds * NanosecondsPerSecond {
        written := written + [FormatRow(shifted[i])];
      }
      i := i + 1;
    }
    assert shifted[..i] == shifted;
    return Some(written);
  }

  lemma WrittenStep(rows: seq<TPRow>, numSeconds: int, i: nat)
    requires i < |rows|
    ensures FormatAll(Kept(rows[..i + 1], numSeconds)) ==
            FormatAll(Kept(rows[..i], numSeconds)) + (if WithinSeconds(rows[i], numSeconds) then [FormatRow(rows[i])] else [])
  {
    assert rows[..i + 1][..i] == rows[..i];
    var k := Kept(rows[..i], numSeconds);
    if WithinSeconds(rows[i], numSeconds) {
      assert (k + [rows[i]])[..|k|] == k;
    } else {
      assert Kept(rows[..i + 1], numSeconds) == k;
    }
  }

  /** The script's top level: read, clamp the row count, construct. */
  method PrepareDataset(rows: seq<TPRow>, requested: int, numSeconds: int)
    returns (data: seq<TPRow>, n: int, lines: Option<seq<string>>)
    ensures SortedBy(data, StartKey) && multiset(data) == multiset(rows)
    ensures TimeOrdered(Starts(rows)) ==> data == rows
    ensures n == ClampCount(requested, |rows|)
    ensures lines == DatasetLines(data, n, numSeconds)
  {
    data := ReadDataFile(rows);
    assert |multiset(data)| == |multiset(rows)|;
    n := ClampCount(requested, |data|);
    lines := ConstructDataset(data, n, numSeconds);
  }

  // ------------------------------------------------------------ lemmas

  /** With a non-negative request, exactly the first `min(requested, rows)` rows are considered. */
  lemma ConsideredRows(rows: seq<TPRow>, requested: nat)
    ensures var n := ClampCount(requested, |rows|);
            n >= 0 && PrefixTo(rows, n) == rows[..if requested < |rows| then requested else |rows|]
  {
  }

  /** The first considered row gets relative start 0; on sorted rows no relative start is negative. */
  lemma ShiftedTimes(rows: seq<TPRow>)
    requires |rows| > 0
    ensures var r := ShiftTimes(rows, rows[0].start);
            r[0].start == 0 &&
            (forall i :: 0 <= i < |r| ==>
               r[i].start == rows[i].start - rows[0].start && r[i].peak == rows[i].peak - rows[0].start &&
               r[i].overThreshold == rows[i].overThreshold && r[i].channel == rows[i].channel &&
               r[i].adcSum == rows[i].adcSum && r[i].adcPeak == rows[i].adcPeak &&
               r[i].tpType == rows[i].tpType && r[i].detId == rows[i].detId) &&
            (SortedBy(rows, StartKey) ==> SortedBy(r, StartKey) && forall i :: 0 <= i < |r| ==> r[i].start >= 0)
  {
    var r := ShiftTimes(rows, rows[0].start);
    if SortedBy(rows, StartKey) {
      forall i | 0 <= i < |r| ensures r[i].start >= 0 {
        assert StartKey(rows[0]) <= StartKey(rows[i]);
      }
      forall i, j | 0 <= i < j < |r| ensures StartKey(r[i]) <= StartKey(r[j]) {
        assert StartKey(rows[i]) <= StartKey(rows[j]);
      }
    }
  }

  /** Every written row is within the time budget and is one of the rows. */
  lemma {:induction false} KeptSound(rows: seq<TPRow>, numSeconds: int, m: nat) returns (i: nat)
    requires m < |Kept(rows, numSeconds)|
    ensures i < |rows| && Kept(rows, numSeconds)[m] == rows[i] && WithinSeconds(rows[i], numSeconds)
  {
    var init := rows[..|rows| - 1];
    if m < |Kept(init, numSeconds)| {
      i := KeptSound(init, numSeconds, m);
    } else {
      i := |rows| - 1;
    }
  }

  /** Every row within the time budget is written. */
  lemma {:induction false} KeptComplete(rows: seq<TPRow>, numSeconds: int, i: nat)
    requires i < |rows| && WithinSeconds(rows[i], numSeconds)
    ensures rows[i] in Kept(rows, numSeconds)
  {
    var init := rows[..|rows| - 1];
    if i < |init| {
      assert init[i] == rows[i];
      KeptComplete(init, numSeconds, i);
    }
  }

  lemma {:induction false} KeptAll(rows: seq<TPRow>, numSeconds: int)
    requires forall i :: 0 <= i < |rows| ==> WithinSeconds(rows[i], numSeconds)
    ensures Kept(rows, numSeconds) == rows
  {
    if rows != [] {
      KeptAll(rows[..|rows| - 1], numSeconds);
    }
  }

  /** On rows sorted by start time, the written rows are a prefix of them. */
  lemma {:induction false} KeptIsPrefixWhenSorted(rows: seq<TPRow>, numSeconds: int) returns (p: nat)
    requires SortedBy(rows, StartKey)
    ensures p <= |rows| && Kept(rows, numSeconds) == rows[..p]
    ensures forall i :: 0 <= i < |rows| ==> (WithinSeconds(rows[i], numSeconds) <==> i < p)
  {
    if rows == [] {
      p := 0;
    } else {
      var n := |rows| - 1;
      var init := rows[..n];
      if WithinSeconds(rows[n], numSeconds) {
        forall i | 0 <= i < |rows| ensures WithinSeconds(rows[i], numSeconds) {
          assert StartKey(rows[i]) <= StartKey(rows[n]);
        }
        KeptAll(rows, numSeconds);
        p := |rows|;
      } else {
        assert SortedBy(init, StartKey) by {
          forall i, j | 0 <= i < j < |init| ensures StartKey(init[i]) <= StartKey(init[j]) {
            assert init[i] == rows[i] && init[j] == rows[j];
          }
        }
        p := KeptIsPrefixWhenSorted(init, numSeconds);
        assert init[..p] == rows[..p];
        forall i | 0 <= i < |rows| ensures WithinSeconds(rows[i], numSeconds) <==> i < p {
          if i < n {
            assert init[i] == rows[i];
          }
        }
      }
    }
  }

  /** On sorted data the written rows are the first `p` considered rows, shifted by the first start. */
  lemma WrittenPrefix(data: seq<TPRow>, n: int, numSeconds: int) returns (p: nat)
    requires SortedBy(data, StartKey)
    requires DatasetLines(data, n, numSeconds).Some?
    ensures p <= |PrefixTo(data, n)|
    ensures DatasetLines(data, n, numSeconds).value == FormatAll(ShiftTimes(data[..p], data[0].start))
  {
    var considered := PrefixTo(data, n);
    var shifted := ShiftTimes(considered, considered[0].start);
    ShiftedTimes(considered);
    assert SortedBy(considered, StartKey) by {
      forall i, j | 0 <= i < j < |considered| ensures StartKey(considered[i]) <= StartKey(considered[j]) {
        assert considered[i] == data[i] && considered[j] == data[j];
      }
    }
    p := KeptIsPrefixWhenSorted(shifted, numSeconds);
    assert shifted[..p] == ShiftTimes(data[..p], data[0].start);
  }

  /** A written line is the output fields, joined by single spaces, then a newline; each field reads back. */
  lemma FormatRowFields(row: TPRow)
    ensures var line := FormatRow(row);
            var pieces := Split(line[..|line| - 1]);
            |pieces| == 8 && forall m :: 0 <= m < 8 ==> ParseInt(pieces[m]) == Some(OutputFields(row)[m])
  {
    var fields := OutputFields(row);
    var strs := ToStrings(fields);
    var line := FormatRow(row);
    assert line[..|line| - 1] == JoinSpaces(strs);
    SplitJoinSpaces(strs);
    forall m | 0 <= m < 8 ensures ParseInt(strs[m]) == Some(fields[m]) {
      IntToStringRoundTrip(fields[m]);
    }
  }

  /**
   * A written line holds exactly eight space-separated integers and a newline:
   * start, time over threshold, peak, channel, ADC sum, ADC peak, detector id
   * and type, which read back to the row's values.
   */
  lemma FormatRowReadsBack(row: TPRow)
    ensures var line := FormatRow(row);
            |line| > 0 && line[|line| - 1] == '\n' &&
            var pieces := Split(line[..|line| - 1]);
            |pieces| == 8 &&
            ParseInt(pieces[0]) == Some(row.start) && ParseInt(pieces[1]) == Some(row.overThreshold) &&
            ParseInt(pieces[2]) == Some(row.peak) && ParseInt(pieces[3]) == Some(row.channel) &&
            ParseInt(pieces[4]) == Some(row.adcSum) && ParseInt(pieces[5]) == Some(row.adcPeak) &&
            ParseInt(pieces[6]) == Some(row.detId) && ParseInt(pieces[7]) == Some(row.tpType)
  {
    FormatRowFields(row);
    var line := FormatRow(row);
    var pieces, f := Split(line[..|line| - 1]), OutputFields(row);
    assert ParseInt(pieces[0]) == Some(f[0]) && ParseInt(pieces[1]) == Some(f[1]);
    assert ParseInt(pieces[2]) == Some(f[2]) && ParseInt(pieces[3]) == Some(f[3]);
    assert ParseInt(pieces[4]) == Some(f[4]) && ParseInt(pieces[5]) == Some(f[5]);
    assert ParseInt(pieces[6]) == Some(f[6]) && ParseInt(pieces[7]) == Some(f[7]);
  }
}
