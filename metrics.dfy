/**
 * The metrics step: the merged file read back with its count columns coerced
 * to numbers, and `compute_metrics`' counts, rates and conditional means
 * over it. Rates and means are exact reals; an undefined one (a division by
 * zero or the mean of nothing, NaN in pandas) is None.
 */
module Metrics {
  import opened Wrappers
  import opened Stats

  // ---------------------------------------------------------------------
  // Reading the merged file back (lines 24-26)
  // ---------------------------------------------------------------------

  /** A count cell as read from the file: empty, a number, or text `to_numeric` cannot parse. */
  datatype Loaded = Missing | Numeric(value: real) | NonNumeric

  /** A row of the merged file as far as the metrics look at it; `churned` is empty or a number. */
  datatype LoadedRow = LoadedRow(churned: Option<real>, eventCount: Loaded, ticketCount: Loaded)

  /** A row after the load-time coercions. */
  datatype MetricRow = MetricRow(churned: int, eventCount: real, ticketCount: real)

  /** `astype(int)` on a number: the integer part, rounding toward zero. */
  function Truncate(x: real): (r: int)
    ensures x >= 0.0 ==> 0 <= r && r as real <= x < r as real + 1.0
    ensures x < 0.0 ==> r <= 0 && r as real - 1.0 < x <= r as real
  {
    if x >= 0.0 then x.Floor else -((-x).Floor)
  }

  /** A whole number survives the truncation unchanged. */
  lemma TruncateWhole(n: int)
    ensures Truncate(n as real) == n
  {
  }

  /** `pd.to_numeric(..., errors="coerce").fillna(0)` on one cell: text that is not a number and an empty cell both become 0. */
  function NumericOrZero(cell: Loaded): (r: real)
    ensures cell.Numeric? ==> r == cell.value
    ensures !cell.Numeric? ==> r == 0.0
  {
    match cell
    case Numeric(x) => x
    case _ => 0.0
  }

  /** Lines 24-26 on one row: `churned` read as 0 when empty and truncated otherwise, the counts coerced. */
  function NormaliseRow(row: LoadedRow): (r: MetricRow)
    ensures row.churned.None? ==> r.churned == 0
    ensures row.churned.Some? && row.churned.value == row.churned.value.Floor as real ==> r.churned == row.churned.value.Floor
    ensures r.eventCount == NumericOrZero(row.eventCount)
    ensures r.ticketCount == NumericOrZero(row.ticketCount)
  {
    MetricRow(Truncate(row.churned.GetOr(0.0)), NumericOrZero(row.eventCount), NumericOrZero(row.ticketCount))
  }

  function NormaliseRows(rows: seq<LoadedRow>): (r: seq<MetricRow>)
    ensures |r| == |rows|
    ensures forall i :: 0 <= i < |rows| ==> r[i] == NormaliseRow(rows[i])
  {
    seq(|rows|, i requires 0 <= i < |rows| => NormaliseRow(rows[i]))
  }

  // ---------------------------------------------------------------------
  // The columns and subsets compute_metrics reduces
  // ---------------------------------------------------------------------

  /** `df["churned"].sum()`. */
  function ChurnedSum(rows: seq<MetricRow>): int {
    if rows == [] then 0 else rows[0].churned + ChurnedSum(rows[1..])
  }

  /** `(df["event_count"] > 0).sum()`. */
  function ActiveCount(rows: seq<MetricRow>): nat {
    if rows == [] then 0 else (if rows[0].eventCount > 0.0 then 1 else 0) + ActiveCount(rows[1..])
  }

  /** `df.loc[df["event_count"] > 0, "event_count"]`. */
  function ActiveEvents(rows: seq<MetricRow>): seq<real> {
    if rows == [] then []
    else (if rows[0].eventCount > 0.0 then [rows[0].eventCount] else []) + ActiveEvents(rows[1..])
  }

  /** `df.loc[df["churned"] == flag, "event_count"]`. */
  function EventCountsWhere(rows: seq<MetricRow>, flag: int): seq<real> {
    if rows == [] then []
    else (if rows[0].churned == flag then [rows[0].eventCount] else []) + EventCountsWhere(rows[1..], flag)
  }

  /** `df["ticket_count"]`. */
  function TicketCounts(rows: seq<MetricRow>): seq<real> {
    if rows == [] then [] else [rows[0].ticketCount] + TicketCounts(rows[1..])
  }

  /** `df.loc[df["churned"] == flag, "ticket_count"]`. */
  function TicketCountsWhere(rows: seq<MetricRow>, flag: int): seq<real> {
    if rows == [] then []
    else (if rows[0].churned == flag then [rows[0].ticketCount] else []) + TicketCountsWhere(rows[1..], flag)
  }

  /** `x / n * 100`, undefined for an empty frame. */
  function Percent(x: int, n: nat): (r: Option<real>)
    ensures r.None? <==> n == 0
  {
    if n == 0 then None else Some(x as real / n as real * 100.0)
  }

  /** A percentage of `n` times `n` is a hundred times the count. */
  lemma PercentTimesCount(x: int, n: nat)
    requires n > 0
    ensures Percent(x, n).value * (n as real) == 100.0 * (x as real)
  {
  }

  // ---------------------------------------------------------------------
  // compute_metrics (lines 104-129)
  // ---------------------------------------------------------------------

  datatype Metrics = Metrics(
    n: nat,
    churned: int,
    churnRatePct: Option<real>,
    engagementRatePct: Option<real>,
    withActivity: nat,
    meanEventsActive: Option<real>,
    meanEventsChurned: Option<real>,
    meanEventsRetained: Option<real>,
    meanTickets: Option<real>,
    meanTicketsChurned: Option<real>,
    meanTicketsRetained: Option<real>)

  function ComputeMetrics(rows: seq<MetricRow>): Metrics {
    var n := |rows|;
    var churned := ChurnedSum(rows);
    var withActivity := ActiveCount(rows);
    Metrics(
      n, churned, Percent(churned, n), Percent(withActivity, n), withActivity,
      Mean(ActiveEvents(rows)),
      Mean(EventCountsWhere(rows, 1)), Mean(EventCountsWhere(rows, 0)),
      Mean(TicketCounts(rows)),
      Mean(TicketCountsWhere(rows, 1)), Mean(TicketCountsWhere(rows, 0)))
  }

  // ---------------------------------------------------------------------
  // What the metrics satisfy
  // ---------------------------------------------------------------------

  /** Every row's `churned` is 0 or 1 (what `clean_account` writes). */
  ghost predicate Flags(rows: seq<MetricRow>) {
    forall i :: 0 <= i < |rows| ==> rows[i].churned == 0 || rows[i].churned == 1
  }

  /** The churned rows are counted by `ChurnedSum`, the others are the retained ones. */
  lemma {:induction false} ChurnedCounts(rows: seq<MetricRow>)
    requires Flags(rows)
    ensures ChurnedSum(rows) == |EventCountsWhere(rows, 1)| == |TicketCountsWhere(rows, 1)|
    ensures |rows| - ChurnedSum(rows) == |EventCountsWhere(rows, 0)| == |TicketCountsWhere(rows, 0)|
  {
    if rows != [] {
      assert Flags(rows[1..]) by {
        assert forall i :: 0 <= i < |rows[1..]| ==> rows[1..][i] == rows[i + 1];
      }
      ChurnedCounts(rows[1..]);
    }
  }

  lemma {:induction false} ActiveEventsCounted(rows: seq<MetricRow>)
    ensures |ActiveEvents(rows)| == ActiveCount(rows) <= |rows|
    ensures forall i :: 0 <= i < |ActiveEvents(rows)| ==> ActiveEvents(rows)[i] > 0.0
  {
    if rows != [] {
      ActiveEventsCounted(rows[1..]);
    }
  }

  /** With 0/1 flags, `churned` lies between 0 and `n`; `with_activity` never exceeds `n`. */
  lemma ChurnedAndActiveBounded(rows: seq<MetricRow>)
    requires Flags(rows)
    ensures var m := ComputeMetrics(rows);
      0 <= m.churned <= m.n && m.withActivity <= m.n
  {
    ChurnedCounts(rows);
    ActiveEventsCounted(rows);
  }

  /**
   * With 0/1 flags, `churn_rate_pct` is defined exactly when there is a row,
   * and is then `churned`'s share of `n` in percent, between 0 and 100.
   */
  lemma ChurnRateBounded(rows: seq<MetricRow>)
    requires Flags(rows)
    ensures var m := ComputeMetrics(rows);
      && (m.churnRatePct.Some? <==> m.n > 0)
      && (m.churnRatePct.Some? ==> m.churnRatePct.value * (m.n as real) == 100.0 * (m.churned as real))
      && (m.churnRatePct.Some? ==> 0.0 <= m.churnRatePct.value <= 100.0)
  {
    ChurnedBetween(rows);
    PercentBounded(ChurnedSum(rows), |rows|);
  }

  lemma ChurnedBetween(rows: seq<MetricRow>)
    requires Flags(rows)
    ensures 0 <= ChurnedSum(rows) <= |rows|
  {
    ChurnedCounts(rows);
  }

  /**
   * `engagement_rate_pct` is defined exactly when there is a row, and is then
   * `with_activity`'s share of `n` in percent, between 0 and 100.
   */
  lemma EngagementRateBounded(rows: seq<MetricRow>)
    ensures var m := ComputeMetrics(rows);
      && (m.engagementRatePct.Some? <==> m.n > 0)
      && (m.engagementRatePct.Some? ==> m.engagementRatePct.value * (m.n as real) == 100.0 * (m.withActivity as real))
      && (m.engagementRatePct.Some? ==> 0.0 <= m.engagementRatePct.value <= 100.0)
  {
    ActiveEventsCounted(rows);
    PercentBounded(ActiveCount(rows), |rows|);
  }

  /** A count between 0 and `n` is between 0 and 100 percent of `n`. */
  lemma PercentBounded(x: int, n: nat)
    requires 0 <= x <= n
    ensures n > 0 ==> 0.0 <= Percent(x, n).value <= 100.0 && Percent(x, n).value * (n as real) == 100.0 * (x as real)
  {
    if n > 0 {
      var r := Percent(x, n).value;
      PercentTimesCount(x, n);
      assert r * (n as real) <= 100.0 * (n as real);
    }
  }

  /** `mean_events_active` is defined exactly when some row has activity, and is then positive. */
  lemma MeanEventsActivePositive(rows: seq<MetricRow>)
    ensures var m := ComputeMetrics(rows);
      && (m.meanEventsActive.Some? <==> m.withActivity > 0)
      && (m.meanEventsActive.Some? ==> m.meanEventsActive.value > 0.0)
  {
    ActiveEventsCounted(rows);
    if ActiveEvents(rows) != [] {
      MeanPositive(ActiveEvents(rows));
    }
  }

  /**
   * A conditional mean is undefined exactly when its subset is empty: with
   * 0/1 flags, the churned means when no row churned and the retained means
   * when every row did.
   */
  lemma ConditionalMeansDefinedness(rows: seq<MetricRow>)
    requires Flags(rows)
    ensures var m := ComputeMetrics(rows);
      && (m.meanEventsChurned.None? <==> m.churned == 0)
      && (m.meanTicketsChurned.None? <==> m.churned == 0)
      && (m.meanEventsRetained.None? <==> m.churned == m.n)
      && (m.meanTicketsRetained.None? <==> m.churned == m.n)
      && (m.meanTickets.None? <==> m.n == 0)
  {
    ChurnedCounts(rows);
    TicketCountsAll(rows);
  }

  lemma {:induction false} TicketCountsAll(rows: seq<MetricRow>)
    ensures |TicketCounts(rows)| == |rows|
  {
    if rows != [] {
      TicketCountsAll(rows[1..]);
    }
  }

  /** With 0/1 flags, the churned and retained ticket counts add up to all ticket counts. */
  lemma {:induction false} TicketSumsPartition(rows: seq<MetricRow>)
    requires Flags(rows)
    ensures Sum(TicketCounts(rows)) == Sum(TicketCountsWhere(rows, 1)) + Sum(TicketCountsWhere(rows, 0))
  {
    if rows != [] {
      assert Flags(rows[1..]) by {
        assert forall i :: 0 <= i < |rows[1..]| ==> rows[1..][i] == rows[i + 1];
      }
      TicketSumsPartition(rows[1..]);
      var x := rows[0].ticketCount;
      SumAppend([x], TicketCounts(rows[1..]));
      if rows[0].churned == 1 {
        SumAppend([x], TicketCountsWhere(rows[1..], 1));
        assert TicketCountsWhere(rows, 0) == TicketCountsWhere(rows[1..], 0);
      } else {
        SumAppend([x], TicketCountsWhere(rows[1..], 0));
        assert TicketCountsWhere(rows, 1) == TicketCountsWhere(rows[1..], 1);
      }
    }
  }

  /**
   * The churned and retained rows partition the frame, so the overall mean
   * of `ticket_count` is the weighted average of the two conditional means.
   */
  lemma MeanTicketsPartition(rows: seq<MetricRow>)
    requires Flags(rows)
    ensures var m := ComputeMetrics(rows);
      m.meanTicketsChurned.Some? && m.meanTicketsRetained.Some? ==>
        && m.meanTickets.Some?
        && m.meanTickets.value * (m.n as real)
           == m.meanTicketsChurned.value * (m.churned as real) + m.meanTicketsRetained.value * ((m.n - m.churned) as real)
  {
    var ch, ret := TicketCountsWhere(rows, 1), TicketCountsWhere(rows, 0);
    if ch != [] && ret != [] {
      var all := TicketCounts(rows);
      ChurnedCounts(rows);
      TicketCountsAll(rows);
      TicketSumsPartition(rows);
      WeightedMeans(all, ch, ret);
      var m := ComputeMetrics(rows);
      assert m.meanTickets == Mean(all) && m.meanTicketsChurned == Mean(ch) && m.meanTicketsRetained == Mean(ret);
      assert (m.n as real) == |all| as real && (m.churned as real) == |ch| as real && ((m.n - m.churned) as real) == |ret| as real;
    }
  }

  /** Splitting values into two non-empty parts, the whole mean is the parts' means weighted by their sizes. */
  lemma WeightedMeans(all: seq<real>, part: seq<real>, rest: seq<real>)
    requires part != [] && rest != [] && |all| == |part| + |rest|
    requires Sum(all) == Sum(part) + Sum(rest)
    ensures Mean(all).Some?
    ensures Mean(all).value * (|all| as real) == Mean(part).value * (|part| as real) + Mean(rest).value * (|rest| as real)
  {
    MeanTimesCount(all);
    MeanTimesCount(part);
    MeanTimesCount(rest);
  }

  /**
   * Two rows, one churned with two events and no ticket and one retained
   * with one ticket and no event.
   */
  lemma TwoRowExample()
    ensures var m := ComputeMetrics(NormaliseRows([
        LoadedRow(Some(1.0), Numeric(2.0), Numeric(0.0)),
        LoadedRow(Some(0.0), Numeric(0.0), Numeric(1.0))]));
      && m.n == 2 && m.churned == 1 && m.withActivity == 1
      && m.churnRatePct == Some(50.0) && m.engagementRatePct == Some(50.0)
      && m.meanEventsActive == Some(2.0)
      && m.meanEventsChurned == Some(2.0) && m.meanEventsRetained == Some(0.0)
      && m.meanTickets == Some(0.5)
      && m.meanTicketsChurned == Some(0.0) && m.meanTicketsRetained == Some(1.0)
  {
    var rows := NormaliseRows([
        LoadedRow(Some(1.0), Numeric(2.0), Numeric(0.0)),
        LoadedRow(Some(0.0), Numeric(0.0), Numeric(1.0))]);
    assert rows == [MetricRow(1, 2.0, 0.0), MetricRow(0, 0.0, 1.0)];
    assert rows[1..] == [MetricRow(0, 0.0, 1.0)];
    assert ActiveEvents(rows) == [2.0];
    assert EventCountsWhere(rows, 1) == [2.0];
    assert EventCountsWhere(rows, 0) == [0.0];
    assert TicketCounts(rows) == [0.0, 1.0];
    assert TicketCountsWhere(rows, 1) == [0.0];
    assert TicketCountsWhere(rows, 0) == [1.0];
    MeanOfOne(2.0);
    MeanOfOne(0.0);
    MeanOfOne(1.0);
    MeanOfZeroOne();
    assert Percent(1, 2) == Some(50.0);
  }

  lemma MeanOfOne(x: real)
    ensures Mean([x]) == Some(x)
  {
    assert Sum([x]) == x + Sum([]);
  }

  lemma MeanOfZeroOne()
    ensures Mean([0.0, 1.0]) == Some(0.5)
  {
    assert [0.0, 1.0][1..] == [1.0];
    assert Sum([0.0, 1.0]) == 1.0;
  }

  /** An empty frame defines no rate and no mean. */
  lemma EmptyFrameUndefined()
    ensures var m := ComputeMetrics([]);
      && m.n == 0 && m.churnRatePct.None? && m.engagementRatePct.None?
      && m.meanEventsActive.None? && m.meanTickets.None?
      && m.meanEventsChurned.None? && m.meanEventsRetained.None?
      && m.meanTicketsChurned.None? && m.meanTicketsRetained.None?
  {
  }
}
