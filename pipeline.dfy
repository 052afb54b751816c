/**
 * The whole run from the three raw relations to the merged dataset (lines
 * 93-124), and the merged file as the metrics step reads it back.
 */
module Pipeline {
  import opened Wrappers
  import opened Records
  import opened Normalize
  import opened Aggregate
  import opened Join
  import opened Metrics

  /**
   * Cleans the three relations, joins them onto the accounts and zero-fills
   * the aggregate columns, with the corrected `event_types` lambda (the code
   * as written also aborts at line 102; see AsWrittenEventTypesAbort). The
   * run aborts exactly when some customer id is malformed, with the first
   * such id; otherwise the merged frame has the base columns followed by
   * both relations' aggregate columns and one row per account, in account
   * order, holding that account's cleaned cells and the aggregates of its
   * own activity and support rows.
   */
  method BuildMergedDataset(parse: ColumnParser, rawAccounts: seq<RawAccount>, rawEvents: seq<RawEvent>, rawTickets: seq<RawTicket>)
    returns (r: Result<MergedFrame, Error>)
    ensures r.Failure? <==> exists i :: 0 <= i < |rawAccounts| && ParseUserId(rawAccounts[i].customerId).Failure?
    ensures r.Failure? ==>
      exists i :: 0 <= i < |rawAccounts| && ParseUserId(rawAccounts[i].customerId).Failure?
        && (forall j :: 0 <= j < i ==> ParseUserId(rawAccounts[j].customerId).Success?)
        && r.error == MalformedIdentifier(rawAccounts[i].customerId)
    ensures r.Success? ==>
      var events, tickets := CleanActivity(parse, rawEvents), CleanSupport(parse, rawTickets);
      && r.value.columns == MergedColumns(FanOutColumns(EventKeyed(events)), FanOutColumns(TicketKeyed(tickets)))
      && |r.value.rows| == |rawAccounts|
      && forall i :: 0 <= i < |rawAccounts| ==>
           && CleanedFrom(r.value.rows[i].account, rawAccounts[i])
           && ExpectedActivity(r.value.rows[i].activity, events, r.value.rows[i].account.userId)
           && ExpectedSupport(r.value.rows[i].support, tickets, r.value.rows[i].account.userId)
  {
    CleanAccountsSpec(rawAccounts);
    var cleaned := CleanAccounts(rawAccounts);
    if cleaned.Failure? {
      return Failure(cleaned.error);
    }
    var accounts := cleaned.value;
    var events := CleanActivity(parse, rawEvents);
    var tickets := CleanSupport(parse, rawTickets);
    var merged := JoinRelations(accounts, events, tickets);
    FillColumnsFillable(merged.columns);
    var filled := FillMissingWithZero(merged, FillColumns(merged.columns));
    JoinAndFillSpec(accounts, events, tickets);
    return Success(filled);
  }

  /**
   * The run as written instead aborts in the `event_types` lambda exactly
   * when some activity row has a user and no event type: the inputs on which
   * BuildMergedDataset, which runs the corrected lambda, completes where the
   * code as written does not.
   */
  lemma AsWrittenEventTypesAbort(parse: ColumnParser, rawEvents: seq<RawEvent>)
    ensures (exists u :: EventTypesAsWritten(CategoryCells(EventKeyed(CleanActivity(parse, rawEvents)), u), u).Failure?)
        <==> exists i :: 0 <= i < |rawEvents| && rawEvents[i].userId.Some? && rawEvents[i].eventType.None?
  {
    var events := CleanActivity(parse, rawEvents);
    if exists i :: 0 <= i < |rawEvents| && rawEvents[i].userId.Some? && rawEvents[i].eventType.None? {
      var i :| 0 <= i < |rawEvents| && rawEvents[i].userId.Some? && rawEvents[i].eventType.None?;
      var u := rawEvents[i].userId.value;
      EventTypesAsWrittenSpec(events, u);
      assert events[i].userId == Some(u) && events[i].eventType.None?;
    }
    if exists u :: EventTypesAsWritten(CategoryCells(EventKeyed(events), u), u).Failure? {
      var u :| EventTypesAsWritten(CategoryCells(EventKeyed(events), u), u).Failure?;
      EventTypesAsWrittenSpec(events, u);
    }
  }

  // ---------------------------------------------------------------------
  // The merged file read back by the metrics step
  // ---------------------------------------------------------------------

  /** A count cell written to the file and read back: an empty cell for NaN, the number otherwise. */
  function ReloadCount(cell: Option<nat>): (r: Loaded)
    ensures r.Missing? <==> cell.None?
    ensures cell.Some? ==> r == Numeric(cell.value as real)
  {
    match cell
    case None => Missing
    case Some(k) => Numeric(k as real)
  }

  /** The columns of a merged row the metrics step uses, as it reads them from the file. */
  function Reload(row: MergedRow): LoadedRow {
    LoadedRow(Some(row.account.churned as real), ReloadCount(row.activity.eventCount), ReloadCount(row.support.ticketCount))
  }

  function ReloadAll(rows: seq<MergedRow>): (r: seq<LoadedRow>)
    ensures |r| == |rows|
    ensures forall i :: 0 <= i < |rows| ==> r[i] == Reload(rows[i])
  {
    seq(|rows|, i requires 0 <= i < |rows| => Reload(rows[i]))
  }

  /**
   * Read back from a successful run, every row keeps its 0/1 `churned` flag
   * and its `event_count` and `ticket_count` as numbers, so the metrics'
   * counts and rates stay within their bounds.
   */
  lemma MetricsOfMergedDataset(parse: ColumnParser, rawAccounts: seq<RawAccount>, rawEvents: seq<RawEvent>,
                               rawTickets: seq<RawTicket>, frame: MergedFrame)
    requires forall i :: 0 <= i < |rawAccounts| ==> ParseUserId(rawAccounts[i].customerId).Success?
    requires var events, tickets := CleanActivity(parse, rawEvents), CleanSupport(parse, rawTickets);
      && |frame.rows| == |rawAccounts|
      && forall i :: 0 <= i < |rawAccounts| ==>
           && CleanedFrom(frame.rows[i].account, rawAccounts[i])
           && ExpectedActivity(frame.rows[i].activity, events, frame.rows[i].account.userId)
           && ExpectedSupport(frame.rows[i].support, tickets, frame.rows[i].account.userId)
    ensures var rows := NormaliseRows(ReloadAll(frame.rows));
      && Flags(rows)
      && (forall i :: 0 <= i < |rows| ==>
            && rows[i].churned == (if rawAccounts[i].churnStatus == Some("Y") then 1 else 0)
            && rows[i].eventCount == frame.rows[i].activity.eventCount.value as real
            && rows[i].ticketCount == frame.rows[i].support.ticketCount.value as real)
      && var m := ComputeMetrics(rows);
         0 <= m.churned <= m.n == |rawAccounts| && m.withActivity <= m.n
  {
    var rows := NormaliseRows(ReloadAll(frame.rows));
    forall i | 0 <= i < |rows|
      ensures && rows[i].churned == (if rawAccounts[i].churnStatus == Some("Y") then 1 else 0)
              && rows[i].eventCount == frame.rows[i].activity.eventCount.value as real
              && rows[i].ticketCount == frame.rows[i].support.ticketCount.value as real
    {
      TruncateWhole(frame.rows[i].account.churned);
    }
    ChurnedAndActiveBounded(rows);
  }
}
