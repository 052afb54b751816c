/**
 * Lines 98-124: the account base left-merged with the two aggregates, then
 * every aggregate column except `event_types` zero-filled, one column at a
 * time.
 */
module Join {
  import opened Wrappers
  import opened Records
  import opened Text
  import opened Stats
  import opened Merge
  import opened Aggregate

  // ---------------------------------------------------------------------
  // Columns of the merged frame
  // ---------------------------------------------------------------------

  /** A column of the merged frame; the fan-out columns carry their category. */
  datatype Column =
    | UserId | CustomerId | Email | State | Plan | PlanListPrice | ChurnStatus | Churned
    | EventCount | EventTypes | CountOf(eventType: string)
    | TicketCount | TotalResolutionHours | AvgResolutionHours | TicketsOf(topic: string)

  /** The column's header in the merged file. */
  function Name(c: Column): string {
    match c
    case UserId => "user_id"
    case CustomerId => "customer_id"
    case Email => "email"
    case State => "state"
    case Plan => "plan"
    case PlanListPrice => "plan_list_price"
    case ChurnStatus => "churn_status"
    case Churned => "churned"
    case EventCount => "event_count"
    case EventTypes => "event_types"
    case CountOf(t) => "count_" + t
    case TicketCount => "ticket_count"
    case TotalResolutionHours => "total_resolution_hours"
    case AvgResolutionHours => "avg_resolution_hours"
    case TicketsOf(p) => "tickets_" + p
  }

  /** The base projection of line 98. */
  const BaseColumns: seq<Column> := [UserId, CustomerId, Email, State, Plan, PlanListPrice, ChurnStatus, Churned]

  function CountColumns(eventTypes: seq<string>): seq<Column> {
    seq(|eventTypes|, i requires 0 <= i < |eventTypes| => CountOf(eventTypes[i]))
  }

  function TicketsColumns(topics: seq<string>): seq<Column> {
    seq(|topics|, i requires 0 <= i < |topics| => TicketsOf(topics[i]))
  }

  /** The columns of `merged`, in order: base, then `activity_agg`'s, then `support_agg`'s. */
  function MergedColumns(eventTypes: seq<string>, topics: seq<string>): seq<Column> {
    BaseColumns + [EventCount, EventTypes] + CountColumns(eventTypes)
    + [TicketCount, TotalResolutionHours, AvgResolutionHours] + TicketsColumns(topics)
  }

  // ---------------------------------------------------------------------
  // The two left merges
  // ---------------------------------------------------------------------

  /** A row of `merged`: the account's base cells and its aggregate cells (None for NaN). */
  datatype MergedRow = MergedRow(account: Account, activity: ActivityCells, support: SupportCells)

  /** `merged` with its column list. */
  datatype MergedFrame = MergedFrame(columns: seq<Column>, rows: seq<MergedRow>)

  function AccountKey(a: Account): int { a.userId }

  function FirstAccountKey(p: (Account, Option<ActivityAgg>)): int { p.0.userId }

  /** The activity cells of a base row: its aggregate's, or NaN in every activity column when it has none. */
  function ActivityOrMissing(eventTypes: seq<string>, m: Option<ActivityAgg>): ActivityCells {
    match m
    case Some(agg) => agg.cells
    case None => ActivityCells(None, None, map t | t in eventTypes :: None)
  }

  /** The support cells of a base row: its aggregate's, or NaN in every support column when it has none. */
  function SupportOrMissing(topics: seq<string>, m: Option<SupportAgg>): SupportCells {
    match m
    case Some(agg) => agg.cells
    case None => SupportCells(None, None, None, map p | p in topics :: None)
  }

  /** Lines 117-118: `base.merge(activity_agg, how="left").merge(support_agg, how="left")`. */
  function JoinRelations(accounts: seq<Account>, events: seq<Event>, tickets: seq<Ticket>): MergedFrame {
    var act := AggregateActivity(events);
    var sup := AggregateSupport(tickets);
    var withActivity := LeftMerge(accounts, act.rows, AccountKey, ActivityAggKey);
    var merged := LeftMerge(withActivity, sup.rows, FirstAccountKey, SupportAggKey);
    MergedFrame(
      MergedColumns(act.eventTypeColumns, sup.topicColumns),
      seq(|merged|, i requires 0 <= i < |merged| =>
        MergedRow(merged[i].0.0, ActivityOrMissing(act.eventTypeColumns, merged[i].0.1),
                  SupportOrMissing(sup.topicColumns, merged[i].1))))
  }

  // ---------------------------------------------------------------------
  // Zero-fill
  // ---------------------------------------------------------------------

  /** The numeric aggregate columns, the only ones the fill can select. */
  predicate Fillable(c: Column) {
    c.EventCount? || c.CountOf? || c.TicketCount? || c.TotalResolutionHours? || c.AvgResolutionHours? || c.TicketsOf?
  }

  function ZeroCount(cell: Option<nat>): Option<nat> { Some(cell.GetOr(0)) }

  function ZeroHours(cell: Option<real>): Option<real> { Some(cell.GetOr(0.0)) }

  /** `fillna(0)` on one cell of column `c`. */
  function FillCell(row: MergedRow, c: Column): MergedRow
    requires Fillable(c)
  {
    var a := row.activity;
    var s := row.support;
    match c
    case EventCount => row.(activity := a.(eventCount := ZeroCount(a.eventCount)))
    case CountOf(t) =>
      if t in a.countOf then row.(activity := a.(countOf := a.countOf[t := ZeroCount(a.countOf[t])])) else row
    case TicketCount => row.(support := s.(ticketCount := ZeroCount(s.ticketCount)))
    case TotalResolutionHours => row.(support := s.(totalHours := ZeroHours(s.totalHours)))
    case AvgResolutionHours => row.(support := s.(avgHours := ZeroHours(s.avgHours)))
    case TicketsOf(p) =>
      if p in s.ticketsOf then row.(support := s.(ticketsOf := s.ticketsOf[p := ZeroCount(s.ticketsOf[p])])) else row
  }

  /** `merged[c] = merged[c].fillna(0)`. */
  function FillColumn(rows: seq<MergedRow>, c: Column): (r: seq<MergedRow>)
    requires Fillable(c)
    ensures |r| == |rows|
  {
    seq(|rows|, i requires 0 <= i < |rows| => FillCell(rows[i], c))
  }

  /** The rows after filling each listed column in turn, skipping those not in `columns` (lines 122-124). */
  function FillAll(columns: seq<Column>, rows: seq<MergedRow>, fill: seq<Column>): (r: seq<MergedRow>)
    requires forall c :: c in fill ==> Fillable(c)
    ensures |r| == |rows|
    decreases |fill|
  {
    if fill == [] then rows
    else
      var before := FillAll(columns, rows, fill[..|fill| - 1]);
      var c := fill[|fill| - 1];
      if c in columns then FillColumn(before, c) else before
  }

  /** Lines 122-124: the fill loop over the selected columns. */
  method FillMissingWithZero(frame: MergedFrame, fill: seq<Column>) returns (filled: MergedFrame)
    requires forall c :: c in fill ==> Fillable(c)
    ensures filled.columns == frame.columns
    ensures filled.rows == FillAll(frame.columns, frame.rows, fill)
  {
    var rows := frame.rows;
    for k := 0 to |fill|
      invariant rows == FillAll(frame.columns, frame.rows, fill[..k])
    {
      assert fill[..k + 1][..k] == fill[..k];
      var c := fill[k];
      if c in frame.columns {
        rows := FillColumn(rows, c);
      }
    }
    assert fill[..|fill|] == fill;
    filled := MergedFrame(frame.columns, rows);
  }

  // ---------------------------------------------------------------------
  // Which columns the fill selects (lines 120-121)
  // ---------------------------------------------------------------------

  /** Line 120's test on a header: `c.startswith("count_") or c == "event_count"`. */
  predicate IsActivityFillName(c: Column) {
    StartsWith(Name(c), "count_") || Name(c) == "event_count"
  }

  /** Line 121's test on a header: `c.startswith("tickets_")`. */
  predicate IsTicketsName(c: Column) {
    StartsWith(Name(c), "tickets_")
  }

  /** `[c for c in columns if keep(c)]`. */
  function Select(columns: seq<Column>, keep: Column -> bool): (r: seq<Column>)
    ensures forall c :: c in r <==> c in columns && keep(c)
  {
    if columns == [] then []
    else (if keep(columns[0]) then [columns[0]] else []) + Select(columns[1..], keep)
  }

  /** `act_cols`. */
  function ActivityFillColumns(columns: seq<Column>): seq<Column> {
    Select(columns, IsActivityFillName)
  }

  /** `sup_cols`. */
  function SupportFillColumns(columns: seq<Column>): seq<Column> {
    [TicketCount, TotalResolutionHours, AvgResolutionHours] + Select(columns, IsTicketsName)
  }

  /** `act_cols + sup_cols`. */
  function FillColumns(columns: seq<Column>): seq<Column> {
    ActivityFillColumns(columns) + SupportFillColumns(columns)
  }

  /** The header test of line 120 picks out exactly `event_count` and the `count_<type>` columns. */
  lemma ActivityFillNameExact(c: Column)
    ensures IsActivityFillName(c) <==> c.EventCount? || c.CountOf?
  {
    var n := Name(c);
    match c
    case CountOf(t) => assert n[..6] == "count_";
    case EventCount =>
    case TicketsOf(p) => assert n[0] == 't';
    case UserId => assert n[0] == 'u';
    case CustomerId => assert n[2] == 's';
    case Email => assert n[0] == 'e';
    case State => assert n[0] == 's';
    case Plan => assert n[0] == 'p';
    case PlanListPrice => assert n[0] == 'p';
    case ChurnStatus => assert n[1] == 'h';
    case Churned => assert n[1] == 'h';
    case EventTypes => assert n[0] == 'e';
    case TicketCount => assert n[0] == 't';
    case TotalResolutionHours => assert n[0] == 't';
    case AvgResolutionHours => assert n[0] == 'a';
  }

  /** The header test of line 121 picks out exactly the `tickets_<topic>` columns. */
  lemma TicketsNameExact(c: Column)
    ensures IsTicketsName(c) <==> c.TicketsOf?
  {
    var n := Name(c);
    match c
    case TicketsOf(p) => assert n[..8] == "tickets_";
    case TicketCount => assert n[6] == '_' && n[7] == 'c';
    case CountOf(t) => assert n[0] == 'c';
    case UserId => assert n[0] == 'u';
    case CustomerId => assert n[0] == 'c';
    case Email => assert n[0] == 'e';
    case State => assert n[0] == 's';
    case Plan => assert n[0] == 'p';
    case PlanListPrice => assert n[0] == 'p';
    case ChurnStatus => assert n[0] == 'c';
    case Churned => assert n[0] == 'c';
    case EventCount => assert n[0] == 'e';
    case EventTypes => assert n[0] == 'e';
    case TotalResolutionHours => assert n[1] == 'o';
    case AvgResolutionHours => assert n[0] == 'a';
  }

  /** Whatever the frame's columns, the fill selects only numeric aggregate columns. */
  lemma FillColumnsFillable(columns: seq<Column>)
    ensures forall c :: c in FillColumns(columns) ==> Fillable(c)
  {
    forall c | c in FillColumns(columns) ensures Fillable(c) {
      ActivityFillNameExact(c);
      TicketsNameExact(c);
    }
  }

  /**
   * On the merged frame the fill selection is exactly its numeric aggregate
   * columns: never a base column and never `event_types`.
   */
  lemma FillColumnsExact(eventTypes: seq<string>, topics: seq<string>)
    ensures var columns := MergedColumns(eventTypes, topics);
      forall c :: c in FillColumns(columns) ==> Fillable(c)
    ensures var columns := MergedColumns(eventTypes, topics);
      forall c :: c in FillColumns(columns) && c in columns <==> Fillable(c) && c in columns
    ensures var columns := MergedColumns(eventTypes, topics);
      forall c :: Fillable(c) && c in columns <==>
        c == EventCount || c == TicketCount || c == TotalResolutionHours || c == AvgResolutionHours
        || (c.CountOf? && c.eventType in eventTypes) || (c.TicketsOf? && c.topic in topics)
  {
    var columns := MergedColumns(eventTypes, topics);
    forall c ensures IsActivityFillName(c) <==> c.EventCount? || c.CountOf? {
      ActivityFillNameExact(c);
    }
    forall c ensures IsTicketsName(c) <==> c.TicketsOf? {
      TicketsNameExact(c);
    }
    forall c: Column | c.CountOf? ensures c in columns <==> c.eventType in eventTypes {
      if c.eventType in eventTypes {
        var i :| 0 <= i < |eventTypes| && eventTypes[i] == c.eventType;
        assert CountColumns(eventTypes)[i] == c;
      }
    }
    forall c: Column | c.TicketsOf? ensures c in columns <==> c.topic in topics {
      if c.topic in topics {
        var i :| 0 <= i < |topics| && topics[i] == c.topic;
        assert TicketsColumns(topics)[i] == c;
      }
    }
  }

  // ---------------------------------------------------------------------
  // What the fill does to a row
  // ---------------------------------------------------------------------

  /**
   * `after` is `before` with every cell of the columns in `filled` set to 0
   * where it was missing, and everything else (base cells, `event_types`,
   * the fan-out column sets) unchanged.
   */
  ghost predicate FilledFrom(after: MergedRow, before: MergedRow, filled: set<Column>) {
    && after.account == before.account
    && ActivityFilledFrom(after.activity, before.activity, filled)
    && SupportFilledFrom(after.support, before.support, filled)
  }

  ghost predicate ActivityFilledFrom(a': ActivityCells, a: ActivityCells, filled: set<Column>) {
    && a'.eventTypes == a.eventTypes
    && a'.eventCount == (if EventCount in filled then ZeroCount(a.eventCount) else a.eventCount)
    && a'.countOf.Keys == a.countOf.Keys
    && (forall t :: t in a.countOf ==> a'.countOf[t] == if CountOf(t) in filled then ZeroCount(a.countOf[t]) else a.countOf[t])
  }

  ghost predicate SupportFilledFrom(s': SupportCells, s: SupportCells, filled: set<Column>) {
    && s'.ticketCount == (if TicketCount in filled then ZeroCount(s.ticketCount) else s.ticketCount)
    && s'.totalHours == (if TotalResolutionHours in filled then ZeroHours(s.totalHours) else s.totalHours)
    && s'.avgHours == (if AvgResolutionHours in filled then ZeroHours(s.avgHours) else s.avgHours)
    && s'.ticketsOf.Keys == s.ticketsOf.Keys
    && (forall p :: p in s.ticketsOf ==> s'.ticketsOf[p] == if TicketsOf(p) in filled then ZeroCount(s.ticketsOf[p]) else s.ticketsOf[p])
  }

  lemma FillCellStep(row: MergedRow, mid: MergedRow, filled: set<Column>, c: Column)
    requires Fillable(c) && FilledFrom(mid, row, filled)
    ensures FilledFrom(FillCell(mid, c), row, filled + {c})
  {
  }

  /** Filling a list of columns fills each listed column that the frame has, and touches nothing else. */
  lemma {:induction false} FillAllSpec(columns: seq<Column>, rows: seq<MergedRow>, fill: seq<Column>)
    requires forall c :: c in fill ==> Fillable(c)
    ensures forall i :: 0 <= i < |rows| ==>
      FilledFrom(FillAll(columns, rows, fill)[i], rows[i], set c | c in fill && c in columns)
  {
    var filled := set c | c in fill && c in columns;
    if fill == [] {
      forall i | 0 <= i < |rows| ensures FilledFrom(rows[i], rows[i], filled) {
        assert filled == {};
      }
    } else {
      var init := fill[..|fill| - 1];
      var c := fill[|fill| - 1];
      assert forall x :: x in init ==> x in fill;
      FillAllSpec(columns, rows, init);
      var before := FillAll(columns, rows, init);
      var prior := set x | x in init && x in columns;
      if c in columns {
        assert filled == prior + {c};
        forall i | 0 <= i < |rows| ensures FilledFrom(FillAll(columns, rows, fill)[i], rows[i], filled) {
          FillCellStep(rows[i], before[i], prior, c);
        }
      } else {
        assert filled == prior;
      }
    }
  }

  // ---------------------------------------------------------------------
  // The joined and filled rows
  // ---------------------------------------------------------------------

  /** Both merges keep one row per account, in account order, with the aggregate row of its user or nothing. */
  lemma JoinRelationsRows(accounts: seq<Account>, events: seq<Event>, tickets: seq<Ticket>)
    ensures var frame := JoinRelations(accounts, events, tickets);
      var act := AggregateActivity(events);
      var sup := AggregateSupport(tickets);
      && |frame.rows| == |accounts|
      && forall i :: 0 <= i < |accounts| ==>
           frame.rows[i] == MergedRow(accounts[i],
             ActivityOrMissing(act.eventTypeColumns, Find(act.rows, ActivityAggKey, accounts[i].userId)),
             SupportOrMissing(sup.topicColumns, Find(sup.rows, SupportAggKey, accounts[i].userId)))
  {
    var act := AggregateActivity(events);
    var sup := AggregateSupport(tickets);
    AggregateActivitySpec(events);
    AggregateSupportSpec(tickets);
    var withActivity := LeftMerge(accounts, act.rows, AccountKey, ActivityAggKey);
    LeftMergeUnique(accounts, act.rows, AccountKey, ActivityAggKey);
    LeftMergeUnique(withActivity, sup.rows, FirstAccountKey, SupportAggKey);
  }

  /**
   * The row the pipeline promises for account `a`, computed directly from the
   * relations: every count and sum is a number (0 for a user the relation
   * never mentions), the mean resolution time is 0 where it is undefined, and
   * `event_types` is missing exactly for users without activity rows.
   */
  ghost predicate ExpectedRow(row: MergedRow, a: Account, events: seq<Event>, tickets: seq<Ticket>) {
    && row.account == a
    && ExpectedActivity(row.activity, events, a.userId)
    && ExpectedSupport(row.support, tickets, a.userId)
  }

  ghost predicate ExpectedActivity(cells: ActivityCells, events: seq<Event>, u: int) {
    var ek := EventKeyed(events);
    && cells.eventCount == Some(CategorisedCount(ek, u))
    && cells.eventTypes == (if GroupSize(ek, u) > 0 then Some(UserEventTypes(events, u)) else None)
    && cells.countOf == (map t | t in FanOutColumns(ek) :: Some(CategoryCount(ek, u, t)))
  }

  ghost predicate ExpectedSupport(cells: SupportCells, tickets: seq<Ticket>, u: int) {
    var tk := TicketKeyed(tickets);
    && cells.ticketCount == Some(ParsedTicketCount(tickets, u))
    && cells.totalHours == Some(Sum(UserHours(tickets, u)))
    && cells.avgHours == Some(Mean(UserHours(tickets, u)).GetOr(0.0))
    && cells.ticketsOf == (map p | p in FanOutColumns(tk) :: Some(CategoryCount(tk, u, p)))
  }

  /** The set of columns the pipeline's fill touches on its merged frame. */
  ghost function FilledByPipeline(events: seq<Event>, tickets: seq<Ticket>): set<Column> {
    set c | Fillable(c) && c in MergedColumns(FanOutColumns(EventKeyed(events)), FanOutColumns(TicketKeyed(tickets)))
  }

  /** Every numeric aggregate column of the merged frame is among those the pipeline fills. */
  lemma FilledByPipelineContents(events: seq<Event>, tickets: seq<Ticket>)
    ensures var filled := FilledByPipeline(events, tickets);
      && EventCount in filled && TicketCount in filled
      && TotalResolutionHours in filled && AvgResolutionHours in filled
      && (forall t :: t in FanOutColumns(EventKeyed(events)) ==> CountOf(t) in filled)
      && (forall p :: p in FanOutColumns(TicketKeyed(tickets)) ==> TicketsOf(p) in filled)
  {
    var types, topics := FanOutColumns(EventKeyed(events)), FanOutColumns(TicketKeyed(tickets));
    var columns := MergedColumns(types, topics);
    assert columns[8] == EventCount;
    assert columns[10 + |types|] == TicketCount;
    assert columns[11 + |types|] == TotalResolutionHours;
    assert columns[12 + |types|] == AvgResolutionHours;
    forall t | t in types ensures CountOf(t) in columns {
      var i :| 0 <= i < |types| && types[i] == t;
      assert columns[10 + i] == CountOf(t);
    }
    forall p | p in topics ensures TicketsOf(p) in columns {
      var i :| 0 <= i < |topics| && topics[i] == p;
      assert columns[13 + |types| + i] == TicketsOf(p);
    }
  }

  /** Filling a user's activity cells, whether the merge found an aggregate row or not, yields the expected cells. */
  lemma FilledActivityCells(after: ActivityCells, before: ActivityCells, filled: set<Column>, events: seq<Event>, u: int)
    requires ActivityFilledFrom(after, before, filled)
    requires EventCount in filled
    requires forall t :: t in FanOutColumns(EventKeyed(events)) ==> CountOf(t) in filled
    requires before == if GroupSize(EventKeyed(events), u) > 0 then ActivityCellsFor(events, u)
                       else ActivityCells(None, None, map t | t in FanOutColumns(EventKeyed(events)) :: None)
    ensures ExpectedActivity(after, events, u)
  {
    var ek := EventKeyed(events);
    var expected := map t | t in FanOutColumns(ek) :: Some(CategoryCount(ek, u, t));
    CountsBounded(ek, u, "");
    forall t | t in FanOutColumns(ek) ensures after.countOf[t] == expected[t] {
      CountsBounded(ek, u, t);
    }
    assert after.countOf.Keys == expected.Keys;
  }

  /** Filling a user's support cells, whether the merge found an aggregate row or not, yields the expected cells. */
  lemma FilledSupportCells(after: SupportCells, before: SupportCells, filled: set<Column>, tickets: seq<Ticket>, u: int)
    requires SupportFilledFrom(after, before, filled)
    requires TicketCount in filled && TotalResolutionHours in filled && AvgResolutionHours in filled
    requires forall p :: p in FanOutColumns(TicketKeyed(tickets)) ==> TicketsOf(p) in filled
    requires before == if GroupSize(TicketKeyed(tickets), u) > 0 then SupportCellsFor(tickets, u)
                       else SupportCells(None, None, None, map p | p in FanOutColumns(TicketKeyed(tickets)) :: None)
    ensures ExpectedSupport(after, tickets, u)
  {
    var tk := TicketKeyed(tickets);
    var expected := map p | p in FanOutColumns(tk) :: Some(CategoryCount(tk, u, p));
    ParsedTicketsBounded(tickets, u);
    CountsBounded(tk, u, "");
    if GroupSize(tk, u) == 0 {
      assert UserHours(tickets, u) == [];
      assert Sum(UserHours(tickets, u)) == 0.0;
      assert after.avgHours == Some(0.0);
    }
    forall p | p in FanOutColumns(tk) ensures after.ticketsOf[p] == expected[p] {
      CountsBounded(tk, u, p);
    }
    assert after.ticketsOf.Keys == expected.Keys;
  }

  lemma FilledActivityIsExpected(after: ActivityCells, events: seq<Event>, tickets: seq<Ticket>, u: int)
    requires ActivityFilledFrom(after,
      ActivityOrMissing(FanOutColumns(EventKeyed(events)), Find(AggregateActivity(events).rows, ActivityAggKey, u)),
      FilledByPipeline(events, tickets))
    ensures ExpectedActivity(after, events, u)
  {
    FilledByPipelineContents(events, tickets);
    FindActivity(events, u);
    FilledActivityCells(after,
      ActivityOrMissing(FanOutColumns(EventKeyed(events)), Find(AggregateActivity(events).rows, ActivityAggKey, u)),
      FilledByPipeline(events, tickets), events, u);
  }

  lemma FilledSupportIsExpected(after: SupportCells, events: seq<Event>, tickets: seq<Ticket>, u: int)
    requires SupportFilledFrom(after,
      SupportOrMissing(FanOutColumns(TicketKeyed(tickets)), Find(AggregateSupport(tickets).rows, SupportAggKey, u)),
      FilledByPipeline(events, tickets))
    ensures ExpectedSupport(after, tickets, u)
  {
    FilledByPipelineContents(events, tickets);
    FindSupport(tickets, u);
    FilledSupportCells(after,
      SupportOrMissing(FanOutColumns(TicketKeyed(tickets)), Find(AggregateSupport(tickets).rows, SupportAggKey, u)),
      FilledByPipeline(events, tickets), tickets, u);
  }

  /**
   * Lines 98-124 as a whole: the merged frame has the base columns followed
   * by the aggregate columns of both relations, and after the fill it holds
   * exactly one row per account, in account order, each the expected row.
   */
  lemma JoinAndFillSpec(accounts: seq<Account>, events: seq<Event>, tickets: seq<Ticket>)
    ensures var frame := JoinRelations(accounts, events, tickets);
      && frame.columns == MergedColumns(FanOutColumns(EventKeyed(events)), FanOutColumns(TicketKeyed(tickets)))
      && (forall c :: c in FillColumns(frame.columns) ==> Fillable(c))
      && |FillAll(frame.columns, frame.rows, FillColumns(frame.columns))| == |accounts|
      && forall i :: 0 <= i < |accounts| ==>
           ExpectedRow(FillAll(frame.columns, frame.rows, FillColumns(frame.columns))[i], accounts[i], events, tickets)
  {
    var frame := JoinRelations(accounts, events, tickets);
    var types, topics := FanOutColumns(EventKeyed(events)), FanOutColumns(TicketKeyed(tickets));
    FillColumnsExact(types, topics);
    JoinRelationsRows(accounts, events, tickets);
    var fill := FillColumns(frame.columns);
    FillAllSpec(frame.columns, frame.rows, fill);
    var filled := FillAll(frame.columns, frame.rows, fill);
    assert (set c | c in fill && c in frame.columns) == FilledByPipeline(events, tickets);
    forall i | 0 <= i < |accounts| ensures ExpectedRow(filled[i], accounts[i], events, tickets) {
      FilledActivityIsExpected(filled[i].activity, events, tickets, accounts[i].userId);
      FilledSupportIsExpected(filled[i].support, events, tickets, accounts[i].userId);
    }
  }

  /** The merged rows after the fill (lines 117-124), for properties relating two runs. */
  ghost function JoinedAndFilled(accounts: seq<Account>, events: seq<Event>, tickets: seq<Ticket>): seq<MergedRow> {
    var frame := JoinRelations(accounts, events, tickets);
    FillColumnsFillable(frame.columns);
    FillAll(frame.columns, frame.rows, FillColumns(frame.columns))
  }

  /** The total of the present cells among the columns `cols`. */
  function CellsTotal(cells: map<string, Option<nat>>, cols: seq<string>): nat {
    if cols == [] then 0
    else (if cols[0] in cells then cells[cols[0]].GetOr(0) else 0) + CellsTotal(cells, cols[1..])
  }

  lemma {:induction false} CellsTotalOfCounts(cells: map<string, Option<nat>>, rows: seq<Keyed>, u: int, cols: seq<string>)
    requires forall c :: c in cols ==> c in cells && cells[c] == Some(CategoryCount(rows, u, c))
    ensures CellsTotal(cells, cols) == CountsTotal(rows, u, cols)
  {
    if cols != [] {
      CellsTotalOfCounts(cells, rows, u, cols[1..]);
    }
  }

  /**
   * In every output row `event_count` is the sum of the row's `count_<type>`
   * cells, and the `tickets_<topic>` cells add up to the user's tickets that
   * have a topic, which is at most its tickets; `ticket_count` only counts
   * those whose time parsed.
   */
  lemma RowTotals(accounts: seq<Account>, events: seq<Event>, tickets: seq<Ticket>, i: int)
    requires 0 <= i < |accounts|
    ensures |JoinedAndFilled(accounts, events, tickets)| == |accounts|
    ensures var row := JoinedAndFilled(accounts, events, tickets)[i];
      var u := accounts[i].userId;
      && row.activity.eventCount == Some(CellsTotal(row.activity.countOf, FanOutColumns(EventKeyed(events))))
      && CellsTotal(row.support.ticketsOf, FanOutColumns(TicketKeyed(tickets))) + NullTopicCount(tickets, u)
         == GroupSize(TicketKeyed(tickets), u)
      && row.support.ticketCount.Some?
      && row.support.ticketCount.value + UnparsedTicketCount(tickets, u) == GroupSize(TicketKeyed(tickets), u)
  {
    JoinAndFillSpec(accounts, events, tickets);
    ExpectedRowTotals(JoinedAndFilled(accounts, events, tickets)[i], accounts[i], events, tickets);
  }

  lemma ExpectedRowTotals(row: MergedRow, a: Account, events: seq<Event>, tickets: seq<Ticket>)
    requires ExpectedRow(row, a, events, tickets)
    ensures row.activity.eventCount == Some(CellsTotal(row.activity.countOf, FanOutColumns(EventKeyed(events))))
    ensures CellsTotal(row.support.ticketsOf, FanOutColumns(TicketKeyed(tickets))) + NullTopicCount(tickets, a.userId)
         == GroupSize(TicketKeyed(tickets), a.userId)
    ensures row.support.ticketCount.Some?
    ensures row.support.ticketCount.value + UnparsedTicketCount(tickets, a.userId) == GroupSize(TicketKeyed(tickets), a.userId)
  {
    var u := a.userId;
    var ek, tk := EventKeyed(events), TicketKeyed(tickets);
    CellsTotalOfCounts(row.activity.countOf, ek, u, FanOutColumns(ek));
    EventCountIsSumOfCounts(events, u);
    CellsTotalOfCounts(row.support.ticketsOf, tk, u, FanOutColumns(tk));
    TicketsAreSumOfTopics(tickets, u);
    TicketCountIdentities(tickets, u);
  }

  /** None of the accounts' users. */
  ghost predicate Orphan(id: Option<int>, accounts: seq<Account>) {
    forall i :: 0 <= i < |accounts| ==> id != Some(accounts[i].userId)
  }

  /**
   * Activity rows without a user, or whose user has no account, reach no
   * output row: every row keeps its cells, and the columns they add hold 0.
   */
  lemma OrphanEventsIgnored(accounts: seq<Account>, events: seq<Event>, extra: seq<Event>, tickets: seq<Ticket>)
    requires forall j :: 0 <= j < |extra| ==> Orphan(extra[j].userId, accounts)
    ensures var before, after := JoinedAndFilled(accounts, events, tickets), JoinedAndFilled(accounts, events + extra, tickets);
      && |before| == |after| == |accounts|
      && forall i :: 0 <= i < |accounts| ==> SameActivityBut(after[i], before[i])
  {
    var before, after := JoinedAndFilled(accounts, events, tickets), JoinedAndFilled(accounts, events + extra, tickets);
    JoinAndFillSpec(accounts, events, tickets);
    JoinAndFillSpec(accounts, events + extra, tickets);
    forall i | 0 <= i < |accounts|
      ensures SameActivityBut(after[i], before[i])
    {
      ForeignEventsIgnored(events, extra, accounts[i].userId);
      ExpectedRowsAgreeOnActivity(before[i], after[i], accounts[i], events, extra, tickets);
    }
  }

  /** `after` has `before`'s cells except for added `count_<type>` columns, which hold 0. */
  ghost predicate SameActivityBut(after: MergedRow, before: MergedRow) {
    && after.account == before.account
    && after.support == before.support
    && after.activity.eventCount == before.activity.eventCount
    && after.activity.eventTypes == before.activity.eventTypes
    && (forall t :: t in before.activity.countOf ==> (t in after.activity.countOf
          && after.activity.countOf[t] == before.activity.countOf[t]))
    && (forall t :: t in after.activity.countOf && t !in before.activity.countOf ==>
          after.activity.countOf[t] == Some(0))
  }

  lemma ExpectedRowsAgreeOnActivity(before: MergedRow, after: MergedRow, a: Account, events: seq<Event>, extra: seq<Event>, tickets: seq<Ticket>)
    requires ExpectedRow(before, a, events, tickets) && ExpectedRow(after, a, events + extra, tickets)
    requires var ek, ek' := EventKeyed(events), EventKeyed(events + extra);
      && GroupSize(ek', a.userId) == GroupSize(ek, a.userId)
      && CategorisedCount(ek', a.userId) == CategorisedCount(ek, a.userId)
      && UserEventTypes(events + extra, a.userId) == UserEventTypes(events, a.userId)
      && (forall t :: CategoryCount(ek', a.userId, t) == CategoryCount(ek, a.userId, t))
      && (forall t :: t in FanOutColumns(ek) ==> t in FanOutColumns(ek'))
      && (forall t :: t in FanOutColumns(ek') && t !in FanOutColumns(ek) ==> CategoryCount(ek', a.userId, t) == 0)
    ensures SameActivityBut(after, before)
  {
  }

  /**
   * Support rows without a user, or whose user has no account, reach no
   * output row: every row keeps its cells, and the columns they add hold 0.
   */
  lemma OrphanTicketsIgnored(accounts: seq<Account>, events: seq<Event>, tickets: seq<Ticket>, extra: seq<Ticket>)
    requires forall j :: 0 <= j < |extra| ==> Orphan(extra[j].userId, accounts)
    ensures var before, after := JoinedAndFilled(accounts, events, tickets), JoinedAndFilled(accounts, events, tickets + extra);
      && |before| == |after| == |accounts|
      && forall i :: 0 <= i < |accounts| ==> SameSupportBut(after[i], before[i])
  {
    var before, after := JoinedAndFilled(accounts, events, tickets), JoinedAndFilled(accounts, events, tickets + extra);
    JoinAndFillSpec(accounts, events, tickets);
    JoinAndFillSpec(accounts, events, tickets + extra);
    forall i | 0 <= i < |accounts|
      ensures SameSupportBut(after[i], before[i])
    {
      ForeignTicketsIgnored(tickets, extra, accounts[i].userId);
      ExpectedRowsAgreeOnSupport(before[i], after[i], accounts[i], events, tickets, extra);
    }
  }

  /** `after` has `before`'s cells except for added `tickets_<topic>` columns, which hold 0. */
  ghost predicate SameSupportBut(after: MergedRow, before: MergedRow) {
    && after.account == before.account
    && after.activity == before.activity
    && after.support.ticketCount == before.support.ticketCount
    && after.support.totalHours == before.support.totalHours
    && after.support.avgHours == before.support.avgHours
    && (forall p :: p in before.support.ticketsOf ==> (p in after.support.ticketsOf
          && after.support.ticketsOf[p] == before.support.ticketsOf[p]))
    && (forall p :: p in after.support.ticketsOf && p !in before.support.ticketsOf ==>
          after.support.ticketsOf[p] == Some(0))
  }

  lemma ExpectedRowsAgreeOnSupport(before: MergedRow, after: MergedRow, a: Account, events: seq<Event>, tickets: seq<Ticket>, extra: seq<Ticket>)
    requires ExpectedRow(before, a, events, tickets) && ExpectedRow(after, a, events, tickets + extra)
    requires var tk, tk' := TicketKeyed(tickets), TicketKeyed(tickets + extra);
      && ParsedTicketCount(tickets + extra, a.userId) == ParsedTicketCount(tickets, a.userId)
      && UserHours(tickets + extra, a.userId) == UserHours(tickets, a.userId)
      && (forall p :: CategoryCount(tk', a.userId, p) == CategoryCount(tk, a.userId, p))
      && (forall p :: p in FanOutColumns(tk) ==> p in FanOutColumns(tk'))
      && (forall p :: p in FanOutColumns(tk') && p !in FanOutColumns(tk) ==> CategoryCount(tk', a.userId, p) == 0)
    ensures SameSupportBut(after, before)
  {
  }
}
