/**
 * The per-user aggregates of the activity and support relations: `groupby`
 * on `user_id` with count/sum/mean reducers, and the one-hot fan-out
 * `groupby([user_id, category]).size().unstack(fill_value=0)` merged onto it.
 */
module Aggregate {
  import opened Wrappers
  import opened Records
  import opened Ordering
  import opened Text
  import opened Stats
  import opened Merge

  // ---------------------------------------------------------------------
  // A relation seen through its grouping key and its fan-out category
  // ---------------------------------------------------------------------

  /** One input row as `groupby` sees it: the `user_id` cell and the category cell (event type or topic). */
  datatype Keyed = Keyed(key: Option<int>, category: Option<string>)

  function EventKeyed(events: seq<Event>): seq<Keyed> {
    seq(|events|, i requires 0 <= i < |events| => Keyed(events[i].userId, events[i].eventType))
  }

  function TicketKeyed(tickets: seq<Ticket>): seq<Keyed> {
    seq(|tickets|, i requires 0 <= i < |tickets| => Keyed(tickets[i].userId, tickets[i].topic))
  }

  /** The non-missing keys, in row order (`groupby` drops rows whose key is missing). */
  function KeysOf(rows: seq<Keyed>): seq<int> {
    if rows == [] then []
    else (if rows[0].key.Some? then [rows[0].key.value] else []) + KeysOf(rows[1..])
  }

  /** The groups of `groupby("user_id")`: the distinct non-missing keys, ascending. */
  function GroupKeys(rows: seq<Keyed>): seq<int> {
    IntLessIsStrictTotalOrder();
    SortedDistinct(KeysOf(rows), IntLess)
  }

  /** Keys of the rows whose key and category are both present, in row order. */
  function PairKeysOf(rows: seq<Keyed>): seq<int> {
    if rows == [] then []
    else (if rows[0].key.Some? && rows[0].category.Some? then [rows[0].key.value] else []) + PairKeysOf(rows[1..])
  }

  /** Categories of the rows whose key and category are both present, in row order. */
  function CategoriesOf(rows: seq<Keyed>): seq<string> {
    if rows == [] then []
    else (if rows[0].key.Some? && rows[0].category.Some? then [rows[0].category.value] else []) + CategoriesOf(rows[1..])
  }

  /** The fan-out columns: every category seen on a keyed row, ascending (the columns `unstack` makes). */
  function FanOutColumns(rows: seq<Keyed>): seq<string> {
    LexLessIsStrictTotalOrder();
    SortedDistinct(CategoriesOf(rows), LexLess)
  }

  /** The index `unstack` makes: users with at least one row whose category is present, ascending. */
  function FanOutKeys(rows: seq<Keyed>): seq<int> {
    IntLessIsStrictTotalOrder();
    SortedDistinct(PairKeysOf(rows), IntLess)
  }

  /** Number of rows of user `u` (`size`). */
  function GroupSize(rows: seq<Keyed>, u: int): nat {
    if rows == [] then 0
    else (if rows[0].key == Some(u) then 1 else 0) + GroupSize(rows[1..], u)
  }

  /** Number of rows of user `u` whose category is present (the `count` reducer on the category column). */
  function CategorisedCount(rows: seq<Keyed>, u: int): nat {
    if rows == [] then 0
    else (if rows[0].key == Some(u) && rows[0].category.Some? then 1 else 0) + CategorisedCount(rows[1..], u)
  }

  /** Number of rows of user `u` in category `c` (one cell of the `size().unstack()` table). */
  function CategoryCount(rows: seq<Keyed>, u: int, c: string): nat {
    if rows == [] then 0
    else (if rows[0].key == Some(u) && rows[0].category == Some(c) then 1 else 0) + CategoryCount(rows[1..], u, c)
  }

  /** The category cells of user `u`'s rows, in row order, missing ones included. */
  function CategoryCells(rows: seq<Keyed>, u: int): seq<Option<string>> {
    if rows == [] then []
    else (if rows[0].key == Some(u) then [rows[0].category] else []) + CategoryCells(rows[1..], u)
  }

  /** The present values among some cells, in order. */
  function Present(cells: seq<Option<string>>): seq<string> {
    if cells == [] then []
    else (if cells[0].Some? then [cells[0].value] else []) + Present(cells[1..])
  }

  /** A row of the fan-out table: one count per fan-out column (`fill_value=0` for categories the user never had). */
  datatype FanOutRow = FanOutRow(userId: int, counts: map<string, nat>)

  function FanOutKey(r: FanOutRow): int { r.userId }

  /** `groupby([user_id, category]).size().unstack(fill_value=0)`. */
  function FanOutTable(rows: seq<Keyed>): seq<FanOutRow> {
    var columns := FanOutColumns(rows);
    var users := FanOutKeys(rows);
    seq(|users|, i requires 0 <= i < |users| =>
      FanOutRow(users[i], map c | c in columns :: CategoryCount(rows, users[i], c)))
  }

  /** The fan-out cells a row gets from the left merge onto the fan-out table: NaN (None) everywhere without a match. */
  function FanOutCells(columns: seq<string>, m: Option<FanOutRow>): map<string, Option<nat>> {
    map c | c in columns :: if m.Some? && c in m.value.counts then Some(m.value.counts[c]) else None
  }

  // ---------------------------------------------------------------------
  // Facts about grouping
  // ---------------------------------------------------------------------

  lemma {:induction false} KeysOfMembership(rows: seq<Keyed>, u: int)
    ensures u in KeysOf(rows) <==> GroupSize(rows, u) > 0
  {
    if rows != [] {
      KeysOfMembership(rows[1..], u);
    }
  }

  lemma {:induction false} PairKeysOfMembership(rows: seq<Keyed>, u: int)
    ensures u in PairKeysOf(rows) <==> CategorisedCount(rows, u) > 0
  {
    if rows != [] {
      PairKeysOfMembership(rows[1..], u);
    }
  }

  /** Every category of a keyed row is a fan-out column. */
  lemma {:induction false} CategoriesOfMembership(rows: seq<Keyed>, i: int)
    requires 0 <= i < |rows| && rows[i].key.Some? && rows[i].category.Some?
    ensures rows[i].category.value in CategoriesOf(rows)
  {
    if i > 0 {
      assert rows[i] == rows[1..][i - 1];
      CategoriesOfMembership(rows[1..], i - 1);
    }
  }

  /** Every fan-out column is the category of some keyed row. */
  lemma {:induction false} CategoriesOfWitness(rows: seq<Keyed>, c: string)
    requires c in CategoriesOf(rows)
    ensures exists i :: 0 <= i < |rows| && rows[i].key.Some? && rows[i].category == Some(c)
  {
    if !(rows[0].key.Some? && rows[0].category == Some(c)) {
      CategoriesOfWitness(rows[1..], c);
      var i :| 0 <= i < |rows[1..]| && rows[1..][i].key.Some? && rows[1..][i].category == Some(c);
      assert rows[i + 1] == rows[1..][i];
    }
  }

  /** The group keys are ascending, hence unique. */
  lemma GroupKeysIncreasing(rows: seq<Keyed>)
    ensures forall i, j :: 0 <= i < j < |GroupKeys(rows)| ==> GroupKeys(rows)[i] < GroupKeys(rows)[j]
  {
    IntLessIsStrictTotalOrder();
  }

  lemma FanOutTableUnique(rows: seq<Keyed>)
    ensures UniqueKeys(FanOutTable(rows), FanOutKey)
  {
    IntLessIsStrictTotalOrder();
    var users := FanOutKeys(rows);
    assert forall i, j :: 0 <= i < j < |users| ==> IntLess(users[i], users[j]);
  }

  /** The fan-out cells a user receives after the merge: its counts when it has a categorised row, NaN otherwise. */
  lemma FanOutCellsOfUser(rows: seq<Keyed>, u: int)
    ensures FanOutCells(FanOutColumns(rows), Find(FanOutTable(rows), FanOutKey, u))
         == map c | c in FanOutColumns(rows) :: if CategorisedCount(rows, u) > 0 then Some(CategoryCount(rows, u, c)) else None
  {
    var table := FanOutTable(rows);
    var users := FanOutKeys(rows);
    IntLessIsStrictTotalOrder();
    FanOutTableUnique(rows);
    PairKeysOfMembership(rows, u);
    if CategorisedCount(rows, u) > 0 {
      assert u in users;
      var i :| 0 <= i < |users| && users[i] == u;
      FindUnique(table, FanOutKey, i);
    }
  }

  // ---------------------------------------------------------------------
  // Activity: event_count, event_types and count_<event_type>
  // ---------------------------------------------------------------------

  /** `sorted(x.unique())` over user `u`'s present event types. */
  function UserTypeList(events: seq<Event>, u: int): seq<string> {
    LexLessIsStrictTotalOrder();
    SortedDistinct(Present(CategoryCells(EventKeyed(events), u)), LexLess)
  }

  /** `", ".join(sorted(x.unique()))` over user `u`'s present event types. */
  function UserEventTypes(events: seq<Event>, u: int): string {
    Join(UserTypeList(events, u), ", ")
  }

  /** A row of `activity_clean.groupby("user_id").agg(...)`. */
  datatype ActivityRow = ActivityRow(userId: int, eventCount: nat, eventTypes: string)

  function ActivityRowKey(r: ActivityRow): int { r.userId }

  function GroupActivity(events: seq<Event>): seq<ActivityRow> {
    var users := GroupKeys(EventKeyed(events));
    seq(|users|, i requires 0 <= i < |users| =>
      ActivityRow(users[i], CategorisedCount(EventKeyed(events), users[i]), UserEventTypes(events, users[i])))
  }

  /** The activity cells of one merged row; `countOf` maps each event type to its `count_<type>` cell. */
  datatype ActivityCells = ActivityCells(eventCount: Option<nat>, eventTypes: Option<string>, countOf: map<string, Option<nat>>)

  /** A row of `activity_agg` after its merge with the fan-out table. */
  datatype ActivityAgg = ActivityAgg(userId: int, cells: ActivityCells)

  function ActivityAggKey(r: ActivityAgg): int { r.userId }

  /** `activity_agg` with its column list: the fan-out event types, ascending. */
  datatype ActivityFrame = ActivityFrame(eventTypeColumns: seq<string>, rows: seq<ActivityAgg>)

  function CombineActivity(columns: seq<string>, p: (ActivityRow, Option<FanOutRow>)): ActivityAgg {
    ActivityAgg(p.0.userId, ActivityCells(Some(p.0.eventCount), Some(p.0.eventTypes), FanOutCells(columns, p.1)))
  }

  /** Lines 100-106: the grouped activity, left-merged with the event-type fan-out. */
  function AggregateActivity(events: seq<Event>): ActivityFrame {
    var keyed := EventKeyed(events);
    var columns := FanOutColumns(keyed);
    var merged := LeftMerge(GroupActivity(events), FanOutTable(keyed), ActivityRowKey, FanOutKey);
    ActivityFrame(columns, seq(|merged|, i requires 0 <= i < |merged| => CombineActivity(columns, merged[i])))
  }

  /** The activity cells of user `u`, computed directly from the relation. */
  function ActivityCellsFor(events: seq<Event>, u: int): ActivityCells {
    var keyed := EventKeyed(events);
    var n := CategorisedCount(keyed, u);
    ActivityCells(Some(n), Some(UserEventTypes(events, u)),
                  map t | t in FanOutColumns(keyed) :: if n > 0 then Some(CategoryCount(keyed, u, t)) else None)
  }

  /**
   * `activity_agg` holds one row per user with a non-missing `user_id`, in
   * ascending order, each carrying that user's counts as computed directly
   * from the relation; its keys are unique.
   */
  lemma AggregateActivitySpec(events: seq<Event>)
    ensures var f := AggregateActivity(events);
      var users := GroupKeys(EventKeyed(events));
      && f.eventTypeColumns == FanOutColumns(EventKeyed(events))
      && |f.rows| == |users|
      && (forall i :: 0 <= i < |users| ==> f.rows[i] == ActivityAgg(users[i], ActivityCellsFor(events, users[i])))
      && UniqueKeys(f.rows, ActivityAggKey)
  {
    var keyed := EventKeyed(events);
    var users := GroupKeys(keyed);
    var table := FanOutTable(keyed);
    var grouped := GroupActivity(events);
    FanOutTableUnique(keyed);
    LeftMergeUnique(grouped, table, ActivityRowKey, FanOutKey);
    var f := AggregateActivity(events);
    forall i | 0 <= i < |users| ensures f.rows[i] == ActivityAgg(users[i], ActivityCellsFor(events, users[i])) {
      FanOutCellsOfUser(keyed, users[i]);
    }
    GroupKeysIncreasing(keyed);
  }

  /** A present value is among the present values exactly when some cell holds it. */
  lemma {:induction false} PresentMembership(cells: seq<Option<string>>, t: string)
    ensures t in Present(cells) <==> Some(t) in cells
  {
    if cells != [] {
      PresentMembership(cells[1..], t);
      assert cells == [cells[0]] + cells[1..];
    }
  }

  /** User `u` has a cell holding `t` exactly when it has a row in category `t`. */
  lemma {:induction false} CategoryCellsMembership(rows: seq<Keyed>, u: int, t: string)
    ensures Some(t) in CategoryCells(rows, u) <==> CategoryCount(rows, u, t) > 0
  {
    if rows != [] {
      CategoryCellsMembership(rows[1..], u, t);
    }
  }

  lemma {:induction false} FirstCategorised(rows: seq<Keyed>, u: int) returns (i: int)
    requires CategorisedCount(rows, u) > 0
    ensures 0 <= i < |rows| && rows[i].key == Some(u) && rows[i].category.Some?
  {
    if rows[0].key == Some(u) && rows[0].category.Some? {
      i := 0;
    } else {
      var j := FirstCategorised(rows[1..], u);
      i := j + 1;
    }
  }

  /**
   * `event_types` is the `", "`-join of a strictly increasing list holding
   * exactly the event types in which the user has a row; a user whose rows
   * all lack a type gets the empty text.
   */
  lemma UserEventTypesSpec(events: seq<Event>, u: int)
    ensures CategorisedCount(EventKeyed(events), u) == 0 ==> UserEventTypes(events, u) == ""
    ensures exists types: seq<string> ::
      && UserEventTypes(events, u) == Join(types, ", ")
      && Increasing(types, LexLess)
      && forall t :: t in types <==> CategoryCount(EventKeyed(events), u, t) > 0
  {
    var keyed := EventKeyed(events);
    var items := UserTypeList(events, u);
    UserTypeListMembership(events, u);
    assert UserEventTypes(events, u) == Join(items, ", ");
    if CategorisedCount(keyed, u) == 0 {
      forall t ensures CategoryCount(keyed, u, t) == 0 {
        CountsBounded(keyed, u, t);
      }
      assert forall k :: 0 <= k < |items| ==> items[k] in items;
    }
  }

  /**
   * When none of the user's event types holds a comma and the user has a
   * typed row, splitting `event_types` at `", "` gives back its types,
   * ascending and each once.
   */
  lemma UserEventTypesSplit(events: seq<Event>, u: int)
    requires CategorisedCount(EventKeyed(events), u) > 0
    requires forall i :: 0 <= i < |events| && events[i].userId == Some(u) && events[i].eventType.Some? ==>
      ',' !in events[i].eventType.value
    ensures var types := SplitCommaSpace(UserEventTypes(events, u));
      && Increasing(types, LexLess)
      && forall t :: t in types <==> CategoryCount(EventKeyed(events), u, t) > 0
  {
    var keyed := EventKeyed(events);
    var items := UserTypeList(events, u);
    UserTypeListMembership(events, u);
    var i := FirstCategorised(keyed, u);
    CategoryCountAt(keyed, u, i);
    assert keyed[i].category.value in items;
    assert CommaFree(items) by {
      forall j, k | 0 <= j < |items| && 0 <= k < |items[j]| ensures items[j][k] != ',' {
        var r := FirstInCategory(keyed, u, items[j]);
        assert keyed[r] == Keyed(events[r].userId, events[r].eventType);
      }
    }
    SplitJoin(items);
  }

  /** The sorted list holds exactly the event types in which the user has a row. */
  lemma UserTypeListMembership(events: seq<Event>, u: int)
    ensures forall t :: t in UserTypeList(events, u) <==> CategoryCount(EventKeyed(events), u, t) > 0
  {
    var keyed := EventKeyed(events);
    var cells := CategoryCells(keyed, u);
    forall t ensures t in UserTypeList(events, u) <==> CategoryCount(keyed, u, t) > 0 {
      PresentMembership(cells, t);
      CategoryCellsMembership(keyed, u, t);
    }
  }

  /** A row of `u` in a category counts towards that category. */
  lemma {:induction false} CategoryCountAt(rows: seq<Keyed>, u: int, i: int)
    requires 0 <= i < |rows| && rows[i].key == Some(u) && rows[i].category.Some?
    ensures CategoryCount(rows, u, rows[i].category.value) > 0
  {
    if i > 0 {
      assert rows[1..][i - 1] == rows[i];
      CategoryCountAt(rows[1..], u, i - 1);
    }
  }

  // ---------------------------------------------------------------------
  // The event_types lambda as written (a missing event type aborts the run)
  // ---------------------------------------------------------------------

  /**
   * `", ".join(sorted(x.unique()))` as the source writes it, where `x` is the
   * user's `event_type` Series. A missing cell is NaN in `x.unique()`:
   * `sorted` cannot compare a float with a string, and `join` refuses a float,
   * so the run aborts with a TypeError.
   */
  function EventTypesAsWritten(cells: seq<Option<string>>, u: int): Result<string, Error> {
    LexLessIsStrictTotalOrder();
    if None in cells then Failure(UnorderableEventTypes(u))
    else Success(Join(SortedDistinct(Present(cells), LexLess), ", "))
  }

  /** The as-written lambda aborts exactly when the user has a row with a missing event type, and otherwise agrees with the corrected one. */
  lemma EventTypesAsWrittenSpec(events: seq<Event>, u: int)
    ensures EventTypesAsWritten(CategoryCells(EventKeyed(events), u), u).Failure?
        <==> exists i :: 0 <= i < |events| && events[i].userId == Some(u) && events[i].eventType.None?
    ensures EventTypesAsWritten(CategoryCells(EventKeyed(events), u), u).Success?
        ==> EventTypesAsWritten(CategoryCells(EventKeyed(events), u), u).value == UserEventTypes(events, u)
  {
    var keyed := EventKeyed(events);
    NoneInCategoryCells(keyed, u);
    forall i | 0 <= i < |events| ensures keyed[i] == Keyed(events[i].userId, events[i].eventType) {
    }
  }

  lemma {:induction false} NoneInCategoryCells(rows: seq<Keyed>, u: int)
    ensures None in CategoryCells(rows, u) <==> exists i :: 0 <= i < |rows| && rows[i].key == Some(u) && rows[i].category.None?
  {
    if rows != [] {
      NoneInCategoryCells(rows[1..], u);
      if exists i :: 0 <= i < |rows[1..]| && rows[1..][i].key == Some(u) && rows[1..][i].category.None? {
        var i :| 0 <= i < |rows[1..]| && rows[1..][i].key == Some(u) && rows[1..][i].category.None?;
        assert rows[i + 1] == rows[1..][i];
      }
      if exists i :: 0 <= i < |rows| && rows[i].key == Some(u) && rows[i].category.None? {
        var i :| 0 <= i < |rows| && rows[i].key == Some(u) && rows[i].category.None?;
        if i > 0 {
          assert rows[1..][i - 1] == rows[i];
        }
      }
    }
  }

  /**
   * A single activity row with a user and no event type: the as-written
   * lambda aborts the run, while the corrected aggregate gives that user
   * `event_count` 0 and an empty `event_types`.
   */
  lemma NullEventTypeAborts()
    ensures var events := [Event(Some(1), None, None)];
      && EventTypesAsWritten(CategoryCells(EventKeyed(events), 1), 1) == Failure(UnorderableEventTypes(1))
      && ActivityCellsFor(events, 1).eventCount == Some(0)
      && ActivityCellsFor(events, 1).eventTypes == Some("")
  {
    var events := [Event(Some(1), None, None)];
    var keyed := EventKeyed(events);
    assert keyed == [Keyed(Some(1), None)];
    assert CategoryCells(keyed, 1) == [None];
    assert Present(CategoryCells(keyed, 1)) == [];
  }

  // ---------------------------------------------------------------------
  // Support: ticket_count, resolution hours and tickets_<topic>
  // ---------------------------------------------------------------------

  /** Rows of user `u` whose `ticket_time` parsed (the `count` reducer on the coerced timestamp). */
  function ParsedTicketCount(tickets: seq<Ticket>, u: int): nat {
    if tickets == [] then 0
    else (if tickets[0].userId == Some(u) && tickets[0].ticketTime.Some? then 1 else 0) + ParsedTicketCount(tickets[1..], u)
  }

  /** The present resolution hours of user `u`'s rows, in order (what `sum` and `mean` see after skipping NaN). */
  function UserHours(tickets: seq<Ticket>, u: int): seq<real> {
    if tickets == [] then []
    else (if tickets[0].userId == Some(u) && tickets[0].resolutionHours.Some? then [tickets[0].resolutionHours.value] else [])
         + UserHours(tickets[1..], u)
  }

  /** A row of `support_clean.groupby("user_id").agg(...)`; `avgHours` is NaN (None) when no hours are present. */
  datatype SupportRow = SupportRow(userId: int, ticketCount: nat, totalHours: real, avgHours: Option<real>)

  function SupportRowKey(r: SupportRow): int { r.userId }

  function GroupSupport(tickets: seq<Ticket>): seq<SupportRow> {
    var users := GroupKeys(TicketKeyed(tickets));
    seq(|users|, i requires 0 <= i < |users| =>
      SupportRow(users[i], ParsedTicketCount(tickets, users[i]), Sum(UserHours(tickets, users[i])),
                 Mean(UserHours(tickets, users[i]))))
  }

  /** The support cells of one merged row; `ticketsOf` maps each topic to its `tickets_<topic>` cell. */
  datatype SupportCells = SupportCells(
    ticketCount: Option<nat>,
    totalHours: Option<real>,
    avgHours: Option<real>,
    ticketsOf: map<string, Option<nat>>)

  /** A row of `support_agg` after its merge with the topic fan-out. */
  datatype SupportAgg = SupportAgg(userId: int, cells: SupportCells)

  function SupportAggKey(r: SupportAgg): int { r.userId }

  /** `support_agg` with its column list: the fan-out topics, ascending. */
  datatype SupportFrame = SupportFrame(topicColumns: seq<string>, rows: seq<SupportAgg>)

  function CombineSupport(columns: seq<string>, p: (SupportRow, Option<FanOutRow>)): SupportAgg {
    SupportAgg(p.0.userId, SupportCells(Some(p.0.ticketCount), Some(p.0.totalHours), p.0.avgHours, FanOutCells(columns, p.1)))
  }

  /** Lines 108-115: the grouped support tickets, left-merged with the topic fan-out. */
  function AggregateSupport(tickets: seq<Ticket>): SupportFrame {
    var keyed := TicketKeyed(tickets);
    var columns := FanOutColumns(keyed);
    var merged := LeftMerge(GroupSupport(tickets), FanOutTable(keyed), SupportRowKey, FanOutKey);
    SupportFrame(columns, seq(|merged|, i requires 0 <= i < |merged| => CombineSupport(columns, merged[i])))
  }

  /** The support cells of user `u`, computed directly from the relation. */
  function SupportCellsFor(tickets: seq<Ticket>, u: int): SupportCells {
    var keyed := TicketKeyed(tickets);
    var n := CategorisedCount(keyed, u);
    SupportCells(Some(ParsedTicketCount(tickets, u)), Some(Sum(UserHours(tickets, u))), Mean(UserHours(tickets, u)),
                 map p | p in FanOutColumns(keyed) :: if n > 0 then Some(CategoryCount(keyed, u, p)) else None)
  }

  /**
   * `support_agg` holds one row per user with a non-missing `user_id`, in
   * ascending order, each carrying that user's ticket aggregates as computed
   * directly from the relation; its keys are unique.
   */
  lemma AggregateSupportSpec(tickets: seq<Ticket>)
    ensures var f := AggregateSupport(tickets);
      var users := GroupKeys(TicketKeyed(tickets));
      && f.topicColumns == FanOutColumns(TicketKeyed(tickets))
      && |f.rows| == |users|
      && (forall i :: 0 <= i < |users| ==> f.rows[i] == SupportAgg(users[i], SupportCellsFor(tickets, users[i])))
      && UniqueKeys(f.rows, SupportAggKey)
  {
    var keyed := TicketKeyed(tickets);
    var users := GroupKeys(keyed);
    var table := FanOutTable(keyed);
    var grouped := GroupSupport(tickets);
    FanOutTableUnique(keyed);
    LeftMergeUnique(grouped, table, SupportRowKey, FanOutKey);
    var f := AggregateSupport(tickets);
    forall i | 0 <= i < |users| ensures f.rows[i] == SupportAgg(users[i], SupportCellsFor(tickets, users[i])) {
      FanOutCellsOfUser(keyed, users[i]);
    }
    GroupKeysIncreasing(keyed);
  }

  // ---------------------------------------------------------------------
  // Counting facts
  // ---------------------------------------------------------------------

  /** A category count never exceeds the user's categorised rows, nor those its group size. */
  lemma {:induction false} CountsBounded(rows: seq<Keyed>, u: int, c: string)
    ensures CategoryCount(rows, u, c) <= CategorisedCount(rows, u) <= GroupSize(rows, u)
  {
    if rows != [] {
      CountsBounded(rows[1..], u, c);
    }
  }

  /** `ticket_count` never exceeds the user's tickets; a user with no tickets has no resolution hours. */
  lemma {:induction false} ParsedTicketsBounded(tickets: seq<Ticket>, u: int)
    ensures ParsedTicketCount(tickets, u) <= GroupSize(TicketKeyed(tickets), u)
    ensures GroupSize(TicketKeyed(tickets), u) == 0 ==> UserHours(tickets, u) == []
  {
    if tickets != [] {
      assert TicketKeyed(tickets)[1..] == TicketKeyed(tickets[1..]);
      ParsedTicketsBounded(tickets[1..], u);
    }
  }

  /** The aggregate row the merge finds for user `u`: its own when it has an activity row with a user id, none otherwise. */
  lemma FindActivity(events: seq<Event>, u: int)
    ensures Find(AggregateActivity(events).rows, ActivityAggKey, u)
         == if GroupSize(EventKeyed(events), u) > 0 then Some(ActivityAgg(u, ActivityCellsFor(events, u))) else None
  {
    var keyed := EventKeyed(events);
    var users := GroupKeys(keyed);
    var rows := AggregateActivity(events).rows;
    AggregateActivitySpec(events);
    KeysOfMembership(keyed, u);
    IntLessIsStrictTotalOrder();
    if GroupSize(keyed, u) > 0 {
      var i :| 0 <= i < |users| && users[i] == u;
      FindUnique(rows, ActivityAggKey, i);
    } else {
      assert forall i :: 0 <= i < |rows| ==> rows[i].userId != u;
    }
  }

  /** The aggregate row the merge finds for user `u`: its own when it has a support row with a user id, none otherwise. */
  lemma FindSupport(tickets: seq<Ticket>, u: int)
    ensures Find(AggregateSupport(tickets).rows, SupportAggKey, u)
         == if GroupSize(TicketKeyed(tickets), u) > 0 then Some(SupportAgg(u, SupportCellsFor(tickets, u))) else None
  {
    var keyed := TicketKeyed(tickets);
    var users := GroupKeys(keyed);
    var rows := AggregateSupport(tickets).rows;
    AggregateSupportSpec(tickets);
    KeysOfMembership(keyed, u);
    IntLessIsStrictTotalOrder();
    if GroupSize(keyed, u) > 0 {
      var i :| 0 <= i < |users| && users[i] == u;
      FindUnique(rows, SupportAggKey, i);
    } else {
      assert forall i :: 0 <= i < |rows| ==> rows[i].userId != u;
    }
  }

  // ---------------------------------------------------------------------
  // How the columns of one user relate
  // ---------------------------------------------------------------------

  /** The total of user `u`'s category counts over the columns `cols`. */
  function CountsTotal(rows: seq<Keyed>, u: int, cols: seq<string>): nat {
    if cols == [] then 0 else CategoryCount(rows, u, cols[0]) + CountsTotal(rows, u, cols[1..])
  }

  /** How many of the columns `cols` row `r` counts towards for user `u`. */
  function Hits(r: Keyed, u: int, cols: seq<string>): nat {
    if cols == [] then 0
    else (if r.key == Some(u) && r.category == Some(cols[0]) then 1 else 0) + Hits(r, u, cols[1..])
  }

  lemma {:induction false} CountsTotalStep(rows: seq<Keyed>, u: int, cols: seq<string>)
    requires rows != []
    ensures CountsTotal(rows, u, cols) == Hits(rows[0], u, cols) + CountsTotal(rows[1..], u, cols)
  {
    if cols != [] {
      CountsTotalStep(rows, u, cols[1..]);
    }
  }

  /** Over distinct columns that include its category, a categorised row of `u` counts exactly once. */
  lemma {:induction false} HitsOnce(r: Keyed, u: int, cols: seq<string>)
    requires forall i, j :: 0 <= i < j < |cols| ==> cols[i] != cols[j]
    ensures Hits(r, u, cols) == if r.key == Some(u) && r.category.Some? && r.category.value in cols then 1 else 0
  {
    if cols != [] {
      HitsOnce(r, u, cols[1..]);
      if r.category == Some(cols[0]) {
        assert cols[0] !in cols[1..];
      }
    }
  }

  /**
   * Over distinct columns holding every category of `u`'s rows, the category
   * counts of `u` add up to its categorised rows.
   */
  lemma {:induction false} CountsTotalIsCategorised(rows: seq<Keyed>, u: int, cols: seq<string>)
    requires forall i, j :: 0 <= i < j < |cols| ==> cols[i] != cols[j]
    requires forall i :: 0 <= i < |rows| && rows[i].key == Some(u) && rows[i].category.Some? ==> rows[i].category.value in cols
    ensures CountsTotal(rows, u, cols) == CategorisedCount(rows, u)
  {
    if rows == [] {
      CountsTotalEmpty(u, cols);
    } else {
      CountsTotalStep(rows, u, cols);
      HitsOnce(rows[0], u, cols);
      assert forall i :: 0 <= i < |rows[1..]| ==> rows[1..][i] == rows[i + 1];
      CountsTotalIsCategorised(rows[1..], u, cols);
    }
  }

  lemma {:induction false} CountsTotalEmpty(u: int, cols: seq<string>)
    ensures CountsTotal([], u, cols) == 0
  {
    if cols != [] {
      CountsTotalEmpty(u, cols[1..]);
    }
  }

  /** No fan-out column occurs twice. */
  lemma FanOutColumnsDistinct(rows: seq<Keyed>)
    ensures forall i, j :: 0 <= i < j < |FanOutColumns(rows)| ==> FanOutColumns(rows)[i] != FanOutColumns(rows)[j]
  {
    var cols := FanOutColumns(rows);
    LexLessIsStrictTotalOrder();
    forall i, j | 0 <= i < j < |cols| ensures cols[i] != cols[j] {
      IncreasingIsDistinct(cols, LexLess, i, j);
    }
  }

  /** `event_count` is the sum of the user's `count_<type>` cells over all fan-out columns. */
  lemma EventCountIsSumOfCounts(events: seq<Event>, u: int)
    ensures CountsTotal(EventKeyed(events), u, FanOutColumns(EventKeyed(events))) == CategorisedCount(EventKeyed(events), u)
  {
    var keyed := EventKeyed(events);
    LexLessIsStrictTotalOrder();
    FanOutColumnsDistinct(keyed);
    forall i | 0 <= i < |keyed| && keyed[i].key == Some(u) && keyed[i].category.Some?
      ensures keyed[i].category.value in FanOutColumns(keyed)
    {
      CategoriesOfMembership(keyed, i);
    }
    CountsTotalIsCategorised(keyed, u, FanOutColumns(keyed));
  }

  /** Rows of user `u` whose `ticket_time` did not parse. */
  function UnparsedTicketCount(tickets: seq<Ticket>, u: int): nat {
    if tickets == [] then 0
    else (if tickets[0].userId == Some(u) && tickets[0].ticketTime.None? then 1 else 0) + UnparsedTicketCount(tickets[1..], u)
  }

  /**
   * Every ticket of `u` is either counted by `ticket_count` or has an
   * unparsable time, and either has a topic or is left out of every
   * `tickets_<topic>` column.
   */
  lemma {:induction false} TicketCountIdentities(tickets: seq<Ticket>, u: int)
    ensures ParsedTicketCount(tickets, u) + UnparsedTicketCount(tickets, u) == GroupSize(TicketKeyed(tickets), u)
    ensures CategorisedCount(TicketKeyed(tickets), u) + NullTopicCount(tickets, u) == GroupSize(TicketKeyed(tickets), u)
  {
    if tickets != [] {
      assert TicketKeyed(tickets)[1..] == TicketKeyed(tickets[1..]);
      TicketCountIdentities(tickets[1..], u);
    }
  }

  /** Rows of user `u` without a topic. */
  function NullTopicCount(tickets: seq<Ticket>, u: int): nat {
    if tickets == [] then 0
    else (if tickets[0].userId == Some(u) && tickets[0].topic.None? then 1 else 0) + NullTopicCount(tickets[1..], u)
  }

  /** The user's `tickets_<topic>` cells add up to its tickets with a topic. */
  lemma TicketsAreSumOfTopics(tickets: seq<Ticket>, u: int)
    ensures CountsTotal(TicketKeyed(tickets), u, FanOutColumns(TicketKeyed(tickets))) == CategorisedCount(TicketKeyed(tickets), u)
  {
    var keyed := TicketKeyed(tickets);
    LexLessIsStrictTotalOrder();
    FanOutColumnsDistinct(keyed);
    forall i | 0 <= i < |keyed| && keyed[i].key == Some(u) && keyed[i].category.Some?
      ensures keyed[i].category.value in FanOutColumns(keyed)
    {
      CategoriesOfMembership(keyed, i);
    }
    CountsTotalIsCategorised(keyed, u, FanOutColumns(keyed));
  }

  /**
   * One ticket whose time does not parse: `ticket_count` is 0 while
   * `tickets_billing` is 1, so the topic columns can add up to more than
   * `ticket_count`.
   */
  lemma TopicsCanExceedTicketCount()
    ensures var tickets := [Ticket(Some(7), None, Some("email"), Some("billing"), None, Some(0), None)];
      && ParsedTicketCount(tickets, 7) == 0
      && FanOutColumns(TicketKeyed(tickets)) == ["billing"]
      && CategoryCount(TicketKeyed(tickets), 7, "billing") == 1
  {
    var tickets := [Ticket(Some(7), None, Some("email"), Some("billing"), None, Some(0), None)];
    var keyed := TicketKeyed(tickets);
    assert keyed == [Keyed(Some(7), Some("billing"))];
    assert CategoriesOf(keyed) == ["billing"];
    LexLessIsStrictTotalOrder();
    var cols := FanOutColumns(keyed);
    assert "billing" in cols;
    assert forall c :: c in cols ==> c == "billing";
    FanOutColumnsDistinct(keyed);
  }

  // ---------------------------------------------------------------------
  // Rows of other users
  // ---------------------------------------------------------------------

  /** Rows none of which belongs to user `u` (a missing key belongs to nobody). */
  ghost predicate Foreign(rows: seq<Keyed>, u: int) {
    forall i :: 0 <= i < |rows| ==> rows[i].key != Some(u)
  }

  lemma {:induction false} ForeignRowsCountNothing(extra: seq<Keyed>, u: int)
    requires Foreign(extra, u)
    ensures GroupSize(extra, u) == 0 && CategorisedCount(extra, u) == 0 && CategoryCells(extra, u) == []
    ensures forall c :: CategoryCount(extra, u, c) == 0
  {
    if extra != [] {
      assert forall i :: 0 <= i < |extra[1..]| ==> extra[1..][i] == extra[i + 1];
      ForeignRowsCountNothing(extra[1..], u);
    }
  }

  /** Appending rows of other users (or without a user) leaves everything counted for `u` as it was. */
  lemma {:induction false} ForeignRowsIgnored(rows: seq<Keyed>, extra: seq<Keyed>, u: int)
    requires Foreign(extra, u)
    ensures GroupSize(rows + extra, u) == GroupSize(rows, u)
    ensures CategorisedCount(rows + extra, u) == CategorisedCount(rows, u)
    ensures CategoryCells(rows + extra, u) == CategoryCells(rows, u)
    ensures forall c :: CategoryCount(rows + extra, u, c) == CategoryCount(rows, u, c)
  {
    if rows == [] {
      assert rows + extra == extra;
      ForeignRowsCountNothing(extra, u);
    } else {
      assert (rows + extra)[1..] == rows[1..] + extra;
      ForeignRowsIgnored(rows[1..], extra, u);
    }
  }

  lemma EventKeyedAppend(events: seq<Event>, extra: seq<Event>)
    ensures EventKeyed(events + extra) == EventKeyed(events) + EventKeyed(extra)
  {
  }

  /**
   * Activity rows of other users, or without a user, change none of `u`'s
   * activity cells except by adding fan-out columns, in which `u` counts 0.
   */
  lemma ForeignEventsIgnored(events: seq<Event>, extra: seq<Event>, u: int)
    requires forall i :: 0 <= i < |extra| ==> extra[i].userId != Some(u)
    ensures var before, after := EventKeyed(events), EventKeyed(events + extra);
      && GroupSize(after, u) == GroupSize(before, u)
      && CategorisedCount(after, u) == CategorisedCount(before, u)
      && UserEventTypes(events + extra, u) == UserEventTypes(events, u)
      && (forall t :: CategoryCount(after, u, t) == CategoryCount(before, u, t))
      && (forall t :: t in FanOutColumns(before) ==> t in FanOutColumns(after))
      && (forall t :: t in FanOutColumns(after) && t !in FanOutColumns(before) ==> CategoryCount(after, u, t) == 0)
  {
    var before, added := EventKeyed(events), EventKeyed(extra);
    EventKeyedAppend(events, extra);
    ForeignRowsIgnored(before, added, u);
    LexLessIsStrictTotalOrder();
    forall t | t in FanOutColumns(before) ensures t in FanOutColumns(before + added) {
      CategoriesOfWitness(before, t);
      var i :| 0 <= i < |before| && before[i].key.Some? && before[i].category == Some(t);
      assert (before + added)[i] == before[i];
      CategoriesOfMembership(before + added, i);
    }
    forall t | t !in FanOutColumns(before) ensures CategoryCount(before, u, t) == 0 {
      CategoryCountWitness(before, u, t);
    }
  }

  /** A user with a row in category `c` has `c` among the fan-out columns. */
  lemma {:induction false} CategoryCountWitness(rows: seq<Keyed>, u: int, c: string)
    ensures CategoryCount(rows, u, c) > 0 ==> c in FanOutColumns(rows)
  {
    LexLessIsStrictTotalOrder();
    if CategoryCount(rows, u, c) > 0 {
      var i := FirstInCategory(rows, u, c);
      CategoriesOfMembership(rows, i);
    }
  }

  lemma {:induction false} FirstInCategory(rows: seq<Keyed>, u: int, c: string) returns (i: int)
    requires CategoryCount(rows, u, c) > 0
    ensures 0 <= i < |rows| && rows[i].key == Some(u) && rows[i].category == Some(c)
  {
    if rows[0].key == Some(u) && rows[0].category == Some(c) {
      i := 0;
    } else {
      var j := FirstInCategory(rows[1..], u, c);
      i := j + 1;
    }
  }

  lemma TicketKeyedAppend(tickets: seq<Ticket>, extra: seq<Ticket>)
    ensures TicketKeyed(tickets + extra) == TicketKeyed(tickets) + TicketKeyed(extra)
  {
  }

  lemma {:induction false} ForeignTicketsMeasured(tickets: seq<Ticket>, extra: seq<Ticket>, u: int)
    requires forall i :: 0 <= i < |extra| ==> extra[i].userId != Some(u)
    ensures ParsedTicketCount(tickets + extra, u) == ParsedTicketCount(tickets, u)
    ensures UserHours(tickets + extra, u) == UserHours(tickets, u)
  {
    if tickets == [] {
      assert tickets + extra == extra;
      ForeignTicketsMeasureNothing(extra, u);
    } else {
      assert (tickets + extra)[1..] == tickets[1..] + extra;
      ForeignTicketsMeasured(tickets[1..], extra, u);
    }
  }

  lemma {:induction false} ForeignTicketsMeasureNothing(extra: seq<Ticket>, u: int)
    requires forall i :: 0 <= i < |extra| ==> extra[i].userId != Some(u)
    ensures ParsedTicketCount(extra, u) == 0 && UserHours(extra, u) == []
  {
    if extra != [] {
      assert forall i :: 0 <= i < |extra[1..]| ==> extra[1..][i] == extra[i + 1];
      ForeignTicketsMeasureNothing(extra[1..], u);
    }
  }

  /**
   * Support rows of other users, or without a user, change none of `u`'s
   * support cells except by adding fan-out columns, in which `u` counts 0.
   */
  lemma ForeignTicketsIgnored(tickets: seq<Ticket>, extra: seq<Ticket>, u: int)
    requires forall i :: 0 <= i < |extra| ==> extra[i].userId != Some(u)
    ensures var before, after := TicketKeyed(tickets), TicketKeyed(tickets + extra);
      && GroupSize(after, u) == GroupSize(before, u)
      && ParsedTicketCount(tickets + extra, u) == ParsedTicketCount(tickets, u)
      && UserHours(tickets + extra, u) == UserHours(tickets, u)
      && (forall p :: CategoryCount(after, u, p) == CategoryCount(before, u, p))
      && (forall p :: p in FanOutColumns(before) ==> p in FanOutColumns(after))
      && (forall p :: p in FanOutColumns(after) && p !in FanOutColumns(before) ==> CategoryCount(after, u, p) == 0)
  {
    var before, added := TicketKeyed(tickets), TicketKeyed(extra);
    TicketKeyedAppend(tickets, extra);
    ForeignRowsIgnored(before, added, u);
    ForeignTicketsMeasured(tickets, extra, u);
    forall p | p in FanOutColumns(before) ensures p in FanOutColumns(before + added) {
      CategoriesOfWitness(before, p);
      var i :| 0 <= i < |before| && before[i].key.Some? && before[i].category == Some(p);
      assert (before + added)[i] == before[i];
      CategoriesOfMembership(before + added, i);
    }
    forall p | p !in FanOutColumns(before) ensures CategoryCount(before, u, p) == 0 {
      CategoryCountWitness(before, u, p);
    }
  }

  // ---------------------------------------------------------------------
  // Conservation: every categorised activity row is counted exactly once
  // ---------------------------------------------------------------------

  /** Rows whose key and category are both present. */
  function CategorisedRows(rows: seq<Keyed>): nat {
    if rows == [] then 0
    else (if rows[0].key.Some? && rows[0].category.Some? then 1 else 0) + CategorisedRows(rows[1..])
  }

  /** The categorised rows of the users `us`, user by user. */
  function UsersTotal(rows: seq<Keyed>, us: seq<int>): nat {
    if us == [] then 0 else CategorisedCount(rows, us[0]) + UsersTotal(rows, us[1..])
  }

  /** How many of the users `us` row `r` counts towards. */
  function UserHits(r: Keyed, us: seq<int>): nat {
    if us == [] then 0
    else (if r.key == Some(us[0]) && r.category.Some? then 1 else 0) + UserHits(r, us[1..])
  }

  lemma {:induction false} UsersTotalStep(rows: seq<Keyed>, us: seq<int>)
    requires rows != []
    ensures UsersTotal(rows, us) == UserHits(rows[0], us) + UsersTotal(rows[1..], us)
  {
    if us != [] {
      UsersTotalStep(rows, us[1..]);
    }
  }

  lemma {:induction false} UserHitsOnce(r: Keyed, us: seq<int>)
    requires forall i, j :: 0 <= i < j < |us| ==> us[i] != us[j]
    ensures UserHits(r, us) == if r.key.Some? && r.category.Some? && r.key.value in us then 1 else 0
  {
    if us != [] {
      UserHitsOnce(r, us[1..]);
      if r.key == Some(us[0]) {
        assert us[0] !in us[1..];
      }
    }
  }

  lemma {:induction false} UsersTotalIsCategorised(rows: seq<Keyed>, us: seq<int>)
    requires forall i, j :: 0 <= i < j < |us| ==> us[i] != us[j]
    requires forall i :: 0 <= i < |rows| && rows[i].key.Some? ==> rows[i].key.value in us
    ensures UsersTotal(rows, us) == CategorisedRows(rows)
  {
    if rows == [] {
      UsersTotalEmpty(us);
    } else {
      UsersTotalStep(rows, us);
      UserHitsOnce(rows[0], us);
      assert forall i :: 0 <= i < |rows[1..]| ==> rows[1..][i] == rows[i + 1];
      UsersTotalIsCategorised(rows[1..], us);
    }
  }

  lemma {:induction false} UsersTotalEmpty(us: seq<int>)
    ensures UsersTotal([], us) == 0
  {
    if us != [] {
      UsersTotalEmpty(us[1..]);
    }
  }

  /** The `event_count` column of `activity_agg`, summed. */
  function EventCountTotal(aggs: seq<ActivityAgg>): nat {
    if aggs == [] then 0 else aggs[0].cells.eventCount.GetOr(0) + EventCountTotal(aggs[1..])
  }

  lemma {:induction false} EventCountTotalOfUsers(aggs: seq<ActivityAgg>, rows: seq<Keyed>, us: seq<int>)
    requires |aggs| == |us|
    requires forall i :: 0 <= i < |aggs| ==> aggs[i].cells.eventCount == Some(CategorisedCount(rows, us[i]))
    ensures EventCountTotal(aggs) == UsersTotal(rows, us)
  {
    if aggs != [] {
      EventCountTotalOfUsers(aggs[1..], rows, us[1..]);
    }
  }

  /**
   * Summed over `activity_agg`, `event_count` counts every activity row that
   * has both a user and an event type exactly once: rows without a user are
   * dropped, and rows without a type are not counted.
   */
  lemma EventCountsConserved(events: seq<Event>)
    ensures EventCountTotal(AggregateActivity(events).rows) == CategorisedRows(EventKeyed(events))
  {
    var keyed := EventKeyed(events);
    var users := GroupKeys(keyed);
    var aggs := AggregateActivity(events).rows;
    AggregateActivitySpec(events);
    EventCountTotalOfUsers(aggs, keyed, users);
    GroupKeysIncreasing(keyed);
    forall i | 0 <= i < |keyed| && keyed[i].key.Some? ensures keyed[i].key.value in users {
      KeysOfMembership(keyed, keyed[i].key.value);
      GroupSizeAt(keyed, i);
      IntLessIsStrictTotalOrder();
    }
    UsersTotalIsCategorised(keyed, users);
  }

  /** A row with a key counts towards the size of its group. */
  lemma {:induction false} GroupSizeAt(rows: seq<Keyed>, i: int)
    requires 0 <= i < |rows| && rows[i].key.Some?
    ensures GroupSize(rows, rows[i].key.value) > 0
  {
    if i > 0 {
      assert rows[1..][i - 1] == rows[i];
      GroupSizeAt(rows[1..], i - 1);
    }
  }
}
