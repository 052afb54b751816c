/**
 * The three input relations of the churn pipeline (account info, user
 * activity, customer support), before and after normalisation, and the two
 * errors that abort a run.
 */
module Records {
  import opened Wrappers

  /** A parsed timestamp (pandas stores datetime64 values as integer nanoseconds). */
  type Time = int

  /**
   * `pd.to_datetime(column, errors="coerce")` seen one cell at a time: the
   * parsed value of the non-missing cell at the given index of the column, or
   * None when it does not parse. The whole column is an argument because
   * pandas infers one format for a column from its values.
   */
  type ColumnParser = (seq<Option<string>>, nat) -> Option<Time>

  /** A row of the account-info file. `usState` is the customer's US state. */
  datatype RawAccount = RawAccount(
    customerId: Option<string>,
    email: Option<string>,
    usState: Option<string>,
    plan: Option<string>,
    planListPrice: Option<real>,
    churnStatus: Option<string>)

  /** An account after `clean_account`: the same cells plus `user_id` and the 0/1 `churned` flag. */
  datatype Account = Account(
    userId: int,
    customerId: string,
    email: Option<string>,
    usState: Option<string>,
    plan: Option<string>,
    planListPrice: Option<real>,
    churnStatus: Option<string>,
    churned: int)

  /** A row of the user-activity file. */
  datatype RawEvent = RawEvent(userId: Option<int>, eventTime: Option<string>, eventType: Option<string>)

  /** An activity row after `clean_activity`: the timestamp parsed or missing. */
  datatype Event = Event(userId: Option<int>, eventTime: Option<Time>, eventType: Option<string>)

  /**
   * A row of the customer-support file. `ticketState` is the 0/1 ticket status
   * column that the file calls `state`; it is unrelated to `Account.usState`.
   */
  datatype RawTicket = RawTicket(
    userId: Option<int>,
    ticketTime: Option<string>,
    channel: Option<string>,
    topic: Option<string>,
    resolutionHours: Option<real>,
    ticketState: Option<int>,
    comments: Option<string>)

  /** A support row after `clean_support`: the timestamp parsed or missing. */
  datatype Ticket = Ticket(
    userId: Option<int>,
    ticketTime: Option<Time>,
    channel: Option<string>,
    topic: Option<string>,
    resolutionHours: Option<real>,
    ticketState: Option<int>,
    comments: Option<string>)

  /** Why a run aborts. */
  datatype Error =
    | MalformedIdentifier(customerId: Option<string>)  // `astype(int)` on a customer id
    | UnorderableEventTypes(userId: int)               // `sorted`/`join` meeting a missing event type
}
