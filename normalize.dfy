/**
 * `clean_account`, `clean_activity` and `clean_support`: per-relation type
 * coercion that leaves missing cells missing.
 */
module Normalize {
  import opened Wrappers
  import opened Records

  // ---------------------------------------------------------------------
  // user_id: every 'C' removed, then Python's int()
  // ---------------------------------------------------------------------

  /** `s.replace(c, "")`. */
  function RemoveAll(s: string, c: char): (r: string)
    ensures forall x :: x in r <==> x in s && x != c
  {
    if s == [] then []
    else if s[0] == c then RemoveAll(s[1..], c)
    else [s[0]] + RemoveAll(s[1..], c)
  }

  predicate IsDigit(ch: char) { '0' <= ch <= '9' }

  predicate AllDigits(s: string) { forall i :: 0 <= i < |s| ==> IsDigit(s[i]) }

  /** The decimal value of a string of ASCII digits; leading zeros add nothing. */
  function DigitsValue(s: string): nat
    requires AllDigits(s)
  {
    if s == [] then 0
    else 10 * DigitsValue(s[..|s| - 1]) + (s[|s| - 1] as int - '0' as int)
  }

  /** What Python's `int()` accepts here: an optional sign followed by at least one ASCII digit. */
  predicate IsIntLiteral(s: string) {
    if |s| > 0 && (s[0] == '+' || s[0] == '-') then |s| > 1 && AllDigits(s[1..])
    else |s| > 0 && AllDigits(s)
  }

  /** Python's `int(s)` on a string, None where it raises. */
  function ParseInt(s: string): (r: Option<int>)
    ensures r.Some? <==> IsIntLiteral(s)
    ensures r.Some? && s[0] != '-' ==> r.value >= 0
  {
    if |s| > 0 && (s[0] == '+' || s[0] == '-') then
      if |s| > 1 && AllDigits(s[1..]) then
        var magnitude: int := DigitsValue(s[1..]);
        Some(if s[0] == '-' then -magnitude else magnitude)
      else None
    else if |s| > 0 && AllDigits(s) then Some(DigitsValue(s))
    else None
  }

  /** The range of the `int64` column that `astype(int)` produces. */
  const Int64Min: int := -0x8000_0000_0000_0000
  const Int64Max: int := 0x7FFF_FFFF_FFFF_FFFF

  predicate InInt64(n: int) { Int64Min <= n <= Int64Max }

  /**
   * `customer_id.str.replace("C", "").astype(int)` on one cell: a missing id,
   * a remainder that is not an integer literal (ValueError) or one outside
   * the `int64` range (OverflowError) aborts the run.
   */
  function ParseUserId(customerId: Option<string>): (r: Result<int, Error>)
    ensures customerId.None? ==> r == Failure(MalformedIdentifier(None))
    ensures customerId.Some? ==>
      (r.Success? <==> (var rest := RemoveAll(customerId.value, 'C');
                        IsIntLiteral(rest) && InInt64(ParseInt(rest).value)))
    ensures r.Success? ==> r.value == ParseInt(RemoveAll(customerId.value, 'C')).value && InInt64(r.value)
    ensures r.Failure? ==> r.error == MalformedIdentifier(customerId)
  {
    match customerId
    case None => Failure(MalformedIdentifier(None))
    case Some(id) =>
      match ParseInt(RemoveAll(id, 'C'))
      case Some(n) => if InInt64(n) then Success(n) else Failure(MalformedIdentifier(customerId))
      case None => Failure(MalformedIdentifier(customerId))
  }

  /** The decimal digits of `n`, with no leading zero. */
  function Digits(n: nat): (r: string)
    ensures |r| > 0 && AllDigits(r)
  {
    if n < 10 then [('0' as int + n) as char]
    else Digits(n / 10) + [('0' as int + n % 10) as char]
  }

  /** `n` written in the account file's `Cxxxxx` form: 'C' and at least five digits, zero-padded. */
  function FormatCustomerId(n: nat): string {
    var ds := Digits(n);
    "C" + seq(if |ds| < 5 then 5 - |ds| else 0, _ => '0') + ds
  }

  lemma {:induction false} DigitsRoundTrip(n: nat)
    ensures DigitsValue(Digits(n)) == n
  {
    if n >= 10 {
      var ds := Digits(n);
      assert ds[..|ds| - 1] == Digits(n / 10);
      DigitsRoundTrip(n / 10);
    }
  }

  lemma {:induction false} ZerosValue(zs: string)
    requires forall i :: 0 <= i < |zs| ==> zs[i] == '0'
    ensures AllDigits(zs) && DigitsValue(zs) == 0
  {
    if zs != [] {
      ZerosValue(zs[..|zs| - 1]);
    }
  }

  /** Zeros in front of a digit string add nothing to its value. */
  lemma {:induction false} LeadingZerosValue(zs: string, ds: string)
    requires forall i :: 0 <= i < |zs| ==> zs[i] == '0'
    requires AllDigits(ds)
    ensures AllDigits(zs + ds) && DigitsValue(zs + ds) == DigitsValue(ds)
  {
    if ds == [] {
      assert zs + ds == zs;
      ZerosValue(zs);
    } else {
      var s := zs + ds;
      assert s[..|s| - 1] == zs + ds[..|ds| - 1];
      LeadingZerosValue(zs, ds[..|ds| - 1]);
    }
  }

  /**
   * `int()` ignores leading zeros, with or without a sign in front: "00042"
   * parses as "42" and "-0042" as "-42", and a malformed remainder stays
   * malformed.
   */
  lemma LeadingZerosIgnored(zs: string, ds: string)
    requires forall i :: 0 <= i < |zs| ==> zs[i] == '0'
    requires |ds| > 0 && ds[0] != '+' && ds[0] != '-'
    ensures ParseInt(zs + ds) == ParseInt(ds)
    ensures ParseInt("+" + zs + ds) == ParseInt("+" + ds)
    ensures ParseInt("-" + zs + ds) == ParseInt("-" + ds)
  {
    assert AllDigits(zs + ds) <==> AllDigits(ds) by {
      if AllDigits(ds) {
        LeadingZerosValue(zs, ds);
      }
      if AllDigits(zs + ds) {
        forall i | 0 <= i < |ds| ensures IsDigit(ds[i]) {
          assert ds[i] == (zs + ds)[|zs| + i];
        }
      }
    }
    if AllDigits(ds) {
      LeadingZerosValue(zs, ds);
    }
    if zs != [] {
      assert (zs + ds)[0] == '0';
    }
    assert ("+" + zs + ds)[1..] == zs + ds && ("+" + ds)[1..] == ds;
    assert ("-" + zs + ds)[1..] == zs + ds && ("-" + ds)[1..] == ds;
  }

  /** `int()` reads back every decimal numeral, bare or signed. */
  lemma ParseIntRoundTrip(n: nat)
    ensures ParseInt(Digits(n)) == Some(n)
    ensures ParseInt("+" + Digits(n)) == Some(n)
    ensures ParseInt("-" + Digits(n)) == Some(-(n as int))
  {
    var ds := Digits(n);
    DigitsRoundTrip(n);
    assert IsDigit(ds[0]);
    assert ("+" + ds)[1..] == ds && ("-" + ds)[1..] == ds;
  }

  lemma {:induction false} RemoveAllAppend(a: string, b: string, c: char)
    ensures RemoveAll(a + b, c) == RemoveAll(a, c) + RemoveAll(b, c)
  {
    if a != [] {
      assert (a + b)[1..] == a[1..] + b;
      RemoveAllAppend(a[1..], b, c);
    } else {
      assert a + b == b;
    }
  }

  lemma {:induction false} RemoveAllAbsent(s: string, c: char)
    requires c !in s
    ensures RemoveAll(s, c) == s
  {
    if s != [] {
      RemoveAllAbsent(s[1..], c);
    }
  }

  /** A 'C' anywhere in the customer id is ignored, not only the leading one. */
  lemma EveryCIgnored(a: string, b: string)
    ensures ParseUserId(Some(a + "C" + b)).Success? == ParseUserId(Some(a + b)).Success?
    ensures ParseUserId(Some(a + b)).Success? ==> ParseUserId(Some(a + "C" + b)) == ParseUserId(Some(a + b))
  {
    RemoveAllAppend(a + "C", b, 'C');
    RemoveAllAppend(a, "C", 'C');
    RemoveAllAppend(a, b, 'C');
    assert "C"[1..] == [];
    assert RemoveAll("C", 'C') == [];
    assert RemoveAll(a + "C" + b, 'C') == RemoveAll(a + b, 'C');
  }

  /** Every id written as `Cxxxxx` parses back to its number, up to the `int64` maximum; a larger one aborts the run. */
  lemma CustomerIdRoundTrip(n: nat)
    ensures ParseUserId(Some(FormatCustomerId(n)))
         == if n <= Int64Max then Success(n) else Failure(MalformedIdentifier(Some(FormatCustomerId(n))))
  {
    var ds := Digits(n);
    var zs: string := seq(if |ds| < 5 then 5 - |ds| else 0, _ => '0');
    var id := FormatCustomerId(n);
    assert id == "C" + (zs + ds);
    assert 'C' !in zs + ds by {
      assert AllDigits(ds);
    }
    RemoveAllAppend("C", zs + ds, 'C');
    RemoveAllAbsent(zs + ds, 'C');
    assert RemoveAll("C", 'C') == [];
    assert RemoveAll(id, 'C') == zs + ds;
    LeadingZerosValue(zs, ds);
    DigitsRoundTrip(n);
  }

  // ---------------------------------------------------------------------
  // churned: strict equality with "Y"
  // ---------------------------------------------------------------------

  /** `(churn_status.fillna("") == "Y").astype(int)` on one cell. */
  function ChurnedFlag(churnStatus: Option<string>): (r: int)
    ensures r == 0 || r == 1
    ensures r == 1 <==> churnStatus == Some("Y")
  {
    if churnStatus.GetOr("") == "Y" then 1 else 0
  }

  // ---------------------------------------------------------------------
  // clean_account
  // ---------------------------------------------------------------------

  function CleanAccountRow(raw: RawAccount): Result<Account, Error> {
    match ParseUserId(raw.customerId)
    case Failure(e) => Failure(e)
    case Success(uid) =>
      Success(Account(uid, raw.customerId.value, raw.email, raw.usState, raw.plan,
                      raw.planListPrice, raw.churnStatus, ChurnedFlag(raw.churnStatus)))
  }

  /** `clean_account`: every row converted, or the run aborted at the first malformed id. */
  function CleanAccounts(raws: seq<RawAccount>): Result<seq<Account>, Error> {
    if raws == [] then Success([])
    else
      match CleanAccountRow(raws[0])
      case Failure(e) => Failure(e)
      case Success(a) =>
        match CleanAccounts(raws[1..])
        case Failure(e) => Failure(e)
        case Success(rest) => Success([a] + rest)
  }

  /** The account `clean_account` makes of a raw row whose id parses. */
  ghost predicate CleanedFrom(a: Account, raw: RawAccount) {
    && ParseUserId(raw.customerId) == Success(a.userId)
    && raw.customerId == Some(a.customerId)
    && a.churned == ChurnedFlag(raw.churnStatus)
    && a.email == raw.email && a.usState == raw.usState && a.plan == raw.plan
    && a.planListPrice == raw.planListPrice && a.churnStatus == raw.churnStatus
  }

  /**
   * `clean_account` succeeds exactly when every customer id parses; it then
   * keeps one account per row, in order, with the derived columns added and
   * every other cell (missing ones included) as it was. Otherwise the run
   * aborts with the id of the first malformed row.
   */
  lemma {:induction false} CleanAccountsSpec(raws: seq<RawAccount>)
    ensures CleanAccounts(raws).Success? <==> forall i :: 0 <= i < |raws| ==> ParseUserId(raws[i].customerId).Success?
    ensures CleanAccounts(raws).Success? ==>
      var accounts := CleanAccounts(raws).value;
      |accounts| == |raws| && forall i :: 0 <= i < |raws| ==> CleanedFrom(accounts[i], raws[i])
    ensures CleanAccounts(raws).Failure? ==>
      exists i :: 0 <= i < |raws| && ParseUserId(raws[i].customerId).Failure?
        && (forall j :: 0 <= j < i ==> ParseUserId(raws[j].customerId).Success?)
        && CleanAccounts(raws).error == MalformedIdentifier(raws[i].customerId)
  {
    if raws != [] {
      CleanAccountsSpec(raws[1..]);
      if ParseUserId(raws[0].customerId).Success? && CleanAccounts(raws[1..]).Failure? {
        var i :| 0 <= i < |raws[1..]| && ParseUserId(raws[1..][i].customerId).Failure?
          && (forall j :: 0 <= j < i ==> ParseUserId(raws[1..][j].customerId).Success?)
          && CleanAccounts(raws[1..]).error == MalformedIdentifier(raws[1..][i].customerId);
        assert ParseUserId(raws[i + 1].customerId).Failure?;
        assert forall j :: 0 <= j < i + 1 ==> ParseUserId(raws[j].customerId).Success? by {
          forall j | 0 <= j < i + 1 ensures ParseUserId(raws[j].customerId).Success? {
            if j > 0 { assert raws[j] == raws[1..][j - 1]; }
          }
        }
      }
      if CleanAccounts(raws).Success? {
        var accounts := CleanAccounts(raws).value;
        forall i | 0 <= i < |raws| ensures CleanedFrom(accounts[i], raws[i]) {
          if i > 0 { assert raws[i] == raws[1..][i - 1]; }
        }
      }
      if forall i :: 0 <= i < |raws| ==> ParseUserId(raws[i].customerId).Success? {
        assert forall i :: 0 <= i < |raws[1..]| ==> ParseUserId(raws[1..][i].customerId).Success? by {
          forall i | 0 <= i < |raws[1..]| ensures ParseUserId(raws[1..][i].customerId).Success? {
            assert raws[1..][i] == raws[i + 1];
          }
        }
      }
    }
  }

  // ---------------------------------------------------------------------
  // clean_activity / clean_support: timestamps coerced, nothing else touched
  // ---------------------------------------------------------------------

  /** `pd.to_datetime(column, errors="coerce")`: a missing cell stays missing, any other is parsed or becomes missing. */
  function CoerceTimes(parse: ColumnParser, column: seq<Option<string>>): (r: seq<Option<Time>>)
    ensures |r| == |column|
  {
    seq(|column|, i requires 0 <= i < |column| => if column[i].None? then None else parse(column, i))
  }

  function EventTimeColumn(raws: seq<RawEvent>): seq<Option<string>> {
    seq(|raws|, i requires 0 <= i < |raws| => raws[i].eventTime)
  }

  function TicketTimeColumn(raws: seq<RawTicket>): seq<Option<string>> {
    seq(|raws|, i requires 0 <= i < |raws| => raws[i].ticketTime)
  }

  /** `clean_activity`. */
  function CleanActivity(parse: ColumnParser, raws: seq<RawEvent>): (r: seq<Event>)
    ensures |r| == |raws|
    ensures forall i :: 0 <= i < |raws| ==>
      && r[i].userId == raws[i].userId && r[i].eventType == raws[i].eventType
      && (raws[i].eventTime.None? ==> r[i].eventTime.None?)
      && (raws[i].eventTime.Some? ==> r[i].eventTime == parse(EventTimeColumn(raws), i))
  {
    var times := CoerceTimes(parse, EventTimeColumn(raws));
    seq(|raws|, i requires 0 <= i < |raws| => Event(raws[i].userId, times[i], raws[i].eventType))
  }

  /** `clean_support`. */
  function CleanSupport(parse: ColumnParser, raws: seq<RawTicket>): (r: seq<Ticket>)
    ensures |r| == |raws|
    ensures forall i :: 0 <= i < |raws| ==>
      && r[i].userId == raws[i].userId && r[i].channel == raws[i].channel && r[i].topic == raws[i].topic
      && r[i].resolutionHours == raws[i].resolutionHours && r[i].ticketState == raws[i].ticketState
      && r[i].comments == raws[i].comments
      && (raws[i].ticketTime.None? ==> r[i].ticketTime.None?)
      && (raws[i].ticketTime.Some? ==> r[i].ticketTime == parse(TicketTimeColumn(raws), i))
  {
    var times := CoerceTimes(parse, TicketTimeColumn(raws));
    seq(|raws|, i requires 0 <= i < |raws| =>
      var t := raws[i];
      Ticket(t.userId, times[i], t.channel, t.topic, t.resolutionHours, t.ticketState, t.comments))
  }
}
