/** The spreadsheet endpoint: `doPost` checks the address again, refuses one already in the
    sheet's first column and otherwise appends `[email, timestamp]`; `doGet` is a liveness reply.
    The sheet is a sequence of rows; JSON parsing and opening the sheet become inputs. */
module AppsScript {
  import opened Wrappers
  import opened EmailSyntax

  /** One row of the sheet: column A (the address) and column B (the ISO time of receipt). */
  datatype Row = Row(email: string, receivedAt: string)

  /** The request body: reading it threw (no `e.postData`, a `JSON.parse` failure, or a body that
      parses to `null`, whose `email` cannot be read), with the error text kept; or it gave an object
      whose `email` is a string or missing. */
  datatype Request = Unparsable(error: string) | Parsed(email: Option<string>)

  /** Opening the sheet by id and name: reachable, or it threw (an unknown id, a missing tab). */
  datatype SheetAccess = Reachable | Unreachable(error: string)

  /** How the two later sheet calls behave: reading column A and appending the row each either
      succeed (`None`) or throw with an error text (a protected sheet, the cell limit, a time-out). */
  datatype SheetCalls = SheetCalls(readError: Option<string>, appendError: Option<string>)

  datatype Status = Ok | Duplicate | Failed

  /** The JSON reply `{status, message?}`; `Failed` is written `"error"`. */
  datatype Reply = Reply(status: Status, message: Option<string>)

  const INVALID_EMAIL := "Invalid email"
  const ALREADY_REGISTERED := "Already registered"
  const SERVICE_RUNNING := "Service is running"

  /** `getRange('A:A').getValues().flat()`: the first column, top to bottom. */
  function EmailColumn(rows: seq<Row>): (column: seq<string>)
    ensures |column| == |rows|
    ensures forall i :: 0 <= i < |rows| ==> column[i] == rows[i].email
  {
    if rows == [] then [] else [rows[0].email] + EmailColumn(rows[1..])
  }

  /** `Array.prototype.includes` on strings: a left-to-right scan for an exactly equal element
      (case-sensitive). */
  method Includes(values: seq<string>, value: string) returns (found: bool)
    ensures found <==> value in values
  {
    found := false;
    var i := 0;
    while i < |values| && !found
      invariant 0 <= i <= |values|
      invariant found <==> value in values[..i]
    {
      assert values[..i + 1] == values[..i] + [values[i]];
      found := values[i] == value;
      i := i + 1;
    }
    if !found {
      assert values[..i] == values;
    }
  }

  /** The number of rows whose column A holds `email`. */
  function Occurrences(rows: seq<Row>, email: string): (n: nat)
    ensures n <= |rows|
    ensures n == 0 <==> email !in EmailColumn(rows)
  {
    if rows == [] then 0
    else
      var rest := Occurrences(rows[1..], email);
      assert EmailColumn(rows) == [rows[0].email] + EmailColumn(rows[1..]);
      (if rows[0].email == email then 1 else 0) + rest
  }

  lemma {:induction false} OccurrencesAppend(rows: seq<Row>, row: Row, email: string)
    ensures Occurrences(rows + [row], email) == Occurrences(rows, email) + (if row.email == email then 1 else 0)
  {
    if rows != [] {
      assert (rows + [row])[1..] == rows[1..] + [row];
      OccurrencesAppend(rows[1..], row, email);
    } else {
      assert (rows + [row])[1..] == [];
    }
  }

  /** No address appears twice in column A. */
  ghost predicate DistinctEmails(rows: seq<Row>)
  {
    forall i, j :: 0 <= i < j < |rows| ==> rows[i].email != rows[j].email
  }

  /** Appending an address not yet in column A keeps the column free of repeats. */
  lemma AppendKeepsDistinct(rows: seq<Row>, row: Row)
    requires DistinctEmails(rows) && row.email !in EmailColumn(rows)
    ensures DistinctEmails(rows + [row])
  {
    forall i | 0 <= i < |rows|
      ensures rows[i].email != row.email
    {
      assert EmailColumn(rows)[i] == rows[i].email;
    }
  }

  class Sheet {
    var rows: seq<Row>

    constructor (initial: seq<Row>)
      ensures rows == initial
    {
      rows := initial;
    }

    /** `doPost(e)`. Whatever happens, at most one row is appended, only at the end, only for a
        valid address not yet in column A; every failure, each thrown error answered by the
        `catch`, leaves the sheet as it was. */
    method DoPost(request: Request, access: SheetAccess, calls: SheetCalls, receivedAt: string)
      returns (reply: Reply)
      modifies this
      ensures request.Unparsable? ==> reply == Reply(Failed, Some(request.error)) && rows == old(rows)
      ensures request.Parsed? && (request.email == None || !IsValidEmail(request.email.value)) ==>
        reply == Reply(Failed, Some(INVALID_EMAIL)) && rows == old(rows)
      ensures request.Parsed? && request.email.Some? && IsValidEmail(request.email.value) ==>
        var email := request.email.value;
        && (access.Unreachable? ==> reply == Reply(Failed, Some(access.error)) && rows == old(rows))
        && (access.Reachable? && calls.readError.Some? ==>
              reply == Reply(Failed, Some(calls.readError.value)) && rows == old(rows))
        && (access.Reachable? && calls.readError == None && email in EmailColumn(old(rows)) ==>
              reply == Reply(Duplicate, Some(ALREADY_REGISTERED)) && rows == old(rows))
        && (access.Reachable? && calls.readError == None && email !in EmailColumn(old(rows)) ==>
              && (calls.appendError.Some? ==> reply == Reply(Failed, Some(calls.appendError.value)) && rows == old(rows))
              && (calls.appendError == None ==> reply == Reply(Ok, None) && rows == old(rows) + [Row(email, receivedAt)]))
      ensures DistinctEmails(old(rows)) ==> DistinctEmails(rows)
    {
      match request
      case Unparsable(error) =>
        reply := Reply(Failed, Some(error));
      case Parsed(email) =>
        if email == None || email.value == "" || !IsValidEmail(email.value) {
          reply := Reply(Failed, Some(INVALID_EMAIL));
          return;
        }
        if access.Unreachable? {
          reply := Reply(Failed, Some(access.error));
          return;
        }
        if calls.readError.Some? {
          reply := Reply(Failed, Some(calls.readError.value));
          return;
        }
        var present := Includes(EmailColumn(rows), email.value);
        if present {
          reply := Reply(Duplicate, Some(ALREADY_REGISTERED));
          return;
        }
        if calls.appendError.Some? {
          reply := Reply(Failed, Some(calls.appendError.value));
          return;
        }
        ghost var before := rows;
        rows := rows + [Row(email.value, receivedAt)];
        if DistinctEmails(before) {
          AppendKeepsDistinct(before, Row(email.value, receivedAt));
        }
        reply := Reply(Ok, None);
    }
  }

  /** `doGet(e)`: always `{status: 'ok', message: 'Service is running'}`, whatever the request. */
  function DoGet<E>(e: E): (reply: Reply)
    ensures reply.status == Ok && reply.message == Some(SERVICE_RUNNING)
  {
    Reply(Ok, Some(SERVICE_RUNNING))
  }

  /** The same valid address posted twice to a sheet that does not hold it: `ok`, then
      `duplicate`, and the sheet ends with exactly one more row, holding that address once (the
      sheet opening, reading and appending without error both times). */
  method PostTwice(initial: seq<Row>, email: string, t1: string, t2: string)
    returns (first: Status, second: Status, final: seq<Row>)
    requires IsValidEmail(email) && email !in EmailColumn(initial)
    ensures first == Ok && second == Duplicate
    ensures final == initial + [Row(email, t1)]
    ensures Occurrences(final, email) == 1
  {
    var sheet := new Sheet(initial);
    var reply := sheet.DoPost(Parsed(Some(email)), Reachable, SheetCalls(None, None), t1);
    first := reply.status;
    assert EmailColumn(sheet.rows)[|initial|] == email;
    reply := sheet.DoPost(Parsed(Some(email)), Reachable, SheetCalls(None, None), t2);
    second := reply.status;
    final := sheet.rows;
    OccurrencesAppend(initial, Row(email, t1), email);
  }
}
