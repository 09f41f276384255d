/** The booking routes of the MySQL variant (booking.js): a user's booking
    request, the user's and the admin's listings, and the admin's status
    change. The validator `isDate()` is the parameter `isDate` and `now` the
    clock in milliseconds. The `authenticateToken` / `requireAdmin`
    middleware is not part of this model: the routes start after it, with
    the `req.user.user_id` it leaves as `callerId`. The packages a booking
    may name are not modelled, so the `LEFT JOIN packages` columns are
    absent from the listings. */
module MysqlBooking {
  import opened Rows
  import opened Js
  import opened Http
  import opened MysqlDb

  const BookingStatuses := ["Pending", "Confirmed", "Rejected", "Cancelled"]
  const MaxMessageLength := 500

  // ---------------------------------------------------------------------
  // Creating a request.

  /** express-validator's `isInt()` with its default options: an optional
      sign, then one or more digits; leading zeros are allowed. */
  predicate IsIntText(s: string)
  {
    var digits := if s != [] && (s[0] == '-' || s[0] == '+') then s[1..] else s;
    digits != [] && AllDigits(digits)
  }

  /** The body of `POST /`; an omitted field is `Undefined`. */
  datatype BookingInput = BookingInput(eventId: Value, packageId: Value, bookingDate: Value, message: Value)

  /** The four validators pass; `optional()` skips a field only when it is undefined. */
  predicate BookingInputValid(input: BookingInput, isDate: string -> bool)
  {
    IsIntText(ValidatorText(input.eventId))
    && (input.packageId == Undefined || IsIntText(ValidatorText(input.packageId)))
    && isDate(ValidatorText(input.bookingDate))
    && (input.message == Undefined || |ValidatorText(input.message)| <= MaxMessageLength)
  }

  /** The row `INSERT INTO booking_requests ...` adds for the bound values. */
  function NewRequest(id: int, callerId: Value, eventId: Value, packageId: Value, bookingDate: Value,
                      message: Value, now: int): BookingRequest
  {
    BookingRequest(id, IntColumn(callerId), IntColumn(eventId), IntColumn(packageId), TextColumn(bookingDate),
                   TextColumn(message), "Pending", now)
  }

  /** The insert once the parameters are bound. */
  function InsertRequest(t: MTables, params: seq<Value>, now: int): MEffect<Created>
    requires |params| == 5
  {
    if HasUndefined(params) then MEffect(t, Fail(500, "Failed to create booking request"))
    else
      MEffect(t.(requests := t.requests + [NewRequest(t.nextBookingId, params[0], params[1], params[2], params[3], params[4], now)],
                 nextBookingId := t.nextBookingId + 1),
              Ok(201, Created("Booking request sent successfully", t.nextBookingId)))
  }

  /** `POST /` as written: the optional `package_id` and `message` are bound
      as they come, so an omitted one reaches mysql2 as undefined. */
  function CreateRequestStepAsWritten(t: MTables, callerId: Value, input: BookingInput, now: int,
                                      isDate: string -> bool): MEffect<Created>
  {
    if !BookingInputValid(input, isDate) then MEffect(t, Fail(400, "Invalid value"))
    else InsertRequest(t, [callerId, input.eventId, input.packageId, input.bookingDate, input.message], now)
  }

  /** `POST /` with the optional fields bound as `package_id ?? null` and
      `message ?? null`, so that an omitted one is stored as NULL. */
  function CreateRequestStep(t: MTables, callerId: Value, input: BookingInput, now: int,
                             isDate: string -> bool): MEffect<Created>
  {
    if !BookingInputValid(input, isDate) then MEffect(t, Fail(400, "Invalid value"))
    else InsertRequest(t, [callerId, input.eventId, Coalesce(input.packageId, Null), input.bookingDate,
                           Coalesce(input.message, Null)], now)
  }

  method CreateRequest(db: MysqlDatabase, callerId: Value, input: BookingInput, now: int, isDate: string -> bool)
    returns (reply: Reply<Created>)
    requires db.Valid()
    modifies db
    ensures db.Valid()
    ensures MEffect(db.Snapshot(), reply) == CreateRequestStep(old(db.Snapshot()), callerId, input, now, isDate)
  {
    CreateRequestKeepsValid(db.Snapshot(), callerId, input, now, isDate);
    if !BookingInputValid(input, isDate) {
      return Fail(400, "Invalid value");
    }
    var packageId := Coalesce(input.packageId, Null);
    var message := Coalesce(input.message, Null);
    if HasUndefined([callerId, input.eventId, packageId, input.bookingDate, message]) {
      return Fail(500, "Failed to create booking request");
    }
    var id := db.nextBookingId;
    db.requests := db.requests + [NewRequest(id, callerId, input.eventId, packageId, input.bookingDate, message, now)];
    db.nextBookingId := id + 1;
    reply := Ok(201, Created("Booking request sent successfully", id));
  }

  // ---------------------------------------------------------------------
  // The listings.

  /** `JOIN events e ON br.event_id = e.event_id` */
  function EventOfRequest(events: seq<MEvent>, r: BookingRequest): (k: Option<nat>)
    ensures k.None? <==> forall j :: 0 <= j < |events| ==> !SameInt(r.eventId, Int(events[j].eventId))
    ensures k.Some? ==> k.value < |events| && SameInt(r.eventId, Int(events[k.value].eventId))
  {
    FirstIndex(events, (e: MEvent) => SameInt(r.eventId, Int(e.eventId)))
  }

  /** `JOIN users u ON br.user_id = u.user_id` */
  function AccountOfRequest(accounts: seq<Account>, r: BookingRequest): (k: Option<nat>)
    ensures k.None? <==> forall j :: 0 <= j < |accounts| ==> !SameInt(r.userId, Int(accounts[j].userId))
    ensures k.Some? ==> k.value < |accounts| && SameInt(r.userId, Int(accounts[k.value].userId))
  {
    FirstIndex(accounts, (a: Account) => SameInt(r.userId, Int(a.userId)))
  }

  /** A row of `GET /`: `br.*, e.title, e.company_name, e.contact_number`. */
  datatype UserBookingRow = UserBookingRow(request: BookingRequest, title: Value, companyName: Value, contactNumber: Value)

  function UserRowCreatedAt(x: UserBookingRow): int { x.request.createdAt }

  /** The joined row of one request, when it is the caller's and its event exists. */
  function UserRow(events: seq<MEvent>, callerId: Value, r: BookingRequest): Option<UserBookingRow>
  {
    if !SameInt(r.userId, callerId) then None
    else match EventOfRequest(events, r)
      case None => None
      case Some(j) => Some(UserBookingRow(r, events[j].title, events[j].companyName, events[j].contactNumber))
  }

  /** `GET /`: the caller's requests, `ORDER BY br.created_at DESC`. */
  function UserBookings(t: MTables, callerId: Value): Reply<seq<UserBookingRow>>
  {
    if HasUndefined([callerId]) then Fail(500, "Failed to fetch bookings")
    else Ok(200, SortDesc(FilterMap(t.requests, (r: BookingRequest) => UserRow(t.events, callerId, r)), UserRowCreatedAt))
  }

  /** A row of `GET /admin`: `br.*, u.name, u.mobile_number, e.title, e.company_name`. */
  datatype AdminBookingRow = AdminBookingRow(
    request: BookingRequest, userName: Value, mobileNumber: Value, title: Value, companyName: Value)

  function AdminRowCreatedAt(x: AdminBookingRow): int { x.request.createdAt }

  /** The joined row of one request, when both its user and its event exist. */
  function AdminRow(t: MTables, r: BookingRequest): Option<AdminBookingRow>
  {
    match AccountOfRequest(t.accounts, r)
    case None => None
    case Some(i) =>
      match EventOfRequest(t.events, r)
      case None => None
      case Some(j) =>
        Some(AdminBookingRow(r, t.accounts[i].name, t.accounts[i].mobileNumber, t.events[j].title, t.events[j].companyName))
  }

  /** `GET /admin`: every joinable request, `ORDER BY br.created_at DESC`. */
  function AdminBookings(t: MTables): seq<AdminBookingRow>
  {
    SortDesc(FilterMap(t.requests, (r: BookingRequest) => AdminRow(t, r)), AdminRowCreatedAt)
  }

  // ---------------------------------------------------------------------
  // The status change.

  /** `UPDATE booking_requests SET status = ? WHERE booking_id = ?` */
  function RequestsWithStatus(requests: seq<BookingRequest>, idParam: string, status: string): (r: seq<BookingRequest>)
    ensures |r| == |requests|
  {
    Update(requests, (b: BookingRequest) => SameInt(Int(b.bookingId), Text(idParam)),
           (b: BookingRequest) => b.(status := status))
  }

  /** `PUT /:id`: the status must be one of the four; no existence check. */
  function UpdateStatusStep(t: MTables, idParam: string, status: Value): MEffect<string>
  {
    if ValidatorText(status) !in BookingStatuses then MEffect(t, Fail(400, "Invalid value"))
    else MEffect(t.(requests := RequestsWithStatus(t.requests, idParam, ValidatorText(status))),
                 Ok(200, "Booking status updated successfully"))
  }

  method UpdateStatus(db: MysqlDatabase, idParam: string, status: Value) returns (reply: Reply<string>)
    requires db.Valid()
    modifies db
    ensures db.Valid()
    ensures MEffect(db.Snapshot(), reply) == UpdateStatusStep(old(db.Snapshot()), idParam, status)
  {
    UpdateStatusKeepsValid(db.Snapshot(), idParam, status);
    if ValidatorText(status) !in BookingStatuses {
      return Fail(400, "Invalid value");
    }
    db.requests := RequestsWithStatus(db.requests, idParam, ValidatorText(status));
    reply := Ok(200, "Booking status updated successfully");
  }

  // ---------------------------------------------------------------------
  // Properties of the request.

  /** Every integer a client may send as a JSON number passes `isInt()`. */
  lemma IntToStringIsIntText(i: int)
    ensures IsIntText(IntToString(i))
  {
    var n: nat := if i < 0 then -i else i;
    var s := NatToString(n);
    if s[0] == '0' && n == 0 {
      assert s == "0";
    }
    if i < 0 {
      assert IntToString(i)[1..] == s;
    }
  }

  /** As written, a valid request that leaves out `package_id` fails with
      500 and stores nothing, though the validator marks it optional. */
  lemma OmittedPackageFailsAsWritten(t: MTables, callerId: int, eventId: int, date: string, now: int,
                                     isDate: string -> bool)
    requires isDate(date)
    ensures BookingInputValid(BookingInput(Int(eventId), Undefined, Text(date), Text("")), isDate)
    ensures CreateRequestStepAsWritten(t, Int(callerId), BookingInput(Int(eventId), Undefined, Text(date), Text("")), now, isDate)
            == MEffect(t, Fail(500, "Failed to create booking request"))
  {
    IntToStringIsIntText(eventId);
  }

  /** The two versions agree whenever both optional fields are given. */
  lemma CreateRequestAgreesWhenComplete(t: MTables, callerId: Value, input: BookingInput, now: int,
                                        isDate: string -> bool)
    requires !Nullish(input.packageId) && !Nullish(input.message)
    ensures CreateRequestStep(t, callerId, input, now, isDate) == CreateRequestStepAsWritten(t, callerId, input, now, isDate)
  {
  }

  /** `isInt()` takes digits with leading zeros, and the INT column reads
      them as their value: a request for event "007" books event 7. */
  lemma LeadingZerosAccepted(t: MTables, callerId: int, digits: string, date: string, now: int,
                             isDate: string -> bool)
    requires digits != [] && AllDigits(digits) && isDate(date)
    ensures var r := CreateRequestStep(t, Int(callerId), BookingInput(Text(digits), Undefined, Text(date), Undefined), now, isDate);
      r.reply.Ok? && r.tables.requests[|t.requests|].eventId == Int(DigitsValue(digits))
  {
    var input := BookingInput(Text(digits), Undefined, Text(date), Undefined);
    assert ValidatorText(input.eventId) == digits;
    assert BookingInputValid(input, isDate);
    var params := [Int(callerId), input.eventId, Null, input.bookingDate, Null];
    assert !HasUndefined(params);
    assert CreateRequestStep(t, Int(callerId), input, now, isDate) == InsertRequest(t, params, now);
    ParseIntOfDigits(digits);
    assert IntColumn(input.eventId) == Int(DigitsValue(digits));
  }

  /** A request: a failing validator is a 400 and an unknown caller a 500,
      both storing nothing; otherwise exactly one row is appended, owned by
      the caller, for the event given, with status Pending and an omitted
      package or message stored as NULL. */
  lemma CreateRequestOutcome(t: MTables, callerId: Value, input: BookingInput, now: int, isDate: string -> bool)
    ensures !BookingInputValid(input, isDate) ==>
      CreateRequestStep(t, callerId, input, now, isDate) == MEffect(t, Fail(400, "Invalid value"))
    ensures BookingInputValid(input, isDate) ==>
      (CreateRequestStep(t, callerId, input, now, isDate).reply.Fail? <==> callerId == Undefined || input.bookingDate == Undefined)
    ensures BookingInputValid(input, isDate) && (callerId == Undefined || input.bookingDate == Undefined) ==>
      CreateRequestStep(t, callerId, input, now, isDate) == MEffect(t, Fail(500, "Failed to create booking request"))
    ensures var r := CreateRequestStep(t, callerId, input, now, isDate);
      r.reply.Fail? ==> r.tables == t
    ensures var r := CreateRequestStep(t, callerId, input, now, isDate);
      r.reply.Ok? ==>
        r.reply == Ok(201, Created("Booking request sent successfully", t.nextBookingId))
        && r.tables == t.(requests := t.requests + [r.tables.requests[|t.requests|]], nextBookingId := t.nextBookingId + 1)
        && var b := r.tables.requests[|t.requests|];
        b.bookingId == t.nextBookingId && b.userId == IntColumn(callerId) && b.eventId == IntColumn(input.eventId)
        && b.status == "Pending" && b.createdAt == now
        && b.packageId == IntColumn(Coalesce(input.packageId, Null))
        && b.bookingDate == TextColumn(input.bookingDate)
        && b.message == TextColumn(Coalesce(input.message, Null))
        && (input.packageId == Undefined ==> b.packageId == Null)
        && (input.message == Undefined ==> b.message == Null)
  {
    if BookingInputValid(input, isDate) {
      assert input.eventId != Undefined by {
        assert !IsIntText(ValidatorText(Undefined));
      }
      var params := [callerId, input.eventId, Coalesce(input.packageId, Null), input.bookingDate, Coalesce(input.message, Null)];
      assert CreateRequestStep(t, callerId, input, now, isDate) == InsertRequest(t, params, now);
      assert HasUndefined(params) <==> callerId == Undefined || input.bookingDate == Undefined;
    }
  }

  lemma CreateRequestKeepsValid(t: MTables, callerId: Value, input: BookingInput, now: int, isDate: string -> bool)
    requires MTablesValid(t)
    ensures MTablesValid(CreateRequestStep(t, callerId, input, now, isDate).tables)
  {
    var r := CreateRequestStep(t, callerId, input, now, isDate);
    if r.reply.Ok? {
      var b := NewRequest(t.nextBookingId, callerId, input.eventId, Coalesce(input.packageId, Null), input.bookingDate,
                          Coalesce(input.message, Null), now);
      assert r.tables.requests == t.requests + [b];
      AppendFresh(t.requests, b, RequestId, t.nextBookingId);
    }
  }

  // ---------------------------------------------------------------------
  // Properties of the listings.

  /** The user listing holds only the caller's requests, each with the event it names, newest first. */
  lemma UserBookingsSound(t: MTables, callerId: Value)
    requires callerId != Undefined
    ensures UserBookings(t, callerId).Ok?
    ensures var rows := UserBookings(t, callerId).body;
      forall k :: 0 <= k < |rows| ==>
        rows[k].request in t.requests && SameInt(rows[k].request.userId, callerId)
        && exists j :: 0 <= j < |t.events| && SameInt(rows[k].request.eventId, Int(t.events[j].eventId))
                       && rows[k].title == t.events[j].title && rows[k].companyName == t.events[j].companyName
    ensures var rows := UserBookings(t, callerId).body;
      forall i, j :: 0 <= i < j < |rows| ==> rows[i].request.createdAt >= rows[j].request.createdAt
  {
    var f := (r: BookingRequest) => UserRow(t.events, callerId, r);
    var joined := FilterMap(t.requests, f);
    var rows := UserBookings(t, callerId).body;
    assert rows == SortDesc(joined, UserRowCreatedAt);
    forall k | 0 <= k < |rows|
      ensures rows[k].request in t.requests && SameInt(rows[k].request.userId, callerId)
      ensures exists j :: 0 <= j < |t.events| && SameInt(rows[k].request.eventId, Int(t.events[j].eventId))
                          && rows[k].title == t.events[j].title && rows[k].companyName == t.events[j].companyName
    {
      SortDescMember(joined, UserRowCreatedAt, rows[k]);
      FilterMapMember(t.requests, f, rows[k]);
      var r :| r in t.requests && f(r) == Some(rows[k]);
      UserRowSound(t.events, callerId, r);
    }
    assert NonIncreasing(rows, UserRowCreatedAt);
  }

  /** A joined row carries its own request, the caller's, and an event that request names. */
  lemma UserRowSound(events: seq<MEvent>, callerId: Value, r: BookingRequest)
    requires UserRow(events, callerId, r).Some?
    ensures var row := UserRow(events, callerId, r).value;
      row.request == r && SameInt(r.userId, callerId)
      && exists j :: 0 <= j < |events| && SameInt(r.eventId, Int(events[j].eventId))
                     && row.title == events[j].title && row.companyName == events[j].companyName
  {
    var j := EventOfRequest(events, r).value;
    assert UserRow(events, callerId, r).value == UserBookingRow(r, events[j].title, events[j].companyName, events[j].contactNumber);
  }

  /** Every request of the caller whose event exists is listed. */
  lemma UserBookingsComplete(t: MTables, callerId: Value, r: BookingRequest)
    requires callerId != Undefined
    requires r in t.requests && SameInt(r.userId, callerId) && EventOfRequest(t.events, r).Some?
    ensures exists k :: 0 <= k < |UserBookings(t, callerId).body| && UserBookings(t, callerId).body[k].request == r
  {
    var f := (r: BookingRequest) => UserRow(t.events, callerId, r);
    UserRowOfRequest(t.events, callerId, r);
    var row := UserRow(t.events, callerId, r).value;
    assert f(r) == Some(row);
    FilterMapMember(t.requests, f, row);
    var joined := FilterMap(t.requests, f);
    SortDescMember(joined, UserRowCreatedAt, row);
    var rows := SortDesc(joined, UserRowCreatedAt);
    assert UserBookings(t, callerId).body == rows;
    var k :| 0 <= k < |rows| && rows[k] == row;
  }

  lemma UserRowOfRequest(events: seq<MEvent>, callerId: Value, r: BookingRequest)
    requires SameInt(r.userId, callerId) && EventOfRequest(events, r).Some?
    ensures UserRow(events, callerId, r).Some? && UserRow(events, callerId, r).value.request == r
  {
  }

  /** Without a caller id the query is refused. */
  lemma UserBookingsNeedCaller(t: MTables)
    ensures UserBookings(t, Undefined) == Fail(500, "Failed to fetch bookings")
  {
  }

  /** A request just made on an existing event shows in its maker's listing. */
  lemma CreatedRequestListed(t: MTables, callerId: int, input: BookingInput, now: int, isDate: string -> bool)
    requires CreateRequestStep(t, Int(callerId), input, now, isDate).reply.Ok?
    requires exists j :: 0 <= j < |t.events| && SameInt(input.eventId, Int(t.events[j].eventId))
    ensures var t' := CreateRequestStep(t, Int(callerId), input, now, isDate).tables;
      exists k :: 0 <= k < |UserBookings(t', Int(callerId)).body|
                  && UserBookings(t', Int(callerId)).body[k].request == t'.requests[|t.requests|]
  {
    CreateRequestOutcome(t, Int(callerId), input, now, isDate);
    var t' := CreateRequestStep(t, Int(callerId), input, now, isDate).tables;
    var b := t'.requests[|t.requests|];
    assert b in t'.requests;
    var j :| 0 <= j < |t.events| && SameInt(input.eventId, Int(t.events[j].eventId));
    assert SameInt(b.eventId, Int(t'.events[j].eventId));
    UserBookingsComplete(t', Int(callerId), b);
  }

  /** The admin listing holds exactly the requests whose user and event exist, newest first. */
  lemma AdminBookingsSound(t: MTables)
    ensures var rows := AdminBookings(t);
      forall k :: 0 <= k < |rows| ==>
        rows[k].request in t.requests
        && (exists i :: 0 <= i < |t.accounts| && SameInt(rows[k].request.userId, Int(t.accounts[i].userId))
                        && rows[k].userName == t.accounts[i].name && rows[k].mobileNumber == t.accounts[i].mobileNumber)
        && exists j :: 0 <= j < |t.events| && SameInt(rows[k].request.eventId, Int(t.events[j].eventId))
                       && rows[k].title == t.events[j].title
    ensures var rows := AdminBookings(t);
      forall i, j :: 0 <= i < j < |rows| ==> rows[i].request.createdAt >= rows[j].request.createdAt
  {
    var f := (r: BookingRequest) => AdminRow(t, r);
    var joined := FilterMap(t.requests, f);
    var rows := AdminBookings(t);
    forall k | 0 <= k < |rows|
      ensures rows[k].request in t.requests
      ensures exists i :: 0 <= i < |t.accounts| && SameInt(rows[k].request.userId, Int(t.accounts[i].userId))
                          && rows[k].userName == t.accounts[i].name && rows[k].mobileNumber == t.accounts[i].mobileNumber
      ensures exists j :: 0 <= j < |t.events| && SameInt(rows[k].request.eventId, Int(t.events[j].eventId))
                          && rows[k].title == t.events[j].title
    {
      SortDescMember(joined, AdminRowCreatedAt, rows[k]);
      FilterMapMember(t.requests, f, rows[k]);
      var r :| r in t.requests && f(r) == Some(rows[k]);
      var i := AccountOfRequest(t.accounts, r).value;
      var j := EventOfRequest(t.events, r).value;
      assert rows[k] == AdminBookingRow(r, t.accounts[i].name, t.accounts[i].mobileNumber, t.events[j].title, t.events[j].companyName);
    }
    assert NonIncreasing(rows, AdminRowCreatedAt);
  }

  lemma AdminBookingsComplete(t: MTables, r: BookingRequest)
    requires r in t.requests && AccountOfRequest(t.accounts, r).Some? && EventOfRequest(t.events, r).Some?
    ensures exists k :: 0 <= k < |AdminBookings(t)| && AdminBookings(t)[k].request == r
  {
    var f := (r: BookingRequest) => AdminRow(t, r);
    var row := f(r).value;
    FilterMapMember(t.requests, f, row);
    SortDescMember(FilterMap(t.requests, f), AdminRowCreatedAt, row);
    var k :| 0 <= k < |AdminBookings(t)| && AdminBookings(t)[k] == row;
  }

  // ---------------------------------------------------------------------
  // Properties of the status change.

  /** A status outside the four is a 400 with nothing changed; otherwise the
      reply is success whether or not the request exists, and only the
      status of the request with that id changes. */
  lemma UpdateStatusOutcome(t: MTables, idParam: string, status: Value)
    ensures ValidatorText(status) !in BookingStatuses <==>
      UpdateStatusStep(t, idParam, status) == MEffect(t, Fail(400, "Invalid value"))
    ensures ValidatorText(status) in BookingStatuses ==>
      UpdateStatusStep(t, idParam, status).reply == Ok(200, "Booking status updated successfully")
    ensures var r := UpdateStatusStep(t, idParam, status);
      r.reply.Ok? ==>
        r.reply == Ok(200, "Booking status updated successfully")
        && r.tables == t.(requests := r.tables.requests)
        && |r.tables.requests| == |t.requests|
        && forall k :: 0 <= k < |t.requests| ==>
             r.tables.requests[k] == (if t.requests[k].bookingId == MysqlInt(idParam)
                                      then t.requests[k].(status := ValidatorText(status))
                                      else t.requests[k])
  {
  }

  /** Any of the four statuses can be set on an existing request, whatever its current status. */
  lemma AnyStatusReachable(t: MTables, k: nat, status: string)
    requires k < |t.requests| && status in BookingStatuses
    ensures var r := UpdateStatusStep(t, IntToString(t.requests[k].bookingId), Text(status));
      r.reply.Ok? && r.tables.requests[k].status == status
  {
    var id := t.requests[k].bookingId;
    ParseIntOfIntToString(id);
    assert MysqlInt(IntToString(id)) == id;
    assert SameInt(Int(id), Text(IntToString(id)));
    assert ValidatorText(Text(status)) == status;
    var rows := RequestsWithStatus(t.requests, IntToString(id), status);
    assert rows[k] == t.requests[k].(status := status);
  }

  lemma UpdateStatusKeepsValid(t: MTables, idParam: string, status: Value)
    requires MTablesValid(t)
    ensures MTablesValid(UpdateStatusStep(t, idParam, status).tables)
  {
    var r := UpdateStatusStep(t, idParam, status);
    if r.reply.Ok? {
      assert forall j :: 0 <= j < |r.tables.requests| ==> r.tables.requests[j].bookingId == t.requests[j].bookingId;
    }
  }
}
