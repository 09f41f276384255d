/** The tables of the MySQL variant and the connection pool its route
    handlers share (database.js).

    The schema file of this variant is not part of this model; the tables
    below carry the columns the handlers read and write, with the defaults
    the handlers rely on: `is_verified` FALSE, `role` 'User', booking
    `status` 'Pending', and `created_at` the clock reading (milliseconds)
    of the insert. Ids come from a counter that only grows.

    mysql2's `execute` refuses a bound `undefined` (it throws before the
    statement runs); every handler catches that and answers 500. Values
    meet the columns as follows: a number bound to a text column is stored
    as its decimal text; text meeting an integer column, bound or compared,
    is read as the integer it starts with (0 when it starts with none).
    That approximates MySQL, which rounds fractional text when storing it
    and compares text with an integer column as doubles. Text is compared
    with text ignoring the case of ASCII letters. DECIMAL
    columns hold what the parameter `decimal` (MySQL's reading of a numeric
    string) gives. */
module MysqlDb {
  import opened Rows
  import opened Js
  import opened Http

  datatype OtpRecord = OtpRecord(
    id: int, mobileNumber: Value, otpCode: Value, expiresAt: int, isVerified: bool, createdAt: int)

  datatype Account = Account(
    userId: int, mobileNumber: Value, name: Value, gender: Value, location: Value, role: string, isVerified: bool)

  datatype MEvent = MEvent(
    eventId: int, title: Value, eventType: Value, companyName: Value, contactNumber: Value,
    location: Value, budgetMin: Option<real>, budgetMax: Option<real>, description: Value,
    adminId: Value, createdAt: int)

  datatype EventPhoto = EventPhoto(photoId: int, eventId: Value, photoUrl: string, altText: string)

  datatype BookingRequest = BookingRequest(
    bookingId: int, userId: Value, eventId: Value, packageId: Value, bookingDate: Value,
    message: Value, status: string, createdAt: int)

  datatype MTables = MTables(
    otps: seq<OtpRecord>, nextOtpId: int,
    accounts: seq<Account>, nextUserId: int,
    events: seq<MEvent>, nextEventId: int,
    photos: seq<EventPhoto>, nextPhotoId: int,
    requests: seq<BookingRequest>, nextBookingId: int)

  datatype MEffect<T> = MEffect(tables: MTables, reply: Reply<T>)

  /** The body `{ message, <table>_id: insertId }` of a 201 reply. */
  datatype Created = Created(message: string, id: int)

  function OtpRecordId(r: OtpRecord): int { r.id }
  function OtpCreatedAt(r: OtpRecord): int { r.createdAt }
  function AccountId(a: Account): int { a.userId }
  function MEventId(e: MEvent): int { e.eventId }
  function MEventCreatedAt(e: MEvent): int { e.createdAt }
  function EventPhotoId(p: EventPhoto): int { p.photoId }
  function RequestId(r: BookingRequest): int { r.bookingId }
  function RequestCreatedAt(r: BookingRequest): int { r.createdAt }

  predicate MTablesValid(t: MTables)
  {
    Increasing(t.otps, OtpRecordId) && AllBelow(t.otps, OtpRecordId, t.nextOtpId)
    && Increasing(t.accounts, AccountId) && AllBelow(t.accounts, AccountId, t.nextUserId)
    && Increasing(t.events, MEventId) && AllBelow(t.events, MEventId, t.nextEventId)
    && Increasing(t.photos, EventPhotoId) && AllBelow(t.photos, EventPhotoId, t.nextPhotoId)
    && Increasing(t.requests, RequestId) && AllBelow(t.requests, RequestId, t.nextBookingId)
  }

  /** The text express-validator checks: '' for a missing or null field. */
  function ValidatorText(v: Value): string
  {
    if Nullish(v) then "" else ToJsString(v)
  }

  /** The model's reading of a text meeting an integer column: its leading
      integer, else 0. It approximates MySQL, which rounds fractional text
      when storing it and compares text with an integer as doubles. */
  function MysqlInt(s: string): int
  {
    match ParseInt(s)
    case None => 0
    case Some(i) => i
  }

  /** What an integer column holds for a bound value, also used as the
      value an integer column is compared with. */
  function IntColumn(v: Value): (r: Value)
    ensures v.Int? ==> r == v
    ensures v.Text? ==> r.Int?
    ensures Nullish(v) ==> r == v
  {
    match v
    case Text(s) => Int(MysqlInt(s))
    case _ => v
  }

  /** What a text column holds for a bound value. */
  function TextColumn(v: Value): (r: Value)
    ensures !v.Int? ==> r == v
    ensures r.Int? == false
  {
    if v.Int? then Text(IntToString(v.i)) else v
  }

  /** What a DECIMAL column holds for a bound value. */
  function DecimalColumn(v: Value, decimal: string -> real): Option<real>
  {
    match v
    case Text(s) => Some(decimal(s))
    case Int(i) => Some(i as real)
    case _ => None
  }

  /** `int_column = ?`: NULL equals nothing. */
  predicate SameInt(cell: Value, v: Value)
  {
    IntColumn(cell).Int? && IntColumn(cell) == IntColumn(v)
  }

  /** `text_column = ?` under a case-insensitive collation: NULL equals nothing. */
  predicate SameText(cell: Value, v: Value)
  {
    !Nullish(cell) && !Nullish(v) && AsciiLower(ToJsString(cell)) == AsciiLower(ToJsString(v))
  }

  /** A bound parameter list mysql2 refuses. */
  predicate HasUndefined(params: seq<Value>)
  {
    Undefined in params
  }

  const EmptyMTables := MTables([], 1, [], 1, [], 1, [], 1, [], 1)

  /** The pool of database.js. */
  class MysqlDatabase {
    var otps: seq<OtpRecord>
    var nextOtpId: int
    var accounts: seq<Account>
    var nextUserId: int
    var events: seq<MEvent>
    var nextEventId: int
    var photos: seq<EventPhoto>
    var nextPhotoId: int
    var requests: seq<BookingRequest>
    var nextBookingId: int

    function Snapshot(): MTables
      reads this
    {
      MTables(otps, nextOtpId, accounts, nextUserId, events, nextEventId,
              photos, nextPhotoId, requests, nextBookingId)
    }

    predicate Valid()
      reads this
    {
      MTablesValid(Snapshot())
    }

    constructor ()
      ensures Valid() && Snapshot() == EmptyMTables
    {
      otps, nextOtpId := [], 1;
      accounts, nextUserId := [], 1;
      events, nextEventId := [], 1;
      photos, nextPhotoId := [], 1;
      requests, nextBookingId := [], 1;
    }
  }
}
