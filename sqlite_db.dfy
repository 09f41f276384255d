/** The tables of the SQLite variant (the schema of server/src/db.js) and the
    database handle the route handlers share.

    Each table is a sequence of rows in rowid order; `INTEGER PRIMARY KEY
    AUTOINCREMENT` ids come from a per-table counter that only grows.
    `CURRENT_TIMESTAMP` is an integer clock reading passed in by the caller.

    Column affinity: a string bound to a TEXT column is stored as it is, and
    a number bound to one is stored here as its decimal text (`ToJsString`;
    better-sqlite3 binds a JavaScript number as a REAL, whose text carries a
    trailing ".0"). A value bound to an INTEGER column is stored as an
    integer when it is text in integer form (`IntegerCell`); the same
    conversion applies to a value compared with such a column. Integral
    text in real form ("5.0", "3e2") is not converted here, where SQLite
    would. */
module SqliteDb {
  import opened Rows
  import opened Js
  import opened Http

  datatype OtpCode = OtpCode(id: int, mobile: string, codeHash: string, expiresAt: int, attemptCount: int)

  datatype User = User(id: int, mobile: string, role: string)

  datatype Profile = Profile(userId: int, name: string, gender: string, location: string)

  /** `budget_min`, `budget_max` and `created_by` are nullable INTEGER columns. */
  datatype Event = Event(
    id: int, category: string, title: string, budgetMin: Value, budgetMax: Value,
    companyName: string, contactNumber: string, location: string, description: string,
    createdBy: Value, createdAt: int, updatedAt: int)

  datatype Photo = Photo(id: int, eventId: int, filePath: string)

  datatype Booking = Booking(
    id: int, userId: Value, eventId: Value, notes: string, status: string,
    createdAt: int, updatedAt: int)

  datatype Tables = Tables(
    otpCodes: seq<OtpCode>, nextOtpId: int,
    users: seq<User>, nextUserId: int,
    profiles: seq<Profile>,
    events: seq<Event>, nextEventId: int,
    photos: seq<Photo>, nextPhotoId: int,
    bookings: seq<Booking>, nextBookingId: int)

  /** A handler's effect: the tables after the request and the reply. */
  datatype Effect<T> = Effect(tables: Tables, reply: Reply<T>)

  function OtpCodeId(c: OtpCode): int { c.id }
  function UserId(u: User): int { u.id }
  function ProfileUserId(p: Profile): int { p.userId }
  function EventId(e: Event): int { e.id }
  function PhotoId(p: Photo): int { p.id }
  function BookingId(b: Booking): int { b.id }

  /** The facts the schema and AUTOINCREMENT guarantee: ids increase in rowid
      order and stay below the next id to be given out, `users.mobile` is
      UNIQUE, and `profiles.user_id` (the primary key) increases and only
      names ids already given to users. */
  predicate TablesValid(t: Tables)
  {
    Increasing(t.otpCodes, OtpCodeId) && AllBelow(t.otpCodes, OtpCodeId, t.nextOtpId)
    && Increasing(t.users, UserId) && AllBelow(t.users, UserId, t.nextUserId)
    && (forall i, j :: 0 <= i < j < |t.users| ==> t.users[i].mobile != t.users[j].mobile)
    && Increasing(t.profiles, ProfileUserId) && AllBelow(t.profiles, ProfileUserId, t.nextUserId)
    && Increasing(t.events, EventId) && AllBelow(t.events, EventId, t.nextEventId)
    && Increasing(t.photos, PhotoId) && AllBelow(t.photos, PhotoId, t.nextPhotoId)
    && Increasing(t.bookings, BookingId) && AllBelow(t.bookings, BookingId, t.nextBookingId)
  }

  /** The white space SQLite skips around a number (`sqlite3Isspace`). */
  predicate IsSqlSpace(c: char)
  {
    c == ' ' || c == '\t' || c == '\n' || c == '\U{000B}' || c == '\U{000C}' || c == '\r'
  }

  /** A text with its leading and trailing white space removed. */
  function TrimSqlSpace(s: string): (r: string)
    ensures |r| <= |s|
    ensures r != [] ==> !IsSqlSpace(r[0]) && !IsSqlSpace(r[|r| - 1])
    ensures s != [] && !IsSqlSpace(s[0]) && !IsSqlSpace(s[|s| - 1]) ==> r == s
    decreases |s|
  {
    if s == [] then s
    else if IsSqlSpace(s[0]) then TrimSqlSpace(s[1..])
    else if IsSqlSpace(s[|s| - 1]) then TrimSqlSpace(s[..|s| - 1])
    else s
  }

  /** The integer a text holds when, white space around it aside, it is an
      optional sign followed by digits. */
  function IntegerText(s: string): (r: Option<int>)
    ensures r.Some? ==> s != []
  {
    var core := TrimSqlSpace(s);
    var negative := core != [] && core[0] == '-';
    var digits := if core != [] && (core[0] == '-' || core[0] == '+') then core[1..] else core;
    if digits == [] || !AllDigits(digits) then None
    else
      var magnitude: int := DigitsValue(digits);
      Some(if negative then -magnitude else magnitude)
  }

  /** What an INTEGER column holds, or is compared as, for a bound value. */
  function IntegerCell(v: Value): (r: Value)
    ensures r.Int? <==> v.Int? || (v.Text? && IntegerText(v.s).Some?)
    ensures v.Int? ==> r == v
    ensures !v.Text? ==> r == v
  {
    if v.Text? && IntegerText(v.s).Some? then Int(IntegerText(v.s).value) else v
  }

  /** An integer printed by JavaScript is read back by the INTEGER column
      as that integer. */
  lemma IntegerCellOfPrinted(i: int)
    ensures IntegerCell(Text(IntToString(i))) == Int(i)
  {
    var n: nat := if i < 0 then -i else i;
    PrintedUntrimmed(i);
    DigitsValueOfNatToString(n);
    if i < 0 {
      assert IntToString(i)[1..] == NatToString(n);
    }
  }

  /** A printed integer has no white space around it. */
  lemma PrintedUntrimmed(i: int)
    ensures TrimSqlSpace(IntToString(i)) == IntToString(i)
  {
    var n: nat := if i < 0 then -i else i;
    var s := IntToString(i);
    assert s[|s| - 1] == NatToString(n)[|NatToString(n)| - 1];
    assert IsDigit(s[|s| - 1]);
  }

  /** White space around an integer does not stop the column reading it:
      `" 5"` is stored, and compared, as the integer 5. */
  lemma IntegerCellTrimsSpace()
    ensures IntegerCell(Text(" 5")) == Int(5)
    ensures IntegerCell(Text("5 ")) == Int(5)
  {
    assert TrimSqlSpace(" 5") == "5" by {
      assert " 5"[1..] == "5";
    }
    assert TrimSqlSpace("5 ") == "5" by {
      assert "5 "[..1] == "5";
    }
    assert DigitsValue("5") == 5 by {
      assert "5"[..0] == "";
    }
  }

  /** Storing a cell's value again stores the same value. */
  lemma IntegerCellIdempotent(v: Value)
    ensures IntegerCell(IntegerCell(v)) == IntegerCell(v)
  {
  }

  const EmptyTables := Tables([], 1, [], 1, [], [], 1, [], 1, [], 1)

  /** The shared `db` handle of server/src/db.js. */
  class Database {
    var otpCodes: seq<OtpCode>
    var nextOtpId: int
    var users: seq<User>
    var nextUserId: int
    var profiles: seq<Profile>
    var events: seq<Event>
    var nextEventId: int
    var photos: seq<Photo>
    var nextPhotoId: int
    var bookings: seq<Booking>
    var nextBookingId: int

    function Snapshot(): Tables
      reads this
    {
      Tables(otpCodes, nextOtpId, users, nextUserId, profiles, events, nextEventId,
             photos, nextPhotoId, bookings, nextBookingId)
    }

    predicate Valid()
      reads this
    {
      TablesValid(Snapshot())
    }

    /** A freshly created database file: every table empty. */
    constructor ()
      ensures Valid() && Snapshot() == EmptyTables
    {
      otpCodes, nextOtpId := [], 1;
      users, nextUserId := [], 1;
      profiles := [];
      events, nextEventId := [], 1;
      photos, nextPhotoId := [], 1;
      bookings, nextBookingId := [], 1;
    }
  }
}
