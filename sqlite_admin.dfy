/** The admin router of the SQLite variant (server/src/routes/admin.js):
    event create / update / delete, photo upload, the booking list and the
    booking status change. Every route sits behind `AccessGuard.AdminGate`;
    the handlers below receive the `req.user` that gate passed on. */
module SqliteAdmin {
  import opened Rows
  import opened Js
  import opened Http
  import opened AccessGuard
  import opened Uploads
  import opened SqliteDb
  import opened SqliteEvents

  /** The event fields of a create or update request body. */
  datatype EventInput = EventInput(
    category: Value, title: Value, budgetMin: Value, budgetMax: Value,
    companyName: Value, contactNumber: Value, location: Value, description: Value)

  /** One row of `GET /admin/bookings`. */
  datatype AdminBookingRow = AdminBookingRow(
    id: int, status: string, notes: string, createdAt: int, userMobile: string, eventTitle: string)

  /** The message of the `fileFilter` error. */
  const FilterMessage := "Only images allowed"

  // ---------------------------------------------------------------------
  // Stored file names.

  /** The characters the file-name sanitiser keeps: `[a-zA-Z0-9.\-_]`. */
  predicate SafeChar(c: char)
  {
    'a' <= c <= 'z' || 'A' <= c <= 'Z' || '0' <= c <= '9' || c == '.' || c == '-' || c == '_'
  }

  /** The original name with every other character replaced by '_'. */
  function SafeName(s: string): (r: string)
    ensures |r| == |s|
    ensures forall k :: 0 <= k < |r| ==> SafeChar(r[k])
    decreases |s|
  {
    if s == [] then [] else [if SafeChar(s[0]) then s[0] else '_'] + SafeName(s[1..])
  }

  /** `Date.now() + '-' + Math.round(Math.random() * 1e9) + '-' + safeName`:
      `now` is the clock in milliseconds and `rand` the rounded random number. */
  function StoredFileName(now: int, rand: int, originalName: string): string
  {
    IntToString(now) + "-" + IntToString(rand) + "-" + SafeName(originalName)
  }

  /** `file.path`: the stored name inside the upload directory, one per file. */
  function StoredPaths(files: seq<UploadedFile>, times: seq<int>, rands: seq<int>, uploadDir: string): (r: seq<string>)
    requires |times| == |files| && |rands| == |files|
    ensures |r| == |files|
    ensures forall k :: 0 <= k < |files| ==> r[k] == uploadDir + "/" + StoredFileName(times[k], rands[k], files[k].originalName)
  {
    seq(|files|, k requires 0 <= k < |files| => uploadDir + "/" + StoredFileName(times[k], rands[k], files[k].originalName))
  }

  // ---------------------------------------------------------------------
  // Events.

  /** The row `POST /admin/events` inserts: a falsy budget becomes NULL, a
      falsy text field '', and `created_by` is the caller's id. */
  function NewEvent(t: Tables, admin: Claims, input: EventInput, now: int): Event
  {
    Event(t.nextEventId, ToJsString(input.category), ToJsString(input.title),
          IntegerCell(Or(input.budgetMin, Null)), IntegerCell(Or(input.budgetMax, Null)),
          ToJsString(Or(input.companyName, Text(""))), ToJsString(Or(input.contactNumber, Text(""))),
          ToJsString(Or(input.location, Text(""))), ToJsString(Or(input.description, Text(""))),
          IntegerCell(Coalesce(admin.id, Null)), now, now)
  }

  function CreateEventStep(t: Tables, admin: Claims, input: EventInput, now: int): Effect<Event>
  {
    if !Truthy(input.category) || !Truthy(input.title) then Effect(t, Fail(400, "category and title required"))
    else
      var e := NewEvent(t, admin, input, now);
      Effect(t.(events := t.events + [e], nextEventId := t.nextEventId + 1), Ok(201, e))
  }

  /** The `UPDATE` of `PUT /admin/events/:id` applied to a stored row:
      category and title are replaced only by truthy values, every other
      field by any value that is not null or undefined. */
  function Revised(e: Event, input: EventInput, now: int): Event
  {
    e.(category := ToJsString(Or(input.category, Text(e.category))),
       title := ToJsString(Or(input.title, Text(e.title))),
       budgetMin := IntegerCell(Coalesce(input.budgetMin, e.budgetMin)),
       budgetMax := IntegerCell(Coalesce(input.budgetMax, e.budgetMax)),
       companyName := ToJsString(Coalesce(input.companyName, Text(e.companyName))),
       contactNumber := ToJsString(Coalesce(input.contactNumber, Text(e.contactNumber))),
       location := ToJsString(Coalesce(input.location, Text(e.location))),
       description := ToJsString(Coalesce(input.description, Text(e.description))),
       updatedAt := now)
  }

  function EventsRevised(events: seq<Event>, id: int, input: EventInput, now: int): (r: seq<Event>)
    ensures |r| == |events|
  {
    Update(events, (e: Event) => e.id == id, (e: Event) => Revised(e, input, now))
  }

  function UpdateEventStep(t: Tables, idParam: string, input: EventInput, now: int): Effect<Event>
  {
    match ParseInt(idParam)
    case None => Effect(t, Fail(404, "Event not found"))
    case Some(id) =>
      match EventIndex(t.events, id)
      case None => Effect(t, Fail(404, "Event not found"))
      case Some(k) =>
        var t' := t.(events := EventsRevised(t.events, id, input, now));
        Effect(t', Ok(200, t'.events[k]))
  }

  /** `DELETE FROM events WHERE id = ?` */
  function EventsWithout(events: seq<Event>, id: int): (r: seq<Event>)
    ensures |r| <= |events|
  {
    Filter(events, (e: Event) => e.id != id)
  }

  /** `DELETE /admin/events/:id`. The model does not enforce the schema's
      foreign keys, so here the event's photos and bookings stay behind. */
  function DeleteEventStep(t: Tables, idParam: string): Effect<bool>
  {
    match ParseInt(idParam)
    case None => Effect(t, Fail(404, "Event not found"))
    case Some(id) =>
      if EventIndex(t.events, id).None? then Effect(t, Fail(404, "Event not found"))
      else Effect(t.(events := EventsWithout(t.events, id)), Ok(200, true))
  }

  method CreateEvent(db: Database, admin: Claims, input: EventInput, now: int) returns (reply: Reply<Event>)
    requires db.Valid()
    modifies db
    ensures db.Valid()
    ensures Effect(db.Snapshot(), reply) == CreateEventStep(old(db.Snapshot()), admin, input, now)
  {
    CreateEventKeepsValid(db.Snapshot(), admin, input, now);
    if !Truthy(input.category) || !Truthy(input.title) {
      return Fail(400, "category and title required");
    }
    ghost var t := db.Snapshot();
    var event := NewEvent(db.Snapshot(), admin, input, now);
    db.events := db.events + [event];
    db.nextEventId := db.nextEventId + 1;
    assert db.Snapshot() == t.(events := t.events + [event], nextEventId := t.nextEventId + 1);
    reply := Ok(201, event);
  }

  method UpdateEvent(db: Database, idParam: string, input: EventInput, now: int) returns (reply: Reply<Event>)
    requires db.Valid()
    modifies db
    ensures db.Valid()
    ensures Effect(db.Snapshot(), reply) == UpdateEventStep(old(db.Snapshot()), idParam, input, now)
  {
    UpdateEventKeepsValid(db.Snapshot(), idParam, input, now);
    var parsed := ParseInt(idParam);
    if parsed.None? {
      return Fail(404, "Event not found");
    }
    var id := parsed.value;
    var existing := EventIndex(db.events, id);
    if existing.None? {
      return Fail(404, "Event not found");
    }
    db.events := EventsRevised(db.events, id, input, now);
    reply := Ok(200, db.events[existing.value]);
  }

  method DeleteEvent(db: Database, idParam: string) returns (reply: Reply<bool>)
    requires db.Valid()
    modifies db
    ensures db.Valid()
    ensures Effect(db.Snapshot(), reply) == DeleteEventStep(old(db.Snapshot()), idParam)
  {
    DeleteEventKeepsValid(db.Snapshot(), idParam);
    var parsed := ParseInt(idParam);
    if parsed.None? {
      return Fail(404, "Event not found");
    }
    var id := parsed.value;
    if EventIndex(db.events, id).None? {
      return Fail(404, "Event not found");
    }
    db.events := EventsWithout(db.events, id);
    reply := Ok(200, true);
  }

  // ---------------------------------------------------------------------
  // Photos.

  /** The `event_photos` rows the handler's loop inserts for the stored
      files, one after another, each under `/uploads/<base name>`. */
  function InsertPhotos(t: Tables, id: int, filePaths: seq<string>): Tables
    decreases |filePaths|
  {
    if filePaths == [] then t
    else
      var prev := InsertPhotos(t, id, filePaths[..|filePaths| - 1]);
      prev.(photos := prev.photos + [Photo(prev.nextPhotoId, id, "/uploads/" + Basename(filePaths[|filePaths| - 1]))],
            nextPhotoId := prev.nextPhotoId + 1)
  }

  /** `POST /admin/events/:id/photos`. multer runs first, so a refused file
      fails the request (through the error handler, status 500) before the
      event is looked up. `times[k]` and `rands[k]` are the clock and the
      random number read when the `k`-th file was named. */
  function UploadPhotosStep(t: Tables, idParam: string, files: seq<UploadedFile>, times: seq<int>,
                            rands: seq<int>, uploadDir: string): Effect<seq<PhotoView>>
    requires |times| == |files| && |rands| == |files|
  {
    match MulterCheck(files, FilterMessage, 0)
    case Some(message) => Effect(t, Fail(500, message))
    case None =>
      match ParseInt(idParam)
      case None => Effect(t, Fail(404, "Event not found"))
      case Some(id) =>
        if EventIndex(t.events, id).None? then Effect(t, Fail(404, "Event not found"))
        else
          var t' := InsertPhotos(t, id, StoredPaths(files, times, rands, uploadDir));
          Effect(t', Ok(200, PhotosOf(t'.photos, id)))
  }

  /** The loop `for (const f of files) insertPhoto.run(...)`. */
  method InsertPhotoRows(db: Database, id: int, filePaths: seq<string>)
    modifies db
    ensures db.Snapshot() == InsertPhotos(old(db.Snapshot()), id, filePaths)
  {
    ghost var start := db.Snapshot();
    for i := 0 to |filePaths|
      invariant db.Snapshot() == InsertPhotos(start, id, filePaths[..i])
    {
      InsertPhotosNext(start, id, filePaths, i);
      InsertPhotoRow(db, id, filePaths[i]);
    }
    assert filePaths[..|filePaths|] == filePaths;
  }

  /** `insertPhoto.run(id, '/uploads/' + path.basename(f.path))` */
  method InsertPhotoRow(db: Database, id: int, filePath: string)
    modifies db
    ensures var t := old(db.Snapshot());
      db.Snapshot() == t.(photos := t.photos + [Photo(t.nextPhotoId, id, "/uploads/" + Basename(filePath))],
                          nextPhotoId := t.nextPhotoId + 1)
  {
    db.photos := db.photos + [Photo(db.nextPhotoId, id, "/uploads/" + Basename(filePath))];
    db.nextPhotoId := db.nextPhotoId + 1;
  }

  method UploadPhotos(db: Database, idParam: string, files: seq<UploadedFile>, times: seq<int>,
                      rands: seq<int>, uploadDir: string) returns (reply: Reply<seq<PhotoView>>)
    requires db.Valid()
    requires |times| == |files| && |rands| == |files|
    modifies db
    ensures db.Valid()
    ensures Effect(db.Snapshot(), reply) == UploadPhotosStep(old(db.Snapshot()), idParam, files, times, rands, uploadDir)
  {
    UploadPhotosKeepsValid(db.Snapshot(), idParam, files, times, rands, uploadDir);
    var rejected := MulterCheck(files, FilterMessage, 0);
    if rejected.Some? {
      return Fail(500, rejected.value);
    }
    var parsed := ParseInt(idParam);
    if parsed.None? {
      return Fail(404, "Event not found");
    }
    var id := parsed.value;
    if EventIndex(db.events, id).None? {
      return Fail(404, "Event not found");
    }
    var filePaths := StoredPaths(files, times, rands, uploadDir);
    InsertPhotoRows(db, id, filePaths);
    reply := Ok(200, PhotosOf(db.photos, id));
  }

  // ---------------------------------------------------------------------
  // Bookings.

  /** `JOIN users u ON u.id = b.user_id` */
  function UserWithId(users: seq<User>, cell: Value): (r: Option<nat>)
    ensures r.None? <==> forall k :: 0 <= k < |users| ==> Int(users[k].id) != cell
    ensures r.Some? ==> r.value < |users| && Int(users[r.value].id) == cell
  {
    FirstIndex(users, (u: User) => Int(u.id) == cell)
  }

  /** `JOIN events e ON e.id = b.event_id` */
  function EventWithId(events: seq<Event>, cell: Value): (r: Option<nat>)
    ensures r.None? <==> forall k :: 0 <= k < |events| ==> Int(events[k].id) != cell
    ensures r.Some? ==> r.value < |events| && Int(events[r.value].id) == cell
  {
    FirstIndex(events, (e: Event) => Int(e.id) == cell)
  }

  /** The inner joins keep a booking whose user and event both exist. */
  predicate Joinable(t: Tables, b: Booking)
  {
    UserWithId(t.users, b.userId).Some? && EventWithId(t.events, b.eventId).Some?
  }

  function JoinRow(t: Tables, b: Booking): AdminBookingRow
  {
    var u := UserWithId(t.users, b.userId);
    var e := EventWithId(t.events, b.eventId);
    AdminBookingRow(b.id, b.status, b.notes, b.createdAt,
                    if u.Some? then t.users[u.value].mobile else "",
                    if e.Some? then t.events[e.value].title else "")
  }

  function JoinedBookings(t: Tables): seq<Booking>
  {
    Reverse(Filter(t.bookings, (b: Booking) => Joinable(t, b)))
  }

  /** `GET /admin/bookings`: the joinable bookings, `ORDER BY b.id DESC`. */
  function AdminBookings(t: Tables): (r: seq<AdminBookingRow>)
    ensures |r| == |JoinedBookings(t)|
    ensures forall k :: 0 <= k < |r| ==> r[k] == JoinRow(t, JoinedBookings(t)[k])
  {
    var rows := JoinedBookings(t);
    seq(|rows|, k requires 0 <= k < |rows| => JoinRow(t, rows[k]))
  }

  /** The statuses `PUT /admin/bookings/:id/status` accepts. */
  predicate AllowedStatus(status: Value)
  {
    status == Text("PENDING") || status == Text("APPROVED") || status == Text("REJECTED")
  }

  function BookingIndex(bookings: seq<Booking>, id: int): (r: Option<nat>)
    ensures r.None? <==> forall k :: 0 <= k < |bookings| ==> bookings[k].id != id
    ensures r.Some? ==> r.value < |bookings| && bookings[r.value].id == id
  {
    FirstIndex(bookings, (b: Booking) => b.id == id)
  }

  function StatusChanged(bookings: seq<Booking>, id: int, status: string, now: int): (r: seq<Booking>)
    ensures |r| == |bookings|
  {
    Update(bookings, (b: Booking) => b.id == id, (b: Booking) => b.(status := status, updatedAt := now))
  }

  /** `PUT /admin/bookings/:id/status`: the status is checked before the booking is looked up. */
  function UpdateBookingStatusStep(t: Tables, idParam: string, status: Value, now: int): Effect<Booking>
  {
    if !AllowedStatus(status) then Effect(t, Fail(400, "Invalid status"))
    else match ParseInt(idParam)
      case None => Effect(t, Fail(404, "Booking not found"))
      case Some(id) =>
        match BookingIndex(t.bookings, id)
        case None => Effect(t, Fail(404, "Booking not found"))
        case Some(k) =>
          var t' := t.(bookings := StatusChanged(t.bookings, id, status.s, now));
          Effect(t', Ok(200, t'.bookings[k]))
  }

  method UpdateBookingStatus(db: Database, idParam: string, status: Value, now: int) returns (reply: Reply<Booking>)
    requires db.Valid()
    modifies db
    ensures db.Valid()
    ensures Effect(db.Snapshot(), reply) == UpdateBookingStatusStep(old(db.Snapshot()), idParam, status, now)
  {
    UpdateBookingStatusKeepsValid(db.Snapshot(), idParam, status, now);
    if !AllowedStatus(status) {
      return Fail(400, "Invalid status");
    }
    var parsed := ParseInt(idParam);
    if parsed.None? {
      return Fail(404, "Booking not found");
    }
    var id := parsed.value;
    var existing := BookingIndex(db.bookings, id);
    if existing.None? {
      return Fail(404, "Booking not found");
    }
    db.bookings := StatusChanged(db.bookings, id, status.s, now);
    reply := Ok(200, db.bookings[existing.value]);
  }

  // ---------------------------------------------------------------------
  // Properties.

  /** The sanitiser works character by character. */
  lemma {:induction false} SafeNamePointwise(s: string)
    ensures forall k :: 0 <= k < |s| ==> SafeName(s)[k] == (if SafeChar(s[k]) then s[k] else '_')
    decreases |s|
  {
    if s != [] {
      SafeNamePointwise(s[1..]);
      assert forall k :: 1 <= k < |s| ==> SafeName(s)[k] == SafeName(s[1..])[k - 1];
    }
  }

  /** A name is left as it is exactly when it only has safe characters, so
      sanitising twice is sanitising once. */
  lemma SafeNameFixedExactlyOnSafe(s: string)
    ensures SafeName(s) == s <==> forall k :: 0 <= k < |s| ==> SafeChar(s[k])
    ensures SafeName(SafeName(s)) == SafeName(s)
  {
    SafeNamePointwise(s);
    SafeNamePointwise(SafeName(s));
    if forall k :: 0 <= k < |s| ==> SafeChar(s[k]) {
      assert forall k :: 0 <= k < |s| ==> SafeName(s)[k] == s[k];
    }
  }

  lemma IntToStringSafe(i: int)
    ensures forall k :: 0 <= k < |IntToString(i)| ==> SafeChar(IntToString(i)[k])
  {
    var n: nat := if i < 0 then -i else i;
    var digits := NatToString(n);
    assert forall k :: 0 <= k < |digits| ==> IsDigit(digits[k]);
  }

  /** A stored file name has only safe characters, so never a '/': whatever
      the original name, the photo is stored inside the upload directory and
      its row records exactly that name. */
  lemma StoredFileNameSafe(now: int, rand: int, originalName: string, uploadDir: string)
    ensures forall k :: 0 <= k < |StoredFileName(now, rand, originalName)| ==> SafeChar(StoredFileName(now, rand, originalName)[k])
    ensures Basename(uploadDir + "/" + StoredFileName(now, rand, originalName)) == StoredFileName(now, rand, originalName)
  {
    var name := StoredFileName(now, rand, originalName);
    IntToStringSafe(now);
    IntToStringSafe(rand);
    var a := IntToString(now);
    var b := IntToString(rand);
    var c := SafeName(originalName);
    assert name == a + "-" + b + "-" + c;
    forall k | 0 <= k < |name| ensures SafeChar(name[k]) {
      if k < |a| {
        assert name[k] == a[k];
      } else if k == |a| {
        assert name[k] == '-';
      } else if k < |a| + 1 + |b| {
        assert name[k] == b[k - |a| - 1];
      } else if k == |a| + 1 + |b| {
        assert name[k] == '-';
      } else {
        assert name[k] == c[k - |a| - |b| - 2];
      }
    }
    assert '/' !in name;
    BasenameOfJoin(uploadDir, name);
  }

  /** Event creation: a 400 exactly when category or title is falsy;
      otherwise one row appended under a fresh id owned by the caller, with
      each truthy field stored as given (a budget as its INTEGER column reads
      it), falsy budgets stored as NULL and falsy text fields as ''. */
  lemma CreateEventOutcome(t: Tables, admin: Claims, input: EventInput, now: int)
    ensures CreateEventStep(t, admin, input, now).reply.Fail? <==> !Truthy(input.category) || !Truthy(input.title)
    ensures CreateEventStep(t, admin, input, now).reply.Fail? ==>
      CreateEventStep(t, admin, input, now) == Effect(t, Fail(400, "category and title required"))
    ensures var r := CreateEventStep(t, admin, input, now);
      r.reply.Ok? ==>
        r.reply.status == 201
        && r.tables == t.(events := t.events + [r.reply.body], nextEventId := t.nextEventId + 1)
        && r.reply.body.id == t.nextEventId
        && r.reply.body.category == ToJsString(input.category) && r.reply.body.title == ToJsString(input.title)
        && r.reply.body.budgetMin == (if Truthy(input.budgetMin) then IntegerCell(input.budgetMin) else Null)
        && r.reply.body.budgetMax == (if Truthy(input.budgetMax) then IntegerCell(input.budgetMax) else Null)
        && r.reply.body.companyName == (if Truthy(input.companyName) then ToJsString(input.companyName) else "")
        && r.reply.body.contactNumber == (if Truthy(input.contactNumber) then ToJsString(input.contactNumber) else "")
        && r.reply.body.location == (if Truthy(input.location) then ToJsString(input.location) else "")
        && r.reply.body.description == (if Truthy(input.description) then ToJsString(input.description) else "")
        && (forall i :: admin.id == Int(i) ==> r.reply.body.createdBy == Int(i))
        && r.reply.body.createdAt == now && r.reply.body.updatedAt == now
  {
  }

  lemma CreateEventKeepsValid(t: Tables, admin: Claims, input: EventInput, now: int)
    requires TablesValid(t)
    ensures TablesValid(CreateEventStep(t, admin, input, now).tables)
  {
    var r := CreateEventStep(t, admin, input, now);
    if r.reply.Ok? {
      AppendFresh(t.events, r.reply.body, EventId, t.nextEventId);
    }
  }

  /** Event update: a 404 exactly when the id does not parse or names no
      event; otherwise only that event changes. Its id, owner and creation
      time stay; category and title take a truthy value and otherwise keep
      the stored one; every other field takes any value that is not null or
      undefined and otherwise keeps the stored one (a budget as its INTEGER
      column reads it); `updated_at` becomes `now`. */
  lemma UpdateEventOutcome(t: Tables, idParam: string, input: EventInput, now: int)
    requires TablesValid(t)
    ensures UpdateEventStep(t, idParam, input, now).reply.Fail? <==>
      ParseInt(idParam).None? || EventIndex(t.events, ParseInt(idParam).value).None?
    ensures UpdateEventStep(t, idParam, input, now).reply.Fail? ==>
      UpdateEventStep(t, idParam, input, now) == Effect(t, Fail(404, "Event not found"))
    ensures var r := UpdateEventStep(t, idParam, input, now);
      r.reply.Ok? ==>
        var k := EventIndex(t.events, ParseInt(idParam).value).value;
        var old_ := t.events[k];
        var new_ := r.reply.body;
        r.tables == t.(events := r.tables.events)
        && |r.tables.events| == |t.events|
        && (forall j :: 0 <= j < |t.events| && j != k ==> r.tables.events[j] == t.events[j])
        && r.tables.events[k] == new_
        && new_.id == old_.id && new_.createdBy == old_.createdBy && new_.createdAt == old_.createdAt
        && new_.category == (if Truthy(input.category) then ToJsString(input.category) else old_.category)
        && new_.title == (if Truthy(input.title) then ToJsString(input.title) else old_.title)
        && new_.budgetMin == IntegerCell(if Nullish(input.budgetMin) then old_.budgetMin else input.budgetMin)
        && new_.budgetMax == IntegerCell(if Nullish(input.budgetMax) then old_.budgetMax else input.budgetMax)
        && new_.companyName == (if Nullish(input.companyName) then old_.companyName else ToJsString(input.companyName))
        && new_.contactNumber == (if Nullish(input.contactNumber) then old_.contactNumber else ToJsString(input.contactNumber))
        && new_.location == (if Nullish(input.location) then old_.location else ToJsString(input.location))
        && new_.description == (if Nullish(input.description) then old_.description else ToJsString(input.description))
        && new_.updatedAt == now
  {
    var r := UpdateEventStep(t, idParam, input, now);
    if r.reply.Ok? {
      var id := ParseInt(idParam).value;
      var k := EventIndex(t.events, id).value;
      forall j | 0 <= j < |t.events| && j != k ensures r.tables.events[j] == t.events[j] {
        if t.events[j].id == id {
          IncreasingKeyUnique(t.events, EventId, j, k);
        }
      }
    }
  }

  lemma UpdateEventKeepsValid(t: Tables, idParam: string, input: EventInput, now: int)
    requires TablesValid(t)
    ensures TablesValid(UpdateEventStep(t, idParam, input, now).tables)
  {
    var r := UpdateEventStep(t, idParam, input, now);
    if r.reply.Ok? {
      var id := ParseInt(idParam).value;
      var f := (e: Event) => Revised(e, input, now);
      UpdateIncreasing(t.events, (e: Event) => e.id == id, f, EventId);
      assert forall k :: 0 <= k < |r.tables.events| ==> r.tables.events[k].id == t.events[k].id;
    }
  }

  /** Event deletion: a 404 exactly when the id names no event; otherwise
      the event, and only it, is gone, while its photos and bookings remain. */
  lemma DeleteEventOutcome(t: Tables, idParam: string, e: Event)
    ensures DeleteEventStep(t, idParam).reply.Fail? <==>
      ParseInt(idParam).None? || EventIndex(t.events, ParseInt(idParam).value).None?
    ensures DeleteEventStep(t, idParam).reply.Fail? ==> DeleteEventStep(t, idParam) == Effect(t, Fail(404, "Event not found"))
    ensures var r := DeleteEventStep(t, idParam);
      r.reply.Ok? ==>
        r.tables == t.(events := r.tables.events)
        && (e in r.tables.events <==> e in t.events && e.id != ParseInt(idParam).value)
        && r.tables.photos == t.photos && r.tables.bookings == t.bookings
  {
    if ParseInt(idParam).Some? {
      FilterMember(t.events, (x: Event) => x.id != ParseInt(idParam).value, e);
    }
  }

  lemma DeleteEventKeepsValid(t: Tables, idParam: string)
    requires TablesValid(t)
    ensures TablesValid(DeleteEventStep(t, idParam).tables)
  {
    if ParseInt(idParam).Some? {
      var p := (x: Event) => x.id != ParseInt(idParam).value;
      FilterIncreasing(t.events, p, EventId);
      FilterAllBelow(t.events, p, EventId, t.nextEventId);
    }
  }

  /** Without foreign-key enforcement, after an event is deleted the
      bookings made for it drop out of the admin booking list although their
      rows remain. */
  lemma DeletedEventBookingsHidden(t: Tables, idParam: string, b: Booking)
    requires TablesValid(t)
    requires DeleteEventStep(t, idParam).reply.Ok?
    requires b in t.bookings && b.eventId == Int(ParseInt(idParam).value)
    ensures b in DeleteEventStep(t, idParam).tables.bookings
    ensures forall r :: r in AdminBookings(DeleteEventStep(t, idParam).tables) ==> r.id != b.id
  {
    var id := ParseInt(idParam).value;
    var t' := DeleteEventStep(t, idParam).tables;
    var p := (x: Event) => x.id != id;
    forall k | 0 <= k < |t'.events| ensures Int(t'.events[k].id) != b.eventId {
      FilterMember(t.events, p, t'.events[k]);
    }
    assert !Joinable(t', b);
    forall r | r in AdminBookings(t') ensures r.id != b.id {
      var j :| 0 <= j < |AdminBookings(t')| && AdminBookings(t')[j] == r;
      var b' := JoinedBookings(t')[j];
      AdminBookingsSound(t', j);
    }
  }

  /** The photos the upload loop adds: one per stored path, in order, under
      consecutive fresh ids; nothing else changes. */
  lemma {:induction false} InsertPhotosFacts(t: Tables, id: int, filePaths: seq<string>)
    ensures var r := InsertPhotos(t, id, filePaths);
      r == t.(photos := r.photos, nextPhotoId := r.nextPhotoId)
      && r.nextPhotoId == t.nextPhotoId + |filePaths|
      && |r.photos| == |t.photos| + |filePaths|
      && r.photos[..|t.photos|] == t.photos
      && forall k :: 0 <= k < |filePaths| ==>
           r.photos[|t.photos| + k] == Photo(t.nextPhotoId + k, id, "/uploads/" + Basename(filePaths[k]))
    decreases |filePaths|
  {
    if filePaths != [] {
      var n := |filePaths| - 1;
      InsertPhotosFacts(t, id, filePaths[..n]);
      var prev := InsertPhotos(t, id, filePaths[..n]);
      var r := InsertPhotos(t, id, filePaths);
      assert r.photos == prev.photos + [Photo(prev.nextPhotoId, id, "/uploads/" + Basename(filePaths[n]))];
      forall k | 0 <= k < |filePaths|
        ensures r.photos[|t.photos| + k] == Photo(t.nextPhotoId + k, id, "/uploads/" + Basename(filePaths[k]))
      {
        if k < n {
          assert filePaths[..n][k] == filePaths[k];
          assert r.photos[|t.photos| + k] == prev.photos[|t.photos| + k];
        }
      }
    }
  }

  /** One more turn of the upload loop inserts the next photo. */
  lemma InsertPhotosNext(t: Tables, id: int, filePaths: seq<string>, i: nat)
    requires i < |filePaths|
    ensures var prev := InsertPhotos(t, id, filePaths[..i]);
      InsertPhotos(t, id, filePaths[..i + 1])
      == prev.(photos := prev.photos + [Photo(prev.nextPhotoId, id, "/uploads/" + Basename(filePaths[i]))],
               nextPhotoId := prev.nextPhotoId + 1)
  {
    assert filePaths[..i + 1][..i] == filePaths[..i];
  }

  lemma InsertPhotosKeepsValid(t: Tables, id: int, filePaths: seq<string>)
    requires TablesValid(t)
    ensures TablesValid(InsertPhotos(t, id, filePaths))
  {
    var r := InsertPhotos(t, id, filePaths);
    InsertPhotosFacts(t, id, filePaths);
    var n := |t.photos|;
    assert forall k :: 0 <= k < |r.photos| ==> r.photos[k].id < r.nextPhotoId by {
      forall k | 0 <= k < |r.photos| ensures r.photos[k].id < r.nextPhotoId {
        if k < n {
          assert r.photos[k] == t.photos[k];
        } else {
          assert r.photos[k] == r.photos[n + (k - n)];
        }
      }
    }
    forall i, j | 0 <= i < j < |r.photos| ensures r.photos[i].id < r.photos[j].id {
      if j < n {
        assert r.photos[i] == t.photos[i] && r.photos[j] == t.photos[j];
      } else if i < n {
        assert r.photos[i] == t.photos[i];
        assert r.photos[j] == r.photos[n + (j - n)];
      } else {
        assert r.photos[i] == r.photos[n + (i - n)];
        assert r.photos[j] == r.photos[n + (j - n)];
      }
    }
  }

  /** Photo upload: a file multer refuses fails the request with its message
      even when the event does not exist, and changes nothing; an unknown
      event is then a 404; otherwise every file gets one row for this event
      whose path is `/uploads/` followed by its stored name, and the reply
      lists all of the event's photos. */
  lemma UploadPhotosOutcome(t: Tables, idParam: string, files: seq<UploadedFile>, times: seq<int>,
                            rands: seq<int>, uploadDir: string)
    requires |times| == |files| && |rands| == |files|
    ensures var r := UploadPhotosStep(t, idParam, files, times, rands, uploadDir);
      MulterCheck(files, FilterMessage, 0).Some? ==> r == Effect(t, Fail(500, MulterCheck(files, FilterMessage, 0).value))
    ensures var r := UploadPhotosStep(t, idParam, files, times, rands, uploadDir);
      (MulterCheck(files, FilterMessage, 0).None? && (ParseInt(idParam).None? || EventIndex(t.events, ParseInt(idParam).value).None?))
      ==> r == Effect(t, Fail(404, "Event not found"))
    ensures MulterCheck(files, FilterMessage, 0).None? && ParseInt(idParam).Some?
            && EventIndex(t.events, ParseInt(idParam).value).Some? ==>
      UploadPhotosStep(t, idParam, files, times, rands, uploadDir).reply.Ok?
    ensures var r := UploadPhotosStep(t, idParam, files, times, rands, uploadDir);
      r.reply.Ok? ==>
        |files| <= MaxFiles
        && r.tables == t.(photos := r.tables.photos, nextPhotoId := t.nextPhotoId + |files|)
        && |r.tables.photos| == |t.photos| + |files|
        && r.tables.photos[..|t.photos|] == t.photos
        && (forall k :: 0 <= k < |files| ==>
              r.tables.photos[|t.photos| + k]
              == Photo(t.nextPhotoId + k, ParseInt(idParam).value, "/uploads/" + StoredFileName(times[k], rands[k], files[k].originalName)))
        && r.reply.body == PhotosOf(r.tables.photos, ParseInt(idParam).value)
  {
    var r := UploadPhotosStep(t, idParam, files, times, rands, uploadDir);
    if r.reply.Ok? {
      MulterAcceptsExactly(files, FilterMessage, 0);
      var paths := StoredPaths(files, times, rands, uploadDir);
      InsertPhotosFacts(t, ParseInt(idParam).value, paths);
      forall k | 0 <= k < |files|
        ensures Basename(paths[k]) == StoredFileName(times[k], rands[k], files[k].originalName)
      {
        StoredFileNameSafe(times[k], rands[k], files[k].originalName, uploadDir);
      }
    }
  }

  lemma UploadPhotosKeepsValid(t: Tables, idParam: string, files: seq<UploadedFile>, times: seq<int>,
                               rands: seq<int>, uploadDir: string)
    requires TablesValid(t)
    requires |times| == |files| && |rands| == |files|
    ensures TablesValid(UploadPhotosStep(t, idParam, files, times, rands, uploadDir).tables)
  {
    if MulterCheck(files, FilterMessage, 0).None? && ParseInt(idParam).Some? {
      InsertPhotosKeepsValid(t, ParseInt(idParam).value, StoredPaths(files, times, rands, uploadDir));
    }
  }

  /** Every listed booking row comes from a booking whose user and event
      exist, carrying that user's mobile and that event's title. */
  lemma AdminBookingsSound(t: Tables, j: nat)
    requires j < |AdminBookings(t)|
    ensures var b := JoinedBookings(t)[j];
      b in t.bookings && Joinable(t, b)
      && AdminBookings(t)[j] == JoinRow(t, b)
      && exists u, e :: u in t.users && e in t.events && b.userId == Int(u.id) && b.eventId == Int(e.id)
           && AdminBookings(t)[j] == AdminBookingRow(b.id, b.status, b.notes, b.createdAt, u.mobile, e.title)
  {
    var p := (b: Booking) => Joinable(t, b);
    var b := JoinedBookings(t)[j];
    ReverseMember(Filter(t.bookings, p), b);
    FilterMember(t.bookings, p, b);
    var u := t.users[UserWithId(t.users, b.userId).value];
    var e := t.events[EventWithId(t.events, b.eventId).value];
    assert AdminBookings(t)[j] == AdminBookingRow(b.id, b.status, b.notes, b.createdAt, u.mobile, e.title);
  }

  /** Every booking whose user and event exist is listed. */
  lemma AdminBookingsComplete(t: Tables, b: Booking)
    requires b in t.bookings && Joinable(t, b)
    ensures JoinRow(t, b) in AdminBookings(t)
  {
    var p := (x: Booking) => Joinable(t, x);
    FilterMember(t.bookings, p, b);
    ReverseMember(Filter(t.bookings, p), b);
    var j :| 0 <= j < |JoinedBookings(t)| && JoinedBookings(t)[j] == b;
    assert AdminBookings(t)[j] == JoinRow(t, b);
  }

  /** The admin list is ordered by booking id, newest first. */
  lemma AdminBookingsNewestFirst(t: Tables)
    requires TablesValid(t)
    ensures forall i, j :: 0 <= i < j < |AdminBookings(t)| ==> AdminBookings(t)[i].id > AdminBookings(t)[j].id
  {
    var p := (b: Booking) => Joinable(t, b);
    FilterIncreasing(t.bookings, p, BookingId);
    ReverseDecreasing(Filter(t.bookings, p), BookingId);
  }

  /** Status change: an invalid status is a 400 whatever the id, checked
      before the lookup; a valid one on an unknown booking is a 404;
      otherwise that booking, and only it, gets the new status and
      `updated_at = now`, whatever its previous status was. */
  lemma UpdateBookingStatusOutcome(t: Tables, idParam: string, status: Value, now: int)
    requires TablesValid(t)
    ensures !AllowedStatus(status) ==> UpdateBookingStatusStep(t, idParam, status, now) == Effect(t, Fail(400, "Invalid status"))
    ensures AllowedStatus(status) && (ParseInt(idParam).None? || BookingIndex(t.bookings, ParseInt(idParam).value).None?)
      ==> UpdateBookingStatusStep(t, idParam, status, now) == Effect(t, Fail(404, "Booking not found"))
    ensures var r := UpdateBookingStatusStep(t, idParam, status, now);
      r.reply.Ok? ==>
        var k := BookingIndex(t.bookings, ParseInt(idParam).value).value;
        r.tables == t.(bookings := r.tables.bookings)
        && |r.tables.bookings| == |t.bookings|
        && (forall j :: 0 <= j < |t.bookings| && j != k ==> r.tables.bookings[j] == t.bookings[j])
        && r.reply.body == t.bookings[k].(status := status.s, updatedAt := now)
        && r.tables.bookings[k] == r.reply.body
  {
    var r := UpdateBookingStatusStep(t, idParam, status, now);
    if r.reply.Ok? {
      var id := ParseInt(idParam).value;
      var k := BookingIndex(t.bookings, id).value;
      forall j | 0 <= j < |t.bookings| && j != k ensures r.tables.bookings[j] == t.bookings[j] {
        if t.bookings[j].id == id {
          IncreasingKeyUnique(t.bookings, BookingId, j, k);
        }
      }
    }
  }

  /** No transition is ruled out: any existing booking can be moved to any
      of the three statuses, back to PENDING included. */
  lemma AnyStatusReachable(t: Tables, b: Booking, status: string, now: int)
    requires b in t.bookings
    requires status in {"PENDING", "APPROVED", "REJECTED"}
    ensures UpdateBookingStatusStep(t, IntToString(b.id), Text(status), now).reply.Ok?
    ensures UpdateBookingStatusStep(t, IntToString(b.id), Text(status), now).reply.body.status == status
  {
    ParseIntOfIntToString(b.id);
  }

  lemma UpdateBookingStatusKeepsValid(t: Tables, idParam: string, status: Value, now: int)
    requires TablesValid(t)
    ensures TablesValid(UpdateBookingStatusStep(t, idParam, status, now).tables)
  {
    var r := UpdateBookingStatusStep(t, idParam, status, now);
    if r.reply.Ok? {
      assert forall k :: 0 <= k < |r.tables.bookings| ==> r.tables.bookings[k].id == t.bookings[k].id;
    }
  }
}
