/** The event routes of the MySQL variant (events.js): the filtered
    catalogue, the event detail, the admin's create, update and delete, and
    the photo upload. The validators `isMobilePhone('any')` and
    `isDecimal()` are the parameters `isMobile` and `isDecimal`, MySQL's
    reading of a numeric string is `decimal`, and `now`, `times` are clock
    readings in milliseconds. The `authenticateToken` / `requireAdmin`
    middleware is not part of this model: the admin routes start after it,
    with the `req.user.user_id` it leaves as `callerId`. */
module MysqlEvents {
  import opened Rows
  import opened Js
  import opened Http
  import opened Uploads
  import opened MysqlDb

  const EventTypes := ["Wedding", "Birthday Party", "Baby Shower"]
  const PhotoFilterMessage := "Only image files are allowed"

  // ---------------------------------------------------------------------
  // The catalogue.

  /** The query string of `GET /`; an absent parameter is `Undefined`. */
  datatype EventFilters = EventFilters(eventType: Value, location: Value, minBudget: Value, maxBudget: Value)

  /** One `AND ...` clause appended to `WHERE 1=1`, with what it binds. */
  datatype Condition =
    | TypeIs(eventType: Value)      // e.event_type = ?
    | LocationLike(needle: string)  // e.location LIKE ?, bound to '%<needle>%'
    | BudgetAtLeast(bound: Value)   // e.budget_min >= ?
    | BudgetAtMost(bound: Value)    // e.budget_max <= ?

  /** The clauses in the order the handler appends them, one per truthy filter. */
  function Conditions(f: EventFilters): (r: seq<Condition>)
    ensures |r| <= 4
  {
    var c1: seq<Condition> := if Truthy(f.eventType) then [TypeIs(f.eventType)] else [];
    var c2 := if Truthy(f.location) then c1 + [LocationLike(ToJsString(f.location))] else c1;
    var c3 := if Truthy(f.minBudget) then c2 + [BudgetAtLeast(f.minBudget)] else c2;
    if Truthy(f.maxBudget) then c3 + [BudgetAtMost(f.maxBudget)] else c3
  }

  /** What one clause means for a row: NULL satisfies no comparison, LIKE
      ignores the case of ASCII letters, and a DECIMAL column is compared
      with the number the bound text denotes. */
  predicate Holds(e: MEvent, c: Condition, decimal: string -> real)
  {
    match c
    case TypeIs(v) => SameText(e.eventType, v)
    case LocationLike(needle) =>
      !Nullish(e.location) && Contains(AsciiLower(ToJsString(e.location)), AsciiLower(needle))
    case BudgetAtLeast(v) => e.budgetMin.Some? && e.budgetMin.value >= decimal(ToJsString(v))
    case BudgetAtMost(v) => e.budgetMax.Some? && e.budgetMax.value <= decimal(ToJsString(v))
  }

  predicate Selected(e: MEvent, conditions: seq<Condition>, decimal: string -> real)
  {
    forall k :: 0 <= k < |conditions| ==> Holds(e, conditions[k], decimal)
  }

  /** The catalogue's filters stated directly, one per query parameter. */
  predicate MatchesFilters(e: MEvent, f: EventFilters, decimal: string -> real)
  {
    (Truthy(f.eventType) ==> SameText(e.eventType, f.eventType))
    && (Truthy(f.location) ==>
          !Nullish(e.location) && Contains(AsciiLower(ToJsString(e.location)), AsciiLower(ToJsString(f.location))))
    && (Truthy(f.minBudget) ==> e.budgetMin.Some? && e.budgetMin.value >= decimal(ToJsString(f.minBudget)))
    && (Truthy(f.maxBudget) ==> e.budgetMax.Some? && e.budgetMax.value <= decimal(ToJsString(f.maxBudget)))
  }

  /** `featured_image`: the url of the first photo of the event, if any. */
  function FeaturedImage(photos: seq<EventPhoto>, eventId: int): (r: Option<string>)
    ensures r.None? <==> forall k :: 0 <= k < |photos| ==> !SameInt(photos[k].eventId, Int(eventId))
    ensures r.Some? ==> exists k :: 0 <= k < |photos| && SameInt(photos[k].eventId, Int(eventId)) && photos[k].photoUrl == r.value
  {
    match FirstIndex(photos, (p: EventPhoto) => SameInt(p.eventId, Int(eventId)))
    case None => None
    case Some(k) => Some(photos[k].photoUrl)
  }

  datatype EventListing = EventListing(event: MEvent, featuredImage: Option<string>)

  /** The selected rows, `ORDER BY e.created_at DESC`. */
  function SelectedEvents(events: seq<MEvent>, f: EventFilters, decimal: string -> real): seq<MEvent>
  {
    SortDesc(Filter(events, (e: MEvent) => Selected(e, Conditions(f), decimal)), MEventCreatedAt)
  }

  /** `GET /`: `{ events }`. */
  function ListEvents(t: MTables, f: EventFilters, decimal: string -> real): (r: seq<EventListing>)
    ensures var selected := SelectedEvents(t.events, f, decimal);
      |r| == |selected|
      && forall k :: 0 <= k < |r| ==> r[k] == EventListing(selected[k], FeaturedImage(t.photos, selected[k].eventId))
  {
    var selected := SelectedEvents(t.events, f, decimal);
    seq(|selected|, k requires 0 <= k < |selected| => EventListing(selected[k], FeaturedImage(t.photos, selected[k].eventId)))
  }

  // ---------------------------------------------------------------------
  // The detail.

  /** `SELECT * FROM events WHERE event_id = ?` with the path parameter, first row. */
  function EventById(events: seq<MEvent>, idParam: string): (r: Option<nat>)
    ensures r.None? <==> forall k :: 0 <= k < |events| ==> events[k].eventId != MysqlInt(idParam)
    ensures r.Some? ==> r.value < |events| && events[r.value].eventId == MysqlInt(idParam)
  {
    FirstIndex(events, (e: MEvent) => SameInt(Int(e.eventId), Text(idParam)))
  }

  /** `SELECT * FROM event_photos WHERE event_id = ?` */
  function PhotosOfEvent(photos: seq<EventPhoto>, idParam: string): seq<EventPhoto>
  {
    Filter(photos, (p: EventPhoto) => SameInt(p.eventId, Text(idParam)))
  }

  datatype EventDetail = EventDetail(event: MEvent, photos: seq<EventPhoto>)

  /** `GET /:id`: `{ event }` with its photos, or 404. */
  function GetEvent(t: MTables, idParam: string): Reply<EventDetail>
  {
    match EventById(t.events, idParam)
    case None => Fail(404, "Event not found")
    case Some(k) => Ok(200, EventDetail(t.events[k], PhotosOfEvent(t.photos, idParam)))
  }

  // ---------------------------------------------------------------------
  // Create, update and delete.

  /** The body fields of `POST /` and `PUT /:id`. */
  datatype EventInput = EventInput(
    title: Value, eventType: Value, companyName: Value, contactNumber: Value, location: Value,
    budgetMin: Value, budgetMax: Value, description: Value)

  /** The validators of `POST /` all pass. */
  predicate CreateInputValid(input: EventInput, isMobile: string -> bool, isDecimal: string -> bool)
  {
    ValidatorText(input.title) != ""
    && ValidatorText(input.eventType) in EventTypes
    && ValidatorText(input.companyName) != ""
    && isMobile(ValidatorText(input.contactNumber))
    && ValidatorText(input.location) != ""
    && isDecimal(ValidatorText(input.budgetMin))
    && isDecimal(ValidatorText(input.budgetMax))
  }

  /** The message of the first failing validator. */
  function CreateInputMessage(input: EventInput): string
  {
    if ValidatorText(input.title) == "" then "Title is required" else "Invalid value"
  }

  /** The eight body fields in the order both statements bind them. */
  function Binds(input: EventInput): seq<Value>
  {
    [input.title, input.eventType, input.companyName, input.contactNumber, input.location,
     input.budgetMin, input.budgetMax, input.description]
  }

  /** The row `INSERT INTO events ...` adds. */
  function NewEvent(id: int, input: EventInput, callerId: Value, now: int, decimal: string -> real): MEvent
  {
    MEvent(id, TextColumn(input.title), TextColumn(input.eventType), TextColumn(input.companyName),
           TextColumn(input.contactNumber), TextColumn(input.location),
           DecimalColumn(input.budgetMin, decimal), DecimalColumn(input.budgetMax, decimal),
           TextColumn(input.description), IntColumn(callerId), now)
  }

  /** `POST /`. */
  function CreateEventStep(t: MTables, input: EventInput, callerId: Value, now: int, isMobile: string -> bool,
                           isDecimal: string -> bool, decimal: string -> real): MEffect<Created>
  {
    if !CreateInputValid(input, isMobile, isDecimal) then MEffect(t, Fail(400, CreateInputMessage(input)))
    else if HasUndefined(Binds(input) + [callerId]) then MEffect(t, Fail(500, "Failed to create event"))
    else InsertEvent(t, input, callerId, now, decimal)
  }

  /** The statement `INSERT INTO events ...` once every bound value is defined. */
  function InsertEvent(t: MTables, input: EventInput, callerId: Value, now: int, decimal: string -> real): MEffect<Created>
  {
    MEffect(t.(events := t.events + [NewEvent(t.nextEventId, input, callerId, now, decimal)],
               nextEventId := t.nextEventId + 1),
            Ok(201, Created("Event created successfully", t.nextEventId)))
  }

  method CreateEvent(db: MysqlDatabase, input: EventInput, callerId: Value, now: int, isMobile: string -> bool,
                     isDecimal: string -> bool, decimal: string -> real) returns (reply: Reply<Created>)
    requires db.Valid()
    modifies db
    ensures db.Valid()
    ensures MEffect(db.Snapshot(), reply) == CreateEventStep(old(db.Snapshot()), input, callerId, now, isMobile, isDecimal, decimal)
  {
    CreateEventKeepsValid(db.Snapshot(), input, callerId, now, isMobile, isDecimal, decimal);
    if !CreateInputValid(input, isMobile, isDecimal) {
      return Fail(400, CreateInputMessage(input));
    }
    if HasUndefined(Binds(input) + [callerId]) {
      return Fail(500, "Failed to create event");
    }
    reply := InsertEventRow(db, input, callerId, now, decimal);
  }

  method InsertEventRow(db: MysqlDatabase, input: EventInput, callerId: Value, now: int, decimal: string -> real)
    returns (reply: Reply<Created>)
    modifies db
    ensures MEffect(db.Snapshot(), reply) == InsertEvent(old(db.Snapshot()), input, callerId, now, decimal)
  {
    ghost var t := db.Snapshot();
    var id := db.nextEventId;
    var row := NewEvent(id, input, callerId, now, decimal);
    db.events := db.events + [row];
    db.nextEventId := id + 1;
    assert db.Snapshot() == t.(events := t.events + [row], nextEventId := t.nextEventId + 1);
    reply := Ok(201, Created("Event created successfully", id));
  }

  /** The `SET` list of `PUT /:id`: every column but the id, the owner and the creation time. */
  function Rewritten(e: MEvent, input: EventInput, decimal: string -> real): MEvent
  {
    e.(title := TextColumn(input.title), eventType := TextColumn(input.eventType),
       companyName := TextColumn(input.companyName), contactNumber := TextColumn(input.contactNumber),
       location := TextColumn(input.location), budgetMin := DecimalColumn(input.budgetMin, decimal),
       budgetMax := DecimalColumn(input.budgetMax, decimal), description := TextColumn(input.description))
  }

  /** `UPDATE events SET ... WHERE event_id = ?` */
  function EventsRewritten(events: seq<MEvent>, idParam: string, input: EventInput, decimal: string -> real): (r: seq<MEvent>)
    ensures |r| == |events|
  {
    Update(events, (e: MEvent) => SameInt(Int(e.eventId), Text(idParam)), (e: MEvent) => Rewritten(e, input, decimal))
  }

  /** `PUT /:id`: no validation and no existence check. */
  function UpdateEventStep(t: MTables, idParam: string, input: EventInput, decimal: string -> real): MEffect<string>
  {
    if HasUndefined(Binds(input)) then MEffect(t, Fail(500, "Failed to update event"))
    else MEffect(t.(events := EventsRewritten(t.events, idParam, input, decimal)), Ok(200, "Event updated successfully"))
  }

  method UpdateEvent(db: MysqlDatabase, idParam: string, input: EventInput, decimal: string -> real)
    returns (reply: Reply<string>)
    requires db.Valid()
    modifies db
    ensures db.Valid()
    ensures MEffect(db.Snapshot(), reply) == UpdateEventStep(old(db.Snapshot()), idParam, input, decimal)
  {
    UpdateEventKeepsValid(db.Snapshot(), idParam, input, decimal);
    if HasUndefined(Binds(input)) {
      return Fail(500, "Failed to update event");
    }
    db.events := EventsRewritten(db.events, idParam, input, decimal);
    reply := Ok(200, "Event updated successfully");
  }

  /** `DELETE FROM events WHERE event_id = ?` */
  function EventsWithout(events: seq<MEvent>, idParam: string): seq<MEvent>
  {
    Filter(events, (e: MEvent) => !SameInt(Int(e.eventId), Text(idParam)))
  }

  /** `DELETE /:id`: no existence check. */
  function DeleteEventStep(t: MTables, idParam: string): MEffect<string>
  {
    MEffect(t.(events := EventsWithout(t.events, idParam)), Ok(200, "Event deleted successfully"))
  }

  method DeleteEvent(db: MysqlDatabase, idParam: string) returns (reply: Reply<string>)
    requires db.Valid()
    modifies db
    ensures db.Valid()
    ensures MEffect(db.Snapshot(), reply) == DeleteEventStep(old(db.Snapshot()), idParam)
  {
    DeleteEventKeepsValid(db.Snapshot(), idParam);
    db.events := EventsWithout(db.events, idParam);
    reply := Ok(200, "Event deleted successfully");
  }

  // ---------------------------------------------------------------------
  // Photos.

  /** A file as multer leaves it in `req.files`: the name it was stored
      under and the name it came with. */
  datatype SavedFile = SavedFile(filename: string, originalName: string)

  /** The storage's `filename`: `Date.now() + path.extname(originalname)`. */
  function StoredName(time: int, originalName: string): string
  {
    IntToString(time) + Extname(originalName)
  }

  function SavedFiles(files: seq<UploadedFile>, times: seq<int>): (r: seq<SavedFile>)
    requires |times| == |files|
    ensures |r| == |files|
    ensures forall k :: 0 <= k < |r| ==> r[k] == SavedFile(StoredName(times[k], files[k].originalName), files[k].originalName)
  {
    seq(|files|, k requires 0 <= k < |files| => SavedFile(StoredName(times[k], files[k].originalName), files[k].originalName))
  }

  /** The photo row of one saved file. */
  function PhotoRow(id: int, eventCell: Value, file: SavedFile): EventPhoto
  {
    EventPhoto(id, eventCell, "/uploads/events/" + file.filename, file.originalName)
  }

  /** The rows the loop's inserts add, one `INSERT INTO event_photos` per
      file in order, numbered from the counter `next`. */
  function NewPhotoRows(next: int, eventCell: Value, saved: seq<SavedFile>): (r: seq<EventPhoto>)
    ensures |r| == |saved|
    ensures forall k :: 0 <= k < |r| ==> r[k] == PhotoRow(next + k, eventCell, saved[k])
  {
    seq(|saved|, k requires 0 <= k < |saved| => PhotoRow(next + k, eventCell, saved[k]))
  }

  function InsertEventPhotos(t: MTables, eventCell: Value, saved: seq<SavedFile>): MTables
  {
    t.(photos := t.photos + NewPhotoRows(t.nextPhotoId, eventCell, saved), nextPhotoId := t.nextPhotoId + |saved|)
  }

  /** `POST /:id/photos`. multer runs first: a refused file fails the request
      through the default error handler (500); then an empty upload is a 400.
      The event is not looked up. */
  function UploadEventPhotosStep(t: MTables, idParam: string, files: seq<UploadedFile>, times: seq<int>): MEffect<string>
    requires |times| == |files|
  {
    match MulterCheck(files, PhotoFilterMessage, 0)
    case Some(message) => MEffect(t, Fail(500, message))
    case None =>
      if files == [] then MEffect(t, Fail(400, "No photos uploaded"))
      else MEffect(InsertEventPhotos(t, IntColumn(Text(idParam)), SavedFiles(files, times)), Ok(200, "Photos uploaded successfully"))
  }

  /** The loop `for (const file of files) await db.execute('INSERT INTO event_photos ...')`. */
  method InsertPhotoRows(db: MysqlDatabase, eventCell: Value, saved: seq<SavedFile>)
    modifies db
    ensures db.Snapshot() == InsertEventPhotos(old(db.Snapshot()), eventCell, saved)
  {
    ghost var start := db.Snapshot();
    for i := 0 to |saved|
      invariant db.Snapshot() == InsertEventPhotos(start, eventCell, saved[..i])
    {
      InsertEventPhotosNext(start, eventCell, saved, i);
      db.photos := db.photos + [PhotoRow(db.nextPhotoId, eventCell, saved[i])];
      db.nextPhotoId := db.nextPhotoId + 1;
    }
    assert saved[..|saved|] == saved;
  }

  method UploadEventPhotos(db: MysqlDatabase, idParam: string, files: seq<UploadedFile>, times: seq<int>)
    returns (reply: Reply<string>)
    requires db.Valid()
    requires |times| == |files|
    modifies db
    ensures db.Valid()
    ensures MEffect(db.Snapshot(), reply) == UploadEventPhotosStep(old(db.Snapshot()), idParam, files, times)
  {
    UploadEventPhotosKeepsValid(db.Snapshot(), idParam, files, times);
    ghost var start := db.Snapshot();
    var rejected := MulterCheck(files, PhotoFilterMessage, 0);
    if rejected.Some? {
      return Fail(500, rejected.value);
    }
    if |files| == 0 {
      return Fail(400, "No photos uploaded");
    }
    var saved := SavedFiles(files, times);
    assert UploadEventPhotosStep(start, idParam, files, times)
           == MEffect(InsertEventPhotos(start, IntColumn(Text(idParam)), saved), Ok(200, "Photos uploaded successfully"));
    InsertPhotoRows(db, IntColumn(Text(idParam)), saved);
    reply := Ok(200, "Photos uploaded successfully");
  }

  // ---------------------------------------------------------------------
  // Properties of the catalogue.

  /** The clauses the handler composes mean exactly the filters given. */
  lemma SelectedIffMatches(e: MEvent, f: EventFilters, decimal: string -> real)
    ensures Selected(e, Conditions(f), decimal) <==> MatchesFilters(e, f, decimal)
  {
    var c0: seq<Condition> := [];
    var c1 := if Truthy(f.eventType) then c0 + [TypeIs(f.eventType)] else c0;
    var c2 := if Truthy(f.location) then c1 + [LocationLike(ToJsString(f.location))] else c1;
    var c3 := if Truthy(f.minBudget) then c2 + [BudgetAtLeast(f.minBudget)] else c2;
    assert Conditions(f) == if Truthy(f.maxBudget) then c3 + [BudgetAtMost(f.maxBudget)] else c3;
    if Truthy(f.eventType) { SelectedSnoc(e, c0, TypeIs(f.eventType), decimal); }
    if Truthy(f.location) { SelectedSnoc(e, c1, LocationLike(ToJsString(f.location)), decimal); }
    if Truthy(f.minBudget) { SelectedSnoc(e, c2, BudgetAtLeast(f.minBudget), decimal); }
    if Truthy(f.maxBudget) { SelectedSnoc(e, c3, BudgetAtMost(f.maxBudget), decimal); }
  }

  /** One more clause: the row must also satisfy it. */
  lemma SelectedSnoc(e: MEvent, cs: seq<Condition>, c: Condition, decimal: string -> real)
    ensures Selected(e, cs + [c], decimal) <==> Selected(e, cs, decimal) && Holds(e, c, decimal)
  {
    assert forall k :: 0 <= k < |cs| ==> (cs + [c])[k] == cs[k];
    assert (cs + [c])[|cs|] == c;
  }

  /** Every listed event is a row of the table that matches every filter given. */
  lemma ListEventsSound(t: MTables, f: EventFilters, decimal: string -> real)
    ensures forall k :: 0 <= k < |ListEvents(t, f, decimal)| ==>
      ListEvents(t, f, decimal)[k].event in t.events && MatchesFilters(ListEvents(t, f, decimal)[k].event, f, decimal)
  {
    var r := ListEvents(t, f, decimal);
    var p := (e: MEvent) => Selected(e, Conditions(f), decimal);
    forall k | 0 <= k < |r|
      ensures r[k].event in t.events && MatchesFilters(r[k].event, f, decimal)
    {
      var e := r[k].event;
      assert e in SelectedEvents(t.events, f, decimal);
      SortDescMember(Filter(t.events, p), MEventCreatedAt, e);
      FilterMember(t.events, p, e);
      SelectedIffMatches(e, f, decimal);
    }
  }

  /** Every row that matches the filters is listed. */
  lemma ListEventsComplete(t: MTables, f: EventFilters, decimal: string -> real, e: MEvent)
    requires e in t.events && MatchesFilters(e, f, decimal)
    ensures exists k :: 0 <= k < |ListEvents(t, f, decimal)| && ListEvents(t, f, decimal)[k].event == e
  {
    var p := (e: MEvent) => Selected(e, Conditions(f), decimal);
    SelectedIffMatches(e, f, decimal);
    FilterMember(t.events, p, e);
    SortDescMember(Filter(t.events, p), MEventCreatedAt, e);
    var selected := SelectedEvents(t.events, f, decimal);
    var k :| 0 <= k < |selected| && selected[k] == e;
    assert ListEvents(t, f, decimal)[k].event == e;
  }

  /** The listing is newest first, and each event's featured image is a photo of that event. */
  lemma ListEventsNewestFirst(t: MTables, f: EventFilters, decimal: string -> real)
    ensures var r := ListEvents(t, f, decimal);
      forall i, j :: 0 <= i < j < |r| ==> r[i].event.createdAt >= r[j].event.createdAt
    ensures var r := ListEvents(t, f, decimal);
      forall k :: 0 <= k < |r| && r[k].featuredImage.Some? ==>
        exists j :: 0 <= j < |t.photos| && SameInt(t.photos[j].eventId, Int(r[k].event.eventId))
                    && t.photos[j].photoUrl == r[k].featuredImage.value
  {
    var selected := SelectedEvents(t.events, f, decimal);
    assert NonIncreasing(selected, MEventCreatedAt);
  }

  /** With no filter given (`WHERE 1=1` alone) every event is listed, each once. */
  lemma NoFiltersListsAll(t: MTables, decimal: string -> real)
    ensures multiset(SelectedEvents(t.events, EventFilters(Undefined, Undefined, Undefined, Undefined), decimal))
            == multiset(t.events)
    ensures |ListEvents(t, EventFilters(Undefined, Undefined, Undefined, Undefined), decimal)| == |t.events|
  {
    var f := EventFilters(Undefined, Undefined, Undefined, Undefined);
    assert Conditions(f) == [];
    FilterKeepsAll(t.events, (e: MEvent) => Selected(e, Conditions(f), decimal));
    assert |SelectedEvents(t.events, f, decimal)| == |multiset(t.events)|;
  }

  // ---------------------------------------------------------------------
  // Properties of the detail and the admin routes.

  /** The detail is a 404 exactly when no event has the id the parameter
      reads as; otherwise it is that event with exactly its photos. */
  lemma GetEventOutcome(t: MTables, idParam: string)
    requires MTablesValid(t)
    ensures GetEvent(t, idParam).Fail? <==> forall k :: 0 <= k < |t.events| ==> t.events[k].eventId != MysqlInt(idParam)
    ensures GetEvent(t, idParam).Fail? ==> GetEvent(t, idParam) == Fail(404, "Event not found")
    ensures var r := GetEvent(t, idParam);
      r.Ok? ==>
        r.body.event.eventId == MysqlInt(idParam)
        && (forall k :: 0 <= k < |t.events| && t.events[k].eventId == MysqlInt(idParam) ==> t.events[k] == r.body.event)
        && forall p :: p in r.body.photos <==> p in t.photos && SameInt(p.eventId, Int(MysqlInt(idParam)))
  {
    match EventById(t.events, idParam)
    case None =>
    case Some(j) =>
      forall k | 0 <= k < |t.events| && t.events[k].eventId == MysqlInt(idParam)
        ensures t.events[k] == t.events[j]
      {
        IncreasingKeyUnique(t.events, MEventId, k, j);
      }
      forall p
        ensures p in PhotosOfEvent(t.photos, idParam) <==> p in t.photos && SameInt(p.eventId, Int(MysqlInt(idParam)))
      {
        FilterMember(t.photos, (p: EventPhoto) => SameInt(p.eventId, Text(idParam)), p);
      }
  }

  /** Creation: a failing validator is a 400, a field the client left out
      (only `description` and the caller's id can be) reaches mysql2 as
      undefined and is a 500, and otherwise the reply is a success and
      exactly one row is appended, with a known event type, owned by the
      caller, holding the fields as the columns store them. */
  lemma CreateEventOutcome(t: MTables, input: EventInput, callerId: Value, now: int, isMobile: string -> bool,
                           isDecimal: string -> bool, decimal: string -> real)
    ensures var r := CreateEventStep(t, input, callerId, now, isMobile, isDecimal, decimal);
      r.reply.Fail? ==> r.tables == t
    ensures var r := CreateEventStep(t, input, callerId, now, isMobile, isDecimal, decimal);
      r.reply.Fail? && r.reply.status == 400 <==> !CreateInputValid(input, isMobile, isDecimal)
    ensures CreateInputValid(input, isMobile, isDecimal) && (input.description == Undefined || callerId == Undefined) ==>
      CreateEventStep(t, input, callerId, now, isMobile, isDecimal, decimal) == MEffect(t, Fail(500, "Failed to create event"))
    ensures CreateInputValid(input, isMobile, isDecimal) && (Undefined in Binds(input) || callerId == Undefined) ==>
      CreateEventStep(t, input, callerId, now, isMobile, isDecimal, decimal) == MEffect(t, Fail(500, "Failed to create event"))
    ensures CreateInputValid(input, isMobile, isDecimal) && Undefined !in Binds(input) && callerId != Undefined ==>
      CreateEventStep(t, input, callerId, now, isMobile, isDecimal, decimal).reply.Ok?
    ensures var r := CreateEventStep(t, input, callerId, now, isMobile, isDecimal, decimal);
      r.reply.Ok? ==>
        ValidatorText(input.eventType) in EventTypes
        && input.description != Undefined && callerId != Undefined
        && r.reply == Ok(201, Created("Event created successfully", t.nextEventId))
        && r.tables == t.(events := t.events + [r.tables.events[|t.events|]], nextEventId := t.nextEventId + 1)
        && r.tables.events[|t.events|].eventId == t.nextEventId
        && r.tables.events[|t.events|].adminId == IntColumn(callerId)
        && ToJsString(r.tables.events[|t.events|].eventType) in EventTypes
        && r.tables.events[|t.events|].createdAt == now
        && var row := r.tables.events[|t.events|];
           row.title == TextColumn(input.title) && row.eventType == TextColumn(input.eventType)
           && row.companyName == TextColumn(input.companyName)
           && row.contactNumber == TextColumn(input.contactNumber)
           && row.location == TextColumn(input.location)
           && row.budgetMin == DecimalColumn(input.budgetMin, decimal)
           && row.budgetMax == DecimalColumn(input.budgetMax, decimal)
           && row.description == TextColumn(input.description)
  {
    var r := CreateEventStep(t, input, callerId, now, isMobile, isDecimal, decimal);
    if CreateInputValid(input, isMobile, isDecimal) {
      assert ValidatorText(input.eventType) != "";
      assert Binds(input) + [callerId] == [input.title, input.eventType, input.companyName, input.contactNumber,
                                           input.location, input.budgetMin, input.budgetMax, input.description, callerId];
      assert HasUndefined(Binds(input) + [callerId]) <==> Undefined in Binds(input) || callerId == Undefined;
      if !HasUndefined(Binds(input) + [callerId]) {
        var row := NewEvent(t.nextEventId, input, callerId, now, decimal);
        assert r == InsertEvent(t, input, callerId, now, decimal);
        assert r.tables.events == t.events + [row];
        assert r.tables.events[|t.events|] == row;
      }
    }
  }

  lemma CreateEventKeepsValid(t: MTables, input: EventInput, callerId: Value, now: int, isMobile: string -> bool,
                              isDecimal: string -> bool, decimal: string -> real)
    requires MTablesValid(t)
    ensures MTablesValid(CreateEventStep(t, input, callerId, now, isMobile, isDecimal, decimal).tables)
  {
    if CreateEventStep(t, input, callerId, now, isMobile, isDecimal, decimal).reply.Ok? {
      AppendFresh(t.events, NewEvent(t.nextEventId, input, callerId, now, decimal), MEventId, t.nextEventId);
    }
  }

  /** The update: a field left out is a 500; otherwise the reply is success
      whether or not the event exists, the rows with that id get the new
      fields and keep their id, owner and creation time, and no other row
      or table changes. */
  lemma UpdateEventOutcome(t: MTables, idParam: string, input: EventInput, decimal: string -> real)
    ensures Undefined in Binds(input) <==>
      UpdateEventStep(t, idParam, input, decimal) == MEffect(t, Fail(500, "Failed to update event"))
    ensures Undefined !in Binds(input) ==>
      UpdateEventStep(t, idParam, input, decimal).reply == Ok(200, "Event updated successfully")
    ensures var r := UpdateEventStep(t, idParam, input, decimal);
      r.reply.Ok? ==>
        r.reply == Ok(200, "Event updated successfully")
        && r.tables == t.(events := r.tables.events)
        && |r.tables.events| == |t.events|
        && forall k :: 0 <= k < |t.events| ==>
             var (old_, new_) := (t.events[k], r.tables.events[k]);
             new_.eventId == old_.eventId && new_.adminId == old_.adminId && new_.createdAt == old_.createdAt
             && (old_.eventId != MysqlInt(idParam) ==> new_ == old_)
             && (old_.eventId == MysqlInt(idParam) ==>
                   new_.title == TextColumn(input.title) && new_.eventType == TextColumn(input.eventType)
                   && new_.companyName == TextColumn(input.companyName)
                   && new_.contactNumber == TextColumn(input.contactNumber)
                   && new_.location == TextColumn(input.location)
                   && new_.budgetMin == DecimalColumn(input.budgetMin, decimal)
                   && new_.budgetMax == DecimalColumn(input.budgetMax, decimal)
                   && new_.description == TextColumn(input.description))
  {
  }

  lemma UpdateEventKeepsValid(t: MTables, idParam: string, input: EventInput, decimal: string -> real)
    requires MTablesValid(t)
    ensures MTablesValid(UpdateEventStep(t, idParam, input, decimal).tables)
  {
    var r := UpdateEventStep(t, idParam, input, decimal);
    if r.reply.Ok? {
      assert forall j :: 0 <= j < |r.tables.events| ==> r.tables.events[j].eventId == t.events[j].eventId;
    }
  }

  /** The delete always reports success; the events left are exactly the
      others, and no other table changes. */
  lemma DeleteEventOutcome(t: MTables, idParam: string, e: MEvent)
    ensures DeleteEventStep(t, idParam).reply == Ok(200, "Event deleted successfully")
    ensures DeleteEventStep(t, idParam).tables == t.(events := DeleteEventStep(t, idParam).tables.events)
    ensures e in DeleteEventStep(t, idParam).tables.events <==> e in t.events && e.eventId != MysqlInt(idParam)
  {
    FilterMember(t.events, (e: MEvent) => !SameInt(Int(e.eventId), Text(idParam)), e);
  }

  lemma DeleteEventKeepsValid(t: MTables, idParam: string)
    requires MTablesValid(t)
    ensures MTablesValid(DeleteEventStep(t, idParam).tables)
  {
    var p := (e: MEvent) => !SameInt(Int(e.eventId), Text(idParam));
    FilterIncreasing(t.events, p, MEventId);
    FilterAllBelow(t.events, p, MEventId, t.nextEventId);
  }

  /** After a delete the detail of that id is a 404. */
  lemma DeletedEventNotFound(t: MTables, idParam: string)
    ensures GetEvent(DeleteEventStep(t, idParam).tables, idParam) == Fail(404, "Event not found")
  {
    var rest := DeleteEventStep(t, idParam).tables.events;
    forall k | 0 <= k < |rest| ensures rest[k].eventId != MysqlInt(idParam) {
      FilterMember(t.events, (e: MEvent) => !SameInt(Int(e.eventId), Text(idParam)), rest[k]);
    }
  }

  // ---------------------------------------------------------------------
  // Properties of the photo upload.

  lemma NewPhotoRowsNext(next: int, eventCell: Value, saved: seq<SavedFile>, i: nat)
    requires i < |saved|
    ensures NewPhotoRows(next, eventCell, saved[..i + 1])
            == NewPhotoRows(next, eventCell, saved[..i]) + [PhotoRow(next + i, eventCell, saved[i])]
  {
    var before := NewPhotoRows(next, eventCell, saved[..i]);
    var after := NewPhotoRows(next, eventCell, saved[..i + 1]);
    forall k | 0 <= k < i ensures after[k] == before[k] {
      assert saved[..i + 1][k] == saved[..i][k];
    }
  }

  /** One more turn of the upload loop inserts the next photo. */
  lemma InsertEventPhotosNext(t: MTables, eventCell: Value, saved: seq<SavedFile>, i: nat)
    requires i < |saved|
    ensures var prev := InsertEventPhotos(t, eventCell, saved[..i]);
      InsertEventPhotos(t, eventCell, saved[..i + 1])
      == prev.(photos := prev.photos + [PhotoRow(prev.nextPhotoId, eventCell, saved[i])], nextPhotoId := prev.nextPhotoId + 1)
  {
    var before := NewPhotoRows(t.nextPhotoId, eventCell, saved[..i]);
    var x := PhotoRow(t.nextPhotoId + i, eventCell, saved[i]);
    NewPhotoRowsNext(t.nextPhotoId, eventCell, saved, i);
    assert t.photos + (before + [x]) == (t.photos + before) + [x];
  }

  lemma InsertEventPhotosKeepsValid(t: MTables, eventCell: Value, saved: seq<SavedFile>)
    requires MTablesValid(t)
    ensures MTablesValid(InsertEventPhotos(t, eventCell, saved))
  {
    var r := InsertEventPhotos(t, eventCell, saved);
    var n := |t.photos|;
    assert forall k :: n <= k < |r.photos| ==> r.photos[k].photoId == t.nextPhotoId + (k - n);
    assert forall k :: 0 <= k < n ==> r.photos[k] == t.photos[k];
  }

  /** The upload: multer's refusal is a 500, no file is a 400, and otherwise
      the `k`-th file adds the row `/uploads/events/<time><ext>` for the
      event the path names, whether or not it exists, in file order, with
      nothing else changed. */
  lemma UploadEventPhotosOutcome(t: MTables, idParam: string, files: seq<UploadedFile>, times: seq<int>)
    requires |times| == |files|
    ensures var r := UploadEventPhotosStep(t, idParam, files, times);
      r.reply.Fail? ==> r.tables == t
    ensures MulterCheck(files, PhotoFilterMessage, 0).Some? ==>
      UploadEventPhotosStep(t, idParam, files, times).reply == Fail(500, MulterCheck(files, PhotoFilterMessage, 0).value)
    ensures files == [] ==> UploadEventPhotosStep(t, idParam, files, times) == MEffect(t, Fail(400, "No photos uploaded"))
    ensures MulterCheck(files, PhotoFilterMessage, 0).None? && files != [] ==>
      UploadEventPhotosStep(t, idParam, files, times).reply == Ok(200, "Photos uploaded successfully")
    ensures var r := UploadEventPhotosStep(t, idParam, files, times);
      r.reply.Ok? ==>
        |files| <= MaxFiles && files != []
        && r.tables == t.(photos := r.tables.photos, nextPhotoId := t.nextPhotoId + |files|)
        && |r.tables.photos| == |t.photos| + |files|
        && r.tables.photos[..|t.photos|] == t.photos
        && forall k :: 0 <= k < |files| ==>
             r.tables.photos[|t.photos| + k]
             == EventPhoto(t.nextPhotoId + k, IntColumn(Text(idParam)),
                           "/uploads/events/" + StoredName(times[k], files[k].originalName),
                           files[k].originalName)
  {
    if MulterCheck(files, PhotoFilterMessage, 0).None? && files != [] {
      MulterAcceptsExactly(files, PhotoFilterMessage, 0);
      var cell := IntColumn(Text(idParam));
      assert UploadEventPhotosStep(t, idParam, files, times)
          == MEffect(InsertEventPhotos(t, cell, SavedFiles(files, times)), Ok(200, "Photos uploaded successfully"));
      InsertedPhotoRows(t, cell, files, times);
    }
  }

  /** The rows an upload appends: one per file, in order, with fresh ids. */
  lemma InsertedPhotoRows(t: MTables, cell: Value, files: seq<UploadedFile>, times: seq<int>)
    requires |times| == |files|
    ensures var r := InsertEventPhotos(t, cell, SavedFiles(files, times));
      r == t.(photos := r.photos, nextPhotoId := t.nextPhotoId + |files|)
      && |r.photos| == |t.photos| + |files|
      && r.photos[..|t.photos|] == t.photos
      && forall k :: 0 <= k < |files| ==>
           r.photos[|t.photos| + k]
           == EventPhoto(t.nextPhotoId + k, cell,
                         "/uploads/events/" + StoredName(times[k], files[k].originalName),
                         files[k].originalName)
  {
    var saved := SavedFiles(files, times);
    var rows := NewPhotoRows(t.nextPhotoId, cell, saved);
    var r := InsertEventPhotos(t, cell, saved);
    assert r.photos == t.photos + rows;
    assert r.photos[..|t.photos|] == t.photos;
    forall k | 0 <= k < |files|
      ensures r.photos[|t.photos| + k]
              == EventPhoto(t.nextPhotoId + k, cell,
                            "/uploads/events/" + StoredName(times[k], files[k].originalName),
                            files[k].originalName)
    {
      assert r.photos[|t.photos| + k] == rows[k];
      assert saved[k] == SavedFile(StoredName(times[k], files[k].originalName), files[k].originalName);
    }
  }

  lemma UploadEventPhotosKeepsValid(t: MTables, idParam: string, files: seq<UploadedFile>, times: seq<int>)
    requires MTablesValid(t)
    requires |times| == |files|
    ensures MTablesValid(UploadEventPhotosStep(t, idParam, files, times).tables)
  {
    if MulterCheck(files, PhotoFilterMessage, 0).None? && files != [] {
      InsertEventPhotosKeepsValid(t, IntColumn(Text(idParam)), SavedFiles(files, times));
    }
  }

  /** Two files with the same extension stored in the same millisecond get
      the same name, so their rows point at one file. */
  lemma SameMillisecondSameUrl(t: MTables, idParam: string, files: seq<UploadedFile>, times: seq<int>, i: nat, j: nat)
    requires |times| == |files| && i < j < |files|
    requires times[i] == times[j] && Extname(files[i].originalName) == Extname(files[j].originalName)
    requires UploadEventPhotosStep(t, idParam, files, times).reply.Ok?
    ensures var photos := UploadEventPhotosStep(t, idParam, files, times).tables.photos;
      photos[|t.photos| + i].photoUrl == photos[|t.photos| + j].photoUrl
  {
    UploadEventPhotosOutcome(t, idParam, files, times);
  }
}
