/** The public catalogue and the booking request of the SQLite variant
    (server/src/routes/events.js): `GET /`, `GET /:id` and `POST /bookings`. */
module SqliteEvents {
  import opened Rows
  import opened Js
  import opened Http
  import opened AccessGuard
  import opened SqliteDb

  const DefaultPageSize := 20
  const MaxPageSize := 50

  /** The query string of `GET /`; a parameter that is absent is `Undefined`. */
  datatype ListQuery = ListQuery(category: Value, q: Value, page: Value, pageSize: Value)

  /** The columns the catalogue selects. */
  datatype EventSummary = EventSummary(
    id: int, category: string, title: string, budgetMin: Value, budgetMax: Value,
    companyName: string, contactNumber: string, location: string, description: string)

  datatype PhotoView = PhotoView(id: int, filePath: string)
  datatype EventDetailBody = EventDetailBody(event: EventSummary, photos: seq<PhotoView>)

  function Summary(e: Event): EventSummary
  {
    EventSummary(e.id, e.category, e.title, e.budgetMin, e.budgetMax,
                 e.companyName, e.contactNumber, e.location, e.description)
  }

  function Summaries(rows: seq<Event>): (r: seq<EventSummary>)
    ensures |r| == |rows| && forall k :: 0 <= k < |rows| ==> r[k] == Summary(rows[k])
  {
    seq(|rows|, k requires 0 <= k < |rows| => Summary(rows[k]))
  }

  /** `parseInt(v, 10) || fallback`. A parameter the destructuring defaults
      (`page = 1`, `pageSize = 20`) reads as "undefined", which parses to NaN
      and so falls back to the same number. */
  function ParamInt(v: Value, fallback: int): (n: int)
    ensures n != 0 || fallback == 0
    ensures ParseInt(ToJsString(v)).None? ==> n == fallback
    ensures ParseInt(ToJsString(v)).Some? && ParseInt(ToJsString(v)).value != 0 ==>
      n == ParseInt(ToJsString(v)).value
  {
    match ParseInt(ToJsString(v))
    case None => fallback
    case Some(i) => if i == 0 then fallback else i
  }

  /** `Math.min(parseInt(pageSize, 10) || 20, 50)`, as written. */
  function PageLimitAsWritten(query: ListQuery): int
  {
    Min(ParamInt(query.pageSize, DefaultPageSize), MaxPageSize)
  }

  /** The page size kept between 1 and 50. */
  function PageLimit(query: ListQuery): (limit: int)
    ensures 1 <= limit <= MaxPageSize
  {
    Max(1, PageLimitAsWritten(query))
  }

  /** `parseInt(page, 10) || 1`: never zero. */
  function PageNumber(query: ListQuery): (page: int)
    ensures page != 0
  {
    ParamInt(query.page, 1)
  }

  /** `(page - 1) * limit` */
  function PageOffset(page: int, limit: int): int
  {
    (page - 1) * limit
  }

  /** `cell LIKE '%<needle>%'`, ignoring the case of ASCII letters as SQLite does. */
  predicate Like(cell: string, needle: string)
  {
    Contains(AsciiLower(cell), AsciiLower(needle))
  }

  /** The `WHERE` clause `GET /` builds: `1=1`, then `category = ?` when a
      category is given, then the title / company / location search when `q` is. */
  predicate Matches(e: Event, category: Value, q: Value)
  {
    (Truthy(category) ==> e.category == ToJsString(category))
    && (Truthy(q) ==>
          Like(e.title, ToJsString(q)) || Like(e.companyName, ToJsString(q)) || Like(e.location, ToJsString(q)))
  }

  /** The matching events, `ORDER BY id DESC`. */
  function MatchingNewestFirst(events: seq<Event>, query: ListQuery): seq<Event>
  {
    Reverse(Filter(events, (e: Event) => Matches(e, query.category, query.q)))
  }

  /** The rows of one catalogue page, with the page size clamped to [1, 50]
      (the corrected listing; see `ListRowsAsWritten`). */
  function ListRows(t: Tables, query: ListQuery): (r: seq<Event>)
    ensures |r| <= PageLimit(query)
  {
    var limit := PageLimit(query);
    Window(MatchingNewestFirst(t.events, query), limit, PageOffset(PageNumber(query), limit))
  }

  /** The rows of one catalogue page as written, where a negative page size
      reaches SQLite as a negative `LIMIT`. */
  function ListRowsAsWritten(t: Tables, query: ListQuery): (r: seq<Event>)
    ensures |r| <= |t.events|
    ensures PageLimitAsWritten(query) >= 1 ==> |r| <= PageLimitAsWritten(query)
  {
    var limit := PageLimitAsWritten(query);
    Window(MatchingNewestFirst(t.events, query), limit, PageOffset(PageNumber(query), limit))
  }

  /** `GET /`: `{ events: rows }`, over the corrected listing. */
  function ListEvents(t: Tables, query: ListQuery): (r: seq<EventSummary>)
    ensures |r| == |ListRows(t, query)| <= MaxPageSize
    ensures forall k :: 0 <= k < |r| ==> r[k] == Summary(ListRows(t, query)[k])
  {
    Summaries(ListRows(t, query))
  }

  function EventIndex(events: seq<Event>, id: int): (r: Option<nat>)
    ensures r.None? <==> forall k :: 0 <= k < |events| ==> events[k].id != id
    ensures r.Some? ==> r.value < |events| && events[r.value].id == id
  {
    FirstIndex(events, (e: Event) => e.id == id)
  }

  /** `SELECT id, file_path FROM event_photos WHERE event_id = ?` */
  function PhotosOf(photos: seq<Photo>, eventId: int): (r: seq<PhotoView>)
    ensures |r| <= |photos|
  {
    var rows := Filter(photos, (p: Photo) => p.eventId == eventId);
    seq(|rows|, k requires 0 <= k < |rows| => PhotoView(rows[k].id, rows[k].filePath))
  }

  /** `GET /:id`. An id that does not parse binds NaN, which matches no row. */
  function EventDetail(t: Tables, idParam: string): (r: Reply<EventDetailBody>)
    ensures r.Fail? ==> r == Fail(404, "Event not found")
    ensures r.Ok? ==>
      ParseInt(idParam).Some? && r.status == 200
      && (exists k :: 0 <= k < |t.events| && t.events[k].id == ParseInt(idParam).value && r.body.event == Summary(t.events[k]))
      && r.body.photos == PhotosOf(t.photos, ParseInt(idParam).value)
  {
    match ParseInt(idParam)
    case None => Fail(404, "Event not found")
    case Some(id) =>
      match EventIndex(t.events, id)
      case None => Fail(404, "Event not found")
      case Some(k) => Ok(200, EventDetailBody(Summary(t.events[k]), PhotosOf(t.photos, id)))
  }

  /** `SELECT id FROM events WHERE id = ?` with a request-body value. */
  function EventByBodyId(events: seq<Event>, eventId: Value): (r: Option<nat>)
    ensures r.None? <==> forall k :: 0 <= k < |events| ==> Int(events[k].id) != IntegerCell(eventId)
    ensures r.Some? ==> r.value < |events| && Int(events[r.value].id) == IntegerCell(eventId)
  {
    FirstIndex(events, (e: Event) => Int(e.id) == IntegerCell(eventId))
  }

  /** `POST /bookings` for the caller `req.user`; `now` is `CURRENT_TIMESTAMP`. */
  function CreateBookingStep(t: Tables, caller: Claims, eventId: Value, notes: Value, now: int): Effect<Booking>
  {
    if !Truthy(eventId) then Effect(t, Fail(400, "eventId required"))
    else if EventByBodyId(t.events, eventId).None? then Effect(t, Fail(404, "Event not found"))
    else if Nullish(caller.id) then Effect(t, Fail(500, "NOT NULL constraint failed: bookings.user_id"))
    else
      var b := Booking(t.nextBookingId, IntegerCell(caller.id), IntegerCell(eventId),
                       ToJsString(Or(notes, Text(""))), "PENDING", now, now);
      Effect(t.(bookings := t.bookings + [b], nextBookingId := t.nextBookingId + 1), Ok(201, b))
  }

  method CreateBooking(db: Database, caller: Claims, eventId: Value, notes: Value, now: int)
    returns (reply: Reply<Booking>)
    requires db.Valid()
    modifies db
    ensures db.Valid()
    ensures Effect(db.Snapshot(), reply) == CreateBookingStep(old(db.Snapshot()), caller, eventId, notes, now)
  {
    CreateBookingKeepsValid(db.Snapshot(), caller, eventId, notes, now);
    ghost var t := db.Snapshot();
    if !Truthy(eventId) {
      return Fail(400, "eventId required");
    }
    var found := EventByBodyId(db.events, eventId);
    if found.None? {
      return Fail(404, "Event not found");
    }
    if Nullish(caller.id) {
      return Fail(500, "NOT NULL constraint failed: bookings.user_id");
    }
    var booking := Booking(db.nextBookingId, IntegerCell(caller.id), IntegerCell(eventId),
                           ToJsString(Or(notes, Text(""))), "PENDING", now, now);
    db.bookings := db.bookings + [booking];
    db.nextBookingId := db.nextBookingId + 1;
    assert db.Snapshot() == t.(bookings := t.bookings + [booking], nextBookingId := t.nextBookingId + 1);
    reply := Ok(201, booking);
  }

  // ---------------------------------------------------------------------
  // Properties.

  /** The clamped page size lies in [1, 50]; it is 20 when the parameter is
      missing, unparsable or zero, and the parsed number when that lies in [1, 50]. */
  lemma PageLimitBounds(query: ListQuery)
    ensures 1 <= PageLimit(query) <= MaxPageSize
    ensures ParseInt(ToJsString(query.pageSize)) in {None, Some(0)} ==> PageLimit(query) == DefaultPageSize
    ensures query.pageSize == Undefined ==> PageLimit(query) == DefaultPageSize
    ensures ParseInt(ToJsString(query.pageSize)).Some? && 1 <= ParseInt(ToJsString(query.pageSize)).value <= MaxPageSize
      ==> PageLimit(query) == ParseInt(ToJsString(query.pageSize)).value
    ensures ParseInt(ToJsString(query.pageSize)).Some? && ParseInt(ToJsString(query.pageSize)).value > MaxPageSize
      ==> PageLimit(query) == MaxPageSize
    ensures PageLimitAsWritten(query) >= 1 ==> PageLimit(query) == PageLimitAsWritten(query)
  {
    if query.pageSize == Undefined {
      ParseIntOfUndefined();
    }
  }

  /** The as-written page size never exceeds 50 either, but a negative
      parameter passes through unchanged. */
  lemma PageLimitAsWrittenPassesNegatives(query: ListQuery)
    ensures PageLimitAsWritten(query) <= MaxPageSize
    ensures ParseInt(ToJsString(query.pageSize)).Some? && ParseInt(ToJsString(query.pageSize)).value < 0
      ==> PageLimitAsWritten(query) == ParseInt(ToJsString(query.pageSize)).value
  {
  }

  /** A missing page parameter, or page 0, is page 1; page `k` is page `k`
      for every other integer `k`. */
  lemma PageNumberOf(query: ListQuery, k: int)
    ensures query.page == Undefined ==> PageNumber(query) == 1
    ensures query.page == Text(IntToString(k)) && k != 0 ==> PageNumber(query) == k
    ensures query.page == Text("0") ==> PageNumber(query) == 1
  {
    if query.page == Undefined {
      ParseIntOfUndefined();
    }
    ParseIntOfIntToString(k);
    ParseIntOfIntToString(0);
    assert IntToString(0) == "0";
  }

  lemma MatchingMember(events: seq<Event>, query: ListQuery, e: Event)
    ensures e in MatchingNewestFirst(events, query) <==> e in events && Matches(e, query.category, query.q)
  {
    var p := (e: Event) => Matches(e, query.category, query.q);
    ReverseMember(Filter(events, p), e);
    FilterMember(events, p, e);
  }

  /** Every listed event, on the corrected listing and on the listing as
      written alike, is an event of the table that passes the filters:
      exactly the requested category, and the search text inside its title,
      company name or location. */
  lemma ListedEventsMatch(t: Tables, query: ListQuery, e: Event)
    requires e in ListRows(t, query) || e in ListRowsAsWritten(t, query)
    ensures e in t.events
    ensures Truthy(query.category) ==> e.category == ToJsString(query.category)
    ensures Truthy(query.q) ==>
      Like(e.title, ToJsString(query.q)) || Like(e.companyName, ToJsString(query.q)) || Like(e.location, ToJsString(query.q))
  {
    MatchingMember(t.events, query, e);
  }

  /** A page holds at most the page size and so at most 50 events, newest
      (highest id) first. The listing as written is newest first too, and
      holds at most its page size whenever that size is positive. */
  lemma ListNewestFirstAndBounded(t: Tables, query: ListQuery)
    requires TablesValid(t)
    ensures |ListEvents(t, query)| <= PageLimit(query) <= MaxPageSize
    ensures Decreasing(ListRows(t, query), EventId)
    ensures Decreasing(ListRowsAsWritten(t, query), EventId)
    ensures PageLimitAsWritten(query) >= 1 ==> |ListRowsAsWritten(t, query)| <= PageLimitAsWritten(query) <= MaxPageSize
  {
    var p := (e: Event) => Matches(e, query.category, query.q);
    var limit := PageLimit(query);
    FilterIncreasing(t.events, p, EventId);
    ReverseDecreasing(Filter(t.events, p), EventId);
    var all := MatchingNewestFirst(t.events, query);
    assert ListRows(t, query) == Window(all, limit, PageOffset(PageNumber(query), limit));
    WindowDecreasing(all, EventId, limit, PageOffset(PageNumber(query), limit));
    var limit' := PageLimitAsWritten(query);
    assert ListRowsAsWritten(t, query) == Window(all, limit', PageOffset(PageNumber(query), limit'));
    WindowDecreasing(all, EventId, limit', PageOffset(PageNumber(query), limit'));
  }

  /** The page size as written is never 0; whenever it is positive it is the
      clamped size, and the listing as written is the corrected one. The two
      part only on a negative page size. */
  lemma AsWrittenAgreesOnPositiveSizes(t: Tables, query: ListQuery)
    ensures PageLimitAsWritten(query) != 0
    ensures PageLimitAsWritten(query) >= 1 ==>
      PageLimit(query) == PageLimitAsWritten(query) && ListRowsAsWritten(t, query) == ListRows(t, query)
  {
  }

  /** Page `k` (from 1) is the `k`-th block of `limit` matching events, newest
      first: consecutive pages neither skip nor repeat an event. */
  lemma PageIsBlock(t: Tables, query: ListQuery, k: int)
    requires k >= 1 && ParseInt(ToJsString(query.page)) == Some(k)
    ensures ListRows(t, query) == Block(MatchingNewestFirst(t.events, query), PageLimit(query), k)
    ensures PageLimitAsWritten(query) >= 1 ==>
      ListRowsAsWritten(t, query) == Block(MatchingNewestFirst(t.events, query), PageLimitAsWritten(query), k)
  {
    var all := MatchingNewestFirst(t.events, query);
    var limit := PageLimit(query);
    assert PageNumber(query) == k;
    assert ListRows(t, query) == Window(all, limit, PageOffset(k, limit));
    BlockOfWindow(all, limit, k);
    AsWrittenAgreesOnPositiveSizes(t, query);
  }

  /** Rows `(k - 1) * limit` up to `k * limit` (from 1), as far as there are any. */
  function Block<T>(rows: seq<T>, limit: nat, k: nat): (r: seq<T>)
    requires k >= 1
    ensures |r| <= limit
  {
    ProductNonNegative(k - 1, limit);
    var start := Min((k - 1) * limit, |rows|);
    rows[start..Min(start + limit, |rows|)]
  }

  lemma ProductNonNegative(a: nat, b: nat)
    ensures a * b >= 0
  {
  }

  lemma BlockOfWindow(all: seq<Event>, limit: int, k: int)
    requires k >= 1 && limit >= 1
    ensures Window(all, limit, PageOffset(k, limit)) == Block(all, limit, k)
  {
    var offset := PageOffset(k, limit);
    ProductNonNegative(k - 1, limit);
    assert offset == (k - 1) * limit;
    WindowSlice(all, limit, offset);
  }

  /** Without a category or a search text, the catalogue lists every event. */
  lemma NoFilterListsAll(t: Tables, query: ListQuery)
    requires !Truthy(query.category) && !Truthy(query.q)
    ensures MatchingNewestFirst(t.events, query) == Reverse(t.events)
  {
    FilterKeepsAll(t.events, (e: Event) => Matches(e, query.category, query.q));
  }

  /** As written, a negative page size such as `pageSize=-1` lifts the cap:
      without a category or a search text, the first page is the whole
      table, however many events it holds. */
  lemma NegativePageSizeListsEverything(t: Tables, query: ListQuery, n: int)
    requires n < 0 && query.pageSize == Text(IntToString(n)) && query.page == Undefined
    requires !Truthy(query.category) && !Truthy(query.q)
    ensures ListRowsAsWritten(t, query) == Reverse(t.events)
    ensures |t.events| > MaxPageSize ==> |ListRowsAsWritten(t, query)| > MaxPageSize
  {
    ParseIntOfIntToString(n);
    assert PageLimitAsWritten(query) == n;
    ParseIntOfUndefined();
    assert PageNumber(query) == 1;
    assert PageOffset(1, n) == 0;
    NoFilterListsAll(t, query);
    var rows := MatchingNewestFirst(t.events, query);
    assert ListRowsAsWritten(t, query) == Window(rows, n, 0);
    assert Window(rows, n, 0) == rows;
  }

  /** With the page size clamped, no query returns more than 50 events. */
  lemma ClampedListAtMostFifty(t: Tables, query: ListQuery)
    ensures |ListRows(t, query)| <= MaxPageSize
  {
    PageLimitBounds(query);
  }

  /** The detail of a listed event is found again by its printed id, with
      that event's fields and only its own photos; an unknown id is a 404. */
  lemma DetailFindsEvent(t: Tables, e: Event)
    requires TablesValid(t) && e in t.events
    ensures EventDetail(t, IntToString(e.id)).Ok?
    ensures EventDetail(t, IntToString(e.id)).body.event == Summary(e)
  {
    ParseIntOfIntToString(e.id);
    var k :| 0 <= k < |t.events| && t.events[k] == e;
    IncreasingKeyUnique(t.events, EventId, EventIndex(t.events, e.id).value, k);
  }

  lemma DetailNotFound(t: Tables, idParam: string)
    ensures EventDetail(t, idParam).Fail? <==>
      ParseInt(idParam).None? || forall k :: 0 <= k < |t.events| ==> t.events[k].id != ParseInt(idParam).value
    ensures EventDetail(t, idParam).Fail? ==> EventDetail(t, idParam) == Fail(404, "Event not found")
  {
  }

  lemma DetailPhotosBelongToEvent(t: Tables, id: int, v: PhotoView)
    requires v in PhotosOf(t.photos, id)
    ensures exists p :: p in t.photos && p.eventId == id && v == PhotoView(p.id, p.filePath)
  {
    var rows := Filter(t.photos, (p: Photo) => p.eventId == id);
    var k :| 0 <= k < |rows| && PhotosOf(t.photos, id)[k] == v;
    FilterMember(t.photos, (p: Photo) => p.eventId == id, rows[k]);
  }

  /** Booking creation: 400 without an event id, 404 for an unknown event,
      the NOT NULL 500 for a token without an id, and otherwise exactly one
      PENDING booking appended for the caller and the requested event, with
      notes defaulting to ''. Nothing else changes. */
  lemma CreateBookingOutcome(t: Tables, caller: Claims, eventId: Value, notes: Value, now: int)
    ensures !Truthy(eventId) ==>
      CreateBookingStep(t, caller, eventId, notes, now) == Effect(t, Fail(400, "eventId required"))
    ensures Truthy(eventId) && (forall k :: 0 <= k < |t.events| ==> Int(t.events[k].id) != IntegerCell(eventId)) ==>
      CreateBookingStep(t, caller, eventId, notes, now) == Effect(t, Fail(404, "Event not found"))
    ensures Truthy(eventId) && (exists k :: 0 <= k < |t.events| && Int(t.events[k].id) == IntegerCell(eventId))
            && Nullish(caller.id) ==>
      CreateBookingStep(t, caller, eventId, notes, now) == Effect(t, Fail(500, "NOT NULL constraint failed: bookings.user_id"))
    ensures CreateBookingStep(t, caller, eventId, notes, now).reply.Ok? <==>
      Truthy(eventId) && (exists k :: 0 <= k < |t.events| && Int(t.events[k].id) == IntegerCell(eventId))
      && !Nullish(caller.id)
    ensures var e := CreateBookingStep(t, caller, eventId, notes, now);
      e.reply.Ok? ==>
        e.reply.status == 201
        && e.reply.body == Booking(t.nextBookingId, IntegerCell(caller.id), IntegerCell(eventId),
                                   if Truthy(notes) then ToJsString(notes) else "", "PENDING", now, now)
        && e.tables == t.(bookings := t.bookings + [e.reply.body], nextBookingId := t.nextBookingId + 1)
  {
    CreateBookingSucceedsExactly(t, caller, eventId, notes, now);
  }

  /** A booking is made exactly when the body names an event that exists and
      the token carries an id. */
  lemma CreateBookingSucceedsExactly(t: Tables, caller: Claims, eventId: Value, notes: Value, now: int)
    ensures CreateBookingStep(t, caller, eventId, notes, now).reply.Ok? <==>
      Truthy(eventId) && (exists k :: 0 <= k < |t.events| && Int(t.events[k].id) == IntegerCell(eventId))
      && !Nullish(caller.id)
  {
    var found := EventByBodyId(t.events, eventId);
    if found.Some? {
      assert Int(t.events[found.value].id) == IntegerCell(eventId);
    }
  }

  /** A booking the caller's token can create always carries the caller's id. */
  lemma BookingOwnedByCaller(t: Tables, id: int, mobile: Value, role: Value, eventId: Value, notes: Value, now: int)
    requires CreateBookingStep(t, Claims(Int(id), mobile, role), eventId, notes, now).reply.Ok?
    ensures CreateBookingStep(t, Claims(Int(id), mobile, role), eventId, notes, now).reply.body.userId == Int(id)
  {
  }

  lemma CreateBookingKeepsValid(t: Tables, caller: Claims, eventId: Value, notes: Value, now: int)
    requires TablesValid(t)
    ensures TablesValid(CreateBookingStep(t, caller, eventId, notes, now).tables)
  {
    var e := CreateBookingStep(t, caller, eventId, notes, now);
    if e.reply.Ok? {
      AppendFresh(t.bookings, e.reply.body, BookingId, t.nextBookingId);
    }
  }
}
