/** The public booking handlers: create a booking (with its guard chain and
    conflict check), create one together with a deposit proof, list, read,
    re-status, cancel (the 24-hour rule) and delete bookings. Each handler
    maps the booking collection and a request to the collection after the
    call and the response. */
module BookingController {
  import opened Common
  import opened Text
  import opened Cursor
  import opened BookingModel
  import opened ServiceModel
  import opened ConflictUtils

  /** The fields of a `createBooking` body; `None` is an absent field. */
  datatype BookingRequest = BookingRequest(
    serviceId: Option<string>,
    firstName: Option<string>,
    lastName: Option<string>,
    email: Option<string>,
    phone: Option<string>,
    startTime: Option<string>,
    endTime: Option<string>,
    notes: Option<string>)

  /** The first guard: the seven required fields are truthy. */
  predicate RequiredFieldsPresent(req: BookingRequest)
  {
    Truthy(req.serviceId) && Truthy(req.firstName) && Truthy(req.lastName) && Truthy(req.email)
    && Truthy(req.phone) && Truthy(req.startTime) && Truthy(req.endTime)
  }

  /** `notes?.trim() || ""`. */
  function NotesOf(notes: Option<string>): string
  {
    if notes.Some? then Trim(notes.value) else ""
  }

  /** What the guards before the conflict query establish: the active
      service and the requested interval. */
  datatype Checked = Checked(service: Service, start: int, end: int)

  /** The guard chain of `createBooking`: required fields (400), an active
      service with that slug (404), two valid dates (400), and an end after
      the start (400). `parse` is the date parser; `None` is an invalid date. */
  function ValidateCreate(req: BookingRequest, services: seq<Service>, parse: string -> Option<int>): (r: Result<Checked>)
    ensures r == Err(NotFound) <==> RequiredFieldsPresent(req) && FindActive(services, req.serviceId.value).None?
    ensures r == Err(BadRequest) <==>
      !RequiredFieldsPresent(req)
      || (FindActive(services, req.serviceId.value).Some?
          && (parse(req.startTime.value).None? || parse(req.endTime.value).None?
              || parse(req.endTime.value).value <= parse(req.startTime.value).value))
    ensures r.Err? ==> r.error == BadRequest || r.error == NotFound
    ensures r.Ok? ==> RequiredFieldsPresent(req) && FindActive(services, req.serviceId.value) == Some(r.value.service)
                      && parse(req.startTime.value) == Some(r.value.start)
                      && parse(req.endTime.value) == Some(r.value.end)
                      && r.value.start < r.value.end
  {
    if !RequiredFieldsPresent(req) then Err(BadRequest)
    else
      match FindActive(services, req.serviceId.value)
      case None => Err(NotFound)
      case Some(service) =>
        var s := parse(req.startTime.value);
        var e := parse(req.endTime.value);
        if s.None? || e.None? then Err(BadRequest)
        else if e.value <= s.value then Err(BadRequest)
        else Ok(Checked(service, s.value, e.value))
  }

  /** The document `createBooking` hands to `Booking.create`. */
  function CreateDraft(req: BookingRequest, c: Checked, id: string): Booking
    requires RequiredFieldsPresent(req)
  {
    Booking(id, c.service.slug, c.service.name, Trim(req.firstName.value), Trim(req.lastName.value),
            NormalizeEmail(req.email.value), Trim(req.phone.value), NotesOf(req.notes),
            c.start, c.end, Pending, None, None)
  }

  /** `createBooking` with its conflict query's status set as a parameter.
      `newId` is the `_id` the database assigns. */
  function CreateBookingWith(blocking: set<string>, req: BookingRequest, services: seq<Service>,
                             store: seq<Booking>, parse: string -> Option<int>, newId: string)
    : (h: Handled<seq<Booking>, Booking>)
    ensures h.result.Err? ==> h.store == store
    ensures ValidateCreate(req, services, parse).Err? ==> h.result == Err(ValidateCreate(req, services, parse).error)
    ensures ValidateCreate(req, services, parse).Ok? ==>
      var c := ValidateCreate(req, services, parse).value;
      var f := FindConflict(store, blocking, c.start, c.end);
      (f.Some? ==> h.result == Err(ConflictAt(store[f.value].startTime, store[f.value].endTime)))
      && (f.None? ==> h == BookingModel.Create(store, CreateDraft(req, c, newId)))
    ensures h.result.Ok? ==>
      ValidateCreate(req, services, parse).Ok?
      && var c := ValidateCreate(req, services, parse).value;
      FindConflict(store, blocking, c.start, c.end).None?
      && h.store == store + [h.result.value]
      && h.result.value == ApplySetters(CreateDraft(req, c, newId))
      && h.result.value.status == Pending && h.result.value.id == newId
      && h.result.value.startTime == c.start && h.result.value.endTime == c.end
  {
    match ValidateCreate(req, services, parse)
    case Err(e) => Handled(store, Err(e))
    case Ok(c) =>
      match FindConflict(store, blocking, c.start, c.end)
      case Some(k) => Handled(store, Err(ConflictAt(store[k].startTime, store[k].endTime)))
      case None => BookingModel.Create(store, CreateDraft(req, c, newId))
  }

  /** The statuses `createBooking`'s conflict query blocks on as written;
      "confirmed" is not a status the schema admits. */
  const CreateBookingBlocking: set<string> := {"pending", "confirmed"}

  /** `createBooking` as written. */
  function CreateBooking(req: BookingRequest, services: seq<Service>, store: seq<Booking>,
                         parse: string -> Option<int>, newId: string): (h: Handled<seq<Booking>, Booking>)
    ensures h.result.Ok? ==> h.result.value.status == Pending
    ensures h.result.Ok? ==> forall i :: 0 <= i < |store| && store[i].status == Pending ==>
      !Overlaps(store[i].startTime, store[i].endTime, h.result.value.startTime, h.result.value.endTime)
  {
    var h := CreateBookingWith(CreateBookingBlocking, req, services, store, parse, newId);
    if h.result.Ok? then
      PendingDisjoint(store, ValidateCreate(req, services, parse).value);
      h
    else h
  }

  lemma PendingDisjoint(store: seq<Booking>, c: Checked)
    requires FindConflict(store, CreateBookingBlocking, c.start, c.end).None?
    ensures forall i :: 0 <= i < |store| && store[i].status == Pending ==>
      !Overlaps(store[i].startTime, store[i].endTime, c.start, c.end)
  {
    forall i | 0 <= i < |store| && store[i].status == Pending
      ensures !Overlaps(store[i].startTime, store[i].endTime, c.start, c.end)
    {
      NoConflictDisjoint(store, CreateBookingBlocking, c.start, c.end, i);
    }
  }

  /** What a successful `createBooking` stores: a pending booking of the
      requested service and interval, with the request's strings trimmed and
      the e-mail lower-cased, appended to the collection. */
  lemma CreateBookingStores(req: BookingRequest, services: seq<Service>, store: seq<Booking>,
                            parse: string -> Option<int>, newId: string)
    requires CreateBooking(req, services, store, parse, newId).result.Ok?
    ensures var h := CreateBooking(req, services, store, parse, newId);
      var b := h.result.value;
      RequiredFieldsPresent(req)
      && h.store == store + [b] && b.id == newId && !HasId(store, newId)
      && b.status == Pending && b.paymentProof.None? && b.paymentAmountReceived.None?
      && Some(b.serviceSlug) == req.serviceId && FindActive(services, b.serviceSlug).Some?
      && b.firstName == Trim(req.firstName.value) && b.lastName == Trim(req.lastName.value)
      && b.phone == Trim(req.phone.value) && b.email == NormalizeEmail(req.email.value)
      && b.notes == NotesOf(req.notes)
      && parse(req.startTime.value) == Some(b.startTime) && parse(req.endTime.value) == Some(b.endTime)
      && b.startTime < b.endTime && Normalized(b)
  {
    var c := ValidateCreate(req, services, parse).value;
    var d := CreateDraft(req, c, newId);
    TrimIdempotent(req.firstName.value);
    TrimIdempotent(req.lastName.value);
    TrimIdempotent(req.phone.value);
    NormalizeEmailIdempotent(req.email.value);
    if req.notes.Some? { TrimIdempotent(req.notes.value); }
    assert ApplySetters(d) == d;
  }

  /** The written conflict query lets a request overlap a `validated`
      booking: from a collection whose one booking is validated, a
      well-formed request for the same interval is accepted, and the
      collection then holds two live bookings that overlap. */
  lemma CreateBookingOverlapsValidated(v: Booking, req: BookingRequest, services: seq<Service>,
                                       parse: string -> Option<int>, newId: string)
    requires v.status == Validated && v.startTime < v.endTime && v.id != newId
    requires RequiredFieldsPresent(req)
    requires FindActive(services, req.serviceId.value).Some? && FindActive(services, req.serviceId.value).value.name != ""
    requires parse(req.startTime.value) == Some(v.startTime) && parse(req.endTime.value) == Some(v.endTime)
    requires NonBlankEnds(req.firstName.value) && NonBlankEnds(req.lastName.value)
    requires NonBlankEnds(req.email.value) && NonBlankEnds(req.phone.value)
    ensures NoOverlap([v])
    ensures CreateBooking(req, services, [v], parse, newId).result.Ok?
    ensures !NoOverlap(CreateBooking(req, services, [v], parse, newId).store)
  {
    var vc := ValidateCreate(req, services, parse);
    assert vc.Ok?;
    var c := vc.value;
    assert c.start == v.startTime && c.end == v.endTime;
    assert !Blocks(v, CreateBookingBlocking, c.start, c.end);
    assert FindConflict([v], CreateBookingBlocking, c.start, c.end).None?;
    var d := CreateDraft(req, c, newId);
    DraftAccepted(req, c, newId);
    SingletonHasId(v, newId);
    var hw := CreateBookingWith(CreateBookingBlocking, req, services, [v], parse, newId);
    assert hw == BookingModel.Create([v], d);
    assert hw.result.Ok?;
    assert CreateBooking(req, services, [v], parse, newId) == hw;
    LiveTwinOverlaps(v, hw.result.value);
  }

  /** A validated booking and a pending one with the same non-empty
      interval: the first alone is overlap-free, the two together are not. */
  lemma LiveTwinOverlaps(v: Booking, x: Booking)
    requires v.status == Validated && x.status == Pending
    requires v.startTime < v.endTime && x.startTime == v.startTime && x.endTime == v.endTime
    ensures NoOverlap([v]) && !NoOverlap([v] + [x])
  {
    var t := [v] + [x];
    assert t[0] == v && t[1] == x;
  }

  lemma SingletonHasId(b: Booking, id: string)
    ensures HasId([b], id) <==> b.id == id
  {
    if b.id == id {
      assert [b][0].id == id;
    }
  }

  /** The draft of a request with non-blank ends passes the `required`
      validators. */
  lemma DraftAccepted(req: BookingRequest, c: Checked, newId: string)
    requires RequiredFieldsPresent(req) && c.service.slug != "" && c.service.name != ""
    requires NonBlankEnds(req.firstName.value) && NonBlankEnds(req.lastName.value)
    requires NonBlankEnds(req.email.value) && NonBlankEnds(req.phone.value)
    ensures RequiredPresent(ApplySetters(CreateDraft(req, c, newId)))
  {
    NonBlankEndsSurvive(req.firstName.value);
    NonBlankEndsSurvive(req.lastName.value);
    NonBlankEndsSurvive(req.phone.value);
    NonBlankEndsSurvive(req.email.value);
    NonBlankEndsSurvive(NormalizeEmail(req.email.value));
  }

  /** `createBooking` with the conflict query of `hasConflict`, every status
      but `cancelled`. */
  function CreateBookingCorrected(req: BookingRequest, services: seq<Service>, store: seq<Booking>,
                                  parse: string -> Option<int>, newId: string): (h: Handled<seq<Booking>, Booking>)
    ensures h.result.Ok? ==> !HasConflict(store, h.result.value.startTime, h.result.value.endTime)
    ensures NoOverlap(store) ==> NoOverlap(h.store)
  {
    var h := CreateBookingWith(NonCancelled, req, services, store, parse, newId);
    if h.result.Ok? && NoOverlap(store) then
      GuardedInsertKeepsNoOverlap(store, h.result.value);
      h
    else h
  }

  /** The corrected guard differs from the written one only by what it
      blocks: whatever it accepts, the written one accepts too. */
  lemma CorrectedAcceptsLess(req: BookingRequest, services: seq<Service>, store: seq<Booking>,
                             parse: string -> Option<int>, newId: string)
    ensures CreateBookingCorrected(req, services, store, parse, newId).result.Ok? ==>
      CreateBooking(req, services, store, parse, newId) == CreateBookingCorrected(req, services, store, parse, newId)
  {
    var v := ValidateCreate(req, services, parse);
    if v.Ok? && FindConflict(store, NonCancelled, v.value.start, v.value.end).None? {
      forall i | 0 <= i < |store| ensures !Blocks(store[i], CreateBookingBlocking, v.value.start, v.value.end) {
        assert !Blocks(store[i], NonCancelled, v.value.start, v.value.end);
      }
    }
  }

  // ------------------------------------------------------------------
  // submitBookingWithProof

  /** The fields of a `submitBookingWithProof` form. */
  datatype ProofRequest = ProofRequest(
    serviceId: string,
    startTime: Option<string>,
    firstName: Option<string>,
    lastName: Option<string>,
    email: Option<string>,
    phone: Option<string>,
    notes: Option<string>)

  const DepositAmount: int := 25
  const DefaultDuration: int := 150
  const ProofDirectory: string := "/uploads/proofs/"

  /** `service.duration || 150`. */
  function EffectiveDuration(d: int): (r: int)
    ensures d != 0 ==> r == d
    ensures r != 0
  {
    if d == 0 then DefaultDuration else d
  }

  /** `submitBookingWithProof`: a missing upload is a 400 and an unknown or
      inactive service a 404; a missing string field or an invalid start
      throws and is a 500. No conflict query is made: the booking is stored
      as `payment_proof_submitted` with the 25 deposit, ending the service's
      duration (150 minutes when it is 0) after its start. `file` is the
      stored upload's file name. */
  function SubmitBookingWithProof(req: ProofRequest, file: Option<string>, services: seq<Service>,
                                  store: seq<Booking>, parse: string -> Option<int>, newId: string)
    : (h: Handled<seq<Booking>, Booking>)
    ensures h.result == Err(BadRequest) <==> file.None?
    ensures h.result == Err(NotFound) <==> file.Some? && FindActive(services, req.serviceId).None?
    ensures h.result.Err? ==> h.store == store && h.result.error in {BadRequest, NotFound, InternalError}
    ensures h.result.Ok? ==>
      var b := h.result.value;
      var svc := FindActive(services, req.serviceId).value;
      file.Some? && FindActive(services, req.serviceId).Some?
      && h.store == store + [b] && b.id == newId
      && req.startTime.Some? && parse(req.startTime.value) == Some(b.startTime)
      && b.endTime == b.startTime + EffectiveDuration(svc.duration) * 60000
      && b.status == PaymentProofSubmitted
      && b.paymentAmountReceived == Some(DepositAmount)
      && b.paymentProof == Some(ProofDirectory + file.value)
      && b.serviceSlug == svc.slug && b.serviceName == svc.name
      && ProofFieldsPresent(req) && b.email == NormalizeEmail(req.email.value)
      && b.firstName == Trim(req.firstName.value) && b.lastName == Trim(req.lastName.value)
      && b.phone == Trim(req.phone.value) && b.notes == NotesOf(req.notes)
      && !HasId(store, newId) && Normalized(b)
    ensures h.result == Err(InternalError) <==>
      file.Some? && FindActive(services, req.serviceId).Some?
      && (!ProofFieldsPresent(req) || parse(req.startTime.value).None?
          || !ProofStorable(req, FindActive(services, req.serviceId).value) || HasId(store, newId))
  {
    if file.None? then Handled(store, Err(BadRequest))
    else
      match FindActive(services, req.serviceId)
      case None => Handled(store, Err(NotFound))
      case Some(svc) =>
        if !ProofFieldsPresent(req) then
          Handled(store, Err(InternalError))
        else
          match parse(req.startTime.value)
          case None => Handled(store, Err(InternalError))
          case Some(start) =>
            NormalizeEmailIdempotent(req.email.value);
            TrimIdempotent(req.firstName.value);
            TrimIdempotent(req.lastName.value);
            TrimIdempotent(req.phone.value);
            NotesOfTrimmed(req.notes);
            BookingModel.Create(store, ProofDraft(req, svc, file.value, start, newId))
  }

  /** What `Booking.create`'s required-field validators demand of a proof
      form: a service with a slug and a name, and names, e-mail and phone
      that are not blank once trimmed. */
  predicate ProofStorable(req: ProofRequest, svc: Service)
    requires ProofFieldsPresent(req)
  {
    svc.slug != "" && svc.name != ""
    && Trim(req.firstName.value) != "" && Trim(req.lastName.value) != ""
    && NormalizeEmail(req.email.value) != "" && Trim(req.phone.value) != ""
  }

  lemma NotesOfTrimmed(notes: Option<string>)
    ensures Trim(NotesOf(notes)) == NotesOf(notes)
  {
    if notes.Some? { TrimIdempotent(notes.value); } else { TrimIdempotent(""); }
  }

  /** The fields of a proof form that `trim` is called on are present. */
  predicate ProofFieldsPresent(req: ProofRequest)
  {
    req.startTime.Some? && req.firstName.Some? && req.lastName.Some? && req.email.Some? && req.phone.Some?
  }

  /** The document `submitBookingWithProof` hands to `Booking.create`. */
  function ProofDraft(req: ProofRequest, svc: Service, fileName: string, start: int, newId: string): Booking
    requires ProofFieldsPresent(req)
  {
    Booking(newId, svc.slug, svc.name, Trim(req.firstName.value), Trim(req.lastName.value),
            NormalizeEmail(req.email.value), Trim(req.phone.value), NotesOf(req.notes),
            start, start + EffectiveDuration(svc.duration) * 60 * 1000, PaymentProofSubmitted,
            Some(ProofDirectory + fileName), Some(DepositAmount))
  }

  /** No conflict check: whether the proof submission succeeds depends on
      the bookings already stored only through the freshness of the new id. */
  lemma SubmitIgnoresExistingBookings(req: ProofRequest, file: Option<string>, services: seq<Service>,
                                      store: seq<Booking>, parse: string -> Option<int>, newId: string)
    ensures SubmitBookingWithProof(req, file, services, store, parse, newId).result.Ok? <==>
      SubmitBookingWithProof(req, file, services, [], parse, newId).result.Ok? && !HasId(store, newId)
  {
    if file.Some? && FindActive(services, req.serviceId).Some? && ProofFieldsPresent(req)
       && parse(req.startTime.value).Some? {
      var d := ProofDraft(req, FindActive(services, req.serviceId).value, file.value,
                          parse(req.startTime.value).value, newId);
      assert SubmitBookingWithProof(req, file, services, store, parse, newId) == BookingModel.Create(store, d);
      assert SubmitBookingWithProof(req, file, services, [], parse, newId) == BookingModel.Create([], d);
      assert !HasId([], newId);
    }
  }

  // ------------------------------------------------------------------
  // Reading, re-statusing, cancelling

  /** `getBookingById`. */
  function GetBookingById(store: seq<Booking>, id: string): (r: Result<Booking>)
    ensures r.Ok? <==> HasId(store, id)
    ensures r.Err? ==> r.error == NotFound
    ensures r.Ok? ==> r.value in store && r.value.id == id
  {
    match FindById(store, id)
    case None => Err(NotFound)
    case Some(k) => Ok(store[k])
  }

  /** The whitelist of `updateBookingStatus`. */
  const UpdateStatusWhitelist: set<string> := {"pending", "confirmed", "cancelled"}

  /** `updateBookingStatus`: a status outside the whitelist is a 400; the
      update validators then reject a whitelisted string the schema does not
      know ("confirmed") before the lookup, which is a 500; an unknown id is
      a 404; otherwise only the status of that booking changes. */
  function UpdateBookingStatus(store: seq<Booking>, id: string, status: Option<string>)
    : (h: Handled<seq<Booking>, Booking>)
    ensures h.result == Err(BadRequest) <==> status.None? || status.value !in UpdateStatusWhitelist
    ensures h.result == Err(InternalError) <==> status == Some("confirmed")
    ensures h.result == Err(NotFound) <==>
      status.Some? && status.value in UpdateStatusWhitelist - {"confirmed"} && !HasId(store, id)
    ensures h.result.Err? ==> h.store == store
    ensures h.result.Ok? ==>
      status.Some? && (status.value == "pending" || status.value == "cancelled")
      && StatusName(h.result.value.status) == status.value
      && exists k :: 0 <= k < |store| && store[k].id == id && h.result.value == store[k].(status := h.result.value.status)
                     && h.store == store[k := h.result.value]
  {
    if status.None? || status.value !in UpdateStatusWhitelist then Handled(store, Err(BadRequest))
    else
      match ParseStatus(status.value)
      case None => Handled(store, Err(InternalError))
      case Some(st) =>
        match FindById(store, id)
        case None => Handled(store, Err(NotFound))
        case Some(k) =>
          var b := store[k].(status := st);
          Handled(store[k := b], Ok(b))
  }

  const DayMs: int := 24 * 60 * 60 * 1000

  /** The cancellation rule: less than 24 hours before the start, and not
      already cancelled. */
  predicate TooLateToCancel(b: Booking, now: int)
  {
    b.startTime - now < DayMs && b.status != Cancelled
  }

  /** `cancelBooking`: an unknown id is a 404; a booking that starts within
      24 hours of `now` and is not cancelled yet is a 400 and stays as it
      is; otherwise its status becomes `cancelled` and nothing else
      changes. */
  function CancelBooking(store: seq<Booking>, id: string, now: int): (h: Handled<seq<Booking>, Booking>)
    ensures h.result == Err(NotFound) <==> !HasId(store, id)
    ensures h.result == Err(BadRequest) <==> HasId(store, id) && TooLateToCancel(store[FindById(store, id).value], now)
    ensures h.result.Err? ==> h.store == store
    ensures h.result.Ok? ==>
      var k := FindById(store, id).value;
      h.result.value == store[k].(status := Cancelled) && h.store == store[k := h.result.value]
  {
    match FindById(store, id)
    case None => Handled(store, Err(NotFound))
    case Some(k) =>
      var b := store[k];
      if TooLateToCancel(b, now) then Handled(store, Err(BadRequest))
      else Handled(store[k := b.(status := Cancelled)], Ok(b.(status := Cancelled)))
  }

  /** Cancelling twice is cancelling once: the second call succeeds, at any
      time, and changes nothing more. */
  lemma CancelIdempotent(store: seq<Booking>, id: string, now: int, later: int)
    requires CancelBooking(store, id, now).result.Ok?
    ensures var h := CancelBooking(store, id, now);
      CancelBooking(h.store, id, later) == Handled(h.store, h.result)
  {
    var h := CancelBooking(store, id, now);
    var k := FindById(store, id).value;
    var t := h.store;
    assert forall j :: 0 <= j < |t| ==> t[j].id == store[j].id;
    assert FindById(t, id) == Some(k) by {
      FindByIdSameIds(store, t, id);
    }
    assert t[k].status == Cancelled && t[k := t[k].(status := Cancelled)] == t;
  }

  lemma {:induction false} FindByIdSameIds(a: seq<Booking>, b: seq<Booking>, id: string)
    requires |a| == |b| && forall j :: 0 <= j < |a| ==> a[j].id == b[j].id
    ensures FindById(a, id) == FindById(b, id)
  {
    if a != [] {
      FindByIdSameIds(a[1..], b[1..], id);
    }
  }

  /** Once the booking is cancelled, every later booking query that blocks
      on live statuses ignores it. */
  lemma CancelFreesInterval(store: seq<Booking>, id: string, now: int, s: int, e: int)
    requires CancelBooking(store, id, now).result.Ok?
    requires IdsUnique(store)
    requires forall j :: 0 <= j < |store| && store[j].id != id ==> store[j].status == Cancelled
    ensures !HasConflict(CancelBooking(store, id, now).store, s, e)
  {
    var h := CancelBooking(store, id, now);
    var k := FindById(store, id).value;
    forall j | 0 <= j < |h.store| ensures h.store[j].status == Cancelled {
      if j != k {
        assert h.store[j] == store[j];
      }
    }
  }

  // ------------------------------------------------------------------
  // Listing

  /** The query string of the booking lists; `None` is an absent key. */
  datatype BookingQuery = BookingQuery(
    status: Option<string>,
    date: Option<string>,
    serviceSlug: Option<string>,
    page: Option<int>,
    limit: Option<int>)

  /** The filter object: each truthy key adds one condition. */
  predicate MatchesFilter(b: Booking, q: BookingQuery, dayStart: Option<int>)
  {
    (!Truthy(q.status) || StatusName(b.status) == q.status.value)
    && (!Truthy(q.serviceSlug) || b.serviceSlug == q.serviceSlug.value)
    && (dayStart.None? || InDay(b.startTime, dayStart.value))
  }

  /** `find(filter)`: the matching bookings, each as often as it is stored. */
  function Select(store: seq<Booking>, q: BookingQuery, dayStart: Option<int>): (r: seq<Booking>)
    ensures forall b :: multiset(r)[b] == if MatchesFilter(b, q, dayStart) then multiset(store)[b] else 0
    ensures forall i :: 0 <= i < |r| ==> MatchesFilter(r[i], q, dayStart) && r[i] in store
  {
    if store == [] then []
    else
      assert store == [store[0]] + store[1..];
      var rest := Select(store[1..], q, dayStart);
      if MatchesFilter(store[0], q, dayStart) then [store[0]] + rest else rest
  }

  function StartKey(b: Booking): int
  {
    b.startTime
  }

  /** The destructuring defaults `page = 1` and `limit = <default>`,
      which apply only when the parameter is absent, and the skip they
      give. */
  function PageOf(q: BookingQuery): int
  {
    if q.page.Some? then q.page.value else 1
  }

  function LimitOf(q: BookingQuery, defaultLimit: int): int
  {
    if q.limit.Some? then q.limit.value else defaultLimit
  }

  function SkipOf(q: BookingQuery, defaultLimit: int): int
  {
    (PageOf(q) - 1) * LimitOf(q, defaultLimit)
  }

  /** The day a truthy `date` names; an invalid one is `None` as well. */
  function DayOf(q: BookingQuery, parseDay: string -> Option<int>): Option<int>
  {
    if Truthy(q.date) then parseDay(q.date.value) else None
  }

  /** Every entry of a sub-sequence of the matches is a stored booking that
      passes the filter. */
  lemma WindowMembers(w: seq<Booking>, store: seq<Booking>, q: BookingQuery, day: Option<int>)
    requires forall i :: 0 <= i < |w| ==> w[i] in Select(store, q, day)
    ensures forall i :: 0 <= i < |w| ==> MatchesFilter(w[i], q, day) && w[i] in store
  {
    var m := Select(store, q, day);
    forall i | 0 <= i < |w| ensures MatchesFilter(w[i], q, day) && w[i] in store {
      var j :| 0 <= j < |m| && m[j] == w[i];
    }
  }

  /** The list query shared by `getAllBookings` (default limit 20) and
      `getAllBookingsAdmin` (default limit 100): filter, newest start first,
      `skip((page - 1) * limit)`, `limit(limit)`, and the count of every
      match. An invalid `date` and a negative skip make the query throw. */
  function ListBookings(defaultLimit: int, q: BookingQuery, store: seq<Booking>, parseDay: string -> Option<int>)
    : (r: Result<Page<Booking>>)
    ensures r.Err? <==> (Truthy(q.date) && DayOf(q, parseDay).None?) || SkipOf(q, defaultLimit) < 0
    ensures r.Err? ==> r.error == InternalError
    ensures r.Ok? ==>
      IsPage(r.value, Select(store, q, DayOf(q, parseDay)), StartKey, PageOf(q), LimitOf(q, defaultLimit))
      && forall i :: 0 <= i < |r.value.items| ==>
           MatchesFilter(r.value.items[i], q, DayOf(q, parseDay)) && r.value.items[i] in store
  {
    var day := DayOf(q, parseDay);
    if Truthy(q.date) && day.None? then Err(InternalError)
    else
      var r := Paginate(Select(store, q, day), StartKey, PageOf(q), LimitOf(q, defaultLimit));
      if r.Ok? then
        WindowMembers(r.value.items, store, q, day);
        r
      else r
  }

  /** `getAllBookings`. */
  function GetAllBookings(q: BookingQuery, store: seq<Booking>, parseDay: string -> Option<int>)
    : (r: Result<Page<Booking>>)
    ensures r.Ok? ==> r.value.limit == (if q.limit.Some? then q.limit.value else 20)
    ensures q.limit.None? && q.page.None? && !Truthy(q.date) ==> r.Ok? && |r.value.items| <= 20
  {
    ListBookings(20, q, store, parseDay)
  }
}
