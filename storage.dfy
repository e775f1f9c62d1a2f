/** The browser-local engine: a booking list, the weekly availability, a
    list of blocked dates and the admin session, each kept under its own
    localStorage key. The store is a class whose fields are those keys; the
    JSON round-trip of each read and write is the identity. The id,
    `createdAt` and `now` parameters stand for the random id and the clock. */
module Storage {
  import opened Common
  import opened Text
  import opened Seqs
  import opened Constants
  import opened ClockText
  import opened ClockFacts

  datatype LocalStatus = Pending | Confirmed | Cancelled | Completed

  /** A booking of the local engine. */
  datatype LocalBooking = LocalBooking(
    id: string,
    serviceId: string,
    serviceName: string,
    servicePrice: int,
    date: string,
    time: string,
    clientName: string,
    clientEmail: string,
    clientPhone: string,
    notes: Option<string>,
    status: LocalStatus,
    depositPaid: bool,
    createdAt: string)

  /** A `Partial<Booking>`: the fields given, and `None` for the others. */
  datatype BookingPatch = BookingPatch(
    id: Option<string>,
    serviceId: Option<string>,
    serviceName: Option<string>,
    servicePrice: Option<int>,
    date: Option<string>,
    time: Option<string>,
    clientName: Option<string>,
    clientEmail: Option<string>,
    clientPhone: Option<string>,
    notes: Option<string>,
    status: Option<LocalStatus>,
    depositPaid: Option<bool>,
    createdAt: Option<string>)

  const NoChange: BookingPatch := BookingPatch(None, None, None, None, None, None, None, None, None, None, None, None, None)

  function Pick<T>(given: Option<T>, old_: T): T
  {
    if given.Some? then given.value else old_
  }

  /** `{ ...b, ...u }`: every field `u` gives wins. */
  function Merge(b: LocalBooking, u: BookingPatch): (r: LocalBooking)
  {
    LocalBooking(Pick(u.id, b.id), Pick(u.serviceId, b.serviceId), Pick(u.serviceName, b.serviceName),
                 Pick(u.servicePrice, b.servicePrice), Pick(u.date, b.date), Pick(u.time, b.time),
                 Pick(u.clientName, b.clientName), Pick(u.clientEmail, b.clientEmail),
                 Pick(u.clientPhone, b.clientPhone), if u.notes.Some? then u.notes else b.notes,
                 Pick(u.status, b.status), Pick(u.depositPaid, b.depositPaid), Pick(u.createdAt, b.createdAt))
  }

  /** An empty patch changes nothing, and applying a patch twice is applying
      it once. */
  lemma MergeLaws(b: LocalBooking, u: BookingPatch)
    ensures Merge(b, NoChange) == b
    ensures Merge(Merge(b, u), u) == Merge(b, u)
    ensures u.status.Some? ==> Merge(b, u).status == u.status.value
    ensures u.id.None? ==> Merge(b, u).id == b.id
  {
  }

  predicate HasLocalId(bookings: seq<LocalBooking>, id: string)
  {
    exists i :: 0 <= i < |bookings| && bookings[i].id == id
  }

  /** `findIndex(b => b.id === id)`: the first index with that id. */
  function FindIndex(bookings: seq<LocalBooking>, id: string): (r: Option<nat>)
    ensures r.Some? <==> HasLocalId(bookings, id)
    ensures r.Some? ==> r.value < |bookings| && bookings[r.value].id == id
    ensures r.Some? ==> forall k :: 0 <= k < r.value ==> bookings[k].id != id
  {
    if bookings == [] then None
    else if bookings[0].id == id then Some(0)
    else
      match FindIndex(bookings[1..], id)
      case None => None
      case Some(k) => Some(k + 1)
  }

  /** `filter(b => b.id !== id)`. */
  function WithoutId(bookings: seq<LocalBooking>, id: string): (r: seq<LocalBooking>)
    ensures forall x :: multiset(r)[x] == if x.id != id then multiset(bookings)[x] else 0
    ensures !HasLocalId(r, id)
    ensures |r| == |bookings| <==> !HasLocalId(bookings, id)
  {
    var p := (b: LocalBooking) => b.id != id;
    FilterKeepsLength(bookings, p);
    Filter(bookings, p)
  }

  /** `getBookingsByDate`: the bookings of that date that are not cancelled. */
  function BookingsOn(bookings: seq<LocalBooking>, date: string): (r: seq<LocalBooking>)
    ensures forall x :: multiset(r)[x] == (if x.date == date && x.status != Cancelled then multiset(bookings)[x] else 0)
    ensures forall i :: 0 <= i < |r| ==> r[i].date == date && r[i].status != Cancelled && r[i] in bookings
  {
    Filter(bookings, (b: LocalBooking) => b.date == date && b.status != Cancelled)
  }

  /** The list keeps its order: the bookings of a date from a longer list are
      those of the first part followed by those of the second. */
  lemma BookingsOnAppend(a: seq<LocalBooking>, b: seq<LocalBooking>, date: string)
    ensures BookingsOn(a + b, date) == BookingsOn(a, date) + BookingsOn(b, date)
  {
    FilterAppend(a, b, (x: LocalBooking) => x.date == date && x.status != Cancelled);
  }

  datatype BlockedDate = BlockedDate(date: string, reason: Option<string>)

  /** `isDateBlocked`. */
  predicate IsBlocked(blocked: seq<BlockedDate>, date: string)
  {
    exists i :: 0 <= i < |blocked| && blocked[i].date == date
  }

  /** No date is listed twice. */
  predicate BlockedUnique(blocked: seq<BlockedDate>)
  {
    forall i, j :: 0 <= i < j < |blocked| ==> blocked[i].date != blocked[j].date
  }

  /** `addBlockedDate`: appended only when the date is not listed yet. */
  function AddBlocked(blocked: seq<BlockedDate>, date: string, reason: Option<string>): (r: seq<BlockedDate>)
    ensures IsBlocked(r, date)
    ensures IsBlocked(blocked, date) ==> r == blocked
    ensures !IsBlocked(blocked, date) ==> r == blocked + [BlockedDate(date, reason)]
    ensures forall d :: d != date ==> (IsBlocked(r, d) <==> IsBlocked(blocked, d))
    ensures BlockedUnique(blocked) ==> BlockedUnique(r)
  {
    if IsBlocked(blocked, date) then blocked
    else
      var r := blocked + [BlockedDate(date, reason)];
      assert r[|blocked|].date == date;
      assert forall i :: 0 <= i < |blocked| ==> r[i] == blocked[i];
      r
  }

  /** `removeBlockedDate`: every entry of that date goes. */
  function RemoveBlocked(blocked: seq<BlockedDate>, date: string): (r: seq<BlockedDate>)
    ensures !IsBlocked(r, date)
    ensures forall d :: d != date ==> (IsBlocked(r, d) <==> IsBlocked(blocked, d))
    ensures forall x :: multiset(r)[x] == if x.date != date then multiset(blocked)[x] else 0
  {
    var r := Filter(blocked, (b: BlockedDate) => b.date != date);
    forall d | d != date ensures IsBlocked(r, d) <==> IsBlocked(blocked, d) {
      if IsBlocked(blocked, d) {
        var i :| 0 <= i < |blocked| && blocked[i].date == d;
        assert multiset(r)[blocked[i]] > 0;
        assert blocked[i] in r;
      }
    }
    r
  }

  /** Adding a date twice is adding it once, and removing it afterwards
      leaves it unblocked. */
  lemma BlockedLaws(blocked: seq<BlockedDate>, date: string, reason: Option<string>, other: Option<string>)
    ensures AddBlocked(AddBlocked(blocked, date, reason), date, other) == AddBlocked(blocked, date, reason)
    ensures !IsBlocked(RemoveBlocked(AddBlocked(blocked, date, reason), date), date)
  {
  }

  /** One day of the weekly availability. */
  datatype Availability = Availability(dayOfWeek: int, enabled: bool, startTime: string, endTime: string)

  /** The default entry of a weekday: open from 08:00 to 21:00. */
  function DefaultDay(weekday: int): (d: Availability)
    ensures d.dayOfWeek == weekday && d.enabled
  {
    Availability(weekday, true, "08:00", "21:00")
  }

  /** The default entries of the weekdays from `k` on, in weekday order. */
  function DefaultWeekFrom(k: nat): (r: seq<Availability>)
    requires k <= 7
    ensures |r| == 7 - k && forall i :: 0 <= i < |r| ==> r[i] == DefaultDay(k + i)
    decreases 7 - k
  {
    if k == 7 then [] else [DefaultDay(k)] + DefaultWeekFrom(k + 1)
  }

  /** `DEFAULT_AVAILABILITY`: one entry per weekday, Sunday to Saturday,
      each open from 08:00 to 21:00. */
  const DefaultAvailability: seq<Availability> := DefaultWeekFrom(0)

  /** `availability.find(a => a.dayOfWeek === dayOfWeek)`. */
  function FindDay(availability: seq<Availability>, weekday: int): (r: Option<Availability>)
    ensures r.Some? ==> r.value in availability && r.value.dayOfWeek == weekday
    ensures r.None? ==> forall i :: 0 <= i < |availability| ==> availability[i].dayOfWeek != weekday
  {
    if availability == [] then None
    else if availability[0].dayOfWeek == weekday then Some(availability[0])
    else FindDay(availability[1..], weekday)
  }

  /** The first entry for that weekday is the one found. */
  lemma {:induction false} FindDayAt(availability: seq<Availability>, weekday: int, k: nat)
    requires k < |availability| && availability[k].dayOfWeek == weekday
    requires forall j :: 0 <= j < k ==> availability[j].dayOfWeek != weekday
    ensures FindDay(availability, weekday) == Some(availability[k])
  {
    if k > 0 {
      FindDayAt(availability[1..], weekday, k - 1);
    }
  }

  /** From weekday `k` on, `find` reaches the entry of any later weekday. */
  lemma {:induction false} FindInWeekFrom(k: nat, weekday: int)
    requires k <= weekday < 7
    ensures FindDay(DefaultWeekFrom(k), weekday) == Some(DefaultDay(weekday))
    decreases weekday - k
  {
    if k < weekday {
      assert DefaultWeekFrom(k)[1..] == DefaultWeekFrom(k + 1);
      FindInWeekFrom(k + 1, weekday);
    }
  }

  /** Every weekday of the default availability is open from 08:00 to
      21:00. */
  lemma FindDefaultDay(weekday: int)
    requires 0 <= weekday < 7
    ensures FindDay(DefaultAvailability, weekday) == Some(DefaultDay(weekday))
  {
    FindInWeekFrom(0, weekday);
  }

  /** The test of one slot: not a booked start time, starting no earlier than
      the day's opening and ending no later than its closing, each clock
      string read by `split(':').map(Number)`. A string that reads as NaN
      makes its comparison false. */
  predicate SlotFits(slot: string, bookedTimes: seq<string>, day: Availability, duration: int)
  {
    slot !in bookedTimes
    && ClockMinutes(slot).Some? && ClockMinutes(day.startTime).Some? && ClockMinutes(day.endTime).Some?
    && ClockMinutes(slot).value >= ClockMinutes(day.startTime).value
    && ClockMinutes(slot).value + duration <= ClockMinutes(day.endTime).value
  }

  /** The filter callback of `getAvailableTimeSlots`. */
  function SlotTest(bookedTimes: seq<string>, day: Availability, duration: int): string -> bool
  {
    (slot: string) => SlotFits(slot, bookedTimes, day, duration)
  }

  function TimesOf(bookings: seq<LocalBooking>): (r: seq<string>)
    ensures |r| == |bookings| && forall i :: 0 <= i < |r| ==> r[i] == bookings[i].time
  {
    if bookings == [] then [] else [bookings[0].time] + TimesOf(bookings[1..])
  }

  const DefaultServiceDuration: int := 150

  /** `getAvailableTimeSlots` on the stored lists and the slot table
      `table`: nothing on a day without an enabled entry or on a blocked date;
      otherwise the entries of the table that fit, in the table's order.
      `weekday` is `new Date(date).getDay()`. */
  function AvailableSlots(table: seq<string>, availability: seq<Availability>, blocked: seq<BlockedDate>,
                          bookings: seq<LocalBooking>, date: string, weekday: int, duration: int): (r: seq<string>)
    ensures (FindDay(availability, weekday).None? || !FindDay(availability, weekday).value.enabled
             || IsBlocked(blocked, date)) ==> r == []
    ensures forall i :: 0 <= i < |r| ==> r[i] in table
    ensures FindDay(availability, weekday).Some? ==>
      forall x :: multiset(r)[x] ==
        (if FindDay(availability, weekday).value.enabled && !IsBlocked(blocked, date)
            && SlotFits(x, TimesOf(BookingsOn(bookings, date)), FindDay(availability, weekday).value, duration)
         then multiset(table)[x] else 0)
  {
    match FindDay(availability, weekday)
    case None => []
    case Some(day) =>
      if !day.enabled || IsBlocked(blocked, date) then []
      else
        var booked := TimesOf(BookingsOn(bookings, date));
        Filter(table, SlotTest(booked, day, duration))
  }

  /** Every entry of the table reads as the minute of day it names, the
      same minute as the strict reading. */
  lemma TableClock()
    ensures forall i :: 0 <= i < |TimeSlots| ==>
      ClockMinutes(TimeSlots[i]) == ParseHhMm(TimeSlots[i]) == Some(SlotMinute(i))
  {
    TimeSlotsTable();
    forall i | 0 <= i < |TimeSlots|
      ensures ClockMinutes(TimeSlots[i]) == Some(SlotMinute(i))
    {
      TimeSlotIsFormatted(i);
      ClockMinutesOfFormat(SlotMinute(i));
    }
  }

  /** Every entry of the table fits a default day for the default
      duration when nothing is booked. */
  lemma TableFitsDefaultDay(weekday: int)
    ensures forall i :: 0 <= i < |TimeSlots| ==>
      SlotFits(TimeSlots[i], [], DefaultDay(weekday), DefaultServiceDuration)
  {
    DefaultOpening();
    DefaultClosing();
    SlotsWithinHours();
    TableClock();
  }

  /** Bounds written `8:00` read like `08:00`: a day stored with a
      one-digit opening hour offers the same slots. */
  lemma ShortOpeningHourFits(slot: string, bookedTimes: seq<string>, weekday: int, duration: int)
    ensures SlotFits(slot, bookedTimes, Availability(weekday, true, "8:00", "21:00"), duration)
        <==> SlotFits(slot, bookedTimes, DefaultDay(weekday), duration)
  {
    LenientOneDigitHour();
    DefaultOpening();
  }

  /** On a default day with no bookings and the default duration, every
      entry of the table is offered. */
  lemma DefaultDayOffersAll(blocked: seq<BlockedDate>, bookings: seq<LocalBooking>, date: string, weekday: int)
    requires 0 <= weekday < 7 && !IsBlocked(blocked, date) && BookingsOn(bookings, date) == []
    ensures AvailableSlots(TimeSlots, DefaultAvailability, blocked, bookings, date, weekday, DefaultServiceDuration)
         == TimeSlots
  {
    var day := DefaultDay(weekday);
    FindDefaultDay(weekday);
    assert TimesOf(BookingsOn(bookings, date)) == [];
    TableFitsDefaultDay(weekday);
    FilterAll(TimeSlots, SlotTest([], day, DefaultServiceDuration));
  }

  /** On a default weekday that is not blocked, a string is offered exactly
      when it is in the table and fits beside the day's booked start times. */
  lemma OfferedOnDefaultDay(blocked: seq<BlockedDate>, bookings: seq<LocalBooking>, date: string,
                            weekday: int, duration: int, x: string)
    requires 0 <= weekday < 7 && !IsBlocked(blocked, date)
    ensures x in AvailableSlots(TimeSlots, DefaultAvailability, blocked, bookings, date, weekday, duration)
        <==> x in TimeSlots
             && SlotFits(x, TimesOf(BookingsOn(bookings, date)), DefaultDay(weekday), duration)
  {
    var day := DefaultDay(weekday);
    FindDefaultDay(weekday);
    FilterMember(TimeSlots, SlotTest(TimesOf(BookingsOn(bookings, date)), day, duration), x);
  }

  /** A start time already booked never fits, whatever the day's hours. */
  lemma BookedStartRefused(slot: string, bookedTimes: seq<string>, day: Availability, duration: int)
    requires slot in bookedTimes
    ensures !SlotFits(slot, bookedTimes, day, duration)
  {
  }

  /** A slot fits when it is not booked and its reading lies between the
      readings of the day's bounds, leaving room for the duration. */
  lemma FitsByMinutes(slot: string, bookedTimes: seq<string>, day: Availability, duration: int,
                      t: int, open: int, close: int)
    requires slot !in bookedTimes
    requires ClockMinutes(slot) == Some(t) && ClockMinutes(day.startTime) == Some(open)
    requires ClockMinutes(day.endTime) == Some(close)
    requires open <= t && t + duration <= close
    ensures SlotFits(slot, bookedTimes, day, duration)
  {
  }

  /** A booking at 09:00 does not book 09:30. */
  lemma NineThirtyNotBooked()
    ensures "09:30" !in ["09:00"]
  {
    assert "09:30"[3] != "09:00"[3];
  }

  /** The entry `09:30` reads as minute 570. */
  lemma NineThirtyClock()
    ensures ClockMinutes("09:30") == Some(570)
  {
    ClockOfTwoDigitFields("09:30", "09", "30", 9, 30);
  }

  /** Beside a booking at 09:00, 09:30 fits a default day for 150
      minutes. */
  lemma NineThirtyFits(weekday: int)
    ensures SlotFits("09:30", ["09:00"], DefaultDay(weekday), DefaultServiceDuration)
  {
    NineThirtyClock();
    DefaultOpening();
    DefaultClosing();
    NineThirtyNotBooked();
    FitsByMinutes("09:30", ["09:00"], DefaultDay(weekday), DefaultServiceDuration,
                  570, 480, 1260);
  }

  /** Only an identical start time blocks a slot: a 150-minute booking at
      09:00 leaves 09:30 on offer. */
  lemma OverlapNotChecked(b: LocalBooking, blocked: seq<BlockedDate>, weekday: int)
    requires 0 <= weekday < 7 && !IsBlocked(blocked, b.date)
    requires b.time == "09:00" && b.status == Confirmed
    ensures "09:30" in AvailableSlots(TimeSlots, DefaultAvailability, blocked, [b], b.date, weekday, DefaultServiceDuration)
    ensures "09:00" !in AvailableSlots(TimeSlots, DefaultAvailability, blocked, [b], b.date, weekday, DefaultServiceDuration)
  {
    assert BookingsOn([b], b.date) == [b] by {
      assert multiset(BookingsOn([b], b.date))[b] == 1;
    }
    assert TimesOf([b]) == ["09:00"];
    assert TimeSlots[3] == "09:30";
    NineThirtyFits(weekday);
    BookedStartRefused("09:00", ["09:00"], DefaultDay(weekday), DefaultServiceDuration);
    OfferedOnDefaultDay(blocked, [b], b.date, weekday, DefaultServiceDuration, "09:30");
    OfferedOnDefaultDay(blocked, [b], b.date, weekday, DefaultServiceDuration, "09:00");
  }

  /** The minute of day a clock string names, for ordering; -1 for a
      string that is not one. */
  function ClockKey(x: string): int
  {
    if ClockMinutes(x).Some? then ClockMinutes(x).value else -1
  }

  /** The slot table is strictly ascending by clock time. */
  lemma TableAscending()
    ensures StrictlyAscending(TimeSlots, ClockKey)
  {
    TableClock();
    TimeSlotsAscending();
  }

  /** The offered slots keep the table's order: strictly ascending by clock
      time, hence free of duplicates. */
  lemma OfferedAscending(availability: seq<Availability>, blocked: seq<BlockedDate>, bookings: seq<LocalBooking>,
                         date: string, weekday: int, duration: int)
    ensures var r := AvailableSlots(TimeSlots, availability, blocked, bookings, date, weekday, duration);
      forall i, j :: 0 <= i < j < |r| ==> ClockKey(r[i]) < ClockKey(r[j])
  {
    match FindDay(availability, weekday)
    case None =>
    case Some(day) =>
      if day.enabled && !IsBlocked(blocked, date) {
        TableAscending();
        FilterKeepsAscending(TimeSlots, SlotTest(TimesOf(BookingsOn(bookings, date)), day, duration), ClockKey);
      }
  }

  /** The admin session: logged in, and when. */
  datatype Session = Session(loggedIn: bool, timestamp: int)

  /** Twenty-four hours in milliseconds. */
  const SessionLength: int := 24 * 60 * 60 * 1000

  /** The session still counts at `now`: it exists and is at most 24 hours
      old. */
  predicate SessionLive(session: Option<Session>, now: int)
  {
    session.Some? && now - session.value.timestamp <= SessionLength
  }

  /** The store behind the keys `dalee_bookings`, `dalee_availability`,
      `dalee_blocked_dates` and `dalee_admin_session`. */
  class LocalStore {
    var bookings: seq<LocalBooking>
    var availability: seq<Availability>
    var blockedDates: seq<BlockedDate>
    var session: Option<Session>

    /** The defaults `getFromStorage` falls back on for empty keys. */
    constructor()
      ensures bookings == [] && availability == DefaultAvailability && blockedDates == [] && session == None
    {
      bookings := [];
      availability := DefaultAvailability;
      blockedDates := [];
      session := None;
    }

    /** `saveBooking`: the booking, given its id and creation time, is
        appended after every earlier record. */
    method SaveBooking(booking: LocalBooking, id: string, createdAt: string) returns (saved: LocalBooking)
      modifies this
      ensures saved == booking.(id := id, createdAt := createdAt)
      ensures bookings == old(bookings) + [saved]
      ensures availability == old(availability) && blockedDates == old(blockedDates) && session == old(session)
    {
      saved := booking.(id := id, createdAt := createdAt);
      bookings := bookings + [saved];
    }

    /** `updateBooking`: `None` and nothing written for an unknown id;
        otherwise the first record with that id is merged with `updates`. */
    method UpdateBooking(id: string, updates: BookingPatch) returns (r: Option<LocalBooking>)
      modifies this
      ensures FindIndex(old(bookings), id).None? ==> r.None? && bookings == old(bookings)
      ensures FindIndex(old(bookings), id).Some? ==>
        var k := FindIndex(old(bookings), id).value;
        r == Some(Merge(old(bookings)[k], updates)) && bookings == old(bookings)[k := r.value]
      ensures availability == old(availability) && blockedDates == old(blockedDates) && session == old(session)
    {
      var index := FindIndex(bookings, id);
      if index.None? {
        return None;
      }
      var updated := Merge(bookings[index.value], updates);
      bookings := bookings[index.value := updated];
      r := Some(updated);
    }

    /** `deleteBooking`: `false` and nothing written when no record has the
        id; otherwise every record with it goes. */
    method DeleteBooking(id: string) returns (deleted: bool)
      modifies this
      ensures deleted <==> HasLocalId(old(bookings), id)
      ensures bookings == if deleted then WithoutId(old(bookings), id) else old(bookings)
      ensures availability == old(availability) && blockedDates == old(blockedDates) && session == old(session)
    {
      var filtered := WithoutId(bookings, id);
      if |filtered| == |bookings| {
        return false;
      }
      bookings := filtered;
      deleted := true;
    }

    /** `getBookingsByDate`: the stored bookings of that date that are not
        cancelled, each as often as it is stored. */
    function GetBookingsByDate(date: string): (r: seq<LocalBooking>)
      reads this
      ensures forall i :: 0 <= i < |r| ==> r[i].date == date && r[i].status != Cancelled && r[i] in bookings
      ensures forall x :: multiset(r)[x] == (if x.date == date && x.status != Cancelled then multiset(bookings)[x] else 0)
    {
      BookingsOn(bookings, date)
    }

    /** `setAvailability`: the weekly availability is replaced. */
    method SetAvailability(a: seq<Availability>)
      modifies this
      ensures availability == a
      ensures bookings == old(bookings) && blockedDates == old(blockedDates) && session == old(session)
    {
      availability := a;
    }

    /** `addBlockedDate`. */
    method AddBlockedDate(date: string, reason: Option<string>)
      modifies this
      ensures blockedDates == AddBlocked(old(blockedDates), date, reason)
      ensures bookings == old(bookings) && availability == old(availability) && session == old(session)
    {
      if !IsBlocked(blockedDates, date) {
        blockedDates := blockedDates + [BlockedDate(date, reason)];
      }
    }

    /** `removeBlockedDate`. */
    method RemoveBlockedDate(date: string)
      modifies this
      ensures blockedDates == RemoveBlocked(old(blockedDates), date)
      ensures bookings == old(bookings) && availability == old(availability) && session == old(session)
    {
      blockedDates := RemoveBlocked(blockedDates, date);
    }

    /** `isDateBlocked`. */
    predicate IsDateBlocked(date: string)
      reads this
    {
      IsBlocked(blockedDates, date)
    }

    /** `isAdminLoggedIn`: false without a session; a session older than 24
        hours is removed and answers false; otherwise its `loggedIn`. */
    method IsAdminLoggedIn(now: int) returns (r: bool)
      modifies this
      ensures r <==> SessionLive(old(session), now) && old(session).value.loggedIn
      ensures session == if SessionLive(old(session), now) then old(session) else None
      ensures bookings == old(bookings) && availability == old(availability) && blockedDates == old(blockedDates)
    {
      if session.None? {
        return false;
      }
      if now - session.value.timestamp > SessionLength {
        session := None;
        return false;
      }
      r := session.value.loggedIn;
    }

    /** `adminLogin`: only the exact credentials open a session, stamped
        `now`. */
    method AdminLogin(username: string, password: string, now: int) returns (ok: bool)
      modifies this
      ensures ok <==> username == AdminUsername && password == AdminPassword
      ensures session == if ok then Some(Session(true, now)) else old(session)
      ensures bookings == old(bookings) && availability == old(availability) && blockedDates == old(blockedDates)
    {
      if username == AdminUsername && password == AdminPassword {
        session := Some(Session(true, now));
        return true;
      }
      return false;
    }

    /** `adminLogout`: the session is removed. */
    method AdminLogout()
      modifies this
      ensures session == None
      ensures bookings == old(bookings) && availability == old(availability) && blockedDates == old(blockedDates)
    {
      session := None;
    }

    /** `getAvailableTimeSlots` on the current lists: nothing on a day
        without an enabled entry or on a blocked date; otherwise entries of
        the slot table, in ascending clock order. */
    function GetAvailableTimeSlots(date: string, weekday: int, duration: int): (r: seq<string>)
      reads this
      ensures (FindDay(availability, weekday).None? || !FindDay(availability, weekday).value.enabled
               || IsBlocked(blockedDates, date)) ==> r == []
      ensures forall i :: 0 <= i < |r| ==> r[i] in TimeSlots
      ensures forall i, j :: 0 <= i < j < |r| ==> ClockKey(r[i]) < ClockKey(r[j])
    {
      OfferedAscending(availability, blockedDates, bookings, date, weekday, duration);
      AvailableSlots(TimeSlots, availability, blockedDates, bookings, date, weekday, duration)
    }
  }

  /** A login is good for 24 hours to the millisecond and no longer. */
  lemma SessionExpiry(t: int, now: int)
    ensures SessionLive(Some(Session(true, t)), now) <==> now <= t + 86400000
  {
  }
}
