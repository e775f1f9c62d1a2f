/** `getAvailability`: the free start times of one service on one day.
    Candidates are minutes of the day from the opening time in 30-minute
    steps for as long as the service still ends by closing time; a candidate
    that touches the lunch break is skipped, and one whose interval overlaps a
    live booking that starts on that day is dropped. The survivors are
    reported as `HH:MM` strings. */
module AvailabilityController {
  import opened Common
  import opened Text
  import opened BookingModel
  import opened ServiceModel
  import opened ConflictUtils

  const OpeningMinutes: nat := 9 * 60
  const ClosingMinutes: nat := 21 * 60
  const StepMinutes: nat := 30
  const LunchStart: nat := 12 * 60 + 30
  const LunchEnd: nat := 13 * 60

  const MsPerMinute: int := 60000

  /** The three-way lunch test of the loop. */
  predicate IsDuringLunch(t: int, d: int)
  {
    (t >= LunchStart && t < LunchEnd)
    || (t + d > LunchStart && t + d <= LunchEnd)
    || (t < LunchStart && t + d > LunchEnd)
  }

  /** For a service of positive length the test says exactly that
      `[t, t + d)` meets the break `[12:30, 13:00)`. */
  lemma LunchTestIsOverlap(t: int, d: int)
    requires d > 0
    ensures IsDuringLunch(t, d) <==> t < LunchEnd && t + d > LunchStart
  {
  }

  /** A booking as the loop sees it: its start and end instants. */
  datatype BookedSlot = BookedSlot(start: int, end: int)

  /** The bookings query: not cancelled, and starting between local midnight
      and 23:59:59.999 of the requested day. */
  predicate Considered(b: Booking, dayStart: int)
  {
    b.status != Cancelled && InDay(b.startTime, dayStart)
  }

  /** The query's result, in store order, mapped to `{ start, end }`. */
  function BookedSlots(store: seq<Booking>, dayStart: int): (r: seq<BookedSlot>)
    ensures forall x :: x in r <==>
      exists b :: b in store && Considered(b, dayStart) && x == BookedSlot(b.startTime, b.endTime)
  {
    if store == [] then []
    else
      assert forall b :: b in store <==> b == store[0] || b in store[1..] by {
        assert store == [store[0]] + store[1..];
      }
      var rest := BookedSlots(store[1..], dayStart);
      if Considered(store[0], dayStart) then [BookedSlot(store[0].startTime, store[0].endTime)] + rest
      else rest
  }

  /** The slots keep the store's order: those of a concatenated store are
      the slots of its first part followed by those of its second. */
  lemma {:induction false} BookedSlotsAppend(a: seq<Booking>, b: seq<Booking>, dayStart: int)
    ensures BookedSlots(a + b, dayStart) == BookedSlots(a, dayStart) + BookedSlots(b, dayStart)
  {
    if a == [] {
      assert a + b == b;
    } else {
      assert (a + b)[0] == a[0];
      assert (a + b)[1..] == a[1..] + b;
      BookedSlotsAppend(a[1..], b, dayStart);
    }
  }

  /** A booking that starts on another day never reaches the loop, even if
      it runs into this one. */
  lemma OtherDayBookingIgnored(store: seq<Booking>, b: Booking, dayStart: int)
    requires b.startTime < dayStart || b.startTime > dayStart + EndOfDayOffset
    ensures BookedSlots(store + [b], dayStart) == BookedSlots(store, dayStart)
  {
    AppendIgnored(store, b, dayStart);
  }

  lemma {:induction false} AppendIgnored(store: seq<Booking>, b: Booking, dayStart: int)
    requires !Considered(b, dayStart)
    ensures BookedSlots(store + [b], dayStart) == BookedSlots(store, dayStart)
  {
    if store != [] {
      assert (store + [b])[1..] == store[1..] + [b];
      AppendIgnored(store[1..], b, dayStart);
    }
  }

  /** A cancelled booking is never considered either. */
  lemma CancelledIgnored(store: seq<Booking>, b: Booking, dayStart: int)
    requires b.status == Cancelled
    ensures BookedSlots(store + [b], dayStart) == BookedSlots(store, dayStart)
  {
    AppendIgnored(store, b, dayStart);
  }

  /** `bookedSlots.some(slot => start < slot.end && end > slot.start)`. */
  function AnyOverlap(booked: seq<BookedSlot>, start: int, end: int): (r: bool)
    ensures r <==> exists k :: 0 <= k < |booked| && Overlaps(start, end, booked[k].start, booked[k].end)
  {
    if booked == [] then false
    else Overlaps(start, end, booked[0].start, booked[0].end) || AnyOverlap(booked[1..], start, end)
  }

  /** The instant of minute `t` of the day (`setHours(hours, minutes, 0, 0)`). */
  function SlotStart(dayStart: int, t: int): int
  {
    dayStart + t * MsPerMinute
  }

  function SlotEnd(dayStart: int, t: int, d: int): int
  {
    SlotStart(dayStart, t) + d * MsPerMinute
  }

  /** Minute `t` survives both filters. */
  predicate Emitted(t: int, d: int, dayStart: int, booked: seq<BookedSlot>)
  {
    !IsDuringLunch(t, d) && !AnyOverlap(booked, SlotStart(dayStart, t), SlotEnd(dayStart, t, d))
  }

  /** The minutes the loop emits once it has reached candidate `t`. */
  function AvailableFrom(t: nat, d: int, dayStart: int, booked: seq<BookedSlot>): (r: seq<nat>)
    ensures forall i :: 0 <= i < |r| ==> t <= r[i] && r[i] + d <= ClosingMinutes
    ensures forall i :: 0 <= i < |r| ==> (r[i] - t) % StepMinutes == 0
    ensures forall i, j :: 0 <= i < j < |r| ==> r[i] < r[j]
    decreases ClosingMinutes - t - d
  {
    if t + d > ClosingMinutes then []
    else
      var rest := AvailableFrom(t + StepMinutes, d, dayStart, booked);
      assert forall i :: 0 <= i < |rest| ==> (rest[i] - t) % StepMinutes == 0 by {
        forall i | 0 <= i < |rest| ensures (rest[i] - t) % StepMinutes == 0 {
          assert rest[i] - t == (rest[i] - (t + StepMinutes)) + StepMinutes;
        }
      }
      if Emitted(t, d, dayStart, booked) then [t] + rest else rest
  }

  /** The whole day's emitted minutes. */
  function AvailableMinutes(d: int, dayStart: int, booked: seq<BookedSlot>): seq<nat>
  {
    AvailableFrom(OpeningMinutes, d, dayStart, booked)
  }

  /** A candidate of the loop: on the 30-minute grid from the opening time,
      and finishing by closing time. */
  predicate Candidate(t: int, d: int)
  {
    OpeningMinutes <= t && (t - OpeningMinutes) % StepMinutes == 0 && t + d <= ClosingMinutes
  }

  lemma {:induction false} MemberFrom(t0: nat, t: int, d: int, dayStart: int, booked: seq<BookedSlot>)
    ensures t in AvailableFrom(t0, d, dayStart, booked) <==>
      t0 <= t && (t - t0) % StepMinutes == 0 && t + d <= ClosingMinutes && Emitted(t, d, dayStart, booked)
    decreases ClosingMinutes - t0 - d
  {
    if t0 + d <= ClosingMinutes {
      MemberFrom(t0 + StepMinutes, t, d, dayStart, booked);
      if t0 < t && (t - t0) % StepMinutes == 0 {
        assert t0 + StepMinutes <= t;
        assert (t - (t0 + StepMinutes)) % StepMinutes == 0 by {
          assert t - t0 == (t - (t0 + StepMinutes)) + StepMinutes;
        }
      }
      if t0 + StepMinutes <= t && (t - (t0 + StepMinutes)) % StepMinutes == 0 {
        assert (t - t0) % StepMinutes == 0 by {
          assert t - t0 == (t - (t0 + StepMinutes)) + StepMinutes;
        }
      }
    }
  }

  /** A start time is offered exactly when it is a candidate, is clear of the
      lunch break, and overlaps no booked interval (a booking that ends at the
      slot's start, or starts at its end, does not count). */
  lemma AvailableIff(t: int, d: int, dayStart: int, booked: seq<BookedSlot>)
    ensures t in AvailableMinutes(d, dayStart, booked) <==>
      Candidate(t, d) && !IsDuringLunch(t, d)
      && forall k :: 0 <= k < |booked| ==>
           !Overlaps(SlotStart(dayStart, t), SlotEnd(dayStart, t, d), booked[k].start, booked[k].end)
  {
    MemberFrom(OpeningMinutes, t, d, dayStart, booked);
  }

  /** A slot hit by the lunch test is never offered, however free the day. */
  lemma LunchNeverOffered(t: int, d: int, dayStart: int, booked: seq<BookedSlot>)
    requires IsDuringLunch(t, d)
    ensures t !in AvailableMinutes(d, dayStart, booked)
  {
    AvailableIff(t, d, dayStart, booked);
  }

  /** `timeString` for each emitted minute. */
  function FormatAll(ts: seq<nat>): (r: seq<string>)
    ensures |r| == |ts|
    ensures forall i :: 0 <= i < |ts| ==> r[i] == FormatHhMm(ts[i])
  {
    if ts == [] then [] else [FormatHhMm(ts[0])] + FormatAll(ts[1..])
  }

  /** For a service of non-negative length every string is a two-digit
      `HH:MM`, and the list is strictly ascending, hence has no duplicates. */
  lemma SlotsWellFormed(d: int, dayStart: int, booked: seq<BookedSlot>)
    requires d >= 0
    ensures forall i :: 0 <= i < |FormatAll(AvailableMinutes(d, dayStart, booked))| ==>
      IsHhMm(FormatAll(AvailableMinutes(d, dayStart, booked))[i])
    ensures forall i, j :: 0 <= i < j < |AvailableMinutes(d, dayStart, booked)| ==>
      FormatAll(AvailableMinutes(d, dayStart, booked))[i] != FormatAll(AvailableMinutes(d, dayStart, booked))[j]
  {
    var ts := AvailableMinutes(d, dayStart, booked);
    forall i, j | 0 <= i < j < |ts| ensures FormatHhMm(ts[i]) != FormatHhMm(ts[j]) {
      if FormatHhMm(ts[i]) == FormatHhMm(ts[j]) {
        FormatInjective(ts[i], ts[j]);
      }
    }
  }

  /** One turn of the slot loop: candidate `t` is emitted or skipped, and
      the rest of the day follows. */
  lemma AvailableStep(emitted: seq<nat>, t: nat, d: int, dayStart: int, booked: seq<BookedSlot>)
    requires t + d <= ClosingMinutes
    ensures emitted + AvailableFrom(t, d, dayStart, booked)
      == (if Emitted(t, d, dayStart, booked) then emitted + [t] else emitted)
         + AvailableFrom(t + StepMinutes, d, dayStart, booked)
  {
    var rest := AvailableFrom(t + StepMinutes, d, dayStart, booked);
    if Emitted(t, d, dayStart, booked) {
      assert emitted + ([t] + rest) == (emitted + [t]) + rest;
    }
  }

  /** The loop of `getAvailability`: walk the candidates, `continue` past
      the lunch break, keep the minute when no booked interval overlaps. */
  method ComputeSlots(d: int, dayStart: int, booked: seq<BookedSlot>) returns (slots: seq<string>)
    ensures slots == FormatAll(AvailableMinutes(d, dayStart, booked))
  {
    slots := [];
    ghost var emitted: seq<nat> := [];
    var time: nat := OpeningMinutes;
    while time + d <= ClosingMinutes
      invariant emitted + AvailableFrom(time, d, dayStart, booked) == AvailableMinutes(d, dayStart, booked)
      invariant slots == FormatAll(emitted)
      decreases ClosingMinutes - time - d
    {
      AvailableStep(emitted, time, d, dayStart, booked);
      var hours := time / 60;
      var minutes := time % 60;
      var timeString := Pad2(hours) + ":" + Pad2(minutes);
      if IsDuringLunch(time, d) {
        time := time + StepMinutes;
        continue;
      }
      var start := SlotStart(dayStart, time);
      var end := start + d * MsPerMinute;
      var hasConflict := AnyOverlap(booked, start, end);
      if !hasConflict {
        FormatAllSnoc(emitted, time);
        emitted := emitted + [time];
        slots := slots + [timeString];
      }
      time := time + StepMinutes;
    }
    assert AvailableFrom(time, d, dayStart, booked) == [];
    assert emitted + [] == emitted;
  }

  lemma FormatAllSnoc(ts: seq<nat>, t: nat)
    ensures FormatAll(ts + [t]) == FormatAll(ts) + [FormatHhMm(t)]
  {
  }

  /** The JSON body of a successful answer. */
  datatype Availability = Availability(slots: seq<string>, slug: string, name: string, duration: int, date: string)

  /** The handler. `parseDay` yields the local midnight of the requested
      date, or `None` for an invalid date, which makes the bookings query
      throw and so becomes a 500. */
  method GetAvailability(date: Option<string>, serviceId: Option<string>, services: seq<Service>,
                         store: seq<Booking>, parseDay: string -> Option<int>)
    returns (r: Result<Availability>)
    ensures r == Err(BadRequest) <==> !Truthy(date) || !Truthy(serviceId)
    ensures r == Err(NotFound) <==> Truthy(date) && Truthy(serviceId) && FindActive(services, serviceId.value).None?
    ensures r == Err(InternalError) <==>
      Truthy(date) && Truthy(serviceId) && FindActive(services, serviceId.value).Some? && parseDay(date.value).None?
    ensures r.Err? ==> r.error in {BadRequest, NotFound, InternalError}
    ensures r.Ok? <==> Truthy(date) && Truthy(serviceId) && FindActive(services, serviceId.value).Some?
                       && parseDay(date.value).Some?
    ensures r.Ok? ==>
      var svc := FindActive(services, serviceId.value).value;
      r.value == Availability(FormatAll(AvailableMinutes(svc.duration, parseDay(date.value).value,
                                                         BookedSlots(store, parseDay(date.value).value))),
                              svc.slug, svc.name, svc.duration, date.value)
  {
    if !Truthy(date) || !Truthy(serviceId) {
      return Err(BadRequest);
    }
    var found := FindActive(services, serviceId.value);
    if found.None? {
      return Err(NotFound);
    }
    var service := found.value;
    var dayStart := parseDay(date.value);
    if dayStart.None? {
      return Err(InternalError);
    }
    var booked := BookedSlots(store, dayStart.value);
    var slots := ComputeSlots(service.duration, dayStart.value, booked);
    r := Ok(Availability(slots, service.slug, service.name, service.duration, date.value));
  }

  /** `n` start times `a, a + 30, ...`. */
  function Grid(a: nat, n: nat): (r: seq<nat>)
    ensures |r| == n
    decreases n
  {
    if n == 0 then [] else [a] + Grid(a + StepMinutes, n - 1)
  }

  /** After the lunch break on an empty day every candidate is offered. */
  lemma {:induction false} EmptyAfternoon(t: nat, d: int, dayStart: int)
    requires d > 0 && t >= LunchEnd
    ensures AvailableFrom(t, d, dayStart, []) ==
      Grid(t, if t + d > ClosingMinutes then 0 else (ClosingMinutes - d - t) / StepMinutes + 1)
    decreases ClosingMinutes - t - d
  {
    if t + d <= ClosingMinutes {
      EmptyAfternoon(t + StepMinutes, d, dayStart);
    }
  }

  /** One step of the loop over a candidate hit by the lunch test. */
  lemma LunchStep(t: nat, d: int, dayStart: int, booked: seq<BookedSlot>)
    requires t + d <= ClosingMinutes && IsDuringLunch(t, d)
    ensures AvailableFrom(t, d, dayStart, booked) == AvailableFrom(t + StepMinutes, d, dayStart, booked)
  {
  }

  /** One step of the loop over a candidate clear of lunch on an empty day. */
  lemma FreeStep(t: nat, d: int, dayStart: int)
    requires t + d <= ClosingMinutes && !IsDuringLunch(t, d)
    ensures AvailableFrom(t, d, dayStart, []) == [t] + AvailableFrom(t + StepMinutes, d, dayStart, [])
  {
  }

  /** On an empty day a 150-minute service can start at 09:00, 09:30, 10:00
      and then every half hour from 13:00 to 18:30: 15 start times. */
  lemma EmptyDay150(dayStart: int)
    ensures AvailableMinutes(150, dayStart, []) ==
      [540, 570, 600, 780, 810, 840, 870, 900, 930, 960, 990, 1020, 1050, 1080, 1110]
  {
    var e: seq<BookedSlot> := [];
    EmptyAfternoon(780, 150, dayStart);
    LunchStep(750, 150, dayStart, e);
    LunchStep(720, 150, dayStart, e);
    LunchStep(690, 150, dayStart, e);
    LunchStep(660, 150, dayStart, e);
    LunchStep(630, 150, dayStart, e);
    FreeStep(600, 150, dayStart);
    FreeStep(570, 150, dayStart);
    FreeStep(540, 150, dayStart);
    AfternoonGrid();
  }

  lemma AfternoonGrid()
    ensures Grid(780, 12) == [780, 810, 840, 870, 900, 930, 960, 990, 1020, 1050, 1080, 1110]
  {
  }

  /** A 60-minute service on a day with one live booking from 10:00 to 12:30:
      09:00 (ending as the booking starts) is offered, 09:30 to 12:00 clash
      with it, 12:30 falls in the lunch test, and 13:00 is offered again. */
  lemma MorningBookingScenario(dayStart: int)
    ensures var booked := [BookedSlot(SlotStart(dayStart, 600), SlotStart(dayStart, 750))];
      540 in AvailableMinutes(60, dayStart, booked)
      && (forall t :: 570 <= t <= 720 ==> t !in AvailableMinutes(60, dayStart, booked))
      && 750 !in AvailableMinutes(60, dayStart, booked)
      && 780 in AvailableMinutes(60, dayStart, booked)
  {
    var booked := [BookedSlot(SlotStart(dayStart, 600), SlotStart(dayStart, 750))];
    AvailableIff(540, 60, dayStart, booked);
    AvailableIff(750, 60, dayStart, booked);
    AvailableIff(780, 60, dayStart, booked);
    forall t | 570 <= t <= 720 ensures t !in AvailableMinutes(60, dayStart, booked) {
      AvailableIff(t, 60, dayStart, booked);
    }
  }

  /** When every live booking of the store starts on the requested day, an
      offered slot is one `hasConflict` also reports free. */
  lemma OfferedSlotHasNoConflict(store: seq<Booking>, t: int, d: int, dayStart: int)
    requires forall i :: 0 <= i < |store| && store[i].status != Cancelled ==> Considered(store[i], dayStart)
    requires t in AvailableMinutes(d, dayStart, BookedSlots(store, dayStart))
    ensures !HasConflict(store, SlotStart(dayStart, t), SlotEnd(dayStart, t, d))
  {
    var booked := BookedSlots(store, dayStart);
    var s, e := SlotStart(dayStart, t), SlotEnd(dayStart, t, d);
    AvailableIff(t, d, dayStart, booked);
    forall i | 0 <= i < |store| && store[i].status != Cancelled
      ensures !(store[i].startTime < e && store[i].endTime > s)
    {
      var slot := BookedSlot(store[i].startTime, store[i].endTime);
      assert slot in booked;
      var k :| 0 <= k < |booked| && booked[k] == slot;
      assert !Overlaps(s, e, booked[k].start, booked[k].end);
    }
  }
}
