/** The computed values of the admin dashboard: the booking list filter, the
    status counters and the revenue, the star histogram of the reviews, the
    status actions offered on each booking with their confirmation message,
    and the replacement request built from a cancelled booking. */
module Dashboard {
  import opened Common
  import opened Text
  import opened Seqs
  import opened BookingModel
  import opened TimeUtils
  import opened AdminController

  /** A booking as the dashboard receives it; `None` is an absent field. */
  datatype DashBooking = DashBooking(
    id: string,
    firstName: string,
    lastName: string,
    email: string,
    phone: string,
    serviceName: string,
    serviceSlug: Option<string>,
    servicePrice: Option<int>,
    status: Status)

  // ------------------------------------------------------------------
  // The booking filter

  /** `statusFilter === "all" || b.status === statusFilter`. */
  predicate MatchStatus(b: DashBooking, statusFilter: string)
  {
    statusFilter == "all" || StatusName(b.status) == statusFilter
  }

  /** `${b.firstName} ${b.lastName}`. */
  function FullName(b: DashBooking): string
  {
    b.firstName + " " + b.lastName
  }

  /** An empty search passes; otherwise the lower-cased query must occur in
      the lower-cased full name, email or service name. */
  predicate MatchText(b: DashBooking, searchText: string)
  {
    searchText == ""
    || Contains(ToLower(FullName(b)), ToLower(searchText))
    || Contains(ToLower(b.email), ToLower(searchText))
    || Contains(ToLower(b.serviceName), ToLower(searchText))
  }

  /** The callback of `bookings.filter`. */
  function Passes(statusFilter: string, searchText: string): DashBooking -> bool
  {
    (b: DashBooking) => MatchStatus(b, statusFilter) && MatchText(b, searchText)
  }

  /** `filteredBookings`: the bookings that pass both tests, in list order. */
  function FilteredBookings(bookings: seq<DashBooking>, statusFilter: string, searchText: string)
    : (r: seq<DashBooking>)
    ensures forall i :: 0 <= i < |r| ==> r[i] in bookings && MatchStatus(r[i], statusFilter) && MatchText(r[i], searchText)
    ensures forall x :: multiset(r)[x] == if MatchStatus(x, statusFilter) && MatchText(x, searchText) then multiset(bookings)[x] else 0
  {
    Filter(bookings, Passes(statusFilter, searchText))
  }

  /** With the defaults, "all" and an empty search, the list is shown whole. */
  lemma DefaultsShowAll(bookings: seq<DashBooking>)
    ensures FilteredBookings(bookings, "all", "") == bookings
  {
    FilterAll(bookings, Passes("all", ""));
  }

  /** The filter keeps the list order: filtering two runs of bookings one
      after the other is filtering their concatenation. */
  lemma FilterKeepsOrder(a: seq<DashBooking>, b: seq<DashBooking>, statusFilter: string, searchText: string)
    ensures FilteredBookings(a + b, statusFilter, searchText)
         == FilteredBookings(a, statusFilter, searchText) + FilteredBookings(b, statusFilter, searchText)
  {
    FilterAppend(a, b, Passes(statusFilter, searchText));
  }

  /** A status filter other than "all" keeps exactly that status; one that
      names no status, in any other spelling, keeps nothing. */
  lemma StatusFilterExact(bookings: seq<DashBooking>, statusFilter: string, searchText: string)
    requires statusFilter != "all"
    ensures forall i :: 0 <= i < |FilteredBookings(bookings, statusFilter, searchText)| ==>
      StatusName(FilteredBookings(bookings, statusFilter, searchText)[i].status) == statusFilter
    ensures statusFilter !in StatusNames ==> FilteredBookings(bookings, statusFilter, searchText) == []
  {
    var r := FilteredBookings(bookings, statusFilter, searchText);
    if statusFilter !in StatusNames && r != [] {
      StatusNameRoundTrip(r[0].status);
    }
  }

  /** The search ignores the case of the query. */
  lemma SearchIgnoresCase(b: DashBooking, searchText: string)
    requires searchText != ""
    ensures MatchText(b, searchText) == MatchText(b, ToLower(searchText))
  {
    ToLowerIdempotent(searchText);
  }

  /** Lower-casing a concatenation lower-cases each part. */
  lemma ToLowerConcat(a: string, b: string)
    ensures ToLower(a + b) == ToLower(a) + ToLower(b)
  {
    var l := ToLower(a + b);
    assert forall i :: 0 <= i < |a| + |b| ==> l[i] == (ToLower(a) + ToLower(b))[i];
  }

  /** What occurs in the tail of a string occurs in the string. */
  lemma ContainsTail(hay: string, off: nat, needle: string)
    requires off <= |hay| && Contains(hay[off..], needle)
    ensures Contains(hay, needle)
  {
    var tail := hay[off..];
    var i :| SliceAt(needle, tail, i);
    assert hay[off + i..off + i + |needle|] == tail[i..i + |needle|];
    assert SliceAt(needle, hay, off + i);
  }

  /** A query found in the last name is found in the full name, so the
      booking passes the search. */
  lemma LastNameFound(b: DashBooking, searchText: string)
    requires Contains(ToLower(b.lastName), ToLower(searchText))
    ensures MatchText(b, searchText)
  {
    var head := b.firstName + " ";
    ToLowerConcat(head, b.lastName);
    assert FullName(b) == head + b.lastName;
    assert ToLower(FullName(b))[|head|..] == ToLower(b.lastName);
    ContainsTail(ToLower(FullName(b)), |head|, ToLower(searchText));
  }

  // ------------------------------------------------------------------
  // Counters and revenue

  /** The test `b.status === s`. */
  function HasStatus(s: Status): DashBooking -> bool
  {
    (b: DashBooking) => b.status == s
  }

  /** The number of bookings with that status: `pending`, `awaitingProof`
      and `validated` are this count for their status. */
  function StatusCount(bookings: seq<DashBooking>, s: Status): (n: nat)
    ensures n <= |bookings|
    ensures n == |Filter(bookings, HasStatus(s))|
  {
    Count(bookings, HasStatus(s))
  }

  /** Every booking is counted under exactly one status. */
  lemma {:induction false} StatusCountsPartition(bookings: seq<DashBooking>)
    ensures StatusCount(bookings, Pending) + StatusCount(bookings, PaymentProofSubmitted)
          + StatusCount(bookings, Validated) + StatusCount(bookings, Cancelled)
          + StatusCount(bookings, Completed) == |bookings|
  {
    if bookings != [] {
      StatusCountsPartition(bookings[1..]);
    }
  }

  /** `["validated", "completed"].includes(b.status)`. */
  predicate Earns(b: DashBooking)
  {
    b.status == Validated || b.status == Completed
  }

  /** `b.servicePrice || 0`. */
  function PriceOrZero(b: DashBooking): int
  {
    if b.servicePrice.Some? then b.servicePrice.value else 0
  }

  /** `totalRevenue`: the prices of the validated and completed bookings. */
  function TotalRevenue(bookings: seq<DashBooking>): int
  {
    SumWhere(bookings, Earns, PriceOrZero)
  }

  /** A further booking adds its price exactly when it is validated or
      completed. */
  lemma RevenueAppend(bookings: seq<DashBooking>, x: DashBooking)
    ensures TotalRevenue(bookings + [x]) == TotalRevenue(bookings) + if Earns(x) then PriceOrZero(x) else 0
  {
    SumWhereAppend(bookings, [x], Earns, PriceOrZero);
  }

  /** With prices that are never negative the revenue is never negative. */
  lemma RevenueNonNegative(bookings: seq<DashBooking>)
    requires forall i :: 0 <= i < |bookings| ==> PriceOrZero(bookings[i]) >= 0
    ensures TotalRevenue(bookings) >= 0
  {
    SumWhereNonNegative(bookings, Earns, PriceOrZero);
  }

  /** Cancelling one booking takes its price out of the revenue if it was
      counted, and changes nothing otherwise. */
  lemma {:induction false} CancelLowersRevenue(bookings: seq<DashBooking>, k: nat)
    requires k < |bookings|
    ensures TotalRevenue(bookings[k := bookings[k].(status := Cancelled)])
         == TotalRevenue(bookings) - if Earns(bookings[k]) then PriceOrZero(bookings[k]) else 0
  {
    var c := bookings[k := bookings[k].(status := Cancelled)];
    if k == 0 {
      assert c[1..] == bookings[1..];
    } else {
      assert c[1..] == bookings[1..][k - 1 := bookings[k].(status := Cancelled)];
      CancelLowersRevenue(bookings[1..], k - 1);
    }
  }

  // ------------------------------------------------------------------
  // The star histogram of the reviews

  /** The number of ratings equal to `star`. */
  function CountRating(ratings: seq<int>, star: int): (n: nat)
    ensures n <= |ratings|
  {
    if ratings == [] then 0
    else CountRating(ratings[..|ratings| - 1], star) + if ratings[|ratings| - 1] == star then 1 else 0
  }

  /** `byStars`: five counters from 1 to 5, each incremented once per review
      with that rating. */
  method ByStars(ratings: seq<int>) returns (byStars: map<int, nat>)
    ensures byStars.Keys == {1, 2, 3, 4, 5}
    ensures forall star :: star in byStars ==> byStars[star] == CountRating(ratings, star)
  {
    byStars := map[5 := 0, 4 := 0, 3 := 0, 2 := 0, 1 := 0];
    var i := 0;
    while i < |ratings|
      invariant 0 <= i <= |ratings|
      invariant byStars.Keys == {1, 2, 3, 4, 5}
      invariant forall star :: star in byStars ==> byStars[star] == CountRating(ratings[..i], star)
    {
      assert ratings[..i + 1][..i] == ratings[..i];
      var r := ratings[i];
      if r in byStars {
        byStars := byStars[r := byStars[r] + 1];
      }
      i := i + 1;
    }
    assert ratings[..i] == ratings;
  }

  /** When every rating lies in 1..5, the five counters add up to the number
      of reviews. */
  lemma {:induction false} StarsSumToTotal(ratings: seq<int>)
    requires forall i :: 0 <= i < |ratings| ==> 1 <= ratings[i] <= 5
    ensures CountRating(ratings, 1) + CountRating(ratings, 2) + CountRating(ratings, 3)
          + CountRating(ratings, 4) + CountRating(ratings, 5) == |ratings|
  {
    if ratings != [] {
      StarsSumToTotal(ratings[..|ratings| - 1]);
    }
  }

  // ------------------------------------------------------------------
  // The status actions

  /** A button of the booking card: a status change, the proof rejection
      (a cancellation with a reason), or the replacement dialog. */
  datatype Action = SetStatus(target: Status) | RejectProof | ProposeReplacement

  /** The status an action sends to the backend, if any. */
  function TargetOf(a: Action): Option<Status>
  {
    match a
    case SetStatus(t) => Some(t)
    case RejectProof => Some(Cancelled)
    case ProposeReplacement => None
  }

  /** The buttons shown for each status. */
  function ActionsFor(s: Status): (r: seq<Action>)
    ensures r == [ProposeReplacement] <==> s == Cancelled
    ensures s != Cancelled ==> exists i :: 0 <= i < |r| && TargetOf(r[i]) == Some(Cancelled)
    ensures forall i :: 0 <= i < |r| && TargetOf(r[i]).Some? ==> TargetOf(r[i]).value != s
  {
    var r := match s
      case Pending => [SetStatus(Cancelled)]
      case PaymentProofSubmitted => [SetStatus(Validated), RejectProof]
      case Validated => [SetStatus(Completed), SetStatus(Cancelled)]
      case Completed => [SetStatus(Cancelled)]
      case Cancelled => [ProposeReplacement];
    assert s != Cancelled ==> TargetOf(r[|r| - 1]) == Some(Cancelled);
    r
  }

  /** The position of a status along the life of a booking. */
  function Stage(s: Status): nat
  {
    match s
    case Pending => 0
    case PaymentProofSubmitted => 1
    case Validated => 2
    case Completed => 3
    case Cancelled => 4
  }

  /** Every status the dashboard sends passes the admin handler's whitelist,
      and every one moves the booking strictly forward, so a booking goes
      through at most four status changes from the dashboard. */
  lemma ActionsMoveForward(s: Status, a: Action)
    requires a in ActionsFor(s) && TargetOf(a).Some?
    ensures StatusName(TargetOf(a).value) in StatusNames
    ensures Stage(s) < Stage(TargetOf(a).value)
  {
    StatusNameRoundTrip(TargetOf(a).value);
  }

  /** Of the statuses the dashboard sends, only a cancellation can carry a
      rejection reason to the backend. */
  lemma OnlyRejectCarriesReason(s: Status, a: Action)
    requires a in ActionsFor(s) && a == RejectProof
    ensures s == PaymentProofSubmitted && TargetOf(a) == Some(Cancelled)
  {
  }

  /** The status of the first booking with that id. */
  function FindStatus(bookings: seq<DashBooking>, id: string): (r: Option<Status>)
    ensures r.None? <==> forall i :: 0 <= i < |bookings| ==> bookings[i].id != id
    ensures r.Some? ==> exists k :: 0 <= k < |bookings| && bookings[k].id == id && bookings[k].status == r.value
                                   && forall j :: 0 <= j < k ==> bookings[j].id != id
  {
    if bookings == [] then None
    else if bookings[0].id == id then Some(bookings[0].status)
    else
      var r := FindStatus(bookings[1..], id);
      if r.Some? then
        var k :| 0 <= k < |bookings[1..]| && bookings[1..][k].id == id && bookings[1..][k].status == r.value
                 && forall j :: 0 <= j < k ==> bookings[1..][j].id != id;
        assert bookings[k + 1].id == id && bookings[k + 1].status == r.value;
        r
      else r
  }

  /** The two warnings share their opening words. */
  const WarningMark: string := "⚠️ ANNULER une réservation "
  const ValidatedWarning: string := WarningMark + "DÉJÀ VALIDÉE ?" + "\nCette action est irréversible."
  const CompletedWarning: string := WarningMark + "TERMINÉE ?" + "\nAction très exceptionnelle – confirmez-vous ?"

  /** The three kinds of message are told apart by their first letters. */
  lemma WarningsDistinct()
    ensures ValidatedWarning[0] != 'C' && CompletedWarning[0] != 'C'
    ensures ValidatedWarning != CompletedWarning
  {
    assert ValidatedWarning[0] == WarningMark[0] == '⚠';
    assert CompletedWarning[0] == WarningMark[0];
    assert ValidatedWarning[|WarningMark|] == "DÉJÀ VALIDÉE ?"[0] == 'D';
    assert CompletedWarning[|WarningMark|] == "TERMINÉE ?"[0] == 'T';
  }

  /** The generic question, naming the new status. */
  function GenericMessage(newStatus: Status): (r: string)
    ensures |r| > 0 && r[0] == 'C'
  {
    "Confirmer le passage au statut \"" + StatusName(newStatus) + "\" ?"
  }

  /** The generic messages of two statuses differ. */
  lemma GenericMessageInjective(a: Status, b: Status)
    requires GenericMessage(a) == GenericMessage(b)
    ensures a == b
  {
    var prefix := "Confirmer le passage au statut \"";
    assert |StatusName(a)| == |StatusName(b)|;
    assert GenericMessage(a)[|prefix|..|prefix| + |StatusName(a)|] == StatusName(a);
    assert GenericMessage(b)[|prefix|..|prefix| + |StatusName(b)|] == StatusName(b);
    StatusNameInjective(a, b);
  }

  /** The question asked before a status change: a cancellation of a
      validated or of a completed booking has its own warning; every other
      change, and a booking not found, gets the generic one. */
  function ConfirmMessage(bookings: seq<DashBooking>, id: string, newStatus: Status): (r: string)
    ensures r == ValidatedWarning <==> newStatus == Cancelled && FindStatus(bookings, id) == Some(Validated)
    ensures r == CompletedWarning <==> newStatus == Cancelled && FindStatus(bookings, id) == Some(Completed)
    ensures r != ValidatedWarning && r != CompletedWarning ==> r == GenericMessage(newStatus)
  {
    var current := FindStatus(bookings, id);
    WarningsDistinct();
    if newStatus == Cancelled && current == Some(Validated) then ValidatedWarning
    else if newStatus == Cancelled && current == Some(Completed) then CompletedWarning
    else GenericMessage(newStatus)
  }

  // ------------------------------------------------------------------
  // The replacement request

  const DefaultAdminNote: string := "Remplacement suite annulation"

  /** `adminNote.trim() || "Remplacement suite annulation"`. */
  function NoteOf(adminNote: string): (r: string)
    ensures r != "" && Trimmed(r)
    ensures Trim(adminNote) != "" ==> r == Trim(adminNote)
  {
    if Trim(adminNote) != "" then Trim(adminNote)
    else
      assert DefaultAdminNote[0] == 'R' && DefaultAdminNote[|DefaultAdminNote| - 1] == 'n';
      DefaultAdminNote
  }

  /** `${date}T${selectedSlot}:00`. */
  function LocalStartTime(date: string, slot: string): (r: string)
    ensures r + "Z" == UtcIsoString(date, slot)
  {
    date + "T" + slot + ":00"
  }

  /** `createReplacement`: nothing is sent without a selected slot or a
      service slug; otherwise the body names the cancelled booking, its
      service and client, the chosen start and the note. */
  function BuildReplacementRequest(booking: DashBooking, date: string, selectedSlot: Option<string>,
                                   adminNote: string): (r: Option<ReplacementRequest>)
    ensures r.None? <==> !Truthy(selectedSlot) || !Truthy(booking.serviceSlug)
    ensures r.Some? ==>
      ReplacementFieldsPresent(r.value) && r.value.originalBookingId == Some(booking.id)
      && r.value.serviceSlug == booking.serviceSlug.value
      && r.value.startTime == Some(LocalStartTime(date, selectedSlot.value))
      && r.value.firstName == Some(booking.firstName) && r.value.lastName == Some(booking.lastName)
      && r.value.email == Some(booking.email) && r.value.phone == Some(booking.phone)
      && r.value.notes == Some(NoteOf(adminNote))
  {
    if !Truthy(selectedSlot) || !Truthy(booking.serviceSlug) then None
    else
      Some(ReplacementRequest(Some(booking.id), booking.serviceSlug.value,
                              Some(LocalStartTime(date, selectedSlot.value)),
                              Some(booking.firstName), Some(booking.lastName),
                              Some(booking.email), Some(booking.phone), Some(NoteOf(adminNote))))
  }

  /** The note of a dashboard request is never empty, so the backend keeps
      it and appends the reference to the cancelled booking in brackets. */
  lemma ReplacementNotesNameOriginal(booking: DashBooking, date: string, selectedSlot: Option<string>,
                                     adminNote: string)
    requires BuildReplacementRequest(booking, date, selectedSlot, adminNote).Some?
    ensures var req := BuildReplacementRequest(booking, date, selectedSlot, adminNote).value;
      var notes := ReplacementNotes(req.notes, req.originalBookingId);
      var note := NoteOf(adminNote);
      notes[..|note|] == note && notes[|note| + 2..|notes| - 1] == ReplacementNote + booking.id
  {
  }

  /** For dates of the one width `YYYY-MM-DD`, the start string determines
      the date and the slot it was built from. */
  lemma LocalStartTimeInjective(d1: string, t1: string, d2: string, t2: string)
    requires |d1| == |d2| && LocalStartTime(d1, t1) == LocalStartTime(d2, t2)
    ensures d1 == d2 && t1 == t2
  {
    UtcIsoStringInjective(d1, t1, d2, t2);
  }
}
