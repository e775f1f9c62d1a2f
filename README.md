# Lash-studio booking core, in Dafny

This project models the booking core of a lash-extension studio's website and proves what it promises. The site has two halves.

**The Express/Mongoose backend.** Each handler is a function from the collection(s) it touches and the request to the collection after the call and the response (`Common.Handled`).
- A response is either a value or one of the HTTP errors 400, 401, 404, 409 and 500.
- A Mongo collection is a sequence of records in insertion order.
- `findOne` returns the first match and `find` the matches in stored order.
- `sort`, `skip` and `limit` are the functions of `Cursor`.
- The handlers modelled are:
  - `getAvailability`, the free start times of a service on a day (`AvailabilityController`). It is a method with a loop, proved against a recursive specification.
  - the conflict query `hasConflict` and the handlers' own conflict checks (`ConflictUtils`). Each check site uses its own set of blocking statuses.
  - the public booking handlers (`BookingController`) and the admin handlers (`AdminController`, `AdminExtraController`).
  - the catalogue (`ServiceController`), reviews (`ReviewController`) and the contact form (`ContactController`).
  - the schemas that give the records, enums, defaults, setters and unique indexes (`BookingModel`, `ServiceModel`, `BlockedAvailabilityModel`).
- Blocked availabilities are never consulted by the backend's slot computation, and the model does not consult them either.

**The browser engine `src/lib/storage.ts`.** It is an earlier, self-contained variant.
- `Storage.LocalStore` is a class whose four fields are the four localStorage keys. Its methods update them in place.
- `getAvailableTimeSlots` filters the fixed slot table of `Constants`.

**Small pieces of page logic**, each in its own module:
- the admin dashboard's filter, counters, revenue, star histogram, action table, confirmation message and replacement request;
- the booking wizard's step machine and three-week calendar;
- the FAQ's open list;
- the reviews sort;
- the gallery filter and lookups;
- the home page slideshows, each a `Carousel.Slideshow` object.

Instants are integers of milliseconds and times of day are integers of minutes. JavaScript's date parser, `getDay`, the clock and random ids are parameters.

## Model

| member | source | states |
|---|---|---|
| TimeUtils.AddMinutesZero | backend/src/utils/time.utils.ts:8-10 | shifting an instant by zero minutes leaves it unchanged |
| TimeUtils.AddMinutesCompose | backend/src/utils/time.utils.ts:8-10 | two successive shifts equal one shift by their sum |
| TimeUtils.AddMinutesIncreasing | backend/src/utils/time.utils.ts:8-10 | a larger shift gives a strictly later instant; a positive shift moves forward |
| TimeUtils.UtcIsoString | backend/src/utils/time.utils.ts:1-6 | the timestamp string is the date, `T`, the clock time and `:00Z`, each at its fixed position |
| TimeUtils.UtcIsoStringInjective | backend/src/utils/time.utils.ts:1-6 | for dates of one width the timestamp string determines both the date and the time |
| ConflictUtils.OverlapsSymmetric | backend/src/utils/conflict.utils.ts:7-11 | the overlap test `start < otherEnd && end > otherStart` is symmetric |
| ConflictUtils.TouchingNeverOverlaps | backend/src/utils/conflict.utils.ts:9-10 | back-to-back intervals (one ends where the other starts) never overlap |
| ConflictUtils.FindConflict | backend/src/utils/conflict.utils.ts:7-11 | `findOne` returns a match exactly when some stored booking has a blocking status and an overlapping interval, and it returns the first such booking |
| ConflictUtils.NoConflictDisjoint | backend/src/utils/conflict.utils.ts:7-11 | when the query finds nothing, every booking in a blocking status is disjoint from the requested interval |
| ConflictUtils.FindConflictSkipsAppended | backend/src/utils/conflict.utils.ts:7-11 | appending a booking whose status is not blocking does not change what the query finds |
| ConflictUtils.NonCancelledIsNotCancelled | backend/src/utils/conflict.utils.ts:8 | `$ne: "cancelled"` over the schema's statuses selects exactly the non-cancelled bookings |
| ConflictUtils.HasConflict | backend/src/utils/conflict.utils.ts:3-14 | true exactly when some non-cancelled booking overlaps `[start, end)` |
| ConflictUtils.CancelledNeverConflicts | backend/src/utils/conflict.utils.ts:8 | inserting a cancelled booking anywhere in the store never changes the answer |
| ConflictUtils.TouchingNeverConflicts | backend/src/utils/conflict.utils.ts:9-10 | a request that only touches the stored bookings is free |
| ConflictUtils.ExactIntervalConflicts | backend/src/utils/conflict.utils.ts:7-13 | a live booking with exactly the requested, non-empty interval is a conflict |
| ConflictUtils.GuardedInsertKeepsNoOverlap | backend/src/utils/conflict.utils.ts:3-14 | inserting a booking only after `hasConflict` said no keeps the live bookings pairwise disjoint |
| BookingModel.ParseStatus | backend/src/models/Booking.model.ts:30-34 | the enum validator accepts exactly the five status strings and parses each back to its status |
| BookingModel.StatusNameRoundTrip | backend/src/models/Booking.model.ts:32 | every status is stored as one of the enum strings, and that string parses back to the status |
| BookingModel.StatusNameInjective | backend/src/models/Booking.model.ts:32 | distinct statuses are stored as distinct strings |
| BookingModel.ApplySetters | backend/src/models/Booking.model.ts:23-27 | the setters trim the names, phone and notes and trim and lower-case the e-mail; every other field is kept |
| BookingModel.ApplySettersNormalizes | backend/src/models/Booking.model.ts:23-27 | after the setters every string field is trimmed and the e-mail is lower case |
| BookingModel.ApplySettersIdempotent | backend/src/models/Booking.model.ts:23-27 | running the setters twice gives the same record as running them once |
| BookingModel.Create | backend/src/models/Booking.model.ts:19-39 | a save succeeds exactly when the required strings are non-empty after the setters and the `_id` is new; the stored record is normalised and appended, and ids stay unique; otherwise nothing changes and the handler answers 500 |
| BookingModel.AppendKeepsIdsUnique | backend/src/models/Booking.model.ts:19-39 | appending a record with a new `_id` keeps the primary key unique |
| BookingModel.FindById | backend/src/controllers/booking.controller.ts:200 | `findById` finds a record exactly when one has that id, and returns the first one |
| BookingModel.DeleteById | backend/src/controllers/booking.controller.ts:317-342 | the delete answers 404 exactly when no record has the id; otherwise it returns that record, and the store loses exactly the records with that id and stays id-unique |
| BookingModel.ReplaceAt | backend/src/controllers/booking.controller.ts:241-245 | an update replaces one matched record, keeps every other record and keeps ids unique |
| ServiceModel.FindBySlug | backend/src/controllers/service.controller.ts:35-68 | `findOne({ slug })` finds a service exactly when one has that slug |
| ServiceModel.FindActive | backend/src/controllers/booking.controller.ts:31-34 | `findOne({ slug, active: true })` finds a service exactly when an active one has that slug |
| ServiceModel.FindActiveUnique | backend/src/models/Service.model.ts:14-19 | with unique slugs the active lookup finds the one service with that slug exactly when it is active |
| ServiceModel.Create | backend/src/models/Service.model.ts:12-41 | a save succeeds exactly when the trimmed slug is non-empty and unused and the name is present; it stores the service with its slug trimmed, and slugs stay unique |
| BlockedAvailabilityModel.Create | backend/src/models/BlockedAvailability.model.ts:12-29 | a save succeeds exactly when the creator is set, the `_id` is new and the block is not a second all-day block on its date; it stores the block with its reason trimmed; all-day dates and ids stay unique |
| BlockedAvailabilityModel.PartialBlocksMayRepeat | backend/src/models/BlockedAvailability.model.ts:26-29 | the unique index is partial: two partial blocks on one date are both accepted |
| BookingController.ValidateCreate | backend/src/controllers/booking.controller.ts:21-61 | the guard chain: a missing required field, an invalid date or an end not after the start is a 400; an unknown or inactive service is a 404; on success the service is the active one with that slug |
| BookingController.CreateBookingWith | backend/src/controllers/booking.controller.ts:8-124 | after the guards, a conflict answers 409 with the conflicting booking's interval and stores nothing; otherwise the trimmed, pending draft is created and appended |
| BookingController.CreateBooking | backend/src/controllers/booking.controller.ts:63-93 | a created booking is pending, and no stored pending booking overlaps it |
| BookingController.PendingDisjoint | backend/src/controllers/booking.controller.ts:64-68 | when the written conflict query finds nothing, every pending booking is disjoint from the request |
| BookingController.CreateBookingStores | backend/src/controllers/booking.controller.ts:82-93 | a successful create appends one pending booking with the new id, the requested service and interval, trimmed names and phone, the normalised e-mail and the trimmed notes, or the empty string without any |
| BookingController.CreateBookingOverlapsValidated | backend/src/controllers/booking.controller.ts:64-68 | the written query accepts a request with the same interval as a validated booking, and the store then holds two overlapping live bookings |
| BookingController.LiveTwinOverlaps | backend/src/controllers/booking.controller.ts:64-68 | a validated booking alone is overlap-free; with a pending twin it is not |
| BookingController.SingletonHasId | backend/src/models/Booking.model.ts:19-39 | a one-record store holds an id exactly when that record has it |
| BookingController.DraftAccepted | backend/src/controllers/booking.controller.ts:82-93 | a request whose names, e-mail and phone are not blank passes the schema's `required` validators |
| BookingController.CreateBookingCorrected | backend/src/controllers/booking.controller.ts:63-79 | with the conflict set of `hasConflict`, a created booking overlaps no live booking, and the store stays overlap-free |
| BookingController.CorrectedAcceptsLess | backend/src/controllers/booking.controller.ts:63-79 | every request the corrected guard accepts, the written guard accepts with the same result |
| BookingController.EffectiveDuration | backend/src/controllers/booking.controller.ts:368 | the service duration with 150 as fallback: a non-zero duration is kept and the result is never zero |
| BookingController.SubmitBookingWithProof | backend/src/controllers/booking.controller.ts:344-403 | no upload is a 400, an unknown or inactive service a 404; a 500 exactly when a field is missing, the date is bad, a trimmed name or phone is blank (`ProofStorable`) or the id is taken; otherwise it appends a `payment_proof_submitted` booking with the 25 deposit, the proof path, the service's slug and name, the trimmed names and phone, the normalised e-mail and trimmed notes, and an end that is the service duration after the start |
| BookingController.SubmitIgnoresExistingBookings | backend/src/controllers/booking.controller.ts:344-403 | no conflict check is made: success depends on the stored bookings only through whether the new id is fresh |
| BookingController.GetBookingById | backend/src/controllers/booking.controller.ts:196-221 | found exactly when a booking has the id; otherwise a 404 |
| BookingController.UpdateBookingStatus | backend/src/controllers/booking.controller.ts:226-267 | a status outside the whitelist is a 400; "confirmed" passes the whitelist but fails the schema enum (500); an unknown id is a 404; otherwise only that booking's status changes |
| BookingController.CancelBooking | backend/src/controllers/booking.controller.ts:272-312 | an unknown id is a 404; a live booking starting within 24 hours is a 400 and unchanged; otherwise only its status becomes cancelled |
| BookingController.CancelIdempotent | backend/src/controllers/booking.controller.ts:285-297 | cancelling again succeeds at any time and changes nothing more |
| BookingController.FindByIdSameIds | backend/src/controllers/booking.controller.ts:276 | the lookup depends only on the ids, so changing a status keeps every booking findable at the same place |
| BookingController.CancelFreesInterval | backend/src/controllers/booking.controller.ts:296-297 | after the cancel, a store with no other live booking has no conflict on any interval |
| BookingController.Select | backend/src/controllers/booking.controller.ts:139-161 | the list query returns exactly the matching bookings, each as often as it is stored |
| BookingController.WindowMembers | backend/src/controllers/booking.controller.ts:166-169 | every entry of a page is a stored booking that passes the filter |
| BookingController.ListBookings | backend/src/controllers/booking.controller.ts:129-191 | an invalid date or a negative skip is a 500; otherwise the page is sorted newest first, holds only matching stored bookings, is the right slice of the sorted matches, respects the limit, and reports the match count and the page count |
| BookingController.GetAllBookings | backend/src/controllers/booking.controller.ts:135-136 | the default limit is 20: a query without page, limit or date answers at most 20 bookings |
| AvailabilityController.LunchTestIsOverlap | backend/src/controllers/availability.controller.ts:69-73 | for a service of positive length the three-way lunch test is exactly "the slot overlaps 12:30-13:00" |
| AvailabilityController.BookedSlots | backend/src/controllers/availability.controller.ts:42-54 | the booked intervals are exactly those of the non-cancelled bookings that start between local midnight and 23:59:59.999, in store order (`BookedSlotsAppend`) |
| AvailabilityController.BookedSlotsAppend | backend/src/controllers/availability.controller.ts:42-54 | the slots of a concatenated store are the first part's slots followed by the second's, so they keep the store's order |
| AvailabilityController.OtherDayBookingIgnored | backend/src/controllers/availability.controller.ts:43-46 | a booking starting on another day is never seen, even if its interval reaches into the requested day |
| AvailabilityController.AppendIgnored | backend/src/controllers/availability.controller.ts:42-48 | a booking the query does not select leaves the booked intervals unchanged |
| AvailabilityController.CancelledIgnored | backend/src/controllers/availability.controller.ts:47 | a cancelled booking never blocks a slot |
| AvailabilityController.AnyOverlap | backend/src/controllers/availability.controller.ts:86-88 | `some` is true exactly when one booked interval overlaps the slot |
| AvailabilityController.AvailableFrom | backend/src/controllers/availability.controller.ts:59-93 | the minutes emitted from a candidate on are on its 30-minute grid, strictly ascending, and end by closing time |
| AvailabilityController.MemberFrom | backend/src/controllers/availability.controller.ts:59-93 | a minute is emitted from a candidate on exactly when it is on that grid, ends by 21:00 and passes both filters |
| AvailabilityController.AvailableIff | backend/src/controllers/availability.controller.ts:59-93 | a start time is offered exactly when it is on the grid from 09:00, ends by 21:00, passes the lunch test and overlaps no booked interval |
| AvailabilityController.LunchNeverOffered | backend/src/controllers/availability.controller.ts:75-77 | a slot hit by the lunch test is never offered |
| AvailabilityController.FormatAll | backend/src/controllers/availability.controller.ts:64-66 | each emitted minute becomes its zero-padded `HH:MM` string |
| AvailabilityController.SlotsWellFormed | backend/src/controllers/availability.controller.ts:64-66 | every answered slot is a well-formed `HH:MM`, and the list has no duplicates |
| AvailabilityController.ComputeSlots | backend/src/controllers/availability.controller.ts:56-93 | the loop produces exactly the formatted minutes that pass both filters |
| AvailabilityController.GetAvailability | backend/src/controllers/availability.controller.ts:11-112 | a missing date or service is a 400, an unknown or inactive service a 404, an invalid date a 500, and no other error; it succeeds exactly when none of these holds, and then gives the free slots of that service on that day with the service's slug, name and duration |
| AvailabilityController.EmptyAfternoon | backend/src/controllers/availability.controller.ts:59-93 | after the lunch break, on an empty day, every candidate is offered |
| AvailabilityController.LunchStep | backend/src/controllers/availability.controller.ts:75-77 | a candidate hit by the lunch test is skipped |
| AvailabilityController.FreeStep | backend/src/controllers/availability.controller.ts:90-92 | on an empty day a candidate clear of lunch is offered |
| AvailabilityController.EmptyDay150 | backend/src/controllers/availability.controller.ts:5-9 | on an empty day a 150-minute service is offered 09:00, 09:30, 10:00 and every half hour from 13:00 to 18:30 |
| AvailabilityController.MorningBookingScenario | backend/src/controllers/availability.controller.ts:69-92 | with a booking from 10:00 to 12:30, a 60-minute service is offered 09:00 and 13:00, not 09:30 to 12:00 (overlap) and not 12:30 (lunch) |
| AvailabilityController.OfferedSlotHasNoConflict | backend/src/controllers/availability.controller.ts:86-88 | when every live booking starts on that day, an offered slot passes `hasConflict` |
| AdminController.FindAdmin | backend/src/controllers/admin.controller.ts:198 | finds an admin exactly when one has that id |
| AdminController.RoleOf | backend/src/controllers/admin.controller.ts:140 | a truthy role is kept, anything else gives `admin` |
| AdminController.CreateAdmin | backend/src/controllers/admin.controller.ts:112-162 | a missing e-mail, password or name is a 400; an e-mail already used (as given) a 409; otherwise an active admin with the normalised e-mail, trimmed name, a password of at least 6 characters and a role from the enum is appended, and e-mails stay unique |
| AdminController.CreateAdminRoles | backend/src/controllers/admin.controller.ts:136-142 | without a role the new admin is a plain `admin`; a role outside the enum is refused |
| AdminController.Overwrite | backend/src/controllers/admin.controller.ts:207-211 | the id and password are never touched; only truthy name, e-mail and role and a given `active` are written |
| AdminController.OverwriteNothing | backend/src/controllers/admin.controller.ts:207-211 | an empty update leaves the admin unchanged |
| AdminController.OverwriteIdempotent | backend/src/controllers/admin.controller.ts:207-211 | applying an update twice is applying it once |
| AdminController.DeactivateOnly | backend/src/controllers/admin.controller.ts:211 | `active: false` deactivates the admin and changes nothing else |
| AdminController.UpdateAdmin | backend/src/controllers/admin.controller.ts:193-234 | an unknown id is a 404; an updated admin that fails the schema or takes another admin's e-mail is a 500, and there is no other error; otherwise only that admin is replaced by the overwritten one, and e-mails stay unique |
| AdminController.ReplaceKeepsEmailsUnique | backend/src/models/Admin.model.ts:17-23 | saving an admin whose e-mail no other admin has keeps e-mails unique |
| AdminController.ChangePassword | backend/src/controllers/admin.controller.ts:237-290 | a missing password or a new one under 6 characters is a 400, an unknown caller a 404, a wrong current password a 401; otherwise only the caller's password changes |
| AdminController.ChangePasswordKeepsEmails | backend/src/controllers/admin.controller.ts:274-276 | changing a password keeps the e-mails unique |
| AdminController.DeleteAdmin | backend/src/controllers/admin.controller.ts:293-326 | deleting oneself is a 400, an unknown id a 404; otherwise that admin is removed and no other |
| AdminController.NoSelfDelete | backend/src/controllers/admin.controller.ts:297-303 | an admin can never delete their own account, whatever the store holds |
| AdminController.PriceOf | backend/src/controllers/admin.controller.ts:375-383 | the price of the first service with that slug, active or not, and 0 without one |
| AdminController.PriceOfUnique | backend/src/controllers/admin.controller.ts:375-383 | with unique slugs the price is that of the one service with the slug |
| AdminController.WithPrices | backend/src/controllers/admin.controller.ts:373-393 | each listed booking, in order, is paired with its service's price |
| AdminController.GetAllBookingsAdmin | backend/src/controllers/admin.controller.ts:328-413 | the booking list query with a default page size of 100, each booking paired with its service's price; fails exactly when the list query fails |
| AdminController.GetBookingByIdAdmin | backend/src/controllers/admin.controller.ts:416-457 | a 404 exactly for an unknown id; otherwise the booking with its service's price |
| AdminController.BuildUpdateData | backend/src/controllers/admin.controller.ts:474-480 | the update carries the status, plus the reason and the time exactly when the status is "cancelled" and a reason is given |
| AdminController.StrictApply | backend/src/models/Booking.model.ts:19-39 | under strict mode only the status reaches the stored booking; every other field is kept |
| AdminController.StrictApplyDropsExtras | backend/src/controllers/admin.controller.ts:476-480 | the rejection reason and cancellation time never change the stored booking |
| AdminController.UpdateBookingStatusAdmin | backend/src/controllers/admin.controller.ts:460-504 | a status outside the schema's five is a 400, an unknown id a 404, and there is no other error; otherwise only that booking's status becomes the one asked for |
| AdminController.AnyTransitionAllowed | backend/src/controllers/admin.controller.ts:465-466 | any status can move to any of the five statuses |
| AdminController.ReplacementNotes | backend/src/controllers/admin.controller.ts:615 | the notes are the reference to the original booking, preceded by the original notes and a newline when there are notes |
| AdminController.ReplacementSlot | backend/src/controllers/admin.controller.ts:591-606 | an unknown or inactive service is a 404; an absent or invalid start a 500; an overlap with a pending, validated or proof-submitted booking a 409; otherwise the slot lasts the service's duration and is free |
| AdminController.CreateReplacementBooking | backend/src/controllers/admin.controller.ts:582-639 | a guard's refusal is passed through; a 500 exactly when the start is absent or invalid, a name, e-mail or phone is missing, a trimmed one is blank (`ReplacementStorable`) or the id is taken; otherwise a validated booking of the service and slot is appended, with the normalised e-mail, trimmed names and phone, the replacement notes and no payment |
| AdminController.ReplacementIsFree | backend/src/controllers/admin.controller.ts:598-606 | a stored replacement overlaps no pending, validated or proof-submitted booking |
| AdminController.ReplacementSlotSkipsAppended | backend/src/controllers/admin.controller.ts:601 | a booking with a status the guard does not block on leaves the guard's answer unchanged |
| AdminController.CreateSameAnswer | backend/src/models/Booking.model.ts:19-39 | the create answers the same on two stores that agree on whether the new id is taken |
| AdminController.ReplacementIgnoresCompletedAndCancelled | backend/src/controllers/admin.controller.ts:601 | a completed or cancelled booking never blocks a replacement |
| AdminController.SelectContacts | backend/src/controllers/admin.controller.ts:537-538 | the contact query returns exactly the messages with the status asked for, each as often as stored |
| AdminController.GetAllContactMessages | backend/src/controllers/admin.controller.ts:533-562 | fails exactly on a negative skip; otherwise newest first, only matching stored messages, with the total match count |
| AdminController.FindContact | backend/src/controllers/admin.controller.ts:568 | finds a message exactly when one has that id |
| AdminController.MarkContactAsRead | backend/src/controllers/admin.controller.ts:565-580 | an unknown id is a 404; otherwise only that message's status becomes `read` |
| AdminController.MarkReadIdempotent | backend/src/controllers/admin.controller.ts:565-580 | marking a message read twice is marking it once |
| AdminController.FindContactSameIds | backend/src/controllers/admin.controller.ts:568 | the lookup depends only on the ids, so a status change keeps every message at its place |
| AdminExtraController.GetBlockedAvailabilities | backend/src/controllers/admin-extra.controller.ts:8-22 | every block exactly once, earliest date first |
| AdminExtraController.FindBlock | backend/src/controllers/admin-extra.controller.ts:28 | finds a block exactly when one has that id |
| AdminExtraController.DeleteBlockedAvailability | backend/src/controllers/admin-extra.controller.ts:24-41 | an unknown id is a 404; otherwise exactly that block is removed, the others keep their order, and all-day dates stay unique |
| AdminExtraController.CreateBlockedAvailability | backend/src/controllers/admin-extra.controller.ts:44-90 | a missing or invalid date is a 400, no authenticated admin a 401, a block with the same date and `allDay` a 409; otherwise the block is appended with the admin as creator, its reason trimmed, and no clock bounds when it covers the whole day |
| AdminExtraController.PartialRepeatRefused | backend/src/controllers/admin-extra.controller.ts:62-69 | the handler's duplicate check is stricter than the index: a second partial block on a date is refused with a 409 |
| AdminExtraController.GetAdminReviews | backend/src/controllers/admin-extra.controller.ts:93-107 | the reviews of every status, newest `createdAt` first, at most 50: the first ones of the sorted store |
| AdminExtraController.FindReview | backend/src/controllers/admin-extra.controller.ts:113 | finds a review exactly when one has that id |
| AdminExtraController.SetReviewStatus | backend/src/controllers/admin-extra.controller.ts:113-121 | an unknown id is a 404; otherwise only that review's status is written, as given, with no validation |
| AdminExtraController.PublishReview | backend/src/controllers/admin-extra.controller.ts:109-132 | the published review's status is "published", which is outside the schema's enum |
| AdminExtraController.RejectReview | backend/src/controllers/admin-extra.controller.ts:134-157 | the rejected review's status is "rejected", a status of the enum |
| AdminExtraController.PublishedNeverShown | backend/src/controllers/admin-extra.controller.ts:113-117 | a review published as written never appears among the reviews the public side shows |
| AdminExtraController.PublishReviewCorrected | backend/src/controllers/admin-extra.controller.ts:113-117 | the corrected publish writes "approved", the status the public query reads |
| AdminExtraController.CorrectedPublishIsShown | backend/src/controllers/review.controller.ts:7-14 | a review published with the corrected status counts as approved, and is shown when at most ten are approved |
| ReviewController.SubmitReview | backend/src/controllers/review.controller.ts:22-51 | a missing field (a rating of 0 included) or a rating outside 1..5 is a 400; otherwise a pending review with its strings trimmed, no helpful votes and today's date is appended; a blank trimmed field or a taken id is a 500 |
| ReviewController.RatingBounds | backend/src/controllers/review.controller.ts:26-32 | a rating of 0 or below, or above 5, is a 400 and stores nothing |
| ReviewController.GetApprovedReviews | backend/src/controllers/review.controller.ts:5-19 | the total counts every approved review; the list holds only approved stored reviews, newest first, at most ten, the first ones of the sorted approved reviews |
| ReviewController.UnapprovedNeverShown | backend/src/controllers/review.controller.ts:7 | a review with any other status is never shown and never counted |
| ContactController.ContactStatusName | backend/src/models/ContactMessage.model.ts:21-25 | every message status is stored as one of `new`, `read`, `responded` |
| ContactController.ContactStatusNameInjective | backend/src/models/ContactMessage.model.ts:21-25 | distinct statuses are stored as distinct strings |
| ContactController.ContactSetters | backend/src/models/ContactMessage.model.ts:16-20 | the schema trims every string field and lower-cases the e-mail; the id, status and date are kept |
| ContactController.PhoneOf | backend/src/controllers/contact.controller.ts:20 | an absent phone becomes the empty string, and the result is always trimmed |
| ContactController.SubmitContact | backend/src/controllers/contact.controller.ts:5-38 | a missing required field is a 400; otherwise a `new` message with its strings trimmed, the e-mail lower-cased and the phone defaulted is appended; a blank trimmed field or a taken id is a 500 |
| ContactController.SubmitContactNormalized | backend/src/controllers/contact.controller.ts:17-24 | a stored message is unchanged by the schema's setters |
| ContactController.BlankNameIsServerError | backend/src/controllers/contact.controller.ts:10-15 | a name of spaces passes the truthiness check and is refused by the schema: a 500, not a 400 |
| ServiceController.GetAllServices | backend/src/controllers/service.controller.ts:5-32 | with `includeInactive=true` every service, otherwise exactly the active ones; oldest `createdAt` first |
| ServiceController.InactiveHiddenByDefault | backend/src/controllers/service.controller.ts:9 | any flag value other than the string "true" hides an inactive service |
| ServiceController.GetServiceBySlug | backend/src/controllers/service.controller.ts:35-67 | found, active or not, exactly when a service has that slug; a 404 otherwise |
| ServiceController.InactiveStillFound | backend/src/controllers/service.controller.ts:39 | an inactive service is still found by slug, though the booking lookups no longer find it |
| ServiceController.CreateService | backend/src/controllers/service.controller.ts:70-114 | a missing field (a price or duration of 0 included) is a 400, a stored slug a 409; otherwise the service is appended with its slug trimmed, active unless the request says otherwise, and slugs stay unique |
| ServiceController.ZeroPriceRejected | backend/src/controllers/service.controller.ts:75 | a free service, priced 0, cannot be created |
| ServiceController.WithoutSlug | backend/src/controllers/service.controller.ts:123 | `delete updates.slug` removes the slug and nothing else |
| ServiceController.ApplyServiceUpdate | backend/src/controllers/service.controller.ts:125-129 | each field the update names takes its new value, the others and `createdAt` are kept |
| ServiceController.UpdateService | backend/src/controllers/service.controller.ts:117-151 | an empty name fails validation (500), an unknown slug is a 404; otherwise only that service is updated and every slug stays as it was |
| ServiceController.SlugFrozen | backend/src/controllers/service.controller.ts:122-123 | a new slug in the body is ignored |
| ServiceController.DeleteService | backend/src/controllers/service.controller.ts:154-185 | an unknown slug is a 404; otherwise the service is kept with `active` cleared, and nothing else changes |
| ServiceController.SoftDeleteKeepsRecord | backend/src/controllers/service.controller.ts:158-163 | after the soft delete the service is still found by slug but no longer offered for booking |
| Constants.TimeSlotsTable | src/lib/constants.ts:98-103 | the table holds 22 well-formed clock strings; entry `i` names 08:00 plus `i` half hours |
| Constants.TimeSlotIsFormatted | src/lib/constants.ts:98-103 | each entry is the string the backend's slot formatter prints for the same minute of day |
| Constants.TimeSlotsAscending | src/lib/constants.ts:98-103 | from "08:00" to "18:30", strictly ascending, 30 minutes apart |
| Constants.SlotsWithinHours | src/lib/constants.ts:12-17 | every slot starts after opening, and a 2h30 service started in it ends by closing; the last slot ends exactly at closing |
| Constants.ServiceIdsDistinct | src/lib/constants.ts:31-95 | the catalogue has seven services and no two share an id |
| Storage.MergeLaws | src/lib/storage.ts:91 | the spread `{ ...b, ...u }`: an empty patch changes nothing, applying a patch twice is the same as once, and a given status or a missing id show up as expected |
| Storage.FindIndex | src/lib/storage.ts:88 | `findIndex`: found exactly when some booking has the id; then the first such index |
| Storage.WithoutId | src/lib/storage.ts:98-99 | removes every record with the id and keeps the others with their counts; the length is unchanged exactly when the id was absent |
| Storage.BookingsOn | src/lib/storage.ts:105-107 | exactly the stored bookings of that date that are not cancelled, each as often as stored |
| Storage.BookingsOnAppend | src/lib/storage.ts:105-107 | the day's bookings of a longer list are those of the first part followed by those of the second, so stored order is kept |
| Storage.AddBlocked | src/lib/storage.ts:123-129 | afterwards the date is blocked; an already blocked date leaves the list as it was, a new one is appended; no other date changes, and a list without duplicates stays so |
| Storage.RemoveBlocked | src/lib/storage.ts:131-134 | afterwards the date is not blocked, no other date changes, and the other entries keep their counts |
| Storage.BlockedLaws | src/lib/storage.ts:123-134 | blocking twice is blocking once, whatever the second reason, and removing after blocking unblocks |
| Storage.FindDay | src/lib/storage.ts:174 | `find` on the day of week: a found entry is stored and has that day; none found means no entry has it |
| Storage.FindDayAt | src/lib/storage.ts:174 | `find` returns the first entry with that day of week |
| Storage.DefaultDay | src/lib/storage.ts:41-49 | the default entry of a weekday is for that weekday and enabled, open 08:00 to 21:00 |
| Storage.DefaultWeekFrom | src/lib/storage.ts:41-49 | the default entries from weekday `k` on: one per weekday, in weekday order |
| Storage.FindInWeekFrom | src/lib/storage.ts:174 | `find` over the default entries reaches the entry of the weekday asked for |
| Storage.FindDefaultDay | src/lib/storage.ts:41-49 | every day of the week of the defaults is open 08:00 to 21:00 |
| Storage.TimesOf | src/lib/storage.ts:180 | the start times of the day's bookings, one per booking, in order |
| Storage.AvailableSlots | src/lib/storage.ts:171-195 | empty on a day without an enabled entry or on a blocked date; otherwise a slot appears, as often as in the table, exactly when its start time is not already booked and, with slot and bounds read by `split(':').map(Number)` and a NaN reading failing, it starts no earlier than opening and the service ends no later than closing |
| Storage.TableClock | src/lib/storage.ts:185-186 | every entry of the slot table reads by `split(':').map(Number)` as the minute of day it names, the same minute as the strict `HH:MM` reading |
| Storage.TableFitsDefaultDay | src/lib/storage.ts:41-49 | every slot of the table fits a default day for the default 150 minutes |
| Storage.DefaultDayOffersAll | src/lib/storage.ts:171-195 | on a default day with nothing booked, for the default duration, the whole table is offered |
| Storage.OfferedOnDefaultDay | src/lib/storage.ts:171-195 | on an unblocked default day a string is offered exactly when it is in the table and fits beside the booked start times |
| Storage.ShortOpeningHourFits | src/lib/storage.ts:188-193 | a day stored as "8:00" to "21:00" accepts exactly the slots a day stored as "08:00" to "21:00" accepts |
| Storage.BookedStartRefused | src/lib/storage.ts:183 | a start time already booked is never offered, whatever the day's hours and the duration |
| Storage.NineThirtyFits | src/lib/storage.ts:182-194 | worked example: beside a booking at 09:00, 09:30 fits a default day |
| Storage.OverlapNotChecked | src/lib/storage.ts:182-194 | only an identical start time blocks a slot: a 150-minute booking at 09:00 still leaves 09:30 on offer |
| Storage.TableAscending | src/lib/constants.ts:98-103 | the slot table is strictly ascending by clock time |
| Storage.OfferedAscending | src/lib/storage.ts:182-194 | the offered slots keep the table's order: strictly ascending, so free of duplicates |
| Storage.LocalStore.constructor | src/lib/storage.ts:69-121 | the defaults for empty keys: no bookings, the default week, no blocked dates, no session |
| Storage.LocalStore.SaveBooking | src/lib/storage.ts:74-84 | the booking gets the given id and creation time, is appended after every earlier booking and returned; nothing else changes |
| Storage.LocalStore.UpdateBooking | src/lib/storage.ts:86-94 | an unknown id returns null and changes nothing; otherwise only the first booking with the id is replaced by the merge and returned |
| Storage.LocalStore.DeleteBooking | src/lib/storage.ts:96-103 | answers true exactly when the id was stored, and then every booking with that id is gone; otherwise nothing changes |
| Storage.LocalStore.GetBookingsByDate | src/lib/storage.ts:105-107 | each result is a stored, not cancelled booking of that date, and every such booking appears as often as stored |
| Storage.LocalStore.SetAvailability | src/lib/storage.ts:114-116 | the weekly availability becomes the given list and nothing else changes |
| Storage.LocalStore.AddBlockedDate | src/lib/storage.ts:123-129 | the blocked list becomes the one `AddBlocked` describes, and nothing else changes |
| Storage.LocalStore.RemoveBlockedDate | src/lib/storage.ts:131-134 | the blocked list becomes the one `RemoveBlocked` describes, and nothing else changes |
| Storage.LocalStore.IsAdminLoggedIn | src/lib/storage.ts:141-156 | true exactly for a logged-in session at most 24 hours old; an older session is removed |
| Storage.LocalStore.AdminLogin | src/lib/storage.ts:158-164 | succeeds exactly on the fixed credentials and then opens a session stamped now; otherwise nothing changes |
| Storage.LocalStore.AdminLogout | src/lib/storage.ts:166-168 | the session is gone and nothing else changes |
| Storage.LocalStore.GetAvailableTimeSlots | src/lib/storage.ts:171-195 | nothing on a closed or blocked day; otherwise entries of the slot table, strictly ascending by clock time, each passing the slot test of `Storage.AvailableSlots` |
| Storage.SessionExpiry | src/lib/storage.ts:148-153 | a login stays valid for 24 hours to the millisecond and no longer |
| Dashboard.FilteredBookings | src/pages/admin/Dashboard.tsx:526-534 | exactly the bookings that pass both the status test and the search, each as often as in the list |
| Dashboard.DefaultsShowAll | src/pages/admin/Dashboard.tsx:526-534 | with the filter on "all" and an empty search the whole list is shown unchanged |
| Dashboard.FilterKeepsOrder | src/pages/admin/Dashboard.tsx:526-534 | filtering keeps the list order: two runs filter to the two filtered runs, in order |
| Dashboard.StatusFilterExact | src/pages/admin/Dashboard.tsx:527 | a filter other than "all" keeps only bookings with exactly that status; a filter naming no status shows nothing |
| Dashboard.SearchIgnoresCase | src/pages/admin/Dashboard.tsx:528-532 | the query is matched whatever its case |
| Dashboard.ToLowerConcat | src/pages/admin/Dashboard.tsx:530 | lower-casing the full name lower-cases first and last name separately |
| Dashboard.ContainsTail | src/pages/admin/Dashboard.tsx:530 | text found in the end of a string is found in the string |
| Dashboard.LastNameFound | src/pages/admin/Dashboard.tsx:530 | a query found in the last name finds the booking |
| Dashboard.StatusCount | src/pages/admin/Dashboard.tsx:536-538 | the number of bookings with the status, the length of the filtered list, never more than the list |
| Dashboard.StatusCountsPartition | src/pages/admin/Dashboard.tsx:536-538 | every booking is counted under exactly one status, so the counters over all statuses add up to the list length |
| Dashboard.RevenueAppend | src/pages/admin/Dashboard.tsx:539-541 | one more booking adds its price, or 0 when it has none, exactly when it is validated or completed |
| Dashboard.RevenueNonNegative | src/pages/admin/Dashboard.tsx:539-541 | with no negative prices the revenue is never negative |
| Dashboard.CancelLowersRevenue | src/pages/admin/Dashboard.tsx:539-541 | cancelling a booking removes its price from the revenue when it was earning, and otherwise leaves the revenue as it was |
| Dashboard.CountRating | src/pages/admin/Dashboard.tsx:247-248 | the number of reviews with that rating, never more than the reviews |
| Dashboard.ByStars | src/pages/admin/Dashboard.tsx:247-248 | the result has the keys 1 to 5, each holding the number of reviews with that rating |
| Dashboard.StarsSumToTotal | src/pages/admin/Dashboard.tsx:245-248 | with ratings in 1 to 5 the five counters add up to the number of reviews |
| Dashboard.ActionsFor | src/pages/admin/Dashboard.tsx:933-1001 | a cancelled booking offers only the replacement; any other offers a cancellation; no button sends the status the booking already has |
| Dashboard.ActionsMoveForward | src/pages/admin/Dashboard.tsx:933-1001 | every status a button sends is one the backend accepts, and it moves the booking forward in its life |
| Dashboard.OnlyRejectCarriesReason | src/pages/admin/Dashboard.tsx:303-306 | the rejection, with its reason, is offered only for a submitted proof and sends a cancellation |
| Dashboard.FindStatus | src/pages/admin/Dashboard.tsx:270 | the status of a booking with that id; absent exactly when no booking has it |
| Dashboard.WarningsDistinct | src/pages/admin/Dashboard.tsx:272-277 | the two warnings differ from each other and from the generic question |
| Dashboard.GenericMessage | src/pages/admin/Dashboard.tsx:268 | worked example: the generic question starts with "C", unlike both warnings |
| Dashboard.GenericMessageInjective | src/pages/admin/Dashboard.tsx:268 | distinct statuses give distinct questions |
| Dashboard.ConfirmMessage | src/pages/admin/Dashboard.tsx:268-278 | the first warning exactly when cancelling a validated booking, the second exactly when cancelling a completed one, the generic question otherwise |
| Dashboard.NoteOf | src/pages/admin/Dashboard.tsx:436 | the note is never empty and trimmed; it is the trimmed input whenever that is non-empty |
| Dashboard.LocalStartTime | src/pages/admin/Dashboard.tsx:421 | the start string is the backend's timestamp for that date and slot without its final `Z` |
| Dashboard.BuildReplacementRequest | src/pages/admin/Dashboard.tsx:415-440 | nothing is sent exactly when the slot or the slug is missing; otherwise every field names the cancelled booking, its service and client, the chosen start and the note |
| Dashboard.ReplacementNotesNameOriginal | src/pages/admin/Dashboard.tsx:436 | the note sent is never empty, so the backend keeps it and appends the reference to the cancelled booking |
| Dashboard.LocalStartTimeInjective | src/pages/admin/Dashboard.tsx:421 | for dates of one width the start string determines the date and the slot |
| BookingPage.PageServiceIdsDistinct | src/pages/Booking.tsx:8-51 | the page lists six services and no two share an id |
| BookingPage.FindCard | src/pages/Booking.tsx:98-99 | `find` by id: nothing exactly when no id is selected or no card has it; otherwise a listed card with that id |
| BookingPage.GetSelectedServiceData | src/pages/Booking.tsx:98-99 | a result is a listed service whose id is the selected one |
| BookingPage.SelectedServiceUnique | src/pages/Booking.tsx:98-99 | selecting a listed service's id yields that very service |
| BookingPage.NextOf | src/pages/Booking.tsx:90-92 | from a step in 1 to 4 the next step stays in 1 to 4 and is the same or one further |
| BookingPage.PrevOf | src/pages/Booking.tsx:94-96 | from a step in 1 to 4 the previous step stays in 1 to 4 and is the same or one back |
| BookingPage.StepInverses | src/pages/Booking.tsx:90-96 | forward then back, or back then forward, returns to the step away from the ends; at the ends the move does nothing |
| BookingPage.ThreeStepsToConfirm | src/pages/Booking.tsx:90-92 | three forward moves reach the confirmation from any step |
| BookingPage.BookingWizard.constructor | src/pages/Booking.tsx:78-88 | the wizard starts at step 1 with nothing chosen and an empty form |
| BookingPage.BookingWizard.NextStep | src/pages/Booking.tsx:90-92 | the step advances as the next-step rule says and nothing else changes |
| BookingPage.BookingWizard.PrevStep | src/pages/Booking.tsx:94-96 | the step goes back as the previous-step rule says and nothing else changes |
| BookingPage.BookingWizard.ClickContinue | src/pages/Booking.tsx:239-240 | "Continue" advances exactly when its step's choices are made, so the confirmation is only reached with a complete form; nothing else changes |
| BookingPage.BookingWizard.SelectService | src/pages/Booking.tsx:212 | only the chosen service changes |
| BookingPage.BookingWizard.SelectDate | src/pages/Booking.tsx:267 | only the chosen date changes |
| BookingPage.BookingWizard.SelectTime | src/pages/Booking.tsx:289 | only the chosen time changes |
| BookingPage.BookingWizard.SetForm | src/pages/Booking.tsx:341-386 | only the form changes |
| BookingPage.CalendarFromFacts | src/pages/Booking.tsx:105-112 | the days offered are exactly the non-Sundays among today and the next twenty days, each once, ascending |
| BookingPage.OneInSeven | src/pages/Booking.tsx:109 | of seven consecutive days exactly six are not Sundays |
| BookingPage.OneSundayAWeek | src/pages/Booking.tsx:105-112 | each further week of the calendar adds six days |
| BookingPage.CalendarHasEighteenDays | src/pages/Booking.tsx:102-114 | whatever today is, the calendar offers exactly 18 days |
| BookingPage.CalendarStep | src/pages/Booking.tsx:109-111 | one turn of the loop keeps the day exactly when it is not a Sunday |
| BookingPage.GenerateCalendarDays | src/pages/Booking.tsx:102-114 | the loop returns the calendar whose facts are stated above |
| Faq.Toggle | src/pages/FAQ.tsx:89-93 | an open question is closed, removing every copy of it and keeping the others; a closed one is appended |
| Faq.ToggleMembership | src/pages/FAQ.tsx:89-93 | after a toggle the question is open exactly when it was closed, and every other question is as it was |
| Faq.FilterNoDuplicates | src/pages/FAQ.tsx:91 | removing one id from a list without repeats leaves a list without repeats |
| Faq.ToggleNoDuplicates | src/pages/FAQ.tsx:89-93 | toggling never opens the same question twice |
| Faq.OpenThenClose | src/pages/FAQ.tsx:89-93 | opening and then closing a closed question gives back exactly the open list |
| Faq.OccursOnce | src/pages/FAQ.tsx:89-93 | in a list without repeats an open question occurs exactly once |
| Faq.CloseThenOpen | src/pages/FAQ.tsx:89-93 | closing and reopening an open question gives back the same open questions, the reopened one last |
| Faq.ItemId | src/pages/FAQ.tsx:140 | the id is the category number, a dash and the question number |
| Faq.ItemIdInjective | src/pages/FAQ.tsx:140 | distinct questions have distinct ids |
| ReviewsPage.SortedReviews | src/pages/Reviews.tsx:75-78 | the same reviews as often as before; by "helpful", in non-increasing helpfulness; otherwise in the original order |
| ReviewsPage.SortedSameReviews | src/pages/Reviews.tsx:75-78 | sorting keeps exactly the reviews it was given |
| ReviewsPage.MostHelpfulFirst | src/pages/Reviews.tsx:75-78 | a review strictly more helpful than every other comes first |
| ReviewsPage.PageMostHelpfulFirst | src/pages/Reviews.tsx:7-78 | worked example: on the page's reviews, the third review, the most helpful, comes first |
| ReviewsPage.BreakdownConsistent | src/pages/Reviews.tsx:64-70 | the counts add up to 120 and the percentages to 100; each percentage is its count's share rounded; the lines run from 5 stars down to 1 |
| GalleryPage.FilteredItems | src/pages/Gallery.tsx:33-36 | "all" shows every item; any other tab shows exactly the items of that category, each as often as listed |
| GalleryPage.FilterKeepsOrder | src/pages/Gallery.tsx:33-36 | the filter keeps the order of the items |
| GalleryPage.EmptyTab | src/pages/Gallery.tsx:33-36 | a tab no item belongs to shows nothing |
| GalleryPage.FindCategory | src/pages/Gallery.tsx:110 | a found category is listed with that id; none found means no category has it |
| GalleryPage.EveryItemHasBadge | src/pages/Gallery.tsx:11-27 | every item's category is listed, so every card shows its category name |
| GalleryPage.FindItem | src/pages/Gallery.tsx:135 | a found item is listed with that id; none found means no item has it |
| GalleryPage.FindCategoryFirst | src/pages/Gallery.tsx:110 | the lookup returns the first category with the id |
| GalleryPage.FindItemFirst | src/pages/Gallery.tsx:135 | the lookup returns the first item with the id |
| GalleryPage.FindItemOfId | src/pages/Gallery.tsx:135 | with ids ascending, an item's id finds that very item |
| GalleryPage.LightboxShowsClicked | src/pages/Gallery.tsx:123-135 | clicking an item opens the lightbox, since every id is non-zero, and shows that item |
| Carousel.NextIndex | src/components/home/GallerySection.tsx:23-25 | from a position in range the next one is in range: one further, or back to the first after the last |
| Carousel.PrevIndex | src/components/home/GallerySection.tsx:27-31 | from a position in range the previous one is in range: one back, or the last before the first |
| Carousel.NextPrevInverse | src/components/home/GallerySection.tsx:23-31 | one step back undoes one step on, and the other way round |
| Carousel.NextTimesAdds | src/components/home/TestimonialsSection.tsx:43-45 | `k` steps on, `k` at most the length, move `k` places around the circle |
| Carousel.FullTurn | src/components/home/TestimonialsSection.tsx:43-45 | as many steps on as there are slides come back to the start |
| Carousel.Slideshow.constructor | src/components/home/GallerySection.tsx:20 | a slideshow of a non-empty list starts on the first slide |
| Carousel.Slideshow.Next | src/components/home/GallerySection.tsx:23-25 | the slide moves one on, wrapping, and stays in range |
| Carousel.Slideshow.Prev | src/components/home/GallerySection.tsx:27-31 | the slide moves one back, wrapping, and stays in range |
| Carousel.Slideshow.GoTo | src/components/home/GallerySection.tsx:118-121 | a dot or thumbnail selects exactly that slide |
| GallerySection.NewGallerySlideshow | src/components/home/GallerySection.tsx:11-20 | a new slideshow over the four images, on the first |
| GallerySection.GalleryCycles | src/components/home/GallerySection.tsx:11-31 | four images: four steps on return to the start, and a step on then back returns to where it was |
| TestimonialsSection.NewTestimonialSlideshow | src/components/home/TestimonialsSection.tsx:5-41 | a new slideshow over the four testimonials, on the first |
| TestimonialsSection.TestimonialsCycle | src/components/home/TestimonialsSection.tsx:40-51 | four testimonials: four steps on return to the start, and a step back then on returns to where it was |
| Text.TrimStart | backend/src/controllers/booking.controller.ts:85 | drops exactly the leading whitespace: the result is a suffix that is empty or starts with a non-space, and everything dropped is whitespace |
| Text.TrimEnd | backend/src/controllers/booking.controller.ts:85 | drops exactly the trailing whitespace, the mirror image of `TrimStart` |
| Text.Trim | backend/src/controllers/booking.controller.ts:85 | the result is a slice of the input with no whitespace at either end |
| Text.TrimOfTrimmed | backend/src/controllers/booking.controller.ts:85 | a string with no whitespace at its ends is left as it is |
| Text.TrimAllWhitespace | backend/src/controllers/booking.controller.ts:89 | a string of whitespace only trims to the empty string |
| Text.TrimIdempotent | backend/src/models/Booking.model.ts:23-27 | trimming twice, in the handler and again in the schema setter, is trimming once |
| Text.LowerChar | backend/src/controllers/booking.controller.ts:87 | A-Z and the Latin-1 capitals À-Þ other than × move 32 code points on to their small letters, Œ becomes œ and Ÿ becomes ÿ; every other character is kept |
| Text.ToLower | backend/src/controllers/booking.controller.ts:87 | same length, each character lower-cased on its own by `Text.LowerChar` |
| Text.ToLowerIdempotent | backend/src/models/Booking.model.ts:25 | lower-casing twice is lower-casing once |
| Text.TrimToLowerCommute | backend/src/controllers/booking.controller.ts:87 | trimming and lower-casing can be done in either order |
| Text.NormalizeEmail | backend/src/controllers/booking.controller.ts:87 | the stored e-mail has no whitespace at its ends and no upper-case letter |
| Text.NormalizeEmailIdempotent | backend/src/models/Booking.model.ts:25 | normalising an already normalised e-mail changes nothing, so the setter after the handler is harmless |
| Text.NonBlankEndsSurvive | backend/src/controllers/booking.controller.ts:87 | an address without whitespace at its ends is only lower-cased, and never becomes empty |
| Text.Contains | src/pages/admin/Dashboard.tsx:530 | `includes`: true exactly when the needle occurs at some position |
| Text.NatToString | backend/src/controllers/availability.controller.ts:66 | a non-empty string of digits, one digit exactly below 10, at most two below 100 |
| Text.DecimalValueOfNatToString | backend/src/controllers/availability.controller.ts:66 | the printed digits read back as the number |
| Text.NatToStringInjective | backend/src/controllers/availability.controller.ts:66 | different numbers print differently |
| Text.Pad2 | backend/src/controllers/availability.controller.ts:66 | a number below 100 becomes its two decimal digits |
| Text.FormatHhMm | backend/src/controllers/availability.controller.ts:66 | a minute of day below 100 hours prints as a well-formed `HH:MM` |
| Text.ParseHhMm | src/lib/constants.ts:98-103 | the strict reading of a slot table entry: a value exactly for well-formed `HH:MM`, and then between 0 and 99 hours 99 minutes |
| Text.ParseFormat | backend/src/controllers/availability.controller.ts:64-66 | formatting then parsing gives back the minute of day |
| Text.FormatInjective | backend/src/controllers/availability.controller.ts:64-66 | two different minutes of day never print the same string |
| Text.FormatParse | src/lib/constants.ts:98-103 | a clock string with minutes below 60 is the printed form of its own value |
| ClockText.FirstField | src/lib/storage.ts:185 | the first element of `split(':')` holds no colon |
| ClockText.AfterColon | src/lib/storage.ts:185 | there is text after a first colon exactly when the string has a colon; otherwise the second element is `undefined` |
| ClockText.JsNumberTrims | src/lib/storage.ts:185 | `Number` reads a string after trimming its surrounding whitespace: blank is 0, a run of digits its decimal value, anything else NaN |
| ClockText.ClockSum | src/lib/storage.ts:186 | `h * 60 + m` is NaN exactly when either number is NaN |
| ClockText.ClockMinutes | src/lib/storage.ts:185-186 | a string read as a clock has a number only if it has a colon, and that number is never negative |
| ClockText.FieldsOf | src/lib/storage.ts:185 | `a:b` with a colon-free `a` splits into `a` and the rest `b` |
| ClockText.FirstFieldNoColon | src/lib/storage.ts:185 | a colon-free string is its own first field |
| ClockText.ClockOfFields | src/lib/storage.ts:185-186 | `h:m` with colon-free fields reads as `Number(h) * 60 + Number(m)` |
| ClockText.ClockOfNumbers | src/lib/storage.ts:185-186 | `h:m` whose fields are read as `a` and `b` is minute `a * 60 + b` |
| ClockText.ClockSecondsIgnored | src/lib/storage.ts:185 | a third field is ignored: `h:m:x` reads as `h:m` |
| ClockText.NoColonIsNaN | src/lib/storage.ts:185-186 | a string without a colon reads as NaN, so every comparison with it fails |
| ClockFacts.JsNumberOneDigit | src/lib/storage.ts:185 | one digit is read as its value |
| ClockFacts.JsNumberTwoDigits | src/lib/storage.ts:185 | two digits are read as their two-digit value, a leading zero included |
| ClockFacts.JsNumberOfPad2 | src/lib/storage.ts:185 | a zero-padded number below 100 is read back as that number |
| ClockFacts.ClockSumOfMinute | src/lib/storage.ts:186 | the hours and minutes of a minute of day sum back to it |
| ClockFacts.ClockMinutesOfFormat | src/lib/storage.ts:185-186 | every clock string the backend's slot formatter prints reads back as its minute of day |
| ClockFacts.ClockOfTwoDigitFields | src/lib/storage.ts:185-186 | two two-digit fields around a colon read as the minute they name |
| ClockFacts.ClockOfShortHour | src/lib/storage.ts:185-186 | a one-digit hour and a two-digit minute around a colon read as the minute they name |
| ClockFacts.ClockOfThreeFields | src/lib/storage.ts:185-186 | a string that adds a third field to `t` reads as `t` |
| ClockFacts.DefaultOpening | src/lib/storage.ts:42 | the default opening "08:00" reads as minute 480 |
| ClockFacts.DefaultClosing | src/lib/storage.ts:42 | the default closing "21:00" reads as minute 1260 |
| ClockFacts.LenientOneDigitHour | src/lib/storage.ts:188-190 | worked example: "8:00" reads as 08:00, where the strict reading refuses it |
| ClockFacts.LenientSecondsField | src/lib/storage.ts:188-190 | worked example: "08:00:00" reads as 08:00, where the strict reading refuses it |
| Seqs.Filter | src/lib/storage.ts:182 | `filter`: every result passes and comes from the input, each passing element kept as often as it occurs |
| Seqs.FilterAppend | src/lib/storage.ts:182 | filtering a concatenation filters each part, so order is kept |
| Seqs.FilterAll | src/lib/storage.ts:182 | when every element passes the input comes back whole |
| Seqs.FilterKeepsLength | src/lib/storage.ts:98-99 | nothing is dropped exactly when every element passes, the test `deleteBooking` makes |
| Seqs.FilterMember | src/lib/storage.ts:182 | an element is kept exactly when it occurs in the input and passes |
| Seqs.FilterKeepsAscending | src/lib/storage.ts:182 | filtering a strictly ascending sequence keeps it strictly ascending |
| Cursor.InsertDesc | backend/src/controllers/booking.controller.ts:167 | inserting adds exactly that element: one longer, the same elements plus it |
| Cursor.InsertDescSorted | backend/src/controllers/booking.controller.ts:167 | inserting into a list sorted by decreasing key keeps it sorted |
| Cursor.SortDesc | backend/src/controllers/booking.controller.ts:167 | `sort({ key: -1 })`: a permutation of the input in non-increasing key order |
| Cursor.SortConstantKey | backend/src/controllers/booking.controller.ts:167 | with all keys equal the sort keeps the input order |
| Cursor.Skip | backend/src/controllers/booking.controller.ts:168 | drops the first `n` entries, or all when there are fewer |
| Cursor.Limit | backend/src/controllers/booking.controller.ts:169 | a prefix of at most `n` entries, the whole list when it is shorter |
| Cursor.ApplyLimit | backend/src/controllers/booking.controller.ts:169 | a limit of 0 is no limit; any other limit, negative ones by their size, keeps a prefix no longer than it |
| Cursor.SortSkipLimit | backend/src/controllers/booking.controller.ts:166-169 | the page is a sorted slice of the sorted matches, starting at the skip and no longer than the limit; empty past the end |
| Cursor.SortedDescSlice | backend/src/controllers/booking.controller.ts:166-169 | a slice of a sorted list is sorted |
| Cursor.SortedMembers | backend/src/controllers/booking.controller.ts:167 | every sorted entry comes from the input |
| Cursor.CeilDiv | backend/src/controllers/booking.controller.ts:180 | `Math.ceil(total / limit)`: the fewest pages of that size that hold every match |
| Cursor.PageCount | backend/src/controllers/booking.controller.ts:180 | for a positive limit the fewest pages that hold every match; null for a limit of 0; for a negative limit the ceiling of the negative quotient |
| Cursor.Paginate | backend/src/controllers/booking.controller.ts:164-181 | a negative skip fails with a 500; otherwise the page echoes page and limit, counts every match, and holds the sorted slice the skip and limit select |

## Left out

**Not modelled:**
- Authentication: JWT signing and checking, the auth middleware, `login`, `getMe` and `auth.controller.ts` are foreign libraries. Password hashing is `comparePassword`, a parameter of the admin handlers.
- `getAllAdmins` only lists admins without their password hash, a projection of the hashed field, which is not part of this model.
- The upload middleware: multer, uuid and file system. `submitBookingWithProof` receives the uploaded file as an optional path.
- The seed and admin-creation scripts, `app.ts`, `server.ts`, the route files, `src/api/api.ts` and every `fetch` call of the pages. These are I/O only.
- JavaScript `Date`: parsing, `setHours` in local time and daylight saving, `getDay`, `toLocaleString` and `toFixed`.
  - The parser is a function parameter, and the start of the day and the weekday are inputs.
  - The 24-hour cancellation rule is stated on milliseconds, not on the fractional `hoursDiff`.
- `Number(...)` of query strings: page, limit and rating are taken as integers. A non-numeric string, which JavaScript turns into `NaN`, is not modelled.
- The floating-point review average of the dashboard (`sum / total`).
- The JSON round-trip of localStorage, taken as the identity, and the `try`/`catch` fallbacks around it.
- Mongoose details beyond the ones named in the module comments.
  - Query values are compared as given, without the schema's setters.
  - An update without validators stores any string, which is how a review can end up `published`.
- The race between a conflict check and the insert that follows it: every handler runs to completion before the next.
- Image paths, alt texts, review and testimonial texts, and the page's local `timeSlots` list and `formatDate` in `src/pages/Booking.tsx`. These are display data only.

**Weaker than the source:**
- Dashboard.ByStars: a rating outside 1 to 5 is counted under no key. The source makes a sixth key hold `NaN`.
- Faq.CloseThenOpen: closing and reopening an open question restores the same open questions, but not their order, since the reopened one moves to the end. `Faq.OpenThenClose` gives the exact list for a closed question.
- ReviewsPage.SortedReviews: by "helpful", the contract states the order and the permutation, but not that equally helpful reviews keep their relative order. JavaScript's sort is stable and so is the model's, but the contract does not say so.
- Cursor.SortDesc: MongoDB leaves ties in no particular order. The model fixes tied elements in their stored order, and the contract states only sortedness and the permutation.
- Text.ToLower: case mapping covers A-Z, the Latin-1 capitals, Œ and Ÿ only. Capitals of other scripts (Greek, Cyrillic, Latin Extended beyond Œ and Ÿ) are kept as they are, and 'İ', which JavaScript lowers to two code points, is kept as one.
- Text.NormalizeEmail: lower-cases through `Text.ToLower`, so the no-capital guarantee holds for the letters `Text.LowerChar` maps and not for other scripts.
- Dashboard.SearchIgnoresCase: the query is matched whatever its case only for the letters `Text.LowerChar` maps, for the reason given under `Text.ToLower`.
- Storage.AvailableSlots: `Number` of a clock field is modelled for blank fields and runs of decimal digits, with surrounding whitespace trimmed. Fractional, exponent, hexadecimal, signed and "Infinity" fields read as NaN in the model, while JavaScript gives them a number.
- Storage.LocalStore.GetAvailableTimeSlots: reads the day's bounds through `Storage.AvailableSlots`, with the same limit on `Number`.
- ClockText.ClockMinutes: the same limit on `Number` as `Storage.AvailableSlots`.
- AdminController.UpdateBookingStatusAdmin: `rejectionReason` and `cancelledAt` are built into the update (`AdminController.BuildUpdateData`), but the strict schema does not declare them, so only the status is stored (`AdminController.StrictApply`).

## Findings

| source | as written | input that shows it | evidently intended | confidence | as-written member | corrected member |
|---|---|---|---|---|---|---|
| backend/src/controllers/admin-extra.controller.ts:113-121 | `publishReview` stores the status "published", which the review schema's enum does not know and `getApprovedReviews` never selects | any stored review, published by its id | a published review appears on the public page, whose query selects status "approved" | not executed | AdminExtraController.PublishReview, AdminExtraController.PublishedNeverShown | AdminExtraController.PublishReviewCorrected, AdminExtraController.CorrectedPublishIsShown |
| backend/src/controllers/booking.controller.ts:64-68 | the conflict query of `createBooking` blocks only "pending" and "confirmed". "confirmed" is not a schema status, so a validated or proof-submitted booking never blocks a new request | a collection holding one validated booking, and a well-formed request for the same interval | a new booking never overlaps a live booking, as `hasConflict`'s "every status but cancelled" guarantees | not executed | BookingController.CreateBooking, BookingController.CreateBookingOverlapsValidated | BookingController.CreateBookingCorrected, BookingController.CorrectedAcceptsLess |
