/** The admin handlers: admin accounts (create, update, change password,
    delete), the admin views of bookings (the paginated list and a single
    booking, each with the service price), the admin status update, the
    replacement booking made after a cancellation, and the contact inbox.
    Password hashing is abstracted: the stored credential is compared
    through the `comparePassword` parameter. */
module AdminController {
  import opened Common
  import opened Text
  import opened Cursor
  import opened BookingModel
  import opened ServiceModel
  import opened ConflictUtils
  import opened BookingController
  import opened ContactController

  // ------------------------------------------------------------------
  // Admin accounts

  /** An admin document; `password` is the stored credential. */
  datatype Admin = Admin(id: string, email: string, password: string, name: string, role: string, active: bool)

  /** The schema's `enum` for `role`; `admin` is the default. */
  const AdminRoles: set<string> := {"admin", "super-admin"}
  const DefaultRole: string := "admin"
  const MinPasswordLength: nat := 6

  predicate HasAdminId(admins: seq<Admin>, id: string)
  {
    exists i :: 0 <= i < |admins| && admins[i].id == id
  }

  /** `findOne({ email })`, compared as given. */
  predicate HasAdminEmail(admins: seq<Admin>, email: string)
  {
    exists i :: 0 <= i < |admins| && admins[i].email == email
  }

  /** The unique index on `email`. */
  predicate AdminEmailsUnique(admins: seq<Admin>)
  {
    forall i, j :: 0 <= i < j < |admins| ==> admins[i].email != admins[j].email
  }

  /** Another admin than the one at `k` already has that e-mail. */
  predicate EmailTakenByOther(admins: seq<Admin>, k: nat, email: string)
  {
    exists i :: 0 <= i < |admins| && i != k && admins[i].email == email
  }

  /** The position of the admin with that id. */
  function FindAdmin(admins: seq<Admin>, id: string): (r: Option<nat>)
    ensures r.Some? <==> HasAdminId(admins, id)
    ensures r.Some? ==> r.value < |admins| && admins[r.value].id == id
  {
    if admins == [] then None
    else if admins[0].id == id then Some(0)
    else
      match FindAdmin(admins[1..], id)
      case None => None
      case Some(k) => Some(k + 1)
  }

  /** The validators a saved admin goes through: required e-mail and name,
      and a role from the enum. */
  predicate AdminFieldsValid(a: Admin)
  {
    a.email != "" && a.name != "" && a.role in AdminRoles
  }

  /** `role || 'admin'`. */
  function RoleOf(role: Option<string>): (r: string)
    ensures Truthy(role) ==> r == role.value
    ensures !Truthy(role) ==> r == DefaultRole
  {
    if Truthy(role) then role.value else DefaultRole
  }

  /** Appending an admin whose e-mail is not taken keeps e-mails unique. */
  lemma AppendKeepsEmailsUnique(admins: seq<Admin>, a: Admin)
    requires !HasAdminEmail(admins, a.email)
    ensures AdminEmailsUnique(admins) ==> AdminEmailsUnique(admins + [a])
  {
    var s := admins + [a];
    if AdminEmailsUnique(admins) {
      forall i, j | 0 <= i < j < |s| ensures s[i].email != s[j].email {
        assert s[i] == admins[i];
        if j < |admins| { assert s[j] == admins[j]; }
      }
    }
  }

  /** `createAdmin`: a missing e-mail, password or name is a 400; an admin
      with that e-mail (as given) is a 409; otherwise an active admin is
      created with the role asked for, or `admin`. The schema lower-cases and
      trims the e-mail and trims the name; a password shorter than 6, a role
      outside the enum, a blank name, an e-mail taken once normalised, or a
      taken id fail validation and are a 500. */
  function CreateAdmin(admins: seq<Admin>, email: Option<string>, password: Option<string>, name: Option<string>,
                       role: Option<string>, newId: string): (h: Handled<seq<Admin>, Admin>)
    ensures h.result == Err(BadRequest) <==> !Truthy(email) || !Truthy(password) || !Truthy(name)
    ensures h.result == Err(Conflict) <==>
      Truthy(email) && Truthy(password) && Truthy(name) && HasAdminEmail(admins, email.value)
    ensures h.result.Err? ==> h.store == admins && h.result.error in {BadRequest, Conflict, InternalError}
    ensures h.result.Ok? ==>
      var a := h.result.value;
      h.store == admins + [a] && a.id == newId && a.active
      && a.email == NormalizeEmail(email.value) && a.name == Trim(name.value) && a.password == password.value
      && |a.password| >= MinPasswordLength && a.role == RoleOf(role) && a.role in AdminRoles
    ensures AdminEmailsUnique(admins) ==> AdminEmailsUnique(h.store)
  {
    if !Truthy(email) || !Truthy(password) || !Truthy(name) then Handled(admins, Err(BadRequest))
    else if HasAdminEmail(admins, email.value) then Handled(admins, Err(Conflict))
    else
      var a := Admin(newId, NormalizeEmail(email.value), password.value, Trim(name.value), RoleOf(role), true);
      if AdminFieldsValid(a) && |a.password| >= MinPasswordLength && !HasAdminEmail(admins, a.email)
         && !HasAdminId(admins, newId) then
        AppendKeepsEmailsUnique(admins, a);
        Handled(admins + [a], Ok(a))
      else Handled(admins, Err(InternalError))
  }

  /** Without a role in the request the new admin is a plain `admin`; a role
      outside the enum is refused by the schema. */
  lemma CreateAdminRoles(admins: seq<Admin>, email: Option<string>, password: Option<string>, name: Option<string>,
                         role: Option<string>, newId: string)
    ensures role.None? && CreateAdmin(admins, email, password, name, role, newId).result.Ok? ==>
      CreateAdmin(admins, email, password, name, role, newId).result.value.role == DefaultRole
    ensures Truthy(role) && role.value !in AdminRoles ==>
      CreateAdmin(admins, email, password, name, role, newId).result.Err?
  {
  }

  /** The fields of an `updateAdmin` body; `None` is an absent field. */
  datatype AdminUpdate = AdminUpdate(name: Option<string>, email: Option<string>, role: Option<string>,
                                     active: Option<bool>)

  /** What `updateAdmin` does to the document: a truthy name, e-mail or role
      replaces the old one (through the schema's setters), and `active`
      whenever it is given, even as `false`. */
  function Overwrite(a: Admin, u: AdminUpdate): (r: Admin)
    ensures r.id == a.id && r.password == a.password
  {
    Admin(a.id,
          if Truthy(u.email) then NormalizeEmail(u.email.value) else a.email,
          a.password,
          if Truthy(u.name) then Trim(u.name.value) else a.name,
          if Truthy(u.role) then u.role.value else a.role,
          if u.active.Some? then u.active.value else a.active)
  }

  /** An empty update leaves the admin as it is. */
  lemma OverwriteNothing(a: Admin)
    ensures Overwrite(a, AdminUpdate(None, None, None, None)) == a
  {
  }

  /** Applying the same update twice is applying it once. */
  lemma OverwriteIdempotent(a: Admin, u: AdminUpdate)
    ensures Overwrite(Overwrite(a, u), u) == Overwrite(a, u)
  {
  }

  /** `active: false` deactivates the admin and changes nothing else. */
  lemma DeactivateOnly(a: Admin)
    ensures Overwrite(a, AdminUpdate(None, None, None, Some(false))) == a.(active := false)
  {
  }

  /** `updateAdmin`: an unknown id is a 404; otherwise the fields are
      overwritten one by one and the admin is saved, which fails (a 500) when
      the result has a blank name or e-mail, a role outside the enum, or an
      e-mail another admin has. */
  method UpdateAdmin(admins: seq<Admin>, id: string, u: AdminUpdate) returns (h: Handled<seq<Admin>, Admin>)
    ensures h.result == Err(NotFound) <==> !HasAdminId(admins, id)
    ensures h.result == Err(InternalError) <==>
      HasAdminId(admins, id)
      && var k := FindAdmin(admins, id).value;
      var a := Overwrite(admins[k], u);
      !AdminFieldsValid(a) || EmailTakenByOther(admins, k, a.email)
    ensures h.result.Err? ==> h.result.error in {NotFound, InternalError}
    ensures h.result.Err? ==> h.store == admins
    ensures h.result.Ok? ==>
      var k := FindAdmin(admins, id).value;
      h.result.value == Overwrite(admins[k], u) && h.store == admins[k := h.result.value]
    ensures AdminEmailsUnique(admins) ==> AdminEmailsUnique(h.store)
  {
    var found := FindAdmin(admins, id);
    if found.None? {
      return Handled(admins, Err(NotFound));
    }
    var k := found.value;
    var a := admins[k];
    if Truthy(u.name) {
      a := a.(name := Trim(u.name.value));
    }
    if Truthy(u.email) {
      a := a.(email := NormalizeEmail(u.email.value));
    }
    if Truthy(u.role) {
      a := a.(role := u.role.value);
    }
    if u.active.Some? {
      a := a.(active := u.active.value);
    }
    assert a == Overwrite(admins[k], u);
    if !AdminFieldsValid(a) || EmailTakenByOther(admins, k, a.email) {
      return Handled(admins, Err(InternalError));
    }
    ReplaceKeepsEmailsUnique(admins, k, a);
    h := Handled(admins[k := a], Ok(a));
  }

  /** Saving an admin whose e-mail no other admin has keeps the e-mails
      unique. */
  lemma ReplaceKeepsEmailsUnique(admins: seq<Admin>, k: nat, a: Admin)
    requires k < |admins| && !EmailTakenByOther(admins, k, a.email)
    ensures AdminEmailsUnique(admins) ==> AdminEmailsUnique(admins[k := a])
  {
    if !AdminEmailsUnique(admins) { return; }
    var t := admins[k := a];
    forall i, j | 0 <= i < j < |t| ensures t[i].email != t[j].email {
      if i == k { assert admins[j].email == t[j].email; }
      else if j == k { assert admins[i].email == t[i].email; }
    }
  }

  /** `changePassword`: a missing password is a 400, and so is a new one
      shorter than 6 characters; an unknown caller is a 404; a current
      password `comparePassword` rejects is a 401; otherwise only the
      caller's stored credential changes. */
  function ChangePassword(admins: seq<Admin>, callerId: Option<string>, current: Option<string>,
                          newPassword: Option<string>, comparePassword: (string, string) -> bool)
    : (h: Handled<seq<Admin>, Admin>)
    ensures h.result == Err(BadRequest) <==>
      !Truthy(current) || !Truthy(newPassword) || |newPassword.value| < MinPasswordLength
    ensures h.result == Err(NotFound) <==>
      Truthy(current) && Truthy(newPassword) && |newPassword.value| >= MinPasswordLength
      && (callerId.None? || !HasAdminId(admins, callerId.value))
    ensures h.result == Err(Unauthorized) <==>
      Truthy(current) && Truthy(newPassword) && |newPassword.value| >= MinPasswordLength
      && callerId.Some? && HasAdminId(admins, callerId.value)
      && !comparePassword(current.value, admins[FindAdmin(admins, callerId.value).value].password)
    ensures h.result.Err? ==> h.store == admins
    ensures h.result.Ok? ==>
      var k := FindAdmin(admins, callerId.value).value;
      h.result.value == admins[k].(password := newPassword.value) && h.store == admins[k := h.result.value]
      && |h.result.value.password| >= MinPasswordLength
  {
    if !Truthy(current) || !Truthy(newPassword) then Handled(admins, Err(BadRequest))
    else if |newPassword.value| < MinPasswordLength then Handled(admins, Err(BadRequest))
    else if callerId.None? then Handled(admins, Err(NotFound))
    else
      match FindAdmin(admins, callerId.value)
      case None => Handled(admins, Err(NotFound))
      case Some(k) =>
        if !comparePassword(current.value, admins[k].password) then Handled(admins, Err(Unauthorized))
        else
          var a := admins[k].(password := newPassword.value);
          Handled(admins[k := a], Ok(a))
  }

  /** A changed password leaves every admin's e-mail where it was. */
  lemma ChangePasswordKeepsEmails(admins: seq<Admin>, callerId: Option<string>, current: Option<string>,
                                  newPassword: Option<string>, comparePassword: (string, string) -> bool)
    requires AdminEmailsUnique(admins)
    ensures AdminEmailsUnique(ChangePassword(admins, callerId, current, newPassword, comparePassword).store)
  {
    var h := ChangePassword(admins, callerId, current, newPassword, comparePassword);
    assert |h.store| == |admins| && forall i :: 0 <= i < |admins| ==> h.store[i].email == admins[i].email;
  }

  /** `deleteAdmin`: the caller's own id is a 400 and an unknown id a 404;
      otherwise that admin is removed. */
  function DeleteAdmin(admins: seq<Admin>, id: string, callerId: Option<string>): (h: Handled<seq<Admin>, Admin>)
    ensures h.result == Err(BadRequest) <==> callerId == Some(id)
    ensures h.result == Err(NotFound) <==> callerId != Some(id) && !HasAdminId(admins, id)
    ensures h.result.Err? ==> h.store == admins
    ensures h.result.Ok? ==>
      var k := FindAdmin(admins, id).value;
      h.result.value == admins[k] && h.store == admins[..k] + admins[k + 1..]
    ensures |h.store| <= |admins|
  {
    if callerId == Some(id) then Handled(admins, Err(BadRequest))
    else
      match FindAdmin(admins, id)
      case None => Handled(admins, Err(NotFound))
      case Some(k) => Handled(admins[..k] + admins[k + 1..], Ok(admins[k]))
  }

  /** An admin can never delete their own account: the store is kept
      whatever it holds. */
  lemma NoSelfDelete(admins: seq<Admin>, me: string)
    ensures DeleteAdmin(admins, me, Some(me)) == Handled(admins, Err(BadRequest))
    ensures HasAdminId(admins, me) ==> HasAdminId(DeleteAdmin(admins, me, Some(me)).store, me)
  {
  }

  // ------------------------------------------------------------------
  // Bookings seen by the admin

  /** `service?.price || 0` for `Service.findOne({ slug })`: the price of the
      first service with that slug, active or not, and 0 without one. */
  function PriceOf(services: seq<Service>, slug: string): (p: int)
    ensures !HasSlug(services, slug) ==> p == 0
    ensures HasSlug(services, slug) ==> p == services[FindBySlug(services, slug).value].price
  {
    match FindBySlug(services, slug)
    case None => 0
    case Some(k) => services[k].price
  }

  /** With unique slugs the price is the price of the one service with that
      slug. */
  lemma PriceOfUnique(services: seq<Service>, k: nat)
    requires SlugsUnique(services) && k < |services|
    ensures PriceOf(services, services[k].slug) == services[k].price
  {
    var j := FindBySlug(services, services[k].slug).value;
    assert j == k;
  }

  /** A booking with the price of its service. */
  datatype PricedBooking = PricedBooking(booking: Booking, servicePrice: int)

  function WithPrices(items: seq<Booking>, services: seq<Service>): (r: seq<PricedBooking>)
    ensures |r| == |items|
    ensures forall i :: 0 <= i < |r| ==> r[i].booking == items[i] && r[i].servicePrice == PriceOf(services, items[i].serviceSlug)
  {
    if items == [] then []
    else [PricedBooking(items[0], PriceOf(services, items[0].serviceSlug))] + WithPrices(items[1..], services)
  }

  const AdminDefaultLimit: int := 100

  /** `getAllBookingsAdmin`: the list query of `getAllBookings` with a
      default page size of 100, each booking given its service's price. */
  function GetAllBookingsAdmin(q: BookingQuery, store: seq<Booking>, services: seq<Service>,
                               parseDay: string -> Option<int>): (r: Result<Page<PricedBooking>>)
    ensures r.Err? <==> ListBookings(AdminDefaultLimit, q, store, parseDay).Err?
    ensures r.Err? ==> r.error == InternalError
    ensures r.Ok? ==>
      var p := ListBookings(AdminDefaultLimit, q, store, parseDay).value;
      r.value.page == p.page && r.value.limit == p.limit && r.value.total == p.total && r.value.pages == p.pages
      && |r.value.items| == |p.items|
      && forall i :: 0 <= i < |p.items| ==>
           r.value.items[i].booking == p.items[i]
           && r.value.items[i].servicePrice == PriceOf(services, p.items[i].serviceSlug)
    ensures r.Ok? && q.limit.None? ==> r.value.limit == AdminDefaultLimit && |r.value.items| <= AdminDefaultLimit
  {
    match ListBookings(AdminDefaultLimit, q, store, parseDay)
    case Err(e) => Err(e)
    case Ok(p) => Ok(Page(WithPrices(p.items, services), p.page, p.limit, p.total, p.pages))
  }

  /** `getBookingByIdAdmin`: a 404 for an unknown id, otherwise the booking
      with its service's price. */
  function GetBookingByIdAdmin(store: seq<Booking>, services: seq<Service>, id: string): (r: Result<PricedBooking>)
    ensures r.Ok? <==> HasId(store, id)
    ensures r.Err? ==> r.error == NotFound
    ensures r.Ok? ==> r.value.booking in store && r.value.booking.id == id
                      && r.value.servicePrice == PriceOf(services, r.value.booking.serviceSlug)
  {
    match GetBookingById(store, id)
    case Err(e) => Err(e)
    case Ok(b) => Ok(PricedBooking(b, PriceOf(services, b.serviceSlug)))
  }

  /** The update document `updateBookingStatusAdmin` builds. */
  datatype UpdateData = UpdateData(status: string, rejectionReason: Option<string>, cancelledAt: Option<int>)

  /** `updateData`: the status, and when it is "cancelled" with a truthy
      reason, the reason and the time of the cancellation too. */
  method BuildUpdateData(status: string, rejectionReason: Option<string>, now: int) returns (u: UpdateData)
    ensures u.status == status
    ensures u.rejectionReason.Some? <==> status == "cancelled" && Truthy(rejectionReason)
    ensures u.rejectionReason.Some? ==> u.rejectionReason == rejectionReason && u.cancelledAt == Some(now)
    ensures u.rejectionReason.None? ==> u.cancelledAt.None?
  {
    u := UpdateData(status, None, None);
    if status == "cancelled" && Truthy(rejectionReason) {
      u := u.(rejectionReason := rejectionReason);
      u := u.(cancelledAt := Some(now));
    }
  }

  /** `findByIdAndUpdate` under the schema's strict mode: a path the schema
      does not declare is dropped, so of `updateData` only `status` is
      written. */
  function StrictApply(b: Booking, u: UpdateData): (r: Booking)
    requires u.status in StatusNames
    ensures StatusName(r.status) == u.status
    ensures r == b.(status := r.status)
  {
    b.(status := ParseStatus(u.status).value)
  }

  /** The reason and the cancellation time never reach the stored booking. */
  lemma StrictApplyDropsExtras(b: Booking, u: UpdateData)
    requires u.status in StatusNames
    ensures StrictApply(b, u) == StrictApply(b, UpdateData(u.status, None, None))
  {
  }

  /** `updateBookingStatusAdmin`: a status outside the five of the schema is
      a 400; an unknown id is a 404; otherwise the booking takes the new
      status, whatever the old one was. `sent` is the update document. */
  method UpdateBookingStatusAdmin(store: seq<Booking>, id: string, status: Option<string>,
                                  rejectionReason: Option<string>, now: int)
    returns (h: Handled<seq<Booking>, Booking>, sent: Option<UpdateData>)
    ensures h.result == Err(BadRequest) <==> status.None? || status.value !in StatusNames
    ensures h.result == Err(NotFound) <==> status.Some? && status.value in StatusNames && !HasId(store, id)
    ensures h.result.Err? ==> h.result.error in {BadRequest, NotFound}
    ensures h.result.Err? ==> h.store == store
    ensures sent.Some? <==> status.Some? && status.value in StatusNames
    ensures sent.Some? ==> sent.value.status == status.value
                           && (sent.value.rejectionReason.Some? <==> status.value == "cancelled" && Truthy(rejectionReason))
    ensures h.result.Ok? ==>
      var k := FindById(store, id).value;
      StatusName(h.result.value.status) == status.value
      && h.result.value == store[k].(status := h.result.value.status)
      && h.store == store[k := h.result.value]
  {
    if status.None? || status.value !in StatusNames {
      return Handled(store, Err(BadRequest)), None;
    }
    var u := BuildUpdateData(status.value, rejectionReason, now);
    sent := Some(u);
    var found := FindById(store, id);
    if found.None? {
      return Handled(store, Err(NotFound)), sent;
    }
    var b := StrictApply(store[found.value], u);
    h := Handled(store[found.value := b], Ok(b));
  }

  /** Every transition between the five statuses is allowed: from any
      stored booking to any status of the schema. */
  lemma AnyTransitionAllowed(b: Booking, from: Status, to: Status)
    ensures StrictApply(b.(status := from), UpdateData(StatusName(to), None, None)).status == to
  {
    StatusNameRoundTrip(to);
  }

  // ------------------------------------------------------------------
  // Replacement booking

  /** The body of `createReplacementBooking`; `None` is an absent field. */
  datatype ReplacementRequest = ReplacementRequest(
    originalBookingId: Option<string>,
    serviceSlug: string,
    startTime: Option<string>,
    firstName: Option<string>,
    lastName: Option<string>,
    email: Option<string>,
    phone: Option<string>,
    notes: Option<string>)

  /** The statuses the replacement's conflict query blocks on. */
  const ReplacementBlocking: set<string> := {"pending", "validated", "payment_proof_submitted"}

  const ReplacementNote: string := "Remplacement suite annulation "

  /** `${x}` in a template string: an absent value prints as "undefined". */
  function Interpolate(x: Option<string>): string
  {
    if x.Some? then x.value else "undefined"
  }

  /** The notes of the replacement: the original notes and the reference to
      the cancelled booking on a line of its own, or the reference alone. */
  function ReplacementNotes(notes: Option<string>, originalBookingId: Option<string>): (r: string)
    ensures !Truthy(notes) ==> r == ReplacementNote + Interpolate(originalBookingId)
    ensures Truthy(notes) ==>
      var reference := ReplacementNote + Interpolate(originalBookingId);
      |r| == |notes.value| + |reference| + 3
      && r[..|notes.value|] == notes.value && r[|notes.value|..|notes.value| + 2] == "\n("
      && r[|notes.value| + 2..|r| - 1] == reference && r[|r| - 1] == ')'
  {
    var reference := ReplacementNote + Interpolate(originalBookingId);
    if Truthy(notes) then notes.value + "\n(" + reference + ")" else reference
  }

  /** The string fields the handler reads are present: `toLowerCase` on an
      absent e-mail throws, and the schema's `required` refuses an absent
      name or phone. */
  predicate ReplacementFieldsPresent(req: ReplacementRequest)
  {
    req.firstName.Some? && req.lastName.Some? && req.email.Some? && req.phone.Some?
  }

  /** The slot a replacement asks for: the service, the start and the end. */
  datatype Slot = Slot(service: Service, start: int, end: int)

  /** The guard chain of `createReplacementBooking` before the insert: an
      unknown or inactive service is a 404; an absent or invalid start makes
      the conflict query throw, a 500; an overlap with a pending, validated or
      proof-submitted booking is a 409. */
  function ReplacementSlot(req: ReplacementRequest, services: seq<Service>, store: seq<Booking>,
                           parse: string -> Option<int>): (r: Result<Slot>)
    ensures r == Err(NotFound) <==> FindActive(services, req.serviceSlug).None?
    ensures r == Err(Conflict) <==>
      FindActive(services, req.serviceSlug).Some? && req.startTime.Some? && parse(req.startTime.value).Some?
      && var start := parse(req.startTime.value).value;
      FindConflict(store, ReplacementBlocking, start,
                   start + FindActive(services, req.serviceSlug).value.duration * 60000).Some?
    ensures r.Err? ==> r.error in {NotFound, Conflict, InternalError}
    ensures r.Ok? ==>
      FindActive(services, req.serviceSlug) == Some(r.value.service)
      && req.startTime.Some? && parse(req.startTime.value) == Some(r.value.start)
      && r.value.end == r.value.start + r.value.service.duration * 60000
      && FindConflict(store, ReplacementBlocking, r.value.start, r.value.end).None?
  {
    match FindActive(services, req.serviceSlug)
    case None => Err(NotFound)
    case Some(svc) =>
      if req.startTime.None? then Err(InternalError)
      else
        match parse(req.startTime.value)
        case None => Err(InternalError)
        case Some(start) =>
          var end := start + svc.duration * 60000;
          if FindConflict(store, ReplacementBlocking, start, end).Some? then Err(Conflict)
          else Ok(Slot(svc, start, end))
  }

  /** The document `createReplacementBooking` hands to `Booking.create`. */
  function ReplacementDraft(req: ReplacementRequest, slot: Slot, newId: string): Booking
    requires ReplacementFieldsPresent(req)
  {
    Booking(newId, slot.service.slug, slot.service.name, req.firstName.value, req.lastName.value,
            NormalizeEmail(req.email.value), req.phone.value, ReplacementNotes(req.notes, req.originalBookingId),
            slot.start, slot.end, Validated, None, None)
  }

  /** `createReplacementBooking`: the guard chain, then a validated booking
      lasting the service's duration is stored; an absent name, e-mail or
      phone makes the insert throw, a 500. */
  function CreateReplacementBooking(req: ReplacementRequest, services: seq<Service>, store: seq<Booking>,
                                    parse: string -> Option<int>, newId: string): (h: Handled<seq<Booking>, Booking>)
    ensures ReplacementSlot(req, services, store, parse).Err? ==>
      h == Handled(store, Err(ReplacementSlot(req, services, store, parse).error))
    ensures h.result.Err? ==> h.store == store && h.result.error in {NotFound, Conflict, InternalError}
    ensures h.result.Ok? ==>
      var b := h.result.value;
      var slot := ReplacementSlot(req, services, store, parse);
      slot.Ok? && h.store == store + [b] && b.id == newId && b.status == Validated
      && b.serviceSlug == slot.value.service.slug && b.serviceName == slot.value.service.name
      && b.startTime == slot.value.start && b.endTime == slot.value.end
      && ReplacementFieldsPresent(req) && b.email == NormalizeEmail(req.email.value)
      && b.firstName == Trim(req.firstName.value) && b.lastName == Trim(req.lastName.value)
      && b.phone == Trim(req.phone.value)
      && b.notes == Trim(ReplacementNotes(req.notes, req.originalBookingId))
      && b.paymentProof.None? && b.paymentAmountReceived.None? && !HasId(store, newId)
    ensures h.result == Err(InternalError) <==>
      ReplacementSlot(req, services, store, parse) == Err(InternalError)
      || (ReplacementSlot(req, services, store, parse).Ok?
          && (!ReplacementFieldsPresent(req)
              || !ReplacementStorable(req, ReplacementSlot(req, services, store, parse).value.service)
              || HasId(store, newId)))
  {
    match ReplacementSlot(req, services, store, parse)
    case Err(e) => Handled(store, Err(e))
    case Ok(slot) =>
      if !ReplacementFieldsPresent(req) then Handled(store, Err(InternalError))
      else
        NormalizeEmailIdempotent(req.email.value);
        BookingModel.Create(store, ReplacementDraft(req, slot, newId))
  }

  /** What `Booking.create`'s required-field validators demand of a
      replacement: a service with a slug and a name, and names, e-mail and
      phone that are not blank once trimmed. */
  predicate ReplacementStorable(req: ReplacementRequest, svc: Service)
    requires ReplacementFieldsPresent(req)
  {
    svc.slug != "" && svc.name != ""
    && Trim(req.firstName.value) != "" && Trim(req.lastName.value) != ""
    && NormalizeEmail(req.email.value) != "" && Trim(req.phone.value) != ""
  }

  /** A stored replacement overlaps no pending, validated or proof-submitted
      booking of the store it was added to. */
  lemma ReplacementIsFree(req: ReplacementRequest, services: seq<Service>, store: seq<Booking>,
                          parse: string -> Option<int>, newId: string)
    requires CreateReplacementBooking(req, services, store, parse, newId).result.Ok?
    ensures var b := CreateReplacementBooking(req, services, store, parse, newId).result.value;
      forall i :: 0 <= i < |store| && StatusName(store[i].status) in ReplacementBlocking ==>
        !Overlaps(store[i].startTime, store[i].endTime, b.startTime, b.endTime)
  {
    var b := CreateReplacementBooking(req, services, store, parse, newId).result.value;
    forall i | 0 <= i < |store| && StatusName(store[i].status) in ReplacementBlocking
      ensures !Overlaps(store[i].startTime, store[i].endTime, b.startTime, b.endTime)
    {
      NoConflictDisjoint(store, ReplacementBlocking, b.startTime, b.endTime, i);
    }
  }

  /** A booking appended with a status the guard does not block on leaves
      the guard's answer as it was. */
  lemma ReplacementSlotSkipsAppended(req: ReplacementRequest, services: seq<Service>, store: seq<Booking>,
                                     parse: string -> Option<int>, x: Booking)
    requires StatusName(x.status) !in ReplacementBlocking
    ensures ReplacementSlot(req, services, store + [x], parse) == ReplacementSlot(req, services, store, parse)
  {
    match FindActive(services, req.serviceSlug)
    case None =>
    case Some(svc) =>
      if req.startTime.Some? && parse(req.startTime.value).Some? {
        var start := parse(req.startTime.value).value;
        FindConflictSkipsAppended(store, x, ReplacementBlocking, start, start + svc.duration * 60000);
      }
  }

  /** `Booking.create` answers the same on two stores that agree on the new
      record's id. */
  lemma CreateSameAnswer(a: seq<Booking>, t: seq<Booking>, b: Booking)
    requires HasId(a, b.id) == HasId(t, b.id)
    ensures BookingModel.Create(a, b).result == BookingModel.Create(t, b).result
  {
  }

  /** A completed or cancelled booking never blocks a replacement: adding
      one to the store leaves the answer as it was. */
  lemma ReplacementIgnoresCompletedAndCancelled(req: ReplacementRequest, services: seq<Service>, store: seq<Booking>,
                                                parse: string -> Option<int>, newId: string, x: Booking)
    requires x.status == Completed || x.status == Cancelled
    requires x.id != newId
    ensures CreateReplacementBooking(req, services, store + [x], parse, newId).result
         == CreateReplacementBooking(req, services, store, parse, newId).result
  {
    var t := store + [x];
    ReplacementSlotSkipsAppended(req, services, store, parse, x);
    assert HasId(t, newId) == HasId(store, newId) by {
      if HasId(t, newId) {
        var i :| 0 <= i < |t| && t[i].id == newId;
        assert i < |store| && store[i].id == newId;
      }
      if HasId(store, newId) {
        var i :| 0 <= i < |store| && store[i].id == newId;
        assert t[i].id == newId;
      }
    }
    var slot := ReplacementSlot(req, services, store, parse);
    if slot.Ok? && ReplacementFieldsPresent(req) {
      CreateSameAnswer(store, t, ReplacementDraft(req, slot.value, newId));
    }
  }

  // ------------------------------------------------------------------
  // Contact inbox

  /** The query of `getAllContactMessages`. */
  datatype ContactQuery = ContactQuery(status: Option<string>, page: Option<int>, limit: Option<int>)

  const ContactDefaultLimit: int := 20

  predicate ContactMatches(m: ContactMessage, status: Option<string>)
  {
    !Truthy(status) || ContactStatusName(m.status) == status.value
  }

  /** `find(filter)` over the contact messages. */
  function SelectContacts(store: seq<ContactMessage>, status: Option<string>): (r: seq<ContactMessage>)
    ensures forall m :: multiset(r)[m] == if ContactMatches(m, status) then multiset(store)[m] else 0
    ensures forall i :: 0 <= i < |r| ==> ContactMatches(r[i], status) && r[i] in store
  {
    if store == [] then []
    else
      assert store == [store[0]] + store[1..];
      var rest := SelectContacts(store[1..], status);
      if ContactMatches(store[0], status) then [store[0]] + rest else rest
  }

  /** Entries taken from the selection match the status and are stored. */
  lemma ContactWindowMembers(w: seq<ContactMessage>, store: seq<ContactMessage>, status: Option<string>)
    requires forall i :: 0 <= i < |w| ==> w[i] in SelectContacts(store, status)
    ensures forall i :: 0 <= i < |w| ==> ContactMatches(w[i], status) && w[i] in store
  {
    var m := SelectContacts(store, status);
    forall i | 0 <= i < |w| ensures ContactMatches(w[i], status) && w[i] in store {
      var j :| 0 <= j < |m| && m[j] == w[i];
    }
  }

  function ContactCreatedKey(m: ContactMessage): int
  {
    m.createdAt
  }

  /** `getAllContactMessages`: the messages with the status asked for (all
      of them without one), newest first, paginated with a default page size
      of 20; a negative skip throws. */
  function GetAllContactMessages(store: seq<ContactMessage>, q: ContactQuery): (r: Result<Page<ContactMessage>>)
    ensures var page := if q.page.Some? then q.page.value else 1;
      var limit := if q.limit.Some? then q.limit.value else ContactDefaultLimit;
      r.Err? <==> (page - 1) * limit < 0
    ensures r.Ok? ==>
      IsPage(r.value, SelectContacts(store, q.status), ContactCreatedKey,
             if q.page.Some? then q.page.value else 1, if q.limit.Some? then q.limit.value else ContactDefaultLimit)
      && forall i :: 0 <= i < |r.value.items| ==> ContactMatches(r.value.items[i], q.status) && r.value.items[i] in store
  {
    var page := if q.page.Some? then q.page.value else 1;
    var limit := if q.limit.Some? then q.limit.value else ContactDefaultLimit;
    var matches := SelectContacts(store, q.status);
    var r := Paginate(matches, ContactCreatedKey, page, limit);
    if r.Ok? then
      ContactWindowMembers(r.value.items, store, q.status);
      r
    else r
  }

  /** The position of the message with that id. */
  function FindContact(store: seq<ContactMessage>, id: string): (r: Option<nat>)
    ensures r.Some? <==> HasContactId(store, id)
    ensures r.Some? ==> r.value < |store| && store[r.value].id == id
  {
    if store == [] then None
    else if store[0].id == id then Some(0)
    else
      match FindContact(store[1..], id)
      case None => None
      case Some(k) => Some(k + 1)
  }

  /** `markContactAsRead`: an unknown id is a 404; otherwise that message's
      status becomes `read`. */
  function MarkContactAsRead(store: seq<ContactMessage>, id: string): (h: Handled<seq<ContactMessage>, ContactMessage>)
    ensures h.result.Err? <==> !HasContactId(store, id)
    ensures h.result.Err? ==> h == Handled(store, Err(NotFound))
    ensures h.result.Ok? ==>
      var k := FindContact(store, id).value;
      h.result.value == store[k].(status := Read) && h.store == store[k := h.result.value]
  {
    match FindContact(store, id)
    case None => Handled(store, Err(NotFound))
    case Some(k) => Handled(store[k := store[k].(status := Read)], Ok(store[k].(status := Read)))
  }

  /** Marking a message read twice is marking it once. */
  lemma MarkReadIdempotent(store: seq<ContactMessage>, id: string)
    requires HasContactId(store, id)
    ensures var h := MarkContactAsRead(store, id);
      MarkContactAsRead(h.store, id) == h
  {
    var h := MarkContactAsRead(store, id);
    var k := FindContact(store, id).value;
    assert FindContact(h.store, id) == Some(k) by {
      FindContactSameIds(store, h.store, id);
    }
    assert h.store[k := h.store[k].(status := Read)] == h.store;
  }

  lemma {:induction false} FindContactSameIds(a: seq<ContactMessage>, b: seq<ContactMessage>, id: string)
    requires |a| == |b| && forall j :: 0 <= j < |a| ==> a[j].id == b[j].id
    ensures FindContact(a, id) == FindContact(b, id)
  {
    if a != [] {
      FindContactSameIds(a[1..], b[1..], id);
    }
  }
}
