/** The service catalogue handlers: list (active only unless asked
    otherwise), read by slug, create (required fields, duplicate slug),
    update (the slug cannot change) and the soft delete that only clears
    `active`. */
module ServiceController {
  import opened Common
  import opened Text
  import opened Cursor
  import opened Seqs
  import opened ServiceModel

  function IsActive(s: Service): bool
  {
    s.active
  }

  /** `.sort({ createdAt: 1 })` is the descending sort of the negated
      timestamp. */
  function NegCreated(s: Service): int
  {
    -s.createdAt
  }

  /** `getAllServices`: the active services, or all of them when
      `includeInactive` is exactly the string "true", oldest first. */
  function GetAllServices(services: seq<Service>, includeInactive: Option<string>): (r: seq<Service>)
    ensures includeInactive == Some("true") ==> multiset(r) == multiset(services)
    ensures includeInactive != Some("true") ==>
      forall s :: multiset(r)[s] == if s.active then multiset(services)[s] else 0
    ensures forall i :: 0 <= i < |r| ==> r[i] in services
    ensures forall i, j :: 0 <= i < j < |r| ==> r[i].createdAt <= r[j].createdAt
  {
    var listed := if includeInactive == Some("true") then services else Filter(services, IsActive);
    var r := SortDesc(listed, NegCreated);
    assert forall i, j :: 0 <= i < j < |r| ==> NegCreated(r[i]) >= NegCreated(r[j]);
    assert forall i :: 0 <= i < |r| ==> r[i] in services by {
      forall i | 0 <= i < |r| ensures r[i] in services {
        assert r[i] in multiset(r);
      }
    }
    r
  }

  /** Any other value of the flag, "1" or "yes" included, lists only the
      active services. */
  lemma InactiveHiddenByDefault(services: seq<Service>, flag: Option<string>, s: Service)
    requires flag != Some("true") && !s.active
    ensures s !in GetAllServices(services, flag)
  {
    assert multiset(GetAllServices(services, flag))[s] == 0;
  }

  /** `getServiceBySlug`: found whether active or not; a 404 otherwise. */
  function GetServiceBySlug(services: seq<Service>, slug: string): (r: Result<Service>)
    ensures r.Ok? <==> HasSlug(services, slug)
    ensures r.Err? ==> r.error == NotFound
    ensures r.Ok? ==> r.value in services && r.value.slug == slug
  {
    match FindBySlug(services, slug)
    case None => Err(NotFound)
    case Some(k) => Ok(services[k])
  }

  /** An inactive service is still found by slug, though the booking
      handlers' `FindActive` does not find it. */
  lemma InactiveStillFound(services: seq<Service>, k: nat)
    requires SlugsUnique(services) && k < |services| && !services[k].active
    ensures GetServiceBySlug(services, services[k].slug) == Ok(services[k])
    ensures FindActive(services, services[k].slug).None?
  {
    var r := GetServiceBySlug(services, services[k].slug);
    var i :| 0 <= i < |services| && services[i] == r.value;
    assert i == k;
    FindActiveUnique(services, k);
  }

  /** The body of `createService`; `None` is an absent field. */
  datatype ServiceRequest = ServiceRequest(
    slug: Option<string>,
    name: Option<string>,
    description: Option<string>,
    price: Option<int>,
    duration: Option<int>,
    active: Option<bool>)

  /** `!slug || !name || !price || !duration`: a price or a duration of 0 is
      missing too. */
  predicate ServiceFieldsPresent(req: ServiceRequest)
  {
    Truthy(req.slug) && Truthy(req.name) && req.price.Some? && req.price.value != 0
    && req.duration.Some? && req.duration.value != 0
  }

  /** `active !== undefined ? active : true`. */
  function ActiveOf(active: Option<bool>): bool
  {
    if active.Some? then active.value else true
  }

  /** `createService`: a missing field is a 400 and a slug already stored a
      409; otherwise the service is created, active unless the request says
      otherwise. The slug is looked up as given and stored trimmed, so a slug
      that only matches once trimmed fails the unique index, as does one that
      trims to nothing the `required` validator: both are a 500. */
  function CreateService(req: ServiceRequest, services: seq<Service>, now: int): (h: Handled<seq<Service>, Service>)
    ensures h.result == Err(BadRequest) <==> !ServiceFieldsPresent(req)
    ensures h.result == Err(Conflict) <==> ServiceFieldsPresent(req) && HasSlug(services, req.slug.value)
    ensures h.result.Err? ==> h.store == services && h.result.error in {BadRequest, Conflict, InternalError}
    ensures h.result.Ok? ==>
      var s := h.result.value;
      ServiceFieldsPresent(req) && h.store == services + [s]
      && s.slug == Trim(req.slug.value) && s.slug != "" && !HasSlug(services, s.slug)
      && s.name == req.name.value && s.description == req.description
      && s.price == req.price.value && s.duration == req.duration.value
      && s.active == ActiveOf(req.active) && s.createdAt == now
    ensures SlugsUnique(services) ==> SlugsUnique(h.store)
  {
    if !ServiceFieldsPresent(req) then Handled(services, Err(BadRequest))
    else if HasSlug(services, req.slug.value) then Handled(services, Err(Conflict))
    else
      ServiceModel.Create(services, Service(req.slug.value, req.name.value, req.description,
                                            req.price.value, req.duration.value, ActiveOf(req.active), now))
  }

  /** A free service, priced 0, cannot be created: the price is falsy. */
  lemma ZeroPriceRejected(req: ServiceRequest, services: seq<Service>, now: int)
    requires req.price == Some(0)
    ensures CreateService(req, services, now) == Handled(services, Err(BadRequest))
  {
  }

  /** The body of `updateService`: any subset of the fields. */
  datatype ServiceUpdate = ServiceUpdate(
    slug: Option<string>,
    name: Option<string>,
    description: Option<string>,
    price: Option<int>,
    duration: Option<int>,
    active: Option<bool>)

  /** `delete updates.slug`. */
  function WithoutSlug(u: ServiceUpdate): (r: ServiceUpdate)
    ensures r.slug.None?
    ensures r.(slug := u.slug) == u
  {
    u.(slug := None)
  }

  /** The fields of `s` that `u` names take their new values. */
  function ApplyServiceUpdate(s: Service, u: ServiceUpdate): (r: Service)
    ensures r.slug == (if u.slug.Some? then u.slug.value else s.slug)
    ensures r.createdAt == s.createdAt
    ensures r.name == (if u.name.Some? then u.name.value else s.name)
    ensures r.active == (if u.active.Some? then u.active.value else s.active)
  {
    Service(if u.slug.Some? then u.slug.value else s.slug,
            if u.name.Some? then u.name.value else s.name,
            if u.description.Some? then u.description else s.description,
            if u.price.Some? then u.price.value else s.price,
            if u.duration.Some? then u.duration.value else s.duration,
            if u.active.Some? then u.active.value else s.active,
            s.createdAt)
  }

  /** `updateService`: the slug is dropped from the update, which is then
      validated (an empty name fails `required`: a 500) and applied to the
      service with the slug of the path; an unknown slug is a 404. */
  function UpdateService(services: seq<Service>, slug: string, updates: ServiceUpdate)
    : (h: Handled<seq<Service>, Service>)
    ensures h.result == Err(InternalError) <==> updates.name == Some("")
    ensures h.result == Err(NotFound) <==> updates.name != Some("") && !HasSlug(services, slug)
    ensures h.result.Err? ==> h.store == services
    ensures h.result.Ok? ==>
      var k := FindBySlug(services, slug).value;
      h.result.value.slug == slug && h.result.value.createdAt == services[k].createdAt
      && h.result.value == ApplyServiceUpdate(services[k], WithoutSlug(updates))
      && h.store == services[k := h.result.value]
    ensures |h.store| == |services| && forall i :: 0 <= i < |services| ==> h.store[i].slug == services[i].slug
    ensures SlugsUnique(services) ==> SlugsUnique(h.store)
  {
    var u := WithoutSlug(updates);
    if u.name == Some("") then Handled(services, Err(InternalError))
    else
      match FindBySlug(services, slug)
      case None => Handled(services, Err(NotFound))
      case Some(k) =>
        var s := ApplyServiceUpdate(services[k], u);
        Handled(services[k := s], Ok(s))
  }

  /** A new slug in the body is ignored. */
  lemma SlugFrozen(services: seq<Service>, slug: string, updates: ServiceUpdate)
    requires UpdateService(services, slug, updates).result.Ok?
    ensures UpdateService(services, slug, updates) == UpdateService(services, slug, updates.(slug := None))
  {
  }

  /** `deleteService`: the service is kept, with `active` cleared; an unknown
      slug is a 404. */
  function DeleteService(services: seq<Service>, slug: string): (h: Handled<seq<Service>, Service>)
    ensures h.result.Err? <==> !HasSlug(services, slug)
    ensures h.result.Err? ==> h == Handled(services, Err(NotFound))
    ensures h.result.Ok? ==>
      var k := FindBySlug(services, slug).value;
      h.result.value == services[k].(active := false) && h.store == services[k := h.result.value]
    ensures |h.store| == |services| && forall i :: 0 <= i < |services| ==> h.store[i].slug == services[i].slug
  {
    match FindBySlug(services, slug)
    case None => Handled(services, Err(NotFound))
    case Some(k) => Handled(services[k := services[k].(active := false)], Ok(services[k].(active := false)))
  }

  /** After the soft delete the service is still found by slug, but no
      longer offered for booking. */
  lemma SoftDeleteKeepsRecord(services: seq<Service>, slug: string)
    requires SlugsUnique(services) && HasSlug(services, slug)
    ensures var h := DeleteService(services, slug);
      GetServiceBySlug(h.store, slug).Ok? && FindActive(h.store, slug).None?
  {
    var h := DeleteService(services, slug);
    var k := FindBySlug(services, slug).value;
    assert SlugsUnique(h.store);
    assert h.store[k].slug == slug && !h.store[k].active;
    InactiveStillFound(h.store, k);
  }
}
