/** The Service collection's schema: a unique, trimmed slug; a required name,
    price and duration (minutes); an optional description; `active` defaulting
    to true. */
module ServiceModel {
  import opened Common
  import opened Text

  datatype Service = Service(
    slug: string,
    name: string,
    description: Option<string>,
    price: int,
    duration: int,
    active: bool,
    createdAt: int)

  predicate HasSlug(services: seq<Service>, slug: string)
  {
    exists i :: 0 <= i < |services| && services[i].slug == slug
  }

  /** The unique index on `slug`. */
  predicate SlugsUnique(services: seq<Service>)
  {
    forall i, j :: 0 <= i < j < |services| ==> services[i].slug != services[j].slug
  }

  /** `Service.findOne({ slug })`: active or not. */
  function FindBySlug(services: seq<Service>, slug: string): (r: Option<nat>)
    ensures r.Some? <==> HasSlug(services, slug)
    ensures r.Some? ==> r.value < |services| && services[r.value].slug == slug
  {
    if services == [] then None
    else if services[0].slug == slug then Some(0)
    else
      match FindBySlug(services[1..], slug)
      case None => None
      case Some(k) => Some(k + 1)
  }

  /** `Service.findOne({ slug, active: true })`: a service with that slug that
      is active; an inactive one is not found. */
  function FindActive(services: seq<Service>, slug: string): (r: Option<Service>)
    ensures r.Some? <==> exists i :: 0 <= i < |services| && services[i].slug == slug && services[i].active
    ensures r.Some? ==> r.value in services && r.value.slug == slug && r.value.active
  {
    if services == [] then None
    else if services[0].slug == slug && services[0].active then Some(services[0])
    else FindActive(services[1..], slug)
  }

  /** With unique slugs, an active service is found exactly when the one
      service with that slug is active. */
  lemma FindActiveUnique(services: seq<Service>, k: nat)
    requires SlugsUnique(services) && k < |services|
    ensures FindActive(services, services[k].slug).Some? <==> services[k].active
    ensures services[k].active ==> FindActive(services, services[k].slug) == Some(services[k])
  {
    var s := services[k].slug;
    var r := FindActive(services, s);
    if r.Some? {
      var i :| 0 <= i < |services| && services[i] == r.value;
      assert i == k;
    }
  }

  /** `Service.create`: the slug setter trims, `required` rejects an empty
      name or slug, and a slug already stored violates the unique index. */
  function Create(services: seq<Service>, s: Service): (h: Handled<seq<Service>, Service>)
    ensures h.result.Ok? <==> Trim(s.slug) != "" && s.name != "" && !HasSlug(services, Trim(s.slug))
    ensures h.result.Ok? ==> h.result.value == s.(slug := Trim(s.slug)) && h.store == services + [h.result.value]
    ensures h.result.Err? ==> h == Handled(services, Err(InternalError))
    ensures SlugsUnique(services) ==> SlugsUnique(h.store)
  {
    var r := s.(slug := Trim(s.slug));
    if r.slug != "" && r.name != "" && !HasSlug(services, r.slug) then
      Handled(services + [r], Ok(r))
    else Handled(services, Err(InternalError))
  }
}
