/** The Booking collection's schema: the record, the status enumeration and
    its default, the string setters (`trim`, `lowercase`) applied on save, the
    required-field validation, and the unique `_id`. */
module BookingModel {
  import opened Common
  import opened Text

  datatype Status = Pending | PaymentProofSubmitted | Validated | Cancelled | Completed

  /** The status strings as stored. */
  function StatusName(s: Status): string
  {
    match s
    case Pending => "pending"
    case PaymentProofSubmitted => "payment_proof_submitted"
    case Validated => "validated"
    case Cancelled => "cancelled"
    case Completed => "completed"
  }

  /** The schema's `enum`. */
  const StatusNames: set<string> :=
    {"pending", "payment_proof_submitted", "validated", "cancelled", "completed"}

  /** The schema's `default`. */
  const DefaultStatus: Status := Pending

  /** The enum validator: which strings name a status. */
  function ParseStatus(name: string): (r: Option<Status>)
    ensures r.Some? <==> name in StatusNames
    ensures r.Some? ==> StatusName(r.value) == name
  {
    if name == "pending" then Some(Pending)
    else if name == "payment_proof_submitted" then Some(PaymentProofSubmitted)
    else if name == "validated" then Some(Validated)
    else if name == "cancelled" then Some(Cancelled)
    else if name == "completed" then Some(Completed)
    else None
  }

  lemma StatusNameRoundTrip(s: Status)
    ensures StatusName(s) in StatusNames
    ensures ParseStatus(StatusName(s)) == Some(s)
  {
  }

  /** Different statuses are stored as different strings. */
  lemma StatusNameInjective(a: Status, b: Status)
    requires StatusName(a) == StatusName(b)
    ensures a == b
  {
    StatusNameRoundTrip(a);
    StatusNameRoundTrip(b);
  }

  /** One booking document; instants are milliseconds since the epoch. */
  datatype Booking = Booking(
    id: string,
    serviceSlug: string,
    serviceName: string,
    firstName: string,
    lastName: string,
    email: string,
    phone: string,
    notes: string,
    startTime: int,
    endTime: int,
    status: Status,
    paymentProof: Option<string>,
    paymentAmountReceived: Option<int>)

  /** The `trim` and `lowercase` setters of the schema. */
  function ApplySetters(b: Booking): (r: Booking)
    ensures r.firstName == Trim(b.firstName) && r.lastName == Trim(b.lastName)
    ensures r.phone == Trim(b.phone) && r.notes == Trim(b.notes)
    ensures r.email == NormalizeEmail(b.email)
    ensures r.id == b.id && r.serviceSlug == b.serviceSlug && r.serviceName == b.serviceName
    ensures r.startTime == b.startTime && r.endTime == b.endTime && r.status == b.status
    ensures r.paymentProof == b.paymentProof && r.paymentAmountReceived == b.paymentAmountReceived
  {
    b.(firstName := Trim(b.firstName), lastName := Trim(b.lastName),
       email := NormalizeEmail(b.email), phone := Trim(b.phone), notes := Trim(b.notes))
  }

  /** What every stored booking looks like after its setters ran. */
  predicate Normalized(b: Booking)
  {
    Trimmed(b.firstName) && Trimmed(b.lastName) && Trimmed(b.phone) && Trimmed(b.notes)
    && Trimmed(b.email) && ToLower(b.email) == b.email
  }

  lemma ApplySettersNormalizes(b: Booking)
    ensures Normalized(ApplySetters(b))
  {
  }

  /** Running the setters on a normalised record changes nothing. */
  lemma ApplySettersIdempotent(b: Booking)
    ensures ApplySetters(ApplySetters(b)) == ApplySetters(b)
  {
    TrimIdempotent(b.firstName);
    TrimIdempotent(b.lastName);
    TrimIdempotent(b.phone);
    TrimIdempotent(b.notes);
    NormalizeEmailIdempotent(b.email);
  }

  /** The `required` validators: a required string must not be empty. */
  predicate RequiredPresent(b: Booking)
  {
    b.serviceSlug != "" && b.serviceName != "" && b.firstName != "" && b.lastName != ""
    && b.email != "" && b.phone != ""
  }

  predicate HasId(store: seq<Booking>, id: string)
  {
    exists i :: 0 <= i < |store| && store[i].id == id
  }

  /** `_id` is the collection's primary key. */
  predicate IdsUnique(store: seq<Booking>)
  {
    forall i, j :: 0 <= i < j < |store| ==> store[i].id != store[j].id
  }

  /** `Booking.create`: run the setters, validate, insert at the end. A
      failed validation or a duplicate `_id` throws, which the handlers turn
      into a 500. */
  function Create(store: seq<Booking>, b: Booking): (h: Handled<seq<Booking>, Booking>)
    ensures h.result.Ok? <==> RequiredPresent(ApplySetters(b)) && !HasId(store, b.id)
    ensures h.result.Ok? ==> h.result.value == ApplySetters(b) && h.store == store + [h.result.value]
    ensures h.result.Ok? ==> Normalized(h.result.value)
    ensures h.result.Err? ==> h == Handled(store, Err(InternalError))
    ensures IdsUnique(store) ==> IdsUnique(h.store)
  {
    var r := ApplySetters(b);
    ApplySettersNormalizes(b);
    if RequiredPresent(r) && !HasId(store, b.id) then
      AppendKeepsIdsUnique(store, r);
      Handled(store + [r], Ok(r))
    else Handled(store, Err(InternalError))
  }

  lemma AppendKeepsIdsUnique(store: seq<Booking>, b: Booking)
    requires !HasId(store, b.id)
    ensures IdsUnique(store) ==> IdsUnique(store + [b])
  {
  }

  /** `findById`. */
  function FindById(store: seq<Booking>, id: string): (r: Option<nat>)
    ensures r.Some? <==> HasId(store, id)
    ensures r.Some? ==> r.value < |store| && store[r.value].id == id
    ensures r.Some? ==> forall k :: 0 <= k < r.value ==> store[k].id != id
  {
    if store == [] then None
    else if store[0].id == id then Some(0)
    else
      match FindById(store[1..], id)
      case None => None
      case Some(k) => Some(k + 1)
  }

  /** `findByIdAndDelete`: removes the record with that id, if any. */
  function DeleteById(store: seq<Booking>, id: string): (h: Handled<seq<Booking>, Booking>)
    requires IdsUnique(store)
    ensures h.result.Err? <==> !HasId(store, id)
    ensures h.result.Err? ==> h == Handled(store, Err(NotFound))
    ensures h.result.Ok? ==> h.result.value in store && h.result.value.id == id
    ensures h.result.Ok? ==> !HasId(h.store, id) && |h.store| == |store| - 1
    ensures forall b :: b in h.store <==> b in store && b.id != id
    ensures IdsUnique(h.store)
  {
    match FindById(store, id)
    case None => Handled(store, Err(NotFound))
    case Some(k) =>
      var rest := store[..k] + store[k + 1..];
      RemoveUnique(store, k);
      Handled(rest, Ok(store[k]))
  }

  /** Dropping the record at `k` from a store with unique ids leaves every
      other record, and nothing with its id. */
  lemma RemoveUnique(store: seq<Booking>, k: nat)
    requires IdsUnique(store) && k < |store|
    ensures var rest := store[..k] + store[k + 1..];
      && |rest| == |store| - 1 && IdsUnique(rest) && !HasId(rest, store[k].id)
      && forall b :: b in rest <==> b in store && b.id != store[k].id
  {
    var rest := store[..k] + store[k + 1..];
    assert store == store[..k] + [store[k]] + store[k + 1..];
    assert forall i :: 0 <= i < |rest| ==> rest[i] == store[if i < k then i else i + 1];
  }

  /** Replace the record at position `k` (an `update…` that matched it). */
  function ReplaceAt(store: seq<Booking>, k: nat, b: Booking): (r: seq<Booking>)
    requires k < |store| && b.id == store[k].id
    ensures |r| == |store| && r[k] == b
    ensures forall i :: 0 <= i < |store| && i != k ==> r[i] == store[i]
    ensures IdsUnique(store) ==> IdsUnique(r)
  {
    store[k := b]
  }
}
