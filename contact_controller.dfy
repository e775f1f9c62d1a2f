/** The contact form: a message record (name, e-mail, optional phone,
    subject, text, a status that starts at `new`), and `submitContact`, which
    checks the four required fields and stores the message with its text
    trimmed and its e-mail lower-cased. */
module ContactController {
  import opened Common
  import opened Text

  datatype ContactStatus = New | Read | Responded

  function ContactStatusName(s: ContactStatus): (r: string)
    ensures r in {"new", "read", "responded"}
  {
    match s
    case New => "new"
    case Read => "read"
    case Responded => "responded"
  }

  lemma ContactStatusNameInjective(a: ContactStatus, b: ContactStatus)
    ensures ContactStatusName(a) == ContactStatusName(b) ==> a == b
  {
  }

  /** A stored contact message; `createdAt` is the timestamp the schema adds. */
  datatype ContactMessage = ContactMessage(
    id: string,
    name: string,
    email: string,
    phone: string,
    subject: string,
    message: string,
    status: ContactStatus,
    createdAt: int)

  /** The `trim` and `lowercase` setters of the message schema. */
  function ContactSetters(m: ContactMessage): (r: ContactMessage)
    ensures r.name == Trim(m.name) && r.email == NormalizeEmail(m.email) && r.phone == Trim(m.phone)
    ensures r.subject == Trim(m.subject) && r.message == Trim(m.message)
    ensures r.id == m.id && r.status == m.status && r.createdAt == m.createdAt
  {
    m.(name := Trim(m.name), email := NormalizeEmail(m.email), phone := Trim(m.phone),
       subject := Trim(m.subject), message := Trim(m.message))
  }

  predicate HasContactId(store: seq<ContactMessage>, id: string)
  {
    exists i :: 0 <= i < |store| && store[i].id == id
  }

  /** The fields of a contact form; `None` is an absent field. */
  datatype ContactRequest = ContactRequest(
    name: Option<string>,
    email: Option<string>,
    phone: Option<string>,
    subject: Option<string>,
    message: Option<string>)

  /** The validation: the four required fields are truthy. */
  predicate ContactFieldsPresent(req: ContactRequest)
  {
    Truthy(req.name) && Truthy(req.email) && Truthy(req.subject) && Truthy(req.message)
  }

  /** `phone?.trim() || ''`. */
  function PhoneOf(phone: Option<string>): (r: string)
    ensures phone.None? ==> r == ""
    ensures Trimmed(r)
  {
    if phone.Some? then Trim(phone.value) else ""
  }

  /** `submitContact`: a missing required field is a 400; otherwise the
      message is stored trimmed, with the e-mail lower-cased, an absent phone
      as "", and status `new`. A required field that is blank once trimmed
      fails the schema's `required` validator, and a taken id the unique
      index: both throw and are a 500. */
  function SubmitContact(req: ContactRequest, store: seq<ContactMessage>, now: int, newId: string)
    : (h: Handled<seq<ContactMessage>, ContactMessage>)
    ensures h.result == Err(BadRequest) <==> !ContactFieldsPresent(req)
    ensures h.result.Err? ==> h.store == store && h.result.error in {BadRequest, InternalError}
    ensures h.result.Ok? <==>
      ContactFieldsPresent(req) && !HasContactId(store, newId)
      && Trim(req.name.value) != "" && NormalizeEmail(req.email.value) != ""
      && Trim(req.subject.value) != "" && Trim(req.message.value) != ""
    ensures h.result.Ok? ==>
      var m := h.result.value;
      h.store == store + [m] && m.id == newId && m.status == New && m.createdAt == now
      && m.name == Trim(req.name.value) && m.email == NormalizeEmail(req.email.value)
      && m.phone == PhoneOf(req.phone) && m.subject == Trim(req.subject.value)
      && m.message == Trim(req.message.value)
  {
    if !ContactFieldsPresent(req) then Handled(store, Err(BadRequest))
    else
      var draft := ContactMessage(newId, Trim(req.name.value), NormalizeEmail(req.email.value),
                                  PhoneOf(req.phone), Trim(req.subject.value), Trim(req.message.value), New, now);
      var m := ContactSetters(draft);
      TrimIdempotent(req.name.value);
      NormalizeEmailIdempotent(req.email.value);
      TrimOfTrimmed(draft.phone);
      TrimIdempotent(req.subject.value);
      TrimIdempotent(req.message.value);
      if m.name != "" && m.email != "" && m.subject != "" && m.message != "" && !HasContactId(store, newId) then
        Handled(store + [m], Ok(m))
      else Handled(store, Err(InternalError))
  }

  /** A stored message is a fixed point of the schema's setters. */
  lemma SubmitContactNormalized(req: ContactRequest, store: seq<ContactMessage>, now: int, newId: string)
    requires SubmitContact(req, store, now, newId).result.Ok?
    ensures var m := SubmitContact(req, store, now, newId).result.value;
      ContactSetters(m) == m
  {
    var m := SubmitContact(req, store, now, newId).result.value;
    TrimIdempotent(req.name.value);
    NormalizeEmailIdempotent(req.email.value);
    TrimIdempotent(m.phone);
    TrimIdempotent(req.subject.value);
    TrimIdempotent(req.message.value);
  }

  /** A name of spaces passes the truthiness check and is refused by the
      schema instead: a 500, not a 400. */
  lemma BlankNameIsServerError(req: ContactRequest, store: seq<ContactMessage>, now: int, newId: string)
    requires Truthy(req.email) && Truthy(req.subject) && Truthy(req.message)
    requires req.name == Some(" ")
    ensures SubmitContact(req, store, now, newId).result == Err(InternalError)
  {
    TrimAllWhitespace(" ");
  }
}
