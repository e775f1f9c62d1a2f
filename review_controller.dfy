/** Customer reviews: the record, `submitReview` (four required fields and a
    rating between 1 and 5, stored as `pending`) and `getApprovedReviews`
    (the ten newest approved reviews and the count of all of them). The
    status is kept as the stored string: the schema's enum is only checked
    on create, and an update can store a string outside it. */
module ReviewController {
  import opened Common
  import opened Text
  import opened Cursor
  import opened Seqs

  datatype Review = Review(
    id: string,
    name: string,
    service: string,
    rating: int,
    text: string,
    date: int,
    helpful: int,
    status: string,
    createdAt: int)

  /** The statuses of the schema's enum; `pending` is its default. */
  const ReviewStatuses: set<string> := {"pending", "approved", "rejected"}
  const ApprovedStatus: string := "approved"

  predicate HasReviewId(store: seq<Review>, id: string)
  {
    exists i :: 0 <= i < |store| && store[i].id == id
  }

  /** The fields of a review form; `None` is an absent field. */
  datatype ReviewRequest = ReviewRequest(
    name: Option<string>,
    service: Option<string>,
    rating: Option<int>,
    text: Option<string>)

  /** `!name || !service || !rating || !text`: a rating of 0 is falsy too. */
  predicate ReviewFieldsMissing(req: ReviewRequest)
  {
    !Truthy(req.name) || !Truthy(req.service) || req.rating.None? || req.rating == Some(0) || !Truthy(req.text)
  }

  /** `submitReview`: a missing field or a rating outside 1..5 is a 400;
      otherwise the review is stored as `pending` with its name, service and
      text trimmed, no helpful votes, and dated `now`. A name, service or
      text that is blank once trimmed fails `required`, and a taken id the
      unique index: both are a 500. */
  function SubmitReview(req: ReviewRequest, store: seq<Review>, now: int, newId: string)
    : (h: Handled<seq<Review>, Review>)
    ensures h.result == Err(BadRequest) <==>
      ReviewFieldsMissing(req) || req.rating.value < 1 || req.rating.value > 5
    ensures h.result.Err? ==> h.store == store && h.result.error in {BadRequest, InternalError}
    ensures h.result.Ok? <==>
      !ReviewFieldsMissing(req) && 1 <= req.rating.value <= 5 && !HasReviewId(store, newId)
      && Trim(req.name.value) != "" && Trim(req.service.value) != "" && Trim(req.text.value) != ""
    ensures h.result.Ok? ==>
      var r := h.result.value;
      h.store == store + [r] && r.id == newId && r.status == "pending" && r.status in ReviewStatuses
      && 1 <= r.rating <= 5 && r.rating == req.rating.value && r.helpful == 0 && r.date == now
      && r.name == Trim(req.name.value) && r.service == Trim(req.service.value) && r.text == Trim(req.text.value)
      && Trimmed(r.name) && Trimmed(r.text)
  {
    if ReviewFieldsMissing(req) then Handled(store, Err(BadRequest))
    else if req.rating.value < 1 || req.rating.value > 5 then Handled(store, Err(BadRequest))
    else
      var name := Trim(req.name.value);
      var text := Trim(req.text.value);
      TrimIdempotent(req.name.value);
      TrimIdempotent(req.text.value);
      var r := Review(newId, Trim(name), Trim(req.service.value), req.rating.value, Trim(text), now, 0, "pending", now);
      if r.name != "" && r.service != "" && r.text != "" && !HasReviewId(store, newId) then
        Handled(store + [r], Ok(r))
      else Handled(store, Err(InternalError))
  }

  /** A rating of 0 counts as missing; 6 is out of range: both are a 400. */
  lemma RatingBounds(req: ReviewRequest, store: seq<Review>, now: int, newId: string)
    requires req.rating.Some? && (req.rating.value <= 0 || req.rating.value > 5)
    ensures SubmitReview(req, store, now, newId).result == Err(BadRequest)
    ensures SubmitReview(req, store, now, newId).store == store
  {
  }

  function IsApproved(r: Review): bool
  {
    r.status == ApprovedStatus
  }

  function DateKey(r: Review): int
  {
    r.date
  }

  const ApprovedLimit: nat := 10

  /** The answer of `getApprovedReviews`. */
  datatype ApprovedReviews = ApprovedReviews(reviews: seq<Review>, total: nat)

  /** `getApprovedReviews`: the approved reviews, newest `date` first, at
      most ten of them, and the number of all approved reviews. */
  function GetApprovedReviews(store: seq<Review>): (r: ApprovedReviews)
    ensures r.total == Count(store, IsApproved)
    ensures |r.reviews| == if r.total < ApprovedLimit then r.total else ApprovedLimit
    ensures forall i :: 0 <= i < |r.reviews| ==> r.reviews[i].status == ApprovedStatus && r.reviews[i] in store
    ensures SortedDesc(r.reviews, DateKey)
    ensures r.reviews == SortDesc(Filter(store, IsApproved), DateKey)[..|r.reviews|]
  {
    var approved := Filter(store, IsApproved);
    var page := SortSkipLimit(approved, DateKey, 0, ApprovedLimit);
    ApprovedReviews(page, Count(store, IsApproved))
  }

  /** A review whose status is anything but "approved" is never shown, and
      does not count towards the total. */
  lemma UnapprovedNeverShown(store: seq<Review>, x: Review)
    requires x.status != ApprovedStatus
    ensures x !in GetApprovedReviews(store).reviews
    ensures GetApprovedReviews(store + [x]).total == GetApprovedReviews(store).total
  {
    CountAppend(store, [x], IsApproved);
  }
}
