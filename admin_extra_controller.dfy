/** The admin handlers for blocked availabilities (list by date, delete,
    create with its guard chain) and for reviews (the 50 newest, publish,
    reject). */
module AdminExtraController {
  import opened Common
  import opened Text
  import opened Cursor
  import opened Seqs
  import opened BlockedAvailabilityModel
  import opened ReviewController

  // ------------------------------------------------------------------
  // Blocked availabilities

  /** `.sort({ date: 1 })` is the descending sort of the negated date. */
  function NegDate(b: Block): int
  {
    -b.date
  }

  /** `getBlockedAvailabilities`: every block, earliest date first. */
  function GetBlockedAvailabilities(blocks: seq<Block>): (r: seq<Block>)
    ensures |r| == |blocks| && multiset(r) == multiset(blocks)
    ensures forall i, j :: 0 <= i < j < |r| ==> r[i].date <= r[j].date
  {
    var r := SortDesc(blocks, NegDate);
    assert forall i, j :: 0 <= i < j < |r| ==> NegDate(r[i]) >= NegDate(r[j]);
    r
  }

  /** The position of the block with that id. */
  function FindBlock(blocks: seq<Block>, id: string): (r: Option<nat>)
    ensures r.Some? <==> HasId(blocks, id)
    ensures r.Some? ==> r.value < |blocks| && blocks[r.value].id == id
  {
    if blocks == [] then None
    else if blocks[0].id == id then Some(0)
    else
      match FindBlock(blocks[1..], id)
      case None => None
      case Some(k) => Some(k + 1)
  }

  /** `deleteBlockedAvailability`: an unknown id is a 404; otherwise exactly
      that block is removed and the others keep their order. */
  function DeleteBlockedAvailability(blocks: seq<Block>, id: string): (h: Handled<seq<Block>, Block>)
    requires IdsUnique(blocks)
    ensures h.result.Err? <==> !HasId(blocks, id)
    ensures h.result.Err? ==> h == Handled(blocks, Err(NotFound))
    ensures h.result.Ok? ==>
      exists k :: 0 <= k < |blocks| && blocks[k].id == id && h.result.value == blocks[k]
                  && h.store == blocks[..k] + blocks[k + 1..]
    ensures h.result.Ok? ==> !HasId(h.store, id) && |h.store| == |blocks| - 1
    ensures AllDayUnique(blocks) ==> AllDayUnique(h.store)
  {
    match FindBlock(blocks, id)
    case None => Handled(blocks, Err(NotFound))
    case Some(k) =>
      var rest := blocks[..k] + blocks[k + 1..];
      assert forall i :: 0 <= i < |rest| ==> rest[i] == if i < k then blocks[i] else blocks[i + 1];
      Handled(rest, Ok(blocks[k]))
  }

  /** The body of `createBlockedAvailability`; `None` is an absent field. */
  datatype BlockRequest = BlockRequest(
    date: Option<string>,
    reason: Option<string>,
    allDay: Option<bool>,
    startTime: Option<string>,
    endTime: Option<string>)

  /** `allDay = true` in the destructuring: the default applies only when
      the field is absent. */
  function AllDayOf(req: BlockRequest): bool
  {
    if req.allDay.Some? then req.allDay.value else DefaultAllDay
  }

  /** The `findOne({ date, allDay })` of the handler: a block with the same
      date and the same `allDay`, partial or not. */
  predicate SameBlockExists(blocks: seq<Block>, date: int, allDay: bool)
  {
    exists i :: 0 <= i < |blocks| && blocks[i].date == date && blocks[i].allDay == allDay
  }

  /** `createBlockedAvailability`: a missing date and an invalid date are a
      400; no authenticated admin is a 401; a block with the same date and
      the same `allDay` is a 409; otherwise the block is stored, with no
      clock bounds when it covers the whole day. `parse` is the date parser
      and `adminId` the id the authentication put on the request. */
  function CreateBlockedAvailability(req: BlockRequest, blocks: seq<Block>, parse: string -> Option<int>,
                                     adminId: Option<string>, newId: string): (h: Handled<seq<Block>, Block>)
    ensures h.result == Err(BadRequest) <==> !Truthy(req.date) || parse(req.date.value).None?
    ensures h.result == Err(Unauthorized) <==>
      Truthy(req.date) && parse(req.date.value).Some? && !Truthy(adminId)
    ensures h.result == Err(Conflict) <==>
      Truthy(req.date) && parse(req.date.value).Some? && Truthy(adminId)
      && SameBlockExists(blocks, parse(req.date.value).value, AllDayOf(req))
    ensures h.result.Err? ==> h.store == blocks
    ensures h.result.Ok? ==>
      var b := h.result.value;
      h.store == blocks + [b] && b.id == newId
      && Truthy(req.date) && Some(b.date) == parse(req.date.value)
      && adminId == Some(b.createdBy) && b.allDay == AllDayOf(req)
      && b.reason == TrimReason(req.reason)
      && (b.allDay ==> b.startTime.None? && b.endTime.None?)
      && (!b.allDay ==> b.startTime == req.startTime && b.endTime == req.endTime)
      && !SameBlockExists(blocks, b.date, b.allDay)
    ensures AllDayUnique(blocks) ==> AllDayUnique(h.store)
  {
    if !Truthy(req.date) then Handled(blocks, Err(BadRequest))
    else
      match parse(req.date.value)
      case None => Handled(blocks, Err(BadRequest))
      case Some(d) =>
        if !Truthy(adminId) then Handled(blocks, Err(Unauthorized))
        else
          var allDay := AllDayOf(req);
          if SameBlockExists(blocks, d, allDay) then Handled(blocks, Err(Conflict))
          else
            var b := Block(newId, d, req.reason, allDay,
                           if allDay then None else req.startTime,
                           if allDay then None else req.endTime, adminId.value);
            BlockedAvailabilityModel.Create(blocks, b)
  }

  /** The handler's duplicate check is stricter than the partial index: a
      second partial block on a date the index would admit is refused with a
      409. */
  lemma PartialRepeatRefused(req: BlockRequest, blocks: seq<Block>, parse: string -> Option<int>,
                             adminId: Option<string>, newId: string, k: nat)
    requires Truthy(req.date) && parse(req.date.value).Some? && Truthy(adminId)
    requires req.allDay == Some(false)
    requires k < |blocks| && !blocks[k].allDay && blocks[k].date == parse(req.date.value).value
    ensures CreateBlockedAvailability(req, blocks, parse, adminId, newId).result == Err(Conflict)
  {
    assert SameBlockExists(blocks, parse(req.date.value).value, false);
  }

  // ------------------------------------------------------------------
  // Reviews

  function CreatedKey(r: Review): int
  {
    r.createdAt
  }

  const AdminReviewsLimit: nat := 50

  /** `getAdminReviews`: every status, newest `createdAt` first, at most 50. */
  function GetAdminReviews(store: seq<Review>): (r: seq<Review>)
    ensures |r| == if |store| < AdminReviewsLimit then |store| else AdminReviewsLimit
    ensures SortedDesc(r, CreatedKey)
    ensures forall i :: 0 <= i < |r| ==> r[i] in store
    ensures r == SortDesc(store, CreatedKey)[..|r|]
  {
    SortSkipLimit(store, CreatedKey, 0, AdminReviewsLimit)
  }

  /** The position of the review with that id. */
  function FindReview(store: seq<Review>, id: string): (r: Option<nat>)
    ensures r.Some? <==> HasReviewId(store, id)
    ensures r.Some? ==> r.value < |store| && store[r.value].id == id
  {
    if store == [] then None
    else if store[0].id == id then Some(0)
    else
      match FindReview(store[1..], id)
      case None => None
      case Some(k) => Some(k + 1)
  }

  /** `findByIdAndUpdate(id, { status })` without validators: an unknown id
      is a 404; otherwise that review, and only it, gets the status string
      as given. */
  function SetReviewStatus(store: seq<Review>, id: string, status: string): (h: Handled<seq<Review>, Review>)
    ensures h.result.Err? <==> !HasReviewId(store, id)
    ensures h.result.Err? ==> h == Handled(store, Err(NotFound))
    ensures h.result.Ok? ==>
      var k := FindReview(store, id).value;
      h.result.value == store[k].(status := status) && |h.store| == |store| && h.store[k] == h.result.value
      && forall i :: 0 <= i < |store| && i != k ==> h.store[i] == store[i]
  {
    match FindReview(store, id)
    case None => Handled(store, Err(NotFound))
    case Some(k) => Handled(store[k := store[k].(status := status)], Ok(store[k].(status := status)))
  }

  /** `publishReview` as written: the status becomes "published", a string
      outside the schema's enum. */
  function PublishReview(store: seq<Review>, id: string): (h: Handled<seq<Review>, Review>)
    ensures h.result.Err? <==> !HasReviewId(store, id)
    ensures h.result.Ok? ==> h.result.value.status == "published" && h.result.value.status !in ReviewStatuses
  {
    SetReviewStatus(store, id, "published")
  }

  /** `rejectReview`: the status becomes "rejected". */
  function RejectReview(store: seq<Review>, id: string): (h: Handled<seq<Review>, Review>)
    ensures h.result.Err? <==> !HasReviewId(store, id)
    ensures h.result.Ok? ==> h.result.value.status == "rejected" && h.result.value.status in ReviewStatuses
  {
    SetReviewStatus(store, id, "rejected")
  }

  /** A review published as written is never among the reviews the public
      page shows. */
  lemma PublishedNeverShown(store: seq<Review>, id: string)
    requires PublishReview(store, id).result.Ok?
    ensures var h := PublishReview(store, id);
      h.result.value !in GetApprovedReviews(h.store).reviews
  {
    var h := PublishReview(store, id);
    UnapprovedNeverShown(h.store, h.result.value);
  }

  /** `publishReview` with the status `getApprovedReviews` reads. */
  function PublishReviewCorrected(store: seq<Review>, id: string): (h: Handled<seq<Review>, Review>)
    ensures h.result.Err? <==> !HasReviewId(store, id)
    ensures h.result.Ok? ==> h.result.value.status == ApprovedStatus && h.result.value.status in ReviewStatuses
  {
    SetReviewStatus(store, id, ApprovedStatus)
  }

  /** A review published with the corrected status is counted among the
      approved reviews, and among the ten shown when fewer than ten are
      approved. */
  lemma CorrectedPublishIsShown(store: seq<Review>, id: string)
    requires PublishReviewCorrected(store, id).result.Ok?
    ensures var h := PublishReviewCorrected(store, id);
      h.result.value in Filter(h.store, IsApproved) && GetApprovedReviews(h.store).total >= 1
    ensures var h := PublishReviewCorrected(store, id);
      GetApprovedReviews(h.store).total <= ApprovedLimit ==> h.result.value in GetApprovedReviews(h.store).reviews
  {
    var h := PublishReviewCorrected(store, id);
    var k := FindReview(store, id).value;
    assert h.store[k] == h.result.value;
    FilterMember(h.store, IsApproved, h.result.value);
    var approved := Filter(h.store, IsApproved);
    var shown := GetApprovedReviews(h.store).reviews;
    if GetApprovedReviews(h.store).total <= ApprovedLimit {
      var sorted := SortDesc(approved, DateKey);
      assert shown == sorted;
      assert h.result.value in multiset(approved);
      assert h.result.value in multiset(sorted);
    }
  }
}
