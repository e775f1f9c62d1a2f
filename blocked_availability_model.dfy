/** The BlockedAvailability collection's schema: a required date and creator,
    `allDay` defaulting to true, optional `HH:mm` bounds for a partial block,
    and a unique index on (date, allDay) that only covers all-day blocks. */
module BlockedAvailabilityModel {
  import opened Common
  import opened Text

  datatype Block = Block(
    id: string,
    date: int,
    reason: Option<string>,
    allDay: bool,
    startTime: Option<string>,
    endTime: Option<string>,
    createdBy: string)

  /** The schema's `default` for `allDay`. */
  const DefaultAllDay := true

  /** The partial unique index: no two all-day blocks share a date. Partial
      blocks are outside the index and may repeat. */
  predicate AllDayUnique(blocks: seq<Block>)
  {
    forall i, j :: 0 <= i < j < |blocks| && blocks[i].allDay && blocks[j].allDay ==>
      blocks[i].date != blocks[j].date
  }

  predicate HasAllDayOn(blocks: seq<Block>, date: int)
  {
    exists i :: 0 <= i < |blocks| && blocks[i].allDay && blocks[i].date == date
  }

  predicate HasId(blocks: seq<Block>, id: string)
  {
    exists i :: 0 <= i < |blocks| && blocks[i].id == id
  }

  predicate IdsUnique(blocks: seq<Block>)
  {
    forall i, j :: 0 <= i < j < |blocks| ==> blocks[i].id != blocks[j].id
  }

  /** The `reason` setter trims. */
  function TrimReason(reason: Option<string>): Option<string>
  {
    match reason
    case None => None
    case Some(r) => Some(Trim(r))
  }

  /** `BlockedAvailability.create`: `createdBy` is required; a second all-day
      block on a date, or a repeated `_id`, violates an index. */
  function Create(blocks: seq<Block>, b: Block): (h: Handled<seq<Block>, Block>)
    ensures h.result.Ok? <==>
      b.createdBy != "" && !(b.allDay && HasAllDayOn(blocks, b.date)) && !HasId(blocks, b.id)
    ensures h.result.Ok? ==> h.result.value == b.(reason := TrimReason(b.reason))
    ensures h.result.Ok? ==> h.store == blocks + [h.result.value]
    ensures h.result.Err? ==> h == Handled(blocks, Err(InternalError))
    ensures AllDayUnique(blocks) ==> AllDayUnique(h.store)
    ensures IdsUnique(blocks) ==> IdsUnique(h.store)
  {
    var r := b.(reason := TrimReason(b.reason));
    if b.createdBy != "" && !(b.allDay && HasAllDayOn(blocks, b.date)) && !HasId(blocks, b.id) then
      Handled(blocks + [r], Ok(r))
    else Handled(blocks, Err(InternalError))
  }

  /** Two partial blocks on one date are both admitted by the index. */
  lemma PartialBlocksMayRepeat(p: Block, q: Block)
    requires !p.allDay && !q.allDay && p.date == q.date && p.id != q.id
    requires p.createdBy != "" && q.createdBy != ""
    ensures Create([], p).result.Ok?
    ensures Create(Create([], p).store, q).result.Ok?
    ensures AllDayUnique(Create(Create([], p).store, q).store)
  {
    var s1 := Create([], p).store;
    assert s1 == [p.(reason := TrimReason(p.reason))];
    assert !HasAllDayOn(s1, q.date);
  }
}
