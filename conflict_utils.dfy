/** Booking conflicts: two bookings clash when their half-open intervals
    `[startTime, endTime)` overlap. The query behind every conflict check is
    "the first stored booking whose status is in a blocking set and whose
    interval overlaps the requested one"; `hasConflict` uses the set of every
    status but `cancelled`, and the controllers use sets of their own. */
module ConflictUtils {
  import opened Common
  import opened BookingModel

  /** `[s1, e1)` and `[s2, e2)` share an instant. */
  predicate Overlaps(s1: int, e1: int, s2: int, e2: int)
  {
    s1 < e2 && e1 > s2
  }

  lemma OverlapsSymmetric(s1: int, e1: int, s2: int, e2: int)
    ensures Overlaps(s1, e1, s2, e2) <==> Overlaps(s2, e2, s1, e1)
  {
  }

  /** Intervals that only touch, one ending where the other starts, do not
      overlap. */
  lemma TouchingNeverOverlaps(s1: int, e1: int, s2: int, e2: int)
    requires e1 == s2 || e2 == s1
    requires s1 <= e1 && s2 <= e2
    ensures !Overlaps(s1, e1, s2, e2)
  {
  }

  /** The query `{ status: { $in: blocking }, startTime: { $lt: e },
      endTime: { $gt: s } }` matches `b`. */
  predicate Blocks(b: Booking, blocking: set<string>, s: int, e: int)
  {
    StatusName(b.status) in blocking && b.startTime < e && b.endTime > s
  }

  /** `findOne` with that query: the position of the first match. */
  function FindConflict(store: seq<Booking>, blocking: set<string>, s: int, e: int): (r: Option<nat>)
    ensures r.Some? <==> exists i :: 0 <= i < |store| && Blocks(store[i], blocking, s, e)
    ensures r.Some? ==> r.value < |store| && Blocks(store[r.value], blocking, s, e)
    ensures r.Some? ==> forall k :: 0 <= k < r.value ==> !Blocks(store[k], blocking, s, e)
  {
    if store == [] then None
    else if Blocks(store[0], blocking, s, e) then Some(0)
    else
      match FindConflict(store[1..], blocking, s, e)
      case None => None
      case Some(k) => Some(k + 1)
  }

  /** No match means every booking in a blocking status is disjoint from
      the requested interval. */
  lemma NoConflictDisjoint(store: seq<Booking>, blocking: set<string>, s: int, e: int, i: int)
    requires FindConflict(store, blocking, s, e).None? && 0 <= i < |store|
    requires StatusName(store[i].status) in blocking
    ensures !Overlaps(store[i].startTime, store[i].endTime, s, e)
  {
    assert !Blocks(store[i], blocking, s, e);
  }

  /** A booking appended with a status outside the blocking set does not
      change what the conflict query finds. */
  lemma {:induction false} FindConflictSkipsAppended(store: seq<Booking>, x: Booking, blocking: set<string>, s: int, e: int)
    requires StatusName(x.status) !in blocking
    ensures FindConflict(store + [x], blocking, s, e) == FindConflict(store, blocking, s, e)
  {
    if store == [] {
      assert !Blocks(x, blocking, s, e);
    } else {
      assert (store + [x])[1..] == store[1..] + [x];
      FindConflictSkipsAppended(store[1..], x, blocking, s, e);
    }
  }

  /** `{ $ne: "cancelled" }` over the statuses the schema admits. */
  const NonCancelled: set<string> := StatusNames - {"cancelled"}

  lemma NonCancelledIsNotCancelled(st: Status)
    ensures StatusName(st) in NonCancelled <==> st != Cancelled
  {
  }

  /** `hasConflict(startTime, endTime)`. */
  function HasConflict(store: seq<Booking>, s: int, e: int): (r: bool)
    ensures r <==> exists i :: 0 <= i < |store| && store[i].status != Cancelled
                               && store[i].startTime < e && store[i].endTime > s
  {
    var f := FindConflict(store, NonCancelled, s, e);
    if f.Some? then
      NonCancelledIsNotCancelled(store[f.value].status);
      true
    else
      assert forall i :: 0 <= i < |store| && store[i].status != Cancelled ==> StatusName(store[i].status) in NonCancelled by {
        forall i | 0 <= i < |store| && store[i].status != Cancelled { NonCancelledIsNotCancelled(store[i].status); }
      }
      false
  }

  /** A cancelled booking, wherever it sits in the store, never causes a
      conflict. */
  lemma CancelledNeverConflicts(store: seq<Booking>, k: nat, c: Booking, s: int, e: int)
    requires k <= |store| && c.status == Cancelled
    ensures HasConflict(store[..k] + [c] + store[k..], s, e) == HasConflict(store, s, e)
  {
    var t := store[..k] + [c] + store[k..];
    if HasConflict(t, s, e) {
      var i :| 0 <= i < |t| && t[i].status != Cancelled && t[i].startTime < e && t[i].endTime > s;
      if i < k { assert t[i] == store[i]; } else { assert t[i] == store[i - 1]; }
    }
    if HasConflict(store, s, e) {
      var i :| 0 <= i < |store| && store[i].status != Cancelled && store[i].startTime < e && store[i].endTime > s;
      if i < k { assert t[i] == store[i]; } else { assert t[i + 1] == store[i]; }
    }
  }

  /** Every stored booking that ends where the request starts, or starts
      where it ends, leaves the request free. */
  lemma TouchingNeverConflicts(store: seq<Booking>, s: int, e: int)
    requires forall i :: 0 <= i < |store| ==> store[i].endTime <= s || store[i].startTime >= e
    ensures !HasConflict(store, s, e)
  {
  }

  /** A live booking with exactly the requested non-empty interval is a
      conflict. */
  lemma ExactIntervalConflicts(store: seq<Booking>, k: nat, s: int, e: int)
    requires k < |store| && s < e
    requires store[k].status != Cancelled && store[k].startTime == s && store[k].endTime == e
    ensures HasConflict(store, s, e)
  {
  }

  /** No two live bookings of the store overlap. */
  predicate NoOverlap(store: seq<Booking>)
  {
    forall i, j :: 0 <= i < j < |store| && store[i].status != Cancelled && store[j].status != Cancelled ==>
      !Overlaps(store[i].startTime, store[i].endTime, store[j].startTime, store[j].endTime)
  }

  /** Inserting a booking after `hasConflict` said its interval was free keeps
      the live bookings pairwise disjoint. */
  lemma GuardedInsertKeepsNoOverlap(store: seq<Booking>, b: Booking)
    requires NoOverlap(store) && !HasConflict(store, b.startTime, b.endTime)
    ensures NoOverlap(store + [b])
  {
    var t := store + [b];
    forall i, j | 0 <= i < j < |t| && t[i].status != Cancelled && t[j].status != Cancelled
      ensures !Overlaps(t[i].startTime, t[i].endTime, t[j].startTime, t[j].endTime)
    {
      if j == |store| {
        assert t[i] == store[i];
        OverlapsSymmetric(t[i].startTime, t[i].endTime, b.startTime, b.endTime);
      }
    }
  }
}
