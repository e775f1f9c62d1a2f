/** The query-cursor operations the controllers chain after `find`:
    `.sort({ key: -1 })` (a stable sort by an integer key, descending; an
    ascending sort is the descending sort of the negated key), `.skip(n)` and
    `.limit(n)`. */
module Cursor {
  import opened Common

  predicate SortedDesc<T>(s: seq<T>, key: T -> int)
  {
    forall i, j :: 0 <= i < j < |s| ==> key(s[i]) >= key(s[j])
  }

  /** `h` has a key no smaller than any element of `t`. */
  predicate Dominates<T>(h: T, t: seq<T>, key: T -> int)
  {
    forall i :: 0 <= i < |t| ==> key(h) >= key(t[i])
  }

  /** A head dominating a sorted tail gives a sorted sequence. */
  lemma ConsSortedDesc<T>(h: T, t: seq<T>, key: T -> int)
    requires SortedDesc(t, key) && Dominates(h, t, key)
    ensures SortedDesc([h] + t, key)
  {
    var c := [h] + t;
    forall i, j | 0 <= i < j < |c| ensures key(c[i]) >= key(c[j]) {
      assert c[j] == t[j - 1];
      if i > 0 { assert c[i] == t[i - 1]; }
    }
  }

  /** The head of a sorted sequence dominates its tail, which is sorted. */
  lemma TailSortedDesc<T>(s: seq<T>, key: T -> int)
    requires s != [] && SortedDesc(s, key)
    ensures SortedDesc(s[1..], key) && Dominates(s[0], s[1..], key)
  {
    var t := s[1..];
    forall i, j | 0 <= i < j < |t| ensures key(t[i]) >= key(t[j]) {
      assert t[i] == s[i + 1] && t[j] == s[j + 1];
    }
    forall i | 0 <= i < |t| ensures key(s[0]) >= key(t[i]) {
      assert t[i] == s[i + 1];
    }
  }

  /** Puts `x` before the first element whose key is not larger than its own:
      an element that came earlier stays ahead of later ones with an equal key. */
  function InsertDesc<T>(x: T, s: seq<T>, key: T -> int): (r: seq<T>)
    ensures |r| == |s| + 1
    ensures multiset(r) == multiset(s) + multiset{x}
  {
    if s == [] || key(s[0]) <= key(x) then
      [x] + s
    else
      assert s == [s[0]] + s[1..];
      [s[0]] + InsertDesc(x, s[1..], key)
  }

  /** What dominates `x` and `s` dominates `s` with `x` inserted. */
  lemma InsertDescDominated<T>(h: T, x: T, s: seq<T>, key: T -> int)
    requires key(h) >= key(x) && Dominates(h, s, key)
    ensures Dominates(h, InsertDesc(x, s, key), key)
  {
    var r := InsertDesc(x, s, key);
    forall i | 0 <= i < |r| ensures key(h) >= key(r[i]) {
      assert r[i] in multiset(r);
      if r[i] != x {
        assert r[i] in multiset(s);
        var k :| 0 <= k < |s| && s[k] == r[i];
      }
    }
  }

  /** Inserting into a sorted sequence keeps it sorted. */
  lemma {:induction false} InsertDescSorted<T>(x: T, s: seq<T>, key: T -> int)
    requires SortedDesc(s, key)
    ensures SortedDesc(InsertDesc(x, s, key), key)
  {
    if s == [] || key(s[0]) <= key(x) {
      assert Dominates(x, s, key) by {
        forall i | 0 <= i < |s| ensures key(x) >= key(s[i]) {
          if i > 0 { assert key(s[0]) >= key(s[i]); }
        }
      }
      ConsSortedDesc(x, s, key);
    } else {
      TailSortedDesc(s, key);
      InsertDescSorted(x, s[1..], key);
      InsertDescDominated(s[0], x, s[1..], key);
      ConsSortedDesc(s[0], InsertDesc(x, s[1..], key), key);
    }
  }

  /** Stable insertion sort by `key`, largest key first. */
  function SortDesc<T>(s: seq<T>, key: T -> int): (r: seq<T>)
    ensures |r| == |s|
    ensures multiset(r) == multiset(s)
    ensures SortedDesc(r, key)
  {
    if s == [] then []
    else
      assert s == [s[0]] + s[1..];
      var t := SortDesc(s[1..], key);
      InsertDescSorted(s[0], t, key);
      InsertDesc(s[0], t, key)
  }

  /** A comparator that always answers 0 leaves the order as it was: the
      sort is stable. */
  lemma {:induction false} SortConstantKey<T>(s: seq<T>, key: T -> int)
    requires forall x, y :: key(x) == key(y)
    ensures SortDesc(s, key) == s
  {
    if s != [] {
      SortConstantKey(s[1..], key);
    }
  }

  /** `.skip(n)`: the elements after the first `n`. */
  function Skip<T>(s: seq<T>, n: nat): (r: seq<T>)
    ensures |r| == if n <= |s| then |s| - n else 0
    ensures forall i :: 0 <= i < |r| ==> r[i] == s[n + i]
  {
    if n <= |s| then s[n..] else []
  }

  /** `.limit(n)` for `n > 0`: at most the first `n` elements. */
  function Limit<T>(s: seq<T>, n: nat): (r: seq<T>)
    requires n > 0
    ensures |r| <= n && |r| <= |s|
    ensures |r| == n || r == s
    ensures r == s[..|r|]
  {
    if n <= |s| then s[..n] else s
  }

  /** `.limit(n)` for any integer: 0 means no limit, and a negative limit
      returns at most `-n` documents. */
  function ApplyLimit<T>(s: seq<T>, n: int): (r: seq<T>)
    ensures n == 0 ==> r == s
    ensures |r| <= |s|
    ensures n != 0 ==> r == s[..|r|] && (|r| == |s| || |r| == if n > 0 then n else -n)
    ensures n != 0 ==> |r| <= (if n > 0 then n else -n)
  {
    if n == 0 then s else Limit(s, if n > 0 then n else -n)
  }

  /** `.sort({ key: -1 }).skip(skip).limit(limit)`: a run of consecutive
      entries of the sorted sequence, starting at `skip`. */
  function SortSkipLimit<T>(s: seq<T>, key: T -> int, skip: nat, limit: int): (r: seq<T>)
    ensures SortedDesc(r, key)
    ensures forall i :: 0 <= i < |r| ==> r[i] in s
    ensures skip <= |s| ==> |r| <= |s| - skip && r == SortDesc(s, key)[skip..skip + |r|]
    ensures skip >= |s| ==> r == []
    ensures limit != 0 ==> |r| <= (if limit > 0 then limit else -limit)
    ensures limit != 0 && skip <= |s| ==> |r| == |s| - skip || |r| == (if limit > 0 then limit else -limit)
    ensures limit == 0 && skip <= |s| ==> |r| == |s| - skip
  {
    var sorted := SortDesc(s, key);
    var r := ApplyLimit(Skip(sorted, skip), limit);
    if skip <= |s| then
      assert Skip(sorted, skip) == sorted[skip..];
      assert r == sorted[skip..skip + |r|];
      SortedDescSlice(sorted, key, skip, skip + |r|);
      SortedMembers(s, key);
      r
    else
      r
  }

  /** A run of consecutive entries of a sorted sequence is sorted. */
  lemma SortedDescSlice<T>(s: seq<T>, key: T -> int, lo: nat, hi: nat)
    requires lo <= hi <= |s| && SortedDesc(s, key)
    ensures SortedDesc(s[lo..hi], key)
  {
    var t := s[lo..hi];
    forall i, j | 0 <= i < j < |t| ensures key(t[i]) >= key(t[j]) {
      assert t[i] == s[lo + i] && t[j] == s[lo + j];
    }
  }

  /** Sorting keeps only what was there. */
  lemma SortedMembers<T>(s: seq<T>, key: T -> int)
    ensures forall i :: 0 <= i < |SortDesc(s, key)| ==> SortDesc(s, key)[i] in s
  {
    var sorted := SortDesc(s, key);
    forall i | 0 <= i < |sorted| ensures sorted[i] in s {
      assert sorted[i] in multiset(sorted);
    }
  }

  /** `Math.ceil(total / limit)` for a positive page size: the fewest pages
      of `limit` entries that hold `total` entries. */
  function CeilDiv(total: nat, limit: nat): (r: nat)
    requires limit > 0
    ensures r * limit >= total
    ensures r == 0 || (r - 1) * limit < total
  {
    var q := (total + limit - 1) / limit;
    var m := (total + limit - 1) % limit;
    assert q * limit == total + limit - 1 - m;
    assert (q - 1) * limit == q * limit - limit;
    q
  }

  /** The `pages` field for any integer `limit`: `None` is the `null` that
      `Infinity` or `NaN` becomes in JSON when `limit` is 0. */
  function PageCount(total: nat, limit: int): (r: Option<int>)
    ensures limit > 0 ==> r.Some? && r.value >= 0 && r.value * limit >= total
                          && (r.value == 0 || (r.value - 1) * limit < total)
    ensures limit == 0 ==> r.None?
    ensures limit < 0 ==> r.Some? && r.value <= 0 && r.value * limit <= total
                          && total < (r.value - 1) * limit
  {
    if limit > 0 then Some(CeilDiv(total, limit))
    else if limit == 0 then None
    else
      var q := total / (-limit);
      assert q * (-limit) <= total < (q + 1) * (-limit);
      Some(-q)
  }

  /** One page of a list answer: the entries, the page number and size
      asked for, the count of every match, and the page count. */
  datatype Page<T> = Page(items: seq<T>, page: int, limit: int, total: nat, pages: Option<int>)

  /** `p` answers a query over `matches` for that page and limit, with
      `skip = (page - 1) * limit`: it echoes the page and limit, counts every
      match, gives the page count, and holds the run of the sorted matches
      that starts at the skip and that the limit allows. */
  ghost predicate IsPage<T>(p: Page<T>, matches: seq<T>, key: T -> int, page: int, limit: int)
  {
    var skip := (page - 1) * limit;
    var bound := if limit > 0 then limit else -limit;
    p.page == page && p.limit == limit && p.total == |matches|
    && p.pages == PageCount(|matches|, limit)
    && SortedDesc(p.items, key)
    && (forall i :: 0 <= i < |p.items| ==> p.items[i] in matches)
    && (0 <= skip <= |matches| ==> |p.items| <= |matches| - skip
                                   && p.items == SortDesc(matches, key)[skip..skip + |p.items|])
    && (skip >= |matches| ==> p.items == [])
    && (limit != 0 ==> |p.items| <= bound)
    && (limit == 0 && 0 <= skip <= |matches| ==> |p.items| == |matches| - skip)
  }

  /** `find(filter).sort({ key: -1 }).skip((page - 1) * limit).limit(limit)`
      with `countDocuments(filter)` beside it, over the matches of the
      filter. A negative skip makes the query throw. */
  function Paginate<T>(matches: seq<T>, key: T -> int, page: int, limit: int): (r: Result<Page<T>>)
    ensures r.Err? <==> (page - 1) * limit < 0
    ensures r.Err? ==> r.error == InternalError
    ensures r.Ok? ==> IsPage(r.value, matches, key, page, limit)
  {
    var skip := (page - 1) * limit;
    if skip < 0 then Err(InternalError)
    else Ok(Page(SortSkipLimit(matches, key, skip, limit), page, limit, |matches|, PageCount(|matches|, limit)))
  }
}
