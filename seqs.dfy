/** `Array.prototype.filter` and counting over sequences: the list
    operations the handlers and pages share. */
module Seqs {

  /** The elements of `s` that pass `p`, in their order in `s`. */
  function Filter<T(!new)>(s: seq<T>, p: T -> bool): (r: seq<T>)
    ensures |r| <= |s|
    ensures forall i :: 0 <= i < |r| ==> p(r[i]) && r[i] in s
    ensures forall x :: multiset(r)[x] == if p(x) then multiset(s)[x] else 0
  {
    if s == [] then []
    else
      assert s == [s[0]] + s[1..];
      var rest := Filter(s[1..], p);
      if p(s[0]) then [s[0]] + rest else rest
  }

  /** Filtering a concatenation filters each part: the order of what is
      kept is the order of the input. */
  lemma {:induction false} FilterAppend<T(!new)>(a: seq<T>, b: seq<T>, p: T -> bool)
    ensures Filter(a + b, p) == Filter(a, p) + Filter(b, p)
  {
    if a == [] {
      assert a + b == b;
    } else {
      assert (a + b)[1..] == a[1..] + b;
      FilterAppend(a[1..], b, p);
    }
  }

  /** A predicate every element passes keeps the whole sequence. */
  lemma {:induction false} FilterAll<T(!new)>(s: seq<T>, p: T -> bool)
    requires forall i :: 0 <= i < |s| ==> p(s[i])
    ensures Filter(s, p) == s
  {
    if s != [] {
      FilterAll(s[1..], p);
    }
  }

  /** Nothing is dropped exactly when every element passes. */
  lemma {:induction false} FilterKeepsLength<T(!new)>(s: seq<T>, p: T -> bool)
    ensures |Filter(s, p)| == |s| <==> forall i :: 0 <= i < |s| ==> p(s[i])
  {
    if s != [] {
      FilterKeepsLength(s[1..], p);
      if forall i :: 0 <= i < |s| ==> p(s[i]) {
        assert forall i :: 0 <= i < |s[1..]| ==> p(s[1..][i]) by {
          forall i | 0 <= i < |s[1..]| ensures p(s[1..][i]) { assert s[1..][i] == s[i + 1]; }
        }
      } else {
        var k :| 0 <= k < |s| && !p(s[k]);
        if k > 0 { assert s[1..][k - 1] == s[k]; }
      }
    }
  }

  /** An element is kept exactly when it is in the input and passes. */
  lemma FilterMember<T(!new)>(s: seq<T>, p: T -> bool, x: T)
    ensures x in Filter(s, p) <==> x in s && p(x)
  {
    var r := Filter(s, p);
    assert x in r <==> multiset(r)[x] > 0;
    assert x in s <==> multiset(s)[x] > 0;
  }

  /** `s` is strictly ascending under `key`. */
  predicate StrictlyAscending<T>(s: seq<T>, key: T -> int)
  {
    forall i, j :: 0 <= i < j < |s| ==> key(s[i]) < key(s[j])
  }

  /** A head below every element of an ascending tail gives an ascending
      sequence. */
  lemma ConsAscending<T>(x: T, r: seq<T>, key: T -> int)
    requires StrictlyAscending(r, key)
    requires forall k :: 0 <= k < |r| ==> key(x) < key(r[k])
    ensures StrictlyAscending([x] + r, key)
  {
    var c := [x] + r;
    forall i, j | 0 <= i < j < |c| ensures key(c[i]) < key(c[j]) {
      assert c[j] == r[j - 1];
      if i > 0 { assert c[i] == r[i - 1]; }
    }
  }

  /** The tail of an ascending sequence is ascending. */
  lemma TailAscending<T>(s: seq<T>, key: T -> int)
    requires s != [] && StrictlyAscending(s, key)
    ensures StrictlyAscending(s[1..], key)
    ensures forall x :: x in s[1..] ==> key(s[0]) < key(x)
  {
    var t := s[1..];
    forall i, j | 0 <= i < j < |t| ensures key(t[i]) < key(t[j]) {
      assert t[i] == s[i + 1] && t[j] == s[j + 1];
    }
    forall x | x in t ensures key(s[0]) < key(x) {
      var m :| 0 <= m < |t| && t[m] == x;
      assert t[m] == s[m + 1];
    }
  }

  /** Filtering keeps a strictly ascending sequence strictly ascending. */
  lemma {:induction false} FilterKeepsAscending<T(!new)>(s: seq<T>, p: T -> bool, key: T -> int)
    requires StrictlyAscending(s, key)
    ensures StrictlyAscending(Filter(s, p), key)
  {
    if s != [] {
      TailAscending(s, key);
      FilterKeepsAscending(s[1..], p, key);
      var rest := Filter(s[1..], p);
      if p(s[0]) {
        assert forall k :: 0 <= k < |rest| ==> rest[k] in s[1..];
        ConsAscending(s[0], rest, key);
      }
    }
  }

  /** The number of elements of `s` that pass `p`. */
  function Count<T(!new)>(s: seq<T>, p: T -> bool): (n: nat)
    ensures n == |Filter(s, p)|
    ensures n <= |s|
  {
    if s == [] then 0
    else (if p(s[0]) then 1 else 0) + Count(s[1..], p)
  }

  /** A count splits over a concatenation. */
  lemma CountAppend<T(!new)>(a: seq<T>, b: seq<T>, p: T -> bool)
    ensures Count(a + b, p) == Count(a, p) + Count(b, p)
  {
    FilterAppend(a, b, p);
  }

  /** The sum of `f` over the elements that pass `p`. */
  function SumWhere<T>(s: seq<T>, p: T -> bool, f: T -> int): int
  {
    if s == [] then 0
    else (if p(s[0]) then f(s[0]) else 0) + SumWhere(s[1..], p, f)
  }

  /** A sum splits over a concatenation. */
  lemma {:induction false} SumWhereAppend<T>(a: seq<T>, b: seq<T>, p: T -> bool, f: T -> int)
    ensures SumWhere(a + b, p, f) == SumWhere(a, p, f) + SumWhere(b, p, f)
  {
    if a == [] {
      assert a + b == b;
    } else {
      assert (a + b)[1..] == a[1..] + b;
      SumWhereAppend(a[1..], b, p, f);
    }
  }

  /** Only the elements that pass contribute, and with non-negative values
      the sum is non-negative. */
  lemma {:induction false} SumWhereNonNegative<T>(s: seq<T>, p: T -> bool, f: T -> int)
    requires forall i :: 0 <= i < |s| && p(s[i]) ==> f(s[i]) >= 0
    ensures SumWhere(s, p, f) >= 0
  {
    if s != [] {
      SumWhereNonNegative(s[1..], p, f);
    }
  }
}
