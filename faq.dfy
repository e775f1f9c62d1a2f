/** The FAQ page: the list of open questions, toggled one at a time, and
    the ids of the questions. */
module Faq {
  import opened Text
  import opened Seqs

  /** No id occurs twice. */
  predicate NoDuplicates(s: seq<string>)
  {
    forall i, j :: 0 <= i < j < |s| ==> s[i] != s[j]
  }

  /** The filter callback `i => i !== id`. */
  function Other(id: string): string -> bool
  {
    (i: string) => i != id
  }

  /** `toggleItem`: an open question is closed, every copy of its id
      removed; a closed one is opened, its id appended. */
  function Toggle(open: seq<string>, id: string): (r: seq<string>)
    ensures id in open ==> forall x :: multiset(r)[x] == if x != id then multiset(open)[x] else 0
    ensures id !in open ==> r == open + [id]
  {
    if id in open then Filter(open, Other(id)) else open + [id]
  }

  /** A toggle flips the membership of its id and of no other. */
  lemma ToggleMembership(open: seq<string>, id: string)
    ensures id in Toggle(open, id) <==> id !in open
    ensures forall x :: x != id ==> (x in Toggle(open, id) <==> x in open)
  {
    if id in open {
      FilterMember(open, Other(id), id);
      forall x | x != id ensures x in Toggle(open, id) <==> x in open {
        FilterMember(open, Other(id), x);
      }
    }
  }

  /** A sub-sequence of a list without duplicates has none. */
  lemma {:induction false} FilterNoDuplicates(s: seq<string>, id: string)
    requires NoDuplicates(s)
    ensures NoDuplicates(Filter(s, Other(id)))
  {
    if s != [] {
      FilterNoDuplicates(s[1..], id);
      var rest := Filter(s[1..], Other(id));
      assert s[0] !in s[1..];
      FilterMember(s[1..], Other(id), s[0]);
      assert s[0] !in rest;
    }
  }

  /** A toggle never introduces a duplicate. */
  lemma ToggleNoDuplicates(open: seq<string>, id: string)
    requires NoDuplicates(open)
    ensures NoDuplicates(Toggle(open, id))
  {
    if id in open {
      FilterNoDuplicates(open, id);
    }
  }

  /** Opening and then closing a question restores the list. */
  lemma OpenThenClose(open: seq<string>, id: string)
    requires id !in open
    ensures Toggle(Toggle(open, id), id) == open
  {
    FilterAppend(open, [id], Other(id));
    FilterAll(open, Other(id));
  }

  /** In a list without duplicates an element occurs once. */
  lemma {:induction false} OccursOnce(s: seq<string>, x: string)
    requires NoDuplicates(s) && x in s
    ensures multiset(s)[x] == 1
  {
    assert s == [s[0]] + s[1..];
    if s[0] == x {
      assert x !in s[1..];
    } else {
      OccursOnce(s[1..], x);
    }
  }

  /** Closing and then reopening a question restores which questions are
      open, the reopened one now last. */
  lemma CloseThenOpen(open: seq<string>, id: string)
    requires id in open && NoDuplicates(open)
    ensures var r := Toggle(Toggle(open, id), id);
      r[|r| - 1] == id && multiset(r) == multiset(open)
  {
    var closed := Toggle(open, id);
    FilterMember(open, Other(id), id);
    assert id !in closed;
    var r := Toggle(closed, id);
    assert r == closed + [id];
    OccursOnce(open, id);
    assert forall x :: multiset(r)[x] == multiset(open)[x];
  }

  /** `${catIndex}-${qIndex}`. */
  function ItemId(catIndex: nat, qIndex: nat): (r: string)
    ensures |r| == |NatToString(catIndex)| + 1 + |NatToString(qIndex)|
    ensures r[|NatToString(catIndex)|] == '-'
  {
    NatToString(catIndex) + "-" + NatToString(qIndex)
  }

  /** Two questions never share an id, so each one opens on its own. */
  lemma ItemIdInjective(c1: nat, q1: nat, c2: nat, q2: nat)
    requires ItemId(c1, q1) == ItemId(c2, q2)
    ensures c1 == c2 && q1 == q2
  {
    var a := NatToString(c1);
    var b := NatToString(c2);
    var s := ItemId(c1, q1);
    assert |a| == |b|;
    assert a == s[..|a|] == b;
    assert NatToString(q1) == s[|a| + 1..] == NatToString(q2);
    NatToStringInjective(c1, c2);
    NatToStringInjective(q1, q2);
  }
}
