/** Small facts about sequences shared by the filters and the allocator's partition. */
module Seqs {

  /** A non-empty sequence's multiset is its head added to the multiset of its tail. */
  lemma MultisetHead<T>(s: seq<T>)
    requires s != []
    ensures multiset(s) == multiset{s[0]} + multiset(s[1..])
  {
    assert s == [s[0]] + s[1..];
  }

  /**
   * The elements of s that satisfy keep, in the order of s: a SQL `where` over a table. Each
   * element is kept as often as it occurs in s, so nothing is duplicated.
   */
  function Filter<T>(s: seq<T>, keep: T -> bool): (r: seq<T>)
    ensures forall k :: 0 <= k < |r| ==> r[k] in s && keep(r[k])
    ensures forall k :: 0 <= k < |s| && keep(s[k]) ==> s[k] in r
    ensures multiset(r) <= multiset(s)
    decreases |s|
  {
    if s == [] then []
    else
      var rest := Filter(s[1..], keep);
      var head := if keep(s[0]) then [s[0]] else [];
      KeptFromInput(s, keep, head, rest);
      KeepsEveryMatch(s, keep, head, rest);
      KeptAtMostOnce(s, head, rest);
      head + rest
  }

  lemma KeptFromInput<T>(s: seq<T>, keep: T -> bool, head: seq<T>, rest: seq<T>)
    requires s != [] && head == (if keep(s[0]) then [s[0]] else [])
    requires forall k :: 0 <= k < |rest| ==> rest[k] in s[1..] && keep(rest[k])
    ensures forall k :: 0 <= k < |head + rest| ==> (head + rest)[k] in s && keep((head + rest)[k])
  {
    forall k | 0 <= k < |head + rest|
      ensures (head + rest)[k] in s && keep((head + rest)[k])
    {
      if k >= |head| {
        assert (head + rest)[k] == rest[k - |head|];
      }
    }
  }

  lemma KeepsEveryMatch<T>(s: seq<T>, keep: T -> bool, head: seq<T>, rest: seq<T>)
    requires s != [] && head == (if keep(s[0]) then [s[0]] else [])
    requires forall k :: 0 <= k < |s[1..]| && keep(s[1..][k]) ==> s[1..][k] in rest
    ensures forall k :: 0 <= k < |s| && keep(s[k]) ==> s[k] in head + rest
  {
    forall k | 0 <= k < |s| && keep(s[k])
      ensures s[k] in head + rest
    {
      if k > 0 {
        assert s[k] == s[1..][k - 1];
      }
    }
  }

  lemma KeptAtMostOnce<T>(s: seq<T>, head: seq<T>, rest: seq<T>)
    requires s != [] && (head == [] || head == [s[0]])
    requires multiset(rest) <= multiset(s[1..])
    ensures multiset(head + rest) <= multiset(s)
  {
    MultisetHead(s);
  }
}
