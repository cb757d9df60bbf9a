/** `remove_duplicates`: `list(set(messages))` and the number of entries it dropped.
    Python leaves the order of the list unspecified; the model fixes one order (first
    occurrence) and proves that every list a set could produce is a permutation of it,
    so the duplicate count does not depend on that choice. */
module Dedupe {

  predicate NoDuplicates(s: seq<string>) {
    forall i, j | 0 <= i < j < |s| :: s[i] != s[j]
  }

  /** The distinct elements of `s`, each once, in order of first occurrence. */
  function Distinct(s: seq<string>): (u: seq<string>)
    ensures NoDuplicates(u)
    ensures forall x :: x in u <==> x in s
    ensures |u| <= |s|
  {
    if s == [] then []
    else
      var u := Distinct(s[..|s| - 1]);
      var last := s[|s| - 1];
      assert forall x :: x in s <==> x in s[..|s| - 1] || x == last;
      if last in u then u else u + [last]
  }

  /** `remove_duplicates(messages)`: the unique list and the number removed. */
  function RemoveDuplicates(messages: seq<string>): (result: (seq<string>, int))
    ensures NoDuplicates(result.0)
    ensures forall x :: x in result.0 <==> x in messages
    ensures result.1 >= 0 && |result.0| + result.1 == |messages|
  {
    var unique := Distinct(messages);
    (unique, |messages| - |unique|)
  }

  /** In a list without repeats, every element occurs exactly once. */
  lemma {:induction false} OccursOnce(u: seq<string>, x: string)
    requires NoDuplicates(u)
    ensures multiset(u)[x] == if x in u then 1 else 0
  {
    if u != [] {
      var init := u[..|u| - 1];
      assert u == init + [u[|u| - 1]];
      OccursOnce(init, x);
      if x == u[|u| - 1] {
        assert x !in init;
      }
    }
  }

  /** Whatever order the set hands its elements back in, the unique list is a permutation
      of the model's and so has the same length: the duplicate count is order-independent. */
  lemma UniqueListsArePermutations(messages: seq<string>, u1: seq<string>, u2: seq<string>)
    requires NoDuplicates(u1) && forall x :: x in u1 <==> x in messages
    requires NoDuplicates(u2) && forall x :: x in u2 <==> x in messages
    ensures multiset(u1) == multiset(u2)
    ensures |u1| == |u2|
  {
    forall x ensures multiset(u1)[x] == multiset(u2)[x] {
      OccursOnce(u1, x);
      OccursOnce(u2, x);
    }
    assert multiset(u1) == multiset(u2);
    assert |multiset(u1)| == |u1| && |multiset(u2)| == |u2|;
  }

  /** A list without repeats is its own distinct list. */
  lemma {:induction false} DistinctOfUnique(u: seq<string>)
    requires NoDuplicates(u)
    ensures Distinct(u) == u
  {
    if u != [] {
      var init := u[..|u| - 1];
      DistinctOfUnique(init);
      assert u[|u| - 1] !in init;
      assert init + [u[|u| - 1]] == u;
    }
  }

  /** Deduplicating an already deduplicated list removes nothing. */
  lemma RemoveDuplicatesIdempotent(messages: seq<string>)
    ensures RemoveDuplicates(RemoveDuplicates(messages).0) == (RemoveDuplicates(messages).0, 0)
  {
    DistinctOfUnique(RemoveDuplicates(messages).0);
  }

  lemma RemoveDuplicatesExample(messages: seq<string>)
    requires messages == ["A|1|2|3", "A|1|2|3", "B|4|5|6"]
    ensures RemoveDuplicates(messages) == (["A|1|2|3", "B|4|5|6"], 1)
  {
    var a, b := "A|1|2|3", "B|4|5|6";
    assert a != b by { assert a[0] != b[0]; }
    assert messages[..1] == [a] && messages[..2] == [a, a] && messages[2] == b;
    assert Distinct([a]) == [a] by { assert [a][..0] == messages[..0]; }
    assert Distinct([a, a]) == [a] by { assert [a, a][..1] == [a]; }
    assert Distinct(messages) == [a] + [b] == [a, b];
    assert RemoveDuplicates(messages) == ([a, b], 3 - 2);
  }
}
