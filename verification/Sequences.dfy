/** Sequences without repetition and the sets they list. */
module Sequences {

  ghost predicate NoDuplicates<T>(s: seq<T>) {
    forall i, j :: 0 <= i < j < |s| ==> s[i] != s[j]
  }

  ghost function Members<T>(s: seq<T>): set<T> {
    set x | x in s
  }

  lemma {:induction false} MembersSize<T>(s: seq<T>)
    requires NoDuplicates(s)
    ensures |Members(s)| == |s|
  {
    if s != [] {
      var init, last := s[..|s| - 1], s[|s| - 1];
      MembersSize(init);
      assert Members(s) == Members(init) + {last};
    }
  }

  lemma {:induction false} DuplicateFreeMultiset<T(!new)>(s: seq<T>)
    ensures NoDuplicates(s) <==> forall x :: multiset(s)[x] <= 1
  {
    if s != [] {
      var init, last := s[..|s| - 1], s[|s| - 1];
      assert s == init + [last];
      DuplicateFreeMultiset(init);
      if NoDuplicates(s) {
        assert last !in init;
      }
      if forall x :: multiset(s)[x] <= 1 {
        assert multiset(s)[last] == multiset(init)[last] + 1;
        assert forall x :: multiset(init)[x] <= multiset(s)[x];
        assert last !in init;
      }
    }
  }

  lemma PermutationKeepsDistinct<T(!new)>(s: seq<T>, p: seq<T>)
    requires multiset(s) == multiset(p) && NoDuplicates(s)
    ensures NoDuplicates(p) && Members(p) == Members(s) && |p| == |s|
  {
    DuplicateFreeMultiset(s);
    DuplicateFreeMultiset(p);
    assert forall x :: x in s <==> x in multiset(s);
    assert forall x :: x in p <==> x in multiset(p);
    assert |multiset(s)| == |s| && |multiset(p)| == |p|;
  }

  lemma SameMembers<T(!new)>(s: seq<T>, p: seq<T>)
    ensures Members(s) == Members(p) <==> forall x :: x in s <==> x in p
  {
    assert forall x :: x in Members(s) <==> x in s;
    assert forall x :: x in Members(p) <==> x in p;
  }

  lemma LastApart<T>(a: seq<T>, b: seq<T>)
    requires b != []
    ensures b == b[..|b| - 1] + [b[|b| - 1]] && a + b == (a + b[..|b| - 1]) + [b[|b| - 1]]
  {
  }
}
