/** Byte-wise string order and the two sorting routines of Go's `sort` package that the repository relies on. */
module Ordering {

  /** Go's `<` on strings: lexicographic, a proper prefix being smaller. */
  predicate Less(a: string, b: string) {
    if b == "" then false
    else if a == "" then true
    else if a[0] != b[0] then a[0] < b[0]
    else Less(a[1..], b[1..])
  }

  predicate AtMost(a: string, b: string) {
    !Less(b, a)
  }

  lemma {:induction false} AtMostTransitive(a: string, b: string, c: string)
    requires AtMost(a, b) && AtMost(b, c)
    ensures AtMost(a, c)
  {
    if a != "" && b != "" && c != "" && a[0] == b[0] == c[0] {
      AtMostTransitive(a[1..], b[1..], c[1..]);
    }
  }

  lemma {:induction false} AtMostTotal(a: string, b: string)
    ensures AtMost(a, b) || AtMost(b, a)
  {
    if a != "" && b != "" && a[0] == b[0] {
      AtMostTotal(a[1..], b[1..]);
    }
  }

  lemma {:induction false} AtMostAntisymmetric(a: string, b: string)
    requires AtMost(a, b) && AtMost(b, a)
    ensures a == b
  {
    if a != "" && b != "" && a[0] == b[0] {
      AtMostAntisymmetric(a[1..], b[1..]);
    }
  }

  /** One string is at most another exactly when it is a prefix of it or has the smaller character where they first differ. */
  lemma {:induction false} AtMostWhen(a: string, b: string)
    ensures AtMost(a, b) <==> a <= b || exists n :: 0 <= n < |a| && n < |b| && a[..n] == b[..n] && a[n] < b[n]
  {
    if a != "" && b != "" {
      AtMostWhen(a[1..], b[1..]);
      if a[0] == b[0] {
        SmallerTail(a, b);
      } else if a[0] < b[0] {
        assert a[..0] == b[..0];
      }
    }
  }

  lemma SmallerTail(a: string, b: string)
    requires a != "" && b != "" && a[0] == b[0]
    ensures (exists n :: 0 <= n < |a| && n < |b| && a[..n] == b[..n] && a[n] < b[n]) <==>
            (exists n :: 0 <= n < |a[1..]| && n < |b[1..]| && a[1..][..n] == b[1..][..n] && a[1..][n] < b[1..][n])
    ensures a <= b <==> a[1..] <= b[1..]
  {
    assert a == [a[0]] + a[1..] && b == [b[0]] + b[1..];
    if n :| 0 <= n < |a| && n < |b| && a[..n] == b[..n] && a[n] < b[n] {
      assert a[1..][..n - 1] == a[..n][1..] && b[1..][..n - 1] == b[..n][1..];
    }
    if n :| 0 <= n < |a[1..]| && n < |b[1..]| && a[1..][..n] == b[1..][..n] && a[1..][n] < b[1..][n] {
      assert a[..n + 1] == [a[0]] + a[1..][..n] && b[..n + 1] == [b[0]] + b[1..][..n];
    }
  }

  ghost predicate TotalPreorder<T(!new)>(le: (T, T) -> bool) {
    && (forall x, y :: le(x, y) || le(y, x))
    && (forall x, y, z :: le(x, y) && le(y, z) ==> le(x, z))
  }

  ghost predicate SortedBy<T>(s: seq<T>, le: (T, T) -> bool) {
    forall i, j :: 0 <= i < j < |s| ==> le(s[i], s[j])
  }

  /** Comparison by a string key, as in the repository's `sort.Slice` callbacks. */
  function ByKey<T>(key: T -> string): (T, T) -> bool {
    (x, y) => AtMost(key(x), key(y))
  }

  lemma ByKeyIsPreorder<T(!new)>(key: T -> string)
    ensures TotalPreorder(ByKey(key))
  {
    var le := ByKey(key);
    forall x: T, y: T ensures le(x, y) || le(y, x) {
      AtMostTotal(key(x), key(y));
    }
    forall x: T, y: T, z: T | le(x, y) && le(y, z) ensures le(x, z) {
      AtMostTransitive(key(x), key(y), key(z));
    }
  }

  /** Where `x` goes in a sorted sequence: after every element that is at most `x`. */
  method InsertionPoint<T(!new)>(s: seq<T>, x: T, le: (T, T) -> bool) returns (at: nat)
    requires TotalPreorder(le) && SortedBy(s, le)
    ensures at <= |s|
    ensures at == 0 || le(s[at - 1], x)
    ensures forall k :: at <= k < |s| ==> le(x, s[k])
  {
    at := |s|;
    while at > 0 && !le(s[at - 1], x)
      invariant at <= |s|
      invariant forall k :: at <= k < |s| ==> le(x, s[k])
    {
      at := at - 1;
    }
  }

  lemma InsertKeepsSorted<T(!new)>(s: seq<T>, at: nat, x: T, le: (T, T) -> bool)
    requires TotalPreorder(le) && SortedBy(s, le)
    requires at <= |s| && (at == 0 || le(s[at - 1], x))
    requires forall k :: at <= k < |s| ==> le(x, s[k])
    ensures SortedBy(s[..at] + [x] + s[at..], le)
    ensures multiset(s[..at] + [x] + s[at..]) == multiset(s) + multiset{x}
  {
    assert s == s[..at] + s[at..];
    var r := s[..at] + [x] + s[at..];
    forall i, j | 0 <= i < j < |r| ensures le(r[i], r[j]) {
      if i < at == j && i < at - 1 {
        assert le(s[i], s[at - 1]);
      }
    }
  }

  /** `sort.Slice`: callers learn only that the result is some sorted permutation,
      because the routine is not stable. */
  method Sort<T(!new)>(items: seq<T>, le: (T, T) -> bool) returns (sorted: seq<T>)
    requires TotalPreorder(le)
    ensures multiset(sorted) == multiset(items) && |sorted| == |items|
    ensures SortedBy(sorted, le)
  {
    sorted := [];
    for n := 0 to |items|
      invariant multiset(sorted) == multiset(items[..n]) && |sorted| == n
      invariant SortedBy(sorted, le)
    {
      var at := InsertionPoint(sorted, items[n], le);
      InsertKeepsSorted(sorted, at, items[n], le);
      assert items[..n + 1] == items[..n] + [items[n]];
      sorted := sorted[..at] + [items[n]] + sorted[at..];
    }
    assert items[..|items|] == items;
  }

  // ----- the stable sort -----

  /** `x` goes after every element that may stand before it. */
  function Insert<T>(s: seq<T>, x: T, le: (T, T) -> bool): seq<T> {
    if s == [] || le(s[|s| - 1], x) then s + [x] else Insert(s[..|s| - 1], x, le) + [s[|s| - 1]]
  }

  /** `sort.SliceStable`; what makes it that is `StableSortIsStable`, and that nothing else is, `StableOrderUnique`. */
  function StableSort<T>(items: seq<T>, le: (T, T) -> bool): seq<T> {
    if items == [] then [] else Insert(StableSort(items[..|items| - 1], le), items[|items| - 1], le)
  }

  /** The elements that tie with `x`, in order. */
  function Ties<T>(s: seq<T>, x: T, le: (T, T) -> bool): seq<T> {
    if s == [] then []
    else
      var last := s[|s| - 1];
      Ties(s[..|s| - 1], x, le) + (if le(x, last) && le(last, x) then [last] else [])
  }

  lemma TiesSnoc<T>(s: seq<T>, y: T, x: T, le: (T, T) -> bool)
    ensures Ties(s + [y], x, le) == Ties(s, x, le) + (if le(x, y) && le(y, x) then [y] else [])
  {
    assert (s + [y])[..|s|] == s;
  }

  lemma {:induction false} InsertSorts<T(!new)>(s: seq<T>, x: T, le: (T, T) -> bool)
    requires TotalPreorder(le) && SortedBy(s, le)
    ensures SortedBy(Insert(s, x, le), le)
    ensures multiset(Insert(s, x, le)) == multiset(s) + multiset{x}
  {
    if s == [] {
    } else if le(s[|s| - 1], x) {
      forall i | 0 <= i < |s| ensures le(s[i], x) {
        assert le(s[i], s[|s| - 1]);
      }
    } else {
      var init, last := s[..|s| - 1], s[|s| - 1];
      assert s == init + [last];
      InsertSorts(init, x, le);
      forall y | y in Insert(init, x, le) ensures le(y, last) {
        assert y in multiset(Insert(init, x, le));
      }
    }
  }

  lemma {:induction false} InsertKeepsTies<T>(s: seq<T>, x: T, z: T, le: (T, T) -> bool)
    requires forall u, v :: u in s && le(z, u) && le(u, z) && le(z, v) && le(v, z) ==> le(u, v)
    ensures Ties(Insert(s, x, le), z, le) == Ties(s + [x], z, le)
  {
    hide Ties;
    if s != [] && !le(s[|s| - 1], x) {
      var init, last := s[..|s| - 1], s[|s| - 1];
      assert s == init + [last];
      InsertKeepsTies(init, x, z, le);
      TiesSnoc(Insert(init, x, le), last, z, le);
      TiesSnoc(init, x, z, le);
      TiesSnoc(init, last, z, le);
      TiesSnoc(s, x, z, le);
    }
  }

  lemma {:induction false} StableSortIsStable<T(!new)>(items: seq<T>, le: (T, T) -> bool)
    requires TotalPreorder(le)
    ensures SortedBy(StableSort(items, le), le)
    ensures multiset(StableSort(items, le)) == multiset(items)
    ensures forall z :: Ties(StableSort(items, le), z, le) == Ties(items, z, le)
  {
    if items != [] {
      var init, last := items[..|items| - 1], items[|items| - 1];
      assert items == init + [last];
      StableSortIsStable(init, le);
      InsertSorts(StableSort(init, le), last, le);
      forall z ensures Ties(StableSort(items, le), z, le) == Ties(items, z, le) {
        InsertKeepsTies(StableSort(init, le), last, z, le);
        TiesSnoc(StableSort(init, le), last, z, le);
        TiesSnoc(init, last, z, le);
      }
    }
  }

  lemma {:induction false} TiesComplete<T>(s: seq<T>, x: T, le: (T, T) -> bool)
    ensures forall y :: y in Ties(s, x, le) <==> y in s && le(x, y) && le(y, x)
  {
    if s != [] {
      assert s == s[..|s| - 1] + [s[|s| - 1]];
      TiesComplete(s[..|s| - 1], x, le);
    }
  }

  /** A stable sort has no freedom: order and ties determine the result. */
  lemma {:induction false} StableOrderUnique<T(!new)>(a: seq<T>, b: seq<T>, le: (T, T) -> bool)
    requires TotalPreorder(le) && SortedBy(a, le) && SortedBy(b, le)
    requires forall z :: Ties(a, z, le) == Ties(b, z, le)
    ensures a == b
    decreases |a|
  {
    if a == [] || b == [] {
      OneEmpty(a, b, le);
      OneEmpty(b, a, le);
    } else {
      LastMayFollow(a, b, le);
      LastMayFollow(b, a, le);
      var m, n := |a| - 1, |b| - 1;
      var x, y := a[m], b[n];
      assert a == a[..m] + [x] && b == b[..n] + [y];
      TiesSnoc(a[..m], x, x, le);
      TiesSnoc(b[..n], y, x, le);
      assert Ties(a, x, le)[|Ties(a, x, le)| - 1] == x;
      assert x == y;
      forall z ensures Ties(a[..m], z, le) == Ties(b[..n], z, le) {
        TiesSnoc(a[..m], x, z, le);
        TiesSnoc(b[..n], x, z, le);
        SnocCancels(Ties(a[..m], z, le), Ties(b[..n], z, le), if le(z, x) && le(x, z) then [x] else []);
      }
      StableOrderUnique(a[..m], b[..n], le);
    }
  }

  lemma SnocCancels<T>(p: seq<T>, q: seq<T>, r: seq<T>)
    requires p + r == q + r
    ensures p == q
  {
    assert |p| == |q| && p == (p + r)[..|p|] && q == (q + r)[..|q|];
  }

  lemma OneEmpty<T(!new)>(a: seq<T>, b: seq<T>, le: (T, T) -> bool)
    requires TotalPreorder(le) && forall z :: Ties(a, z, le) == Ties(b, z, le)
    ensures a == [] ==> b == []
  {
    if b != [] {
      TiesComplete(b, b[0], le);
      TiesComplete(a, b[0], le);
      assert b[0] in Ties(a, b[0], le);
    }
  }

  lemma LastMayFollow<T(!new)>(a: seq<T>, b: seq<T>, le: (T, T) -> bool)
    requires TotalPreorder(le) && SortedBy(a, le) && a != [] && b != []
    requires forall z :: Ties(a, z, le) == Ties(b, z, le)
    ensures le(b[|b| - 1], a[|a| - 1])
  {
    var y := b[|b| - 1];
    TiesComplete(b, y, le);
    TiesComplete(a, y, le);
    assert y in Ties(a, y, le);
    var i :| 0 <= i < |a| && a[i] == y;
  }
}
