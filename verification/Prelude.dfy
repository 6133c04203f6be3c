/** The failure-carrying datatypes shared by every component. */
module Wrappers {
  datatype Option<+T> = None | Some(value: T) {
    function GetOr(default: T): T {
      match this
      case Some(v) => v
      case None => default
    }
  }

  datatype Result<+T, +E> = Ok(value: T) | Err(error: E)
}

/** What the proofs need to know about sequences. */
module Seqs {
  function Filter<T(!new)>(s: seq<T>, p: T -> bool): (r: seq<T>)
    ensures |r| <= |s|
    ensures forall x :: x in r <==> x in s && p(x)
  {
    if s == [] then []
    else if p(s[0]) then [s[0]] + Filter(s[1..], p)
    else Filter(s[1..], p)
  }

  function Map<T, U>(s: seq<T>, f: T -> U): (r: seq<U>)
    ensures |r| == |s|
    ensures forall i :: 0 <= i < |s| ==> r[i] == f(s[i])
  {
    seq(|s|, i requires 0 <= i < |s| => f(s[i]))
  }

  lemma {:induction false} FilterConcat<T(!new)>(a: seq<T>, b: seq<T>, p: T -> bool)
    ensures Filter(a + b, p) == Filter(a, p) + Filter(b, p)
  {
    if a == [] {
      assert a + b == b;
    } else {
      assert (a + b)[0] == a[0] && (a + b)[1..] == a[1..] + b;
      FilterConcat(a[1..], b, p);
    }
  }

  /** Filtering by p and then by q is filtering by r when r says both. */
  lemma {:induction false} FilterTwice<T(!new)>(s: seq<T>, p: T -> bool, q: T -> bool, r: T -> bool)
    requires forall x :: x in s ==> (r(x) <==> p(x) && q(x))
    ensures Filter(Filter(s, p), q) == Filter(s, r)
  {
    if s != [] {
      FilterTwice(s[1..], p, q, r);
      if p(s[0]) {
        var t := Filter(s[1..], p);
        assert ([s[0]] + t)[1..] == t;
      }
    }
  }

  lemma {:induction false} FilterAgree<T(!new)>(s: seq<T>, p: T -> bool, q: T -> bool)
    requires forall x :: x in s ==> (p(x) <==> q(x))
    ensures Filter(s, p) == Filter(s, q)
  {
    if s != [] {
      FilterAgree(s[1..], p, q);
    }
  }

  lemma {:induction false} FilterAll<T(!new)>(s: seq<T>, p: T -> bool)
    requires forall x :: x in s ==> p(x)
    ensures Filter(s, p) == s
  {
    if s != [] {
      FilterAll(s[1..], p);
    }
  }

  /** Filtering that drops nothing changes nothing. */
  lemma {:induction false} FilterSameLength<T(!new)>(s: seq<T>, p: T -> bool)
    ensures |Filter(s, p)| == |s| ==> Filter(s, p) == s
  {
    if s != [] {
      FilterSameLength(s[1..], p);
    }
  }

  lemma {:induction false} FilterNone<T(!new)>(s: seq<T>, p: T -> bool)
    requires forall x :: x in s ==> !p(x)
    ensures Filter(s, p) == []
  {
    if s != [] {
      FilterNone(s[1..], p);
    }
  }

  /** The first `n` elements dropped when there are more than `k` left. */
  function LastK<T>(s: seq<T>, k: nat): (r: seq<T>)
    ensures |r| <= k
  {
    if |s| <= k then s else s[|s| - k..]
  }

  ghost predicate Pairwise<T>(s: seq<T>, r: (T, T) -> bool) {
    forall i, j :: 0 <= i < j < |s| ==> r(s[i], s[j])
  }

  lemma {:induction false} FilterPairwise<T(!new)>(s: seq<T>, p: T -> bool, r: (T, T) -> bool)
    requires Pairwise(s, r)
    ensures Pairwise(Filter(s, p), r)
  {
    if s != [] {
      var t := s[1..];
      FilterPairwise(t, p, r);
      if p(s[0]) {
        var f := Filter(t, p);
        forall j | 0 <= j < |f|
          ensures r(s[0], f[j])
        {
          assert f[j] in t;
          var k :| 0 <= k < |t| && t[k] == f[j];
          assert s[k + 1] == f[j];
        }
      }
    }
  }

  lemma PairwiseAppend<T(!new)>(s: seq<T>, x: T, r: (T, T) -> bool)
    requires Pairwise(s, r)
    requires forall y :: y in s ==> r(y, x)
    ensures Pairwise(s + [x], r)
  {
    forall i, j | 0 <= i < j < |s + [x]|
      ensures r((s + [x])[i], (s + [x])[j])
    {
      if j == |s| {
        assert s[i] in s;
      }
    }
  }

  // ---- sorting -------------------------------------------------------------

  function Insert<T(!new)>(x: T, s: seq<T>, atMost: (T, T) -> bool): (r: seq<T>)
    ensures multiset(r) == multiset(s) + multiset{x}
  {
    if s == [] then [x]
    else if atMost(x, s[0]) then [x] + s
    else
      assert s == [s[0]] + s[1..];
      [s[0]] + Insert(x, s[1..], atMost)
  }

  /** A stable sort. */
  function Sort<T(!new)>(s: seq<T>, atMost: (T, T) -> bool): (r: seq<T>)
    ensures multiset(r) == multiset(s)
  {
    if s == [] then []
    else
      assert s == [s[0]] + s[1..];
      Insert(s[0], Sort(s[1..], atMost), atMost)
  }

  ghost predicate TotalOrder<T(!new)>(atMost: (T, T) -> bool) {
    && (forall x, y :: atMost(x, y) || atMost(y, x))
    && (forall x, y, z :: atMost(x, y) && atMost(y, z) ==> atMost(x, z))
  }

  lemma {:induction false} InsertSorted<T(!new)>(x: T, s: seq<T>, atMost: (T, T) -> bool)
    requires TotalOrder(atMost) && Pairwise(s, atMost)
    ensures Pairwise(Insert(x, s, atMost), atMost)
  {
    if s != [] {
      assert forall j :: 0 < j < |s| ==> atMost(s[0], s[j]);
      if !atMost(x, s[0]) {
        var t := Insert(x, s[1..], atMost);
        InsertSorted(x, s[1..], atMost);
        forall j | 0 <= j < |t| ensures atMost(s[0], t[j]) {
          assert t[j] in multiset(t);
          assert t[j] == x || t[j] in s[1..];
        }
      }
    }
  }

  lemma {:induction false} SortSorted<T(!new)>(s: seq<T>, atMost: (T, T) -> bool)
    requires TotalOrder(atMost)
    ensures Pairwise(Sort(s, atMost), atMost)
  {
    if s != [] {
      SortSorted(s[1..], atMost);
      InsertSorted(s[0], Sort(s[1..], atMost), atMost);
    }
  }

  lemma {:induction false} SortOfSorted<T(!new)>(s: seq<T>, atMost: (T, T) -> bool)
    requires Pairwise(s, atMost)
    ensures Sort(s, atMost) == s
  {
    if s != [] {
      assert forall i, j :: 0 <= i < j < |s[1..]| ==> s[1..][i] == s[i + 1] && s[1..][j] == s[j + 1];
      SortOfSorted(s[1..], atMost);
      assert |s| > 1 ==> atMost(s[0], s[1]);
    }
  }

  lemma {:induction false} FilterInsert<T(!new)>(x: T, s: seq<T>, p: T -> bool, le: (T, T) -> bool)
    requires TotalOrder(le) && Pairwise(s, le)
    ensures Filter(Insert(x, s, le), p) == if p(x) then Insert(x, Filter(s, p), le) else Filter(s, p)
  {
    if s != [] {
      var t := s[1..];
      var f := Filter(t, p);
      assert forall y :: y in t ==> le(s[0], y);
      if le(x, s[0]) {
        assert ([x] + s)[1..] == s;
        assert forall y :: y in Filter(s, p) ==> le(x, y);
      } else {
        PairwiseTail(s, le);
        FilterInsert(x, t, p, le);
        assert ([s[0]] + Insert(x, t, le))[1..] == Insert(x, t, le);
        assert ([s[0]] + f)[1..] == f;
      }
    }
  }

  /** Filtering then sorting, or sorting then filtering. */
  lemma {:induction false} FilterSort<T(!new)>(s: seq<T>, p: T -> bool, le: (T, T) -> bool)
    requires TotalOrder(le)
    ensures Filter(Sort(s, le), p) == Sort(Filter(s, p), le)
  {
    if s != [] {
      var t := s[1..];
      FilterSort(t, p, le);
      SortSorted(t, le);
      FilterInsert(s[0], Sort(t, le), p, le);
      assert ([s[0]] + Filter(t, p))[1..] == Filter(t, p);
    }
  }

  ghost predicate DistinctBy<T, U>(s: seq<T>, key: T -> U) {
    forall i, j :: 0 <= i < j < |s| ==> key(s[i]) != key(s[j])
  }

  lemma Once<T(!new), U>(s: seq<T>, key: T -> U, k: nat)
    requires k < |s| && DistinctBy(s, key)
    ensures multiset(s)[s[k]] == 1
  {
    var x := s[k];
    assert s == s[..k] + [x] + s[k + 1..];
    assert x !in s[..k] && x !in s[k + 1..];
    assert multiset(s)[x] == multiset(s[..k])[x] + 1 + multiset(s[k + 1..])[x];
  }

  lemma Twice<T(!new)>(s: seq<T>, i: nat, j: nat)
    requires i < j < |s|
    ensures s[i] == s[j] ==> multiset(s)[s[i]] >= 2
  {
    assert s == s[..i] + [s[i]] + s[i + 1..j] + [s[j]] + s[j + 1..];
  }

  /** Elements apart stay apart, in whatever order. */
  lemma DistinctPermuted<T(!new), U>(s: seq<T>, t: seq<T>, key: T -> U)
    requires DistinctBy(s, key) && multiset(t) == multiset(s)
    ensures DistinctBy(t, key)
  {
    SameMembers(t, s);
    forall i, j | 0 <= i < j < |t| ensures key(t[i]) != key(t[j]) {
      assert t[i] in t && t[j] in t;
      var k :| 0 <= k < |s| && s[k] == t[i];
      var l :| 0 <= l < |s| && s[l] == t[j];
      Once(s, key, k);
      Twice(t, i, j);
    }
  }

  lemma PairwiseTail<T>(s: seq<T>, r: (T, T) -> bool)
    requires Pairwise(s, r) && s != []
    ensures Pairwise(s[1..], r)
  {
    var t := s[1..];
    forall i, j | 0 <= i < j < |t| ensures r(t[i], t[j]) {
      assert t[i] == s[i + 1] && t[j] == s[j + 1];
    }
  }

  lemma MapTail<T, U>(s: seq<T>, f: T -> U)
    requires s != []
    ensures Map(s, f)[0] == f(s[0]) && Map(s, f)[1..] == Map(s[1..], f)
  {}

  lemma HeadAndTail<T>(s: seq<T>)
    requires s != []
    ensures s == [s[0]] + s[1..]
  {}

  lemma TakeOneMore<T>(s: seq<T>, k: nat)
    requires k < |s|
    ensures s[..k + 1] == s[..k] + [s[k]] && s[..k + 1][..k] == s[..k]
  {}

  lemma Regroup<T>(a: seq<T>, b: seq<T>, c: seq<T>, d: seq<T>)
    ensures a + b + c == a + (b + c)
    ensures a + b + c + d == a + (b + (c + d))
  {}

  lemma MapConcat<T, U>(a: seq<T>, b: seq<T>, f: T -> U)
    ensures Map(a + b, f) == Map(a, f) + Map(b, f)
  {}

  /** One element taken out, and its image with it. */
  lemma MapWithout<T(!new), U(!new)>(s: seq<T>, j: nat, t: seq<T>, f: T -> U)
    requires j < |s| && t == s[..j] + s[j + 1..]
    ensures multiset(t) == multiset(s) - multiset{s[j]}
    ensures multiset(Map(s, f)) == multiset(Map(t, f)) + multiset{f(s[j])}
  {
    var a, b := s[..j], s[j + 1..];
    assert s == a + [s[j]] + b;
    MapConcat(a + [s[j]], b, f);
    MapConcat(a, [s[j]], f);
    MapConcat(a, b, f);
    assert Map([s[j]], f) == [f(s[j])];
  }

  lemma {:induction false} MapMultiset<T(!new), U(!new)>(s: seq<T>, s': seq<T>, f: T -> U)
    requires multiset(s) == multiset(s')
    ensures multiset(Map(s, f)) == multiset(Map(s', f))
  {
    SameMembers(s, s');
    if s != [] {
      var x := s[0];
      assert x in s';
      var j :| 0 <= j < |s'| && s'[j] == x;
      var t, t' := s[..0] + s[0 + 1..], s'[..j] + s'[j + 1..];
      MapWithout(s, 0, t, f);
      MapWithout(s', j, t', f);
      MapMultiset(t, t', f);
    }
  }

  lemma FilterWithout<T(!new)>(s: seq<T>, j: nat, t: seq<T>, p: T -> bool)
    requires j < |s| && t == s[..j] + s[j + 1..]
    ensures multiset(t) == multiset(s) - multiset{s[j]}
    ensures |Filter(s, p)| == |Filter(t, p)| + if p(s[j]) then 1 else 0
  {
    var a, b := s[..j], s[j + 1..];
    assert s == a + [s[j]] + b;
    FilterConcat(a + [s[j]], b, p);
    FilterConcat(a, [s[j]], p);
    FilterConcat(a, b, p);
  }

  /** Counting does not depend on the order. */
  lemma {:induction false} CountPermuted<T(!new)>(s: seq<T>, s': seq<T>, p: T -> bool)
    requires multiset(s) == multiset(s')
    ensures |Filter(s, p)| == |Filter(s', p)|
  {
    SameMembers(s, s');
    if s != [] {
      var x := s[0];
      assert x in s';
      var j :| 0 <= j < |s'| && s'[j] == x;
      var t, t' := s[..0] + s[0 + 1..], s'[..j] + s'[j + 1..];
      FilterWithout(s, 0, t, p);
      FilterWithout(s', j, t', p);
      CountPermuted(t, t', p);
    }
  }

  /** `f` keeps the order. */
  ghost predicate KeepsOrder<T(!new), U(!new)>(f: T -> U, le: (T, T) -> bool, le': (U, U) -> bool) {
    forall x, y :: le'(f(x), f(y)) == le(x, y)
  }

  lemma {:induction false} InsertMapped<T(!new), U(!new)>(x: T, s: seq<T>, f: T -> U, le: (T, T) -> bool, le': (U, U) -> bool)
    requires KeepsOrder(f, le, le')
    ensures Map(Insert(x, s, le), f) == Insert(f(x), Map(s, f), le')
  {
    if s != [] {
      var t := s[1..];
      assert Map(s, f)[1..] == Map(t, f);
      if le(x, s[0]) {
        MapConcat([x], s, f);
      } else {
        InsertMapped(x, t, f, le, le');
        MapConcat([s[0]], Insert(x, t, le), f);
      }
    }
  }

  /** Sorting then mapping, or mapping then sorting. */
  lemma {:induction false} SortMapped<T(!new), U(!new)>(s: seq<T>, f: T -> U, le: (T, T) -> bool, le': (U, U) -> bool)
    requires KeepsOrder(f, le, le')
    ensures Map(Sort(s, le), f) == Sort(Map(s, f), le')
  {
    if s != [] {
      SortMapped(s[1..], f, le, le');
      assert Map(s, f)[1..] == Map(s[1..], f);
      InsertMapped(s[0], Sort(s[1..], le), f, le, le');
    }
  }

  function AtMostBy<T>(key: T -> int): (T, T) -> bool { (x: T, y: T) => key(x) <= key(y) }

  /** A stable sort by a number. */
  function SortBy<T(!new)>(s: seq<T>, key: T -> int): (r: seq<T>)
    ensures multiset(r) == multiset(s)
  {
    Sort(s, AtMostBy(key))
  }

  ghost predicate SortedBy<T>(s: seq<T>, key: T -> int) {
    forall i, j :: 0 <= i < j < |s| ==> key(s[i]) <= key(s[j])
  }

  lemma SortBySorted<T(!new)>(s: seq<T>, key: T -> int)
    ensures SortedBy(SortBy(s, key), key)
  {
    SortSorted(s, AtMostBy(key));
    var r := SortBy(s, key);
    forall i, j | 0 <= i < j < |r| ensures key(r[i]) <= key(r[j]) {
      assert AtMostBy(key)(r[i], r[j]);
    }
  }

  /** Lexicographic order, the elements compared by `key`. */
  function LexAtMost<T>(a: seq<T>, b: seq<T>, key: T -> int): bool {
    if a == [] then true
    else if b == [] || key(a[0]) > key(b[0]) then false
    else if key(a[0]) < key(b[0]) then true
    else LexAtMost(a[1..], b[1..], key)
  }

  lemma {:induction false} LexTotal<T>(a: seq<T>, b: seq<T>, key: T -> int)
    ensures LexAtMost(a, b, key) || LexAtMost(b, a, key)
  {
    if a != [] && b != [] {
      LexTotal(a[1..], b[1..], key);
    }
  }

  lemma {:induction false} LexTransitive<T>(a: seq<T>, b: seq<T>, c: seq<T>, key: T -> int)
    requires LexAtMost(a, b, key) && LexAtMost(b, c, key)
    ensures LexAtMost(a, c, key)
  {
    if a != [] && b != [] && c != [] && key(a[0]) == key(b[0]) == key(c[0]) {
      LexTransitive(a[1..], b[1..], c[1..], key);
    }
  }

  /** Between the same beginning and the same end, texts of one length compare
      as they do alone. */
  lemma {:induction false} LexBetween<T>(before: seq<T>, a: seq<T>, b: seq<T>, after: seq<T>, key: T -> int)
    requires |a| == |b| && LexAtMost(before + a + after, before + b + after, key)
    ensures LexAtMost(a, b, key)
    decreases |before|, |a|
  {
    var x, y := before + a + after, before + b + after;
    if before != [] {
      assert x[1..] == before[1..] + a + after && y[1..] == before[1..] + b + after;
      LexBetween(before[1..], a, b, after, key);
    } else if a != [] {
      assert x == a + after && y == b + after && x[0] == a[0] && y[0] == b[0];
      assert x[1..] == [] + a[1..] + after && y[1..] == [] + b[1..] + after;
      if key(a[0]) == key(b[0]) {
        LexBetween([], a[1..], b[1..], after, key);
      }
    }
  }

  lemma {:induction false} LexAntisymmetric<T(!new)>(a: seq<T>, b: seq<T>, key: T -> int)
    requires LexAtMost(a, b, key) && LexAtMost(b, a, key)
    requires forall x, y :: key(x) == key(y) ==> x == y
    ensures a == b
  {
    if a != [] && b != [] {
      LexAntisymmetric(a[1..], b[1..], key);
      assert a == [a[0]] + a[1..] && b == [b[0]] + b[1..];
    }
  }

  lemma SameMembers<T(!new)>(s: seq<T>, t: seq<T>)
    requires multiset(s) == multiset(t)
    ensures |s| == |t|
    ensures forall x :: x in s <==> x in t
  {
    assert |s| == |multiset(s)| && |t| == |multiset(t)|;
    forall x ensures x in s <==> x in t {
      assert x in s <==> x in multiset(s);
      assert x in t <==> x in multiset(t);
    }
  }
}
