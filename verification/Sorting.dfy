/** The stable sort that `sort_by` performs, for any comparison that orders weakly. */
module Sorting {

  /** `less` is the strict part of a total preorder, as a comparison by a number is. */
  ghost predicate WeakOrder<T(!new)>(less: (T, T) -> bool)
  {
    && (forall x, y :: less(x, y) ==> !less(y, x))
    && (forall x, y, z :: less(x, y) ==> less(x, z) || less(z, y))
  }

  /** Puts `x` behind every element that is not greater. */
  function Insert<T>(x: T, s: seq<T>, less: (T, T) -> bool): seq<T>
  {
    if s == [] || less(x, s[0]) then [x] + s else [s[0]] + Insert(x, s[1..], less)
  }

  function StableSort<T>(s: seq<T>, less: (T, T) -> bool): seq<T>
  {
    if s == [] then [] else Insert(s[|s| - 1], StableSort(s[..|s| - 1], less), less)
  }

  ghost predicate SortedBy<T>(s: seq<T>, less: (T, T) -> bool)
  {
    forall i, j :: 0 <= i < j < |s| ==> !less(s[j], s[i])
  }

  lemma {:induction false} InsertPermutes<T>(x: T, s: seq<T>, less: (T, T) -> bool)
    ensures multiset(Insert(x, s, less)) == multiset(s) + multiset{x}
    ensures |Insert(x, s, less)| == |s| + 1
  {
    if s != [] && !less(x, s[0]) {
      InsertPermutes(x, s[1..], less);
      assert s == [s[0]] + s[1..];
    }
  }

  lemma {:induction false} InsertSorts<T(!new)>(x: T, s: seq<T>, less: (T, T) -> bool)
    requires WeakOrder(less) && SortedBy(s, less)
    ensures SortedBy(Insert(x, s, less), less)
  {
    if s == [] {
    } else if less(x, s[0]) {
      var r := [x] + s;
      forall i, j | 0 <= i < j < |r| ensures !less(r[j], r[i]) {
        if i == 0 && j > 1 {
          assert !less(s[j - 1], s[0]);
        }
      }
    } else {
      InsertSorts(x, s[1..], less);
      InsertPermutes(x, s[1..], less);
      var rest := Insert(x, s[1..], less);
      var r := [s[0]] + rest;
      forall j | 0 <= j < |rest| ensures !less(rest[j], s[0]) {
        assert rest[j] in multiset(rest);
        if rest[j] != x {
          assert rest[j] in s[1..];
          var k :| 0 <= k < |s[1..]| && s[1..][k] == rest[j];
          assert s[k + 1] == rest[j];
        }
      }
      forall i, j | 0 <= i < j < |r| ensures !less(r[j], r[i]) {
        assert r[j] == rest[j - 1];
      }
    }
  }

  lemma {:induction false} SortSorts<T(!new)>(s: seq<T>, less: (T, T) -> bool)
    requires WeakOrder(less)
    ensures SortedBy(StableSort(s, less), less)
  {
    if s != [] {
      SortSorts(s[..|s| - 1], less);
      InsertSorts(s[|s| - 1], StableSort(s[..|s| - 1], less), less);
    }
  }

  lemma {:induction false} SortPermutes<T>(s: seq<T>, less: (T, T) -> bool)
    ensures multiset(StableSort(s, less)) == multiset(s)
    ensures |StableSort(s, less)| == |s|
  {
    if s != [] {
      var n := |s| - 1;
      SortPermutes(s[..n], less);
      InsertPermutes(s[n], StableSort(s[..n], less), less);
      assert s == s[..n] + [s[n]];
    }
  }

  function MapSeq<T, U>(s: seq<T>, f: T -> U): (r: seq<U>)
    ensures |r| == |s|
    ensures forall i :: 0 <= i < |s| ==> r[i] == f(s[i])
  {
    if s == [] then [] else [f(s[0])] + MapSeq(s[1..], f)
  }

  lemma {:induction false} MapConcat<T, U>(a: seq<T>, b: seq<T>, f: T -> U)
    ensures MapSeq(a + b, f) == MapSeq(a, f) + MapSeq(b, f)
  {
    hide MapSeq;
  }

  lemma {:induction false} InsertMap<T, U>(x: T, s: seq<T>, f: T -> U, less: (T, T) -> bool, less': (U, U) -> bool)
    requires forall a, b :: a in [x] + s && b in [x] + s ==> less'(f(a), f(b)) == less(a, b)
    ensures Insert(f(x), MapSeq(s, f), less') == MapSeq(Insert(x, s, less), f)
  {
    if s == [] {
    } else {
      assert x in [x] + s && s[0] in [x] + s;
      assert MapSeq(s, f)[1..] == MapSeq(s[1..], f);
      if !less(x, s[0]) {
        InsertMap(x, s[1..], f, less, less');
      }
    }
  }

  /** Sorting commutes with a renaming that keeps the comparison. */
  lemma {:induction false} SortMap<T, U>(s: seq<T>, f: T -> U, less: (T, T) -> bool, less': (U, U) -> bool)
    requires forall a, b :: a in s && b in s ==> less'(f(a), f(b)) == less(a, b)
    ensures StableSort(MapSeq(s, f), less') == MapSeq(StableSort(s, less), f)
  {
    if s != [] {
      var n := |s| - 1;
      SortMap(s[..n], f, less, less');
      SortPermutes(s[..n], less);
      var r := StableSort(s[..n], less);
      assert MapSeq(s, f)[..n] == MapSeq(s[..n], f);
      forall a, b | a in [s[n]] + r && b in [s[n]] + r ensures less'(f(a), f(b)) == less(a, b) {
        assert a in multiset(r) ==> a in multiset(s[..n]);
        assert b in multiset(r) ==> b in multiset(s[..n]);
        assert a in s && b in s;
      }
      InsertMap(s[n], r, f, less, less');
    }
  }

  /** The head of one arrangement can be taken out of another. */
  lemma TakeOut<T>(a: seq<T>, b: seq<T>) returns (i: nat)
    requires a != [] && multiset(a) == multiset(b)
    ensures i < |b| && b[i] == a[0]
    ensures b == b[..i] + ([b[i]] + b[i + 1..])
    ensures multiset(a[1..]) == multiset(b[..i] + b[i + 1..])
  {
    assert a[0] in multiset(a);
    assert a[0] in multiset(b);
    i :| 0 <= i < |b| && b[i] == a[0];
    assert b == b[..i] + ([b[i]] + b[i + 1..]);
    assert a == [a[0]] + a[1..];
    assert multiset(a) == multiset{a[0]} + multiset(a[1..]);
    assert multiset(b) == multiset(b[..i]) + (multiset{b[i]} + multiset(b[i + 1..]));
    assert multiset(b[..i] + b[i + 1..]) == multiset(b) - multiset{b[i]};
    assert multiset(a[1..]) == multiset(a) - multiset{a[0]};
  }

  /** When no two elements compare equal, the sorted sequence does not depend on the
      order they came in. */
  lemma {:induction false} SortedUnique<T(!new)>(a: seq<T>, b: seq<T>, less: (T, T) -> bool)
    requires SortedBy(a, less) && SortedBy(b, less) && multiset(a) == multiset(b)
    requires forall x, y :: x in a && y in a && x != y ==> less(x, y) || less(y, x)
    ensures a == b
  {
    SameLength(a, b);
    if a != [] {
      SameHead(a, b, less);
      SameTail(a, b);
      TailSorted(a, less);
      TailSorted(b, less);
      hide SortedBy;
      SortedUnique(a[1..], b[1..], less);
      assert a == [a[0]] + a[1..] && b == [b[0]] + b[1..];
    }
  }

  lemma SameTail<T>(a: seq<T>, b: seq<T>)
    requires a != [] && b != [] && a[0] == b[0] && multiset(a) == multiset(b)
    ensures multiset(a[1..]) == multiset(b[1..])
  {
    assert a == [a[0]] + a[1..] && b == [b[0]] + b[1..];
    assert multiset(a[1..]) == multiset(a) - multiset{a[0]};
    assert multiset(b[1..]) == multiset(b) - multiset{b[0]};
  }

  lemma TailSorted<T>(a: seq<T>, less: (T, T) -> bool)
    requires a != [] && SortedBy(a, less)
    ensures SortedBy(a[1..], less)
  {
    forall i, j | 0 <= i < j < |a[1..]| ensures !less(a[1..][j], a[1..][i]) {
      assert !less(a[j + 1], a[i + 1]);
    }
  }

  lemma SameLength<T>(a: seq<T>, b: seq<T>)
    requires multiset(a) == multiset(b)
    ensures |a| == |b|
  {
    assert |multiset(a)| == |a| && |multiset(b)| == |b|;
  }

  lemma SameHead<T(!new)>(a: seq<T>, b: seq<T>, less: (T, T) -> bool)
    requires SortedBy(a, less) && SortedBy(b, less) && multiset(a) == multiset(b)
    requires a != [] && b != []
    requires forall x, y :: x in a && y in a && x != y ==> less(x, y) || less(y, x)
    ensures a[0] == b[0]
  {
    assert b[0] in multiset(b) && a[0] in multiset(a);
    assert b[0] in multiset(a) && a[0] in multiset(b);
    var i :| 0 <= i < |a| && a[i] == b[0];
    var j :| 0 <= j < |b| && b[j] == a[0];
  }

  lemma {:induction false} InsertLast<T>(x: T, s: seq<T>, less: (T, T) -> bool)
    requires forall y :: y in s ==> !less(x, y)
    ensures Insert(x, s, less) == s + [x]
  {
    if s != [] {
      assert s == [s[0]] + s[1..];
      InsertLast(x, s[1..], less);
    }
  }

  lemma {:induction false} SortOfSorted<T>(s: seq<T>, less: (T, T) -> bool)
    requires SortedBy(s, less)
    ensures StableSort(s, less) == s
  {
    if s != [] {
      var n := |s| - 1;
      assert SortedBy(s[..n], less);
      SortOfSorted(s[..n], less);
      forall y | y in s[..n] ensures !less(s[n], y) {
        var i :| 0 <= i < n && s[i] == y;
      }
      InsertLast(s[n], s[..n], less);
      assert s == s[..n] + [s[n]];
    }
  }

  /** The stable sort as an insertion loop. */
  method SortBy<T>(s: seq<T>, less: (T, T) -> bool) returns (r: seq<T>)
    ensures r == StableSort(s, less)
  {
    r := [];
    for i := 0 to |s|
      invariant r == StableSort(s[..i], less)
    {
      assert s[..i + 1][..i] == s[..i];
      r := Insert(s[i], r, less);
    }
    assert s[..|s|] == s;
  }
}
