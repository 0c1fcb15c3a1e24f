/** Strict total orders and the ascending listing of a finite set: the iteration
    order of a BTreeMap or BTreeSet, and of the sorted list of WAL files. */
module Orders {

  ghost predicate StrictTotal<T(!new)>(lt: (T, T) -> bool)
  {
    && (forall x :: !lt(x, x))
    && (forall x, y :: lt(x, y) || x == y || lt(y, x))
    && (forall x, y, z :: lt(x, y) && lt(y, z) ==> lt(x, z))
  }

  ghost predicate Ascending<T>(s: seq<T>, lt: (T, T) -> bool)
  {
    forall i, j :: 0 <= i < j < |s| ==> lt(s[i], s[j])
  }

  predicate IsLeast<T(==)>(m: T, s: set<T>, lt: (T, T) -> bool)
  {
    m in s && forall y :: y in s && y != m ==> lt(m, y)
  }

  lemma {:induction false} LeastExists<T(!new)>(s: set<T>, lt: (T, T) -> bool)
    requires StrictTotal(lt) && s != {}
    ensures exists m :: IsLeast(m, s, lt)
  {
    var x :| x in s;
    if s == {x} {
      assert IsLeast(x, s, lt);
    } else {
      LeastExists(s - {x}, lt);
      var m :| IsLeast(m, s - {x}, lt);
      if lt(x, m) {
        forall y | y in s && y != x ensures lt(x, y) {
          assert y in s - {x};
        }
        assert IsLeast(x, s, lt);
      } else {
        forall y | y in s && y != m ensures lt(m, y) {
          assert y != x ==> y in s - {x};
        }
        assert IsLeast(m, s, lt);
      }
    }
  }

  /** The elements of `s` in ascending order. */
  function Sorted<T(==, !new)>(s: set<T>, lt: (T, T) -> bool): (r: seq<T>)
    requires StrictTotal(lt)
    ensures Ascending(r, lt)
    ensures forall x :: x in r <==> x in s
    ensures |r| == |s|
  {
    if s == {} then [] else
      LeastExists(s, lt);
      var m :| IsLeast(m, s, lt);
      var rest := Sorted(s - {m}, lt);
      assert forall i :: 0 <= i < |rest| ==> rest[i] in rest;
      [m] + rest
  }

  /** An ascending sequence is determined by its elements. */
  lemma {:induction false} AscendingUnique<T(!new)>(a: seq<T>, b: seq<T>, lt: (T, T) -> bool)
    requires StrictTotal(lt)
    requires Ascending(a, lt) && Ascending(b, lt)
    requires forall x :: x in a <==> x in b
    ensures a == b
  {
    assert |b| > 0 ==> b[0] in a;
    if a == [] {
    } else {
      assert a[0] in b;
      assert b[0] in a;
      var i :| 0 <= i < |b| && b[i] == a[0];
      var j :| 0 <= j < |a| && a[j] == b[0];
      assert a[0] == b[0];
      forall x ensures x in a[1..] <==> x in b[1..] {
        if x in a[1..] {
          assert x in b && lt(a[0], x);
        }
        if x in b[1..] {
          assert x in a && lt(b[0], x);
        }
      }
      AscendingUnique(a[1..], b[1..], lt);
      assert a == [a[0]] + a[1..] && b == [b[0]] + b[1..];
    }
  }

  lemma HeadLeast<T(!new)>(s: seq<T>, lt: (T, T) -> bool)
    requires s != [] && Ascending(s, lt)
    ensures forall x :: x in s[1..] ==> lt(s[0], x)
  {
    forall x | x in s[1..] ensures lt(s[0], x) {
      var i :| 0 <= i < |s[1..]| && s[1..][i] == x;
      assert s[i + 1] == x;
    }
  }

  predicate NatLess(a: nat, b: nat) { a < b }

  lemma NatLessTotal()
    ensures StrictTotal(NatLess)
  {
  }

  predicate IntLess(a: int, b: int) { a < b }

  lemma IntLessTotal()
    ensures StrictTotal(IntLess)
  {
  }

  function Ascend(s: set<int>): (r: seq<int>)
    ensures Ascending(r, IntLess) && forall x :: x in r <==> x in s
  {
    IntLessTotal();
    Sorted(s, IntLess)
  }

  lemma SortedOne<T(!new)>(lt: (T, T) -> bool, a: T)
    requires StrictTotal(lt)
    ensures Sorted({a}, lt) == [a]
  {
    AscendingUnique(Sorted({a}, lt), [a], lt);
  }

  lemma SortedTwo<T(!new)>(lt: (T, T) -> bool, a: T, b: T)
    requires StrictTotal(lt) && lt(a, b)
    ensures Sorted({a, b}, lt) == [a, b]
  {
    AscendingUnique(Sorted({a, b}, lt), [a, b], lt);
  }
}
