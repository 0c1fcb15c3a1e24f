/** When `topk` does not depend on the order of its input. The sort is stable, so
    members tied at the edge of the cut survive by position. */
module TopKOrder {
  import opened Orders
  import opened Sorting
  import opened Vectors
  import opened Aggregate
  import opened TopK

  /** The last survivor and the first point dropped have different values. */
  predicate CleanCut(members: seq<InstantPoint>, n: nat, top: bool)
  {
    n == 0 || |members| <= n || Ranked(members, top)[n - 1].value != Ranked(members, top)[n].value
  }

  predicate RealLess(a: real, b: real) { a < b }

  predicate RealMore(a: real, b: real) { a > b }

  function Value(p: InstantPoint): real { p.value }

  function RealRanks(top: bool): (real, real) -> bool { if top then RealMore else RealLess }

  lemma {:induction false} MapPermutes<T, U>(a: seq<T>, b: seq<T>, f: T -> U)
    requires multiset(a) == multiset(b)
    ensures multiset(MapSeq(a, f)) == multiset(MapSeq(b, f))
  {
    if a == [] {
      assert |multiset(b)| == 0;
    } else {
      var i := TakeOut(a, b);
      var rest := b[..i] + b[i + 1..];
      assert MapSeq(a, f) == [f(a[0])] + MapSeq(a[1..], f);
      MapPermutes(a[1..], rest, f);
      MapConcat(b[..i], [b[i]] + b[i + 1..], f);
      MapConcat([b[i]], b[i + 1..], f);
      MapConcat(b[..i], b[i + 1..], f);
      assert MapSeq([b[i]], f) == [f(a[0])];
      hide MapSeq;
      assert multiset(MapSeq(b, f)) == multiset(MapSeq(b[..i], f)) + (multiset{f(a[0])} + multiset(MapSeq(b[i + 1..], f)));
      assert multiset(MapSeq(rest, f)) == multiset(MapSeq(b[..i], f)) + multiset(MapSeq(b[i + 1..], f));
    }
  }

  /** The ranked values do not depend on the order of the input, only who has them. */
  lemma RankedValues(a: seq<InstantPoint>, b: seq<InstantPoint>, top: bool)
    requires multiset(a) == multiset(b)
    ensures MapSeq(Ranked(a, top), Value) == MapSeq(Ranked(b, top), Value)
  {
    RankedSorts(a, top);
    RankedSorts(b, top);
    MapPermutes(Ranked(a, top), Ranked(b, top), Value);
    ValuesSorted(a, top);
    ValuesSorted(b, top);
    SortedUnique(MapSeq(Ranked(a, top), Value), MapSeq(Ranked(b, top), Value), RealRanks(top));
  }

  lemma ValuesSorted(a: seq<InstantPoint>, top: bool)
    ensures SortedBy(MapSeq(Ranked(a, top), Value), RealRanks(top))
  {
    var r := Ranked(a, top);
    RankedSorts(a, top);
    hide Ranked;
    forall i, j | 0 <= i < j < |r| ensures !RealRanks(top)(r[j].value, r[i].value) {
      assert !Ranks(top)(r[j], r[i]);
    }
  }

  /** With a clean cut the survivors are the points that rank before a value. */
  lemma CutByValue(a: seq<InstantPoint>, n: nat, top: bool, x: InstantPoint)
    requires 0 < n < |a| && CleanCut(a, n, top)
    ensures multiset(Cut(a, n, top))[x]
         == if RealRanks(top)(x.value, Ranked(a, top)[n].value) then multiset(a)[x] else 0
  {
    var r := Ranked(a, top);
    RankedSorts(a, top);
    hide Ranked;
    var edge := r[n];
    assert r == r[..n] + r[n..];
    assert multiset(a)[x] == multiset(r[..n])[x] + multiset(r[n..])[x];
    assert !Ranks(top)(r[n], r[n - 1]);
    if x in r[..n] {
      var i :| 0 <= i < n && r[i] == x;
      assert i < n - 1 ==> !Ranks(top)(r[n - 1], r[i]);
      assert RealRanks(top)(x.value, edge.value);
    }
    if x in r[n..] {
      var i :| 0 <= i < |r[n..]| && r[n..][i] == x;
      assert i > 0 ==> !Ranks(top)(r[n + i], r[n]);
      assert !RealRanks(top)(x.value, edge.value);
    }
    assert x !in r[n..] ==> multiset(r[n..])[x] == 0;
    assert x !in r[..n] ==> multiset(r[..n])[x] == 0;
  }

  lemma CleanCutFixes(a: seq<InstantPoint>, b: seq<InstantPoint>, n: nat, top: bool)
    requires multiset(a) == multiset(b) && CleanCut(a, n, top)
    ensures multiset(Cut(a, n, top)) == multiset(Cut(b, n, top)) && CleanCut(b, n, top)
  {
    RankedSorts(a, top);
    RankedSorts(b, top);
    RankedValues(a, b, top);
    SameLength(a, b);
    var va, vb := MapSeq(Ranked(a, top), Value), MapSeq(Ranked(b, top), Value);
    if 0 < n < |a| {
      assert va[n - 1] == Ranked(a, top)[n - 1].value && vb[n - 1] == Ranked(b, top)[n - 1].value;
      assert va[n] == Ranked(a, top)[n].value && vb[n] == Ranked(b, top)[n].value;
      hide Cut, Ranked;
      forall x ensures multiset(Cut(a, n, top))[x] == multiset(Cut(b, n, top))[x] {
        CutByValue(a, n, top, x);
        CutByValue(b, n, top, x);
      }
    }
  }

  // ---------- without a clean cut, some order loses ----------

  /** Another order of the same points, in which the other one of the two tied points
      at the edge survives. */
  function Swapped(a: seq<InstantPoint>, n: nat, top: bool): seq<InstantPoint>
    requires 0 < n < |a|
  {
    var r := Ranked(a, top);
    r[..n - 1] + [r[n], r[n - 1]] + r[n + 1..]
  }

  lemma SwappedDiffers(a: seq<InstantPoint>, n: nat, top: bool)
    requires 0 < n < |a| && !CleanCut(a, n, top)
    requires forall p :: multiset(a)[p] <= 1
    ensures var b := Swapped(a, n, top);
      multiset(b) == multiset(a) && multiset(Cut(b, n, top)) != multiset(Cut(a, n, top))
  {
    hide Ranked, StableSort, SortedBy, Ranks;
    var r, b := Ranked(a, top), Swapped(a, n, top);
    RankedSorts(a, top);
    SwapPermutes(r, n);
    SwapSorted(r, n, top);
    SortOfSorted(b, Ranks(top));
    RankedIsSort(b, top);
    SwapPrefix(r, n);
    SwapCut(r, b, n);
  }

  lemma SwapPrefix(r: seq<InstantPoint>, n: nat)
    requires 0 < n < |r|
    ensures (r[..n - 1] + [r[n], r[n - 1]] + r[n + 1..])[..n] == r[..n - 1] + [r[n]]
  {
  }

  lemma SwapCut(r: seq<InstantPoint>, b: seq<InstantPoint>, n: nat)
    requires 0 < n < |r| == |b| && b[..n] == r[..n - 1] + [r[n]]
    requires forall p :: multiset(r)[p] <= 1
    ensures multiset(b[..n]) != multiset(r[..n])
  {
    OnceOutside(r, n);
    assert r[n] in b[..n];
  }

  lemma SwapPermutes(r: seq<InstantPoint>, n: nat)
    requires 0 < n < |r|
    ensures multiset(r[..n - 1] + [r[n], r[n - 1]] + r[n + 1..]) == multiset(r)
  {
    assert r == r[..n - 1] + [r[n - 1], r[n]] + r[n + 1..];
  }

  lemma SwapSorted(r: seq<InstantPoint>, n: nat, top: bool)
    requires 0 < n < |r| && SortedBy(r, Ranks(top)) && r[n - 1].value == r[n].value
    ensures SortedBy(r[..n - 1] + [r[n], r[n - 1]] + r[n + 1..], Ranks(top))
  {
    var b := r[..n - 1] + [r[n], r[n - 1]] + r[n + 1..];
    assert forall i :: 0 <= i < |r| ==> b[i].value == r[i].value;
    forall i, j | 0 <= i < j < |b| ensures !Ranks(top)(b[j], b[i]) {
      assert !Ranks(top)(r[j], r[i]);
    }
  }

  lemma OnceOutside(r: seq<InstantPoint>, n: nat)
    requires n < |r| && forall p :: multiset(r)[p] <= 1
    ensures multiset(r[..n])[r[n]] == 0
  {
    assert r == r[..n] + [r[n]] + r[n + 1..];
    assert multiset(r)[r[n]] == multiset(r[..n])[r[n]] + 1 + multiset(r[n + 1..])[r[n]];
  }

  /** Exactly the clean cuts are the same whatever the order of distinct members. */
  lemma CutFixedIffClean(a: seq<InstantPoint>, n: nat, top: bool)
    requires forall p :: multiset(a)[p] <= 1
    ensures CleanCut(a, n, top)
      <==> forall b :: multiset(b) == multiset(a) ==> multiset(Cut(b, n, top)) == multiset(Cut(a, n, top))
  {
    hide Cut;
    if CleanCut(a, n, top) {
      forall b | multiset(b) == multiset(a) ensures multiset(Cut(b, n, top)) == multiset(Cut(a, n, top)) {
        CleanCutFixes(a, b, n, top);
      }
    } else {
      SwappedDiffers(a, n, top);
    }
  }

  // ---------- whole vectors ----------

  ghost predicate CleanCuts(pts: seq<InstantPoint>, n: nat, top: bool, m: LabelModifier)
  {
    forall k :: k in GroupKeys(pts, m) ==> CleanCut(Members(pts, m, k), n, top)
  }

  lemma {:induction false} MembersPermute(a: seq<InstantPoint>, b: seq<InstantPoint>, m: LabelModifier, k: Labels)
    requires multiset(a) == multiset(b)
    ensures multiset(Members(a, m, k)) == multiset(Members(b, m, k))
  {
    hide PointIn;
    if a == [] {
      assert |multiset(b)| == 0;
    } else {
      var i := TakeOut(a, b);
      MembersConcat(b[..i], [b[i]] + b[i + 1..], m, k);
      MembersConcat([b[i]], b[i + 1..], m, k);
      MembersConcat(b[..i], b[i + 1..], m, k);
      assert [b[i]][1..] == [];
      MembersPermute(a[1..], b[..i] + b[i + 1..], m, k);
    }
  }

  lemma {:induction false} TopKOverPermutes(a: seq<InstantPoint>, b: seq<InstantPoint>, n: nat, top: bool, m: LabelModifier,
                                            ks: seq<Labels>)
    requires multiset(a) == multiset(b)
    requires forall k :: k in ks ==> CleanCut(Members(a, m, k), n, top)
    ensures multiset(TopKOver(a, n, top, m, ks)) == multiset(TopKOver(b, n, top, m, ks))
  {
    hide Cut, Members, CleanCut;
    if ks != [] {
      assert ks[0] in ks;
      MembersPermute(a, b, m, ks[0]);
      CleanCutFixes(Members(a, m, ks[0]), Members(b, m, ks[0]), n, top);
      TopKOverPermutes(a, b, n, top, m, ks[1..]);
    }
  }

  lemma TopKPermutes(lt: LabelOrder, a: seq<InstantPoint>, b: seq<InstantPoint>, n: nat, top: bool, m: LabelModifier)
    requires StrictTotal(lt) && multiset(a) == multiset(b) && CleanCuts(a, n, top, m)
    ensures multiset(TopKInstant(lt, a, n, top, m)) == multiset(TopKInstant(lt, b, n, top, m))
  {
    hide StrictTotal, Retained, CleanCut, TopKOver;
    assert GroupKeys(a, m) == GroupKeys(b, m) by {
      assert forall p :: p in a <==> p in multiset(a);
      assert forall p :: p in b <==> p in multiset(b);
    }
    TopKOverPermutes(a, b, n, top, m, Sorted(GroupKeys(a, m), lt));
  }
}
