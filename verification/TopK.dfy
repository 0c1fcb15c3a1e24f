/** `topk` and `bottomk`: the n best members of each group, of instant vectors and at
    every timestamp of range vectors. */
module TopK {
  import opened Orders
  import opened Sorting
  import opened Vectors
  import opened Aggregate

  // ---------- one group ----------

  predicate Higher(a: InstantPoint, b: InstantPoint) { a.value > b.value }

  predicate Lower(a: InstantPoint, b: InstantPoint) { a.value < b.value }

  /** Whether the first point comes before the second. */
  function Ranks(top: bool): (InstantPoint, InstantPoint) -> bool { if top then Higher else Lower }

  function Ranked(members: seq<InstantPoint>, top: bool): (r: seq<InstantPoint>)
    ensures |r| == |members|
  {
    SortPermutes(members, Ranks(top));
    StableSort(members, Ranks(top))
  }

  function Take<T>(s: seq<T>, n: nat): seq<T> { if |s| <= n then s else s[..n] }

  /** The members that survive. */
  function Cut(members: seq<InstantPoint>, n: nat, top: bool): seq<InstantPoint>
  {
    Take(Ranked(members, top), n)
  }

  lemma RanksWeakly(top: bool)
    ensures WeakOrder(Ranks(top))
  {
  }

  lemma RankedSorts(members: seq<InstantPoint>, top: bool)
    ensures SortedBy(Ranked(members, top), Ranks(top))
    ensures multiset(Ranked(members, top)) == multiset(members)
  {
    RanksWeakly(top);
    SortSorts(members, Ranks(top));
    SortPermutes(members, Ranks(top));
  }

  /** Exactly min(n, members) points survive, unchanged, and each ranks at least as
      high as every point that does not. */
  lemma CutIsTop(members: seq<InstantPoint>, n: nat, top: bool)
    ensures |Cut(members, n, top)| == if |members| <= n then |members| else n
    ensures multiset(Cut(members, n, top)) <= multiset(members)
    ensures forall x, y :: x in Cut(members, n, top) && y in multiset(members) - multiset(Cut(members, n, top)) ==>
      if top then x.value >= y.value else x.value <= y.value
  {
    RankedSorts(members, top);
    SortedTake(Ranked(members, top), n, Ranks(top));
  }

  lemma SortedTake<T>(r: seq<T>, n: nat, less: (T, T) -> bool)
    requires SortedBy(r, less)
    ensures |Take(r, n)| == if |r| <= n then |r| else n
    ensures multiset(Take(r, n)) <= multiset(r)
    ensures forall x, y :: x in Take(r, n) && y in multiset(r) - multiset(Take(r, n)) ==> !less(y, x)
  {
    var c := Take(r, n);
    var rest := r[|c|..];
    assert r == c + rest;
    assert multiset(r) - multiset(c) == multiset(rest);
    forall x, y | x in c && y in multiset(rest) ensures !less(y, x) {
      var i :| 0 <= i < |c| && c[i] == x;
      var j :| 0 <= j < |rest| && rest[j] == y;
      assert r[i] == x && r[|c| + j] == y;
    }
  }

  // ---------- instant vectors ----------

  function PointIn(p: InstantPoint, m: LabelModifier, k: Labels): seq<InstantPoint>
  {
    if Retained(p.labels, m) == k then [p] else []
  }

  function Members(pts: seq<InstantPoint>, m: LabelModifier, k: Labels): seq<InstantPoint>
  {
    if pts == [] then [] else PointIn(pts[0], m, k) + Members(pts[1..], m, k)
  }

  function TopKOver(pts: seq<InstantPoint>, n: nat, top: bool, m: LabelModifier, ks: seq<Labels>): seq<InstantPoint>
  {
    if ks == [] then [] else Cut(Members(pts, m, ks[0]), n, top) + TopKOver(pts, n, top, m, ks[1..])
  }

  /** The survivors of every group, groups in the order of their labels. */
  function TopKInstant(lt: LabelOrder, pts: seq<InstantPoint>, n: nat, top: bool, m: LabelModifier): seq<InstantPoint>
    requires StrictTotal(lt)
  {
    TopKOver(pts, n, top, m, Sorted(GroupKeys(pts, m), lt))
  }

  lemma {:induction false} MembersConcat(a: seq<InstantPoint>, b: seq<InstantPoint>, m: LabelModifier, k: Labels)
    ensures Members(a + b, m, k) == Members(a, m, k) + Members(b, m, k)
  {
    hide PointIn;
    if a == [] {
      assert a + b == b;
    } else {
      MembersConcat(a[1..], b, m, k);
      assert (a + b)[0] == a[0] && (a + b)[1..] == a[1..] + b;
      Assoc(PointIn(a[0], m, k), Members(a[1..], m, k), Members(b, m, k));
    }
  }

  lemma {:induction false} MembersIn(pts: seq<InstantPoint>, m: LabelModifier, k: Labels)
    ensures forall p :: p in Members(pts, m, k) <==> p in pts && Retained(p.labels, m) == k
  {
    if pts != [] {
      MembersIn(pts[1..], m, k);
      hide Retained;
      assert pts == [pts[0]] + pts[1..];
    }
  }

  lemma MembersStep(pts: seq<InstantPoint>, m: LabelModifier, i: nat, k: Labels)
    requires i < |pts|
    ensures Members(pts[..i + 1], m, k) == Members(pts[..i], m, k) + PointIn(pts[i], m, k)
  {
    assert pts[..i + 1] == pts[..i] + [pts[i]];
    MembersConcat(pts[..i], [pts[i]], m, k);
  }

  lemma NoMembersWithout(pts: seq<InstantPoint>, m: LabelModifier, k: Labels)
    requires k !in GroupKeys(pts, m)
    ensures Members(pts, m, k) == []
  {
    MembersIn(pts, m, k);
    assert Members(pts, m, k) != [] ==> Members(pts, m, k)[0] in Members(pts, m, k);
  }

  method GroupInstantPoints(inner: seq<InstantPoint>, m: LabelModifier) returns (groups: map<Labels, seq<InstantPoint>>)
    ensures groups.Keys == GroupKeys(inner, m)
    ensures forall k :: k in groups ==> groups[k] == Members(inner, m, k)
  {
    hide Retained, Members, GroupKeys;
    groups := map[];
    NoGroups(inner, m);
    for i := 0 to |inner|
      invariant groups.Keys == GroupKeys(inner[..i], m)
      invariant forall k :: k in groups ==> groups[k] == Members(inner[..i], m, k)
    {
      var key := Retained(inner[i].labels, m);
      ghost var before := groups;
      groups := groups[key := (if key in groups then groups[key] else []) + [inner[i]]];
      GroupKeysStep(inner, m, i);
      forall k | k in groups ensures groups[k] == Members(inner[..i + 1], m, k) {
        MembersStep(inner, m, i, k);
        if k !in before {
          NoMembersWithout(inner[..i], m, k);
        }
      }
    }
    assert inner[..|inner|] == inner;
  }

  method TopKInstantPoints(lt: LabelOrder, inner: seq<InstantPoint>, n: nat, top: bool, m: LabelModifier)
    returns (out: seq<InstantPoint>)
    requires StrictTotal(lt)
    ensures out == TopKInstant(lt, inner, n, top, m)
  {
    hide StrictTotal, Retained, Members, GroupKeys, Ranked;
    if n == 0 {
      NothingCut(inner, top, m, Sorted(GroupKeys(inner, m), lt));
      return [];
    }
    var groups := GroupInstantPoints(inner, m);
    var ks := Sorted(groups.Keys, lt);
    out := [];
    while ks != []
      invariant forall k :: k in ks ==> k in groups
      invariant out + TopKOver(inner, n, top, m, ks) == TopKInstant(lt, inner, n, top, m)
    {
      assert ks[0] in ks;
      var members := SortBy(groups[ks[0]], Ranks(top));
      assert members == Ranked(groups[ks[0]], top) by { RankedIsSort(groups[ks[0]], top); }
      Assoc(out, Take(members, n), TopKOver(inner, n, top, m, ks[1..]));
      out := out + Take(members, n);
      ks := ks[1..];
    }
  }

  lemma RankedIsSort(members: seq<InstantPoint>, top: bool)
    ensures Ranked(members, top) == StableSort(members, Ranks(top))
  {
  }

  lemma {:induction false} NothingCut(pts: seq<InstantPoint>, top: bool, m: LabelModifier, ks: seq<Labels>)
    ensures TopKOver(pts, 0, top, m, ks) == []
  {
    if ks != [] {
      NothingCut(pts, top, m, ks[1..]);
    }
  }

  lemma CutFrom(members: seq<InstantPoint>, n: nat, top: bool, x: InstantPoint)
    requires x in Cut(members, n, top)
    ensures x in members
  {
    RankedSorts(members, top);
    assert x in Ranked(members, top);
    assert x in multiset(Ranked(members, top));
  }

  /** What is left of each group is its cut: the operator is a filter that treats each
      group by itself. */
  lemma {:induction false} GroupOfTopK(lt: LabelOrder, pts: seq<InstantPoint>, n: nat, top: bool, m: LabelModifier,
                                       ks: seq<Labels>, k: Labels)
    requires StrictTotal(lt) && Ascending(ks, lt)
    ensures Members(TopKOver(pts, n, top, m, ks), m, k) == if k in ks then Cut(Members(pts, m, k), n, top) else []
  {
    hide *;
    if ks == [] {
      TopKUnfold(pts, n, top, m, ks);
      NoMembers(m, k);
    } else {
      var head := Cut(Members(pts, m, ks[0]), n, top);
      HeadDistinct(lt, ks);
      assert k in ks <==> k == ks[0] || k in ks[1..];
      TopKUnfold(pts, n, top, m, ks);
      GroupOfTopK(lt, pts, n, top, m, ks[1..], k);
      MembersConcat(head, TopKOver(pts, n, top, m, ks[1..]), m, k);
      CutOneGroup(pts, n, top, m, ks[0]);
      MembersUniform(head, m, ks[0], k);
    }
  }

  lemma TopKUnfold(pts: seq<InstantPoint>, n: nat, top: bool, m: LabelModifier, ks: seq<Labels>)
    ensures TopKOver(pts, n, top, m, ks)
         == if ks == [] then [] else Cut(Members(pts, m, ks[0]), n, top) + TopKOver(pts, n, top, m, ks[1..])
  {
  }

  lemma NoMembers(m: LabelModifier, k: Labels)
    ensures Members([], m, k) == []
  {
  }

  lemma CutOneGroup(pts: seq<InstantPoint>, n: nat, top: bool, m: LabelModifier, k: Labels)
    ensures forall p :: p in Cut(Members(pts, m, k), n, top) ==> Retained(p.labels, m) == k
  {
    hide Retained, Cut, Members;
    forall p | p in Cut(Members(pts, m, k), n, top) ensures Retained(p.labels, m) == k {
      CutFrom(Members(pts, m, k), n, top, p);
      MembersIn(pts, m, k);
    }
  }

  lemma {:induction false} MembersUniform(pts: seq<InstantPoint>, m: LabelModifier, g: Labels, k: Labels)
    requires forall p :: p in pts ==> Retained(p.labels, m) == g
    ensures Members(pts, m, k) == if g == k then pts else []
  {
    if pts != [] {
      assert pts == [pts[0]] + pts[1..];
      assert pts[0] in pts;
      hide Retained;
      MembersUniform(pts[1..], m, g, k);
    }
  }

  /** The correct cut of every group. */
  lemma TopKCutsEachGroup(lt: LabelOrder, pts: seq<InstantPoint>, n: nat, top: bool, m: LabelModifier, k: Labels)
    requires StrictTotal(lt)
    ensures var had, kept := Members(pts, m, k), Members(TopKInstant(lt, pts, n, top, m), m, k);
      && |kept| == (if |had| <= n then |had| else n)
      && multiset(kept) <= multiset(had)
      && forall x, y :: x in kept && y in multiset(had) - multiset(kept) ==>
        if top then x.value >= y.value else x.value <= y.value
  {
    GroupOfTopK(lt, pts, n, top, m, Sorted(GroupKeys(pts, m), lt), k);
    if k !in GroupKeys(pts, m) {
      NoMembersWithout(pts, m, k);
    }
    CutIsTop(Members(pts, m, k), n, top);
  }
}
