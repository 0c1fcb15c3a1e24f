/** Aggregating in two stages: a finer grouping first, a coarser one over its result. */
module Reaggregate {
  import opened Orders
  import opened Vectors
  import opened Aggregate

  /** Grouping by `m2` after `m1` is grouping by `m2`. */
  ghost predicate Coarsens(m1: LabelModifier, m2: LabelModifier)
  {
    forall l: Labels :: Retained(Retained(l, m1), m2) == Retained(l, m2)
  }

  /** It is for fewer labels kept, for more labels dropped, and for no grouping. */
  lemma CoarserModifiers(a: seq<string>, b: seq<string>, m: LabelModifier)
    ensures (forall x :: x in b ==> x in a) ==> Coarsens(Include(a), Include(b)) && Coarsens(Exclude(b), Exclude(a))
    ensures Coarsens(m, NoModifier)
  {
  }

  /** The first stage of a two-stage aggregation keeps the operator; counts are summed. */
  function SecondOp(op: AggOp): AggOp { if op == Count then Sum else op }

  /** The values of coarse group `k2`, fine group by fine group. */
  function Flattened(pts: seq<InstantPoint>, m1: LabelModifier, m2: LabelModifier, k2: Labels, ks: seq<Labels>): seq<real>
  {
    if ks == [] then [] else FineGroup(pts, m1, m2, k2, ks[0]) + Flattened(pts, m1, m2, k2, ks[1..])
  }

  function FineGroup(pts: seq<InstantPoint>, m1: LabelModifier, m2: LabelModifier, k2: Labels, k: Labels): seq<real>
  {
    if Retained(k, m2) == k2 then GroupValues(pts, m1, k) else []
  }

  /** The values of coarse group `k2` that lie in the fine groups `ks`. */
  function Among(pts: seq<InstantPoint>, m1: LabelModifier, m2: LabelModifier, k2: Labels, ks: seq<Labels>): seq<real>
  {
    if pts == [] then [] else OneAmong(pts[0], m1, m2, k2, ks) + Among(pts[1..], m1, m2, k2, ks)
  }

  function OneAmong(p: InstantPoint, m1: LabelModifier, m2: LabelModifier, k2: Labels, ks: seq<Labels>): seq<real>
  {
    if Retained(p.labels, m1) in ks then ValueIn(p, m2, k2) else []
  }

  function OneFine(p: InstantPoint, m1: LabelModifier, m2: LabelModifier, k2: Labels, k: Labels): seq<real>
  {
    if Retained(k, m2) == k2 then ValueIn(p, m1, k) else []
  }

  lemma OneSplits(p: InstantPoint, m1: LabelModifier, m2: LabelModifier, k2: Labels, ks: seq<Labels>)
    requires Coarsens(m1, m2) && ks != [] && ks[0] !in ks[1..]
    ensures OneAmong(p, m1, m2, k2, ks) == OneFine(p, m1, m2, k2, ks[0]) + OneAmong(p, m1, m2, k2, ks[1..])
  {
    assert Retained(Retained(p.labels, m1), m2) == Retained(p.labels, m2);
    hide Retained;
    assert ks == [ks[0]] + ks[1..];
  }

  lemma {:induction false} AmongSplits(pts: seq<InstantPoint>, m1: LabelModifier, m2: LabelModifier, k2: Labels, ks: seq<Labels>)
    requires Coarsens(m1, m2) && ks != [] && ks[0] !in ks[1..]
    ensures multiset(Among(pts, m1, m2, k2, ks))
         == multiset(FineGroup(pts, m1, m2, k2, ks[0])) + multiset(Among(pts, m1, m2, k2, ks[1..]))
  {
    hide Coarsens, Retained, ValueIn;
    if pts != [] {
      AmongSplits(pts[1..], m1, m2, k2, ks);
      OneSplits(pts[0], m1, m2, k2, ks);
      assert FineGroup(pts, m1, m2, k2, ks[0])
          == OneFine(pts[0], m1, m2, k2, ks[0]) + FineGroup(pts[1..], m1, m2, k2, ks[0]);
      hide OneFine, OneAmong, FineGroup;
    }
  }

  lemma {:induction false} FlattenedIsAmong(lt: LabelOrder, pts: seq<InstantPoint>, m1: LabelModifier, m2: LabelModifier,
                                            k2: Labels, ks: seq<Labels>)
    requires StrictTotal(lt) && Coarsens(m1, m2) && Ascending(ks, lt)
    ensures multiset(Flattened(pts, m1, m2, k2, ks)) == multiset(Among(pts, m1, m2, k2, ks))
  {
    if ks == [] {
      AmongNone(pts, m1, m2, k2);
    } else {
      HeadDistinct(lt, ks);
      hide StrictTotal, Ascending, Coarsens, FineGroup, Among;
      FlattenedIsAmong(lt, pts, m1, m2, k2, ks[1..]);
      AmongSplits(pts, m1, m2, k2, ks);
    }
  }

  lemma {:induction false} AmongNone(pts: seq<InstantPoint>, m1: LabelModifier, m2: LabelModifier, k2: Labels)
    ensures Among(pts, m1, m2, k2, []) == []
  {
    if pts != [] {
      AmongNone(pts[1..], m1, m2, k2);
    }
  }

  lemma {:induction false} AmongAll(pts: seq<InstantPoint>, m1: LabelModifier, m2: LabelModifier, k2: Labels, ks: seq<Labels>)
    requires forall p :: p in pts ==> Retained(p.labels, m1) in ks
    ensures Among(pts, m1, m2, k2, ks) == GroupValues(pts, m2, k2)
  {
    if pts != [] {
      AmongAll(pts[1..], m1, m2, k2, ks);
      assert pts[0] in pts;
    }
  }

  // ---------- an aggregate of aggregates ----------

  /** Replacing a tail by another with the same aggregate, and a head by its aggregate. */
  lemma AggNest(op: AggOp, a: seq<real>, b: seq<real>, b': seq<real>)
    requires op == Sum || op == Min || op == Max
    requires a != [] && (b == [] <==> b' == []) && ApplyAgg(op, b) == ApplyAgg(op, b')
    ensures ApplyAgg(op, [ApplyAgg(op, a)] + b') == ApplyAgg(op, a + b)
  {
    assert ([ApplyAgg(op, a)] + b')[1..] == b';
    if op == Sum {
      SumConcat(a, b);
    } else if b == [] {
      assert a + b == a;
    } else {
      ExtremesConcat(a, b);
    }
  }

  lemma CountNest(a: seq<real>, b: seq<real>, b': seq<real>)
    requires ApplyAgg(Sum, b') == ApplyAgg(Count, b)
    ensures ApplyAgg(Sum, [ApplyAgg(Count, a)] + b') == ApplyAgg(Count, a + b)
  {
    assert ([ApplyAgg(Count, a)] + b')[1..] == b';
  }

  lemma ExtremesConcat(a: seq<real>, b: seq<real>)
    requires a != [] && b != []
    ensures MinOf(a + b) == if MinOf(b) < MinOf(a) then MinOf(b) else MinOf(a)
    ensures MaxOf(a + b) == if MaxOf(b) > MaxOf(a) then MaxOf(b) else MaxOf(a)
  {
    hide MinOf, MaxOf;
    MinIsLeast(a);
    MinIsLeast(b);
    MinIsLeast(a + b);
    MaxIsGreatest(a);
    MaxIsGreatest(b);
    MaxIsGreatest(a + b);
    assert MinOf(a) in a + b && MinOf(b) in a + b && MaxOf(a) in a + b && MaxOf(b) in a + b;
  }

  /** The fine aggregates that fall into coarse group `k2`, folded, are the aggregate of
      all its values. */
  lemma {:induction false} NestedAgg(pts: seq<InstantPoint>, op: AggOp, m1: LabelModifier, m2: LabelModifier, t: int,
                                     k2: Labels, ks: seq<Labels>)
    requires op != Avg && forall k :: k in ks ==> k in GroupKeys(pts, m1)
    ensures var outer := GroupValues(AggInstantOver(pts, op, m1, t, ks), m2, k2);
      var flat := Flattened(pts, m1, m2, k2, ks);
      (outer == [] <==> flat == []) && ApplyAgg(SecondOp(op), outer) == ApplyAgg(op, flat)
  {
    if ks == [] {
      assert AggInstantOver(pts, op, m1, t, ks) == [];
    } else {
      hide GroupKeys, Retained, ApplyAgg, GroupValues, Flattened, AggInstantOver;
      var k := ks[0];
      NestedAgg(pts, op, m1, m2, t, k2, ks[1..]);
      NestedSplit(pts, op, m1, m2, t, k2, ks);
      GroupValuesEmpty(pts, m1, k);
      NestStep(op, Retained(k, m2) == k2, GroupValues(pts, m1, k), Flattened(pts, m1, m2, k2, ks[1..]),
               GroupValues(AggInstantOver(pts, op, m1, t, ks[1..]), m2, k2));
    }
  }

  lemma NestStep(op: AggOp, here: bool, vs: seq<real>, b: seq<real>, b': seq<real>)
    requires op != Avg && vs != [] && (b == [] <==> b' == [])
    requires ApplyAgg(SecondOp(op), b') == ApplyAgg(op, b)
    ensures var outer := (if here then [ApplyAgg(op, vs)] else []) + b';
      var flat := (if here then vs else []) + b;
      (outer == [] <==> flat == []) && ApplyAgg(SecondOp(op), outer) == ApplyAgg(op, flat)
  {
    hide ApplyAgg;
    assert [] + b' == b' && [] + b == b;
    if here {
      if op == Count {
        CountNest(vs, b, b');
      } else {
        AggNest(op, vs, b, b');
      }
    }
  }

  lemma NestedSplit(pts: seq<InstantPoint>, op: AggOp, m1: LabelModifier, m2: LabelModifier, t: int,
                    k2: Labels, ks: seq<Labels>)
    requires ks != []
    ensures var here := Retained(ks[0], m2) == k2;
      && GroupValues(AggInstantOver(pts, op, m1, t, ks), m2, k2)
         == (if here then [ApplyAgg(op, GroupValues(pts, m1, ks[0]))] else [])
            + GroupValues(AggInstantOver(pts, op, m1, t, ks[1..]), m2, k2)
      && Flattened(pts, m1, m2, k2, ks)
         == (if here then GroupValues(pts, m1, ks[0]) else []) + Flattened(pts, m1, m2, k2, ks[1..])
  {
    hide Retained, ApplyAgg;
    assert AggInstantOver(pts, op, m1, t, ks)[1..] == AggInstantOver(pts, op, m1, t, ks[1..]);
  }

  /** Two stages give what one gives, for sums, minima, maxima and (summed) counts. */
  lemma {:induction false} TwoStages(lt: LabelOrder, pts: seq<InstantPoint>, op: AggOp, m1: LabelModifier, m2: LabelModifier, t: int)
    requires StrictTotal(lt) && Coarsens(m1, m2) && op != Avg
    ensures AggregateInstant(lt, AggregateInstant(lt, pts, op, m1, t), SecondOp(op), m2, t)
         == AggregateInstant(lt, pts, op, m2, t)
  {
    var ks := Sorted(GroupKeys(pts, m1), lt);
    var inner := AggregateInstant(lt, pts, op, m1, t);
    SameCoarseKeys(lt, pts, op, m1, m2, t);
    var ks2 := Sorted(GroupKeys(pts, m2), lt);
    hide *;
    forall i | 0 <= i < |ks2|
      ensures ApplyAgg(SecondOp(op), GroupValues(inner, m2, ks2[i])) == ApplyAgg(op, GroupValues(pts, m2, ks2[i]))
    {
      CoarseGroup(lt, pts, op, m1, m2, t, ks2[i]);
    }
    SameAggregates(inner, SecondOp(op), pts, op, m2, t, ks2);
    AggregateIs(lt, inner, SecondOp(op), m2, t);
    AggregateIs(lt, pts, op, m2, t);
  }

  /** The second stage gives a coarse group the aggregate of its values. */
  lemma {:induction false} CoarseGroup(lt: LabelOrder, pts: seq<InstantPoint>, op: AggOp, m1: LabelModifier, m2: LabelModifier,
                                       t: int, k2: Labels)
    requires StrictTotal(lt) && Coarsens(m1, m2) && op != Avg
    ensures ApplyAgg(SecondOp(op), GroupValues(AggregateInstant(lt, pts, op, m1, t), m2, k2))
         == ApplyAgg(op, GroupValues(pts, m2, k2))
  {
    var ks := Sorted(GroupKeys(pts, m1), lt);
    assert forall p :: p in pts ==> Retained(p.labels, m1) in ks;
    AggregateIs(lt, pts, op, m1, t);
    hide Retained, ApplyAgg, GroupValues, Coarsens, StrictTotal, GroupKeys, Flattened, Among, AggregateInstant;
    NestedAgg(pts, op, m1, m2, t, k2, ks);
    FlattenedIsAmong(lt, pts, m1, m2, k2, ks);
    AmongAll(pts, m1, m2, k2, ks);
    AggPermutes(op, Flattened(pts, m1, m2, k2, ks), GroupValues(pts, m2, k2));
  }

  lemma SameAggregates(a: seq<InstantPoint>, p: AggOp, b: seq<InstantPoint>, q: AggOp, m: LabelModifier, t: int, ks: seq<Labels>)
    requires forall i :: 0 <= i < |ks| ==> ApplyAgg(p, GroupValues(a, m, ks[i])) == ApplyAgg(q, GroupValues(b, m, ks[i]))
    ensures AggInstantOver(a, p, m, t, ks) == AggInstantOver(b, q, m, t, ks)
  {
    hide ApplyAgg, GroupValues;
  }

  lemma AggregateIs(lt: LabelOrder, pts: seq<InstantPoint>, op: AggOp, m: LabelModifier, t: int)
    requires StrictTotal(lt)
    ensures AggregateInstant(lt, pts, op, m, t) == AggInstantOver(pts, op, m, t, Sorted(GroupKeys(pts, m), lt))
  {
    hide StrictTotal;
  }

  lemma {:induction false} SameCoarseKeys(lt: LabelOrder, pts: seq<InstantPoint>, op: AggOp, m1: LabelModifier, m2: LabelModifier, t: int)
    requires StrictTotal(lt) && Coarsens(m1, m2)
    ensures GroupKeys(AggregateInstant(lt, pts, op, m1, t), m2) == GroupKeys(pts, m2)
  {
    hide Retained, AggInstantOver, StrictTotal;
    AggKeys(pts, op, m1, m2, t, Sorted(GroupKeys(pts, m1), lt));
  }

  lemma AggKeys(pts: seq<InstantPoint>, op: AggOp, m1: LabelModifier, m2: LabelModifier, t: int, ks: seq<Labels>)
    ensures GroupKeys(AggInstantOver(pts, op, m1, t, ks), m2) == set k | k in ks :: Retained(k, m2)
  {
    hide Retained, ApplyAgg, GroupValues;
    var inner := AggInstantOver(pts, op, m1, t, ks);
    forall k | k in ks ensures Retained(k, m2) in GroupKeys(inner, m2) {
      var i :| 0 <= i < |ks| && ks[i] == k;
      assert inner[i] in inner && inner[i].labels == k;
    }
  }
}
