/** The strings that stand for label sets: `k=v` pairs in key order with commas
    between them, and the key that identifies a series. */
module StringKeys {
  import opened Orders
  import opened Wrappers
  import opened Delimited
  import opened Vectors
  import Validate

  type StringOrder = (string, string) -> bool

  function Pair(labels: Labels, k: string): string
    requires k in labels
  {
    k + "=" + labels[k]
  }

  function Pairs(labels: Labels, ks: seq<string>): (r: seq<string>)
    requires forall k :: k in ks ==> k in labels
    ensures |r| == |ks|
    ensures forall i :: 0 <= i < |ks| ==> r[i] == Pair(labels, ks[i])
  {
    seq(|ks|, i requires 0 <= i < |ks| => Pair(labels, ks[i]))
  }

  function PairList(lt: StringOrder, labels: Labels): string
    requires StrictTotal(lt)
  {
    Joined(Pairs(labels, Sorted(labels.Keys, lt)), ',')
  }

  /** `metric{k=v,...}` */
  function SeriesKey(lt: StringOrder, metric: string, labels: Labels): string
    requires StrictTotal(lt)
  {
    metric + "{" + PairList(lt, labels) + "}"
  }

  /** Names without the two separators and values without commas. */
  ghost predicate Plain(labels: Labels)
  {
    forall k :: k in labels ==> '=' !in k && ',' !in k && ',' !in labels[k]
  }

  /** Accepted label names are plain; only a comma in a value is in the way. */
  lemma AcceptedArePlain(labels: Labels)
    requires forall k :: k in labels ==> Validate.ValidLabelName(k) && ',' !in labels[k]
    ensures Plain(labels)
  {
  }

  lemma PairApart(a: Labels, k: string, b: Labels, l: string)
    requires k in a && l in b && '=' !in k && '=' !in l && Pair(a, k) == Pair(b, l)
    ensures k == l && a[k] == b[l]
  {
    SplitUnique(k, a[k], l, b[l], '=');
  }

  lemma PairsInjective(a: Labels, ks: seq<string>, b: Labels, ls: seq<string>)
    requires Plain(a) && Plain(b) && (forall k :: k in ks ==> k in a) && (forall k :: k in ls ==> k in b)
    requires Pairs(a, ks) == Pairs(b, ls)
    ensures ks == ls && forall k :: k in ks ==> a[k] == b[k]
  {
    var p, q := Pairs(a, ks), Pairs(b, ls);
    assert |ks| == |p| == |q| == |ls|;
    forall i | 0 <= i < |ks| ensures ks[i] == ls[i] && a[ks[i]] == b[ls[i]] {
      assert ks[i] in ks && ls[i] in ls;
      assert p[i] == q[i];
      PairApart(a, ks[i], b, ls[i]);
    }
  }

  lemma PairsCommaFree(labels: Labels, ks: seq<string>)
    requires Plain(labels) && forall k :: k in ks ==> k in labels
    ensures Without(Pairs(labels, ks), ',')
    ensures forall i :: 0 <= i < |ks| ==> Pairs(labels, ks)[i] != []
  {
    forall i | 0 <= i < |ks| ensures ',' !in Pairs(labels, ks)[i] && Pairs(labels, ks)[i] != [] {
      assert ks[i] in ks;
      assert Pair(labels, ks[i]) == ks[i] + ("=" + labels[ks[i]]);
    }
  }

  /** The pair list determines the labels. */
  lemma PairListInjective(lt: StringOrder, a: Labels, b: Labels)
    requires StrictTotal(lt) && Plain(a) && Plain(b)
    ensures PairList(lt, a) == PairList(lt, b) <==> a == b
  {
    hide StrictTotal, Plain, Joined;
    var ks, ls := Sorted(a.Keys, lt), Sorted(b.Keys, lt);
    if PairList(lt, a) == PairList(lt, b) {
      PairsCommaFree(a, ks);
      PairsCommaFree(b, ls);
      JoinedInjective(Pairs(a, ks), Pairs(b, ls), ',');
      PairsInjective(a, ks, b, ls);
      assert forall k :: k in a <==> k in ks;
      assert forall k :: k in b <==> k in ls;
    }
  }

  /** The series key determines the series. */
  lemma SeriesKeyInjective(lt: StringOrder, m: string, a: Labels, n: string, b: Labels)
    requires StrictTotal(lt) && Plain(a) && Plain(b) && '{' !in m && '{' !in n
    ensures SeriesKey(lt, m, a) == SeriesKey(lt, n, b) <==> m == n && a == b
  {
    hide StrictTotal, Plain, PairList;
    if SeriesKey(lt, m, a) == SeriesKey(lt, n, b) {
      var x, y := PairList(lt, a), PairList(lt, b);
      assert m + "{" + x + "}" == m + ['{'] + (x + "}") && n + "{" + y + "}" == n + ['{'] + (y + "}");
      SplitUnique(m, x + "}", n, y + "}", '{');
      assert x == (x + "}")[..|x + "}"| - 1] && y == (y + "}")[..|y + "}"| - 1];
      PairListInjective(lt, a, b);
    }
  }

  /** A comma in a value can make two label sets share their list. */
  lemma {:induction false} CommaCollides(lt: StringOrder)
    requires StrictTotal(lt) && lt("a", "b")
    ensures var one, two := map["a" := "1,b=2"], map["a" := "1", "b" := "2"];
      one != two && PairList(lt, one) == PairList(lt, two)
  {
    var one, two := map["a" := "1,b=2"], map["a" := "1", "b" := "2"];
    assert "b" in two && "b" !in one;
    Validate.SortedPair(lt);
    hide StrictTotal, Joined, Pairs;
    assert one.Keys == {"a"} && two.Keys == {"a", "b"};
    PairsOfOne(one);
    PairsOfTwo(two);
    JoinedSmall("a=1,b=2", "b=2", ',');
    JoinedSmall("a=1", "b=2", ',');
    assert "a=1" + [','] + "b=2" == "a=1,b=2";
  }

  lemma PairsOfOne(one: Labels)
    requires "a" in one && one["a"] == "1,b=2"
    ensures Pairs(one, ["a"]) == ["a=1,b=2"]
  {
    assert Pair(one, "a") == "a" + "=" + "1,b=2" == "a=1,b=2";
  }

  lemma PairsOfTwo(two: Labels)
    requires "a" in two && two["a"] == "1" && "b" in two && two["b"] == "2"
    ensures Pairs(two, ["a", "b"]) == ["a=1", "b=2"]
  {
    assert Pair(two, "a") == "a" + "=" + "1" == "a=1" && Pair(two, "b") == "b" + "=" + "2" == "b=2";
  }

  lemma JoinedSmall<T>(x: seq<T>, y: seq<T>, d: T)
    ensures Joined([x], d) == x && Joined([x, y], d) == x + [d] + y
  {
    assert [x, y][1..] == [y];
  }

  // ---------- the group key of a `without` plan ----------

  /** What the plan computes for one series: the pairs whose key is not excluded, in
      key order. A series without such a pair gets no key. */
  function WithoutKey(lt: StringOrder, labels: Labels, excluded: seq<string>): Option<string>
    requires StrictTotal(lt)
  {
    var ks := set k | k in labels && k !in excluded;
    if ks == {} then None else Some(Joined(Pairs(labels, Sorted(ks, lt)), ','))
  }

  lemma WithoutKeyIsPairList(lt: StringOrder, labels: Labels, excluded: seq<string>)
    requires StrictTotal(lt)
    ensures var kept := Retained(labels, Exclude(excluded));
      WithoutKey(lt, labels, excluded) == if kept == map[] then None else Some(PairList(lt, kept))
  {
    var kept := Retained(labels, Exclude(excluded));
    var ks := set k | k in labels && k !in excluded;
    assert kept.Keys == ks;
    hide StrictTotal, Joined;
    assert Pairs(labels, Sorted(ks, lt)) == Pairs(kept, Sorted(ks, lt));
    assert kept == map[] <==> ks == {};
  }

  lemma KeptPlain(labels: Labels, m: LabelModifier)
    requires Plain(labels)
    ensures Plain(Retained(labels, m))
  {
  }

  /** Grouping by the plan's key is grouping by the retained labels; so stripping the
      excluded labels from any member of a group gives the labels of all of it. The
      series left out are exactly those with no label left. */
  lemma {:induction false} WithoutKeyGroups(lt: StringOrder, a: Labels, b: Labels, excluded: seq<string>)
    requires StrictTotal(lt) && Plain(a) && Plain(b)
    ensures WithoutKey(lt, a, excluded) == WithoutKey(lt, b, excluded)
      <==> Retained(a, Exclude(excluded)) == Retained(b, Exclude(excluded))
    ensures WithoutKey(lt, a, excluded) == None <==> Retained(a, Exclude(excluded)) == map[]
  {
    WithoutKeyIsPairList(lt, a, excluded);
    WithoutKeyIsPairList(lt, b, excluded);
    KeptPlain(a, Exclude(excluded));
    KeptPlain(b, Exclude(excluded));
    hide Plain, Retained, StrictTotal, PairList, WithoutKey;
    PairListInjective(lt, Retained(a, Exclude(excluded)), Retained(b, Exclude(excluded)));
  }
}
