/** Strings built from parts with delimiters between or behind them, and when the
    parts can be read back. */
module Delimited {

  /** Every part followed by the delimiter. */
  function Terminated<T>(parts: seq<seq<T>>, d: T): seq<T>
  {
    if parts == [] then [] else parts[0] + [d] + Terminated(parts[1..], d)
  }

  /** The parts with the delimiter between them. */
  function Joined<T>(parts: seq<seq<T>>, d: T): seq<T>
  {
    if parts == [] then []
    else if |parts| == 1 then parts[0]
    else parts[0] + [d] + Joined(parts[1..], d)
  }

  ghost predicate Without<T>(parts: seq<seq<T>>, d: T)
  {
    forall i :: 0 <= i < |parts| ==> d !in parts[i]
  }

  /** The part before the first delimiter, and what is behind it, are determined. */
  lemma SplitUnique<T>(a: seq<T>, x: seq<T>, b: seq<T>, y: seq<T>, d: T)
    requires d !in a && d !in b && a + [d] + x == b + [d] + y
    ensures a == b && x == y
  {
    var s, t := a + [d] + x, b + [d] + y;
    assert s[|a|] == d && t[|b|] == d;
    assert forall i :: 0 <= i < |a| ==> s[i] == a[i];
    assert forall i :: 0 <= i < |b| ==> t[i] == b[i];
    assert a == s[..|a|] && b == t[..|b|];
    assert x == s[|a| + 1..] && y == t[|b| + 1..];
  }

  lemma {:induction false} TerminatedInjective<T>(a: seq<seq<T>>, b: seq<seq<T>>, d: T)
    requires Without(a, d) && Without(b, d) && Terminated(a, d) == Terminated(b, d)
    ensures a == b
  {
    if a == [] || b == [] {
    } else {
      SplitUnique(a[0], Terminated(a[1..], d), b[0], Terminated(b[1..], d), d);
      TerminatedInjective(a[1..], b[1..], d);
      assert a == [a[0]] + a[1..] && b == [b[0]] + b[1..];
    }
  }

  lemma {:induction false} JoinedTerminated<T>(parts: seq<seq<T>>, d: T)
    requires parts != []
    ensures Joined(parts, d) + [d] == Terminated(parts, d)
  {
    if |parts| == 1 {
      assert parts[1..] == [];
    } else {
      JoinedTerminated(parts[1..], d);
      var rest := Joined(parts[1..], d);
      assert parts[0] + [d] + rest + [d] == parts[0] + [d] + (rest + [d]);
    }
  }

  /** Joining is injective on lists of non-empty parts without the delimiter. */
  lemma {:induction false} JoinedInjective<T>(a: seq<seq<T>>, b: seq<seq<T>>, d: T)
    requires Without(a, d) && Without(b, d) && Joined(a, d) == Joined(b, d)
    requires forall i :: 0 <= i < |a| ==> a[i] != []
    requires forall i :: 0 <= i < |b| ==> b[i] != []
    ensures a == b
  {
    if a == [] || b == [] {
      JoinedEmpty(a, d);
      JoinedEmpty(b, d);
    } else {
      JoinedTerminated(a, d);
      JoinedTerminated(b, d);
      TerminatedInjective(a, b, d);
    }
  }

  lemma JoinedEmpty<T>(a: seq<seq<T>>, d: T)
    requires forall i :: 0 <= i < |a| ==> a[i] != []
    ensures Joined(a, d) == [] <==> a == []
  {
  }
}
