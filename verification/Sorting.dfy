/** Sorting of strings, as the standard library orders them. */
module Sorting {

  predicate Le(s: string, t: string) {
    s == "" || (t != "" && (s[0] < t[0] || (s[0] == t[0] && Le(s[1..], t[1..]))))
  }

  lemma {:induction false} LeTotal(s: string, t: string)
    ensures Le(s, t) || Le(t, s)
    decreases |s|
  {
    if s != "" && t != "" {
      LeTotal(s[1..], t[1..]);
    }
  }

  lemma {:induction false} LeTransitive(s: string, t: string, u: string)
    requires Le(s, t) && Le(t, u)
    ensures Le(s, u)
    decreases |s|
  {
    if s != "" && s[0] == t[0] == u[0] {
      LeTransitive(s[1..], t[1..], u[1..]);
    }
  }

  predicate Sorted(list: seq<string>) {
    forall i, j :: 0 <= i < j < |list| ==> Le(list[i], list[j])
  }

  predicate Distinct(list: seq<string>) {
    forall i, j :: 0 <= i < j < |list| ==> list[i] != list[j]
  }

  lemma InsertSorted(list: seq<string>, p: nat, s: string)
    requires Sorted(list) && p <= |list|
    requires forall i :: 0 <= i < p ==> Le(list[i], s)
    requires p < |list| ==> !Le(list[p], s)
    ensures Sorted(list[..p] + [s] + list[p..])
  {
    hide Le;
    forall i | p <= i < |list| ensures Le(s, list[i]) {
      LeTotal(list[p], s);
      if i > p {
        LeTransitive(s, list[p], list[i]);
      }
    }
  }

  method Sort(list: seq<string>) returns (sorted: seq<string>)
    ensures Sorted(sorted) && multiset(sorted) == multiset(list) && |sorted| == |list|
  {
    hide Le;
    sorted := [];
    for n := 0 to |list|
      invariant |sorted| == n && Sorted(sorted) && multiset(sorted) == multiset(list[..n])
    {
      var p := 0;
      while p < |sorted| && Le(sorted[p], list[n])
        invariant p <= |sorted| && forall i :: 0 <= i < p ==> Le(sorted[i], list[n])
      {
        p := p + 1;
      }
      InsertSorted(sorted, p, list[n]);
      assert sorted == sorted[..p] + sorted[p..];
      assert list[..n + 1] == list[..n] + [list[n]];
      sorted := sorted[..p] + [list[n]] + sorted[p..];
    }
    assert list[..|list|] == list;
  }

  lemma {:induction false} DistinctCount(list: seq<string>, s: string)
    requires Distinct(list)
    ensures multiset(list)[s] <= 1
    decreases |list|
  {
    if list != [] {
      var most, last := list[..|list| - 1], list[|list| - 1];
      assert list == most + [last];
      assert last !in most;
      DistinctCount(most, s);
    }
  }

  lemma RepeatedCount(list: seq<string>, i: nat, j: nat)
    requires i < j < |list| && list[i] == list[j]
    ensures multiset(list)[list[i]] >= 2
  {
    var a, b := list[..j], list[j..];
    assert list == a + b;
    assert a[i] in multiset(a) && b[0] in multiset(b);
  }

  lemma DistinctPermuted(list: seq<string>, sorted: seq<string>)
    requires Distinct(list) && multiset(sorted) == multiset(list)
    ensures Distinct(sorted)
    ensures forall s :: s in sorted <==> s in list
  {
    assert forall s :: s in sorted <==> s in multiset(sorted);
    forall i, j | 0 <= i < j < |sorted| ensures sorted[i] != sorted[j] {
      DistinctCount(list, sorted[i]);
      if sorted[i] == sorted[j] {
        RepeatedCount(sorted, i, j);
      }
    }
  }

  // A text comes before its extensions, and otherwise the first difference decides.
  lemma {:induction false} LeDecided(p: string, s: string, t: string)
    ensures Le(p, p + s)
    ensures s != "" && t != "" && s[0] < t[0] ==> Le(p + s, p + t) && !Le(p + t, p + s)
    decreases |p|
  {
    if p == "" {
      assert p + s == s && p + t == t;
    } else {
      assert (p + s)[1..] == p[1..] + s && (p + t)[1..] == p[1..] + t;
      LeDecided(p[1..], s, t);
    }
  }
}
