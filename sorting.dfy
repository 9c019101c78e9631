/**
  Sorting the keys of a dictionary, as `sorted(d.items(), key=...)` does
  before the report is written: every key once, in non-decreasing order of a
  total preorder.
 */
module Sorting {

  /** `le` is total and transitive: a sort key comparison that may tie. */
  ghost predicate TotalPreorder<T(!new)>(le: (T, T) -> bool) {
    && (forall a, b :: le(a, b) || le(b, a))
    && (forall a, b, c :: le(a, b) && le(b, c) ==> le(a, c))
  }

  predicate SortedBy<T>(s: seq<T>, le: (T, T) -> bool) {
    forall i, j :: 0 <= i < j < |s| ==> le(s[i], s[j])
  }

  predicate Distinct<T(==)>(s: seq<T>) {
    forall i, j :: 0 <= i < j < |s| ==> s[i] != s[j]
  }

  /** `x` put into the sorted `s` before the first element it does not follow. */
  function Insert<T(!new)>(s: seq<T>, x: T, le: (T, T) -> bool): (r: seq<T>)
    requires TotalPreorder(le) && SortedBy(s, le)
    ensures SortedBy(r, le)
    ensures multiset(r) == multiset(s) + multiset{x}
    decreases |s|
  {
    if s == [] || le(x, s[0]) then [x] + s
    else
      var tail := Insert(s[1..], x, le);
      assert le(s[0], x);
      assert forall k :: 0 <= k < |tail| ==> le(s[0], tail[k]) by {
        forall k | 0 <= k < |tail| ensures le(s[0], tail[k]) {
          assert tail[k] in multiset(s[1..]) + multiset{x};
          if tail[k] != x {
            assert tail[k] in s[1..];
          }
        }
      }
      assert s == [s[0]] + s[1..];
      [s[0]] + tail
  }

  /** The elements of the set, each once, in sorted order. */
  method SortSet<T(!new)>(items: set<T>, le: (T, T) -> bool) returns (s: seq<T>)
    requires TotalPreorder(le)
    ensures SortedBy(s, le)
    ensures multiset(s) == multiset(items)
  {
    s := [];
    var rest := items;
    while rest != {}
      invariant SortedBy(s, le)
      invariant multiset(s) + multiset(rest) == multiset(items)
      decreases |rest|
    {
      var x :| x in rest;
      s := Insert(s, x, le);
      assert rest == (rest - {x}) + {x};
      rest := rest - {x};
    }
  }

  /** A sequence with the multiset of a set lists every element of that set
      exactly once. */
  lemma SequenceOfSet<T>(s: seq<T>, items: set<T>)
    requires multiset(s) == multiset(items)
    ensures forall x :: x in s <==> x in items
    ensures Distinct(s)
    ensures |s| == |items|
  {
    assert |multiset(s)| == |s|;
    forall x ensures x in s <==> x in items {
      assert x in s <==> x in multiset(s);
    }
    forall i, j | 0 <= i < j < |s| ensures s[i] != s[j] {
      assert s == s[..i] + [s[i]] + s[i + 1..j] + [s[j]] + s[j + 1..];
      var m := multiset(s);
      assert m == multiset(s[..i]) + multiset{s[i]} + multiset(s[i + 1..j]) + multiset{s[j]} + multiset(s[j + 1..]);
      assert m[s[i]] >= multiset{s[i]}[s[i]] + multiset{s[j]}[s[i]];
      assert multiset(items)[s[i]] <= 1;
    }
  }
}
