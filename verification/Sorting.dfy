/** sorted() on numbers. */
module Sorting {

  predicate Ordered(s: seq<real>) {
    |s| < 2 || (s[0] <= s[1] && Ordered(s[1..]))
  }

  lemma {:induction false} OrderedPair(s: seq<real>, i: nat, j: nat)
    requires Ordered(s) && i <= j < |s|
    ensures s[i] <= s[j]
    decreases j
  {
    if i > 0 {
      OrderedPair(s[1..], i - 1, j - 1);
    } else if j > 0 {
      OrderedPair(s[1..], 0, j - 1);
    }
  }

  function Insert(x: real, s: seq<real>): (r: seq<real>)
    requires Ordered(s)
    ensures Ordered(r) && r != [] && r[0] == if s != [] && s[0] < x then s[0] else x
    ensures multiset(r) == multiset(s) + multiset{x}
  {
    if s == [] then [x]
    else if x <= s[0] then
      assert ([x] + s)[1..] == s;
      [x] + s
    else
      assert s == [s[0]] + s[1..];
      var rest := Insert(x, s[1..]);
      assert ([s[0]] + rest)[1..] == rest;
      [s[0]] + rest
  }

  function Sorted(s: seq<real>): (r: seq<real>)
    ensures Ordered(r) && multiset(r) == multiset(s)
  {
    if s == [] then []
    else
      assert s == [s[0]] + s[1..];
      Insert(s[0], Sorted(s[1..]))
  }

  lemma SortedLength(s: seq<real>)
    ensures |Sorted(s)| == |s|
  {
    hide Sorted;
    assert |multiset(s)| == |s| && |multiset(Sorted(s))| == |Sorted(s)|;
  }

  lemma FirstIsLeast(s: seq<real>, x: real)
    requires Ordered(s) && x in s
    ensures s[0] <= x
  {
  }

  lemma TailMultiset(a: seq<real>)
    requires a != []
    ensures multiset(a[1..]) == multiset(a) - multiset{a[0]}
  {
    assert a == [a[0]] + a[1..];
  }

  lemma SameHead(a: seq<real>, b: seq<real>)
    requires Ordered(a) && Ordered(b) && multiset(a) == multiset(b) && a != []
    ensures b != [] && a[0] == b[0]
  {
    hide Ordered;
    assert a[0] in multiset(b);
    assert b[0] in multiset(a);
    FirstIsLeast(a, b[0]);
    FirstIsLeast(b, a[0]);
  }

  /** An ordered list is determined by its multiset. */
  lemma {:induction false} OrderedUnique(a: seq<real>, b: seq<real>)
    requires Ordered(a) && Ordered(b) && multiset(a) == multiset(b)
    ensures a == b
    decreases |a|
  {
    if a == [] {
      assert |multiset(b)| == 0;
    } else {
      SameHead(a, b);
      TailMultiset(a);
      TailMultiset(b);
      OrderedUnique(a[1..], b[1..]);
      assert a == [a[0]] + a[1..] && b == [b[0]] + b[1..];
    }
  }
}
