/** The elements of a sequence that have a property, in order. */
module Filtering {
  function Filter<T>(p: T -> bool, s: seq<T>): seq<T> {
    if s == [] then []
    else
      var n := |s| - 1;
      Filter(p, s[..n]) + if p(s[n]) then [s[n]] else []
  }

  lemma FilterAppend<T>(p: T -> bool, s: seq<T>, x: T)
    ensures Filter(p, s + [x]) == Filter(p, s) + if p(x) then [x] else []
  {
    assert (s + [x])[..|s|] == s;
  }

  lemma {:induction false} FilterMembers<T>(p: T -> bool, s: seq<T>, x: T)
    requires x in Filter(p, s)
    ensures p(x) && x in s
  {
    var n := |s| - 1;
    if x in Filter(p, s[..n]) {
      FilterMembers(p, s[..n], x);
    }
  }

  lemma {:induction false} FilterConcat<T>(p: T -> bool, a: seq<T>, b: seq<T>)
    ensures Filter(p, a + b) == Filter(p, a) + Filter(p, b)
  {
    if b == [] {
      assert a + b == a;
    } else {
      var n := |b| - 1;
      FilterConcat(p, a, b[..n]);
      var last := if p(b[n]) then [b[n]] else [];
      assert (a + b)[..|a| + n] == a + b[..n];
      assert Filter(p, a + b) == Filter(p, a) + Filter(p, b[..n]) + last;
    }
  }

  lemma {:induction false} FilterKeeps<T>(p: T -> bool, s: seq<T>, x: T)
    requires x in s && p(x)
    ensures x in Filter(p, s)
  {
    var n := |s| - 1;
    if x in s[..n] {
      FilterKeeps(p, s[..n], x);
    }
  }

  lemma {:induction false} FilterAll<T>(p: T -> bool, s: seq<T>)
    requires forall i | 0 <= i < |s| :: p(s[i])
    ensures Filter(p, s) == s
  {
    if s != [] {
      var n := |s| - 1;
      FilterAll(p, s[..n]);
      assert s == s[..n] + [s[n]];
    }
  }

  lemma {:induction false} FilterNone<T>(p: T -> bool, s: seq<T>)
    requires forall x | x in s :: !p(x)
    ensures Filter(p, s) == []
  {
    if s != [] {
      FilterNone(p, s[..|s| - 1]);
    }
  }

  lemma {:induction false} FilterSame<T>(p: T -> bool, q: T -> bool, s: seq<T>)
    requires forall x | x in s :: p(x) <==> q(x)
    ensures Filter(p, s) == Filter(q, s)
  {
    if s != [] {
      FilterSame(p, q, s[..|s| - 1]);
    }
  }

  lemma {:induction false} FilterCount<T>(p: T -> bool, s: seq<T>, x: T)
    requires p(x)
    ensures multiset(Filter(p, s))[x] == multiset(s)[x]
  {
    if s != [] {
      var n := |s| - 1;
      FilterCount(p, s[..n], x);
      assert s == s[..n] + [s[n]];
    }
  }
}
