/** How many elements of a sequence have a property. */
module Counting {
  ghost function Count<T>(p: T -> bool, s: seq<T>): nat {
    if s == [] then 0 else Count(p, s[..|s| - 1]) + (if p(s[|s| - 1]) then 1 else 0)
  }

  lemma CountAppend<T>(p: T -> bool, s: seq<T>, x: T)
    ensures Count(p, s + [x]) == Count(p, s) + (if p(x) then 1 else 0)
  {
    assert (s + [x])[..|s|] == s;
  }

  lemma {:induction false} CountUpdate<T>(p: T -> bool, s: seq<T>, i: nat, x: T)
    requires i < |s|
    ensures Count(p, s[i := x]) == Count(p, s) - (if p(s[i]) then 1 else 0) + (if p(x) then 1 else 0)
  {
    var n := |s| - 1;
    if i == n {
      assert s[i := x][..n] == s[..n];
    } else {
      CountUpdate(p, s[..n], i, x);
      assert s[i := x][..n] == s[..n][i := x];
    }
  }

  lemma {:induction false} CountZero<T>(p: T -> bool, s: seq<T>)
    ensures Count(p, s) == 0 <==> forall i | 0 <= i < |s| :: !p(s[i])
  {
    if s != [] {
      var rest := s[..|s| - 1];
      CountZero(p, rest);
      assert forall i | 0 <= i < |rest| :: rest[i] == s[i];
    }
  }

  lemma {:induction false} CountAll<T>(p: T -> bool, s: seq<T>)
    ensures Count(p, s) <= |s|
    ensures Count(p, s) == |s| <==> forall i | 0 <= i < |s| :: p(s[i])
  {
    if s != [] {
      var rest := s[..|s| - 1];
      CountAll(p, rest);
      assert forall i | 0 <= i < |rest| :: rest[i] == s[i];
    }
  }

  lemma {:induction false} CountSame<T>(p: T -> bool, q: T -> bool, s: seq<T>)
    requires forall i | 0 <= i < |s| :: p(s[i]) == q(s[i])
    ensures Count(p, s) == Count(q, s)
  {
    if s != [] {
      CountSame(p, q, s[..|s| - 1]);
    }
  }
}
