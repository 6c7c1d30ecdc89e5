/** How many elements of a sequence satisfy a predicate, and how that number changes. */
module Counting {

  function Count<T>(s: seq<T>, p: T -> bool): nat {
    if s == [] then 0 else Count(s[..|s| - 1], p) + (if p(s[|s| - 1]) then 1 else 0)
  }

  lemma CountAppend<T>(s: seq<T>, x: T, p: T -> bool)
    ensures Count(s + [x], p) == Count(s, p) + (if p(x) then 1 else 0)
  {
    assert (s + [x])[..|s|] == s;
  }

  lemma {:induction false} CountUpdate<T>(s: seq<T>, i: nat, x: T, p: T -> bool)
    requires i < |s|
    ensures Count(s[i := x], p) + (if p(s[i]) then 1 else 0) == Count(s, p) + (if p(x) then 1 else 0)
  {
    var n := |s| - 1;
    if i == n {
      assert s[i := x][..n] == s[..n];
    } else {
      assert s[i := x][..n] == s[..n][i := x];
      CountUpdate(s[..n], i, x, p);
    }
  }

  /** Elementwise implication between two sequences of the same length orders the counts. */
  lemma {:induction false} CountPointwise<A, B>(s: seq<A>, p: A -> bool, t: seq<B>, q: B -> bool)
    requires |s| == |t|
    requires forall i :: 0 <= i < |s| && p(s[i]) ==> q(t[i])
    ensures Count(s, p) <= Count(t, q)
  {
    if s != [] {
      CountPointwise(s[..|s| - 1], p, t[..|t| - 1], q);
    }
  }

  /** The last satisfying element, when there is one. */
  lemma {:induction false} CountLast<T>(s: seq<T>, p: T -> bool) returns (i: nat)
    requires Count(s, p) > 0
    ensures i < |s| && p(s[i])
    ensures Count(s[..i + 1], p) == Count(s, p)
    ensures forall j :: i < j < |s| ==> !p(s[j])
  {
    var n := |s| - 1;
    if p(s[n]) {
      i := n;
      assert s[..i + 1] == s;
    } else {
      i := CountLast(s[..n], p);
      assert s[..n][..i + 1] == s[..i + 1];
    }
  }

  /** A predicate split into two disjoint cases splits its count. */
  lemma {:induction false} CountSplit<T>(s: seq<T>, p: T -> bool, q: T -> bool, r: T -> bool)
    requires forall x :: x in s ==> (p(x) <==> q(x) || r(x)) && !(q(x) && r(x))
    ensures Count(s, p) == Count(s, q) + Count(s, r)
  {
    if s != [] {
      CountSplit(s[..|s| - 1], p, q, r);
    }
  }

  lemma CountEmpty<T>(s: seq<T>, p: T -> bool)
    requires forall x :: x in s ==> !p(x)
    ensures Count(s, p) == 0
  {
  }
}
