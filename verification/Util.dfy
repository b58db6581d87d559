// Datatypes and sums over sequences shared by every module.
module Util {

  type byte = bv8

  datatype Option<+T> = None | Some(value: T)

  datatype Result<+T, +E> = Ok(value: T) | Err(error: E)

  /** The sum of f over the elements of s. */
  function Sum<T>(f: T -> nat, s: seq<T>): nat {
    if s == [] then 0 else Sum(f, s[..|s| - 1]) + f(s[|s| - 1])
  }

  lemma SumSnoc<T>(f: T -> nat, s: seq<T>, x: T)
    ensures Sum(f, s + [x]) == Sum(f, s) + f(x)
  {
    assert (s + [x])[..|s|] == s;
  }

  lemma {:induction false} SumUpdate<T>(f: T -> nat, s: seq<T>, k: nat, x: T)
    requires k < |s|
    ensures Sum(f, s[k := x]) + f(s[k]) == Sum(f, s) + f(x)
  {
    var n := |s| - 1;
    if k == n {
      assert s[k := x][..n] == s[..n];
    } else {
      SumUpdate(f, s[..n], k, x);
      assert s[k := x][..n] == s[..n][k := x];
    }
  }

  lemma {:induction false} SumBound<T>(f: T -> nat, s: seq<T>, b: nat)
    requires forall i :: 0 <= i < |s| ==> f(s[i]) <= b
    ensures Sum(f, s) <= |s| * b
  {
    if s != [] {
      SumBound(f, s[..|s| - 1], b);
    }
  }

  lemma {:induction false} SumConstant<T>(f: T -> nat, s: seq<T>, c: nat)
    requires forall i :: 0 <= i < |s| ==> f(s[i]) == c
    ensures Sum(f, s) == |s| * c
  {
    if s != [] {
      SumConstant(f, s[..|s| - 1], c);
    }
  }

  lemma {:induction false} SumAgree<T>(f: T -> nat, g: T -> nat, s: seq<T>)
    requires forall i :: 0 <= i < |s| ==> f(s[i]) == g(s[i])
    ensures Sum(f, s) == Sum(g, s)
  {
    if s != [] {
      SumAgree(f, g, s[..|s| - 1]);
    }
  }

  lemma {:induction false} SumAtMost<T>(f: T -> nat, g: T -> nat, s: seq<T>)
    requires forall i :: 0 <= i < |s| ==> f(s[i]) <= g(s[i])
    ensures Sum(f, s) <= Sum(g, s)
  {
    if s != [] {
      SumAtMost(f, g, s[..|s| - 1]);
    }
  }

  lemma {:induction false} SumSplits<T>(e: T -> nat, f: T -> nat, g: T -> nat, h: T -> nat, s: seq<T>)
    requires forall i :: 0 <= i < |s| ==> e(s[i]) == f(s[i]) + g(s[i]) + h(s[i])
    ensures Sum(e, s) == Sum(f, s) + Sum(g, s) + Sum(h, s)
  {
    if s != [] {
      SumSplits(e, f, g, h, s[..|s| - 1]);
    }
  }

  /** A sum of zeros and ones is the number of places with a one. */
  lemma {:induction false} SumIsCount<T>(f: T -> nat, s: seq<T>) returns (ones: set<nat>)
    requires forall i :: 0 <= i < |s| ==> f(s[i]) <= 1
    ensures forall i: nat :: i in ones <==> i < |s| && f(s[i]) == 1
    ensures Sum(f, s) == |ones|
  {
    if s == [] {
      ones := {};
    } else {
      var n := |s| - 1;
      var before := SumIsCount(f, s[..n]);
      ones := if f(s[n]) == 1 then before + {n} else before;
    }
  }
}
