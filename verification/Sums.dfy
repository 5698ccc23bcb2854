/** Sums of natural numbers. */
module Sums {

  function Sum(s: seq<nat>): nat {
    if s == [] then 0 else Sum(s[..|s| - 1]) + s[|s| - 1]
  }

  ghost predicate Within(s: seq<nat>, bound: nat) {
    forall j :: 0 <= j < |s| ==> s[j] <= bound
  }

  lemma {:induction false} SumUpdate(s: seq<nat>, j: nat, x: nat)
    requires j < |s|
    ensures Sum(s[j := s[j] + x]) == Sum(s) + x
  {
    var n := |s| - 1;
    var t := s[j := s[j] + x];
    if j < n {
      assert t[..n] == s[..n][j := s[..n][j] + x];
      SumUpdate(s[..n], j, x);
    } else {
      assert t[..n] == s[..n];
    }
  }

  lemma {:induction false} SumZeros(s: seq<nat>)
    requires forall j :: 0 <= j < |s| ==> s[j] == 0
    ensures Sum(s) == 0
  {
    if s != [] { SumZeros(s[..|s| - 1]); }
  }

  lemma {:induction false} SumAtLeast(s: seq<nat>, x: nat)
    requires forall j :: 0 <= j < |s| ==> x <= s[j]
    ensures |s| * x <= Sum(s)
  {
    if s != [] {
      SumAtLeast(s[..|s| - 1], x);
      assert |s| * x == (|s| - 1) * x + x;
    }
  }

  lemma {:induction false} SumAtMost(s: seq<nat>, x: nat)
    requires Within(s, x)
    ensures Sum(s) <= |s| * x
  {
    if s != [] {
      SumAtMost(s[..|s| - 1], x);
      assert |s| * x == (|s| - 1) * x + x;
    }
  }
}
