/** Sums over a sequence of counters: the measure of runs of several processes. */
module Totals {

  function Total(s: seq<nat>): nat {
    if s == [] then 0 else Total(s[..|s| - 1]) + s[|s| - 1]
  }

  lemma {:induction false} TotalStep(s: seq<nat>, i: nat)
    requires i < |s|
    ensures Total(s[i := s[i] + 1]) == Total(s) + 1
    decreases |s|
  {
    var n := |s| - 1;
    if i < n {
      TotalStep(s[..n], i);
      assert s[i := s[i] + 1][..n] == s[..n][i := s[i] + 1];
    } else {
      assert s[i := s[i] + 1][..n] == s[..n];
    }
  }

  lemma {:induction false} TotalBound(s: seq<nat>, n: nat)
    requires forall i :: 0 <= i < |s| ==> s[i] <= n
    ensures Total(s) <= |s| * n
    ensures Total(s) == |s| * n <==> forall i :: 0 <= i < |s| ==> s[i] == n
    decreases |s|
  {
    if s != [] {
      var k := |s| - 1;
      TotalBound(s[..k], n);
      assert |s| * n == k * n + n;
      assert forall i :: 0 <= i < k ==> s[..k][i] == s[i];
    }
  }

  lemma {:induction false} TotalZero(n: nat)
    ensures Total(seq(n, _ => 0)) == 0
  {
    if n > 0 {
      TotalZero(n - 1);
      assert seq(n, _ => 0)[..n - 1] == seq(n - 1, _ => 0);
    }
  }
}
