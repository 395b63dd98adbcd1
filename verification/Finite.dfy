/** Counting facts about finite ranges. */
module Finite {

  lemma {:induction false} RangeSize(s: seq<int>, a: int, b: int)
    requires 0 <= a <= b <= |s|
    requires forall j, k :: 0 <= j < k < |s| ==> s[j] != s[k]
    ensures |set k | a <= k < b :: s[k]| == b - a
    decreases b
  {
    if a < b {
      RangeSize(s, a, b - 1);
      var before := set k | a <= k < b - 1 :: s[k];
      assert (set k | a <= k < b :: s[k]) == before + {s[b - 1]};
      assert s[b - 1] !in before;
    }
  }

  lemma {:induction false} SubrangeSize(s: set<int>, n: nat)
    requires forall i :: i in s ==> 0 <= i < n
    ensures |s| <= n
    decreases n
  {
    if n > 0 {
      SubrangeSize(s - {n - 1}, n - 1);
    } else {
      assert forall i :: i !in s;
    }
  }

  /** `n` distinct numbers below `n` are all of them. */
  lemma Pigeonhole(s: seq<int>, v: int) returns (i: int)
    requires forall j, k :: 0 <= j < k < |s| ==> s[j] != s[k]
    requires forall j :: 0 <= j < |s| ==> 0 <= s[j] < |s|
    requires 0 <= v < |s|
    ensures 0 <= i < |s| && s[i] == v
  {
    if v in s {
      i :| 0 <= i < |s| && s[i] == v;
    } else {
      RangeSize(s, 0, |s|);
      var values := set k | 0 <= k < |s| :: s[k];
      SubrangeSize(values + {v}, |s|);
      assert false;
    }
  }
}
