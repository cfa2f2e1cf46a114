/**
 The derived statistics shown under the contribution grid: the best day,
 the total and the current streak, all over the full series of daily
 counts (oldest day first).
 */
module ContributionStats {

  /** `max(contributions) if contributions else 0`: the largest daily count, 0 for no days. */
  function Best(s: seq<nat>): (b: nat)
    ensures forall i :: 0 <= i < |s| ==> s[i] <= b
    ensures |s| == 0 ==> b == 0
    ensures |s| > 0 ==> b in s
  {
    if |s| == 0 then 0
    else
      var rest := Best(s[..|s| - 1]);
      if s[|s| - 1] > rest then s[|s| - 1] else rest
  }

  /** Python's `sum` over the daily counts. */
  function Sum(s: seq<nat>): (total: nat)
    ensures total == 0 <==> forall i :: 0 <= i < |s| ==> s[i] == 0
  {
    if |s| == 0 then 0 else Sum(s[..|s| - 1]) + s[|s| - 1]
  }

  /**
   `k` is the current streak of `s`: the last `k` days are all non-zero and
   either every day is, or the day just before them is zero.
   */
  predicate IsStreak(s: seq<nat>, k: nat)
  {
    k <= |s|
    && (forall i :: |s| - k <= i < |s| ==> s[i] > 0)
    && (k == |s| || s[|s| - 1 - k] == 0)
  }

  /**
   The reverse scan that counts non-zero days from the most recent one and
   stops at the first zero.
   */
  method CurrentStreak(contributions: seq<nat>) returns (streak: nat)
    ensures streak <= |contributions|
    ensures forall i :: |contributions| - streak <= i < |contributions| ==> contributions[i] > 0
    ensures streak == |contributions| || contributions[|contributions| - 1 - streak] == 0
  {
    streak := 0;
    var i := |contributions|;
    while i > 0
      invariant 0 <= i <= |contributions|
      invariant streak == |contributions| - i
      invariant forall k :: i <= k < |contributions| ==> contributions[k] > 0
    {
      var count := contributions[i - 1];
      if count > 0 {
        streak := streak + 1;
      } else {
        break;
      }
      i := i - 1;
    }
  }

  /** The three streak clauses above pin the streak down: at most one `k` fits. */
  lemma StreakUnique(s: seq<nat>, k1: nat, k2: nat)
    requires IsStreak(s, k1) && IsStreak(s, k2)
    ensures k1 == k2
  {
  }

  /** The statistics of the network path: best day and current streak. */
  method FetchedStats(contributions: seq<nat>) returns (bestDay: nat, currentStreak: nat)
    ensures bestDay == Best(contributions)
    ensures |contributions| == 0 ==> bestDay == 0 && currentStreak == 0
    ensures IsStreak(contributions, currentStreak)
  {
    bestDay := if |contributions| > 0 then Best(contributions) else 0;
    currentStreak := CurrentStreak(contributions);
  }

  /**
   The statistics of the synthetic-data path: total, best day and current
   streak. Here `max` has no default, so an empty series is excluded.
   */
  method FakeStats(contributions: seq<nat>) returns (total: nat, best: nat, streak: nat)
    requires |contributions| > 0
    ensures total == Sum(contributions)
    ensures best in contributions && forall i :: 0 <= i < |contributions| ==> contributions[i] <= best
    ensures IsStreak(contributions, streak)
  {
    total := Sum(contributions);
    best := Best(contributions);
    streak := CurrentStreak(contributions);
  }

  /** The best day never exceeds the total. */
  lemma {:induction false} BestAtMostSum(s: seq<nat>)
    ensures Best(s) <= Sum(s)
  {
    if |s| > 0 {
      BestAtMostSum(s[..|s| - 1]);
    }
  }

  /** The total never exceeds the number of days times the best day. */
  lemma {:induction false} SumAtMostDaysTimesBest(s: seq<nat>)
    ensures Sum(s) <= |s| * Best(s)
  {
    if |s| > 0 {
      var init, n := s[..|s| - 1], |s| - 1;
      var b, big := Best(init), Best(s);
      SumAtMostDaysTimesBest(init);
      MulMonotone(n, b, big);
      assert Sum(s) == Sum(init) + s[n];
      assert s[n] <= big;
      MulSucc(n, big);
    }
  }

  lemma MulSucc(n: nat, x: nat)
    ensures n * x + x == (n + 1) * x
  {
  }

  lemma MulMonotone(n: nat, a: nat, b: nat)
    requires a <= b
    ensures n * a <= n * b
  {
  }
}
