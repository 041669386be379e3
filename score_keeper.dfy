/**
 * ScoreKeeper's kill-streak scoring. Time.time is an integer clock `now`; the static score is a
 * field of the one ScoreKeeper object.
 */
module Scoring {

  datatype ScoreState = ScoreState(score: int, lastEnemyKilledTime: int, streakCount: nat)

  /** The fields at their C# defaults. */
  function Initial(): ScoreState
  {
    ScoreState(0, 0, 0)
  }

  /** 2 to the power n: the value of (int)Mathf.Pow(2, n) while it fits in an int. */
  function Pow2(n: nat): (r: nat)
    ensures r >= 1
    ensures n > 0 ==> r >= 2
  {
    if n == 0 then 1 else 2 * Pow2(n - 1)
  }

  /** A kill strictly within streakExpiryTime of the previous one continues the streak. */
  predicate ContinuesStreak(expiry: int, s: ScoreState, now: int)
  {
    now < s.lastEnemyKilledTime + expiry
  }

  /** OnEnemyKilled. */
  function AfterKill(expiry: int, s: ScoreState, now: int): (r: ScoreState)
    ensures r.lastEnemyKilledTime == now
    ensures r.streakCount > 0 <==> ContinuesStreak(expiry, s, now)
    ensures r.score >= s.score + 6
  {
    var streak := if now < s.lastEnemyKilledTime + expiry then s.streakCount + 1 else 0;
    ScoreState(s.score + 5 + Pow2(streak), now, streak)
  }

  /**
   * The streak rule in both directions: the streak grows by one exactly when the kill continues
   * it and restarts at zero otherwise; the kill time is remembered and the score grows by
   * 5 + 2^streak.
   */
  lemma KillStreak(expiry: int, s: ScoreState, now: int)
    ensures AfterKill(expiry, s, now).streakCount > 0 <==> ContinuesStreak(expiry, s, now)
    ensures ContinuesStreak(expiry, s, now) ==> AfterKill(expiry, s, now).streakCount == s.streakCount + 1
    ensures AfterKill(expiry, s, now).lastEnemyKilledTime == now
    ensures AfterKill(expiry, s, now).score == s.score + 5 + Pow2(AfterKill(expiry, s, now).streakCount)
  {
  }

  /** Every kill is worth at least 6 points, and a kill that starts a new streak exactly 6. */
  lemma KillScoreBounds(expiry: int, s: ScoreState, now: int)
    ensures AfterKill(expiry, s, now).score >= s.score + 6
    ensures !ContinuesStreak(expiry, s, now) ==> AfterKill(expiry, s, now).score == s.score + 6
    ensures ContinuesStreak(expiry, s, now) ==> AfterKill(expiry, s, now).score >= s.score + 7
  {
  }

  /** OnEnemyKilled at each of the times in `times`. */
  function Kills(expiry: int, s: ScoreState, times: seq<int>): ScoreState
    decreases |times|
  {
    if times == [] then s else Kills(expiry, AfterKill(expiry, s, times[0]), times[1..])
  }

  /** n kills add at least 6n points: the score only ever grows. */
  lemma {:induction false} KillsScoreAtLeast(expiry: int, s: ScoreState, times: seq<int>)
    ensures Kills(expiry, s, times).score >= s.score + 6 * |times|
    decreases |times|
  {
    if times != [] {
      KillScoreBounds(expiry, s, times[0]);
      KillsScoreAtLeast(expiry, AfterKill(expiry, s, times[0]), times[1..]);
    }
  }

  /** Each kill lands strictly within streakExpiryTime of the one before it (the first of `last`). */
  predicate Chained(expiry: int, last: int, times: seq<int>)
  {
    (|times| > 0 ==> times[0] < last + expiry) &&
    forall k :: 0 < k < |times| ==> times[k] < times[k - 1] + expiry
  }

  /** The sum of 5 + 2^j for j from a + 1 to a + n: what n chained kills on a streak of a earn. */
  function StreakWorth(a: nat, n: nat): nat
    decreases n
  {
    if n == 0 then 0 else 5 + Pow2(a + 1) + StreakWorth(a + 1, n - 1)
  }

  /** Chained kills extend one streak: the streak grows by one per kill and the score by StreakWorth. */
  lemma {:induction false} ChainedKillsExtendStreak(expiry: int, s: ScoreState, times: seq<int>)
    requires Chained(expiry, s.lastEnemyKilledTime, times)
    ensures Kills(expiry, s, times).streakCount == s.streakCount + |times|
    ensures Kills(expiry, s, times).score == s.score + StreakWorth(s.streakCount, |times|)
    decreases |times|
  {
    if times != [] {
      var s1 := AfterKill(expiry, s, times[0]);
      assert Chained(expiry, s1.lastEnemyKilledTime, times[1..]) by {
        forall k | 0 < k < |times[1..]| ensures times[1..][k] < times[1..][k - 1] + expiry {
          assert times[1..][k] == times[k + 1] && times[1..][k - 1] == times[k];
        }
        if |times| > 1 {
          assert times[1] < times[0] + expiry;
        }
      }
      ChainedKillsExtendStreak(expiry, s1, times[1..]);
    }
  }

  class ScoreKeeper {
    const streakExpiryTime: int
    var score: int
    var lastEnemyKilledTime: int
    var streakCount: nat

    function State(): ScoreState
      reads this
    {
      ScoreState(score, lastEnemyKilledTime, streakCount)
    }

    constructor (streakExpiryTime: int)
      ensures this.streakExpiryTime == streakExpiryTime && State() == Initial()
    {
      this.streakExpiryTime := streakExpiryTime;
      score, lastEnemyKilledTime, streakCount := 0, 0, 0;
    }

    method OnEnemyKilled(now: int)
      modifies this
      ensures State() == AfterKill(streakExpiryTime, old(State()), now)
    {
      if now < lastEnemyKilledTime + streakExpiryTime {
        streakCount := streakCount + 1;
      } else {
        streakCount := 0;
      }
      lastEnemyKilledTime := now;
      score := score + 5 + Pow2(streakCount);
    }
  }
}
