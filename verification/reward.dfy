/**
 * The reward rule applied when a study session finishes (the body of
 * `completeStudySession` in the app's main page): from the minutes actually
 * studied and the goal, it derives the coins earned, whether the goal was met,
 * the height of the new building and the rooms it unlocks.
 */
module Reward {

  datatype Reward = Reward(completed: bool, coinsEarned: nat, height: real, roomsUnlocked: nat)

  /** Coins paid on top of the per-minute coins when the goal is met. */
  const GoalBonus: nat := 10
  /** Minutes of study per coin. */
  const MinutesPerCoin: nat := 5
  /** Minutes of study per unlocked room. */
  const MinutesPerRoom: nat := 30
  /** Height of a building whose goal was met, and the cap for any building. */
  const FullHeight: real := 100.0
  /** The lowest a building can be, however short the session. */
  const MinHeight: real := 30.0

  function MaxReal(a: real, b: real): (m: real)
    ensures m >= a && m >= b && (m == a || m == b)
  {
    if a >= b then a else b
  }

  /**
   * The height of the new building: full when the goal was met, otherwise the
   * share of the goal studied, in percent, but never below the minimum.
   * A goal of 0 is met by every session, so the division by the goal only
   * happens for a positive goal.
   */
  function Height(actualMinutes: nat, goalMinutes: nat): (h: real)
    ensures MinHeight <= h <= FullHeight
    ensures h == FullHeight <==> actualMinutes >= goalMinutes
    ensures actualMinutes < goalMinutes ==> h >= 100.0 * (actualMinutes as real) / (goalMinutes as real)
    ensures actualMinutes < goalMinutes && h > MinHeight ==> h * (goalMinutes as real) == 100.0 * (actualMinutes as real)
  {
    if actualMinutes >= goalMinutes then FullHeight
    else
      ShortOfGoal(actualMinutes, goalMinutes);
      MaxReal(MinHeight, (actualMinutes as real / goalMinutes as real) * 100.0)
  }

  /** The reward for a session of `actualMinutes` against a goal of `goalMinutes`. */
  function ComputeReward(actualMinutes: nat, goalMinutes: nat): (r: Reward)
    ensures r.completed <==> actualMinutes >= goalMinutes
    ensures r.coinsEarned == actualMinutes / MinutesPerCoin + (if r.completed then GoalBonus else 0)
    ensures MinHeight <= r.height <= FullHeight
    ensures r.height == FullHeight <==> r.completed
    ensures !r.completed ==> r.height >= 100.0 * (actualMinutes as real) / (goalMinutes as real)
    ensures !r.completed && r.height > MinHeight ==> r.height * (goalMinutes as real) == 100.0 * (actualMinutes as real)
    ensures !r.completed ==> r.roomsUnlocked == 0
    ensures r.completed ==> r.roomsUnlocked * MinutesPerRoom <= actualMinutes < (r.roomsUnlocked + 1) * MinutesPerRoom
  {
    var goalMet := actualMinutes >= goalMinutes;
    var coins := actualMinutes / MinutesPerCoin + (if goalMet then GoalBonus else 0);
    var rooms := if goalMet then actualMinutes / MinutesPerRoom else 0;
    Reward(goalMet, coins, Height(actualMinutes, goalMinutes), rooms)
  }

  /** Against the same goal, a longer session never stands lower. */
  lemma HeightMonotone(a1: nat, a2: nat, goal: nat)
    requires a1 <= a2
    ensures Height(a1, goal) <= Height(a2, goal)
  {
    if a2 < goal {
      DivMonotone(a1 as real, a2 as real, goal as real);
      assert (a1 as real / goal as real) * 100.0 <= (a2 as real / goal as real) * 100.0;
    }
  }

  /** Studying longer against the same goal never earns fewer coins, a lower building or fewer rooms. */
  lemma RewardMonotone(a1: nat, a2: nat, goal: nat)
    requires a1 <= a2
    ensures ComputeReward(a1, goal).coinsEarned <= ComputeReward(a2, goal).coinsEarned
    ensures ComputeReward(a1, goal).height <= ComputeReward(a2, goal).height
    ensures ComputeReward(a1, goal).roomsUnlocked <= ComputeReward(a2, goal).roomsUnlocked
  {
    HeightMonotone(a1, a2, goal);
  }

  /** Falling short of the goal gives less than the full proportion. */
  lemma ShortOfGoal(actual: nat, goal: nat)
    requires actual < goal
    ensures (actual as real / goal as real) * 100.0 < FullHeight
    ensures (actual as real / goal as real) * 100.0 == 100.0 * (actual as real) / (goal as real)
    ensures (actual as real / goal as real) * 100.0 * (goal as real) == 100.0 * (actual as real)
  {
    assert actual as real / goal as real < 1.0;
  }

  lemma DivMonotone(x: real, y: real, d: real)
    requires x <= y && d > 0.0
    ensures x / d <= y / d
  {
  }

  /** A session of 50 minutes against a 45-minute goal: goal met, 20 coins, full height, one room. */
  lemma ScenarioGoalMet()
    ensures ComputeReward(50, 45) == Reward(true, 20, 100.0, 1)
  {
  }

  /** A session of 20 minutes against a 60-minute goal: a third of the full height, 4 coins, no room. */
  lemma ScenarioGoalMissed()
    ensures ComputeReward(20, 60) == Reward(false, 4, 100.0 / 3.0, 0)
  {
  }

  /** A session of no minutes at all still stands at the minimum height and earns nothing. */
  lemma ScenarioEmptySession(goal: nat)
    requires goal > 0
    ensures ComputeReward(0, goal) == Reward(false, 0, MinHeight, 0)
  {
  }
}
