/**
 * The dialog that starts a study session: a goal slider restricted to 30..180 minutes
 * in steps of 15, and the reward preview shown for the chosen goal.
 */
module StartStudyModal {
  import opened Reward

  const MinGoal: nat := 30
  const MaxGoal: nat := 180
  const GoalStep: nat := 15
  /** The slider's position when the dialog opens. */
  const DefaultGoal: nat := 45

  /** A goal the slider can be set to. */
  predicate Selectable(goal: nat) {
    MinGoal <= goal <= MaxGoal && (goal - MinGoal) % GoalStep == 0
  }

  /** Every slider position, from the shortest goal to the longest. */
  function SliderGoals(): (goals: seq<nat>)
    ensures |goals| == 11 && goals[0] == MinGoal && goals[10] == MaxGoal
    ensures forall k :: 0 < k < |goals| ==> goals[k] == goals[k - 1] + GoalStep
  {
    seq(11, k => MinGoal + GoalStep * k)
  }

  /** The slider positions are exactly the selectable goals. */
  lemma SliderGoalsAreSelectable(goal: nat)
    ensures goal in SliderGoals() <==> Selectable(goal)
  {
    var goals := SliderGoals();
    if Selectable(goal) {
      var k := (goal - MinGoal) / GoalStep;
      assert goals[k] == goal;
    }
  }

  lemma DefaultIsSelectable()
    ensures Selectable(DefaultGoal)
  {
  }

  /** The dialog's promise: the coins and rooms of a session that meets its goal. */
  datatype Preview = Preview(totalCoins: nat, rooms: nat)

  /** `getRewardPreview`: coins for the goal's minutes plus the goal bonus, and its rooms. */
  function RewardPreview(minutes: nat): (p: Preview)
    ensures p.totalCoins == ComputeReward(minutes, minutes).coinsEarned
    ensures p.rooms == ComputeReward(minutes, minutes).roomsUnlocked
  {
    var baseCoins := minutes / 5;
    var bonusCoins := 10;
    Preview(baseCoins + bonusCoins, minutes / 30)
  }

  /**
   * The preview is what a session reaching its goal is at least paid: meeting the goal
   * completes the building, and studying past it only adds coins and rooms.
   */
  lemma PreviewIsGuaranteed(goal: nat, actualMinutes: nat)
    requires actualMinutes >= goal
    ensures ComputeReward(actualMinutes, goal).completed
    ensures ComputeReward(actualMinutes, goal).coinsEarned >= RewardPreview(goal).totalCoins
    ensures ComputeReward(actualMinutes, goal).roomsUnlocked >= RewardPreview(goal).rooms
  {
    RewardMonotone(goal, actualMinutes, goal);
  }

  /** Every goal the slider offers previews between 16 and 46 coins and between one and six rooms. */
  lemma SelectableGoalPreview(goal: nat)
    requires Selectable(goal)
    ensures 16 <= RewardPreview(goal).totalCoins <= 46
    ensures 1 <= RewardPreview(goal).rooms <= 6
  {
  }

  /** The dialog's one piece of state: the slider's goal. */
  datatype Dialog = Dialog(goal: nat)

  /** The dialog as it opens, with the slider at its default. */
  const Opened: Dialog := Dialog(DefaultGoal)

  /** Started straight away, the dialog hands over 45 minutes and promises 19 coins and one room. */
  lemma OpenedPreview()
    ensures HandleStart(Opened) == DefaultGoal && RewardPreview(HandleStart(Opened)) == Preview(19, 1)
  {
  }

  /** `handleStart`: the goal handed to the page is the slider's current value. */
  function HandleStart(d: Dialog): (goal: nat)
    ensures goal == d.goal
    ensures Selectable(d.goal) ==> 1 <= RewardPreview(goal).rooms
  {
    d.goal
  }
}
