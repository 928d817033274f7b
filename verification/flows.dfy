/**
 * How the pieces fit together: the state invariant every page operation keeps, the
 * purchase guard in front of `purchaseDecoration`, the timer's Finish feeding
 * `completeStudySession`, and the create-city dialog feeding `createCity`.
 */
module Flows {
  import opened Wrappers
  import opened Reward
  import opened Progression
  import opened DecorationShop
  import Text
  import StudyTimer
  import StartStudyModal
  import CreateCityModal

  /** A building as the page creates it and the shops extend it. */
  predicate BuildingValid(b: Building) {
    FollowsRewardRule(b) && Distinct(b.decorations)
  }

  predicate AllBuildingsValid(s: State) {
    forall i, j :: 0 <= i < |s.cities| && 0 <= j < |s.cities[i].buildings| ==> BuildingValid(s.cities[i].buildings[j])
  }

  /** Buildings that share an id carry the same decorations (trivially so when ids are unique). */
  predicate CopiesAgree(s: State) {
    forall i, j, k, l ::
      && 0 <= i < |s.cities| && 0 <= j < |s.cities[i].buildings|
      && 0 <= k < |s.cities| && 0 <= l < |s.cities[k].buildings|
      && s.cities[i].buildings[j].id == s.cities[k].buildings[l].id
      ==> s.cities[i].buildings[j].decorations == s.cities[k].buildings[l].decorations
  }

  /**
   * The invariant of the progression state: the global wallet is never negative, hours
   * never negative, every building follows the reward rule and owns no decoration twice.
   */
  predicate Valid(s: State) {
    && s.totalCoins >= 0
    && s.totalStudyHours >= 0.0
    && AllBuildingsValid(s)
    && CopiesAgree(s)
  }

  /** No building in the state carries this id yet. */
  predicate FreshBuildingId(s: State, id: string) {
    forall i, j :: 0 <= i < |s.cities| && 0 <= j < |s.cities[i].buildings| ==> s.cities[i].buildings[j].id != id
  }

  lemma InitialValid()
    ensures Valid(Initial)
  {
  }

  lemma CreatePreservesValid(s: State, id: string, name: string, gradient: string)
    requires Valid(s)
    ensures Valid(CreateCity(s, id, name, gradient))
  {
    var r := CreateCity(s, id, name, gradient);
    assert forall i :: 0 <= i < |s.cities| ==> r.cities[i] == s.cities[i];
  }

  lemma DeletePreservesValid(s: State, id: string)
    requires Valid(s)
    ensures Valid(DeleteCity(s, id))
  {
    var r := DeleteCity(s, id);
    forall i | 0 <= i < |r.cities|
      ensures exists i' :: 0 <= i' < |s.cities| && r.cities[i] == s.cities[i']
    {
      assert r.cities[i] in r.cities;
    }
  }

  /**
   * A finished session keeps the invariant when the new building's id is fresh: the new
   * building follows the reward rule and has no decorations yet.
   */
  lemma CompletePreservesValid(s: State, cityId: string, buildingId: string, actualMinutes: nat, goalMinutes: nat)
    requires Valid(s)
    requires FreshBuildingId(s, buildingId)
    ensures Valid(CompleteStudySession(s, cityId, buildingId, actualMinutes, goalMinutes))
  {
    var r := CompleteStudySession(s, cityId, buildingId, actualMinutes, goalMinutes);
    var nb := NewBuilding(buildingId, actualMinutes, goalMinutes);
    forall i, j | 0 <= i < |r.cities| && 0 <= j < |r.cities[i].buildings|
      ensures j < |s.cities[i].buildings| ==> r.cities[i].buildings[j] == s.cities[i].buildings[j]
      ensures j >= |s.cities[i].buildings| ==> r.cities[i].buildings[j] == nb
    {
    }
  }

  /**
   * A purchase made from a shop dialog showing building `(i, j)`: the shop's guard first,
   * then the page's `purchaseDecoration` with what the guard forwarded.
   */
  function GuardedPurchase(s: State, i: nat, j: nat, d: Decoration): (r: State)
    requires i < |s.cities| && j < |s.cities[i].buildings|
    ensures |r.cities| == |s.cities|
    ensures var b := s.cities[i].buildings[j];
      r == if s.totalCoins >= d.cost && d.id !in b.decorations
           then PurchaseDecoration(s, b.id, d.id, d.cost)
           else s
  {
    var b := s.cities[i].buildings[j];
    match HandlePurchase(b.decorations, s.totalCoins, d)
    case None => s
    case Some(req) => PurchaseDecoration(s, b.id, req.decorationId, req.cost)
  }

  /** Decorating every copy of a building alike keeps the copies in agreement. */
  lemma PurchaseKeepsCopiesAgree(s: State, buildingId: string, decorationId: string, cost: int)
    requires CopiesAgree(s)
    ensures CopiesAgree(PurchaseDecoration(s, buildingId, decorationId, cost))
  {
    var r := PurchaseDecoration(s, buildingId, decorationId, cost);
    forall i, j, k, l |
      && 0 <= i < |r.cities| && 0 <= j < |r.cities[i].buildings|
      && 0 <= k < |r.cities| && 0 <= l < |r.cities[k].buildings|
      && r.cities[i].buildings[j].id == r.cities[k].buildings[l].id
      ensures r.cities[i].buildings[j].decorations == r.cities[k].buildings[l].decorations
    {
      assert s.cities[i].buildings[j].decorations == s.cities[k].buildings[l].decorations;
    }
  }

  /** Appending a decoration the shown building lacks leaves every copy of it without repeats. */
  lemma GuardedPurchaseKeepsBuildingsValid(s: State, i: nat, j: nat, d: Decoration)
    requires AllBuildingsValid(s) && CopiesAgree(s)
    requires i < |s.cities| && j < |s.cities[i].buildings|
    requires HandlePurchase(s.cities[i].buildings[j].decorations, s.totalCoins, d).Some?
    ensures AllBuildingsValid(PurchaseDecoration(s, s.cities[i].buildings[j].id, d.id, d.cost))
  {
    var b := s.cities[i].buildings[j];
    GuardKeepsOwnedDistinct(b.decorations, s.totalCoins, d);
    var r := PurchaseDecoration(s, b.id, d.id, d.cost);
    forall k, l | 0 <= k < |r.cities| && 0 <= l < |r.cities[k].buildings|
      ensures BuildingValid(r.cities[k].buildings[l])
    {
      var before := s.cities[k].buildings[l];
      assert BuildingValid(before);
      assert r.cities[k].buildings[l] == Decorate(before, b.id, d.id);
      if before.id == b.id {
        assert before.decorations == b.decorations;
      }
    }
  }

  /**
   * Purchases that go through the guard keep the invariant: the wallet stays non-negative
   * and no building ever owns a decoration twice.
   */
  lemma GuardedPurchasePreservesValid(s: State, i: nat, j: nat, d: Decoration)
    requires Valid(s)
    requires i < |s.cities| && j < |s.cities[i].buildings|
    ensures Valid(GuardedPurchase(s, i, j, d))
  {
    var b := s.cities[i].buildings[j];
    if HandlePurchase(b.decorations, s.totalCoins, d).Some? {
      PurchaseKeepsCopiesAgree(s, b.id, d.id, d.cost);
      GuardedPurchaseKeepsBuildingsValid(s, i, j, d);
    }
  }

  /**
   * Without unique building ids the guard is not enough: it checks the building the
   * dialog shows, but the page decorates every building with that id, so a copy that
   * already owned the decoration ends up owning it twice.
   */
  lemma CollidingIdsDefeatTheGuard()
    ensures var older := Building("7", 60, 45, true, 100.0, 2, ["plant"], Residential);
      var newer := Building("7", 60, 45, true, 100.0, 2, [], Residential);
      var s := State([City("1", "Maths", "#0ea5e9", [older, newer], 30)], 30, 2.0);
      var r := GuardedPurchase(s, 0, 1, Decoration("plant", "Plant", 5));
      && AllBuildingsValid(s)
      && r.cities[0].buildings[0].decorations == ["plant", "plant"]
      && !Distinct(r.cities[0].buildings[0].decorations)
  {
    var older := Building("7", 60, 45, true, 100.0, 2, ["plant"], Residential);
    var newer := Building("7", 60, 45, true, 100.0, 2, [], Residential);
    var s := State([City("1", "Maths", "#0ea5e9", [older, newer], 30)], 30, 2.0);
    var r := GuardedPurchase(s, 0, 1, Decoration("plant", "Plant", 5));
    assert HandlePurchase([], 30, Decoration("plant", "Plant", 5)) == Some(PurchaseRequest("plant", 5));
    assert r == PurchaseDecoration(s, "7", "plant", 5);
    assert r.cities[0].buildings[0] == Decorate(older, "7", "plant");
    var twice := r.cities[0].buildings[0].decorations;
    assert twice[0] == twice[1];
  }

  /** A session started from the dialog: the page records the city and the slider's goal. */
  function StartSession(dialog: StartStudyModal.Dialog, cityId: string): (session: ActiveSession)
    ensures session.cityId == cityId && session.goalMinutes == dialog.goal
  {
    ActiveSession(cityId, StartStudyModal.HandleStart(dialog))
  }

  /**
   * Pressing Finish on the timer of an active session: when the button is enabled the
   * reported minutes go, with the session's goal, into `completeStudySession`.
   */
  function FinishSession(s: State, session: ActiveSession, t: StudyTimer.TimerState, buildingId: string): (r: Option<State>)
    ensures r.Some? <==> StudyTimer.FinishEnabled(t)
    ensures r.Some? ==> r.value == CompleteStudySession(s, session.cityId, buildingId, t.elapsed / 60, session.goalMinutes)
  {
    match StudyTimer.PressFinish(t)
    case None => None
    case Some(f) => Some(CompleteStudySession(s, session.cityId, buildingId, f.actualMinutes, session.goalMinutes))
  }

  /**
   * A building added through the timer records at least five minutes, earns at least one
   * coin, and is completed exactly when the timer showed the goal as met.
   */
  lemma FinishedSessionBuilding(s: State, session: ActiveSession, t: StudyTimer.TimerState, buildingId: string, i: nat)
    requires FinishSession(s, session, t, buildingId).Some?
    requires i < |s.cities| && s.cities[i].id == session.cityId
    ensures var r := FinishSession(s, session, t, buildingId).value;
      var b := r.cities[i].buildings[|r.cities[i].buildings| - 1];
      && b.sessionDuration >= StudyTimer.MinFinishMinutes
      && b.goalDuration == session.goalMinutes
      && (b.completed <==> StudyTimer.GoalMet(t, session.goalMinutes))
      && r.totalCoins >= s.totalCoins + 1
  {
    var f := StudyTimer.PressFinish(t).value;
    StudyTimer.FinishedRewardMatchesGoalMet(t, session.goalMinutes);
  }

  /** Every city name is non-empty with no whitespace at either end. */
  predicate CleanNames(s: State) {
    forall i :: 0 <= i < |s.cities| ==>
      |s.cities[i].name| > 0 && Text.Trim(s.cities[i].name) == s.cities[i].name
  }

  /** Submitting the create-city dialog, then the page's `createCity` with what it handed over. */
  function SubmitCity(s: State, f: CreateCityModal.Form, cityId: string): (r: State)
    ensures |r.cities| <= |s.cities| + 1
    ensures r == if exists i :: 0 <= i < |f.name| && !Text.IsWhitespace(f.name[i])
                 then CreateCity(s, cityId, Text.Trim(f.name), f.color)
                 else s
  {
    match CreateCityModal.HandleSubmit(f).request
    case None => s
    case Some(req) => CreateCity(s, cityId, req.name, req.color)
  }

  /** Cities created through the dialog never have a blank or untrimmed name, and the invariant holds. */
  lemma SubmitCityKeepsNamesClean(s: State, f: CreateCityModal.Form, cityId: string)
    requires CleanNames(s) && Valid(s)
    ensures CleanNames(SubmitCity(s, f, cityId)) && Valid(SubmitCity(s, f, cityId))
  {
    var sub := CreateCityModal.HandleSubmit(f);
    if sub.request.Some? {
      CreateCityModal.SubmittedNameIsClean(f);
      CreatePreservesValid(s, cityId, sub.request.value.name, sub.request.value.color);
    }
  }
}
