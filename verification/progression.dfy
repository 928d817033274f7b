/**
 * The progression state of the app's main page: the list of cities, the global coin
 * wallet and the cumulative study hours, with the four operations that change them
 * (`createCity`, `completeStudySession`, `deleteCity`, `purchaseDecoration`).
 * Each React `set…` sequence is one functional update from the old state to the new;
 * the identifiers the page takes from the clock are parameters here.
 */
module Progression {
  import opened Reward

  /** The type tag a building carries; the page only ever writes `Residential`. */
  datatype BuildingType = Residential | Office | Entertainment | Park

  datatype Building = Building(
    id: string,
    sessionDuration: nat,
    goalDuration: nat,
    completed: bool,
    height: real,
    roomsUnlocked: nat,
    decorations: seq<string>,
    buildingType: BuildingType)

  datatype City = City(id: string, name: string, gradient: string, buildings: seq<Building>, totalCoins: int)

  datatype State = State(cities: seq<City>, totalCoins: int, totalStudyHours: real)

  /** The study session the timer is running: the city it is for and its goal. */
  datatype ActiveSession = ActiveSession(cityId: string, goalMinutes: nat)

  /** The state before anything is stored: no city, no coins, no hours. */
  const Initial: State := State([], 0, 0.0)

  /** Minutes per hour, for converting a session's minutes into study hours. */
  const MinutesPerHour: real := 60.0

  /** A building whose reward fields are the ones the reward rule gives for its two durations. */
  predicate FollowsRewardRule(b: Building) {
    var r := ComputeReward(b.sessionDuration, b.goalDuration);
    b.completed == r.completed && b.height == r.height && b.roomsUnlocked == r.roomsUnlocked
  }

  /** The building a finished session adds: its durations, its reward, no decorations, always residential. */
  function NewBuilding(id: string, actualMinutes: nat, goalMinutes: nat): (b: Building)
    ensures b.id == id && b.sessionDuration == actualMinutes && b.goalDuration == goalMinutes
    ensures b.decorations == [] && b.buildingType == Residential
    ensures FollowsRewardRule(b)
  {
    var r := ComputeReward(actualMinutes, goalMinutes);
    Building(id, actualMinutes, goalMinutes, r.completed, r.height, r.roomsUnlocked, [], Residential)
  }

  /** `createCity`: a new, empty city with no coins of its own goes to the end of the list. */
  function CreateCity(s: State, id: string, name: string, gradient: string): (r: State)
    ensures |r.cities| == |s.cities| + 1 && r.cities[..|s.cities|] == s.cities
    ensures r.cities[|s.cities|].id == id && r.cities[|s.cities|].name == name
    ensures r.cities[|s.cities|].gradient == gradient
    ensures r.cities[|s.cities|].buildings == [] && r.cities[|s.cities|].totalCoins == 0
    ensures r.totalCoins == s.totalCoins && r.totalStudyHours == s.totalStudyHours
  {
    s.(cities := s.cities + [City(id, name, gradient, [], 0)])
  }

  /** A city after one of its sessions finished: the building appended, the coins credited. */
  function Settle(c: City, b: Building, coins: nat): City {
    c.(buildings := c.buildings + [b], totalCoins := c.totalCoins + coins)
  }

  /** Every city with the given id settled, every other city as it was. */
  function SettleMatching(cities: seq<City>, cityId: string, b: Building, coins: nat): (r: seq<City>)
    ensures |r| == |cities|
    ensures forall i :: 0 <= i < |cities| ==>
      r[i] == if cities[i].id == cityId then Settle(cities[i], b, coins) else cities[i]
  {
    if |cities| == 0 then []
    else
      var head := if cities[0].id == cityId then Settle(cities[0], b, coins) else cities[0];
      [head] + SettleMatching(cities[1..], cityId, b, coins)
  }

  /**
   * `completeStudySession`: the city with `cityId` gains the new building at the end of
   * its list and the coins in its own wallet; the global wallet gains the coins and the
   * study hours grow by the session's minutes, whether or not any city matched.
   */
  function CompleteStudySession(s: State, cityId: string, buildingId: string, actualMinutes: nat, goalMinutes: nat): (r: State)
    ensures |r.cities| == |s.cities|
    ensures forall i :: 0 <= i < |s.cities| && s.cities[i].id != cityId ==> r.cities[i] == s.cities[i]
    ensures forall i :: 0 <= i < |s.cities| && s.cities[i].id == cityId ==>
      && r.cities[i].id == cityId
      && r.cities[i].name == s.cities[i].name
      && r.cities[i].gradient == s.cities[i].gradient
      && r.cities[i].buildings == s.cities[i].buildings + [NewBuilding(buildingId, actualMinutes, goalMinutes)]
      && r.cities[i].totalCoins == s.cities[i].totalCoins + ComputeReward(actualMinutes, goalMinutes).coinsEarned
    ensures r.totalCoins == s.totalCoins + ComputeReward(actualMinutes, goalMinutes).coinsEarned
    ensures r.totalStudyHours == s.totalStudyHours + (actualMinutes as real) / MinutesPerHour
  {
    var reward := ComputeReward(actualMinutes, goalMinutes);
    var building := NewBuilding(buildingId, actualMinutes, goalMinutes);
    State(
      SettleMatching(s.cities, cityId, building, reward.coinsEarned),
      s.totalCoins + reward.coinsEarned,
      s.totalStudyHours + (actualMinutes as real) / MinutesPerHour)
  }

  /** How many cities carry the given id. */
  function MatchCount(cities: seq<City>, id: string): (n: nat)
    ensures n <= |cities|
    ensures n == 0 <==> forall i :: 0 <= i < |cities| ==> cities[i].id != id
  {
    if |cities| == 0 then 0
    else (if cities[0].id == id then 1 else 0) + MatchCount(cities[1..], id)
  }

  /** The cities whose id differs from `id`, in their original order. */
  function RemoveCity(cities: seq<City>, id: string): (r: seq<City>)
    ensures |r| == |cities| - MatchCount(cities, id)
    ensures MatchCount(cities, id) == 0 ==> r == cities
  {
    if |cities| == 0 then []
    else if cities[0].id == id then RemoveCity(cities[1..], id)
    else [cities[0]] + RemoveCity(cities[1..], id)
  }

  /** A city survives removal exactly when it was there and carries another id. */
  lemma {:induction false} RemoveCityMembers(cities: seq<City>, id: string)
    ensures forall c :: c in RemoveCity(cities, id) <==> c in cities && c.id != id
  {
    if |cities| > 0 {
      RemoveCityMembers(cities[1..], id);
      assert cities == [cities[0]] + cities[1..];
    }
  }

  /** `deleteCity`: the cities with that id disappear; the global coins and hours stay. */
  function DeleteCity(s: State, id: string): (r: State)
    ensures forall c :: c in r.cities <==> c in s.cities && c.id != id
    ensures |r.cities| == |s.cities| - MatchCount(s.cities, id)
    ensures MatchCount(s.cities, id) == 0 ==> r == s
    ensures r.totalCoins == s.totalCoins && r.totalStudyHours == s.totalStudyHours
  {
    RemoveCityMembers(s.cities, id);
    s.(cities := RemoveCity(s.cities, id))
  }

  /** Removal works piecewise: the survivors of a concatenation keep their relative order. */
  lemma {:induction false} RemoveCityAppend(a: seq<City>, b: seq<City>, id: string)
    ensures RemoveCity(a + b, id) == RemoveCity(a, id) + RemoveCity(b, id)
  {
    if |a| > 0 {
      RemoveCityAppend(a[1..], b, id);
      var ab := a + b;
      assert ab[0] == a[0];
      assert ab[1..] == a[1..] + b;
      var tail := RemoveCity(a[1..], id) + RemoveCity(b, id);
      if a[0].id == id {
        assert RemoveCity(ab, id) == RemoveCity(ab[1..], id);
        assert RemoveCity(a, id) == RemoveCity(a[1..], id);
      } else {
        assert RemoveCity(ab, id) == [a[0]] + RemoveCity(ab[1..], id);
        assert RemoveCity(a, id) == [a[0]] + RemoveCity(a[1..], id);
        assert [a[0]] + tail == ([a[0]] + RemoveCity(a[1..], id)) + RemoveCity(b, id);
      }
    } else {
      assert a + b == b;
    }
  }

  /** Deleting the same id twice is the same as deleting it once. */
  lemma DeleteIdempotent(s: State, id: string)
    ensures DeleteCity(DeleteCity(s, id), id) == DeleteCity(s, id)
  {
    var once := DeleteCity(s, id);
    assert MatchCount(once.cities, id) == 0 by {
      forall i | 0 <= i < |once.cities|
        ensures once.cities[i].id != id
      {
        assert once.cities[i] in once.cities;
      }
    }
  }

  /** Deleting a city right after creating it leaves what deleting that id would have left anyway. */
  lemma DeleteUndoesCreate(s: State, id: string, name: string, gradient: string)
    ensures DeleteCity(CreateCity(s, id, name, gradient), id) == DeleteCity(s, id)
  {
    var c := City(id, name, gradient, [], 0);
    RemoveCityAppend(s.cities, [c], id);
    assert RemoveCity([c], id) == [];
  }

  /** With a fresh id, creating then deleting a city gives back the original state exactly. */
  lemma CreateThenDeleteFresh(s: State, id: string, name: string, gradient: string)
    requires MatchCount(s.cities, id) == 0
    ensures DeleteCity(CreateCity(s, id, name, gradient), id) == s
  {
    DeleteUndoesCreate(s, id, name, gradient);
  }

  /** A building with `decorationId` appended when its id is `buildingId`. */
  function Decorate(b: Building, buildingId: string, decorationId: string): (r: Building)
    ensures r.id == b.id && r.sessionDuration == b.sessionDuration && r.goalDuration == b.goalDuration
    ensures r.completed == b.completed && r.height == b.height && r.roomsUnlocked == b.roomsUnlocked
    ensures r.buildingType == b.buildingType
    ensures r.decorations == if b.id == buildingId then b.decorations + [decorationId] else b.decorations
  {
    if b.id == buildingId then b.(decorations := b.decorations + [decorationId]) else b
  }

  /** Every building of a list decorated. */
  function DecorateBuildings(bs: seq<Building>, buildingId: string, decorationId: string): (r: seq<Building>)
    ensures |r| == |bs|
    ensures forall j :: 0 <= j < |bs| ==> r[j] == Decorate(bs[j], buildingId, decorationId)
  {
    if |bs| == 0 then []
    else [Decorate(bs[0], buildingId, decorationId)] + DecorateBuildings(bs[1..], buildingId, decorationId)
  }

  /** Every building of every city decorated; nothing else about a city changes. */
  function DecorateCities(cities: seq<City>, buildingId: string, decorationId: string): (r: seq<City>)
    ensures |r| == |cities|
    ensures forall i :: 0 <= i < |cities| ==>
      r[i] == cities[i].(buildings := DecorateBuildings(cities[i].buildings, buildingId, decorationId))
  {
    if |cities| == 0 then []
    else
      [cities[0].(buildings := DecorateBuildings(cities[0].buildings, buildingId, decorationId))]
      + DecorateCities(cities[1..], buildingId, decorationId)
  }

  /**
   * `purchaseDecoration`: when the global wallet covers the cost, the cost is taken from it
   * and every building with `buildingId` gets the decoration appended, even if no building
   * matches; otherwise nothing changes. A city's own coins are never touched.
   */
  function PurchaseDecoration(s: State, buildingId: string, decorationId: string, cost: int): (r: State)
    ensures s.totalCoins >= cost ==> r.totalCoins == s.totalCoins - cost
    ensures s.totalCoins < cost ==> r == s
    ensures s.totalCoins >= 0 ==> r.totalCoins >= 0
    ensures r.totalStudyHours == s.totalStudyHours
    ensures |r.cities| == |s.cities|
    ensures forall i :: 0 <= i < |s.cities| ==>
      && r.cities[i].id == s.cities[i].id
      && r.cities[i].name == s.cities[i].name
      && r.cities[i].gradient == s.cities[i].gradient
      && r.cities[i].totalCoins == s.cities[i].totalCoins
      && |r.cities[i].buildings| == |s.cities[i].buildings|
    ensures forall i, j :: 0 <= i < |s.cities| && 0 <= j < |s.cities[i].buildings| ==>
      r.cities[i].buildings[j] ==
        if s.totalCoins >= cost then Decorate(s.cities[i].buildings[j], buildingId, decorationId)
        else s.cities[i].buildings[j]
  {
    if s.totalCoins >= cost then
      State(DecorateCities(s.cities, buildingId, decorationId), s.totalCoins - cost, s.totalStudyHours)
    else s
  }

  /** The number of buildings across all cities (the page's headline count). */
  function BuildingCount(cities: seq<City>): (n: nat)
    ensures forall i :: 0 <= i < |cities| ==> |cities[i].buildings| <= n
    ensures n == 0 <==> forall i :: 0 <= i < |cities| ==> cities[i].buildings == []
  {
    if |cities| == 0 then 0 else |cities[0].buildings| + BuildingCount(cities[1..])
  }

  lemma {:induction false} BuildingCountAppend(a: seq<City>, b: seq<City>)
    ensures BuildingCount(a + b) == BuildingCount(a) + BuildingCount(b)
  {
    if |a| > 0 {
      BuildingCountAppend(a[1..], b);
      assert (a + b)[1..] == a[1..] + b;
    } else {
      assert a + b == b;
    }
  }

  /** Creating a city adds no building. */
  lemma CreateKeepsBuildingCount(s: State, id: string, name: string, gradient: string)
    ensures BuildingCount(CreateCity(s, id, name, gradient).cities) == BuildingCount(s.cities)
  {
    var c := City(id, name, gradient, [], 0);
    BuildingCountAppend(s.cities, [c]);
    assert BuildingCount([c]) == 0 by {
      assert [c][1..] == [];
    }
  }

  /** A finished session adds exactly one building to each city carrying the id, and none elsewhere. */
  lemma {:induction false} SettleAddsBuildings(cities: seq<City>, cityId: string, b: Building, coins: nat)
    ensures BuildingCount(SettleMatching(cities, cityId, b, coins)) == BuildingCount(cities) + MatchCount(cities, cityId)
  {
    if |cities| > 0 {
      SettleAddsBuildings(cities[1..], cityId, b, coins);
      var r := SettleMatching(cities, cityId, b, coins);
      assert r[1..] == SettleMatching(cities[1..], cityId, b, coins);
    }
  }

  lemma CompleteAddsBuildings(s: State, cityId: string, buildingId: string, actualMinutes: nat, goalMinutes: nat)
    ensures BuildingCount(CompleteStudySession(s, cityId, buildingId, actualMinutes, goalMinutes).cities)
         == BuildingCount(s.cities) + MatchCount(s.cities, cityId)
  {
    var reward := ComputeReward(actualMinutes, goalMinutes);
    SettleAddsBuildings(s.cities, cityId, NewBuilding(buildingId, actualMinutes, goalMinutes), reward.coinsEarned);
  }

  /** Deleting cities never adds buildings. */
  lemma {:induction false} RemoveNeverAddsBuildings(cities: seq<City>, id: string)
    ensures BuildingCount(RemoveCity(cities, id)) <= BuildingCount(cities)
  {
    if |cities| > 0 {
      RemoveNeverAddsBuildings(cities[1..], id);
      if cities[0].id != id {
        var r := RemoveCity(cities, id);
        assert r[1..] == RemoveCity(cities[1..], id);
      }
    }
  }

  /** A purchase never adds or removes a building. */
  lemma {:induction false} DecorateKeepsBuildingCount(cities: seq<City>, buildingId: string, decorationId: string)
    ensures BuildingCount(DecorateCities(cities, buildingId, decorationId)) == BuildingCount(cities)
  {
    if |cities| > 0 {
      DecorateKeepsBuildingCount(cities[1..], buildingId, decorationId);
      var r := DecorateCities(cities, buildingId, decorationId);
      assert r[1..] == DecorateCities(cities[1..], buildingId, decorationId);
    }
  }
}
