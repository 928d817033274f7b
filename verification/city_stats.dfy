/**
 * Per-city figures that both the city card and the city view derive from a city's
 * buildings: how many are completed, the rooms they unlocked, the minutes studied,
 * and the completed-count thresholds at which a tree and a carousel appear.
 */
module CityStats {
  import opened Reward
  import opened Progression

  /** The number of buildings whose goal was met. */
  function CompletedCount(bs: seq<Building>): (n: nat)
    ensures n <= |bs|
    ensures n == 0 <==> forall j :: 0 <= j < |bs| ==> !bs[j].completed
    ensures n == |bs| <==> forall j :: 0 <= j < |bs| ==> bs[j].completed
  {
    if |bs| == 0 then 0
    else (if bs[0].completed then 1 else 0) + CompletedCount(bs[1..])
  }

  /** The rooms unlocked over all buildings. */
  function TotalRooms(bs: seq<Building>): (n: nat)
    ensures forall j :: 0 <= j < |bs| ==> bs[j].roomsUnlocked <= n
    ensures n == 0 <==> forall j :: 0 <= j < |bs| ==> bs[j].roomsUnlocked == 0
  {
    if |bs| == 0 then 0 else bs[0].roomsUnlocked + TotalRooms(bs[1..])
  }

  /** The minutes studied over all buildings. */
  function TotalMinutes(bs: seq<Building>): nat {
    if |bs| == 0 then 0 else bs[0].sessionDuration + TotalMinutes(bs[1..])
  }

  /** The view's "Total Study" figure: whole hours over all sessions. */
  function StudyHoursStat(bs: seq<Building>): (h: nat)
    ensures h * 60 <= TotalMinutes(bs) < (h + 1) * 60
  {
    TotalMinutes(bs) / 60
  }

  /** Appending a building adds its own share to each of the three totals. */
  lemma {:induction false} TotalsAppend(bs: seq<Building>, b: Building)
    ensures CompletedCount(bs + [b]) == CompletedCount(bs) + (if b.completed then 1 else 0)
    ensures TotalRooms(bs + [b]) == TotalRooms(bs) + b.roomsUnlocked
    ensures TotalMinutes(bs + [b]) == TotalMinutes(bs) + b.sessionDuration
  {
    if |bs| > 0 {
      TotalsAppend(bs[1..], b);
      assert (bs + [b])[1..] == bs[1..] + [b];
    } else {
      assert bs + [b] == [b];
    }
  }

  /**
   * For buildings made by the reward rule, rooms come only from completed buildings and
   * never exceed one per 30 minutes studied.
   */
  lemma {:induction false} RoomsBoundedByMinutes(bs: seq<Building>)
    requires forall j :: 0 <= j < |bs| ==> FollowsRewardRule(bs[j])
    ensures TotalRooms(bs) * 30 <= TotalMinutes(bs)
    ensures CompletedCount(bs) == 0 ==> TotalRooms(bs) == 0
  {
    if |bs| > 0 {
      assert FollowsRewardRule(bs[0]);
      RoomsBoundedByMinutes(bs[1..]);
    }
  }

  /** A tree shows once more than three buildings are completed. */
  predicate ShowTree(bs: seq<Building>)
    ensures ShowTree(bs) ==> |bs| > 3
  {
    CompletedCount(bs) > 3
  }

  /** A carousel shows once more than five buildings are completed. */
  predicate ShowCarousel(bs: seq<Building>)
    ensures ShowCarousel(bs) ==> ShowTree(bs) && |bs| > 5
  {
    CompletedCount(bs) > 5
  }

  /** The scenery only ever grows as sessions finish: neither the tree nor the carousel disappears. */
  lemma SceneryGrows(bs: seq<Building>, b: Building)
    ensures ShowTree(bs) ==> ShowTree(bs + [b])
    ensures ShowCarousel(bs) ==> ShowCarousel(bs + [b])
  {
    TotalsAppend(bs, b);
  }
}
