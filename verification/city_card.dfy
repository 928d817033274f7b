/**
 * The city card on the overview page: a skyline of at most ten buildings with a
 * "+N more" note, a scaled icon height and an icon chosen per building.
 */
module CityCard {
  import opened Wrappers
  import opened Progression

  /** The skyline shows at most this many buildings. */
  const SkylineLimit: nat := 10
  /** The lowest icon drawn, in pixels. */
  const MinIconHeight: real := 25.0

  /** The buildings drawn in the skyline: the oldest ones, up to the limit, in order. */
  function Skyline(bs: seq<Building>): (shown: seq<Building>)
    ensures |shown| == if |bs| < SkylineLimit then |bs| else SkylineLimit
    ensures shown == bs[..|shown|]
  {
    if |bs| <= SkylineLimit then bs else bs[..SkylineLimit]
  }

  /** The "+N more" note: present exactly when buildings were left out, and N counts them. */
  function MoreNote(bs: seq<Building>): (more: Option<nat>)
    ensures more.Some? <==> |bs| > SkylineLimit
    ensures more.Some? ==> more.value > 0 && |Skyline(bs)| + more.value == |bs|
  {
    if |bs| > SkylineLimit then Some(|bs| - SkylineLimit) else None
  }

  /** Every building is either drawn or counted in the note, never both, never neither. */
  lemma SkylineAccountsForAll(bs: seq<Building>)
    ensures |Skyline(bs)| + MoreNote(bs).GetOr(0) == |bs|
  {
  }

  /** Icon height: 90% of the building's height, but never below 25 pixels. */
  function IconHeight(height: real): (h: real)
    ensures h >= MinIconHeight && h >= 0.9 * height
    ensures h == MinIconHeight || h == 0.9 * height
  {
    var scaled := height * 0.9;
    if scaled >= MinIconHeight then scaled else MinIconHeight
  }

  /** For any height the reward rule produces, the 25-pixel floor never applies: icons are 27 to 90 pixels. */
  lemma IconHeightOfRuleBuildings(height: real)
    requires 30.0 <= height <= 100.0
    ensures 27.0 <= IconHeight(height) <= 90.0 && IconHeight(height) == 0.9 * height
  {
  }

  /** The three icons a card can show: an office tower, a house, or a row of small houses. */
  datatype Icon = OfficeTower | House | Houses

  /** First match wins: an hour-long session shows a tower, else a met goal a house, else small houses. */
  function CardIcon(b: Building): (icon: Icon)
    ensures icon == OfficeTower <==> b.sessionDuration >= 60
    ensures icon == House <==> b.sessionDuration < 60 && b.completed
    ensures icon == Houses <==> b.sessionDuration < 60 && !b.completed
  {
    if b.sessionDuration >= 60 then OfficeTower
    else if b.completed then House
    else Houses
  }
}
