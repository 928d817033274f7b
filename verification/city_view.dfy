/**
 * The full city view: each building is classified into one of four kinds that set
 * its width, and drawn at twice its height with a 40-pixel floor.
 */
module CityView {
  import Progression
  import CityCard

  datatype Kind = Skyscraper | Office | House | Small

  /** The lowest building drawn, in pixels. */
  const MinRenderedHeight: real := 40.0

  /** `getBuildingType`: the first matching rule decides, so every building gets exactly one kind. */
  function GetBuildingType(b: Progression.Building): (k: Kind)
    ensures k == Skyscraper <==> b.sessionDuration >= 120
    ensures k == Office <==> 60 <= b.sessionDuration < 120
    ensures k == House <==> b.sessionDuration < 60 && b.completed
    ensures k == Small <==> b.sessionDuration < 60 && !b.completed
  {
    if b.sessionDuration >= 120 then Skyscraper
    else if b.sessionDuration >= 60 then Office
    else if b.completed then House
    else Small
  }

  /** Drawn height: twice the building's height, but never below 40 pixels. */
  function RenderedHeight(height: real): (h: real)
    ensures h >= MinRenderedHeight && h >= 2.0 * height
    ensures h == MinRenderedHeight || h == 2.0 * height
  {
    var scaled := height * 2.0;
    if scaled >= MinRenderedHeight then scaled else MinRenderedHeight
  }

  /** For any height the reward rule produces, the drawn height is 60 to 200 pixels. */
  lemma RenderedHeightOfRuleBuildings(height: real)
    requires 30.0 <= height <= 100.0
    ensures 60.0 <= RenderedHeight(height) <= 200.0
  {
  }

  /** Width in pixels: 32 for a skyscraper, 24 for an office, 20 otherwise. */
  function Width(k: Kind): (w: nat)
    ensures 20 <= w <= 32
    ensures w == 32 <==> k == Skyscraper
    ensures w == 24 <==> k == Office
    ensures k == House || k == Small ==> w == 20
  {
    match k
    case Skyscraper => 32
    case Office => 24
    case _ => 20
  }

  /** A longer session is never drawn narrower, whether or not either goal was met. */
  lemma WidthGrowsWithSession(b1: Progression.Building, b2: Progression.Building)
    requires b1.sessionDuration <= b2.sessionDuration
    ensures Width(GetBuildingType(b1)) <= Width(GetBuildingType(b2))
  {
  }

  /**
   * The card and the view classify alike: the card's tower is the view's skyscraper or
   * office, and the two lower classes coincide.
   */
  lemma CardAgreesWithView(b: Progression.Building)
    ensures CityCard.CardIcon(b) == CityCard.OfficeTower <==> GetBuildingType(b) in {Skyscraper, Office}
    ensures CityCard.CardIcon(b) == CityCard.House <==> GetBuildingType(b) == House
    ensures CityCard.CardIcon(b) == CityCard.Houses <==> GetBuildingType(b) == Small
  {
  }
}
