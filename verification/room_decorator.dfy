/**
 * The room decorator: owned decorations are placed at fixed spots of the room, the
 * shop buttons share the purchase guard, and an empty-room message shows when
 * nothing is owned.
 */
module RoomDecorator {
  import opened Wrappers
  import opened DecorationShop

  /** A spot in the room, as percentages of its width and height. */
  datatype Position = Position(x: int, y: int)

  const DecorationPositions: map<string, Position> := map[
    "plant" := Position(20, 70),
    "lamp" := Position(80, 30),
    "bookshelf" := Position(5, 10),
    "desk" := Position(60, 60),
    "poster" := Position(50, 15),
    "window" := Position(75, 10),
    "carpet" := Position(40, 80),
    "mirror" := Position(85, 50)
  ]

  predicate InsideRoom(p: Position) {
    0 <= p.x <= 100 && 0 <= p.y <= 100
  }

  /** Every fixed spot lies inside the room. */
  lemma PositionsInsideRoom()
    ensures forall id :: id in DecorationPositions ==> InsideRoom(DecorationPositions[id])
  {
  }

  datatype Placement = Placement(decoration: Decoration, position: Position)

  /**
   * The decorations drawn in the room, in owned order: an owned id is drawn only when
   * the shop's catalog and the table of spots both know it; otherwise it is skipped.
   */
  function PlaceAll(owned: seq<string>, available: seq<Decoration>, spots: map<string, Position>): (placed: seq<Placement>)
    ensures |placed| <= |owned|
    ensures forall k :: 0 <= k < |placed| ==>
      && placed[k].decoration in available
      && Find(available, placed[k].decoration.id) == Some(placed[k].decoration)
      && placed[k].decoration.id in owned
      && placed[k].decoration.id in spots
      && placed[k].position == spots[placed[k].decoration.id]
  {
    if |owned| == 0 then []
    else
      var rest := PlaceAll(owned[1..], available, spots);
      match Find(available, owned[0])
      case None => rest
      case Some(d) =>
        if owned[0] in spots then [Placement(d, spots[owned[0]])] + rest else rest
  }

  /** The room for two runs of owned ids is the room of the first run followed by that of the second. */
  lemma {:induction false} PlaceAllAppend(a: seq<string>, b: seq<string>, available: seq<Decoration>, spots: map<string, Position>)
    ensures PlaceAll(a + b, available, spots) == PlaceAll(a, available, spots) + PlaceAll(b, available, spots)
  {
    if |a| > 0 {
      PlaceAllAppend(a[1..], b, available, spots);
      assert (a + b)[1..] == a[1..] + b;
      assert (a + b)[0] == a[0];
    } else {
      assert a + b == b;
    }
  }

  /** The room as drawn with the component's own table of spots; everything lands inside the room. */
  function Placements(owned: seq<string>, available: seq<Decoration>): (placed: seq<Placement>)
    ensures |placed| <= |owned|
    ensures forall k :: 0 <= k < |placed| ==>
      placed[k].decoration in available && placed[k].decoration.id in owned && InsideRoom(placed[k].position)
  {
    PositionsInsideRoom();
    PlaceAll(owned, available, DecorationPositions)
  }

  /** An id is drawn exactly when it is owned, in the catalog and has a spot. */
  lemma {:induction false} PlacedIff(owned: seq<string>, available: seq<Decoration>, spots: map<string, Position>, id: string)
    ensures (exists k :: 0 <= k < |PlaceAll(owned, available, spots)| && PlaceAll(owned, available, spots)[k].decoration.id == id)
        <==> id in owned && Find(available, id).Some? && id in spots
  {
    if |owned| > 0 {
      PlacedIff(owned[1..], available, spots, id);
      assert owned == [owned[0]] + owned[1..];
      var rest := PlaceAll(owned[1..], available, spots);
      var placed := PlaceAll(owned, available, spots);
      match Find(available, owned[0])
      case None =>
      case Some(d) =>
        if owned[0] in spots {
          assert placed == [Placement(d, spots[owned[0]])] + rest;
          if owned[0] == id {
            assert placed[0].decoration.id == id;
          }
          forall k | 0 <= k < |rest|
            ensures placed[k + 1] == rest[k]
          {
          }
        }
    }
  }

  /** The "Your room is empty!" message shows when nothing is owned. */
  predicate EmptyRoomMessage(owned: seq<string>)
    ensures EmptyRoomMessage(owned) <==> forall id :: id !in owned
  {
    assert |owned| > 0 ==> owned[0] in owned;
    |owned| == 0
  }

  /** When the message shows, nothing is drawn in the room. */
  lemma EmptyMessageMeansBareRoom(owned: seq<string>, available: seq<Decoration>)
    ensures EmptyRoomMessage(owned) ==> Placements(owned, available) == []
  {
  }

  /**
   * The room's buttons follow the same guard as the building dialog: a click forwards
   * the item's id and cost exactly when its button is enabled.
   */
  lemma RoomButtonForwardsIffEnabled(owned: seq<string>, totalCoins: int, d: Decoration)
    ensures !ButtonDisabled(owned, totalCoins, d) <==> HandlePurchase(owned, totalCoins, d) == Some(PurchaseRequest(d.id, d.cost))
  {
  }
}
