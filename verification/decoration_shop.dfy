/**
 * What the two decoration shops (the building dialog and the room decorator) have in
 * common: catalog entries, first-match lookup by id, and the purchase guard that lets a
 * purchase through only when it is affordable and not already owned.
 */
module DecorationShop {
  import opened Wrappers

  datatype Decoration = Decoration(id: string, name: string, cost: int)

  /** What a shop hands to the page's `purchaseDecoration`: the decoration id and its cost. */
  datatype PurchaseRequest = PurchaseRequest(decorationId: string, cost: int)

  /** The position of the first catalog entry with the given id, as `Array.prototype.find` picks it. */
  function FindIndex(catalog: seq<Decoration>, id: string): (r: Option<nat>)
    ensures r.Some? ==> r.value < |catalog| && catalog[r.value].id == id
    ensures r.Some? ==> forall k :: 0 <= k < r.value ==> catalog[k].id != id
    ensures r.None? <==> forall k :: 0 <= k < |catalog| ==> catalog[k].id != id
  {
    if |catalog| == 0 then None
    else if catalog[0].id == id then Some(0)
    else match FindIndex(catalog[1..], id)
      case None => None
      case Some(k) => Some(k + 1)
  }

  /** The catalog entry an id refers to, if any. */
  function Find(catalog: seq<Decoration>, id: string): (r: Option<Decoration>)
    ensures r.Some? <==> exists k :: 0 <= k < |catalog| && catalog[k].id == id
    ensures r.Some? ==> r.value in catalog && r.value.id == id
    ensures r.Some? ==> FindIndex(catalog, id).Some? && r.value == catalog[FindIndex(catalog, id).value]
  {
    match FindIndex(catalog, id)
    case None => None
    case Some(k) => Some(catalog[k])
  }

  predicate Owned(owned: seq<string>, d: Decoration) {
    d.id in owned
  }

  predicate CanAfford(totalCoins: int, d: Decoration) {
    totalCoins >= d.cost
  }

  /** `handlePurchase`: forwards the decoration's id and cost only when it is affordable and not yet owned. */
  function HandlePurchase(owned: seq<string>, totalCoins: int, d: Decoration): (r: Option<PurchaseRequest>)
    ensures r.Some? <==> totalCoins >= d.cost && d.id !in owned
    ensures r.Some? ==> r.value.decorationId == d.id && r.value.cost == d.cost
  {
    if CanAfford(totalCoins, d) && !Owned(owned, d) then Some(PurchaseRequest(d.id, d.cost)) else None
  }

  /** A shop button is disabled when its decoration is owned or unaffordable. */
  predicate ButtonDisabled(owned: seq<string>, totalCoins: int, d: Decoration)
    ensures ButtonDisabled(owned, totalCoins, d) <==> HandlePurchase(owned, totalCoins, d).None?
  {
    Owned(owned, d) || !CanAfford(totalCoins, d)
  }

  /** No decoration id appears twice in an owned list. */
  predicate Distinct(owned: seq<string>) {
    forall i, j :: 0 <= i < j < |owned| ==> owned[i] != owned[j]
  }

  /** Appending what the guard forwards keeps an owned list free of repeats. */
  lemma GuardKeepsOwnedDistinct(owned: seq<string>, totalCoins: int, d: Decoration)
    requires Distinct(owned)
    requires HandlePurchase(owned, totalCoins, d).Some?
    ensures Distinct(owned + [HandlePurchase(owned, totalCoins, d).value.decorationId])
  {
    var grown := owned + [d.id];
    forall i, j | 0 <= i < j < |grown|
      ensures grown[i] != grown[j]
    {
      if j == |owned| {
        assert grown[i] == owned[i];
      }
    }
  }
}
