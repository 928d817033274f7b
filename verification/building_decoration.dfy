/**
 * The building decoration dialog: its fixed catalog of eight decorations and the list
 * of the building's current decorations it shows as badges.
 */
module BuildingDecorationModal {
  import opened Wrappers
  import opened DecorationShop

  const Catalog: seq<Decoration> := [
    Decoration("plant", "Plant", 5),
    Decoration("lamp", "Lamp", 8),
    Decoration("bookshelf", "Bookshelf", 12),
    Decoration("desk", "Desk", 15),
    Decoration("poster", "Poster", 10),
    Decoration("window", "Window", 20),
    Decoration("carpet", "Carpet", 18),
    Decoration("mirror", "Mirror", 25)
  ]

  /** Eight entries, no id twice, every cost positive. */
  lemma CatalogWellFormed()
    ensures |Catalog| == 8
    ensures forall i, j :: 0 <= i < j < |Catalog| ==> Catalog[i].id != Catalog[j].id
    ensures forall i :: 0 <= i < |Catalog| ==> Catalog[i].cost > 0
  {
  }

  /**
   * The badges under "Current Decorations": the owned ids in owned order, each looked up
   * in the catalog; ids the catalog does not know are skipped.
   */
  function CurrentDecorations(catalog: seq<Decoration>, owned: seq<string>): (shown: seq<Decoration>)
    ensures |shown| <= |owned|
    ensures forall k :: 0 <= k < |shown| ==> shown[k] in catalog && shown[k].id in owned
  {
    if |owned| == 0 then []
    else
      var rest := CurrentDecorations(catalog, owned[1..]);
      match Find(catalog, owned[0])
      case None => rest
      case Some(d) => [d] + rest
  }

  /** The badges the dialog shows for a building's decorations, looked up in its own catalog. */
  function Badges(owned: seq<string>): (shown: seq<Decoration>)
    ensures |shown| <= |owned|
    ensures forall k :: 0 <= k < |shown| ==> shown[k] in Catalog && shown[k].id in owned
  {
    CurrentDecorations(Catalog, owned)
  }

  /** Badges for two runs of owned ids are the badges of the first run followed by those of the second. */
  lemma {:induction false} CurrentDecorationsAppend(catalog: seq<Decoration>, a: seq<string>, b: seq<string>)
    ensures CurrentDecorations(catalog, a + b) == CurrentDecorations(catalog, a) + CurrentDecorations(catalog, b)
  {
    if |a| > 0 {
      CurrentDecorationsAppend(catalog, a[1..], b);
      assert (a + b)[1..] == a[1..] + b;
      assert (a + b)[0] == a[0];
    } else {
      assert a + b == b;
    }
  }

  /** An owned id gets a badge exactly when the catalog knows it. */
  lemma {:induction false} BadgeIffKnown(catalog: seq<Decoration>, owned: seq<string>, id: string)
    ensures (exists k :: 0 <= k < |CurrentDecorations(catalog, owned)| && CurrentDecorations(catalog, owned)[k].id == id)
        <==> id in owned && Find(catalog, id).Some?
  {
    if |owned| > 0 {
      BadgeIffKnown(catalog, owned[1..], id);
      assert owned == [owned[0]] + owned[1..];
      var rest := CurrentDecorations(catalog, owned[1..]);
      assert id in owned <==> id == owned[0] || id in owned[1..];
      match Find(catalog, owned[0])
      case None =>
        assert CurrentDecorations(catalog, owned) == rest;
      case Some(d) =>
        assert CurrentDecorations(catalog, owned) == [d] + rest;
        if d.id == id {
          assert CurrentDecorations(catalog, owned)[0].id == id;
        }
        forall k | 0 <= k < |rest|
          ensures CurrentDecorations(catalog, owned)[k + 1] == rest[k]
        {
        }
    }
  }
}
