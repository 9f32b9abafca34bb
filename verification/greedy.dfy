/**
 * The greedy policy: products sorted by descending area (stable), and for the
 * first product with demand that has any feasible placement, the placement
 * of least waste (`remaining_w * remaining_h`) over every stock, both
 * orientations and every corner, the first in scan order on ties. The "no
 * action" sentinel when no product with demand can be placed.
 */
module Greedy {
  import opened Types
  import opened Search
  import opened Placements
  import opened ProductOrder

  /** The waste the greedy policy scores: the corner rectangle left to the right of and below the piece. */
  function Waste(c: Candidate): int
  {
    var rw := c.stock.w - (c.action.pos.x + c.action.size.w);
    var rh := c.stock.h - (c.action.pos.y + c.action.size.h);
    rw * rh
  }

  /** For a piece within its stock the waste is the area of that corner rectangle, so never negative. */
  lemma WasteNonNegative(c: Candidate)
    requires Fits(c.action, c.stock)
    ensures Waste(c) >= 0
    ensures Waste(c) <= Area(c.stock)
  {
    var rw := c.stock.w - (c.action.pos.x + c.action.size.w);
    var rh := c.stock.h - (c.action.pos.y + c.action.size.h);
    assert 0 <= rw <= c.stock.w && 0 <= rh <= c.stock.h;
    assert rw * rh <= c.stock.w * rh <= c.stock.w * c.stock.h;
  }

  /**
   * The placement of least waste for product size `z`, rotations included:
   * none exactly when no candidate is feasible; otherwise a feasible one that
   * no feasible candidate undercuts, first in scan order among equals.
   */
  function BestFit(z: Size, stocks: seq<Grid>, canPlace: PlaceOracle, stockSize: SizeOracle): (r: Option<Action>)
    ensures r.None? <==> forall c :: IsCandidate(c, z, stocks, stockSize, true) ==> !Placeable(c.action, stocks, canPlace)
    ensures r.Some? ==>
              && Placeable(r.value, stocks, canPlace)
              && IsCandidate(At(r.value, stocks, stockSize), z, stocks, stockSize, true)
              && forall c :: IsCandidate(c, z, stocks, stockSize, true) && Placeable(c.action, stocks, canPlace)
                   ==> Waste(At(r.value, stocks, stockSize)) <= Waste(c)
    ensures r.Some? ==>
              var sweep := ProductSweep(z, stocks, stockSize, true);
              forall j :: 0 <= j < |sweep| && Placeable(sweep[j].action, stocks, canPlace)
                            && Waste(sweep[j]) <= Waste(At(r.value, stocks, stockSize))
                ==> r.value in Actions(sweep[..j + 1])
  {
    var sweep := ProductSweep(z, stocks, stockSize, true);
    match Cheapest(sweep, Waste, stocks, canPlace)
    case None => None
    case Some(i) =>
      var c := sweep[i];
      assert c in sweep;
      assert At(c.action, stocks, stockSize) == c;
      CheapestComesFirst(sweep, Waste, stocks, canPlace);
      Some(c.action)
  }

  /** A product the greedy policy stops at: it has demand and some feasible placement. */
  predicate Fillable(p: Product, stocks: seq<Grid>, canPlace: PlaceOracle, stockSize: SizeOracle)
  {
    p.quantity > 0 && BestFit(p.size, stocks, canPlace, stockSize).Some?
  }

  function FillableTest(stocks: seq<Grid>, canPlace: PlaceOracle, stockSize: SizeOracle): Product -> bool
  {
    (p: Product) => Fillable(p, stocks, canPlace, stockSize)
  }

  /**
   * The product the greedy policy places: the first fillable one in the
   * area-sorted order. It has the largest area among the fillable products.
   */
  function Chosen(products: seq<Product>, stocks: seq<Grid>, canPlace: PlaceOracle, stockSize: SizeOracle): (r: Option<Product>)
    ensures r.None? <==> forall p :: p in products ==> !Fillable(p, stocks, canPlace, stockSize)
    ensures r.Some? ==> r.value in products && Fillable(r.value, stocks, canPlace, stockSize)
    ensures r.Some? ==> forall p :: p in products && Fillable(p, stocks, canPlace, stockSize)
                          ==> Area(p.size) <= Area(r.value.size)
  {
    var ok := FillableTest(stocks, canPlace, stockSize);
    var sorted := SortDesc(ByArea, products);
    assert forall p :: ok(p) == Fillable(p, stocks, canPlace, stockSize);
    match FirstWhere(sorted, ok)
    case None =>
      NonePasses(products, ok);
      None
    case Some(k) =>
      FirstPassingIsLargest(products, ok, k);
      Some(sorted[k])
  }

  /** When no product of the sorted order passes `ok`, no product passes it. */
  lemma NonePasses(products: seq<Product>, ok: Product -> bool)
    requires FirstWhere(SortDesc(ByArea, products), ok).None?
    ensures forall p :: p in products ==> !ok(p)
  {
    var sorted := SortDesc(ByArea, products);
    SortDescLength(ByArea, products);
    forall p | p in products ensures !ok(p) {
      var m :| 0 <= m < |sorted| && sorted[m] == p;
    }
  }

  /** The first product of the area-sorted order that passes `ok` has the largest area of those that do. */
  lemma FirstPassingIsLargest(products: seq<Product>, ok: Product -> bool, k: nat)
    requires FirstWhere(SortDesc(ByArea, products), ok) == Some(k)
    ensures SortDesc(ByArea, products)[k] in products && ok(SortDesc(ByArea, products)[k])
    ensures forall p :: p in products && ok(p) ==> Area(p.size) <= Area(SortDesc(ByArea, products)[k].size)
  {
    var sorted := SortDesc(ByArea, products);
    SortDescLength(ByArea, products);
    assert sorted[k] in sorted;
    forall p | p in products && ok(p) ensures Area(p.size) <= Area(sorted[k].size) {
      var m :| 0 <= m < |sorted| && sorted[m] == p;
      DescendingArea(sorted, k, m);
    }
  }

  /** The first product of `s` that passes `ok` and has area `a`. */
  function FirstOfArea(s: seq<Product>, a: nat, ok: Product -> bool): Option<Product>
  {
    if s == [] then None
    else if ok(s[0]) && Area(s[0].size) == a then Some(s[0])
    else FirstOfArea(s[1..], a, ok)
  }

  /** Keeping only the products of area `a` does not change which one comes first. */
  lemma {:induction false} FirstOfAreaWithKey(s: seq<Product>, a: nat, ok: Product -> bool)
    ensures FirstOfArea(WithKey(ByArea, s, Key(a, 0)), a, ok) == FirstOfArea(s, a, ok)
  {
    if s != [] {
      var rest := WithKey(ByArea, s[1..], Key(a, 0));
      FirstOfAreaWithKey(s[1..], a, ok);
      if KeyOf(ByArea, s[0]) == Key(a, 0) {
        assert WithKey(ByArea, s, Key(a, 0)) == [s[0]] + rest;
        assert ([s[0]] + rest)[1..] == rest;
      } else {
        assert WithKey(ByArea, s, Key(a, 0)) == rest;
      }
    }
  }

  /** A product of area `a` passing `ok` at index `k` is preceded or matched by the first one. */
  lemma {:induction false} FirstOfAreaNoLater(s: seq<Product>, a: nat, ok: Product -> bool, k: nat)
    requires k < |s| && ok(s[k]) && Area(s[k].size) == a
    ensures FirstOfArea(s, a, ok).Some?
    ensures FirstOfArea(s, a, ok).value in s[..k + 1]
  {
    if ok(s[0]) && Area(s[0].size) == a {
      assert s[..k + 1][0] == s[0];
    } else {
      var t := s[1..];
      assert t[k - 1] == s[k];
      FirstOfAreaNoLater(t, a, ok, k - 1);
      var x := FirstOfArea(t, a, ok).value;
      var j :| 0 <= j < k && t[..k][j] == x;
      assert s[..k + 1][j + 1] == x;
    }
  }

  /** When nothing before index `k` passes `ok`, the passing `s[k]` is the first of its area. */
  lemma {:induction false} FirstOfAreaAt(s: seq<Product>, ok: Product -> bool, k: nat)
    requires k < |s| && ok(s[k])
    requires forall j :: 0 <= j < k ==> !ok(s[j])
    ensures FirstOfArea(s, Area(s[k].size), ok) == Some(s[k])
  {
    if k > 0 {
      assert s[1..][k - 1] == s[k];
      FirstOfAreaAt(s[1..], ok, k - 1);
    }
  }

  /**
   * Python's sort is stable, so among the fillable products of the chosen
   * product's area, the chosen one comes first in the input order.
   */
  lemma ChosenFirstOfItsArea(products: seq<Product>, stocks: seq<Grid>, canPlace: PlaceOracle, stockSize: SizeOracle)
    requires Chosen(products, stocks, canPlace, stockSize).Some?
    ensures var p := Chosen(products, stocks, canPlace, stockSize).value;
            forall k :: 0 <= k < |products| && Fillable(products[k], stocks, canPlace, stockSize)
                          && Area(products[k].size) == Area(p.size)
              ==> p in products[..k + 1]
  {
    var p := Chosen(products, stocks, canPlace, stockSize).value;
    var sorted := SortDesc(ByArea, products);
    var ok := FillableTest(stocks, canPlace, stockSize);
    var i := FirstWhere(sorted, ok).value;
    var a := Area(p.size);
    FirstOfAreaAt(sorted, ok, i);
    FirstOfAreaWithKey(sorted, a, ok);
    FirstOfAreaWithKey(products, a, ok);
    SortDescStable(ByArea, products, Key(a, 0));
    forall k | 0 <= k < |products| && Fillable(products[k], stocks, canPlace, stockSize) && Area(products[k].size) == a
      ensures p in products[..k + 1]
    {
      assert ok(products[k]);
      FirstOfAreaNoLater(products, a, ok, k);
    }
  }

  /** Both orientations of a size have the same area and the same candidates. */
  lemma RotationInvariant(z: Size, y: Size, c: Candidate, stocks: seq<Grid>, stockSize: SizeOracle)
    requires y in Orientations(z, true)
    ensures Area(y) == Area(z)
    ensures IsCandidate(c, y, stocks, stockSize, true) <==> IsCandidate(c, z, stocks, stockSize, true)
  {
  }

  /** When no product is fillable, no candidate of a product with demand is feasible. */
  lemma NothingFillable(products: seq<Product>, stocks: seq<Grid>, canPlace: PlaceOracle, stockSize: SizeOracle)
    requires forall p :: p in products ==> !Fillable(p, stocks, canPlace, stockSize)
    ensures forall c :: IsDemandCandidate(c, products, stocks, stockSize, true) ==> !Placeable(c.action, stocks, canPlace)
  {
    forall c | IsDemandCandidate(c, products, stocks, stockSize, true) ensures !Placeable(c.action, stocks, canPlace) {
      var k :| 0 <= k < |products| && products[k].quantity > 0 && IsCandidate(c, products[k].size, stocks, stockSize, true);
      assert products[k] in products;
    }
  }

  /**
   * The best fit of a fillable product `p` of largest area is a feasible
   * candidate of a product with demand, and no feasible candidate of a
   * product with demand has a larger area.
   */
  lemma LargestFillableFit(products: seq<Product>, p: Product, stocks: seq<Grid>, canPlace: PlaceOracle, stockSize: SizeOracle)
    requires p in products && Fillable(p, stocks, canPlace, stockSize)
    requires forall q :: q in products && Fillable(q, stocks, canPlace, stockSize) ==> Area(q.size) <= Area(p.size)
    ensures var a := BestFit(p.size, stocks, canPlace, stockSize).value;
            && a != NoAction
            && IsDemandCandidate(At(a, stocks, stockSize), products, stocks, stockSize, true)
            && forall c :: IsDemandCandidate(c, products, stocks, stockSize, true) && Placeable(c.action, stocks, canPlace)
                 ==> Area(c.action.size) <= Area(a.size)
  {
    var a := BestFit(p.size, stocks, canPlace, stockSize).value;
    var kp :| 0 <= kp < |products| && products[kp] == p;
    assert IsCandidate(At(a, stocks, stockSize), products[kp].size, stocks, stockSize, true);
    RotationInvariant(p.size, a.size, At(a, stocks, stockSize), stocks, stockSize);
    forall d | IsDemandCandidate(d, products, stocks, stockSize, true) && Placeable(d.action, stocks, canPlace)
      ensures Area(d.action.size) <= Area(a.size)
    {
      var k :| 0 <= k < |products| && products[k].quantity > 0
               && IsCandidate(d, products[k].size, stocks, stockSize, true);
      assert products[k] in products;
      assert Fillable(products[k], stocks, canPlace, stockSize);
      RotationInvariant(products[k].size, d.action.size, d, stocks, stockSize);
    }
  }

  /** The best fit of size `z` has the least waste among the candidates of its own orientation too. */
  lemma BestFitOwnOrientation(z: Size, stocks: seq<Grid>, canPlace: PlaceOracle, stockSize: SizeOracle)
    requires BestFit(z, stocks, canPlace, stockSize).Some?
    ensures var a := BestFit(z, stocks, canPlace, stockSize).value;
            forall c :: IsCandidate(c, a.size, stocks, stockSize, true) && Placeable(c.action, stocks, canPlace)
              ==> Waste(At(a, stocks, stockSize)) <= Waste(c)
  {
    var a := BestFit(z, stocks, canPlace, stockSize).value;
    forall d | IsCandidate(d, a.size, stocks, stockSize, true) && Placeable(d.action, stocks, canPlace)
      ensures Waste(At(a, stocks, stockSize)) <= Waste(d)
    {
      RotationInvariant(z, a.size, d, stocks, stockSize);
    }
  }

  /**
   * `get_action` of the greedy policy. The sentinel exactly when no product
   * with demand has a feasible placement (the same condition as for the
   * brute-force policy); otherwise a feasible placement of a product with
   * demand, of the largest area among the placeable products, with the least
   * waste among that product's placements.
   */
  function GetAction(products: seq<Product>, stocks: seq<Grid>, canPlace: PlaceOracle, stockSize: SizeOracle): (r: Action)
    ensures r == NoAction <==>
              forall c :: IsDemandCandidate(c, products, stocks, stockSize, true) ==> !Placeable(c.action, stocks, canPlace)
    ensures r != NoAction ==>
              && Placeable(r, stocks, canPlace)
              && IsDemandCandidate(At(r, stocks, stockSize), products, stocks, stockSize, true)
    ensures r != NoAction ==>
              forall c :: IsDemandCandidate(c, products, stocks, stockSize, true) && Placeable(c.action, stocks, canPlace)
                ==> Area(c.action.size) <= Area(r.size)
    ensures r != NoAction ==>
              forall c :: IsCandidate(c, r.size, stocks, stockSize, true) && Placeable(c.action, stocks, canPlace)
                ==> Waste(At(r, stocks, stockSize)) <= Waste(c)
    ensures r != NoAction ==>
              Chosen(products, stocks, canPlace, stockSize).Some?
              && r.size in Orientations(Chosen(products, stocks, canPlace, stockSize).value.size, true)
    ensures r != NoAction ==>
              Some(r) == BestFit(Chosen(products, stocks, canPlace, stockSize).value.size, stocks, canPlace, stockSize)
  {
    match Chosen(products, stocks, canPlace, stockSize)
    case None =>
      NothingFillable(products, stocks, canPlace, stockSize);
      NoAction
    case Some(p) =>
      LargestFillableFit(products, p, stocks, canPlace, stockSize);
      BestFitOwnOrientation(p.size, stocks, canPlace, stockSize);
      BestFit(p.size, stocks, canPlace, stockSize).value
  }

  /**
   * The strict `<` of the waste comparison: among the placements of the chosen
   * product with no more waste than the result, the result comes first in
   * scan order (stocks by index, then orientation, then x, then y).
   */
  lemma GetActionFirstOnTies(products: seq<Product>, stocks: seq<Grid>, canPlace: PlaceOracle, stockSize: SizeOracle)
    requires GetAction(products, stocks, canPlace, stockSize) != NoAction
    ensures Chosen(products, stocks, canPlace, stockSize).Some?
    ensures var r := GetAction(products, stocks, canPlace, stockSize);
            var sweep := ProductSweep(Chosen(products, stocks, canPlace, stockSize).value.size, stocks, stockSize, true);
            forall j :: 0 <= j < |sweep| && Placeable(sweep[j].action, stocks, canPlace)
                          && Waste(sweep[j]) <= Waste(At(r, stocks, stockSize))
              ==> r in Actions(sweep[..j + 1])
  {
    var p := Chosen(products, stocks, canPlace, stockSize).value;
    assert Some(GetAction(products, stocks, canPlace, stockSize)) == BestFit(p.size, stocks, canPlace, stockSize);
  }
}
