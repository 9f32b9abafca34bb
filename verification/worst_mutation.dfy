/**
 * The deterministic mutation of the second GA variant: find the placeable
 * action of highest trim loss (the first one on ties) and overwrite it with
 * the first feasible placement found by scanning products with demand, then
 * stocks by index, then corners (x outer, y inner), without rotation. When
 * nothing in the solution is placeable, or no placement is feasible, the
 * solution is left as it is.
 */
module WorstSlotMutation {
  import opened Types
  import opened Search
  import opened Fitness
  import opened Placements

  /** State of the worst-action scan: the slot found so far and its trim loss (-1 before any). */
  datatype Worst = Worst(slot: Option<nat>, loss: real)

  /**
   * The scan over `s[..n]`: a placeable action replaces the current worst
   * only when its trim loss is strictly greater.
   */
  function ScanWorst(s: Solution, stocks: seq<Grid>, canPlace: PlaceOracle, n: nat): (w: Worst)
    requires Scorable(s, stocks, canPlace) && n <= |s|
    ensures w.slot.None? <==> forall i :: 0 <= i < n ==> !Placeable(s[i], stocks, canPlace)
    ensures w.slot.None? ==> w.loss == -1.0
    ensures w.slot.Some? ==> w.slot.value < n && Placeable(s[w.slot.value], stocks, canPlace)
                              && w.loss == TrimOf(s[w.slot.value], stocks, canPlace)
    ensures w.slot.Some? ==> forall i :: 0 <= i < n && Placeable(s[i], stocks, canPlace)
                                ==> TrimOf(s[i], stocks, canPlace) <= w.loss
    ensures w.slot.Some? ==> forall i :: 0 <= i < w.slot.value && Placeable(s[i], stocks, canPlace)
                                ==> TrimOf(s[i], stocks, canPlace) < w.loss
  {
    if n == 0 then Worst(None, -1.0)
    else
      var w := ScanWorst(s, stocks, canPlace, n - 1);
      var a := s[n - 1];
      if Placeable(a, stocks, canPlace) && TrimOf(a, stocks, canPlace) > w.loss then
        Worst(Some(n - 1), TrimOf(a, stocks, canPlace))
      else
        assert Placeable(a, stocks, canPlace) ==> TrimOf(a, stocks, canPlace) >= 0.0 && w.slot.Some?;
        w
  }

  /** State of the corner scan: the best corner so far and its waste (None is +infinity). */
  datatype Pick = Pick(best: Option<Pos>, minWaste: Option<int>)

  /** The waste the mutation assigns to a placement: stock area minus piece area. */
  function SheetWaste(dims: Size, z: Size): int
  {
    dims.w * dims.h - Area(z)
  }

  /** `g[i]` is a feasible corner among `g[..n]` and no corner before it is. */
  predicate FirstCornerAt(g: seq<Pos>, n: nat, stock: Grid, z: Size, canPlace: PlaceOracle, i: nat)
    requires n <= |g|
  {
    && i < n
    && canPlace(stock, g[i], z)
    && forall j :: 0 <= j < i ==> !canPlace(stock, g[j], z)
  }

  /**
   * The corner scan over `g[..n]`: a feasible corner replaces the current best
   * only when its waste is strictly lower. The waste does not depend on the
   * corner, so the scan settles on the first feasible corner.
   */
  function ScanCorners(g: seq<Pos>, n: nat, stock: Grid, dims: Size, z: Size, canPlace: PlaceOracle): (p: Pick)
    requires n <= |g|
    ensures p.best.None? <==> forall j :: 0 <= j < n ==> !canPlace(stock, g[j], z)
    ensures p.best.None? <==> p.minWaste.None?
    ensures p.minWaste.Some? ==> p.minWaste.value == SheetWaste(dims, z)
    ensures forall i: nat :: FirstCornerAt(g, n, stock, z, canPlace, i) ==> p.best == Some(g[i])
  {
    if n == 0 then Pick(None, None)
    else
      var p := ScanCorners(g, n - 1, stock, dims, z, canPlace);
      var waste := SheetWaste(dims, z);
      if canPlace(stock, g[n - 1], z) && (p.minWaste.None? || waste < p.minWaste.value) then
        Pick(Some(g[n - 1]), Some(waste))
      else p
  }

  /** The best corner for size `z` on a stock of dimensions `dims`. */
  function BestPosition(stock: Grid, dims: Size, z: Size, canPlace: PlaceOracle): (p: Pick)
    ensures p.best.None? <==> forall j :: 0 <= j < |Corners(dims, z)| ==> !canPlace(stock, Corners(dims, z)[j], z)
    ensures forall i: nat :: FirstCornerAt(Corners(dims, z), |Corners(dims, z)|, stock, z, canPlace, i)
              ==> p.best == Some(Corners(dims, z)[i])
  {
    var g := Corners(dims, z);
    ScanCorners(g, |g|, stock, dims, z, canPlace)
  }

  /** The placement on stock `i` the mutation settles for, if that stock has a feasible corner. */
  function OnStockChoice(i: nat, dims: Size, z: Size, stocks: seq<Grid>, canPlace: PlaceOracle): Option<Action>
    requires i < |stocks|
  {
    match BestPosition(stocks[i], dims, z, canPlace).best
    case None => None
    case Some(pos) => Some(Action(i, z, pos))
  }

  /** The stocks from index `from` on, in order, stopping at the first with a feasible corner. */
  function StockScan(z: Size, stocks: seq<Grid>, canPlace: PlaceOracle, stockSize: SizeOracle, from: nat): Option<Action>
    requires from <= |stocks|
    decreases |stocks| - from
  {
    if from == |stocks| then None
    else
      match OnStockChoice(from, stockSize(stocks[from]), z, stocks, canPlace)
      case Some(a) => Some(a)
      case None => StockScan(z, stocks, canPlace, stockSize, from + 1)
  }

  /** The products in order, skipping those without demand, stopping at the first that fits somewhere. */
  function Replacement(products: seq<Product>, stocks: seq<Grid>, canPlace: PlaceOracle, stockSize: SizeOracle): Option<Action>
  {
    if products == [] then None
    else if products[0].quantity > 0 && StockScan(products[0].size, stocks, canPlace, stockSize, 0).Some? then
      StockScan(products[0].size, stocks, canPlace, stockSize, 0)
    else Replacement(products[1..], stocks, canPlace, stockSize)
  }

  /** On one stock, the corner scan finds the first feasible candidate of that stock. */
  lemma OnStockChoiceIsFirst(i: nat, dims: Size, z: Size, stocks: seq<Grid>, canPlace: PlaceOracle)
    requires i < |stocks|
    ensures OnStockChoice(i, dims, z, stocks, canPlace) == FirstFeasible(OnStock(i, dims, z), stocks, canPlace)
  {
    var g := Corners(dims, z);
    var cs := OnStock(i, dims, z);
    var p := BestPosition(stocks[i], dims, z, canPlace);
    assert forall k :: 0 <= k < |g| ==> (Placeable(cs[k].action, stocks, canPlace) <==> canPlace(stocks[i], g[k], z));
    if p.best.Some? {
      var k := FirstIndex(cs, stocks, canPlace);
      assert FirstCornerAt(g, |g|, stocks[i], z, canPlace, k);
    }
  }

  /** Without rotation, the candidates from stock `from` on are those of stock `from`, then the rest. */
  lemma StocksFromUnrotated(z: Size, stocks: seq<Grid>, stockSize: SizeOracle, from: nat)
    requires from < |stocks|
    ensures StocksFrom(z, stocks, stockSize, false, from)
            == OnStock(from, stockSize(stocks[from]), z) + StocksFrom(z, stocks, stockSize, false, from + 1)
  {
    var dims := stockSize(stocks[from]);
    var zs := Orientations(z, false);
    assert zs == [z] && zs[1..] == [];
    assert OnStockAll(from, dims, zs) == OnStock(from, dims, z) + OnStockAll(from, dims, []);
    assert OnStockAll(from, dims, zs) == OnStock(from, dims, z);
  }

  /** The stock scan finds the first feasible candidate of the stocks it visits. */
  lemma {:induction false} StockScanIsFirst(z: Size, stocks: seq<Grid>, canPlace: PlaceOracle, stockSize: SizeOracle, from: nat)
    requires from <= |stocks|
    ensures StockScan(z, stocks, canPlace, stockSize, from)
            == FirstFeasible(StocksFrom(z, stocks, stockSize, false, from), stocks, canPlace)
    decreases |stocks| - from
  {
    if from < |stocks| {
      var dims := stockSize(stocks[from]);
      var here := OnStock(from, dims, z);
      StocksFromUnrotated(z, stocks, stockSize, from);
      OnStockChoiceIsFirst(from, dims, z, stocks, canPlace);
      FirstFeasibleConcat(here, StocksFrom(z, stocks, stockSize, false, from + 1), stocks, canPlace);
      StockScanIsFirst(z, stocks, canPlace, stockSize, from + 1);
    }
  }

  /**
   * The nested product/stock/corner loops find exactly the first feasible
   * candidate of the unrotated sweep over the products with demand.
   */
  lemma {:induction false} ReplacementIsFirstInSweep(products: seq<Product>, stocks: seq<Grid>, canPlace: PlaceOracle, stockSize: SizeOracle)
    ensures Replacement(products, stocks, canPlace, stockSize)
            == FirstFeasible(Sweep(products, stocks, stockSize, false), stocks, canPlace)
  {
    if products != [] {
      var p := products[0];
      var here := if p.quantity > 0 then ProductSweep(p.size, stocks, stockSize, false) else [];
      assert Sweep(products, stocks, stockSize, false) == here + Sweep(products[1..], stocks, stockSize, false);
      StockScanIsFirst(p.size, stocks, canPlace, stockSize, 0);
      FirstFeasibleConcat(here, Sweep(products[1..], stocks, stockSize, false), stocks, canPlace);
      ReplacementIsFirstInSweep(products[1..], stocks, canPlace, stockSize);
    }
  }

  /**
   * What the replacement is: absent exactly when no unrotated placement of a
   * product with demand is feasible, otherwise a feasible one, the first of
   * the unrotated sweep.
   */
  lemma ReplacementMeans(products: seq<Product>, stocks: seq<Grid>, canPlace: PlaceOracle, stockSize: SizeOracle)
    ensures var r := Replacement(products, stocks, canPlace, stockSize);
            && (r.None? <==> forall c :: IsDemandCandidate(c, products, stocks, stockSize, false)
                                         ==> !Placeable(c.action, stocks, canPlace))
            && (r.Some? ==> && Placeable(r.value, stocks, canPlace)
                            && IsDemandCandidate(At(r.value, stocks, stockSize), products, stocks, stockSize, false)
                            && r == FirstFeasible(Sweep(products, stocks, stockSize, false), stocks, canPlace))
  {
    var sweep := Sweep(products, stocks, stockSize, false);
    ReplacementIsFirstInSweep(products, stocks, canPlace, stockSize);
    if FirstFeasible(sweep, stocks, canPlace).Some? {
      var k := FirstIndex(sweep, stocks, canPlace);
      assert sweep[k] in sweep;
      assert At(sweep[k].action, stocks, stockSize) == sweep[k];
    } else {
      forall c | IsDemandCandidate(c, products, stocks, stockSize, false)
        ensures !Placeable(c.action, stocks, canPlace)
      {
        assert c in sweep;
      }
    }
  }

  /** The part of `ReplacementMeans` the mutation itself needs. */
  lemma ReplacementBasics(products: seq<Product>, stocks: seq<Grid>, canPlace: PlaceOracle, stockSize: SizeOracle)
    ensures Replacement(products, stocks, canPlace, stockSize).Some? ==>
              Indexed(Replacement(products, stocks, canPlace, stockSize).value, stocks)
    ensures (forall c :: IsDemandCandidate(c, products, stocks, stockSize, false) ==> !Placeable(c.action, stocks, canPlace))
              ==> Replacement(products, stocks, canPlace, stockSize).None?
  {
    ReplacementMeans(products, stocks, canPlace, stockSize);
  }

  /** What a found replacement is, without the case where there is none. */
  lemma ReplacementFound(products: seq<Product>, stocks: seq<Grid>, canPlace: PlaceOracle, stockSize: SizeOracle)
    ensures var r := Replacement(products, stocks, canPlace, stockSize);
            r.Some? ==> && Placeable(r.value, stocks, canPlace)
                        && IsDemandCandidate(At(r.value, stocks, stockSize), products, stocks, stockSize, false)
                        && r == FirstFeasible(Sweep(products, stocks, stockSize, false), stocks, canPlace)
  {
    ReplacementMeans(products, stocks, canPlace, stockSize);
  }

  /**
   * `_mutate` of the deterministic variant. At most one slot changes, and
   * the solution is returned unchanged when no action of it is placeable or
   * no unrotated placement of a product with demand is feasible.
   */
  function WorstMutate(s: Solution, products: seq<Product>, stocks: seq<Grid>, canPlace: PlaceOracle, stockSize: SizeOracle): (r: Solution)
    requires Scorable(s, stocks, canPlace)
    ensures |r| == |s| && AllIndexed(r, stocks)
    ensures (forall i :: 0 <= i < |s| ==> !Placeable(s[i], stocks, canPlace)) ==> r == s
    ensures (forall c :: IsDemandCandidate(c, products, stocks, stockSize, false) ==> !Placeable(c.action, stocks, canPlace))
              ==> r == s
    ensures forall i, j :: 0 <= i < |s| && 0 <= j < |s| && r[i] != s[i] && r[j] != s[j] ==> i == j
  {
    ReplacementBasics(products, stocks, canPlace, stockSize);
    match ScanWorst(s, stocks, canPlace, |s|).slot
    case None => s
    case Some(w) =>
      match Replacement(products, stocks, canPlace, stockSize)
      case None => s
      case Some(a) => s[w := a]
  }

  /**
   * The mutation at work: when some action is placeable and some unrotated
   * placement of a product with demand is feasible, the worst slot is
   * overwritten with the first feasible one in scan order, and nothing else
   * changes.
   */
  lemma WorstMutateOverwrites(s: Solution, products: seq<Product>, stocks: seq<Grid>, canPlace: PlaceOracle, stockSize: SizeOracle)
    requires Scorable(s, stocks, canPlace)
    requires exists i :: 0 <= i < |s| && Placeable(s[i], stocks, canPlace)
    requires FirstFeasible(Sweep(products, stocks, stockSize, false), stocks, canPlace).Some?
    ensures ScanWorst(s, stocks, canPlace, |s|).slot.Some?
    ensures WorstMutate(s, products, stocks, canPlace, stockSize)
            == s[ScanWorst(s, stocks, canPlace, |s|).slot.value
                 := FirstFeasible(Sweep(products, stocks, stockSize, false), stocks, canPlace).value]
  {
    ReplacementIsFirstInSweep(products, stocks, canPlace, stockSize);
  }

  /** Only the worst slot can change: the placeable slot of highest trim loss, the first on ties. */
  lemma WorstMutateSlot(s: Solution, products: seq<Product>, stocks: seq<Grid>, canPlace: PlaceOracle, stockSize: SizeOracle)
    requires Scorable(s, stocks, canPlace)
    ensures var r := WorstMutate(s, products, stocks, canPlace, stockSize);
            forall j :: 0 <= j < |s| && r[j] != s[j] ==>
              && Placeable(s[j], stocks, canPlace)
              && (forall i :: 0 <= i < |s| && Placeable(s[i], stocks, canPlace)
                    ==> TrimOf(s[i], stocks, canPlace) <= TrimOf(s[j], stocks, canPlace))
              && (forall i :: 0 <= i < j && Placeable(s[i], stocks, canPlace)
                    ==> TrimOf(s[i], stocks, canPlace) < TrimOf(s[j], stocks, canPlace))
  {
    var r := WorstMutate(s, products, stocks, canPlace, stockSize);
    var w := ScanWorst(s, stocks, canPlace, |s|);
    forall j | 0 <= j < |s| && r[j] != s[j] ensures w.slot == Some(j) {
      if w.slot.Some? && Replacement(products, stocks, canPlace, stockSize).Some? {
        assert r == s[w.slot.value := Replacement(products, stocks, canPlace, stockSize).value];
      }
    }
  }

  /** A changed slot holds the first feasible unrotated placement of a product with demand. */
  lemma WorstMutateValue(s: Solution, products: seq<Product>, stocks: seq<Grid>, canPlace: PlaceOracle, stockSize: SizeOracle)
    requires Scorable(s, stocks, canPlace)
    ensures var r := WorstMutate(s, products, stocks, canPlace, stockSize);
            forall j :: 0 <= j < |s| && r[j] != s[j] ==>
              && Placeable(r[j], stocks, canPlace)
              && IsDemandCandidate(At(r[j], stocks, stockSize), products, stocks, stockSize, false)
              && Some(r[j]) == FirstFeasible(Sweep(products, stocks, stockSize, false), stocks, canPlace)
  {
    ChangedSlotHoldsReplacement(s, products, stocks, canPlace, stockSize);
    ReplacementFound(products, stocks, canPlace, stockSize);
  }

  lemma ChangedSlotHoldsReplacement(s: Solution, products: seq<Product>, stocks: seq<Grid>, canPlace: PlaceOracle, stockSize: SizeOracle)
    requires Scorable(s, stocks, canPlace)
    ensures var r := WorstMutate(s, products, stocks, canPlace, stockSize);
            forall j :: 0 <= j < |s| && r[j] != s[j] ==> Some(r[j]) == Replacement(products, stocks, canPlace, stockSize)
  {
    var r := WorstMutate(s, products, stocks, canPlace, stockSize);
    var w := ScanWorst(s, stocks, canPlace, |s|);
    var a := Replacement(products, stocks, canPlace, stockSize);
    forall j | 0 <= j < |s| && r[j] != s[j] ensures Some(r[j]) == a {
      if w.slot.Some? && a.Some? {
        assert r == s[w.slot.value := a.value];
      }
    }
  }
}
