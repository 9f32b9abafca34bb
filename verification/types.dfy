/**
 * Shared vocabulary of the cutting-stock placement policies: rectangle sizes,
 * positions, placement actions, products with their remaining demand, and the
 * stock sheets as integer grids.
 *
 * The two primitives of the policy base class, `_can_place_` and
 * `_get_stock_size_`, are not part of this model: every operation that needs
 * them receives them as (uninterpreted) function parameters of the types
 * `PlaceOracle` and `SizeOracle` below.
 */
module Types {

  /** Width and height of a rectangle, in grid cells. */
  datatype Size = Size(w: nat, h: nat)

  /** Top-left corner of a placement. */
  datatype Pos = Pos(x: nat, y: nat)

  /** One cut: which stock sheet, which rectangle, where. Compared structurally. */
  datatype Action = Action(stockIdx: int, size: Size, pos: Pos)

  /** A product kind with its remaining demand. */
  datatype Product = Product(size: Size, quantity: int)

  datatype Option<T> = None | Some(value: T)

  /** A stock sheet: a grid of cells; `Unusable` marks cells outside the sheet. */
  type Grid = seq<seq<int>>

  /** `_can_place_(stock, position, size)` of the policy base class. */
  type PlaceOracle = (Grid, Pos, Size) -> bool

  /** `_get_stock_size_(stock)` of the policy base class: usable width and height. */
  type SizeOracle = Grid -> Size

  const Unusable: int := -2

  /** The "no action found" result of the brute-force and greedy policies. */
  const NoAction: Action := Action(-1, Size(0, 0), Pos(0, 0))

  function Area(s: Size): nat
  {
    s.w * s.h
  }

  /** Number of cells of one row that are not `Unusable`. */
  function RowUsable(row: seq<int>): (n: nat)
    ensures n <= |row|
  {
    if row == [] then 0
    else RowUsable(row[..|row| - 1]) + (if row[|row| - 1] != Unusable then 1 else 0)
  }

  /** Usable area of a stock: the number of its cells that are not `Unusable`. */
  function UsableArea(g: Grid): nat
  {
    if g == [] then 0
    else UsableArea(g[..|g| - 1]) + RowUsable(g[|g| - 1])
  }

  /** A row has no usable cell exactly when every cell is `Unusable`. */
  lemma {:induction false} RowUsableZero(row: seq<int>)
    ensures RowUsable(row) == 0 <==> forall j :: 0 <= j < |row| ==> row[j] == Unusable
  {
    if row != [] {
      var init := row[..|row| - 1];
      RowUsableZero(init);
      assert forall j :: 0 <= j < |init| ==> init[j] == row[j];
    }
  }

  /** A stock has no usable area exactly when every cell is `Unusable`. */
  lemma {:induction false} UsableAreaZero(g: Grid)
    ensures UsableArea(g) == 0 <==> forall i, j :: 0 <= i < |g| && 0 <= j < |g[i]| ==> g[i][j] == Unusable
  {
    if g != [] {
      var init := g[..|g| - 1];
      UsableAreaZero(init);
      RowUsableZero(g[|g| - 1]);
      assert forall i :: 0 <= i < |init| ==> init[i] == g[i];
    }
  }

  predicate Indexed(a: Action, stocks: seq<Grid>)
  {
    0 <= a.stockIdx < |stocks|
  }

  /** The action names an existing stock and the base class accepts it there. */
  predicate Placeable(a: Action, stocks: seq<Grid>, canPlace: PlaceOracle)
  {
    Indexed(a, stocks) && canPlace(stocks[a.stockIdx], a.pos, a.size)
  }

  /** A candidate solution of the genetic algorithm: one action per demanded product. */
  type Solution = seq<Action>

  /** Every action of `s` names an existing stock (the source indexes `stocks` with it). */
  predicate AllIndexed(s: Solution, stocks: seq<Grid>)
  {
    forall i :: 0 <= i < |s| ==> Indexed(s[i], stocks)
  }

  /** What the GA keeps true of every member of its population. */
  predicate Viable(s: Solution, stocks: seq<Grid>)
  {
    |s| > 0 && AllIndexed(s, stocks)
  }

  /**
   * A stock on which anything can be placed has a positive usable area.
   * The fitness divides by that area; this is what keeps the division defined.
   */
  ghost predicate AreaGuard(stocks: seq<Grid>, canPlace: PlaceOracle)
  {
    forall i, p, z :: 0 <= i < |stocks| && canPlace(stocks[i], p, z) ==> UsableArea(stocks[i]) > 0
  }

  /** `a` can be obtained from `b` by deleting elements (order preserved). */
  predicate Subseq<T(==)>(a: seq<T>, b: seq<T>)
    decreases |b|
  {
    if a == [] then true
    else if b == [] then false
    else (a[0] == b[0] && Subseq(a[1..], b[1..])) || Subseq(a, b[1..])
  }

  /**
   * The products that still have demand, in their original order: every one
   * of them with its multiplicity, and nothing else.
   */
  function Demand(ps: seq<Product>): (r: seq<Product>)
    ensures |r| <= |ps|
    ensures forall p :: p in r <==> p in ps && p.quantity > 0
    ensures r != [] <==> HasDemand(ps)
    ensures Subseq(r, ps)
    ensures forall p :: multiset(r)[p] == if p.quantity > 0 then multiset(ps)[p] else 0
  {
    if ps == [] then []
    else
      assert ps == [ps[0]] + ps[1..];
      var t := Demand(ps[1..]);
      if ps[0].quantity > 0 then
        assert ([ps[0]] + t)[1..] == t;
        [ps[0]] + t
      else t
  }

  predicate HasDemand(ps: seq<Product>)
  {
    exists i :: 0 <= i < |ps| && ps[i].quantity > 0
  }
}
