/**
 * The exhaustive placement sweeps of the brute-force policy, the greedy
 * policy and the deterministic mutation: products in order (those with
 * positive quantity), stocks by index, the product's orientations, then
 * every top-left corner with x in the outer loop and y in the inner loop.
 * A sweep lists the candidates in exactly that scan order.
 */
module Placements {
  import opened Types
  import opened Search

  /** `(p.x, p.y)` comes strictly before `(q.x, q.y)` with x outer, y inner. */
  predicate ScanBefore(p: Pos, q: Pos)
  {
    p.x < q.x || (p.x == q.x && p.y < q.y)
  }

  /** The corners `(x, y)` for x in `range(cols)` and y in `range(rows)`, x outer. */
  function PositionGrid(cols: int, rows: int): (g: seq<Pos>)
    ensures forall p :: p in g <==> p.x < cols && p.y < rows
    ensures forall i, j :: 0 <= i < j < |g| ==> ScanBefore(g[i], g[j])
    decreases cols
  {
    if cols <= 0 || rows <= 0 then []
    else
      var front := PositionGrid(cols - 1, rows);
      var column := seq(rows, y requires 0 <= y => Pos(cols - 1, y));
      assert forall p :: p in column <==> p.x == cols - 1 && p.y < rows by {
        forall p: Pos | p.x == cols - 1 && p.y < rows ensures p in column {
          assert column[p.y] == p;
        }
      }
      assert forall i :: 0 <= i < |front| ==> front[i] in front;
      ColumnAfterGrid(front, column, cols - 1);
      front + column
  }

  /** Appending the column `x == c` to corners of smaller `x` keeps scan order. */
  lemma ColumnAfterGrid(front: seq<Pos>, column: seq<Pos>, c: nat)
    requires forall i :: 0 <= i < |front| ==> front[i].x < c
    requires forall i, j :: 0 <= i < j < |front| ==> ScanBefore(front[i], front[j])
    requires forall i :: 0 <= i < |column| ==> column[i] == Pos(c, i)
    ensures forall i, j :: 0 <= i < j < |front + column| ==> ScanBefore((front + column)[i], (front + column)[j])
  {
    var g := front + column;
    assert forall i :: 0 <= i < |front| ==> g[i] == front[i];
    assert forall i :: |front| <= i < |g| ==> g[i] == column[i - |front|];
  }

  /** A candidate placement together with the size of the stock it is on. */
  datatype Candidate = Candidate(action: Action, stock: Size)

  /** The rectangle lies within the stock: `0 <= x <= W - w` and `0 <= y <= H - h`. */
  predicate Fits(a: Action, dims: Size)
  {
    a.pos.x + a.size.w <= dims.w && a.pos.y + a.size.h <= dims.h
  }

  /** The orientations tried for size `z`: `(w, h)`, then `(h, w)` when flipping. */
  function Orientations(z: Size, flips: bool): seq<Size>
  {
    if flips then [z, Size(z.h, z.w)] else [z]
  }

  /** The corners tried for size `z` on a stock of dimensions `dims`, in scan order. */
  function Corners(dims: Size, z: Size): (g: seq<Pos>)
    ensures forall p :: p in g <==> p.x + z.w <= dims.w && p.y + z.h <= dims.h
    ensures forall i, j :: 0 <= i < j < |g| ==> ScanBefore(g[i], g[j])
  {
    PositionGrid(dims.w - z.w + 1, dims.h - z.h + 1)
  }

  /** All corners for size `z` on stock `i` of dimensions `dims`. */
  function OnStock(i: nat, dims: Size, z: Size): (r: seq<Candidate>)
    ensures |r| == |Corners(dims, z)|
    ensures forall k :: 0 <= k < |r| ==> r[k] == Candidate(Action(i, z, Corners(dims, z)[k]), dims)
    ensures forall c :: c in r <==>
              c.action.stockIdx == i && c.action.size == z && c.stock == dims && Fits(c.action, dims)
    ensures forall j, k :: 0 <= j < k < |r| ==> ScanBefore(r[j].action.pos, r[k].action.pos)
  {
    var g := Corners(dims, z);
    var r := seq(|g|, k requires 0 <= k < |g| => Candidate(Action(i, z, g[k]), dims));
    assert forall c :: c in r <==>
             c.action.stockIdx == i && c.action.size == z && c.stock == dims && Fits(c.action, dims) by {
      forall c: Candidate | c.action.stockIdx == i && c.action.size == z && c.stock == dims && Fits(c.action, dims)
        ensures c in r
      {
        var k :| 0 <= k < |g| && g[k] == c.action.pos;
        assert r[k] == c;
      }
    }
    r
  }

  /** The candidates on stock `i` for every orientation in `zs`, in order. */
  function OnStockAll(i: nat, dims: Size, zs: seq<Size>): (r: seq<Candidate>)
    ensures forall c :: c in r <==>
              c.action.stockIdx == i && c.action.size in zs && c.stock == dims && Fits(c.action, dims)
  {
    if zs == [] then []
    else OnStock(i, dims, zs[0]) + OnStockAll(i, dims, zs[1..])
  }

  /** A candidate for product size `z` on some stock, before the feasibility test. */
  predicate IsCandidate(c: Candidate, z: Size, stocks: seq<Grid>, stockSize: SizeOracle, flips: bool)
  {
    && Indexed(c.action, stocks)
    && c.stock == stockSize(stocks[c.action.stockIdx])
    && c.action.size in Orientations(z, flips)
    && Fits(c.action, c.stock)
  }

  /** The candidates for size `z` on stocks `from`, `from + 1`, ... in index order. */
  function StocksFrom(z: Size, stocks: seq<Grid>, stockSize: SizeOracle, flips: bool, from: nat): (r: seq<Candidate>)
    requires from <= |stocks|
    ensures forall c :: c in r <==> IsCandidate(c, z, stocks, stockSize, flips) && from <= c.action.stockIdx
    ensures forall j, k :: 0 <= j < k < |r| ==> r[j].action.stockIdx <= r[k].action.stockIdx
    decreases |stocks| - from
  {
    if from == |stocks| then []
    else
      var here := OnStockAll(from, stockSize(stocks[from]), Orientations(z, flips));
      var rest := StocksFrom(z, stocks, stockSize, flips, from + 1);
      assert forall c :: c in here <==> IsCandidate(c, z, stocks, stockSize, flips) && c.action.stockIdx == from;
      assert forall j :: 0 <= j < |here| ==> here[j] in here;
      assert forall j :: 0 <= j < |rest| ==> rest[j] in rest;
      StockBlocksOrdered(here, rest, from);
      here + rest
  }

  /** One stock's block followed by the blocks of later stocks keeps stock indices non-decreasing. */
  lemma StockBlocksOrdered(here: seq<Candidate>, rest: seq<Candidate>, from: nat)
    requires forall j :: 0 <= j < |here| ==> here[j].action.stockIdx == from
    requires forall j :: 0 <= j < |rest| ==> from < rest[j].action.stockIdx
    requires forall j, k :: 0 <= j < k < |rest| ==> rest[j].action.stockIdx <= rest[k].action.stockIdx
    ensures forall j, k :: 0 <= j < k < |here + rest| ==> (here + rest)[j].action.stockIdx <= (here + rest)[k].action.stockIdx
  {
    var r := here + rest;
    forall j, k | 0 <= j < k < |r| ensures r[j].action.stockIdx <= r[k].action.stockIdx {
      if k < |here| {
        assert r[j] == here[j] && r[k] == here[k];
      } else if j < |here| {
        assert r[j] == here[j] && r[k] == rest[k - |here|];
      } else {
        assert r[j] == rest[j - |here|] && r[k] == rest[k - |here|];
      }
    }
  }

  /** Every candidate of one product size, in scan order. */
  function ProductSweep(z: Size, stocks: seq<Grid>, stockSize: SizeOracle, flips: bool): (r: seq<Candidate>)
    ensures forall c :: c in r <==> IsCandidate(c, z, stocks, stockSize, flips)
    ensures forall j, k :: 0 <= j < k < |r| ==> r[j].action.stockIdx <= r[k].action.stockIdx
  {
    StocksFrom(z, stocks, stockSize, flips, 0)
  }

  /** Candidate of some product that still has demand. */
  predicate IsDemandCandidate(c: Candidate, products: seq<Product>, stocks: seq<Grid>, stockSize: SizeOracle, flips: bool)
  {
    exists k :: 0 <= k < |products| && products[k].quantity > 0 && IsCandidate(c, products[k].size, stocks, stockSize, flips)
  }

  /** Every candidate of every product with positive quantity, in scan order. */
  function Sweep(products: seq<Product>, stocks: seq<Grid>, stockSize: SizeOracle, flips: bool): (r: seq<Candidate>)
    ensures forall c :: c in r <==> IsDemandCandidate(c, products, stocks, stockSize, flips)
  {
    if products == [] then []
    else
      var here := if products[0].quantity > 0 then ProductSweep(products[0].size, stocks, stockSize, flips) else [];
      var rest := Sweep(products[1..], stocks, stockSize, flips);
      assert forall c :: IsDemandCandidate(c, products, stocks, stockSize, flips) <==>
               c in here || IsDemandCandidate(c, products[1..], stocks, stockSize, flips) by {
        forall c ensures IsDemandCandidate(c, products, stocks, stockSize, flips) ==>
                           c in here || IsDemandCandidate(c, products[1..], stocks, stockSize, flips)
        {
          if IsDemandCandidate(c, products, stocks, stockSize, flips) {
            var k :| 0 <= k < |products| && products[k].quantity > 0
                     && IsCandidate(c, products[k].size, stocks, stockSize, flips);
            if k > 0 {
              assert products[1..][k - 1] == products[k];
            }
          }
        }
        forall c | IsDemandCandidate(c, products[1..], stocks, stockSize, flips)
          ensures IsDemandCandidate(c, products, stocks, stockSize, flips)
        {
          var k :| 0 <= k < |products[1..]| && products[1..][k].quantity > 0
                   && IsCandidate(c, products[1..][k].size, stocks, stockSize, flips);
          assert products[k + 1] == products[1..][k];
        }
      }
      here + rest
  }

  /** Which candidates of `cs` the base class accepts. */
  function FeasibleMask(cs: seq<Candidate>, stocks: seq<Grid>, canPlace: PlaceOracle): (ok: seq<bool>)
    ensures |ok| == |cs|
    ensures forall j :: 0 <= j < |cs| ==> ok[j] == Placeable(cs[j].action, stocks, canPlace)
  {
    seq(|cs|, j requires 0 <= j < |cs| => Placeable(cs[j].action, stocks, canPlace))
  }

  /** The costs of a sequence of candidates, as reals. */
  function Costs(cs: seq<Candidate>, cost: Candidate -> int): (r: seq<real>)
    ensures |r| == |cs|
    ensures forall j :: 0 <= j < |cs| ==> r[j] == cost(cs[j]) as real
  {
    seq(|cs|, j requires 0 <= j < |cs| => cost(cs[j]) as real)
  }

  /** The actions of a sequence of candidates, in order. */
  function Actions(cs: seq<Candidate>): (r: seq<Action>)
    ensures |r| == |cs| && forall j :: 0 <= j < |cs| ==> r[j] == cs[j].action
  {
    seq(|cs|, j requires 0 <= j < |cs| => cs[j].action)
  }

  /** The candidate a placement describes: the action with its stock's size. */
  function At(a: Action, stocks: seq<Grid>, stockSize: SizeOracle): Candidate
    requires Indexed(a, stocks)
  {
    Candidate(a, stockSize(stocks[a.stockIdx]))
  }

  /**
   * The first feasible candidate of least cost in `cs`, if any is feasible:
   * a running minimum from +infinity, replaced only on a strictly lower cost.
   */
  function Cheapest(cs: seq<Candidate>, cost: Candidate -> int, stocks: seq<Grid>, canPlace: PlaceOracle): (r: Option<nat>)
    ensures r.None? <==> forall c :: c in cs ==> !Placeable(c.action, stocks, canPlace)
    ensures r.Some? ==> r.value < |cs| && Placeable(cs[r.value].action, stocks, canPlace)
    ensures r.Some? ==> forall c :: c in cs && Placeable(c.action, stocks, canPlace) ==> cost(cs[r.value]) <= cost(c)
    ensures r.Some? ==> forall j :: 0 <= j < r.value && Placeable(cs[j].action, stocks, canPlace)
                          ==> cost(cs[r.value]) < cost(cs[j])
  {
    var ok := FeasibleMask(cs, stocks, canPlace);
    var r := FirstArgMinWhere(Costs(cs, cost), ok);
    assert r.None? ==> forall c :: c in cs ==> !Placeable(c.action, stocks, canPlace) by {
      if r.None? {
        forall c | c in cs ensures !Placeable(c.action, stocks, canPlace) {
          var j :| 0 <= j < |cs| && cs[j] == c;
          assert !ok[j];
        }
      }
    }
    assert r.Some? ==> forall c :: c in cs && Placeable(c.action, stocks, canPlace) ==> cost(cs[r.value]) <= cost(c) by {
      if r.Some? {
        forall c | c in cs && Placeable(c.action, stocks, canPlace) ensures cost(cs[r.value]) <= cost(c) {
          var j :| 0 <= j < |cs| && cs[j] == c;
          assert ok[j];
        }
      }
    }
    r
  }

  /** No feasible candidate as cheap as the chosen one comes before it in `cs`. */
  lemma CheapestComesFirst(cs: seq<Candidate>, cost: Candidate -> int, stocks: seq<Grid>, canPlace: PlaceOracle)
    requires Cheapest(cs, cost, stocks, canPlace).Some?
    ensures var i := Cheapest(cs, cost, stocks, canPlace).value;
            forall j :: 0 <= j < |cs| && Placeable(cs[j].action, stocks, canPlace) && cost(cs[j]) <= cost(cs[i])
              ==> cs[i].action in Actions(cs[..j + 1])
  {
    var i := Cheapest(cs, cost, stocks, canPlace).value;
    forall j | 0 <= j < |cs| && Placeable(cs[j].action, stocks, canPlace) && cost(cs[j]) <= cost(cs[i])
      ensures cs[i].action in Actions(cs[..j + 1])
    {
      assert i <= j;
      assert Actions(cs[..j + 1])[i] == cs[i].action;
    }
  }

  /** The feasibility test of the sweeps, as a value. */
  function FeasibleTest(stocks: seq<Grid>, canPlace: PlaceOracle): Candidate -> bool
  {
    (c: Candidate) => Placeable(c.action, stocks, canPlace)
  }

  /** `cs[k]` is feasible and no candidate before it is. */
  predicate FirstFeasibleAt(cs: seq<Candidate>, stocks: seq<Grid>, canPlace: PlaceOracle, k: nat)
  {
    && k < |cs|
    && Placeable(cs[k].action, stocks, canPlace)
    && forall j :: 0 <= j < k ==> !Placeable(cs[j].action, stocks, canPlace)
  }

  /** The action of the first feasible candidate of `cs`, in scan order. */
  function FirstFeasible(cs: seq<Candidate>, stocks: seq<Grid>, canPlace: PlaceOracle): (r: Option<Action>)
    ensures r.None? <==> forall j :: 0 <= j < |cs| ==> !Placeable(cs[j].action, stocks, canPlace)
    ensures forall k: nat :: FirstFeasibleAt(cs, stocks, canPlace, k) ==> r == Some(cs[k].action)
  {
    match FirstWhere(cs, FeasibleTest(stocks, canPlace))
    case None => None
    case Some(i) => Some(cs[i].action)
  }

  /** The first feasible candidate of a concatenation comes from its front part when it can. */
  lemma FirstFeasibleConcat(a: seq<Candidate>, b: seq<Candidate>, stocks: seq<Grid>, canPlace: PlaceOracle)
    ensures FirstFeasible(a + b, stocks, canPlace) ==
              if FirstFeasible(a, stocks, canPlace).Some? then FirstFeasible(a, stocks, canPlace)
              else FirstFeasible(b, stocks, canPlace)
  {
    var ab := a + b;
    if FirstFeasible(a, stocks, canPlace).Some? {
      var k := FirstIndex(a, stocks, canPlace);
      assert ab[k] == a[k];
      assert forall j :: 0 <= j < k ==> ab[j] == a[j];
    } else if FirstFeasible(b, stocks, canPlace).Some? {
      var k := FirstIndex(b, stocks, canPlace);
      assert ab[|a| + k] == b[k];
      assert forall j :: 0 <= j < |a| + k ==> !Placeable(ab[j].action, stocks, canPlace) by {
        forall j | 0 <= j < |a| + k ensures !Placeable(ab[j].action, stocks, canPlace) {
          if j < |a| {
            assert ab[j] == a[j];
          } else {
            assert ab[j] == b[j - |a|];
          }
        }
      }
    } else {
      forall j | 0 <= j < |ab| ensures !Placeable(ab[j].action, stocks, canPlace) {
        if j < |a| {
          assert ab[j] == a[j];
        } else {
          assert ab[j] == b[j - |a|];
        }
      }
    }
  }

  /** Where the first feasible candidate sits, when there is one. */
  function FirstIndex(cs: seq<Candidate>, stocks: seq<Grid>, canPlace: PlaceOracle): (k: nat)
    requires exists j :: 0 <= j < |cs| && Placeable(cs[j].action, stocks, canPlace)
    ensures FirstFeasibleAt(cs, stocks, canPlace, k)
  {
    FirstWhere(cs, FeasibleTest(stocks, canPlace)).value
  }
}
