/**
 * The randomised GA operators: random solution generation and random
 * single-slot mutation. Random draws are explicit arguments; `randint(lo, hi)`
 * is modelled as `lo + d % (hi - lo + 1)` for an arbitrary draw `d`, which
 * always lands in `[lo, hi]` and can produce every value of that range.
 * No probability distribution is modelled.
 */
module RandomOps {
  import opened Types

  /** `random.randint(lo, hi)` driven by the raw draw `d`. */
  function RandInt(lo: int, hi: int, d: nat): (r: int)
    requires lo <= hi
    ensures lo <= r <= hi
    ensures d <= hi - lo ==> r == lo + d
  {
    lo + d % (hi - lo + 1)
  }

  function Max0(n: int): nat
  {
    if n > 0 then n else 0
  }

  /** Raw draws for one placement: stock index, x, y. */
  datatype Draw = Draw(stock: nat, x: nat, y: nat)

  /** Largest x (resp. y) the generator may pick: `max(0, stock - product)`. */
  function Slack(stockExtent: nat, productExtent: nat): nat
  {
    Max0(stockExtent - productExtent)
  }

  /** An action keeps the generator's bounds for product size `z`. */
  predicate InGeneratorRange(a: Action, z: Size, stocks: seq<Grid>, stockSize: SizeOracle)
  {
    && Indexed(a, stocks)
    && a.size == z
    && a.pos.x <= Slack(stockSize(stocks[a.stockIdx]).w, z.w)
    && a.pos.y <= Slack(stockSize(stocks[a.stockIdx]).h, z.h)
  }

  /** One random placement of product `p`: a stock, then a top-left corner on it. */
  function RandomPlacement(p: Product, stocks: seq<Grid>, stockSize: SizeOracle, d: Draw): (a: Action)
    requires |stocks| > 0
    ensures InGeneratorRange(a, p.size, stocks, stockSize)
  {
    var i := RandInt(0, |stocks| - 1, d.stock);
    var dims := stockSize(stocks[i]);
    var x := RandInt(0, Slack(dims.w, p.size.w), d.x);
    var y := RandInt(0, Slack(dims.h, p.size.h), d.y);
    Action(i, p.size, Pos(x, y))
  }

  /** Every action within the generator's bounds is produced by some draw. */
  lemma RandomPlacementReachesAll(p: Product, stocks: seq<Grid>, stockSize: SizeOracle, a: Action)
    requires InGeneratorRange(a, p.size, stocks, stockSize)
    ensures RandomPlacement(p, stocks, stockSize, Draw(a.stockIdx, a.pos.x, a.pos.y)) == a
  {
  }

  /**
   * `_generate_random_solution`: one action per product with positive
   * quantity, in product order; the j-th such product consumes `draws[j]`.
   */
  function Generate(products: seq<Product>, stocks: seq<Grid>, stockSize: SizeOracle, draws: seq<Draw>): (s: Solution)
    requires HasDemand(products) ==> |stocks| > 0
    requires |draws| >= |Demand(products)|
    ensures |s| == |Demand(products)|
    ensures forall j :: 0 <= j < |s| ==> s[j] == RandomPlacement(Demand(products)[j], stocks, stockSize, draws[j])
    ensures forall j :: 0 <= j < |s| ==> InGeneratorRange(s[j], Demand(products)[j].size, stocks, stockSize)
    ensures HasDemand(products) ==> Viable(s, stocks)
  {
    var ds := Demand(products);
    seq(|ds|, j requires 0 <= j < |ds| => RandomPlacement(ds[j], stocks, stockSize, draws[j]))
  }

  /** Raw draws for one mutation: slot, product, placement. */
  datatype MutationDraw = MutationDraw(slot: nat, product: nat, place: Draw)

  function MutationSlot(s: Solution, d: MutationDraw): nat
    requires |s| > 0
  {
    RandInt(0, |s| - 1, d.slot)
  }

  function MutationProduct(products: seq<Product>, d: MutationDraw): Product
    requires |products| > 0
  {
    products[RandInt(0, |products| - 1, d.product)]
  }

  /**
   * `_mutate` of the random variant: pick a slot and a product; when that
   * product still has demand, overwrite the slot with a random placement of it.
   */
  function RandomMutate(s: Solution, products: seq<Product>, stocks: seq<Grid>, stockSize: SizeOracle, d: MutationDraw): (r: Solution)
    requires |s| > 0 && |products| > 0
    requires MutationProduct(products, d).quantity > 0 ==> |stocks| > 0
    ensures |r| == |s|
    ensures forall j :: 0 <= j < |s| && j != MutationSlot(s, d) ==> r[j] == s[j]
    ensures MutationProduct(products, d).quantity <= 0 ==> r == s
    ensures MutationProduct(products, d).quantity > 0 ==>
              InGeneratorRange(r[MutationSlot(s, d)], MutationProduct(products, d).size, stocks, stockSize)
    ensures AllIndexed(s, stocks) ==> AllIndexed(r, stocks)
  {
    var idx := MutationSlot(s, d);
    var p := MutationProduct(products, d);
    if p.quantity > 0 then s[idx := RandomPlacement(p, stocks, stockSize, d.place)]
    else s
  }
}
