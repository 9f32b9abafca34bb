/**
 * The brute-force policy: among every feasible placement of every product
 * with positive quantity (both orientations, every stock, every corner), the
 * one of least trim loss, the first in scan order on ties; the "no action"
 * sentinel when nothing is feasible.
 */
module BruteForce {
  import opened Types
  import opened Search
  import opened Placements

  /**
   * Trim loss of a candidate: with `rw`, `rh` the stock width and height left
   * to the right of and below the piece, `rw * H + rh * W - rw * rh`.
   */
  function TrimLoss(c: Candidate): int
  {
    var rw := c.stock.w - (c.action.pos.x + c.action.size.w);
    var rh := c.stock.h - (c.action.pos.y + c.action.size.h);
    rw * c.stock.h + rh * c.stock.w - rw * rh
  }

  /**
   * The trim loss is the stock area outside the box spanned by the origin and
   * the piece's far corner; it is never negative for a piece that fits.
   */
  lemma TrimLossIsOutsideBox(c: Candidate)
    requires Fits(c.action, c.stock)
    ensures TrimLoss(c) == c.stock.w * c.stock.h
                           - (c.action.pos.x + c.action.size.w) * (c.action.pos.y + c.action.size.h)
    ensures TrimLoss(c) >= 0
  {
    var W, H := c.stock.w, c.stock.h;
    var farX, farY := c.action.pos.x + c.action.size.w, c.action.pos.y + c.action.size.h;
    var rw, rh := W - farX, H - farY;
    calc {
      TrimLoss(c);
      rw * H + rh * W - rw * rh;
      { assert rh * W - rw * rh == rh * (W - rw); }
      rw * H + rh * farX;
      { assert rw * H == W * H - farX * H; assert rh * farX == H * farX - farY * farX; }
      W * H - farX * farY;
    }
    assert 0 <= rw * H by {
      assert 0 <= rw && 0 <= H;
    }
    assert 0 <= rh * farX by {
      assert 0 <= rh && 0 <= farX;
    }
  }

  /** The cheapest feasible entry of the sweep, as an answer about all candidates with demand. */
  lemma CheapestInSweep(products: seq<Product>, stocks: seq<Grid>, canPlace: PlaceOracle, stockSize: SizeOracle)
    ensures Cheapest(Sweep(products, stocks, stockSize, true), TrimLoss, stocks, canPlace).None? <==>
              forall c :: IsDemandCandidate(c, products, stocks, stockSize, true) ==> !Placeable(c.action, stocks, canPlace)
    ensures Cheapest(Sweep(products, stocks, stockSize, true), TrimLoss, stocks, canPlace).Some? ==>
              var c := Sweep(products, stocks, stockSize, true)[Cheapest(Sweep(products, stocks, stockSize, true), TrimLoss, stocks, canPlace).value];
              && c.action != NoAction
              && At(c.action, stocks, stockSize) == c
              && IsDemandCandidate(c, products, stocks, stockSize, true)
              && forall d :: IsDemandCandidate(d, products, stocks, stockSize, true) && Placeable(d.action, stocks, canPlace)
                   ==> TrimLoss(c) <= TrimLoss(d)
  {
    var sweep := Sweep(products, stocks, stockSize, true);
    match Cheapest(sweep, TrimLoss, stocks, canPlace)
    case None =>
    case Some(i) =>
      var c := sweep[i];
      assert c in sweep;
  }

  /**
   * `get_action` of the brute-force policy. The result is the sentinel exactly
   * when no candidate is feasible; otherwise it is a feasible candidate
   * (a product with demand, one of its two orientations, a stock, a corner
   * within bounds) whose trim loss no feasible candidate undercuts, and it
   * comes no later in scan order than any feasible candidate as cheap.
   */
  function GetAction(products: seq<Product>, stocks: seq<Grid>, canPlace: PlaceOracle, stockSize: SizeOracle): (r: Action)
    ensures r == NoAction <==>
              forall c :: IsDemandCandidate(c, products, stocks, stockSize, true) ==> !Placeable(c.action, stocks, canPlace)
    ensures r != NoAction ==>
              && Placeable(r, stocks, canPlace)
              && IsDemandCandidate(At(r, stocks, stockSize), products, stocks, stockSize, true)
              && forall c :: IsDemandCandidate(c, products, stocks, stockSize, true) && Placeable(c.action, stocks, canPlace)
                   ==> TrimLoss(At(r, stocks, stockSize)) <= TrimLoss(c)
    ensures r != NoAction ==>
              forall j :: 0 <= j < |Sweep(products, stocks, stockSize, true)|
                            && Placeable(Sweep(products, stocks, stockSize, true)[j].action, stocks, canPlace)
                            && TrimLoss(Sweep(products, stocks, stockSize, true)[j]) <= TrimLoss(At(r, stocks, stockSize))
                ==> r in Actions(Sweep(products, stocks, stockSize, true)[..j + 1])
  {
    var sweep := Sweep(products, stocks, stockSize, true);
    CheapestInSweep(products, stocks, canPlace, stockSize);
    match Cheapest(sweep, TrimLoss, stocks, canPlace)
    case None => NoAction
    case Some(i) =>
      CheapestComesFirst(sweep, TrimLoss, stocks, canPlace);
      sweep[i].action
  }
}
