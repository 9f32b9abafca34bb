/**
 * Fitness of a GA candidate solution (lower is better): summed trim loss of
 * the placeable actions, plus 0.5 per distinct stock they use, minus the
 * utilisation (used area over usable area) of each such stock.
 *
 * Every action is checked against the UNCHANGED input stocks: actions of one
 * solution that overlap each other are all counted, so no cell occupation is
 * simulated here.
 */
module Fitness {
  import opened Types

  /** `max((area - used) / area, 0)`: the trim loss of one placement. */
  function TrimTerm(area: nat, used: nat): real
    requires area > 0
  {
    var t := (area as real - used as real) / area as real;
    if t > 0.0 then t else 0.0
  }

  /**
   * The trim loss of one placement is a fraction in [0, 1]: zero exactly when
   * the piece covers at least the usable area, otherwise the uncovered share.
   */
  lemma TrimTermMeans(area: nat, used: nat)
    requires area > 0
    ensures 0.0 <= TrimTerm(area, used) <= 1.0
    ensures TrimTerm(area, used) == 0.0 <==> used >= area
    ensures used <= area ==> TrimTerm(area, used) * area as real == (area - used) as real
  {
  }

  /** An action that is scored: it is placeable and its stock has usable area. */
  predicate Measurable(a: Action, stocks: seq<Grid>, canPlace: PlaceOracle)
  {
    Placeable(a, stocks, canPlace) && UsableArea(stocks[a.stockIdx]) > 0
  }

  /** What the fitness needs of a solution: stock indices exist, divisors are positive. */
  predicate Scorable(s: Solution, stocks: seq<Grid>, canPlace: PlaceOracle)
  {
    && AllIndexed(s, stocks)
    && forall i :: 0 <= i < |s| && Placeable(s[i], stocks, canPlace) ==> Measurable(s[i], stocks, canPlace)
  }

  lemma ViableIsScorable(s: Solution, stocks: seq<Grid>, canPlace: PlaceOracle)
    requires AllIndexed(s, stocks) && AreaGuard(stocks, canPlace)
    ensures Scorable(s, stocks, canPlace)
  {
    forall i | 0 <= i < |s| && Placeable(s[i], stocks, canPlace)
      ensures Measurable(s[i], stocks, canPlace)
    {
      var a := s[i];
      assert canPlace(stocks[a.stockIdx], a.pos, a.size);
    }
  }

  /** Trim loss of one scored action. */
  function TrimOf(a: Action, stocks: seq<Grid>, canPlace: PlaceOracle): real
    requires Measurable(a, stocks, canPlace)
  {
    TrimTerm(UsableArea(stocks[a.stockIdx]), Area(a.size))
  }

  /** Share of its stock's usable area that one scored action covers. */
  function ShareOf(a: Action, stocks: seq<Grid>): real
    requires Indexed(a, stocks) && UsableArea(stocks[a.stockIdx]) > 0
  {
    Area(a.size) as real / UsableArea(stocks[a.stockIdx]) as real
  }

  /** The stocks used by the placeable actions of `s` (the source's `used_stocks`). */
  function UsedStocks(s: Solution, stocks: seq<Grid>, canPlace: PlaceOracle): set<int>
  {
    set i | 0 <= i < |s| && Placeable(s[i], stocks, canPlace) :: s[i].stockIdx
  }

  /** State of the scoring loop: total trim loss, used stocks, used area per stock. */
  datatype Tally = Tally(trim: real, used: set<int>, areaBy: map<int, nat>)

  predicate Consistent(t: Tally, stocks: seq<Grid>)
  {
    && t.used == t.areaBy.Keys
    && forall s :: s in t.used ==> 0 <= s < |stocks| && UsableArea(stocks[s]) > 0
  }

  /** One iteration of the scoring loop. */
  function Record(t: Tally, a: Action, stocks: seq<Grid>, canPlace: PlaceOracle): (r: Tally)
    requires Consistent(t, stocks) && Indexed(a, stocks)
    requires Placeable(a, stocks, canPlace) ==> Measurable(a, stocks, canPlace)
    ensures Consistent(r, stocks)
  {
    if canPlace(stocks[a.stockIdx], a.pos, a.size) then
      var s := a.stockIdx;
      var before := if s in t.areaBy then t.areaBy[s] else 0;
      Tally(t.trim + TrimOf(a, stocks, canPlace), t.used + {s}, t.areaBy[s := before + Area(a.size)])
    else t
  }

  /** The scoring loop run over the whole solution, in order. */
  function TallyOf(s: Solution, stocks: seq<Grid>, canPlace: PlaceOracle): (t: Tally)
    requires Scorable(s, stocks, canPlace)
    ensures Consistent(t, stocks)
  {
    if s == [] then Tally(0.0, {}, map[])
    else
      var init := s[..|s| - 1];
      assert forall i :: 0 <= i < |init| ==> init[i] == s[i];
      Record(TallyOf(init, stocks, canPlace), s[|s| - 1], stocks, canPlace)
  }

  /** Sum of utilisation over the used stocks among the first `n`. */
  function Utilization(t: Tally, stocks: seq<Grid>, n: nat): real
    requires Consistent(t, stocks) && n <= |stocks|
  {
    if n == 0 then 0.0
    else
      Utilization(t, stocks, n - 1)
      + (if n - 1 in t.used then t.areaBy[n - 1] as real / UsableArea(stocks[n - 1]) as real else 0.0)
  }

  /** `_evaluate_fitness`: trim loss + 0.5 per used stock - utilisation. */
  function Score(s: Solution, stocks: seq<Grid>, canPlace: PlaceOracle): real
    requires Scorable(s, stocks, canPlace)
  {
    var t := TallyOf(s, stocks, canPlace);
    t.trim + 0.5 * |t.used| as real - Utilization(t, stocks, |stocks|)
  }

  /** What one action contributes apart from the stock penalty. */
  function Gain(a: Action, stocks: seq<Grid>, canPlace: PlaceOracle): real
    requires Indexed(a, stocks)
    requires Placeable(a, stocks, canPlace) ==> Measurable(a, stocks, canPlace)
  {
    if Placeable(a, stocks, canPlace) then TrimOf(a, stocks, canPlace) - ShareOf(a, stocks) else 0.0
  }

  /** Per-action reference form of the score, without the per-stock bookkeeping. */
  function GainSum(s: Solution, stocks: seq<Grid>, canPlace: PlaceOracle): real
    requires Scorable(s, stocks, canPlace)
  {
    if s == [] then 0.0
    else
      var init := s[..|s| - 1];
      assert forall i :: 0 <= i < |init| ==> init[i] == s[i];
      GainSum(init, stocks, canPlace) + Gain(s[|s| - 1], stocks, canPlace)
  }

  lemma DivisionAdds(x: nat, u: nat, d: nat)
    requires d > 0
    ensures (x + u) as real / d as real == x as real / d as real + u as real / d as real
  {
  }

  /** Recording a scored action adds its share to exactly its own stock's utilisation. */
  lemma {:induction false} UtilizationRecord(t: Tally, a: Action, stocks: seq<Grid>, canPlace: PlaceOracle, n: nat)
    requires Consistent(t, stocks) && Measurable(a, stocks, canPlace) && n <= |stocks|
    ensures Utilization(Record(t, a, stocks, canPlace), stocks, n)
            == Utilization(t, stocks, n) + (if a.stockIdx < n then ShareOf(a, stocks) else 0.0)
  {
    if n > 0 {
      UtilizationRecord(t, a, stocks, canPlace, n - 1);
      var r := Record(t, a, stocks, canPlace);
      if n - 1 == a.stockIdx {
        var before := if a.stockIdx in t.areaBy then t.areaBy[a.stockIdx] else 0;
        DivisionAdds(before, Area(a.size), UsableArea(stocks[a.stockIdx]));
      }
    }
  }

  lemma UtilizationNoneUsed(t: Tally, stocks: seq<Grid>, n: nat)
    requires Consistent(t, stocks) && n <= |stocks| && t.used == {}
    ensures Utilization(t, stocks, n) == 0.0
  {
  }

  lemma UsedStocksAppend(s: Solution, a: Action, stocks: seq<Grid>, canPlace: PlaceOracle)
    ensures UsedStocks(s + [a], stocks, canPlace)
            == UsedStocks(s, stocks, canPlace) + (if Placeable(a, stocks, canPlace) then {a.stockIdx} else {})
  {
    var s' := s + [a];
    var u := UsedStocks(s, stocks, canPlace);
    forall k ensures k in UsedStocks(s', stocks, canPlace) <==> k in u || (Placeable(a, stocks, canPlace) && k == a.stockIdx) {
      if k in UsedStocks(s', stocks, canPlace) {
        var i :| 0 <= i < |s'| && Placeable(s'[i], stocks, canPlace) && s'[i].stockIdx == k;
        if i < |s| {
          assert s'[i] == s[i];
        }
      }
      if k in u {
        var i :| 0 <= i < |s| && Placeable(s[i], stocks, canPlace) && s[i].stockIdx == k;
        assert s'[i] == s[i];
      }
      if Placeable(a, stocks, canPlace) && k == a.stockIdx {
        assert s'[|s|] == a;
      }
    }
  }

  /**
   * Appending one action to a solution: an action that is not placeable
   * changes nothing; a placeable one adds its trim loss minus its share, and
   * 0.5 exactly when its stock was not used before.
   */
  lemma ScoreAppend(s: Solution, a: Action, stocks: seq<Grid>, canPlace: PlaceOracle)
    requires Scorable(s, stocks, canPlace) && Indexed(a, stocks)
    requires Placeable(a, stocks, canPlace) ==> Measurable(a, stocks, canPlace)
    ensures Scorable(s + [a], stocks, canPlace)
    ensures Score(s + [a], stocks, canPlace)
            == Score(s, stocks, canPlace)
               + (if Placeable(a, stocks, canPlace) then
                    TrimOf(a, stocks, canPlace) - ShareOf(a, stocks)
                    + (if a.stockIdx in UsedStocks(s, stocks, canPlace) then 0.0 else 0.5)
                  else 0.0)
  {
    var s' := s + [a];
    assert s'[..|s|] == s && s'[|s|] == a;
    assert forall i :: 0 <= i < |s| ==> s'[i] == s[i];
    var t := TallyOf(s, stocks, canPlace);
    TallyUsed(s, stocks, canPlace);
    assert TallyOf(s', stocks, canPlace) == Record(t, a, stocks, canPlace);
    if Placeable(a, stocks, canPlace) {
      UtilizationRecord(t, a, stocks, canPlace, |stocks|);
      if a.stockIdx in t.used {
        assert t.used + {a.stockIdx} == t.used;
      } else {
        assert |t.used + {a.stockIdx}| == |t.used| + 1;
      }
    }
  }

  /** Splitting a non-empty solution into its last action and the rest. */
  lemma SplitLast(s: Solution, stocks: seq<Grid>, canPlace: PlaceOracle)
    requires s != [] && Scorable(s, stocks, canPlace)
    ensures s == s[..|s| - 1] + [s[|s| - 1]]
    ensures Scorable(s[..|s| - 1], stocks, canPlace)
    ensures Indexed(s[|s| - 1], stocks)
    ensures Placeable(s[|s| - 1], stocks, canPlace) ==> Measurable(s[|s| - 1], stocks, canPlace)
  {
    assert forall i :: 0 <= i < |s| - 1 ==> s[..|s| - 1][i] == s[i];
  }

  /** The scoring loop marks as used exactly the stocks that hold a placeable action. */
  lemma {:induction false} TallyUsed(s: Solution, stocks: seq<Grid>, canPlace: PlaceOracle)
    requires Scorable(s, stocks, canPlace)
    ensures TallyOf(s, stocks, canPlace).used == UsedStocks(s, stocks, canPlace)
  {
    if s != [] {
      SplitLast(s, stocks, canPlace);
      var init := s[..|s| - 1];
      var a := s[|s| - 1];
      TallyUsed(init, stocks, canPlace);
      UsedStocksAppend(init, a, stocks, canPlace);
      assert TallyOf(s, stocks, canPlace) == Record(TallyOf(init, stocks, canPlace), a, stocks, canPlace);
    }
  }

  /**
   * Reference form: the score is the sum over placeable actions of
   * (trim loss - share of its stock), plus 0.5 per distinct used stock.
   */
  lemma {:induction false} ScoreClosedForm(s: Solution, stocks: seq<Grid>, canPlace: PlaceOracle)
    requires Scorable(s, stocks, canPlace)
    ensures Score(s, stocks, canPlace)
            == GainSum(s, stocks, canPlace) + 0.5 * |UsedStocks(s, stocks, canPlace)| as real
  {
    if s == [] {
      UtilizationNoneUsed(TallyOf(s, stocks, canPlace), stocks, |stocks|);
    } else {
      SplitLast(s, stocks, canPlace);
      var init := s[..|s| - 1];
      var a := s[|s| - 1];
      ScoreAppend(init, a, stocks, canPlace);
      ScoreClosedForm(init, stocks, canPlace);
      UsedStocksAppend(init, a, stocks, canPlace);
      var u := UsedStocks(init, stocks, canPlace);
      if Placeable(a, stocks, canPlace) && a.stockIdx !in u {
        assert |u + {a.stockIdx}| == |u| + 1;
      }
    }
  }

  /** Appending an action that cannot be placed leaves the score unchanged. */
  lemma ScoreSkipsUnplaceable(s: Solution, a: Action, stocks: seq<Grid>, canPlace: PlaceOracle)
    requires Scorable(s, stocks, canPlace) && Indexed(a, stocks) && !Placeable(a, stocks, canPlace)
    ensures Scorable(s + [a], stocks, canPlace)
    ensures Score(s + [a], stocks, canPlace) == Score(s, stocks, canPlace)
  {
    ScoreAppend(s, a, stocks, canPlace);
  }

  /** A solution none of whose actions can be placed scores exactly 0. */
  lemma {:induction false} ScoreNothingPlaceable(s: Solution, stocks: seq<Grid>, canPlace: PlaceOracle)
    requires Scorable(s, stocks, canPlace)
    requires forall i :: 0 <= i < |s| ==> !Placeable(s[i], stocks, canPlace)
    ensures Score(s, stocks, canPlace) == 0.0
  {
    if s == [] {
      UtilizationNoneUsed(TallyOf(s, stocks, canPlace), stocks, |stocks|);
    } else {
      SplitLast(s, stocks, canPlace);
      var init := s[..|s| - 1];
      ScoreSkipsUnplaceable(init, s[|s| - 1], stocks, canPlace);
      ScoreNothingPlaceable(init, stocks, canPlace);
    }
  }

  lemma {:induction false} GainSumConcat(s1: Solution, s2: Solution, stocks: seq<Grid>, canPlace: PlaceOracle)
    requires Scorable(s1 + s2, stocks, canPlace)
    ensures Scorable(s1, stocks, canPlace) && Scorable(s2, stocks, canPlace)
    ensures GainSum(s1 + s2, stocks, canPlace) == GainSum(s1, stocks, canPlace) + GainSum(s2, stocks, canPlace)
  {
    var s := s1 + s2;
    assert forall i :: 0 <= i < |s1| ==> s[i] == s1[i];
    assert forall i :: 0 <= i < |s2| ==> s[|s1| + i] == s2[i];
    if s2 != [] {
      var init := s2[..|s2| - 1];
      assert s[..|s| - 1] == s1 + init;
      GainSumConcat(s1, init, stocks, canPlace);
    } else {
      assert s == s1;
    }
  }

  lemma UsedStocksConcat(s1: Solution, s2: Solution, stocks: seq<Grid>, canPlace: PlaceOracle)
    ensures UsedStocks(s1 + s2, stocks, canPlace)
            == UsedStocks(s1, stocks, canPlace) + UsedStocks(s2, stocks, canPlace)
  {
    var s := s1 + s2;
    forall k ensures k in UsedStocks(s, stocks, canPlace)
                     <==> k in UsedStocks(s1, stocks, canPlace) + UsedStocks(s2, stocks, canPlace)
    {
      if k in UsedStocks(s, stocks, canPlace) {
        var i :| 0 <= i < |s| && Placeable(s[i], stocks, canPlace) && s[i].stockIdx == k;
        if i < |s1| {
          assert s[i] == s1[i];
        } else {
          assert s[i] == s2[i - |s1|];
        }
      }
      if k in UsedStocks(s1, stocks, canPlace) {
        var i :| 0 <= i < |s1| && Placeable(s1[i], stocks, canPlace) && s1[i].stockIdx == k;
        assert s[i] == s1[i];
      }
      if k in UsedStocks(s2, stocks, canPlace) {
        var i :| 0 <= i < |s2| && Placeable(s2[i], stocks, canPlace) && s2[i].stockIdx == k;
        assert s[|s1| + i] == s2[i];
      }
    }
  }

  lemma ScorableConcat(s1: Solution, s2: Solution, stocks: seq<Grid>, canPlace: PlaceOracle)
    requires Scorable(s1, stocks, canPlace) && Scorable(s2, stocks, canPlace)
    ensures Scorable(s1 + s2, stocks, canPlace)
  {
    var s := s1 + s2;
    forall i | 0 <= i < |s| ensures Indexed(s[i], stocks)
      && (Placeable(s[i], stocks, canPlace) ==> Measurable(s[i], stocks, canPlace))
    {
      if i < |s1| {
        assert s[i] == s1[i];
      } else {
        assert s[i] == s2[i - |s1|];
      }
    }
  }

  /** The order of actions does not matter to the score: swapping two halves keeps it. */
  lemma ScoreSwapHalves(s1: Solution, s2: Solution, stocks: seq<Grid>, canPlace: PlaceOracle)
    requires Scorable(s1 + s2, stocks, canPlace)
    ensures Scorable(s2 + s1, stocks, canPlace)
    ensures Score(s1 + s2, stocks, canPlace) == Score(s2 + s1, stocks, canPlace)
  {
    GainSumConcat(s1, s2, stocks, canPlace);
    ScorableConcat(s2, s1, stocks, canPlace);
    GainSumConcat(s2, s1, stocks, canPlace);
    UsedStocksConcat(s1, s2, stocks, canPlace);
    UsedStocksConcat(s2, s1, stocks, canPlace);
    ScoreClosedForm(s1 + s2, stocks, canPlace);
    ScoreClosedForm(s2 + s1, stocks, canPlace);
    assert UsedStocks(s1 + s2, stocks, canPlace) == UsedStocks(s2 + s1, stocks, canPlace);
  }
}
