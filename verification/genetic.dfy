/**
 * The genetic-algorithm policies. A run starts from a population of random
 * solutions and repeats, for a fixed number of generations: score every
 * solution, keep the better half unchanged (truncation selection), refill the
 * population with children of two distinct survivors, and mutate each child
 * when its gate draw falls below the mutation rate. The action returned is
 * the first valid action of the fittest final solution, or else the first
 * action of a fresh random solution.
 *
 * The two variants differ only in their mutation operator and constants:
 * `RandomSlot` (population 30, 150 generations, rate 0.3) overwrites a random
 * slot with a random placement; `WorstSlot` (population 100, 100 generations,
 * rate 0.1) overwrites the slot of greatest trim loss with the first feasible
 * unrotated placement.
 *
 * Every random draw is an explicit argument (see `RandomOps`). The draws of
 * a generation are grouped per child (parents, cut, gate, mutation), while the
 * source makes all crossover calls before all mutation calls on one stream;
 * every source run is one regrouping of its draws, so the generations that can
 * be reached are the same.
 */
module Genetic {
  import opened Types
  import opened Search
  import opened ProductOrder
  import opened Fitness
  import opened Crossover
  import opened RandomOps
  import opened Placements
  import opened WorstSlotMutation

  datatype Variant = RandomSlot | WorstSlot

  function PopulationSize(v: Variant): nat
  {
    match v
    case RandomSlot => 30
    case WorstSlot => 100
  }

  function Generations(v: Variant): nat
  {
    match v
    case RandomSlot => 150
    case WorstSlot => 100
  }

  function MutationRate(v: Variant): real
  {
    match v
    case RandomSlot => 0.3
    case WorstSlot => 0.1
  }

  /** Every member of the population is non-empty and names existing stocks. */
  predicate Population(pop: seq<Solution>, stocks: seq<Grid>)
  {
    forall i :: 0 <= i < |pop| ==> Viable(pop[i], stocks)
  }

  /** The fitness of every member, in population order. */
  function Scores(pop: seq<Solution>, stocks: seq<Grid>, canPlace: PlaceOracle): (r: seq<real>)
    requires Population(pop, stocks) && AreaGuard(stocks, canPlace)
    ensures |r| == |pop|
    ensures forall i :: 0 <= i < |pop| ==> Scorable(pop[i], stocks, canPlace)
    ensures forall i :: 0 <= i < |pop| ==> r[i] == Score(pop[i], stocks, canPlace)
  {
    if pop == [] then []
    else
      ViableIsScorable(pop[0], stocks, canPlace);
      var tail := pop[1..];
      assert forall i :: 1 <= i < |pop| ==> tail[i - 1] == pop[i];
      [Score(pop[0], stocks, canPlace)] + Scores(tail, stocks, canPlace)
  }

  /**
   * `min(population, key=fitness)`: the position of the first member of least
   * fitness.
   */
  function Fittest(pop: seq<Solution>, stocks: seq<Grid>, canPlace: PlaceOracle): (k: nat)
    requires |pop| > 0 && Population(pop, stocks) && AreaGuard(stocks, canPlace)
    ensures k < |pop|
    ensures forall j :: 0 <= j < |pop| ==> Scores(pop, stocks, canPlace)[k] <= Scores(pop, stocks, canPlace)[j]
    ensures forall j :: 0 <= j < k ==> Scores(pop, stocks, canPlace)[k] < Scores(pop, stocks, canPlace)[j]
  {
    FirstArgMin(Scores(pop, stocks, canPlace)).value
  }

  predicate Distinct(sel: seq<nat>)
  {
    forall i, j :: 0 <= i < j < |sel| ==> sel[i] != sel[j]
  }

  /**
   * What `np.argsort(scores)[:k]` yields: distinct positions of `scores`, in
   * ascending score order, none of them scoring above a position left out.
   */
  predicate TopK(scores: seq<real>, sel: seq<nat>)
  {
    && Distinct(sel)
    && (forall i :: 0 <= i < |sel| ==> sel[i] < |scores|)
    && (forall i, j :: 0 <= i < j < |sel| ==> scores[sel[i]] <= scores[sel[j]])
    && (forall i, j :: 0 <= i < |sel| && 0 <= j < |scores| && j !in sel ==> scores[sel[i]] <= scores[j])
  }

  /** The positions `0 .. n - 1` in order. */
  function Indices(n: nat): (r: seq<nat>)
    ensures |r| == n && forall i :: 0 <= i < n ==> r[i] == i
  {
    if n == 0 then [] else Indices(n - 1) + [n - 1]
  }

  /**
   * The state of the selection sort: `sel` and `rest` split the positions of
   * `scores` between them, `sel` ascends, and nothing in `rest` scores below
   * anything in `sel`.
   */
  predicate Selecting(scores: seq<real>, sel: seq<nat>, rest: seq<nat>)
  {
    && |sel| + |rest| == |scores|
    && Distinct(sel) && Distinct(rest)
    && (forall i :: 0 <= i < |sel| ==> sel[i] < |scores|)
    && (forall t :: 0 <= t < |rest| ==> rest[t] < |scores|)
    && (forall i, t :: 0 <= i < |sel| && 0 <= t < |rest| ==> sel[i] != rest[t])
    && (forall j :: 0 <= j < |scores| ==> j in sel || j in rest)
    && (forall i, j :: 0 <= i < j < |sel| ==> scores[sel[i]] <= scores[sel[j]])
    && (forall i, t :: 0 <= i < |sel| && 0 <= t < |rest| ==> scores[sel[i]] <= scores[rest[t]])
  }

  /** Moving any remaining position to the selection keeps the positions partitioned. */
  lemma MovePartitions(scores: seq<real>, sel: seq<nat>, rest: seq<nat>, m: nat)
    requires Selecting(scores, sel, rest) && m < |rest|
    ensures var sel', rest' := sel + [rest[m]], rest[..m] + rest[m + 1..];
            && |sel'| + |rest'| == |scores|
            && Distinct(sel') && Distinct(rest')
            && (forall i :: 0 <= i < |sel'| ==> sel'[i] < |scores|)
            && (forall t :: 0 <= t < |rest'| ==> rest'[t] < |scores|)
            && (forall i, t :: 0 <= i < |sel'| && 0 <= t < |rest'| ==> sel'[i] != rest'[t])
            && (forall j :: 0 <= j < |scores| ==> j in sel' || j in rest')
  {
    var sel', rest' := sel + [rest[m]], rest[..m] + rest[m + 1..];
    assert forall i :: 0 <= i < |sel'| ==> sel'[i] == if i < |sel| then sel[i] else rest[m];
    assert forall t :: 0 <= t < |rest'| ==> rest'[t] == if t < m then rest[t] else rest[t + 1];
    forall j | 0 <= j < |scores| ensures j in sel' || j in rest' {
      if j !in sel {
        var t :| 0 <= t < |rest| && rest[t] == j;
        if t < m {
          assert rest'[t] == j;
        } else if t > m {
          assert rest'[t - 1] == j;
        } else {
          assert sel'[|sel|] == j;
        }
      } else {
        var i :| 0 <= i < |sel| && sel[i] == j;
        assert sel'[i] == j;
      }
    }
  }

  /** Moving a least-scoring remaining position to the selection keeps the selection ordered. */
  lemma MoveOrders(scores: seq<real>, sel: seq<nat>, rest: seq<nat>, m: nat)
    requires Selecting(scores, sel, rest)
    requires m < |rest| && forall t :: 0 <= t < |rest| ==> scores[rest[m]] <= scores[rest[t]]
    ensures var sel', rest' := sel + [rest[m]], rest[..m] + rest[m + 1..];
            && (forall i, j :: 0 <= i < j < |sel'| ==> scores[sel'[i]] <= scores[sel'[j]])
            && (forall i, t :: 0 <= i < |sel'| && 0 <= t < |rest'| ==> scores[sel'[i]] <= scores[rest'[t]])
  {
    var sel', rest' := sel + [rest[m]], rest[..m] + rest[m + 1..];
    assert forall i :: 0 <= i < |sel'| ==> sel'[i] == if i < |sel| then sel[i] else rest[m];
    assert forall t :: 0 <= t < |rest'| ==> rest'[t] == if t < m then rest[t] else rest[t + 1];
  }

  /** Moving a least-scoring remaining position to the selection keeps the state. */
  lemma SelectStep(scores: seq<real>, sel: seq<nat>, rest: seq<nat>, m: nat)
    requires Selecting(scores, sel, rest)
    requires m < |rest| && forall t :: 0 <= t < |rest| ==> scores[rest[m]] <= scores[rest[t]]
    ensures Selecting(scores, sel + [rest[m]], rest[..m] + rest[m + 1..])
  {
    MovePartitions(scores, sel, rest, m);
    MoveOrders(scores, sel, rest, m);
  }

  /**
   * `np.argsort(scores)[:k]`, as a selection sort that repeatedly moves the
   * first position of least score from the remaining positions to the
   * selection. Among equal scores argsort may order positions differently;
   * every such order satisfies the same contract.
   */
  method SelectTop(scores: seq<real>, k: nat) returns (sel: seq<nat>)
    requires k <= |scores|
    ensures |sel| == k && TopK(scores, sel)
  {
    sel := [];
    var rest: seq<nat> := Indices(|scores|);
    forall j | 0 <= j < |scores| ensures j in rest {
      assert rest[j] == j;
    }
    while |sel| < k
      invariant |sel| <= k && Selecting(scores, sel, rest)
    {
      var costs := seq(|rest|, t requires 0 <= t < |rest| => scores[rest[t]]);
      var m := FirstArgMin(costs).value;
      assert forall t :: 0 <= t < |rest| ==> scores[rest[m]] <= scores[rest[t]] by {
        forall t | 0 <= t < |rest| ensures scores[rest[m]] <= scores[rest[t]] {
          assert costs[m] <= costs[t];
        }
      }
      SelectStep(scores, sel, rest, m);
      sel, rest := sel + [rest[m]], rest[..m] + rest[m + 1..];
    }
    forall i, j | 0 <= i < |sel| && 0 <= j < |scores| && j !in sel ensures scores[sel[i]] <= scores[j] {
      var t :| 0 <= t < |rest| && rest[t] == j;
    }
  }

  /** The first selected position has the least score of all. */
  lemma TopKLeadsWithMinimum(scores: seq<real>, sel: seq<nat>)
    requires TopK(scores, sel) && |sel| > 0
    ensures forall j :: 0 <= j < |scores| ==> scores[sel[0]] <= scores[j]
  {
    forall j | 0 <= j < |scores| ensures scores[sel[0]] <= scores[j] {
      if j in sel {
        var i :| 0 <= i < |sel| && sel[i] == j;
        if i > 0 {
          assert scores[sel[0]] <= scores[sel[i]];
        }
      }
    }
  }

  /** The survivors `[population[i] for i in selected_indices]`. */
  function Survivors(pop: seq<Solution>, sel: seq<nat>): (r: seq<Solution>)
    requires forall i :: 0 <= i < |sel| ==> sel[i] < |pop|
    ensures |r| == |sel|
  {
    seq(|sel|, i requires 0 <= i < |sel| => pop[sel[i]])
  }

  /** `random.sample(range(n), 2)` driven by two raw draws. */
  function Parents(n: nat, d1: nat, d2: nat): (r: (nat, nat))
    requires n >= 2
    ensures r.0 < n && r.1 < n && r.0 != r.1
  {
    var i := RandInt(0, n - 1, d1);
    var j := RandInt(0, n - 2, d2);
    (i, if j >= i then j + 1 else j)
  }

  /** Every ordered pair of distinct positions is drawn by some pair of draws. */
  lemma ParentsReachAll(n: nat, i: nat, j: nat)
    requires i < n && j < n && i != j
    ensures Parents(n, i, if j > i then j - 1 else j) == (i, j)
  {
    var d2 := if j > i then j - 1 else j;
    assert RandInt(0, n - 1, i) == i;
    assert RandInt(0, n - 2, d2) == d2;
  }

  /** Raw draws for one child: the two parents, the cut point, the mutation gate, the mutation. */
  datatype Breed = Breed(first: nat, second: nat, cut: nat, gate: real, mutation: MutationDraw)

  function FirstParent(selected: seq<Solution>, b: Breed): Solution
    requires |selected| >= 2
  {
    selected[Parents(|selected|, b.first, b.second).0]
  }

  function SecondParent(selected: seq<Solution>, b: Breed): Solution
    requires |selected| >= 2
  {
    selected[Parents(|selected|, b.first, b.second).1]
  }

  /** `_mutate` of the variant. At most one slot changes, and the solution stays viable. */
  function Mutate(v: Variant, s: Solution, products: seq<Product>, stocks: seq<Grid>, canPlace: PlaceOracle,
                  stockSize: SizeOracle, d: MutationDraw): (r: Solution)
    requires Viable(s, stocks) && |stocks| > 0 && |products| > 0 && AreaGuard(stocks, canPlace)
    ensures |r| == |s| && Viable(r, stocks)
    ensures forall i, j :: 0 <= i < |s| && 0 <= j < |s| && r[i] != s[i] && r[j] != s[j] ==> i == j
  {
    match v
    case RandomSlot => RandomMutate(s, products, stocks, stockSize, d)
    case WorstSlot =>
      ViableIsScorable(s, stocks, canPlace);
      WorstMutate(s, products, stocks, canPlace, stockSize)
  }

  /**
   * `_crossover` of the two chosen survivors, at the cut point drawn for them:
   * a viable child made of their actions only.
   */
  function Crossed(selected: seq<Solution>, b: Breed, stocks: seq<Grid>): (c: Solution)
    requires |selected| >= 2 && Population(selected, stocks)
    ensures Inherits(c, FirstParent(selected, b), SecondParent(selected, b), false, stocks)
  {
    var p1, p2 := FirstParent(selected, b), SecondParent(selected, b);
    var k := RandInt(0, |p1| - 1, b.cut);
    CrossInherits(p1, p2, k, stocks);
    Cross(p1, p2, k)
  }

  /**
   * What a child keeps of its parents `p1` and `p2`: it is viable, at most one
   * of its actions comes from neither parent, and none does unless it was
   * `mutated`.
   */
  predicate Inherits(c: Solution, p1: Solution, p2: Solution, mutated: bool, stocks: seq<Grid>)
  {
    && Viable(c, stocks)
    && (!mutated ==> forall t :: 0 <= t < |c| ==> c[t] in p1 || c[t] in p2)
    && (forall t, u :: 0 <= t < |c| && 0 <= u < |c| && c[t] !in p1 && c[t] !in p2 && c[u] !in p1 && c[u] !in p2 ==> t == u)
  }

  /**
   * The child one breeding draw produces: the crossover of two distinct
   * survivors, mutated by the variant's operator when the gate draw is below
   * the mutation rate. It keeps what it inherits from its two parents.
   */
  function ChildOf(v: Variant, selected: seq<Solution>, products: seq<Product>, stocks: seq<Grid>, canPlace: PlaceOracle,
                   stockSize: SizeOracle, b: Breed): (c: Solution)
    requires |selected| >= 2 && Population(selected, stocks)
    requires |stocks| > 0 && |products| > 0 && AreaGuard(stocks, canPlace)
    ensures Inherits(c, FirstParent(selected, b), SecondParent(selected, b), b.gate < MutationRate(v), stocks)
  {
    var crossed := Crossed(selected, b, stocks);
    if b.gate < MutationRate(v) then
      var c := Mutate(v, crossed, products, stocks, canPlace, stockSize, b.mutation);
      MutatedInherits(crossed, c, FirstParent(selected, b), SecondParent(selected, b), stocks);
      c
    else crossed
  }

  /**
   * What the variant's mutation does to a child: nothing when the gate draw is
   * not below the rate; otherwise the child is the mutated crossover, which
   * differs from the crossover in at most one slot.
   */
  lemma ChildOfMeans(v: Variant, selected: seq<Solution>, products: seq<Product>, stocks: seq<Grid>, canPlace: PlaceOracle,
                     stockSize: SizeOracle, b: Breed)
    requires |selected| >= 2 && Population(selected, stocks)
    requires |stocks| > 0 && |products| > 0 && AreaGuard(stocks, canPlace)
    ensures var c := ChildOf(v, selected, products, stocks, canPlace, stockSize, b);
            && |c| == |Crossed(selected, b, stocks)|
            && (b.gate >= MutationRate(v) ==> c == Crossed(selected, b, stocks))
            && (b.gate < MutationRate(v) ==> c == Mutate(v, Crossed(selected, b, stocks), products, stocks, canPlace, stockSize, b.mutation))
            && forall t, u :: 0 <= t < |c| && 0 <= u < |c| && c[t] != Crossed(selected, b, stocks)[t] && c[u] != Crossed(selected, b, stocks)[u]
                 ==> t == u
  {
  }

  /** The crossover of two viable parents is viable and made of their actions only. */
  lemma CrossInherits(p1: Solution, p2: Solution, k: nat, stocks: seq<Grid>)
    requires k < |p1| && Viable(p1, stocks) && Viable(p2, stocks)
    ensures Inherits(Cross(p1, p2, k), p1, p2, false, stocks)
  {
    var crossed := Cross(p1, p2, k);
    CrossFromParents(p1, p2, k);
    CrossNonEmpty(p1, p2, k);
    assert forall t :: 0 <= t < |crossed| ==> crossed[t] in p1 || crossed[t] in p2 by {
      forall t | 0 <= t < |crossed| ensures crossed[t] in p1 || crossed[t] in p2 {
        assert crossed[t] in crossed;
      }
    }
    assert Viable(crossed, stocks) by {
      forall t | 0 <= t < |crossed| ensures Indexed(crossed[t], stocks) {
        assert crossed[t] in p1 || crossed[t] in p2;
      }
    }
  }

  /** Changing at most one slot of an inheriting child leaves at most one foreign action. */
  lemma MutatedInherits(crossed: Solution, c: Solution, p1: Solution, p2: Solution, stocks: seq<Grid>)
    requires Inherits(crossed, p1, p2, false, stocks)
    requires |c| == |crossed| && Viable(c, stocks)
    requires forall t, u :: 0 <= t < |c| && 0 <= u < |c| && c[t] != crossed[t] && c[u] != crossed[u] ==> t == u
    ensures Inherits(c, p1, p2, true, stocks)
  {
    forall t, u | 0 <= t < |c| && 0 <= u < |c| && c[t] !in p1 && c[t] !in p2 && c[u] !in p1 && c[u] !in p2
      ensures t == u
    {
      assert crossed[t] in p1 || crossed[t] in p2;
      assert crossed[u] in p1 || crossed[u] in p2;
    }
  }

  /** The children of the first `n` breeding draws, in draw order, for a given way of breeding. */
  function Brood(child: Breed -> Solution, breeds: seq<Breed>, n: nat): (r: seq<Solution>)
    requires n <= |breeds|
    ensures |r| == n
  {
    if n == 0 then [] else Brood(child, breeds, n - 1) + [child(breeds[n - 1])]
  }

  /** Child `t` of a brood is the child of breeding draw `t`. */
  lemma {:induction false} BroodAt(child: Breed -> Solution, breeds: seq<Breed>, n: nat, t: nat)
    requires t < n <= |breeds|
    ensures Brood(child, breeds, n)[t] == child(breeds[t])
  {
    if t < n - 1 {
      BroodAt(child, breeds, n - 1, t);
    }
  }

  /** How one generation breeds: `ChildOf` with everything but the draw fixed. */
  function Breeder(v: Variant, selected: seq<Solution>, products: seq<Product>, stocks: seq<Grid>, canPlace: PlaceOracle,
                   stockSize: SizeOracle): Breed -> Solution
    requires |selected| >= 2 && Population(selected, stocks)
    requires |stocks| > 0 && |products| > 0 && AreaGuard(stocks, canPlace)
  {
    b => ChildOf(v, selected, products, stocks, canPlace, stockSize, b)
  }

  /** The brood of one generation, child by child. */
  lemma BroodChildren(v: Variant, selected: seq<Solution>, products: seq<Product>, stocks: seq<Grid>, canPlace: PlaceOracle,
                      stockSize: SizeOracle, breeds: seq<Breed>, n: nat)
    requires |selected| >= 2 && Population(selected, stocks)
    requires |stocks| > 0 && |products| > 0 && AreaGuard(stocks, canPlace)
    requires n <= |breeds|
    ensures var r := Brood(Breeder(v, selected, products, stocks, canPlace, stockSize), breeds, n);
            forall t :: 0 <= t < n ==> r[t] == ChildOf(v, selected, products, stocks, canPlace, stockSize, breeds[t])
  {
    forall t | 0 <= t < n
      ensures Brood(Breeder(v, selected, products, stocks, canPlace, stockSize), breeds, n)[t]
              == ChildOf(v, selected, products, stocks, canPlace, stockSize, breeds[t])
    {
      BroodAt(Breeder(v, selected, products, stocks, canPlace, stockSize), breeds, n, t);
    }
  }

  /**
   * The children of one generation: one per breeding draw, `n` in all, each
   * inheriting from the two survivors its draw chose.
   */
  method Offspring(v: Variant, selected: seq<Solution>, products: seq<Product>, stocks: seq<Grid>, canPlace: PlaceOracle,
                   stockSize: SizeOracle, breeds: seq<Breed>, n: nat) returns (offspring: seq<Solution>)
    requires |selected| >= 2 && Population(selected, stocks)
    requires |stocks| > 0 && |products| > 0 && AreaGuard(stocks, canPlace)
    requires n <= |breeds|
    ensures |offspring| == n
    ensures offspring == Brood(Breeder(v, selected, products, stocks, canPlace, stockSize), breeds, n)
    ensures forall t :: 0 <= t < n ==> offspring[t] == ChildOf(v, selected, products, stocks, canPlace, stockSize, breeds[t])
    ensures forall t :: 0 <= t < n ==>
              Inherits(offspring[t], FirstParent(selected, breeds[t]), SecondParent(selected, breeds[t]),
                       breeds[t].gate < MutationRate(v), stocks)
  {
    var breed := Breeder(v, selected, products, stocks, canPlace, stockSize);
    offspring := [];
    while |offspring| < n
      invariant |offspring| <= n
      invariant offspring == Brood(breed, breeds, |offspring|)
    {
      var child := breed(breeds[|offspring|]);
      assert Brood(breed, breeds, |offspring| + 1) == Brood(breed, breeds, |offspring|) + [child];
      offspring := offspring + [child];
    }
    BroodChildren(v, selected, products, stocks, canPlace, stockSize, breeds, n);
    BroodInherits(v, selected, products, stocks, canPlace, stockSize, breeds, n);
  }

  /** Every child of a brood inherits from the two survivors its draw chose. */
  lemma BroodInherits(v: Variant, selected: seq<Solution>, products: seq<Product>, stocks: seq<Grid>, canPlace: PlaceOracle,
                      stockSize: SizeOracle, breeds: seq<Breed>, n: nat)
    requires |selected| >= 2 && Population(selected, stocks)
    requires |stocks| > 0 && |products| > 0 && AreaGuard(stocks, canPlace)
    requires n <= |breeds|
    ensures var r := Brood(Breeder(v, selected, products, stocks, canPlace, stockSize), breeds, n);
            forall t :: 0 <= t < n ==>
              Inherits(r[t], FirstParent(selected, breeds[t]), SecondParent(selected, breeds[t]),
                       breeds[t].gate < MutationRate(v), stocks)
  {
    forall t | 0 <= t < n
      ensures Inherits(Brood(Breeder(v, selected, products, stocks, canPlace, stockSize), breeds, n)[t],
                       FirstParent(selected, breeds[t]), SecondParent(selected, breeds[t]), breeds[t].gate < MutationRate(v), stocks)
    {
      BroodAt(Breeder(v, selected, products, stocks, canPlace, stockSize), breeds, n, t);
    }
  }

  /**
   * The selection half of a generation: the better half by fitness, in
   * ascending fitness order, led by a member of least fitness.
   */
  method Selection(pop: seq<Solution>, stocks: seq<Grid>, canPlace: PlaceOracle) returns (selected: seq<Solution>, sel: seq<nat>)
    requires |pop| >= 4 && Population(pop, stocks) && AreaGuard(stocks, canPlace)
    ensures |sel| == |pop| / 2 && TopK(Scores(pop, stocks, canPlace), sel)
    ensures selected == Survivors(pop, sel) && Population(selected, stocks)
    ensures forall i :: 0 <= i < |sel| ==> selected[i] == pop[sel[i]]
    ensures forall j :: 0 <= j < |pop| ==> Score(selected[0], stocks, canPlace) <= Score(pop[j], stocks, canPlace)
  {
    var scores := Scores(pop, stocks, canPlace);
    sel := SelectTop(scores, |pop| / 2);
    selected := Survivors(pop, sel);
    assert forall i :: 0 <= i < |sel| ==> selected[i] == pop[sel[i]];
    TopKLeadsWithMinimum(scores, sel);
  }

  /**
   * `next` is bred from `pop` by keeping the members at positions `sel`, in
   * that order, and adding the children of the draws, one per missing member.
   */
  ghost predicate Bred(v: Variant, pop: seq<Solution>, next: seq<Solution>, sel: seq<nat>, products: seq<Product>,
                       stocks: seq<Grid>, canPlace: PlaceOracle, stockSize: SizeOracle, breeds: seq<Breed>)
  {
    && |pop| >= 4 && Population(pop, stocks)
    && |stocks| > 0 && |products| > 0 && AreaGuard(stocks, canPlace)
    && |breeds| >= |pop| - |pop| / 2
    && |sel| == |pop| / 2 && (forall i :: 0 <= i < |sel| ==> sel[i] < |pop|)
    && next == Survivors(pop, sel) + Brood(Breeder(v, Survivors(pop, sel), products, stocks, canPlace, stockSize), breeds, |pop| - |sel|)
  }

  /**
   * `next` is the generation bred from `pop` with breeding draws `breeds`:
   * the survivors `sel`, the lowest-scoring half in ascending score order,
   * followed by the children of the draws, one per missing member.
   */
  ghost predicate GenerationStep(v: Variant, pop: seq<Solution>, next: seq<Solution>, sel: seq<nat>, products: seq<Product>,
                                 stocks: seq<Grid>, canPlace: PlaceOracle, stockSize: SizeOracle, breeds: seq<Breed>)
  {
    && Bred(v, pop, next, sel, products, stocks, canPlace, stockSize, breeds)
    && TopK(Scores(pop, stocks, canPlace), sel)
  }

  /**
   * One generation: the better half of `pop` by fitness, unchanged and in
   * ascending fitness order, followed by one child per breeding draw until
   * the population is full again. The first survivor has the least fitness
   * of the old population.
   */
  method NextGeneration(v: Variant, pop: seq<Solution>, products: seq<Product>, stocks: seq<Grid>, canPlace: PlaceOracle,
                        stockSize: SizeOracle, breeds: seq<Breed>) returns (next: seq<Solution>, sel: seq<nat>)
    requires |pop| >= 4 && Population(pop, stocks)
    requires |stocks| > 0 && |products| > 0 && AreaGuard(stocks, canPlace)
    requires |breeds| >= |pop| - |pop| / 2
    ensures |next| == |pop| && Population(next, stocks)
    ensures |sel| == |pop| / 2 && TopK(Scores(pop, stocks, canPlace), sel)
    ensures forall i :: 0 <= i < |sel| ==> next[i] == pop[sel[i]]
    ensures GenerationStep(v, pop, next, sel, products, stocks, canPlace, stockSize, breeds)
    ensures forall t :: 0 <= t < |pop| - |sel| ==>
              next[|sel| + t] == ChildOf(v, Survivors(pop, sel), products, stocks, canPlace, stockSize, breeds[t])
    ensures forall t :: 0 <= t < |pop| - |sel| ==>
              Inherits(next[|sel| + t], FirstParent(Survivors(pop, sel), breeds[t]), SecondParent(Survivors(pop, sel), breeds[t]),
                       breeds[t].gate < MutationRate(v), stocks)
    ensures forall j :: 0 <= j < |pop| ==> Score(next[0], stocks, canPlace) <= Score(pop[j], stocks, canPlace)
  {
    var selected;
    selected, sel := Selection(pop, stocks, canPlace);
    var offspring := Offspring(v, selected, products, stocks, canPlace, stockSize, breeds, |pop| - |selected|);
    next := selected + offspring;
    assert next[0] == selected[0];
    StepKeepsSurvivors(v, pop, next, sel, products, stocks, canPlace, stockSize, breeds);
    StepChildren(v, pop, next, sel, products, stocks, canPlace, stockSize, breeds);
    StepInherits(v, pop, next, sel, products, stocks, canPlace, stockSize, breeds);
  }

  /** A bred generation has the old size, starts with the survivors, and stays viable. */
  lemma StepKeepsSurvivors(v: Variant, pop: seq<Solution>, next: seq<Solution>, sel: seq<nat>, products: seq<Product>,
                           stocks: seq<Grid>, canPlace: PlaceOracle, stockSize: SizeOracle, breeds: seq<Breed>)
    requires Bred(v, pop, next, sel, products, stocks, canPlace, stockSize, breeds)
    ensures |next| == |pop| && Population(next, stocks)
    ensures forall i :: 0 <= i < |sel| ==> next[i] == pop[sel[i]]
  {
    var selected := Survivors(pop, sel);
    StepInherits(v, pop, next, sel, products, stocks, canPlace, stockSize, breeds);
    forall i | 0 <= i < |next| ensures Viable(next[i], stocks) {
      if i < |sel| {
        assert next[i] == selected[i];
      } else {
        var t := i - |sel|;
        assert Inherits(next[|sel| + t], FirstParent(selected, breeds[t]), SecondParent(selected, breeds[t]),
                        breeds[t].gate < MutationRate(v), stocks);
      }
    }
  }

  /** Member `|sel| + t` of a bred generation is the child of breeding draw `t`. */
  lemma StepChildren(v: Variant, pop: seq<Solution>, next: seq<Solution>, sel: seq<nat>, products: seq<Product>,
                     stocks: seq<Grid>, canPlace: PlaceOracle, stockSize: SizeOracle, breeds: seq<Breed>)
    requires Bred(v, pop, next, sel, products, stocks, canPlace, stockSize, breeds)
    ensures |next| == |pop|
    ensures forall t :: 0 <= t < |pop| - |sel| ==>
              next[|sel| + t] == ChildOf(v, Survivors(pop, sel), products, stocks, canPlace, stockSize, breeds[t])
  {
    var selected := Survivors(pop, sel);
    var n := |pop| - |sel|;
    BroodChildren(v, selected, products, stocks, canPlace, stockSize, breeds, n);
    var offspring := Brood(Breeder(v, selected, products, stocks, canPlace, stockSize), breeds, n);
    assert forall t :: 0 <= t < n ==> next[|sel| + t] == offspring[t];
  }

  /** Member `|sel| + t` of a bred generation inherits from the survivors that breeding draw `t` picks. */
  lemma StepInherits(v: Variant, pop: seq<Solution>, next: seq<Solution>, sel: seq<nat>, products: seq<Product>,
                     stocks: seq<Grid>, canPlace: PlaceOracle, stockSize: SizeOracle, breeds: seq<Breed>)
    requires Bred(v, pop, next, sel, products, stocks, canPlace, stockSize, breeds)
    ensures |next| == |pop|
    ensures forall t :: 0 <= t < |pop| - |sel| ==>
              Inherits(next[|sel| + t], FirstParent(Survivors(pop, sel), breeds[t]), SecondParent(Survivors(pop, sel), breeds[t]),
                       breeds[t].gate < MutationRate(v), stocks)
  {
    var selected := Survivors(pop, sel);
    var n := |pop| - |sel|;
    BroodInherits(v, selected, products, stocks, canPlace, stockSize, breeds, n);
    var offspring := Brood(Breeder(v, selected, products, stocks, canPlace, stockSize), breeds, n);
    assert forall t :: 0 <= t < n ==> next[|sel| + t] == offspring[t];
  }

  /** `_is_action_valid`: a product with demand has exactly this size, and the stock accepts it there. */
  predicate Valid(a: Action, products: seq<Product>, stocks: seq<Grid>, canPlace: PlaceOracle)
  {
    && (exists p :: p in products && p.size == a.size && p.quantity > 0)
    && Placeable(a, stocks, canPlace)
  }

  function ValidTest(products: seq<Product>, stocks: seq<Grid>, canPlace: PlaceOracle): Action -> bool
  {
    (a: Action) => Valid(a, products, stocks, canPlace)
  }

  /**
   * A valid action that lies within its stock is exactly a feasible unrotated
   * candidate of a product with demand, as the brute-force and worst-slot
   * scans enumerate them.
   */
  lemma ValidIsFeasibleCandidate(a: Action, products: seq<Product>, stocks: seq<Grid>, canPlace: PlaceOracle, stockSize: SizeOracle)
    requires Indexed(a, stocks)
    ensures Valid(a, products, stocks, canPlace) && Fits(a, stockSize(stocks[a.stockIdx]))
            <==> Placeable(a, stocks, canPlace) && IsDemandCandidate(At(a, stocks, stockSize), products, stocks, stockSize, false)
  {
    var c := At(a, stocks, stockSize);
    if Valid(a, products, stocks, canPlace) && Fits(a, stockSize(stocks[a.stockIdx])) {
      var p :| p in products && p.size == a.size && p.quantity > 0;
      var k :| 0 <= k < |products| && products[k] == p;
      assert IsCandidate(c, products[k].size, stocks, stockSize, false);
    }
    if Placeable(a, stocks, canPlace) && IsDemandCandidate(c, products, stocks, stockSize, false) {
      var k :| 0 <= k < |products| && products[k].quantity > 0 && IsCandidate(c, products[k].size, stocks, stockSize, false);
      assert products[k] in products;
    }
  }

  predicate FirstValidAt(s: Solution, products: seq<Product>, stocks: seq<Grid>, canPlace: PlaceOracle, k: nat)
  {
    k < |s| && Valid(s[k], products, stocks, canPlace) && forall j :: 0 <= j < k ==> !Valid(s[j], products, stocks, canPlace)
  }

  /** The search for a valid action stops at the first one, and only fails when there is none. */
  lemma FindValid(best: Solution, products: seq<Product>, stocks: seq<Grid>, canPlace: PlaceOracle)
    ensures match FirstWhere(best, ValidTest(products, stocks, canPlace))
            case None => forall j :: 0 <= j < |best| ==> !Valid(best[j], products, stocks, canPlace)
            case Some(k) => forall k': nat :: FirstValidAt(best, products, stocks, canPlace, k') <==> k' == k
  {
    var f := ValidTest(products, stocks, canPlace);
    assert forall a :: f(a) == Valid(a, products, stocks, canPlace);
  }

  /**
   * The action returned from the fittest solution: its first valid action, or,
   * when it has none, the first action of a fresh random solution (a random
   * placement of the first product with demand).
   */
  function Extract(best: Solution, products: seq<Product>, stocks: seq<Grid>, canPlace: PlaceOracle, stockSize: SizeOracle,
                   draws: seq<Draw>): (r: Action)
    requires HasDemand(products) && |stocks| > 0 && |draws| >= |Demand(products)|
    ensures Indexed(r, stocks)
    ensures forall k: nat :: FirstValidAt(best, products, stocks, canPlace, k) ==> r == best[k]
    ensures (forall j :: 0 <= j < |best| ==> !Valid(best[j], products, stocks, canPlace)) ==>
              r == RandomPlacement(Demand(products)[0], stocks, stockSize, draws[0])
  {
    FindValid(best, products, stocks, canPlace);
    match FirstWhere(best, ValidTest(products, stocks, canPlace))
    case Some(k) => best[k]
    case None => Generate(products, stocks, stockSize, draws)[0]
  }

  /** Whether `best` has a valid action; if so, the extracted action is valid and one of its actions. */
  lemma ExtractMeans(best: Solution, products: seq<Product>, stocks: seq<Grid>, canPlace: PlaceOracle, stockSize: SizeOracle,
                     draws: seq<Draw>)
    requires HasDemand(products) && |stocks| > 0 && |draws| >= |Demand(products)|
    ensures (exists j :: 0 <= j < |best| && Valid(best[j], products, stocks, canPlace)) ==>
              var r := Extract(best, products, stocks, canPlace, stockSize, draws);
              r in best && Valid(r, products, stocks, canPlace)
    ensures (forall j :: 0 <= j < |best| ==> !Valid(best[j], products, stocks, canPlace)) ==>
              InGeneratorRange(Extract(best, products, stocks, canPlace, stockSize, draws), Demand(products)[0].size, stocks, stockSize)
  {
    var f := ValidTest(products, stocks, canPlace);
    match FirstWhere(best, f)
    case Some(k) =>
      assert f(best[k]);
      assert FirstValidAt(best, products, stocks, canPlace, k) by {
        forall j | 0 <= j < k ensures !Valid(best[j], products, stocks, canPlace) {
          assert !f(best[j]);
        }
      }
    case None =>
      assert forall j :: 0 <= j < |best| ==> !Valid(best[j], products, stocks, canPlace) by {
        forall j | 0 <= j < |best| ensures !Valid(best[j], products, stocks, canPlace) {
          assert !f(best[j]);
        }
      }
  }

  /** The initial population: one random solution per row of draws. */
  function InitialPopulation(products: seq<Product>, stocks: seq<Grid>, stockSize: SizeOracle, initial: seq<seq<Draw>>): (pop: seq<Solution>)
    requires |stocks| > 0
    requires forall i :: 0 <= i < |initial| ==> |initial[i]| >= |products|
    ensures |pop| == |initial|
    ensures forall i :: 0 <= i < |pop| ==> pop[i] == Generate(products, stocks, stockSize, initial[i])
    ensures forall i :: 0 <= i < |pop| ==> |pop[i]| == |Demand(products)| && AllIndexed(pop[i], stocks)
    ensures HasDemand(products) ==> Population(pop, stocks)
  {
    seq(|initial|, i requires 0 <= i < |initial| => Generate(products, stocks, stockSize, initial[i]))
  }

  /** All raw draws of one run: the initial solutions, the children of each generation, the fallback. */
  datatype Run = Run(initial: seq<seq<Draw>>, breeds: seq<seq<Breed>>, fallback: seq<Draw>)

  /** The run supplies a draw for every random call the variant makes. */
  predicate Enough(v: Variant, products: seq<Product>, run: Run)
  {
    && |run.initial| == PopulationSize(v)
    && (forall i :: 0 <= i < |run.initial| ==> |run.initial[i]| >= |products|)
    && |run.breeds| == Generations(v)
    && (forall g :: 0 <= g < |run.breeds| ==> |run.breeds[g]| >= PopulationSize(v) - PopulationSize(v) / 2)
    && |run.fallback| >= |products|
  }

  /** The least fitness in a population. */
  function BestScore(pop: seq<Solution>, stocks: seq<Grid>, canPlace: PlaceOracle): (m: real)
    requires |pop| > 0 && Population(pop, stocks) && AreaGuard(stocks, canPlace)
    ensures forall j :: 0 <= j < |pop| ==> m <= Scores(pop, stocks, canPlace)[j]
    ensures m == Score(pop[Fittest(pop, stocks, canPlace)], stocks, canPlace)
  {
    Scores(pop, stocks, canPlace)[Fittest(pop, stocks, canPlace)]
  }

  /**
   * One pass of the generations loop: the generation bred from `pop` with
   * the survivors `sel`, which keeps the size and viability, and whose least
   * fitness never increases (elitism).
   */
  method Generation(v: Variant, pop: seq<Solution>, products: seq<Product>, stocks: seq<Grid>, canPlace: PlaceOracle,
                    stockSize: SizeOracle, breeds: seq<Breed>) returns (next: seq<Solution>, sel: seq<nat>)
    requires |pop| >= 4 && Population(pop, stocks)
    requires |stocks| > 0 && |products| > 0 && AreaGuard(stocks, canPlace)
    requires |breeds| >= |pop| - |pop| / 2
    ensures |next| == |pop| && Population(next, stocks)
    ensures |sel| == |pop| / 2 && TopK(Scores(pop, stocks, canPlace), sel)
    ensures forall i :: 0 <= i < |sel| ==> next[i] == pop[sel[i]]
    ensures forall t :: 0 <= t < |pop| - |sel| ==>
              next[|sel| + t] == ChildOf(v, Survivors(pop, sel), products, stocks, canPlace, stockSize, breeds[t])
    ensures GenerationStep(v, pop, next, sel, products, stocks, canPlace, stockSize, breeds)
    ensures BestScore(next, stocks, canPlace) <= BestScore(pop, stocks, canPlace)
  {
    next, sel := NextGeneration(v, pop, products, stocks, canPlace, stockSize, breeds);
    StepElitism(v, pop, next, sel, products, stocks, canPlace, stockSize, breeds);
  }

  /** Elitism: a bred generation is at least as fit at its best as the population it was bred from. */
  lemma StepElitism(v: Variant, pop: seq<Solution>, next: seq<Solution>, sel: seq<nat>, products: seq<Product>,
                    stocks: seq<Grid>, canPlace: PlaceOracle, stockSize: SizeOracle, breeds: seq<Breed>)
    requires GenerationStep(v, pop, next, sel, products, stocks, canPlace, stockSize, breeds)
    ensures |next| == |pop| && Population(next, stocks)
    ensures BestScore(next, stocks, canPlace) <= BestScore(pop, stocks, canPlace)
  {
    StepKeepsSurvivors(v, pop, next, sel, products, stocks, canPlace, stockSize, breeds);
    TopKLeadsWithMinimum(Scores(pop, stocks, canPlace), sel);
    assert next[0] == pop[sel[0]];
    assert BestScore(next, stocks, canPlace) <= Scores(next, stocks, canPlace)[0];
  }

  /** The populations of a run, one per generation and the initial one first, with each generation's survivors. */
  datatype History = History(pops: seq<seq<Solution>>, sels: seq<seq<nat>>)

  /**
   * `h` records a run of `|breeds|` generations: population `g + 1` is the
   * generation bred from population `g` with the draws `breeds[g]`, and every
   * population has the size and viability of the first.
   */
  ghost predicate Evolution(v: Variant, h: History, products: seq<Product>, stocks: seq<Grid>, canPlace: PlaceOracle,
                      stockSize: SizeOracle, breeds: seq<seq<Breed>>)
    requires |stocks| > 0 && |products| > 0 && AreaGuard(stocks, canPlace)
  {
    && |h.pops| == |breeds| + 1 && |h.sels| == |breeds|
    && |h.pops[0]| >= 4
    && (forall g :: 0 <= g < |h.pops| ==> |h.pops[g]| == |h.pops[0]| && Population(h.pops[g], stocks))
    && (forall g :: 0 <= g < |breeds| ==>
          GenerationStep(v, h.pops[g], h.pops[g + 1], h.sels[g], products, stocks, canPlace, stockSize, breeds[g]))
  }

  /**
   * The generations loop: one generation per row of breeding draws. The
   * history records every population from `initial` to the final `pop`.
   */
  method Breeding(v: Variant, initial: seq<Solution>, products: seq<Product>, stocks: seq<Grid>, canPlace: PlaceOracle,
                  stockSize: SizeOracle, breeds: seq<seq<Breed>>) returns (pop: seq<Solution>, h: History)
    requires |initial| >= 4 && Population(initial, stocks)
    requires |stocks| > 0 && |products| > 0 && AreaGuard(stocks, canPlace)
    requires forall g :: 0 <= g < |breeds| ==> |breeds[g]| >= |initial| - |initial| / 2
    ensures |pop| == |initial| && Population(pop, stocks)
    ensures Evolution(v, h, products, stocks, canPlace, stockSize, breeds)
    ensures h.pops[0] == initial && h.pops[|breeds|] == pop
    ensures BestScore(pop, stocks, canPlace) <= BestScore(initial, stocks, canPlace)
  {
    pop := initial;
    h := History([initial], []);
    var g := 0;
    while g < |breeds|
      invariant g <= |breeds|
      invariant |pop| == |initial| && Population(pop, stocks)
      invariant Evolution(v, h, products, stocks, canPlace, stockSize, breeds[..g])
      invariant h.pops[0] == initial && h.pops[g] == pop
      invariant BestScore(pop, stocks, canPlace) <= BestScore(initial, stocks, canPlace)
    {
      var next, sel := Generation(v, pop, products, stocks, canPlace, stockSize, breeds[g]);
      EvolutionExtend(v, h, next, sel, products, stocks, canPlace, stockSize, breeds, g);
      h := History(h.pops + [next], h.sels + [sel]);
      pop := next;
      g := g + 1;
    }
    assert breeds[..g] == breeds;
  }

  /** One recorded generation is at least as fit at its best as the one before it. */
  lemma EvolutionStepElitism(v: Variant, h: History, products: seq<Product>, stocks: seq<Grid>, canPlace: PlaceOracle,
                             stockSize: SizeOracle, breeds: seq<seq<Breed>>, g: nat)
    requires |stocks| > 0 && |products| > 0 && AreaGuard(stocks, canPlace)
    requires Evolution(v, h, products, stocks, canPlace, stockSize, breeds) && g < |breeds|
    ensures BestScore(h.pops[g + 1], stocks, canPlace) <= BestScore(h.pops[g], stocks, canPlace)
  {
    StepElitism(v, h.pops[g], h.pops[g + 1], h.sels[g], products, stocks, canPlace, stockSize, breeds[g]);
  }

  /** A recorded run followed by one more bred generation is a recorded run one generation longer. */
  lemma EvolutionExtend(v: Variant, h: History, next: seq<Solution>, sel: seq<nat>, products: seq<Product>, stocks: seq<Grid>,
                        canPlace: PlaceOracle, stockSize: SizeOracle, breeds: seq<seq<Breed>>, g: nat)
    requires |stocks| > 0 && |products| > 0 && AreaGuard(stocks, canPlace)
    requires g < |breeds| && Evolution(v, h, products, stocks, canPlace, stockSize, breeds[..g])
    requires |breeds[g]| >= |h.pops[0]| - |h.pops[0]| / 2
    requires |next| == |h.pops[0]| && Population(next, stocks)
    requires GenerationStep(v, h.pops[g], next, sel, products, stocks, canPlace, stockSize, breeds[g])
    ensures Evolution(v, History(h.pops + [next], h.sels + [sel]), products, stocks, canPlace, stockSize, breeds[..g + 1])
  {
    EvolutionSteps(v, h, next, sel, products, stocks, canPlace, stockSize, breeds, g);
  }

  /** Appending a bred generation to a recorded run keeps every recorded step and adds the new one. */
  lemma EvolutionSteps(v: Variant, h: History, next: seq<Solution>, sel: seq<nat>, products: seq<Product>, stocks: seq<Grid>,
                       canPlace: PlaceOracle, stockSize: SizeOracle, breeds: seq<seq<Breed>>, g: nat)
    requires |stocks| > 0 && |products| > 0 && AreaGuard(stocks, canPlace)
    requires g < |breeds| && Evolution(v, h, products, stocks, canPlace, stockSize, breeds[..g])
    requires GenerationStep(v, h.pops[g], next, sel, products, stocks, canPlace, stockSize, breeds[g])
    ensures forall k :: 0 <= k <= g ==>
              GenerationStep(v, (h.pops + [next])[k], (h.pops + [next])[k + 1], (h.sels + [sel])[k],
                             products, stocks, canPlace, stockSize, breeds[..g + 1][k])
  {
    forall k | 0 <= k <= g
      ensures GenerationStep(v, (h.pops + [next])[k], (h.pops + [next])[k + 1], (h.sels + [sel])[k],
                             products, stocks, canPlace, stockSize, breeds[..g + 1][k])
    {
      if k < g {
        assert (h.pops + [next])[k] == h.pops[k] && (h.pops + [next])[k + 1] == h.pops[k + 1];
        assert (h.sels + [sel])[k] == h.sels[k] && breeds[..g + 1][k] == breeds[..g][k];
      } else {
        assert (h.pops + [next])[k] == h.pops[g] && (h.pops + [next])[k + 1] == next;
        assert (h.sels + [sel])[k] == sel && breeds[..g + 1][k] == breeds[g];
      }
    }
  }

  /**
   * The whole evolution on the sorted products: the initial population, the
   * variant's number of generations, then the fittest final solution, which
   * is at least as fit as every initial one.
   */
  method Evolve(v: Variant, products: seq<Product>, stocks: seq<Grid>, canPlace: PlaceOracle, stockSize: SizeOracle, run: Run)
    returns (best: Solution, final: seq<Solution>, h: History)
    requires HasDemand(products) && |stocks| > 0 && AreaGuard(stocks, canPlace)
    requires Enough(v, products, run)
    ensures |final| == PopulationSize(v) && Population(final, stocks)
    ensures Evolution(v, h, products, stocks, canPlace, stockSize, run.breeds)
    ensures h.pops[0] == InitialPopulation(products, stocks, stockSize, run.initial)
    ensures h.pops[Generations(v)] == final
    ensures best == final[Fittest(final, stocks, canPlace)]
    ensures Viable(best, stocks) && Scorable(best, stocks, canPlace)
    ensures Score(best, stocks, canPlace) <= BestScore(InitialPopulation(products, stocks, stockSize, run.initial), stocks, canPlace)
  {
    var initial := InitialPopulation(products, stocks, stockSize, run.initial);
    final, h := Breeding(v, initial, products, stocks, canPlace, stockSize, run.breeds);
    best := final[Fittest(final, stocks, canPlace)];
  }

  /** The first product with demand in `s` precedes every other product with demand. */
  lemma {:induction false} DemandHead(s: seq<Product>)
    requires HasDemand(s)
    ensures exists i :: 0 <= i < |s| && s[i] == Demand(s)[0] && s[i].quantity > 0
                        && forall j :: 0 <= j < i ==> s[j].quantity <= 0
  {
    if s[0].quantity > 0 {
      assert s[0] == Demand(s)[0];
    } else {
      var tail := s[1..];
      assert HasDemand(tail) by {
        var i :| 0 <= i < |s| && s[i].quantity > 0;
        assert tail[i - 1] == s[i];
      }
      DemandHead(tail);
      var k :| 0 <= k < |tail| && tail[k] == Demand(tail)[0] && tail[k].quantity > 0
               && forall j :: 0 <= j < k ==> tail[j].quantity <= 0;
      DemandSkipsHead(s);
      NoDemandShifted(s, k);
    }
  }

  /** A leading product without demand does not change the products with demand. */
  lemma DemandSkipsHead(s: seq<Product>)
    requires |s| > 0 && s[0].quantity <= 0
    ensures Demand(s) == Demand(s[1..])
  {
  }

  /** A prefix without demand after a head without demand is a longer prefix without demand. */
  lemma NoDemandShifted(s: seq<Product>, k: nat)
    requires k + 1 < |s| && s[0].quantity <= 0
    requires forall j :: 0 <= j < k ==> s[1..][j].quantity <= 0
    ensures s[k + 1] == s[1..][k]
    ensures forall j :: 0 <= j < k + 1 ==> s[j].quantity <= 0
  {
    forall j | 0 < j < k + 1 ensures s[j].quantity <= 0 {
      assert s[j] == s[1..][j - 1];
    }
  }

  /** The first product with demand after sorting has the largest key among those with demand. */
  lemma LeadingIsLargest(observed: seq<Product>)
    requires HasDemand(observed)
    ensures HasDemand(SortDesc(ByAreaThenQuantity, observed))
    ensures Demand(SortDesc(ByAreaThenQuantity, observed))[0] in observed
    ensures forall q :: q in observed && q.quantity > 0 ==>
              AtLeast(KeyOf(ByAreaThenQuantity, Demand(SortDesc(ByAreaThenQuantity, observed))[0]), KeyOf(ByAreaThenQuantity, q))
  {
    var sorted := SortDesc(ByAreaThenQuantity, observed);
    SortedHasDemand(ByAreaThenQuantity, observed);
    SortDescLength(ByAreaThenQuantity, observed);
    DemandHead(sorted);
    var i :| 0 <= i < |sorted| && sorted[i] == Demand(sorted)[0] && sorted[i].quantity > 0
             && forall j :: 0 <= j < i ==> sorted[j].quantity <= 0;
    assert sorted[i] in sorted;
    forall q | q in observed && q.quantity > 0
      ensures AtLeast(KeyOf(ByAreaThenQuantity, sorted[i]), KeyOf(ByAreaThenQuantity, q))
    {
      var m :| 0 <= m < |sorted| && sorted[m] == q;
      if m != i {
        assert i < m;
      }
    }
  }

  /**
   * The product the fallback action places: the first with demand after
   * sorting, which has the largest (area, quantity) key among those with demand.
   */
  function Leading(observed: seq<Product>): (p: Product)
    requires HasDemand(observed)
    ensures p in observed && p.quantity > 0
    ensures forall q :: q in observed && q.quantity > 0 ==>
              AtLeast(KeyOf(ByAreaThenQuantity, p), KeyOf(ByAreaThenQuantity, q))
  {
    LeadingIsLargest(observed);
    Demand(SortDesc(ByAreaThenQuantity, observed))[0]
  }

  /** Sorting keeps a product with demand. */
  lemma SortedHasDemand(o: Order, products: seq<Product>)
    ensures HasDemand(products) ==> HasDemand(SortDesc(o, products))
  {
    if HasDemand(products) {
      var i :| 0 <= i < |products| && products[i].quantity > 0;
      SortDescLength(o, products);
      assert products[i] in SortDesc(o, products);
    }
  }

  /** `sorted(products, key=(area, quantity), reverse=True)` of the GA policies. */
  function Sorted(observed: seq<Product>): (s: seq<Product>)
    ensures |s| == |observed| && multiset(s) == multiset(observed)
    ensures HasDemand(observed) ==> HasDemand(s)
  {
    SortDescLength(ByAreaThenQuantity, observed);
    SortedHasDemand(ByAreaThenQuantity, observed);
    SortDesc(ByAreaThenQuantity, observed)
  }

  /** Sorting does not change which actions are valid: validity looks at membership only. */
  lemma ValidSorted(a: Action, o: Order, products: seq<Product>, stocks: seq<Grid>, canPlace: PlaceOracle)
    ensures Valid(a, SortDesc(o, products), stocks, canPlace) <==> Valid(a, products, stocks, canPlace)
  {
    SortDescLength(o, products);
  }

  /** What the extraction step means for the products as observed, before sorting. */
  lemma ExtractObserved(best: Solution, observed: seq<Product>, stocks: seq<Grid>, canPlace: PlaceOracle, stockSize: SizeOracle,
                        draws: seq<Draw>)
    requires HasDemand(observed) && |stocks| > 0 && |draws| >= |observed|
    ensures |draws| >= |Demand(Sorted(observed))|
    ensures (exists j :: 0 <= j < |best| && Valid(best[j], observed, stocks, canPlace)) ==>
              var r := Extract(best, Sorted(observed), stocks, canPlace, stockSize, draws);
              r in best && Valid(r, observed, stocks, canPlace)
    ensures (forall j :: 0 <= j < |best| ==> !Valid(best[j], observed, stocks, canPlace)) ==>
              InGeneratorRange(Extract(best, Sorted(observed), stocks, canPlace, stockSize, draws), Leading(observed).size, stocks, stockSize)
  {
    var products := Sorted(observed);
    ExtractMeans(best, products, stocks, canPlace, stockSize, draws);
    forall j | 0 <= j < |best|
      ensures Valid(best[j], products, stocks, canPlace) <==> Valid(best[j], observed, stocks, canPlace)
    {
      ValidSorted(best[j], ByAreaThenQuantity, observed, stocks, canPlace);
    }
    ValidSorted(Extract(best, products, stocks, canPlace, stockSize, draws), ByAreaThenQuantity, observed, stocks, canPlace);
  }

  /**
   * Which action the extraction step picks, for the products as observed: the
   * first valid action of `best`, or else the random placement of the leading
   * product drawn from the first fallback draw.
   */
  lemma ExtractObservedPicks(best: Solution, observed: seq<Product>, stocks: seq<Grid>, canPlace: PlaceOracle, stockSize: SizeOracle,
                             draws: seq<Draw>)
    requires HasDemand(observed) && |stocks| > 0 && |draws| >= |observed|
    ensures |draws| >= |Demand(Sorted(observed))| && |draws| > 0
    ensures forall k: nat :: FirstValidAt(best, observed, stocks, canPlace, k) ==>
              Extract(best, Sorted(observed), stocks, canPlace, stockSize, draws) == best[k]
    ensures (forall j :: 0 <= j < |best| ==> !Valid(best[j], observed, stocks, canPlace)) ==>
              Extract(best, Sorted(observed), stocks, canPlace, stockSize, draws)
              == RandomPlacement(Leading(observed), stocks, stockSize, draws[0])
  {
    var products := Sorted(observed);
    forall j | 0 <= j < |best|
      ensures Valid(best[j], products, stocks, canPlace) <==> Valid(best[j], observed, stocks, canPlace)
    {
      ValidSorted(best[j], ByAreaThenQuantity, observed, stocks, canPlace);
    }
    forall k: nat | FirstValidAt(best, observed, stocks, canPlace, k)
      ensures FirstValidAt(best, products, stocks, canPlace, k)
    {
    }
  }

  /**
   * `get_action` of the GA policies. Products are sorted by descending
   * (area, quantity), the population evolves, and the action comes from the
   * fittest final solution `best`: its first valid action when it has one,
   * otherwise a random placement of the leading product with demand.
   */
  method GetAction(v: Variant, observed: seq<Product>, stocks: seq<Grid>, canPlace: PlaceOracle, stockSize: SizeOracle, run: Run)
    returns (r: Action, best: Solution, final: seq<Solution>, h: History)
    requires HasDemand(observed) && |stocks| > 0 && AreaGuard(stocks, canPlace)
    requires Enough(v, observed, run)
    ensures |final| == PopulationSize(v) && Population(final, stocks)
    ensures Evolution(v, h, Sorted(observed), stocks, canPlace, stockSize, run.breeds)
    ensures h.pops[0] == InitialPopulation(Sorted(observed), stocks, stockSize, run.initial)
    ensures h.pops[Generations(v)] == final
    ensures best == final[Fittest(final, stocks, canPlace)]
    ensures Viable(best, stocks) && Scorable(best, stocks, canPlace)
    ensures Score(best, stocks, canPlace) <= BestScore(InitialPopulation(Sorted(observed), stocks, stockSize, run.initial), stocks, canPlace)
    ensures Indexed(r, stocks)
    ensures forall k: nat :: FirstValidAt(best, observed, stocks, canPlace, k) ==> r == best[k]
    ensures (exists j :: 0 <= j < |best| && Valid(best[j], observed, stocks, canPlace)) ==>
              r in best && Valid(r, observed, stocks, canPlace)
    ensures (forall j :: 0 <= j < |best| ==> !Valid(best[j], observed, stocks, canPlace)) ==>
              r == RandomPlacement(Leading(observed), stocks, stockSize, run.fallback[0])
    ensures (forall j :: 0 <= j < |best| ==> !Valid(best[j], observed, stocks, canPlace)) ==>
              InGeneratorRange(r, Leading(observed).size, stocks, stockSize)
  {
    best, final, h := Evolve(v, Sorted(observed), stocks, canPlace, stockSize, run);
    r := Extract(best, Sorted(observed), stocks, canPlace, stockSize, run.fallback);
    ExtractObserved(best, observed, stocks, canPlace, stockSize, run.fallback);
    ExtractObservedPicks(best, observed, stocks, canPlace, stockSize, run.fallback);
  }
}
