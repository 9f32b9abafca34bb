# Cutting-stock placement policies, modelled in Dafny

The repository holds four `get_action` policies for the two-dimensional
cutting-stock environment. Each one looks at the products still in demand and
at the stock sheets, and returns one cut: a stock index, a piece size and a
top-left position.

- **Brute force** (`bruteforce.py`) scans every product with demand, both
  orientations, every stock and every corner. It returns the feasible
  placement of least trim loss, `rw*H + rh*W - rw*rh`. A strict `<` keeps the
  first one in scan order on ties. When nothing is feasible it returns the
  sentinel `(-1, [0,0], (0,0))`.
- **Greedy** (`greedy.py`) sorts the products by descending area (a stable
  sort). For the first product with demand that has any feasible placement,
  it returns the placement of least waste `rw*rh` over every stock, both
  orientations and every corner, the first one on ties. Otherwise it returns
  the sentinel.
- **Genetic algorithm, random mutation** (`GA.py`). The products are sorted by
  `(area, quantity)`, descending. A population of 30 random solutions (one
  random placement per product with demand) evolves for 150 generations:
  - every solution is scored; lower is better;
  - the better half is kept (`argsort`, truncation selection);
  - the population is refilled with crossovers of two distinct survivors;
  - each child is mutated with probability 0.3: a random slot gets a random
    placement of a random product.

  The action returned is the first valid action of the fittest final
  solution. When it has none, the result is the first action of a fresh
  random solution.
- **Genetic algorithm, worst-slot mutation** (`GA_mutate_no_random.py`). This
  is the same engine with population 100, 100 generations and rate 0.1. Its
  mutation is deterministic: the placeable action of greatest trim loss
  (the first one on ties) is replaced by the first feasible unrotated
  placement, scanning products with demand, then stocks by index, then
  corners with x outer and y inner.

The fitness of a solution adds three terms:
- the trim loss `max((A - a) / A, 0)` of every action the stock accepts, where
  `A` is the stock's usable area (cells that are not `-2`) and `a` the piece's
  area;
- a penalty of 0.5 per distinct stock used;
- minus the utilisation (used area over usable area) of each used stock.

Every action is checked against the unchanged input stocks.

## Structure

| module | file | content |
|---|---|---|
| `Types` | types.dfy | sizes, positions, actions, products, grids, usable area, demand |
| `Search` | search.dfy | first match and first arg-min scans (the source's `for`/`if <` loops) |
| `Placements` | placements.dfy | the candidate enumeration in scan order; first feasible and cheapest candidate |
| `BruteForce` | bruteforce.dfy | the brute-force policy |
| `ProductOrder` | product_order.dfy | the descending, stable product sort |
| `Greedy` | greedy.dfy | the greedy policy |
| `RandomOps` | random_ops.dfy | random solutions and random mutation |
| `Crossover` | crossover.dfy | `_crossover` |
| `Fitness` | fitness.dfy | `_evaluate_fitness` and its algebra |
| `WorstSlotMutation` | worst_mutation.dfy | the deterministic mutation |
| `Genetic` | genetic.dfy | selection, breeding, the generations loop, extraction, `get_action` of both variants |

The base class primitives `_can_place_` and `_get_stock_size_` are not part of
this model. Every operation receives them as uninterpreted function
parameters: `canPlace: (Grid, Pos, Size) -> bool` and `stockSize: Grid -> Size`.

Every random call becomes an explicit draw argument.
`random.randint(lo, hi)` is modelled as `lo + d % (hi - lo + 1)`. This value
always lies in `[lo, hi]`, and every value of that range is reachable.
`random.sample(selected, 2)` becomes two such draws for two distinct
positions. `random.random() < rate` becomes a real-valued gate draw.

The two GA variants share one engine, which takes a `Variant` parameter.

## Model

| member | source | states |
|---|---|---|
| Types.Demand | GA.py:68-69 | the products a GA solution covers: exactly those with positive quantity, in input order (a subsequence of the products), each with its multiplicity and nothing else; the list is empty exactly when no product has demand |
| Types.RowUsable | GA.py:99 | the usable cells of a stock row never outnumber its cells |
| Types.RowUsableZero | GA.py:99 | a row has no usable area exactly when every cell is the `-2` marker |
| Types.UsableAreaZero | GA.py:99 | a stock has no usable area exactly when every cell of every row is the `-2` marker |
| Search.FirstWhere | GA.py:58-60 | the scan stops at the first element passing the test; it fails exactly when none passes |
| Search.FirstArgMin | GA.py:55 | `min` with a key: none only for an empty input; otherwise a position whose cost no other cost undercuts, and every earlier cost is strictly greater (the first minimum) |
| Search.RunningMin | bruteforce.py:49-56 | a strict `<` scan over a prefix keeps an admissible element of least cost, strictly cheaper than every earlier admissible one; none exactly when none is admissible |
| Search.FirstArgMinWhere | bruteforce.py:49-56 | the same over the whole sequence |
| Placements.PositionGrid | bruteforce.py:41-42 | the nested ranges visit exactly the positions below the two bounds, with x outer and y inner |
| Placements.Corners | bruteforce.py:39-42 | the corners tried for a piece are exactly those that keep it inside the stock, in scan order; none when the piece is larger than the stock |
| Placements.OnStock | bruteforce.py:39-43 | the candidates on one stock for one orientation are exactly the placements within that stock, in corner scan order |
| Placements.OnStockAll | bruteforce.py:37-43 | the candidates on one stock over the listed orientations are exactly the in-bounds placements of those sizes |
| Placements.StocksFrom | bruteforce.py:33-43 | the candidates over stocks from a given index are exactly the in-bounds placements on those stocks, grouped by ascending stock index |
| Placements.ProductSweep | greedy.py:39-47 | the scan for one product covers exactly its in-bounds placements, in either orientation, on every stock, by ascending stock index |
| Placements.Sweep | bruteforce.py:28-43 | the full scan covers exactly the in-bounds placements of products with demand, in either orientation |
| Placements.Cheapest | bruteforce.py:43-56 | none exactly when no candidate is accepted; otherwise an accepted candidate that no accepted candidate undercuts, and strictly cheaper than every accepted one before it |
| Placements.CheapestComesFirst | bruteforce.py:50 | the strict `<` makes the result come no later than any accepted candidate that is at least as cheap |
| Placements.FirstFeasible | GA_mutate_no_random.py:161-186 | the first accepted candidate in scan order; none exactly when none is accepted |
| Placements.FirstFeasibleConcat | GA_mutate_no_random.py:161-186 | the first accepted candidate of a concatenated scan comes from the first part whenever that part has one |
| BruteForce.TrimLoss | bruteforce.py:45-47 | the trim loss of a candidate: `rw*H + rh*W - rw*rh` with `rw`, `rh` the widths left right of and below the piece; what it measures is stated by the next row |
| BruteForce.TrimLossIsOutsideBox | bruteforce.py:45-47 | the trim loss equals the stock area outside the box from the origin to the piece's far corner, so it is never negative |
| BruteForce.CheapestInSweep | bruteforce.py:28-56 | the cheapest feasible entry of the scan is a genuine candidate that no feasible candidate of any product with demand undercuts |
| BruteForce.GetAction | bruteforce.py:18-63 | the sentinel exactly when no candidate is feasible; otherwise an accepted in-bounds placement of a product with demand, in one of its orientations, of least trim loss, and first in scan order among equally cheap feasible candidates |
| ProductOrder.Insert | GA.py:22-26 | inserting into a descending list keeps it descending and adds exactly that one product |
| ProductOrder.SortDesc | GA.py:22-26 | the sort is a permutation of the products and is non-increasing in the key |
| ProductOrder.SortDescLength | greedy.py:25-29 | the sort keeps the length and the set of products |
| ProductOrder.DescendingArea | greedy.py:25-29 | in the area order, a later product never has a larger area |
| ProductOrder.InsertWithKey | greedy.py:25-29 | insertion puts the new product ahead of every product with an equal key and keeps their relative order |
| ProductOrder.SortDescStable | greedy.py:25-29 | the sort is stable: products with equal key keep their input order |
| Greedy.Waste | greedy.py:49-51 | the waste of a candidate: the product `rw*rh` of the widths left right of and below the piece |
| Greedy.WasteNonNegative | greedy.py:49-51 | for an in-bounds placement the waste lies between zero and the stock area |
| Greedy.BestFit | greedy.py:36-60 | for one product: none exactly when no placement in either orientation is accepted; otherwise an accepted one of least waste over all stocks, orientations and corners, first in scan order among equals |
| Greedy.Chosen | greedy.py:25-33 | the product placed is one with demand and a feasible placement, of the largest area among such products; none exactly when there is none |
| Greedy.NonePasses | greedy.py:25-32 | when no product of the sorted list passes, no input product does |
| Greedy.FirstPassingIsLargest | greedy.py:25-32 | the first product of the sorted list that passes has the largest area among all passing input products |
| Greedy.FirstOfAreaNoLater | greedy.py:25-32 | a scan for the first passing product of a given area stops no later than any passing product of that area |
| Greedy.FirstOfAreaAt | greedy.py:25-32 | when a product is the first to pass, it is the first passing product of its area |
| Greedy.ChosenFirstOfItsArea | greedy.py:25-33 | among fillable products of the same area, the chosen one comes first in input order (the stable sort) |
| Greedy.RotationInvariant | greedy.py:42-43 | both orientations of a product have the same area and give the same candidate set |
| Greedy.NothingFillable | greedy.py:31-66 | when no product is fillable, no candidate of any product with demand is feasible |
| Greedy.LargestFillableFit | greedy.py:25-63 | the best fit of the largest fillable product is a candidate with demand, and no feasible candidate of any product with demand has a larger piece |
| Greedy.BestFitOwnOrientation | greedy.py:42-60 | the chosen placement also has the least waste among the placements of its own orientation |
| Greedy.GetAction | greedy.py:18-66 | the sentinel exactly when no candidate of a product with demand is feasible; otherwise exactly the best fit of the chosen product (the largest-area product with a feasible placement): an accepted in-bounds placement of a product with demand in one of its orientations, with the largest piece area among feasible candidates, least waste for its product, and the size of the chosen product or its rotation |
| Greedy.GetActionFirstOnTies | greedy.py:39-63 | the strict `<` over the chosen product's scan: the result comes no later than any accepted candidate of that scan that is at least as cheap |
| RandomOps.RandInt | GA.py:70 | the draw always lies in the inclusive range, and a draw within its width gives that offset exactly |
| RandomOps.RandomPlacement | GA.py:70-81 | a placement on an existing stock, with the product's size and corner within `[0, max(0, W-w)] x [0, max(0, H-h)]` |
| RandomOps.RandomPlacementReachesAll | GA.py:70-75 | every placement within the generator's bounds is produced by some draw |
| RandomOps.Generate | GA.py:65-82 | one action per product with demand, in product order, each a random placement of that product within the generator's bounds; viable whenever some product has demand |
| RandomOps.RandomMutate | GA.py:135-151 | the length is kept and only the drawn slot can change; nothing changes when the drawn product has no demand; otherwise that slot gets a placement of the drawn product within the generator's bounds |
| Crossover.Without | GA.py:126-131 | an order-preserving subsequence that keeps every element outside the excluded set with its multiplicity and drops the rest |
| Crossover.Cross | GA.py:113-132 | the child is the first parent's prefix followed by an order-preserving subsequence of the second parent: exactly its elements absent from the prefix, with their multiplicities |
| Crossover.CrossFromParents | GA.py:125-131 | every action of the child comes from one of the parents |
| Crossover.CrossNonEmpty | GA.py:125-131 | the child is empty only when the cut is zero and the second parent is empty |
| Crossover.CrossAtZero | GA.py:125-131 | a cut at zero copies the second parent |
| Fitness.TrimTermMeans | GA.py:101 | the trim term of a placement lies in [0, 1], is zero exactly when the piece covers the usable area, and is otherwise the uncovered share |
| Fitness.ViableIsScorable | GA.py:98-101 | when every accepting stock has usable area, every accepted action of a solution can be scored |
| Fitness.Record | GA.py:89-104 | one step of the scoring loop keeps the bookkeeping consistent: the used stocks are the keys of the area map, and each exists with positive usable area |
| Fitness.TallyOf | GA.py:86-104 | the scoring loop keeps that bookkeeping consistent |
| Fitness.TallyUsed | GA.py:87-103 | the stocks the loop records are exactly the stocks of the accepted actions |
| Fitness.UtilizationRecord | GA.py:104-110 | recording an accepted action raises the utilisation sum by exactly that action's share of its stock's usable area, whether or not the stock was used before |
| Fitness.UtilizationNoneUsed | GA.py:108-110 | with no used stock the utilisation is zero |
| Fitness.UsedStocksAppend | GA.py:98-103 | appending an action adds its stock to the used set exactly when the stock accepts it |
| Fitness.Score | GA.py:84-111 | `_evaluate_fitness`: the summed trim loss of the accepted actions, plus 0.5 per used stock, minus the utilisation of the used stocks; its closed form and algebra are stated by the rows below |
| Fitness.ScoreAppend | GA.py:84-111 | appending an accepted action adds its trim loss minus its area share, plus 0.5 only when its stock was not used yet; a rejected action adds nothing |
| Fitness.ScoreClosedForm | GA.py:84-111 | the score is the sum over accepted actions of trim loss minus area share, plus 0.5 per distinct used stock |
| Fitness.ScoreSkipsUnplaceable | GA.py:98 | appending an action the stock rejects leaves the score unchanged |
| Fitness.ScoreNothingPlaceable | GA.py:86-111 | a solution with no accepted action scores 0 |
| Fitness.GainSumConcat | GA.py:89-102 | the per-action part of the score adds over concatenation |
| Fitness.UsedStocksConcat | GA.py:103 | the used stocks of a concatenation are the union of the used stocks of its parts |
| Fitness.ScoreSwapHalves | GA.py:84-111 | the score does not depend on the order of the two halves of a solution |
| WorstSlotMutation.ScanWorst | GA_mutate_no_random.py:138-154 | the scan finds an accepted slot of greatest trim loss, strictly greater than every earlier accepted slot's (the first maximum); none, with loss -1, exactly when no slot is accepted |
| WorstSlotMutation.ScanCorners | GA_mutate_no_random.py:167-177 | the corner scan finds a corner exactly when one is accepted; since the waste does not depend on the corner, it settles on the first accepted corner |
| WorstSlotMutation.BestPosition | GA_mutate_no_random.py:164-177 | over all in-bounds corners of a stock: none exactly when none is accepted, else the first accepted corner |
| WorstSlotMutation.OnStockChoiceIsFirst | GA_mutate_no_random.py:163-180 | the choice on one stock is the first accepted unrotated candidate of that stock |
| WorstSlotMutation.StockScanIsFirst | GA_mutate_no_random.py:163-186 | the scan over stocks returns the first accepted unrotated candidate over those stocks in scan order |
| WorstSlotMutation.Replacement | GA_mutate_no_random.py:161-186 | the replacement search: products in order, the first with demand for which some stock has an accepted unrotated corner; its meaning is stated by the next two rows |
| WorstSlotMutation.ReplacementIsFirstInSweep | GA_mutate_no_random.py:161-186 | the replacement is the first accepted unrotated candidate of a product with demand in full scan order |
| WorstSlotMutation.ReplacementMeans | GA_mutate_no_random.py:161-186 | none exactly when no unrotated candidate of a product with demand is accepted; otherwise an accepted in-bounds placement with the size of a product with demand, the first in scan order |
| WorstSlotMutation.WorstMutate | GA_mutate_no_random.py:135-186 | the length is kept, every action still names an existing stock, and at most one slot changes; nothing changes when no slot is accepted or when no replacement is feasible |
| WorstSlotMutation.WorstMutateOverwrites | GA_mutate_no_random.py:135-186 | when some slot is accepted and some unrotated candidate of a product with demand is feasible, the mutated solution is the input with its worst slot (the first of greatest trim loss) overwritten by the first feasible candidate in scan order |
| WorstSlotMutation.WorstMutateSlot | GA_mutate_no_random.py:138-158 | a changed slot was accepted, has the greatest trim loss, and is strictly worse than every accepted slot before it |
| WorstSlotMutation.WorstMutateValue | GA_mutate_no_random.py:161-186 | a changed slot now holds an accepted placement of a product with demand, namely the first feasible one in scan order |
| WorstSlotMutation.ChangedSlotHoldsReplacement | GA_mutate_no_random.py:180-186 | a changed slot holds the replacement the product scan found |
| Genetic.Scores | GA.py:33 | one score per member, in order, each the fitness of that member |
| Genetic.Fittest | GA.py:55 | the first member of least score |
| Genetic.SelectTop | GA.py:36 | `k` distinct indices whose scores are ascending, and none exceeds the score of any unselected index (no tie order promised) |
| Genetic.TopKLeadsWithMinimum | GA.py:36-37 | the first selected member has the least score of the population |
| Genetic.Parents | GA.py:42 | two distinct positions among the survivors |
| Genetic.ParentsReachAll | GA.py:42 | every ordered pair of distinct survivors can be drawn |
| Genetic.Mutate | GA.py:46-49 | either variant's mutation keeps the solution viable and changes at most one slot |
| Genetic.Crossed | GA.py:42-44 | the crossover of the two drawn survivors at the drawn cut is viable and takes every action from those two parents |
| Genetic.CrossInherits | GA.py:113-132 | the crossover of two viable parents at any cut within the first is viable and takes every action from them |
| Genetic.ChildOf | GA.py:42-49 | a child of the drawn survivors: viable, and with at most one action from neither parent when the gate draw is below the rate, none otherwise |
| Genetic.ChildOfMeans | GA.py:42-49 | the child is the crossover itself when the gate draw is not below the rate, and otherwise exactly the variant's mutation of the crossover, which differs from it in at most one slot |
| Genetic.MutatedInherits | GA.py:46-49 | after mutation, at most one action comes from neither parent |
| Genetic.BroodAt | GA.py:40-44 | child `t` of the children bred from a list of draws is the child of draw `t` |
| Genetic.BroodChildren | GA.py:40-49 | child `t` of a generation's brood is the child of breeding draw `t` from the survivors |
| Genetic.BroodInherits | GA.py:40-49 | every child of a generation's brood inherits from the two survivors its draw chose |
| Genetic.Offspring | GA.py:40-49 | exactly the requested number of children, built one per draw in draw order; child `t` is the child of breeding draw `t`, and inherits from its two drawn survivors as above |
| Genetic.Selection | GA.py:33-37 | the survivors are half the population, the lowest-scoring half, in ascending score order, and the first has the least score |
| Genetic.NextGeneration | GA.py:31-52 | the next population has the same size and stays viable; it starts with the selected half unchanged, then, in order, the child of each breeding draw from those survivors; its first member is at least as fit as every old member; together these are `Genetic.GenerationStep` |
| Genetic.StepKeepsSurvivors | GA.py:36-52 | a population bred as survivors followed by the brood of the draws has the old size, stays viable, and starts with the survivors unchanged |
| Genetic.StepChildren | GA.py:40-49 | in such a population, the member `t` places after the survivors is the child of breeding draw `t` from the survivors |
| Genetic.StepInherits | GA.py:40-49 | in such a population, the member `t` places after the survivors inherits from the two survivors that draw `t` chose |
| Genetic.StepElitism | GA.py:33-52 | a generation bred from the lowest-scoring half keeps the size and viability, and its best score is no worse than the old population's (elitism) |
| Genetic.Valid | GA.py:153-164 | `_is_action_valid`: some product with demand has exactly the action's size, and the stock accepts the action; the next row relates it to the scans |
| Genetic.ValidIsFeasibleCandidate | GA.py:153-164 | a valid in-bounds action is exactly an accepted unrotated candidate of a product with demand |
| Genetic.FindValid | GA.py:58-60 | the search for a valid action stops at the first one, and fails only when none is valid |
| Genetic.Extract | GA.py:57-63 | the first valid action of the best solution; when it has none, a random placement of the first product with demand |
| Genetic.ExtractMeans | GA.py:57-63 | when the best solution has a valid action, the result is one of its valid actions; otherwise it lies within the generator's bounds for the first product with demand |
| Genetic.InitialPopulation | GA.py:28-29 | member `i` is the random solution generated from row `i` of the draws; each covers every product with demand on existing stocks |
| Genetic.BestScore | GA.py:55 | the least score of a population, attained by its fittest member |
| Genetic.Generation | GA.py:31-52 | one pass of the generations loop: the survivors are the lowest-scoring half in ascending score order, kept unchanged at the front, followed in order by the child of each breeding draw from them; the size and viability are kept, and the best score never worsens (elitism) |
| Genetic.Breeding | GA.py:31-52 | the generations loop: the recorded history starts with the initial population and ends with the returned one, and each population in it is the generation bred from the one before with that generation's draws (`Genetic.Evolution`); the size and viability are kept, and the best score never worsens over the run |
| Genetic.EvolutionExtend | GA.py:31-52 | a recorded run followed by one more bred generation is a recorded run one generation longer |
| Genetic.EvolutionSteps | GA.py:31-52 | appending a bred generation to a recorded run keeps every recorded step and adds the new one |
| Genetic.EvolutionStepElitism | GA.py:31-52 | in a recorded run, no population is worse at its best than the one it was bred from |
| Genetic.Evolve | GA.py:28-55 | the recorded run starts with the population generated from the initial draws, runs the variant's number of generations, each bred from the one before with its draws, and ends with the final population, which has the variant's size and is viable; the best solution is its fittest member, and is at least as fit as every initial solution |
| Genetic.LeadingIsLargest | GA.py:22-26 | after the `(area, quantity)` sort, the first product with demand has the largest key among the products with demand |
| Genetic.Leading | GA.py:22-26 | the first product with demand in sorted order: an input product with demand whose key no other such product exceeds |
| Genetic.Sorted | GA.py:22-26 | the sorted products are a permutation of the observed ones, and demand is preserved |
| Genetic.ValidSorted | GA.py:153-164 | validity of an action does not depend on the order of the products |
| Genetic.ExtractObserved | GA.py:55-63 | extraction from the sorted products returns a valid action of the best solution when it has one, otherwise a placement within the generator's bounds for the largest product with demand |
| Genetic.ExtractObservedPicks | GA.py:57-63 | extraction picks the first action of the best solution that is valid for the observed products; when none is valid, the random placement of the leading product from the first fallback draw |
| Genetic.GetAction | GA.py:13-63 | `get_action` of either GA variant: the run on the sorted products is recorded generation by generation as in `Genetic.Evolve`; the best solution is the fittest member of the viable final population and at least as fit as every initial solution; the action names an existing stock; it is the first valid action of the best solution when there is one, else the random placement of the largest product with demand from the first fallback draw |

## Left out

- `_can_place_` and `_get_stock_size_` are not part of this model. They are
  function parameters with no assumed behaviour.
- Probability distributions are not modelled. Each random call is an arbitrary
  draw, and contracts hold for every draw. The source makes all crossover calls
  of a generation first (GA.py:40-44) and then all mutation calls
  (GA.py:46-49), on one random stream. The model groups the draws per child
  instead: its parents, its cut, its gate, its mutation. Every source run
  corresponds to one such regrouping of its draws, so the set of reachable
  generations is the same.
- Floating point: fitness ratios and the mutation rate are exact reals.
- NumPy `argsort` tie order is not modelled: its default sort is not stable.
  `Genetic.SelectTop` is one admissible selection, and the contracts promise
  only the `k` lowest scores. A stable selection (insertion order kept for
  equal scores) would be one refinement; the code does not promise it.
- Division by a zero usable area is not modelled. Such a division happens when
  a stock with no usable cell accepts a placement. The GA operations require
  `AreaGuard` (every accepting stock has usable area). Without it, NumPy
  produces `inf`/`nan` for such a stock.
- Genetic.GetAction: requires a product with demand and at least one stock.
  Otherwise the source's `random.randint(0, -1)` in `_crossover` (empty
  solutions) or in the generator (no stocks) raises an error.
- Genetic.Sorted: its contract is a permutation that keeps demand.
  `Genetic.Leading` and `ProductOrder.SortDesc` give the order properties.
- Types.RowUsable: its contract only bounds the count. What a zero count means
  is stated by `Types.RowUsableZero` and `Types.UsableAreaZero`.
- Fitness.TallyOf: its contract states consistency. The contents are stated by
  `Fitness.TallyUsed`, `Fitness.UtilizationRecord` and `Fitness.ScoreClosedForm`.
- `print` calls, the `policy_id` assertion in `__init__`, and the unused
  `info` argument are left out. They do not affect any result.
- Observation dictionaries and NumPy arrays are not modelled as such. A stock
  is a `seq<seq<int>>`, and products and actions are datatypes. An action's
  size is compared structurally, as `np.array_equal` and tuple hashing do.
