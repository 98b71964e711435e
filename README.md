# O-D flow estimator: a Dafny model

This project models the origin-destination (O-D) freight flow estimator of
`fetch_data` in `src/io.py` (lines 40-189), and the duplicate script
fragment `src/utils.py`. The estimator turns a roadside survey of shipments
and per-region production and consumption tables into a table of flows keyed
by (product, origin, destination). It works in six stages:

1. **Empirical prior** (`Prior`). The surveyed weight is summed per
   (origin, destination) pair. Pairs with a non-positive sum are dropped,
   and the rest are divided by their total.
2. **Marginal parity** (`Marginals`). The production and consumption
   files are read as sums per (date, region, product group, product); the
   entries with a positive quantity are totalled per (product, region),
   then inner-joined. Each product's production column is rescaled in place so
   that its total equals the product's consumption total. Both marginals
   are then read back.
3. **Gravity seed** (`Seeding.BuildSeeds`). For every product of the
   consumption marginal and every ordered region pair (o, d) with
   o, d < n, diagonal included, the seed is `prod[p,o] * cons[p,d] * prior[o,d]`.
   When any of the three labels is missing the pair is skipped.
4. **Epsilon floor** (`Seeding.Floor`). Every cell of the
   (origin, product) x destination rectangle that has no seed gets 0.001.
5. **Furness / iterative proportional fitting** (`Furness`). Each
   product's block is rescaled alternately against its production targets
   (origin axis) and its consumption targets (destination axis). The loop
   stops once every ratio target / sum on the axis just drawn is within 5 %
   of one. It gives up after 501 scaling steps.
6. **Assembly** (`Assembly`). The fitted blocks are labelled with their
   product, concatenated and group-summed by (product, origin, destination).

`Estimator.EstimateFlows` composes the six stages. `Codes` holds the
optional helpers: the resolution of superseded NUTS codes and the country
prefix of a code.

Pandas objects are modelled as follows. A Series is a sequence of
(key, value) entries (`Series.Entry`). `groupby(...).sum()` is
`Series.GroupSum`, whose meaning is given by the reference sum
`Series.KeySum`. `.loc` is `Series.Lookup`, which returns `None` for a
missing label instead of raising `KeyError`. Regions are the indices
`0 .. n-1` of the NUTS-3 universe, products are strings, and quantities are
exact reals.

The fitting step follows the code's floating-point semantics for the
factors (`Furness.RatioAt`):
- a slice missing from the target or from the block gives NaN (`Missing`);
- a zero sum gives NaN when its target is zero, and infinity otherwise;
- the stopping test skips NaN factors;
- an infinite factor fails the test, and so does a block with no finite factor at all;
- a cell whose factor is NaN becomes NaN and disappears when the block is
  stacked again, so `Furness.Rescale` drops it;
- `Furness.Rescale` drops the cells of a slice with an infinite factor as
  well. On a non-negative block such a slice holds only zero cells
  (`Furness.InfiniteSliceIsZero`), each becomes 0 * inf = NaN, and the
  stacked block drops them too. On a block with cells of both signs the
  code would keep them as infinite values; the model does not cover that
  case. The estimator's blocks are positive, and a positive block never has
  an infinite factor (`Furness.PositiveNeverInfinite`).

This is a deliberate choice: it is what the code does on the blocks it
fits, and the model states it outright instead of requiring positive sums
everywhere.

The final concatenation can raise. `m.groupby(...).sum().squeeze()` turns a
fitted block with exactly one cell into a scalar, which `pd.concat`
rejects, and `pd.concat` of no blocks at all fails too. `Assembly.Collect`
returns `None` in exactly those cases.

## Model

| member | source | states |
|---|---|---|
| Series.GroupSum | src/io.py:40-42 | group-by sum: one entry per distinct label of the input, holding the sum of every value filed under that label |
| Series.LookupGroupSum | src/io.py:40-42 | looking a label up in the grouped series gives its total when the label occurs and nothing otherwise |
| Series.KeepPositive | src/io.py:43 | the filter keeps only strictly positive entries, each taken from the input |
| Series.KeepPositiveComplete | src/io.py:43 | no strictly positive entry is dropped by the filter |
| Series.PositiveGroups | src/io.py:40-43 | a label survives group-sum-then-filter exactly when it occurs and its total is positive |
| Series.LookupDivideBy | src/io.py:44 | after division by the total, each label's value is its old value over the total |
| Series.TotalDivideBy | src/io.py:44 | the divided series sums to the old sum over the divisor |
| Series.TotalNormalised | src/io.py:44 | a series divided by its own non-zero total sums to exactly 1 |
| Prior.EmpiricalPrior | src/io.py:40-44 | the prior has no repeated pair and every weight in it is strictly positive |
| Prior.PriorSupport | src/io.py:40-43 | the prior's pairs are exactly the surveyed pairs whose summed weight is positive |
| Prior.PriorWeight | src/io.py:40-44 | a retained pair's prior weight is its summed surveyed weight over the total retained weight; any other pair has no weight |
| Prior.PriorSumsToOne | src/io.py:44 | when any pair is retained, the prior weights sum to exactly 1 |
| Marginals.PositiveRecords | src/io.py:273 | the filtered records are records of the input with a strictly positive quantity |
| Marginals.PositiveRecordsComplete | src/io.py:273 | every record with a positive quantity survives the filter |
| Marginals.TotalsPositive | src/io.py:55-56 | totals per (product, region) of positive records are positive |
| Marginals.InnerJoin | src/io.py:59-66 | every joined row carries a production entry and the consumption total of the same label |
| Marginals.InnerJoinSites | src/utils.py:2-9 | the joined labels are exactly the labels present in both tables, and they are not repeated |
| Marginals.InnerJoinPositive | src/io.py:59-66 | joining two positive tables gives rows positive in both columns |
| Marginals.GroupTotals | src/io.py:71 | the loop computes a product group's production and consumption totals |
| Marginals.ScaleGroup | src/utils.py:12-14 | in-place `*=`: the rows of the group have their production multiplied by the factor, all other rows are untouched |
| Marginals.NormaliseParity | src/io.py:68-74 | the in-place per-product rescaling leaves the table equal to the reference normalisation `Normalised` |
| Marginals.ParityReached | src/utils.py:12-13 | after normalisation each product's production total equals its consumption total, and consumption totals are unchanged |
| Marginals.ReadBack | src/io.py:76-79 | reading the marginals back returns every joined row's own production and consumption value |
| Marginals.ConsumptionUnchanged | src/utils.py:20-21 | the consumption marginal read back after normalisation equals the one before it |
| Marginals.NormalisedMarginalsPositive | src/io.py:76-79 | both read-back marginals are positive |
| Seeding.Gravity | src/utils.py:33-36 | a seed value exists exactly when production at the origin, consumption at the destination and the prior of the pair all exist; otherwise the pair is skipped |
| Seeding.GravityPositive | src/io.py:116-118 | with positive marginals and prior, every seed value is strictly positive |
| Seeding.BuildSeeds | src/io.py:107-120 | the filled table holds a cell exactly for each product, each ordered pair (o, d) with o, d < n, diagonal included, whose three operands exist; its value is their product; the table equals the reference `GravitySeeds` |
| Seeding.Rectangle | src/io.py:128-131 | the rectangle holds exactly the cells whose (origin, product) row and destination column both occur in the seed |
| Seeding.Floor | src/io.py:128-134 | the floored table covers exactly the rectangle; seeded cells keep their value and all others get 0.001 |
| Seeding.FloorPositive | src/io.py:128-134 | flooring a positive seed gives a table that is positive in every cell |
| Furness.BalancedMeaning | src/io.py:156-159 | the stopping test passes exactly when no factor is infinite, every finite factor is within 0.05 of one, and some factor is finite |
| Furness.TestTolerance | src/io.py:158 | the one-pass evaluation of the test agrees with the test |
| Furness.RescaleMargin | src/io.py:164-172 | scaling by a slice's finite factor multiplies that slice's sum by the factor |
| Furness.RescaleDrops | src/io.py:172 | a slice whose factor is not finite has no cell left after the step |
| Furness.StepMeetsTargets | src/io.py:156-172 | after a step on an axis, every slice with a finite factor sums exactly to its target; the other slices are gone |
| Furness.MarginPositive | src/io.py:156 | a slice of a positive block that has a cell has a positive sum |
| Furness.InfiniteSliceIsZero | src/io.py:156-172 | on a non-negative block, a slice with an infinite factor holds only zero cells, so dropping it matches the NaN cells the step produces |
| Furness.PositiveNeverInfinite | src/io.py:156 | a positive block never has an infinite factor |
| Furness.StepPositive | src/io.py:164-172 | a step keeps a positive block positive |
| Furness.StepNonNegative | src/io.py:164-172 | a step keeps a non-negative block non-negative |
| Furness.RescaleKeys | src/io.py:172 | a step introduces no new cell and keeps the cells distinct |
| Furness.IterateDistinct | src/io.py:152-175 | every iterate of a block with distinct cells has distinct cells |
| Furness.IteratePositive | src/io.py:152-175 | every iterate of a positive seed under positive targets is positive |
| Furness.NextStep | src/io.py:148-153 | step k draws the production targets for even k and the consumption targets for odd k |
| Furness.LastStepExact | src/io.py:164-174 | after k > 0 steps, the sums on the axis of the last step meet their targets wherever that step's factor was finite |
| Furness.Balance | src/io.py:151-176 | the loop returns the k-th iterate where k is the first step whose test passes; it scales at most 501 times, and it reports non-convergence exactly when the counter reached 501 |
| Furness.BalancedWithinTolerance | src/io.py:158-159 | on the convergence exit every target of the axis just tested lies within 5 % of its slice sum |
| Assembly.LabelKeySum | src/io.py:179-182 | labelling moves each (origin, destination) sum of a block onto its own product and leaves every other product empty |
| Assembly.Assemble | src/io.py:185-189 | the flow table has one entry per (product, origin, destination) carried by some block |
| Assembly.AssembleLookup | src/io.py:185-189 | each key of the flow table holds the sum of the values at its pair over every block of its product |
| Assembly.AssembleContainsBlocks | src/io.py:179-189 | with one block per product, every fitted cell appears unchanged in the flow table under its product |
| Assembly.AssemblePositive | src/io.py:185-189 | positive blocks give a positive flow table |
| Estimator.UniqueProducts | src/io.py:109 | the products are the distinct products of the consumption marginal, each once |
| Estimator.ProductSlice | src/io.py:146-149 | the cross-section of a product holds exactly that product's entries, keyed by region |
| Estimator.BlockOfExact | src/io.py:146 | a product's block holds each floored cell of that product within the n x n square once |
| Estimator.FitOne | src/io.py:145-177 | one product's block is balanced against its own production and consumption cross-sections |
| Estimator.FitAll | src/io.py:145-183 | every product with a non-empty block is fitted once, and each recorded block and outcome is that product's fitting result |
| Estimator.JoinedTotals | src/io.py:54-66 | the merged frame of the positive totals is positive in both columns |
| Estimator.ParityMarginals | src/io.py:54-79 | the marginals are those read back from the normalised merged frame and are positive |
| Estimator.FlooredSeed | src/io.py:107-134 | the floored seed is the floor of the gravity seeds over the consumption products and the n x n pairs: gravity cells keep their gravity value, every other cell of the rectangle is 0.001, and all are positive |
| Estimator.EstimateFlows | src/io.py:40-189 | the prior, the marginals and the floored seed are those of the inputs; every product with a non-empty block is fitted once against its own marginals, with its outcome; the flow table is their assembly, distinct and positive, and is missing exactly when there is no block or some block has one cell |
| Codes.Latest | src/io.py:253 | the latest change of a code exists exactly when the code has a row, and no row of the code sorts after it by (year, new) |
| Codes.NutsLookup | src/io.py:253 | every old code maps to the new code of a row of that code that sorts last |
| Codes.CountryPrefix | src/io.py:207-208 | the prefix is the code's first two characters, or the whole code when shorter |
| Codes.GreekPrefix | src/io.py:34-36 | a code's country is "EL" exactly when the code starts with those two letters |
| Codes.SameCountry | src/io.py:207-208 | two codes share a country exactly when their first two characters agree |

## Left out

- Pickle caching and all file reading (CSV, Excel, shapefiles) and the date construction of the production and consumption records: I/O and library calls. The records enter the model as the entries of the per-(date, region, product group, product) sums of src/io.py:236-238, with the date and group labels not kept since the totals sum over them; the survey enters as (origin, destination, weight) rows.
- The friction matrix and its fuzzy name matching (src/io.py:83-105): a foreign scoring library, and the result is never used.
- The selection of the Greek NUTS-3 regions (src/io.py:81): the region universe is the parameter `n`, and regions are indices below it.
- Floating-point rounding: quantities are exact reals, so every equality proved is exact. The tolerance 0.05 and the floor 0.001 are exact constants.
- The `print` at src/io.py:176: it is the `converged` flag of `Furness.Balance` and `Estimator.Outcome`.
- Row order of pandas results: group-by sums sort their labels and the model keeps first-appearance order. Products are fitted in consumption order, not sorted order. No sum, lookup or label set depends on this order.
- The `reorder_levels` branch (src/io.py:164-170): both constraints have a single index level, so only the branch at line 172 is taken.
- The code recoding of survey columns in `clean_od_survey` (src/io.py:200-219), other than the country prefix: table plumbing over library calls.
- Furness.Balance: does not claim that the other axis is within tolerance on the convergence exit, because the loop never re-checks it.
- Furness.StepMeetsTargets: slices whose factor is not finite are dropped rather than left unchanged, as the stacked NaN cells are in the code; exact sums are claimed only for slices with a finite factor.
- Furness.Rescale: on a block with cells of both signs, a slice with zero sum and a non-zero target gives infinite cells that the code keeps; the model drops them. The estimator only fits positive blocks, where this cannot happen.
- The survey filters on cargo group and on the Greek country codes (src/io.py:33-37) are not applied in the model; the survey is taken as already filtered.
- The Dash pages, the app layout and the Streamlit analysis (pages/, app.py, analyses/): UI, geometry and foreign calls.
