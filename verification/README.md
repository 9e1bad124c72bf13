# Segregation-index simulation: the integer core

This project models the integer core of a Monte Carlo script that studies
how population "unevenness" across counties relates to bias in the
Logan–Parman segregation index.

The script generates synthetic states. Each county generator partitions a
state population into counties. It draws a county size, subtracts it from
the remaining population, appends a county record and recurses. Once the
remainder is below 1, it drops the county it appended last. There are three
generators:

- `random_counties_uniform` keeps a single remaining-population counter.
- `random_counties_random` keeps a black pool and a white pool. Each county
  is split into a rounded white count and the black rest.
- `random_counties_centered` splits counties the same way, with sizes of at
  least 10. It also computes each county's expected number of black
  residents with a white neighbour.

A separate utility, `randomly_distribute(n, j)`, splits a total `n` into `j`
integers. It samples `j - 1` distinct cut points from `[1, n - 1]`, sorts
them, and appends `n - sum(cut points)`.

Every random draw is an explicit oracle input:

- the county sizes, as a sequence of integers or of `Draw(size, white)`
  pairs;
- the rounded white count `round(size * ratio)` of each county, in the
  second component of a `Draw`;
- the sample of cut points given to `randomly_distribute`.

Each draw is constrained to the range of the `range(...)` call it comes
from (Segregation_Index_Simulation.py lines 39, 54 and 73, testing.py line 7). The oracle
sequence is finite, so each generator requires that the sizes add up to at
least the starting population: enough draws for the run to finish.

Modules:

- `Sums` (`sums.dfy`): integer sums, Python's `s[:-1]`, and the number of
  draws a partitioning consumes. That number is the first prefix of the
  sizes whose sum reaches the starting population.
- `Simulation` (`simulation.dfy`): the three generators and their
  properties.
- `Distribute` (`distribute.dfy`): `randomly_distribute`, with the sort it
  uses and the corrected variant described under Findings.

## Model

| member | source | states |
|---|---|---|
| `Sums.DropLast` | Simulation/Segregation_Index_Simulation.py:34-37 | `counties[:-1]` is a prefix of the list, one element shorter. The empty list stays empty. |
| `Sums.DrawsConsumed` | Simulation/Segregation_Index_Simulation.py:34-45 | A run consumes exactly the first prefix of draws whose sizes add up to at least the starting population. No shorter prefix does. It consumes none exactly when the population is below 1. |
| `Sums.CoveringShortfall` | Simulation/Segregation_Index_Simulation.py:34-45 | Without the last consumed size, the prefix total is strictly below the target. It falls short by at most that last size. |
| `Simulation.Split` | Simulation/Segregation_Index_Simulation.py:56-57 | A random-mode county has `w_county + b_county == n_county` exactly, in integers. For a white count rounded from a ratio in [0.25, 0.75), both counts are non-negative. |
| `Simulation.Centered` | Simulation/Segregation_Index_Simulation.py:73-80 | A centered county has `w + b == n`. Its size is at least 10, so the denominators `n - 1` and `n - 2` of the expected-neighbour formula are non-zero. The county's `expected_c` is that formula, computed exactly; Dafny checks both divisions. |
| `Simulation.RandomCountiesUniform` | Simulation/Segregation_Index_Simulation.py:33-45 | Terminates because every size is at least 1, so the remaining population strictly decreases. Below 1, it returns the accumulator with its last county dropped. Otherwise earlier entries are never modified, and every appended county's size lies in [1, 999]. |
| `Simulation.RandomCountiesRandom` | Simulation/Segregation_Index_Simulation.py:47-62 | Terminates because the measure `black_left + white_left` drops by exactly `n_county >= 1` per step. When that sum is below 1, it returns the accumulator with its last county dropped. Otherwise earlier entries are never modified. |
| `Simulation.RandomCountiesCentered` | Simulation/Segregation_Index_Simulation.py:64-87 | As the random mode; the measure drops by at least 10 per step. |
| `Simulation.RandomStep` | Simulation/Segregation_Index_Simulation.py:56-59 | One random-mode step appends the draw's county and recurses on pools whose sum is smaller by exactly `w_county + b_county = n_county`. |
| `Simulation.CenteredStep` | Simulation/Segregation_Index_Simulation.py:75-78 | The same conservation for one centered-mode step. |
| `Simulation.UniformUnfolds` | Simulation/Segregation_Index_Simulation.py:33-45 | From any accumulator, a run appends one record per consumed draw, in draw order, then drops the last record. The number consumed is `DrawsConsumed`. |
| `Simulation.RandomUnfolds` | Simulation/Segregation_Index_Simulation.py:47-62 | The same for the random mode. The run stops where the starting `black_left + white_left` minus the consumed sizes first drops below 1. This is conservation: each step removes exactly `w_county + b_county = n_county` from the two pools together. |
| `Simulation.CenteredUnfolds` | Simulation/Segregation_Index_Simulation.py:64-87 | The same for the centered mode. |
| `Simulation.UniformTruncation` | Simulation/Segregation_Index_Simulation.py:33-45 | From an empty list, a population below 1 gives no counties. Otherwise the run retains one county fewer than the draws it consumed, sized as the draws in order. The retained total is strictly below the population and short of it by at most 999. |
| `Simulation.RandomTruncation` | Simulation/Segregation_Index_Simulation.py:47-62 | The same truncation bound for pools adding up to the target. Every retained county is its draw's size split exactly into the drawn white count and the black rest, both non-negative. |
| `Simulation.CenteredTruncation` | Simulation/Segregation_Index_Simulation.py:64-87 | The same truncation bound. Every retained county is its draw's exact white/black split, with size at least 10 and a well-defined expected-neighbour count. |
| `Distribute.Insert` | Simulation/testing.py:8 | Inserting a new value into a strictly increasing list keeps it strictly increasing. It adds exactly that value to its contents. |
| `Distribute.Sort` | Simulation/testing.py:8 | Sorting distinct values gives a strictly increasing permutation of them. |
| `Distribute.SortedArrangementUnique` | Simulation/testing.py:8 | Two strictly increasing lists with the same contents are equal. So any correct sort, Python's included, returns what `Sort` returns. |
| `Distribute.SortedSampleInRange` | Simulation/testing.py:7-8 | The sorted cut points still lie in [1, n - 1]. |
| `Distribute.RandomlyDistribute` | Simulation/testing.py:3-11 | Fails with the explicit error exactly when `n < j`. Fails with `random.sample`'s error exactly when `j <= n` and `j < 1`, whatever the sign of `n`. Otherwise the result has `j` elements. The first `j - 1` are the sample, strictly increasing and each in [1, n - 1]. The last is `n` minus their sum. All `j` add up to exactly `n`. |
| `Distribute.LastPartCanBeNegative` | Simulation/testing.py:9 | With `n = 5`, `j = 3` and the sample `[4, 3]`, the result is `[3, 4, -2]`. The last element is not a gap between cut points, so it can be negative. |
| `Distribute.Gaps` | Simulation/testing.py:7-9 | The gaps between consecutive values of a start, the cut points and `n` add up to `n` minus the start. Their running totals give back the cut points. Each gap is at least 1 when the values strictly increase. |
| `Distribute.DistributeByGaps` | Simulation/testing.py:3-11 | The corrected utility has the same two errors. On success it returns `j` parts, each at least 1, adding up to exactly `n`. |
| `Distribute.CutsArePrefixSumsOfGaps` | Simulation/testing.py:7-9 | The first `j - 1` elements `randomly_distribute` returns are the running totals of the corrected parts. |

Facts about the code that the model makes explicit:

- The shortfall of a run can be exactly 999. A population of 999 with a
  first draw of 999 leaves 0, that county is dropped, and the run gives `[]`.
- A draw that brings the remainder to exactly 0 is dropped as well, so the
  retained total never equals the target.
- `randomly_distribute` can return a negative last element: see Findings.
- `randomly_distribute` also fails when `j <= n` and `j < 1`, because
  `random.sample` refuses the negative sample size `j - 1`. This holds for
  any `n`, including `n <= 0`. The model treats this as a second error.

## Left out

- Random number generation (`rand.sample`, `rand.random`,
  `rand.normalvariate`, `rand.randint`, `random.sample`): every draw is an
  oracle input, constrained to the range it is drawn from. The oracle is a
  finite sequence, so the generators require one long enough to finish a
  run.
- `random_state` (lines 24-31) and the float state ratio: floating point.
- The uniform-mode float split `w_county = n_county*ratio` (lines 40-41): floating point. Uniform counties carry only their size.
- The county ratio draws (lines 55, 74): floating point. The model takes their rounded white count directly. In the random mode, rounding a ratio in [0.25, 0.75) is encoded as `n - 2 <= 4 * w <= 3 * n + 2`. Python rounds halves to even; the model keeps only this bound.
- Unevenness (lines 43, 60, 79) and the centered-mode `W`, `B` (lines 66-67): floating point.
- `expected_c` (line 80) is computed exactly over the rationals, not in IEEE doubles.
- The `actual` draw and `logan_parman` (lines 81-85): floating point. The script raises `ZeroDivisionError` when `expected_c` is exactly 2.0. The model does not represent that crash.
- `expected_neighbor_state` (lines 90-94): floating point.
- `monte_carlo` (lines 97-126): a pandas aggregation around the generators.
- `plot_results`, `main` and the module-level calls (lines 129-155, and testing.py lines 13-17): plotting and printing.
- Python's recursion limit: the model recurses without bound. A very large population could exhaust the script's call stack.
- `counties.append` mutates the caller's list in place. The model is value-based. The only caller starts from a fresh empty list and uses the returned list, so no caller observes the difference.

## Findings

| source | as written | input that shows it | evidently intended | confidence | as-written member | corrected member |
|---|---|---|---|---|---|---|
| Simulation/testing.py:9 | keeps the sorted cut points as the first `j - 1` parts and appends `n - sum(cut points)` | `randomly_distribute(5, 3)` with the sample `[4, 3]` returns `[3, 4, -2]` | the function's name, and lines 13-14 that call `n` the total to distribute and `j` the number of elements sharing it, ask for `j` shares of `n`, none negative: the gaps between 0, the sorted cut points and `n` | medium, not executed | `Distribute.LastPartCanBeNegative` | `Distribute.DistributeByGaps` |
