# Ecosystem model: verified population dynamics

This project is a Dafny model of the population-dynamics engine of `ecosystem_modeling`.
The engine runs a 10 x 10 map of cells. Each cell is either water or ground, and a ground cell
holds units of three kinds: plants, vegeterian (herbivore) animals and predator animals. Each unit
has an id and a continuous quantity.

One tick (generation) of the map:
1. increments the generation counter;
2. runs the vegeterian -> plant hunt on every cell;
3. runs the predator -> vegeterian hunt on every cell, with no growth term;
4. removes every unit whose quantity is at most 0.01.

A hunt snapshots the `(index, quantity)` pairs of its targets and its hunters, then writes every new
quantity back into the cell at the recorded index. Every new quantity is computed from the snapshot.
The integration step is `TICK_RATE = 0.075`.

The model also covers the aggregation helpers of the visualisation script: row-major flattening of
a snapshot, per-kind totals of a cell, and per-cell time series across generations.

Files and modules:
- `ids.dfy` (`Ids`): the identifier allocator `IdGen`, a class whose counter `Next` increments.
- `cells.dfy` (`Cells`): kinds, units, cells, `CellData`, per-kind totals, and `FromData`, which
  builds a ground cell from unit counts.
- `hunt.dfy` (`Hunting`): the two-pass hunt. `HuntUnits` is the closed form. `Hunt` is the
  algorithm, with its snapshot loop and its two write-back loops, proved equal to `HuntUnits`.
- `world.dfy` (`World`): the extinction rule, the per-cell tick `TickCell`, and the class `Map`
  over an `array2<Cell>`, whose `Tick` is proved to apply `TickCell` to every cell.
- `visualization.dfy` (`Visualization`): `Flatten`, `ComputeCellStats` and `FetchStats`.

Quantities are Dafny `real`s and the arithmetic is exact. Ids and counters are unbounded `nat`s.

`hunt` takes `&mut Cell` in the source. Here `Hunt` takes the cell value and returns the updated
cell. Inside it, the unit vector is a local sequence that is updated at the recorded indices, and
each write reads the live quantity, as `+=` does in the source.

## Model

| member | source | states |
|---|---|---|
| `Ids.IdGen.constructor` | src/lib.rs:120-122 | a fresh allocator has counter 0 and has issued nothing |
| `Ids.IdGen.Next` | src/lib.rs:124-127 | increments the counter and returns the new value, so the k-th call returns k; the id is larger than every id issued before and is appended to the history |
| `Ids.IdGen.Total` | src/lib.rs:129-131 | equals the number of ids issued so far, and every issued id lies in `1..Total()` |
| `Ids.ConsecutiveIdsAreDistinct` | src/lib.rs:124-127 | the issued ids `1, 2, ...` are strictly increasing, so none is issued twice |
| `Cells.PushUnits` | src/lib.rs:89-109 | one `for` loop of `from_data`: appends `count` units of one kind and quantity, with the next `count` ids, and keeps what was there |
| `Cells.FromData` | src/lib.rs:80-112 | returns a Ground cell with exactly `plants + vegeterians + predators` units, all of quantity `unit_size`; plants come first, then vegeterians, then predators; the ids are the block `old counter + 1 .. new counter` |
| `Cells.KindTotalsPartition` | visualization/main.py:46-53 | every unit counts towards exactly one of the three per-kind totals, so the totals add up to the whole quantity |
| `Cells.QuantityOfAbsent` | visualization/main.py:46-53 | a kind that no unit has totals 0 |
| `Hunting.RoleOf` | src/lib.rs:331-337 | a unit of the target kind is a target, even when the hunter kind is the same kind; it is a hunter only if its kind is the hunter kind and not the target kind |
| `Hunting.SnapshotSound` | src/lib.rs:329-337 | every snapshot entry is the valid index of a unit with that role, paired with its quantity, and the indices strictly increase |
| `Hunting.SnapshotComplete` | src/lib.rs:331-337 | every unit with the role is recorded in the snapshot |
| `Hunting.TargetSnapshotSum` | src/lib.rs:357-360 | the recorded target quantities add up to the total quantity of the target kind |
| `Hunting.HunterSnapshotSum` | src/lib.rs:344-347 | the recorded hunter quantities add up to the hunter total, which is 0 when hunter kind and target kind coincide |
| `Hunting.TakeSnapshot` | src/lib.rs:329-337 | the first pass builds exactly the target and hunter snapshots |
| `Hunting.ConsumedFrom` | src/lib.rs:342-347 | the accumulator ends as `resource * consuming_rate * (sum of hunter quantities)` |
| `Hunting.Intake` | src/lib.rs:356-360 | the accumulator ends as `(sum of target quantities) * consuming_rate` |
| `Hunting.ReduceTargets` | src/lib.rs:339-351 | every target gets `old + (resource_growth - old * consuming_rate * hunter total) * TICK_RATE`; every other unit is unchanged |
| `Hunting.FeedHunters` | src/lib.rs:353-363 | every hunter gets `old + old * (target total * consuming_rate - hunter_death) * TICK_RATE`; every other unit keeps its value from the target pass |
| `Hunting.Hunt` | src/lib.rs:312-366 | the result equals the closed form `HuntCell`: water is unchanged, and on ground every new quantity is computed from the snapshot values |
| `Hunting.HuntKeepsShape` | src/lib.rs:325-337 | water stays water; on ground the length, the order, every kind and id, and the quantity of every unit of any other kind are unchanged |
| `Hunting.HuntWithoutHunters` | src/lib.rs:340-351 | with no hunters, every target gains exactly `resource_growth * TICK_RATE` |
| `Hunting.HuntWithoutTargets` | src/lib.rs:354-363 | with no targets, every hunter changes by exactly `-old * hunter_death * TICK_RATE` |
| `Hunting.HuntSameKindIsGrowthOnly` | src/lib.rs:331-337 | when hunter kind and target kind coincide, no unit is treated as a hunter: every unit of that kind is eaten by nobody and changes by exactly the growth term `resource_growth * TICK_RATE` |
| `Hunting.HuntersShareIntake` | src/lib.rs:354-363 | every hunter's quantity is multiplied by the same factor, `1 + (target total * consuming_rate - hunter_death) * TICK_RATE` |
| `Hunting.HuntDoesNotClamp` | src/lib.rs:349-350 | quantities are not clamped: a concrete hunt takes a plant to -137.5 |
| `Hunting.SinglePlantScenario` | src/lib.rs:340-351 | one plant of quantity 50 with growth 100 and no vegeterians reaches `50 + 100 * TICK_RATE` |
| `Hunting.TwoUnitScenario` | src/lib.rs:339-363 | with one plant and one vegeterian, both of quantity 50: the plant changes by `(100 - 50 * 0.075 * 50) * TICK_RATE` and the vegeterian by `50 * (50 * 0.075 - 2.8) * TICK_RATE` |
| `World.Retain` | src/lib.rs:289 | every survivor has quantity above 0.01; a unit survives exactly when it was there and its quantity is above 0.01; nothing is added |
| `World.RetainConcat` | src/lib.rs:289 | retaining a concatenation retains each part, so survivors keep their relative order |
| `World.RetainAllSurvivors` | src/lib.rs:289 | when every unit is above the threshold, nothing is removed |
| `World.RetainKeepsDistinctIds` | src/lib.rs:289 | removing units never makes two remaining units share an id |
| `World.TickCellFacts` | src/lib.rs:243-294 | on each cell a tick keeps the Water/Ground tag and never adds units; every survivor is above 0.01 and carries the id and kind of a unit that was there before; id sets only shrink and distinct ids stay distinct |
| `World.TwoUnitTick` | src/lib.rs:243-281 | a full tick on a plant and a vegeterian of quantity 50, with no predators, ends at exactly 43.4375 and 53.5625 |
| `World.SinglePlantTick` | src/lib.rs:243-281 | a full tick on a lone plant of quantity 50 with plant growth 100 ends at `50 + 100 * TICK_RATE` |
| `World.Map.constructor` | src/lib.rs:235-240 | the map starts at generation 0 with the given cell layout, configuration and unit count |
| `World.Map.HuntEveryCell` | src/lib.rs:253-262 | applies `HuntCell` to every one of the 10 x 10 cells, row by row |
| `World.Map.FeedVegeterians` | src/lib.rs:252-263 | every cell gets the vegeterian -> plant hunt with `(vegeterian_death_rate, plant_growth_rate, vegeterian_eating_rate)` |
| `World.Map.FeedPredators` | src/lib.rs:265-281 | every cell gets the predator -> vegeterian hunt with `(predator_death_rate, 0.0, predator_eating_rate)` |
| `World.Map.Finalize` | src/lib.rs:283-294 | water cells are untouched; every ground cell keeps exactly its units above 0.01, in order |
| `World.Map.Tick` | src/lib.rs:243-250 | generation + 1; every cell becomes `TickCell` of its old value, i.e. the predator hunt reads the herbivore hunt's result, then finalize; no tag changes, no unit is added, every survivor is above 0.01, and unique ids stay unique |
| `Visualization.Flatten` | visualization/main.py:11-12 | the length of the flattened matrix is the sum of the row lengths |
| `Visualization.FlattenAt` | visualization/main.py:11-12 | row-major order: element `j` of row `i` follows all the elements of the earlier rows |
| `Visualization.FlattenUniform` | visualization/main.py:11-12 | with rows of length `w`, the result has `rows * w` elements and element `(i, j)` is at `i * w + j` |
| `Visualization.ComputeCellStats` | visualization/main.py:40-61 | Water gives 0.0 for all three fields; Ground gives the per-kind quantity sums, which add up to the cell's whole quantity |
| `Visualization.ColumnEmptyBeyond` | visualization/main.py:70-76 | a cell index no generation has reached has no series yet |
| `Visualization.ColumnUniform` | visualization/main.py:66-80 | when every generation has the same cell count, each cell's series has one entry per generation, the g-th being its totals in generation g |
| `Visualization.MaxCellsUniform` | visualization/main.py:66-76 | when every generation has `w` cells, the largest generation has `w` cells |
| `Visualization.AddGeneration` | visualization/main.py:67-80 | one pass of the outer loop: afterwards the result is exactly the series of the generations seen so far |
| `Visualization.FetchStats` | visualization/main.py:64-81 | the result has one entry per cell index of the largest generation; entry `idx` is the series of totals of cell `idx` over the generations that have it; the plants, vegeterians and predators sequences of every entry have equal length and line up generation by generation; with a uniform cell count, `result[idx][k][g]` is the totals of `flatten(evolution[g])[idx]` |

## Left out

- `Cell::random_cell` (src/lib.rs:64-78): it draws its unit counts from a random number generator, which is not part of this model.
- `Map::experiment_flat` (src/lib.rs:153-241): a fixed scenario layout. It is reduced to `Map.constructor`, which takes the layout and the unit count as parameters. All of its `from_data` calls share one allocator. By `FromData`'s contract their id blocks are consecutive and disjoint, and `units` equals `id_gen.total()`.
- `impl Default for CellData` (src/lib.rs:25-34): only `experiment_flat` uses it, and that layout is not modelled (see the line above).
- `Cell::print_stats`, `Map::print_stats` and `impl fmt::Display for Map` (src/lib.rs:43-61, 296-303, 368-380): console output and formatting.
- `print_cells`, `experiment0` and `main` (visualization/main.py:84-128): console output, JSON file reading, directory creation and plotting.
- src/main.rs: an earlier prototype with an empty `tick`, a hardcoded layout and a duplicate allocator. It is not part of this model.
- IEEE-754 rounding: quantities are exact reals. The model does not claim bit-identical floating-point trajectories.
- `Ids.IdGen.Next`: does not model the overflow of the 32-bit counter, because ids are unbounded here (the scenarios issue at most a few dozen ids). The same holds for `generation` in `World.Map.Tick` and for the `u32` counts of `CellData`.
- `World.Retain`: `Vec::retain` is a standard-library call that filters in place. It is modelled as a pure function over the unit sequence, so the in-place compaction itself is not modelled.
- `Hunting.Hunt`: the `&mut Cell` is passed in and returned as a value. The model therefore does not capture aliasing of the cell, which cannot occur in the source either.
- The visualisation script reads its snapshots from JSON. Here they are values of the same `Cell` and `Unit` datatypes as the engine, and the JSON form is not modelled.
