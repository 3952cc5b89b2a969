/** The 10 x 10 map of src/lib.rs and one generation of its evolution: herbivores feed on plants in
    every cell, then predators feed on herbivores in every cell, then extinct units are removed. */
module World {
  import opened Cells
  import opened Hunting

  const GRID_SIZE: nat := 10

  /** Units whose quantity is at most this are removed at the end of a tick. */
  const EXTINCTION_THRESHOLD: real := 0.01

  datatype EvolutionConfig = EvolutionConfig(
    predator_death_rate: real,
    predator_eating_rate: real,
    vegeterian_death_rate: real,
    vegeterian_eating_rate: real,
    plant_growth_rate: real)

  /** The rates of the herbivore -> plant hunt. */
  function VegeterianHunt(config: EvolutionConfig): HuntConfig
  {
    HuntConfig(config.vegeterian_death_rate, config.plant_growth_rate, config.vegeterian_eating_rate)
  }

  /** The rates of the predator -> herbivore hunt: herbivores do not grow in this phase. */
  function PredatorHunt(config: EvolutionConfig): HuntConfig
  {
    HuntConfig(config.predator_death_rate, 0.0, config.predator_eating_rate)
  }

  // ---------------------------------------------------------------------------------------------
  // Extinction

  predicate Survives(u: Unit)
  {
    u.quantity > EXTINCTION_THRESHOLD
  }

  /** `units.retain(|unit| unit.quantity > 0.01)`: the surviving units, in their original order. */
  function Retain(units: seq<Unit>): (kept: seq<Unit>)
    ensures |kept| <= |units|
    ensures forall i :: 0 <= i < |kept| ==> Survives(kept[i])
    ensures forall u :: u in kept <==> u in units && Survives(u)
  {
    if units == [] then []
    else (if Survives(units[0]) then [units[0]] else []) + Retain(units[1..])
  }

  /** Retaining a concatenation retains each part, so survivors keep their relative order. */
  lemma {:induction false} RetainConcat(a: seq<Unit>, b: seq<Unit>)
    ensures Retain(a + b) == Retain(a) + Retain(b)
  {
    if a == [] {
      assert a + b == b;
    } else {
      assert (a + b)[0] == a[0];
      assert (a + b)[1..] == a[1..] + b;
      RetainConcat(a[1..], b);
    }
  }

  /** When every unit survives nothing is removed. */
  lemma {:induction false} RetainAllSurvivors(units: seq<Unit>)
    requires forall i :: 0 <= i < |units| ==> Survives(units[i])
    ensures Retain(units) == units
  {
    if units != [] {
      RetainAllSurvivors(units[1..]);
    }
  }

  /** Removing units never makes two of the remaining ones share an id. */
  ghost predicate DistinctIds(units: seq<Unit>)
  {
    forall i, j :: 0 <= i < j < |units| ==> units[i].id != units[j].id
  }

  lemma {:induction false} RetainKeepsDistinctIds(units: seq<Unit>)
    requires DistinctIds(units)
    ensures DistinctIds(Retain(units))
  {
    if units != [] {
      var rest := Retain(units[1..]);
      RetainKeepsDistinctIds(units[1..]);
      if Survives(units[0]) {
        forall j | 0 <= j < |rest|
          ensures units[0].id != rest[j].id
        {
          assert rest[j] in units[1..];
        }
        assert Retain(units) == [units[0]] + rest;
      }
    }
  }

  /** `finalize` on one cell: water stays water, ground keeps only its survivors. */
  function FinalizeCell(cell: Cell): Cell
  {
    match cell
    case Water => Water
    case Ground(units) => Ground(Retain(units))
  }

  // ---------------------------------------------------------------------------------------------
  // One tick of one cell

  /** What one tick does to one cell: the two hunts in order, the second reading the first's result,
      then the extinction rule. */
  function TickCell(cell: Cell, config: EvolutionConfig): Cell
  {
    var fed := HuntCell(cell, VegeterianAnimal, Plant, VegeterianHunt(config));
    FinalizeCell(HuntCell(fed, PredatorAnimal, VegeterianAnimal, PredatorHunt(config)))
  }

  /** The identifiers present in a cell. */
  function CellIds(cell: Cell): set<nat>
  {
    match cell
    case Water => {}
    case Ground(units) => set u | u in units :: u.id
  }

  /** A tick never turns water into ground or back, never creates a unit, leaves only units above the
      extinction threshold, and every unit left is one that was there before (same id and kind). */
  lemma {:induction false} TickCellFacts(cell: Cell, config: EvolutionConfig)
    ensures TickCell(cell, config).Water? <==> cell.Water?
    ensures cell.Ground? ==>
              var units := TickCell(cell, config).units;
              && |units| <= |cell.units|
              && (forall i :: 0 <= i < |units| ==> units[i].quantity > EXTINCTION_THRESHOLD)
              && (forall u :: u in units ==> exists v :: v in cell.units && v.id == u.id && v.kind == u.kind)
    ensures CellIds(TickCell(cell, config)) <= CellIds(cell)
    ensures cell.Ground? && DistinctIds(cell.units) ==> DistinctIds(TickCell(cell, config).units)
  {
    if cell.Ground? {
      var first := HuntUnits(cell.units, VegeterianAnimal, Plant, VegeterianHunt(config));
      var second := HuntUnits(first, PredatorAnimal, VegeterianAnimal, PredatorHunt(config));
      HuntKeepsShape(cell, VegeterianAnimal, Plant, VegeterianHunt(config));
      HuntKeepsShape(Ground(first), PredatorAnimal, VegeterianAnimal, PredatorHunt(config));
      var kept := Retain(second);
      assert TickCell(cell, config) == Ground(kept);
      forall u | u in kept
        ensures exists v :: v in cell.units && v.id == u.id && v.kind == u.kind
      {
        var i :| 0 <= i < |second| && second[i] == u;
        assert cell.units[i] in cell.units;
      }
      if DistinctIds(cell.units) {
        assert DistinctIds(second);
        RetainKeepsDistinctIds(second);
      }
    }
  }

  /** The two-unit scenario over a whole tick with no predators: the plant ends at
      50 + (100 - 50 * 0.075 * 50) * TICK_RATE and the vegeterian at 50 + 50 * (50 * 0.075 - 2.8) * TICK_RATE,
      both above the threshold. */
  lemma TwoUnitTick()
    ensures TickCell(Ground([Unit(Plant, 1, 50.0), Unit(VegeterianAnimal, 2, 50.0)]),
                     EvolutionConfig(1.0, 1.0, 2.8, 0.075, 100.0))
            == Ground([Unit(Plant, 1, 43.4375), Unit(VegeterianAnimal, 2, 53.5625)])
  {
    var config := EvolutionConfig(1.0, 1.0, 2.8, 0.075, 100.0);
    var units := [Unit(Plant, 1, 50.0), Unit(VegeterianAnimal, 2, 50.0)];
    TwoUnitScenario();
    var fed := HuntUnits(units, VegeterianAnimal, Plant, VegeterianHunt(config));
    assert fed == [Unit(Plant, 1, 43.4375), Unit(VegeterianAnimal, 2, 53.5625)];
    HuntWithoutHunters(fed, PredatorAnimal, VegeterianAnimal, PredatorHunt(config));
    var eaten := HuntUnits(fed, PredatorAnimal, VegeterianAnimal, PredatorHunt(config));
    assert eaten == fed;
    RetainAllSurvivors(eaten);
  }

  /** A single plant of quantity 50 and no animals, with plant growth 100, ends one tick at
      50 + 100 * TICK_RATE. */
  lemma SinglePlantTick(config: EvolutionConfig)
    requires config.plant_growth_rate == 100.0
    ensures TickCell(Ground([Unit(Plant, 1, 50.0)]), config) == Ground([Unit(Plant, 1, 50.0 + 100.0 * TICK_RATE)])
  {
    var units := [Unit(Plant, 1, 50.0)];
    HuntWithoutHunters(units, VegeterianAnimal, Plant, VegeterianHunt(config));
    var fed := HuntUnits(units, VegeterianAnimal, Plant, VegeterianHunt(config));
    assert fed == [Unit(Plant, 1, 57.5)];
    HuntKeepsShape(Ground(fed), PredatorAnimal, VegeterianAnimal, PredatorHunt(config));
    RetainAllSurvivors(HuntUnits(fed, PredatorAnimal, VegeterianAnimal, PredatorHunt(config)));
  }

  // ---------------------------------------------------------------------------------------------
  // The map

  class Map {
    const cells: array2<Cell>
    var generation: nat
    const units: nat
    const config: EvolutionConfig

    ghost predicate Valid()
      reads this
    {
      cells.Length0 == GRID_SIZE && cells.Length1 == GRID_SIZE
    }

    /** No two units of the map share an id, within a cell or across cells. */
    ghost predicate UniqueIds()
      reads this, cells
      requires Valid()
    {
      && (forall r, c :: 0 <= r < GRID_SIZE && 0 <= c < GRID_SIZE && cells[r, c].Ground? ==>
            DistinctIds(cells[r, c].units))
      && (forall r, c, r', c' ::
            0 <= r < GRID_SIZE && 0 <= c < GRID_SIZE && 0 <= r' < GRID_SIZE && 0 <= c' < GRID_SIZE && (r, c) != (r', c')
            ==> CellIds(cells[r, c]) !! CellIds(cells[r', c']))
    }

    /** A map at generation 0 holding the given layout; `units` is the number of ids issued for it. */
    constructor (config: EvolutionConfig, layout: seq<seq<Cell>>, units: nat)
      requires |layout| == GRID_SIZE && forall r :: 0 <= r < GRID_SIZE ==> |layout[r]| == GRID_SIZE
      ensures Valid() && fresh(cells)
      ensures this.config == config && generation == 0 && this.units == units
      ensures forall r, c :: 0 <= r < GRID_SIZE && 0 <= c < GRID_SIZE ==> cells[r, c] == layout[r][c]
    {
      this.config := config;
      this.generation := 0;
      this.units := units;
      this.cells := new Cell[GRID_SIZE, GRID_SIZE]((r, c) requires 0 <= r < GRID_SIZE && 0 <= c < GRID_SIZE => layout[r][c]);
    }

    /** Runs one hunt on every cell, row by row. */
    method HuntEveryCell(hunterKind: Kind, targetKind: Kind, evolution: HuntConfig)
      requires Valid()
      modifies cells
      ensures forall r, c :: 0 <= r < GRID_SIZE && 0 <= c < GRID_SIZE ==>
                cells[r, c] == HuntCell(old(cells[r, c]), hunterKind, targetKind, evolution)
    {
      for r := 0 to GRID_SIZE
        invariant forall r', c :: 0 <= r' < r && 0 <= c < GRID_SIZE ==>
                    cells[r', c] == HuntCell(old(cells[r', c]), hunterKind, targetKind, evolution)
        invariant forall r', c :: r <= r' < GRID_SIZE && 0 <= c < GRID_SIZE ==> cells[r', c] == old(cells[r', c])
      {
        for c := 0 to GRID_SIZE
          invariant forall r', c' :: 0 <= r' < r && 0 <= c' < GRID_SIZE ==>
                      cells[r', c'] == HuntCell(old(cells[r', c']), hunterKind, targetKind, evolution)
          invariant forall c' :: 0 <= c' < c ==>
                      cells[r, c'] == HuntCell(old(cells[r, c']), hunterKind, targetKind, evolution)
          invariant forall r', c' :: r <= r' < GRID_SIZE && 0 <= c' < GRID_SIZE && (r' > r || c' >= c) ==>
                      cells[r', c'] == old(cells[r', c'])
        {
          var hunted := Hunt(cells[r, c], hunterKind, targetKind, evolution);
          cells[r, c] := hunted;
        }
      }
    }

    /** `feed_vegeterians`: the herbivore -> plant hunt on every cell. */
    method FeedVegeterians()
      requires Valid()
      modifies cells
      ensures forall r, c :: 0 <= r < GRID_SIZE && 0 <= c < GRID_SIZE ==>
                cells[r, c] == HuntCell(old(cells[r, c]), VegeterianAnimal, Plant, VegeterianHunt(config))
    {
      HuntEveryCell(VegeterianAnimal, Plant, VegeterianHunt(config));
    }

    /** `feed_predators`: the predator -> herbivore hunt on every cell, with no growth term. */
    method FeedPredators()
      requires Valid()
      modifies cells
      ensures forall r, c :: 0 <= r < GRID_SIZE && 0 <= c < GRID_SIZE ==>
                cells[r, c] == HuntCell(old(cells[r, c]), PredatorAnimal, VegeterianAnimal, PredatorHunt(config))
    {
      HuntEveryCell(PredatorAnimal, VegeterianAnimal, PredatorHunt(config));
    }

    /** `finalize`: every ground cell keeps only the units above the extinction threshold. */
    method Finalize()
      requires Valid()
      modifies cells
      ensures forall r, c :: 0 <= r < GRID_SIZE && 0 <= c < GRID_SIZE ==> cells[r, c] == FinalizeCell(old(cells[r, c]))
    {
      for r := 0 to GRID_SIZE
        invariant forall r', c :: 0 <= r' < r && 0 <= c < GRID_SIZE ==> cells[r', c] == FinalizeCell(old(cells[r', c]))
        invariant forall r', c :: r <= r' < GRID_SIZE && 0 <= c < GRID_SIZE ==> cells[r', c] == old(cells[r', c])
      {
        for c := 0 to GRID_SIZE
          invariant forall r', c' :: 0 <= r' < r && 0 <= c' < GRID_SIZE ==>
                      cells[r', c'] == FinalizeCell(old(cells[r', c']))
          invariant forall c' :: 0 <= c' < c ==> cells[r, c'] == FinalizeCell(old(cells[r, c']))
          invariant forall r', c' :: r <= r' < GRID_SIZE && 0 <= c' < GRID_SIZE && (r' > r || c' >= c) ==>
                      cells[r', c'] == old(cells[r', c'])
        {
          match cells[r, c] {
            case Water =>
            case Ground(units) =>
              cells[r, c] := Ground(Retain(units));
          }
        }
      }
    }

    /** `tick`: one generation. Every cell evolves by `TickCell`, so no cell changes between water and
        ground, no unit is created, and every unit left is above the extinction threshold. */
    method Tick()
      requires Valid()
      modifies this, cells
      ensures Valid()
      ensures generation == old(generation) + 1
      ensures forall r, c :: 0 <= r < GRID_SIZE && 0 <= c < GRID_SIZE ==> cells[r, c] == TickCell(old(cells[r, c]), config)
      ensures forall r, c :: 0 <= r < GRID_SIZE && 0 <= c < GRID_SIZE ==>
                && (cells[r, c].Water? <==> old(cells[r, c]).Water?)
                && (cells[r, c].Ground? ==> |cells[r, c].units| <= |old(cells[r, c]).units|)
                && (cells[r, c].Ground? ==>
                      forall i :: 0 <= i < |cells[r, c].units| ==> cells[r, c].units[i].quantity > EXTINCTION_THRESHOLD)
      ensures old(UniqueIds()) ==> UniqueIds()
    {
      generation := generation + 1;
      FeedVegeterians();
      FeedPredators();
      Finalize();
      forall r, c | 0 <= r < GRID_SIZE && 0 <= c < GRID_SIZE
        ensures cells[r, c] == TickCell(old(cells[r, c]), config)
      {
      }
      forall r, c | 0 <= r < GRID_SIZE && 0 <= c < GRID_SIZE
        ensures cells[r, c].Water? <==> old(cells[r, c]).Water?
        ensures cells[r, c].Ground? ==> |cells[r, c].units| <= |old(cells[r, c]).units|
        ensures cells[r, c].Ground? ==>
                  forall i :: 0 <= i < |cells[r, c].units| ==> cells[r, c].units[i].quantity > EXTINCTION_THRESHOLD
      {
        TickCellFacts(old(cells[r, c]), config);
      }
      forall r, c | 0 <= r < GRID_SIZE && 0 <= c < GRID_SIZE
        ensures CellIds(cells[r, c]) <= CellIds(old(cells[r, c]))
        ensures cells[r, c].Ground? && DistinctIds(old(cells[r, c]).units) ==> DistinctIds(cells[r, c].units)
      {
        TickCellFacts(old(cells[r, c]), config);
      }
    }
  }
}
