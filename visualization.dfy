/** The aggregation helpers of visualization/main.py over per-generation snapshots of the map:
    row-major flattening, per-kind totals of a cell, and per-cell time series across generations. */
module Visualization {
  import opened Cells

  datatype CellStats = CellStats(plants: real, vegeterians: real, predators: real)

  datatype CellStatSequence = CellStatSequence(plants: seq<real>, vegeterians: seq<real>, predators: seq<real>)

  // ---------------------------------------------------------------------------------------------
  // flatten

  /** The sum of the row lengths. */
  function TotalLength<T>(matrix: seq<seq<T>>): nat
  {
    if matrix == [] then 0 else |matrix[0]| + TotalLength(matrix[1..])
  }

  /** `flatten`: the rows one after another. */
  function Flatten<T>(matrix: seq<seq<T>>): (flat: seq<T>)
    ensures |flat| == TotalLength(matrix)
  {
    if matrix == [] then [] else matrix[0] + Flatten(matrix[1..])
  }

  /** Row-major order: element `j` of row `i` sits after all the elements of the rows before it. */
  lemma {:induction false} FlattenAt<T>(matrix: seq<seq<T>>, i: nat, j: nat)
    requires i < |matrix| && j < |matrix[i]|
    ensures TotalLength(matrix[..i]) + j < |Flatten(matrix)|
    ensures Flatten(matrix)[TotalLength(matrix[..i]) + j] == matrix[i][j]
  {
    if i > 0 {
      FlattenAt(matrix[1..], i - 1, j);
      assert matrix[..i][0] == matrix[0];
      assert matrix[..i][1..] == matrix[1..][..i - 1];
    } else {
      assert matrix[..i] == [];
    }
  }

  /** With rows of length `width`, the first `i` rows hold `i * width` elements. */
  lemma {:induction false} PrefixLengthUniform<T>(matrix: seq<seq<T>>, width: nat, i: nat)
    requires forall r :: 0 <= r < |matrix| ==> |matrix[r]| == width
    requires i <= |matrix|
    ensures TotalLength(matrix[..i]) == i * width
  {
    if i > 0 {
      var tail := matrix[1..];
      assert forall r :: 0 <= r < |tail| ==> tail[r] == matrix[r + 1];
      PrefixLengthUniform(tail, width, i - 1);
      assert matrix[..i][0] == matrix[0];
      assert matrix[..i][1..] == tail[..i - 1];
    } else {
      assert matrix[..i] == [];
    }
  }

  /** A matrix whose rows all have length `width` flattens to `|matrix| * width` elements, element
      `(i, j)` at position `i * width + j`. */
  lemma FlattenUniform<T>(matrix: seq<seq<T>>, width: nat, i: nat, j: nat)
    requires forall r :: 0 <= r < |matrix| ==> |matrix[r]| == width
    requires i < |matrix| && j < width
    ensures |Flatten(matrix)| == |matrix| * width
    ensures i * width + j < |Flatten(matrix)| && Flatten(matrix)[i * width + j] == matrix[i][j]
  {
    PrefixLengthUniform(matrix, width, |matrix|);
    assert matrix[..|matrix|] == matrix;
    PrefixLengthUniform(matrix, width, i);
    FlattenAt(matrix, i, j);
  }

  // ---------------------------------------------------------------------------------------------
  // cell_stats

  /** The per-kind totals of a cell; water has none. */
  function StatsOf(cell: Cell): CellStats
  {
    match cell
    case Water => CellStats(0.0, 0.0, 0.0)
    case Ground(units) =>
      CellStats(QuantityOf(units, Plant), QuantityOf(units, VegeterianAnimal), QuantityOf(units, PredatorAnimal))
  }

  /** `cell_stats`: one pass over the units adding each quantity to the total of its kind. */
  method ComputeCellStats(cell: Cell) returns (stats: CellStats)
    ensures cell.Water? ==> stats == CellStats(0.0, 0.0, 0.0)
    ensures cell.Ground? ==>
              && stats.plants == QuantityOf(cell.units, Plant)
              && stats.vegeterians == QuantityOf(cell.units, VegeterianAnimal)
              && stats.predators == QuantityOf(cell.units, PredatorAnimal)
    ensures cell.Ground? ==> stats.plants + stats.vegeterians + stats.predators == TotalQuantity(cell.units)
    ensures stats == StatsOf(cell)
  {
    var plants, vegeterians, predators := 0.0, 0.0, 0.0;
    match cell {
      case Ground(units) =>
        var k := 0;
        while k < |units|
          invariant k <= |units|
          invariant plants == QuantityOf(units[..k], Plant)
          invariant vegeterians == QuantityOf(units[..k], VegeterianAnimal)
          invariant predators == QuantityOf(units[..k], PredatorAnimal)
        {
          assert units[..k + 1][..k] == units[..k];
          var unit := units[k];
          match unit.kind {
            case Plant => plants := plants + unit.quantity;
            case VegeterianAnimal => vegeterians := vegeterians + unit.quantity;
            case PredatorAnimal => predators := predators + unit.quantity;
          }
          k := k + 1;
        }
        assert units[..k] == units;
        KindTotalsPartition(units);
      case Water =>
    }
    stats := CellStats(plants, vegeterians, predators);
  }

  // ---------------------------------------------------------------------------------------------
  // fetch_stats

  /** The largest number of cells any generation has. */
  function MaxCells(evolution: seq<seq<seq<Cell>>>): nat
  {
    if evolution == [] then 0
    else
      var n := |evolution| - 1;
      var m := MaxCells(evolution[..n]);
      var here := |Flatten(evolution[n])|;
      if m < here then here else m
  }

  /** The statistics of cell `idx` in every generation that has a cell `idx`, in generation order. */
  function Column(evolution: seq<seq<seq<Cell>>>, idx: nat): seq<CellStats>
  {
    if evolution == [] then []
    else
      var n := |evolution| - 1;
      var cells := Flatten(evolution[n]);
      Column(evolution[..n], idx) + (if idx < |cells| then [StatsOf(cells[idx])] else [])
  }

  /** A series of statistics split into its three per-kind sequences. */
  function Unzip(column: seq<CellStats>): (s: CellStatSequence)
    ensures |s.plants| == |s.vegeterians| == |s.predators| == |column|
    ensures forall g :: 0 <= g < |column| ==>
              s.plants[g] == column[g].plants && s.vegeterians[g] == column[g].vegeterians
              && s.predators[g] == column[g].predators
  {
    CellStatSequence(seq(|column|, g requires 0 <= g < |column| => column[g].plants),
                     seq(|column|, g requires 0 <= g < |column| => column[g].vegeterians),
                     seq(|column|, g requires 0 <= g < |column| => column[g].predators))
  }

  /** No generation so far has a cell `idx`, so its series is still empty. */
  lemma {:induction false} ColumnEmptyBeyond(evolution: seq<seq<seq<Cell>>>, idx: nat)
    requires idx >= MaxCells(evolution)
    ensures Column(evolution, idx) == []
  {
    if evolution != [] {
      ColumnEmptyBeyond(evolution[..|evolution| - 1], idx);
    }
  }

  /** When every generation has `width` cells, the series of every cell has one entry per generation,
      the g-th being the statistics of that cell in generation g. */
  lemma {:induction false} ColumnUniform(evolution: seq<seq<seq<Cell>>>, width: nat, idx: nat)
    requires forall g :: 0 <= g < |evolution| ==> |Flatten(evolution[g])| == width
    requires idx < width
    ensures |Column(evolution, idx)| == |evolution|
    ensures forall g :: 0 <= g < |evolution| ==> Column(evolution, idx)[g] == StatsOf(Flatten(evolution[g])[idx])
  {
    if evolution != [] {
      var n := |evolution| - 1;
      var front := evolution[..n];
      assert forall g :: 0 <= g < n ==> front[g] == evolution[g];
      ColumnUniform(front, width, idx);
    }
  }

  /** When every generation has `width` cells, so does the largest. */
  lemma {:induction false} MaxCellsUniform(evolution: seq<seq<seq<Cell>>>, width: nat)
    requires forall g :: 0 <= g < |evolution| ==> |Flatten(evolution[g])| == width
    ensures MaxCells(evolution) == if evolution == [] then 0 else width
  {
    if evolution != [] {
      var n := |evolution| - 1;
      var front := evolution[..n];
      assert forall g :: 0 <= g < n ==> front[g] == evolution[g];
      MaxCellsUniform(front, width);
    }
  }

  lemma ColumnStep(evolution: seq<seq<seq<Cell>>>, g: nat, idx: nat)
    requires g < |evolution|
    ensures var cells := Flatten(evolution[g]);
            Column(evolution[..g + 1], idx)
            == Column(evolution[..g], idx) + (if idx < |cells| then [StatsOf(cells[idx])] else [])
    ensures var m := MaxCells(evolution[..g]);
            var here := |Flatten(evolution[g])|;
            MaxCells(evolution[..g + 1]) == if m < here then here else m
  {
    assert evolution[..g + 1][..g] == evolution[..g];
  }

  lemma UnzipSnoc(column: seq<CellStats>, s: CellStats)
    ensures var u := Unzip(column);
            Unzip(column + [s]) == CellStatSequence(u.plants + [s.plants], u.vegeterians + [s.vegeterians],
                                                    u.predators + [s.predators])
  {
  }

  /** Every generation has as many cells as the first. */
  predicate UniformWidth(evolution: seq<seq<seq<Cell>>>)
  {
    forall g :: 0 <= g < |evolution| ==> |Flatten(evolution[g])| == |Flatten(evolution[0])|
  }

  /** The series built from the first `g` generations: one entry per cell index seen so far. */
  ghost predicate SeriesUpTo(result: seq<CellStatSequence>, evolution: seq<seq<seq<Cell>>>, g: nat)
    requires g <= |evolution|
  {
    && |result| == MaxCells(evolution[..g])
    && forall idx :: 0 <= idx < |result| ==> result[idx] == Unzip(Column(evolution[..g], idx))
  }

  /** The body of the outer loop of `fetch_stats`: adds generation `g` to the series. */
  method AddGeneration(result0: seq<CellStatSequence>, evolution: seq<seq<seq<Cell>>>, g: nat)
    returns (result: seq<CellStatSequence>)
    requires g < |evolution| && SeriesUpTo(result0, evolution, g)
    ensures SeriesUpTo(result, evolution, g + 1)
  {
    result := result0;
    var cells := Flatten(evolution[g]);
    for idx := 0 to |cells|
      invariant |result| == if |result0| < idx then idx else |result0|
      invariant forall k :: 0 <= k < idx ==> result[k] == Unzip(Column(evolution[..g + 1], k))
      invariant forall k :: idx <= k < |result| ==> result[k] == result0[k]
    {
      var stats := ComputeCellStats(cells[idx]);
      ColumnStep(evolution, g, idx);
      if |result| < idx + 1 {
        ColumnEmptyBeyond(evolution[..g], idx);
        result := result + [CellStatSequence([stats.plants], [stats.vegeterians], [stats.predators])];
      } else {
        UnzipSnoc(Column(evolution[..g], idx), stats);
        result := result[idx := CellStatSequence(result[idx].plants + [stats.plants],
                                                 result[idx].vegeterians + [stats.vegeterians],
                                                 result[idx].predators + [stats.predators])];
      }
    }
    ColumnStep(evolution, g, 0);
    forall k | |cells| <= k < |result|
      ensures result[k] == Unzip(Column(evolution[..g + 1], k))
    {
      ColumnStep(evolution, g, k);
    }
  }

  /** `fetch_stats`: for every cell index, the time series of its per-kind totals. An entry is created
      the first time a generation has that index, and later generations append to it; when all
      generations have the same number of cells, entry `idx` holds that cell's totals in every generation. */
  method FetchStats(evolution: seq<seq<seq<Cell>>>) returns (result: seq<CellStatSequence>)
    ensures |result| == MaxCells(evolution)
    ensures forall idx :: 0 <= idx < |result| ==> result[idx] == Unzip(Column(evolution, idx))
    ensures forall idx :: 0 <= idx < |result| ==>
              |result[idx].plants| == |result[idx].vegeterians| == |result[idx].predators|
    ensures UniformWidth(evolution) ==> |result| == if evolution == [] then 0 else |Flatten(evolution[0])|
    ensures UniformWidth(evolution) ==>
              forall idx, g :: 0 <= idx < |result| && 0 <= g < |evolution| ==>
                && |result[idx].plants| == |evolution|
                && result[idx].plants[g] == StatsOf(Flatten(evolution[g])[idx]).plants
                && result[idx].vegeterians[g] == StatsOf(Flatten(evolution[g])[idx]).vegeterians
                && result[idx].predators[g] == StatsOf(Flatten(evolution[g])[idx]).predators
  {
    result := [];
    for g := 0 to |evolution|
      invariant SeriesUpTo(result, evolution, g)
    {
      result := AddGeneration(result, evolution, g);
    }
    assert evolution[..|evolution|] == evolution;
    if UniformWidth(evolution) && evolution != [] {
      var width := |Flatten(evolution[0])|;
      MaxCellsUniform(evolution, width);
      forall idx | 0 <= idx < |result|
        ensures |Column(evolution, idx)| == |evolution|
        ensures forall g :: 0 <= g < |evolution| ==> Column(evolution, idx)[g] == StatsOf(Flatten(evolution[g])[idx])
      {
        ColumnUniform(evolution, width, idx);
      }
    }
  }
}
