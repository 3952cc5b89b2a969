/** The entity model of src/lib.rs: trophic kinds, units, cells, and building a cell from unit counts. */
module Cells {
  import opened Ids

  datatype Kind = Plant | VegeterianAnimal | PredatorAnimal

  /** One population record; `quantity` is a continuous biomass. */
  datatype Unit = Unit(kind: Kind, id: nat, quantity: real)

  /** A grid cell: uninhabitable water, or ground holding a sequence of units. */
  datatype Cell = Water | Ground(units: seq<Unit>)

  /** A request for a fresh ground cell: how many units of each kind, and their common quantity. */
  datatype CellData = CellData(plants: nat, vegeterians: nat, predators: nat, unit_size: real)

  /** Total quantity of the units of kind `k`, summed from the front of the sequence. */
  function QuantityOf(units: seq<Unit>, k: Kind): real
  {
    if units == [] then 0.0
    else
      var n := |units| - 1;
      QuantityOf(units[..n], k) + (if units[n].kind == k then units[n].quantity else 0.0)
  }

  /** Total quantity of all units, whatever their kind. */
  function TotalQuantity(units: seq<Unit>): real
  {
    if units == [] then 0.0 else TotalQuantity(units[..|units| - 1]) + units[|units| - 1].quantity
  }

  /** A kind that no unit has contributes nothing. */
  lemma {:induction false} QuantityOfAbsent(units: seq<Unit>, k: Kind)
    requires forall i :: 0 <= i < |units| ==> units[i].kind != k
    ensures QuantityOf(units, k) == 0.0
  {
    if units != [] {
      QuantityOfAbsent(units[..|units| - 1], k);
    }
  }

  /** Every unit has exactly one kind, so the three per-kind totals add up to the total quantity. */
  lemma {:induction false} KindTotalsPartition(units: seq<Unit>)
    ensures QuantityOf(units, Plant) + QuantityOf(units, VegeterianAnimal) + QuantityOf(units, PredatorAnimal)
            == TotalQuantity(units)
  {
    if units != [] {
      KindTotalsPartition(units[..|units| - 1]);
    }
  }

  /** The kind `from_data` gives its `i`-th unit: plants first, then vegeterians, then predators. */
  function SlotKind(request: CellData, i: nat): Kind
  {
    if i < request.plants then Plant
    else if i < request.plants + request.vegeterians then VegeterianAnimal
    else PredatorAnimal
  }

  /** The identifiers of a sequence of units, in order. */
  function IdsOf(units: seq<Unit>): (ids: seq<nat>)
    ensures |ids| == |units| && forall i :: 0 <= i < |units| ==> ids[i] == units[i].id
  {
    seq(|units|, i requires 0 <= i < |units| => units[i].id)
  }

  /** Appends `count` units of kind `kind` and quantity `size`, each with a fresh id. */
  method PushUnits(idGen: IdGen, units: seq<Unit>, kind: Kind, count: nat, size: real) returns (result: seq<Unit>)
    requires idGen.Valid()
    modifies idGen
    ensures idGen.Valid()
    ensures idGen.counter == old(idGen.counter) + count
    ensures |result| == |units| + count && result[..|units|] == units
    ensures forall i :: |units| <= i < |result| ==>
              result[i] == Unit(kind, old(idGen.counter) + 1 + (i - |units|), size)
  {
    result := units;
    var pushed := 0;
    while pushed < count
      invariant pushed <= count
      invariant idGen.Valid()
      invariant idGen.counter == old(idGen.counter) + pushed
      invariant |result| == |units| + pushed && result[..|units|] == units
      invariant forall i :: |units| <= i < |result| ==>
                  result[i] == Unit(kind, old(idGen.counter) + 1 + (i - |units|), size)
    {
      var id := idGen.Next();
      result := result + [Unit(kind, id, size)];
      pushed := pushed + 1;
    }
  }

  /** `Cell::from_data`: a ground cell with exactly the requested units, all of quantity `unit_size`,
      ordered plants, vegeterians, predators, whose ids are the next consecutive block of the allocator. */
  method FromData(idGen: IdGen, request: CellData) returns (cell: Cell)
    requires idGen.Valid()
    modifies idGen
    ensures idGen.Valid()
    ensures cell.Ground?
    ensures |cell.units| == request.plants + request.vegeterians + request.predators
    ensures idGen.counter == old(idGen.counter) + |cell.units|
    ensures forall i :: 0 <= i < |cell.units| ==>
              cell.units[i] == Unit(SlotKind(request, i), old(idGen.counter) + 1 + i, request.unit_size)
    ensures idGen.issued == old(idGen.issued) + IdsOf(cell.units)
  {
    var units := [];
    units := PushUnits(idGen, units, Plant, request.plants, request.unit_size);
    units := PushUnits(idGen, units, VegeterianAnimal, request.vegeterians, request.unit_size);
    units := PushUnits(idGen, units, PredatorAnimal, request.predators, request.unit_size);
    cell := Ground(units);
    ghost var ids := IdsOf(units);
    assert forall k :: 0 <= k < |ids| ==> ids[k] == old(idGen.counter) + 1 + k;
    assert idGen.issued == old(idGen.issued) + ids by {
      assert |idGen.issued| == |old(idGen.issued)| + |ids|;
      forall k | 0 <= k < |idGen.issued|
        ensures idGen.issued[k] == (old(idGen.issued) + ids)[k]
      {
        if k >= |old(idGen.issued)| {
          assert (old(idGen.issued) + ids)[k] == ids[k - |old(idGen.issued)|];
        }
      }
    }
  }
}
