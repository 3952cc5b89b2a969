/** The trophic update `hunt` of src/lib.rs: one hunter kind feeds on one target kind inside a cell,
    for one tick, with every new quantity computed from a snapshot taken before any write. */
module Hunting {
  import opened Cells

  /** The fixed integration step. */
  const TICK_RATE: real := 0.075

  datatype HuntConfig = HuntConfig(hunter_death: real, resource_growth: real, consuming_rate: real)

  /** How one call of `hunt` treats a unit. A unit of the target kind is a target even when the
      hunter kind is the same kind (the source tests the target kind first). */
  datatype Role = Target | Hunter | Bystander

  function RoleOf(u: Unit, hunterKind: Kind, targetKind: Kind): (r: Role)
    ensures r == Target <==> u.kind == targetKind
    ensures r == Hunter <==> u.kind != targetKind && u.kind == hunterKind
  {
    if u.kind == targetKind then Target else if u.kind == hunterKind then Hunter else Bystander
  }

  // ---------------------------------------------------------------------------------------------
  // The closed form of one hunt

  /** Total quantity of the units treated as hunters. */
  function HunterTotal(units: seq<Unit>, hunterKind: Kind, targetKind: Kind): real
  {
    if hunterKind == targetKind then 0.0 else QuantityOf(units, hunterKind)
  }

  /** The quantity a unit has after the hunt, from the quantities of the cell before it:
      a target grows by `resource_growth` and loses what all hunters eat from it;
      a hunter changes in proportion to itself, by the common intake minus its death rate. */
  function HuntedQuantity(u: Unit, units: seq<Unit>, hunterKind: Kind, targetKind: Kind, evolution: HuntConfig): real
  {
    match RoleOf(u, hunterKind, targetKind)
    case Target =>
      u.quantity
      + (evolution.resource_growth
         - u.quantity * evolution.consuming_rate * HunterTotal(units, hunterKind, targetKind)) * TICK_RATE
    case Hunter =>
      u.quantity
      + u.quantity * (QuantityOf(units, targetKind) * evolution.consuming_rate - evolution.hunter_death) * TICK_RATE
    case Bystander =>
      u.quantity
  }

  /** The unit sequence after the hunt: each unit keeps its place, kind and id. */
  function HuntUnits(units: seq<Unit>, hunterKind: Kind, targetKind: Kind, evolution: HuntConfig): seq<Unit>
  {
    seq(|units|, i requires 0 <= i < |units| =>
      units[i].(quantity := HuntedQuantity(units[i], units, hunterKind, targetKind, evolution)))
  }

  /** The cell after the hunt: water is left alone. */
  function HuntCell(cell: Cell, hunterKind: Kind, targetKind: Kind, evolution: HuntConfig): Cell
  {
    match cell
    case Water => Water
    case Ground(units) => Ground(HuntUnits(units, hunterKind, targetKind, evolution))
  }

  // ---------------------------------------------------------------------------------------------
  // The snapshot taken by the first pass

  /** Sum of the recorded quantities, from the front. */
  function PairSum(s: seq<(nat, real)>): real
  {
    if s == [] then 0.0 else PairSum(s[..|s| - 1]) + s[|s| - 1].1
  }

  /** The `(index, quantity)` pairs of the units with role `role`, in index order. */
  function Snapshot(units: seq<Unit>, role: Role, hunterKind: Kind, targetKind: Kind): seq<(nat, real)>
  {
    if units == [] then []
    else
      var n := |units| - 1;
      var s := Snapshot(units[..n], role, hunterKind, targetKind);
      if RoleOf(units[n], hunterKind, targetKind) == role then s + [(n, units[n].quantity)] else s
  }

  /** Every entry of `s` is a valid index of a unit with the given role, paired with that unit's
      quantity, and the indices strictly increase. */
  ghost predicate SoundSnapshot(s: seq<(nat, real)>, units: seq<Unit>, role: Role, hunterKind: Kind, targetKind: Kind)
  {
    && (forall k :: 0 <= k < |s| ==>
          s[k].0 < |units| && RoleOf(units[s[k].0], hunterKind, targetKind) == role
          && s[k].1 == units[s[k].0].quantity)
    && (forall j, k :: 0 <= j < k < |s| ==> s[j].0 < s[k].0)
  }

  lemma {:induction false} SnapshotSound(units: seq<Unit>, role: Role, hunterKind: Kind, targetKind: Kind)
    ensures SoundSnapshot(Snapshot(units, role, hunterKind, targetKind), units, role, hunterKind, targetKind)
  {
    if units != [] {
      var n := |units| - 1;
      var front := units[..n];
      SnapshotSound(front, role, hunterKind, targetKind);
      var s := Snapshot(front, role, hunterKind, targetKind);
      assert forall k :: 0 <= k < |s| ==> s[k].0 < n && front[s[k].0] == units[s[k].0];
      if RoleOf(units[n], hunterKind, targetKind) == role {
        var s' := s + [(n, units[n].quantity)];
        assert Snapshot(units, role, hunterKind, targetKind) == s';
        assert forall k :: 0 <= k < |s| ==> s'[k] == s[k];
      }
    }
  }

  /** Every unit with the given role is recorded in the snapshot. */
  lemma {:induction false} SnapshotComplete(units: seq<Unit>, role: Role, hunterKind: Kind, targetKind: Kind, i: nat)
    requires i < |units| && RoleOf(units[i], hunterKind, targetKind) == role
    ensures var s := Snapshot(units, role, hunterKind, targetKind);
            exists k :: 0 <= k < |s| && s[k].0 == i
  {
    var n := |units| - 1;
    var s := Snapshot(units[..n], role, hunterKind, targetKind);
    if i == n {
      var s' := s + [(n, units[n].quantity)];
      assert Snapshot(units, role, hunterKind, targetKind) == s';
      assert s'[|s|].0 == i;
    } else {
      assert units[..n][i] == units[i];
      SnapshotComplete(units[..n], role, hunterKind, targetKind, i);
      var k :| 0 <= k < |s| && s[k].0 == i;
      if RoleOf(units[n], hunterKind, targetKind) == role {
        assert (s + [(n, units[n].quantity)])[k].0 == i;
      }
    }
  }

  /** Extending a snapshot prefix by one entry adds that entry's quantity to its sum. */
  lemma PairSumPrefix(s: seq<(nat, real)>, h: nat)
    requires h < |s|
    ensures PairSum(s[..h + 1]) == PairSum(s[..h]) + s[h].1
  {
    assert s[..h + 1][..h] == s[..h];
  }

  /** The quantities recorded for targets add up to the target kind's total. */
  lemma {:induction false} TargetSnapshotSum(units: seq<Unit>, hunterKind: Kind, targetKind: Kind)
    ensures PairSum(Snapshot(units, Target, hunterKind, targetKind)) == QuantityOf(units, targetKind)
  {
    if units != [] {
      var n := |units| - 1;
      TargetSnapshotSum(units[..n], hunterKind, targetKind);
      var before := Snapshot(units[..n], Target, hunterKind, targetKind);
      var s := before + [(n, units[n].quantity)];
      PairSumPrefix(s, |before|);
      assert s[..|before| + 1] == s && s[..|before|] == before;
    }
  }

  /** The quantities recorded for hunters add up to the hunter total. */
  lemma {:induction false} HunterSnapshotSum(units: seq<Unit>, hunterKind: Kind, targetKind: Kind)
    ensures PairSum(Snapshot(units, Hunter, hunterKind, targetKind)) == HunterTotal(units, hunterKind, targetKind)
  {
    if units != [] {
      var n := |units| - 1;
      HunterSnapshotSum(units[..n], hunterKind, targetKind);
      var before := Snapshot(units[..n], Hunter, hunterKind, targetKind);
      var s := before + [(n, units[n].quantity)];
      PairSumPrefix(s, |before|);
      assert s[..|before| + 1] == s && s[..|before|] == before;
    }
  }

  // ---------------------------------------------------------------------------------------------
  // The algorithm

  /** The first pass: one scan that records `(index, quantity)` for every target and every hunter. */
  method TakeSnapshot(units: seq<Unit>, hunterKind: Kind, targetKind: Kind)
    returns (targets: seq<(nat, real)>, hunters: seq<(nat, real)>)
    ensures targets == Snapshot(units, Target, hunterKind, targetKind)
    ensures hunters == Snapshot(units, Hunter, hunterKind, targetKind)
  {
    targets, hunters := [], [];
    var idx := 0;
    while idx < |units|
      invariant idx <= |units|
      invariant targets == Snapshot(units[..idx], Target, hunterKind, targetKind)
      invariant hunters == Snapshot(units[..idx], Hunter, hunterKind, targetKind)
    {
      assert units[..idx + 1][..idx] == units[..idx];
      var unit := units[idx];
      if unit.kind == targetKind {
        targets := targets + [(idx, unit.quantity)];
      } else if unit.kind == hunterKind {
        hunters := hunters + [(idx, unit.quantity)];
      }
      idx := idx + 1;
    }
    assert units[..idx] == units;
  }

  /** What all recorded hunters eat from one target of quantity `resource`. */
  method ConsumedFrom(resource: real, consumingRate: real, hunters: seq<(nat, real)>) returns (consumed: real)
    ensures consumed == resource * consumingRate * PairSum(hunters)
  {
    consumed := 0.0;
    var h := 0;
    while h < |hunters|
      invariant h <= |hunters|
      invariant consumed == resource * consumingRate * PairSum(hunters[..h])
    {
      var (_, population) := hunters[h];
      PairSumPrefix(hunters, h);
      consumed := consumed + resource * consumingRate * population;
      h := h + 1;
    }
    assert hunters[..h] == hunters;
  }

  /** The per-capita intake of a hunter: what it eats from all recorded targets. */
  method Intake(consumingRate: real, targets: seq<(nat, real)>) returns (consumed: real)
    ensures consumed == PairSum(targets) * consumingRate
  {
    consumed := 0.0;
    var k := 0;
    while k < |targets|
      invariant k <= |targets|
      invariant consumed == PairSum(targets[..k]) * consumingRate
    {
      var (_, resource) := targets[k];
      PairSumPrefix(targets, k);
      consumed := consumed + resource * consumingRate;
      k := k + 1;
    }
    assert targets[..k] == targets;
  }

  /** The second pass: every target, at its recorded index, gets its hunted quantity; nothing else changes. */
  method ReduceTargets(units0: seq<Unit>, targets: seq<(nat, real)>, hunters: seq<(nat, real)>,
                       hunterKind: Kind, targetKind: Kind, evolution: HuntConfig)
    returns (units: seq<Unit>)
    requires targets == Snapshot(units0, Target, hunterKind, targetKind)
    requires hunters == Snapshot(units0, Hunter, hunterKind, targetKind)
    ensures |units| == |units0|
    ensures forall i :: 0 <= i < |units| ==>
              units[i] == if units0[i].kind == targetKind
                          then HuntUnits(units0, hunterKind, targetKind, evolution)[i]
                          else units0[i]
  {
    ghost var hunted := HuntUnits(units0, hunterKind, targetKind, evolution);
    SnapshotSound(units0, Target, hunterKind, targetKind);
    HunterSnapshotSum(units0, hunterKind, targetKind);
    units := units0;
    var t := 0;
    while t < |targets|
      invariant t <= |targets| && |units| == |units0|
      invariant forall k :: 0 <= k < t ==> units[targets[k].0] == hunted[targets[k].0]
      invariant forall k :: t <= k < |targets| ==> units[targets[k].0] == units0[targets[k].0]
      invariant forall i :: 0 <= i < |units| && units0[i].kind != targetKind ==> units[i] == units0[i]
    {
      var (targetIdx, resource) := targets[t];
      var consumed := ConsumedFrom(resource, evolution.consuming_rate, hunters);
      var dr := evolution.resource_growth - consumed;
      units := units[targetIdx := units[targetIdx].(quantity := units[targetIdx].quantity + dr * TICK_RATE)];
      t := t + 1;
    }
    forall i | 0 <= i < |units| && units0[i].kind == targetKind
      ensures units[i] == hunted[i]
    {
      SnapshotComplete(units0, Target, hunterKind, targetKind, i);
    }
  }

  /** The third pass: every hunter, at its recorded index, gets its hunted quantity; nothing else changes.
      The targets have been written already, but no hunter index is a target index. */
  method FeedHunters(units0: seq<Unit>, units1: seq<Unit>, targets: seq<(nat, real)>, hunters: seq<(nat, real)>,
                     hunterKind: Kind, targetKind: Kind, evolution: HuntConfig)
    returns (units: seq<Unit>)
    requires targets == Snapshot(units0, Target, hunterKind, targetKind)
    requires hunters == Snapshot(units0, Hunter, hunterKind, targetKind)
    requires |units1| == |units0|
    requires forall i :: 0 <= i < |units0| && units0[i].kind != targetKind ==> units1[i] == units0[i]
    ensures |units| == |units0|
    ensures forall i :: 0 <= i < |units| ==>
              units[i] == if RoleOf(units0[i], hunterKind, targetKind) == Hunter
                          then HuntUnits(units0, hunterKind, targetKind, evolution)[i]
                          else units1[i]
  {
    ghost var hunted := HuntUnits(units0, hunterKind, targetKind, evolution);
    SnapshotSound(units0, Hunter, hunterKind, targetKind);
    TargetSnapshotSum(units0, hunterKind, targetKind);
    units := units1;
    var h := 0;
    while h < |hunters|
      invariant h <= |hunters| && |units| == |units0|
      invariant forall k :: 0 <= k < h ==> units[hunters[k].0] == hunted[hunters[k].0]
      invariant forall k :: h <= k < |hunters| ==> units[hunters[k].0] == units0[hunters[k].0]
      invariant forall i :: 0 <= i < |units| && RoleOf(units0[i], hunterKind, targetKind) != Hunter ==>
                  units[i] == units1[i]
    {
      var (hunterIdx, population) := hunters[h];
      var consumed := Intake(evolution.consuming_rate, targets);
      var dn := population * (consumed - evolution.hunter_death);
      assert units[hunterIdx] == units0[hunterIdx];
      units := units[hunterIdx := units[hunterIdx].(quantity := units[hunterIdx].quantity + dn * TICK_RATE)];
      assert units[hunterIdx] == hunted[hunterIdx];
      h := h + 1;
    }
    forall i | 0 <= i < |units| && RoleOf(units0[i], hunterKind, targetKind) == Hunter
      ensures units[i] == hunted[i]
    {
      SnapshotComplete(units0, Hunter, hunterKind, targetKind, i);
    }
  }

  /** `hunt`: snapshot the targets and the hunters, then write every target and every hunter back
      at its recorded index, each new value computed only from snapshot values. */
  method Hunt(cell: Cell, hunterKind: Kind, targetKind: Kind, evolution: HuntConfig) returns (result: Cell)
    ensures result == HuntCell(cell, hunterKind, targetKind, evolution)
  {
    match cell {
      case Water =>
        result := Water;
      case Ground(units0) =>
        var targets, hunters := TakeSnapshot(units0, hunterKind, targetKind);
        var units := ReduceTargets(units0, targets, hunters, hunterKind, targetKind, evolution);
        units := FeedHunters(units0, units, targets, hunters, hunterKind, targetKind, evolution);
        assert units == HuntUnits(units0, hunterKind, targetKind, evolution);
        result := Ground(units);
    }
  }

  // ---------------------------------------------------------------------------------------------
  // Properties of one hunt

  /** Water is a fixed point; on ground the length, the order, every kind and id, and the quantity of
      every unit whose kind is neither the hunter nor the target kind are unchanged. */
  lemma HuntKeepsShape(cell: Cell, hunterKind: Kind, targetKind: Kind, evolution: HuntConfig)
    ensures cell.Water? ==> HuntCell(cell, hunterKind, targetKind, evolution) == Water
    ensures cell.Ground? ==>
              var after := HuntCell(cell, hunterKind, targetKind, evolution);
              && after.Ground?
              && |after.units| == |cell.units|
              && (forall i :: 0 <= i < |cell.units| ==>
                    after.units[i].kind == cell.units[i].kind && after.units[i].id == cell.units[i].id)
              && (forall i :: 0 <= i < |cell.units|
                    && cell.units[i].kind != hunterKind && cell.units[i].kind != targetKind
                    ==> after.units[i] == cell.units[i])
  {
  }

  /** With no hunter in the cell, every target gains exactly `resource_growth * TICK_RATE`. */
  lemma HuntWithoutHunters(units: seq<Unit>, hunterKind: Kind, targetKind: Kind, evolution: HuntConfig)
    requires forall i :: 0 <= i < |units| ==> units[i].kind != hunterKind
    ensures forall i :: 0 <= i < |units| && units[i].kind == targetKind ==>
              HuntUnits(units, hunterKind, targetKind, evolution)[i].quantity
              == units[i].quantity + evolution.resource_growth * TICK_RATE
  {
    QuantityOfAbsent(units, hunterKind);
  }

  /** With no target in the cell, every hunter changes by exactly `-old * hunter_death * TICK_RATE`. */
  lemma HuntWithoutTargets(units: seq<Unit>, hunterKind: Kind, targetKind: Kind, evolution: HuntConfig)
    requires forall i :: 0 <= i < |units| ==> units[i].kind != targetKind
    ensures forall i :: 0 <= i < |units| && units[i].kind == hunterKind ==>
              HuntUnits(units, hunterKind, targetKind, evolution)[i].quantity
              == units[i].quantity - units[i].quantity * evolution.hunter_death * TICK_RATE
  {
    QuantityOfAbsent(units, targetKind);
  }

  /** A unit of the target kind is never treated as a hunter: when both kinds are the same, every
      unit of that kind is a target with nobody eating it. */
  lemma HuntSameKindIsGrowthOnly(units: seq<Unit>, kind: Kind, evolution: HuntConfig)
    ensures forall i :: 0 <= i < |units| && units[i].kind == kind ==>
              HuntUnits(units, kind, kind, evolution)[i].quantity
              == units[i].quantity + evolution.resource_growth * TICK_RATE
  {
  }

  /** The factor by which the hunt multiplies every hunter's quantity. */
  function HunterFactor(units: seq<Unit>, targetKind: Kind, evolution: HuntConfig): real
  {
    1.0 + (QuantityOf(units, targetKind) * evolution.consuming_rate - evolution.hunter_death) * TICK_RATE
  }

  /** Every hunter of the cell gets the same per-capita intake: each hunter's quantity is multiplied
      by the same factor, `1 + (consuming_rate * total target quantity - hunter_death) * TICK_RATE`. */
  lemma HuntersShareIntake(units: seq<Unit>, hunterKind: Kind, targetKind: Kind, evolution: HuntConfig, i: nat)
    requires i < |units| && RoleOf(units[i], hunterKind, targetKind) == Hunter
    ensures HuntUnits(units, hunterKind, targetKind, evolution)[i].quantity
            == units[i].quantity * HunterFactor(units, targetKind, evolution)
  {
    var q := units[i].quantity;
    var c := (QuantityOf(units, targetKind) * evolution.consuming_rate - evolution.hunter_death) * TICK_RATE;
    assert HuntUnits(units, hunterKind, targetKind, evolution)[i].quantity == q + q * c;
    ScaleByFactor(q, c);
  }

  lemma ScaleByFactor(q: real, c: real)
    ensures q + q * c == q * (1.0 + c)
  {
  }

  /** Quantities are not clamped: one plant and one vegeterian of quantity 50, eating rate 1 and no
      growth leave the plant at -137.5. */
  lemma HuntDoesNotClamp()
    ensures HuntUnits([Unit(Plant, 1, 50.0), Unit(VegeterianAnimal, 2, 50.0)],
                      VegeterianAnimal, Plant, HuntConfig(0.0, 0.0, 1.0))[0].quantity == -137.5
  {
    var units := [Unit(Plant, 1, 50.0), Unit(VegeterianAnimal, 2, 50.0)];
    assert units[..1][..0] == [];
    assert QuantityOf(units, VegeterianAnimal) == 50.0;
  }

  /** A single plant of quantity 50 with plant growth 100 and no vegeterians reaches 50 + 100 * TICK_RATE. */
  lemma SinglePlantScenario()
    ensures HuntUnits([Unit(Plant, 1, 50.0)], VegeterianAnimal, Plant, HuntConfig(2.8, 100.0, 0.075))[0].quantity
            == 50.0 + 100.0 * TICK_RATE
  {
    HuntWithoutHunters([Unit(Plant, 1, 50.0)], VegeterianAnimal, Plant, HuntConfig(2.8, 100.0, 0.075));
  }

  /** One plant and one vegeterian of quantity 50, eating rate 0.075, plant growth 100, vegeterian death
      2.8: the plant changes by (100 - 50 * 0.075 * 50) * TICK_RATE and the vegeterian by
      50 * (50 * 0.075 - 2.8) * TICK_RATE. */
  lemma TwoUnitScenario()
    ensures var units := [Unit(Plant, 1, 50.0), Unit(VegeterianAnimal, 2, 50.0)];
            var after := HuntUnits(units, VegeterianAnimal, Plant, HuntConfig(2.8, 100.0, 0.075));
            && after[0].quantity == 50.0 + (100.0 - 50.0 * 0.075 * 50.0) * TICK_RATE
            && after[1].quantity == 50.0 + 50.0 * (50.0 * 0.075 - 2.8) * TICK_RATE
  {
    var units := [Unit(Plant, 1, 50.0), Unit(VegeterianAnimal, 2, 50.0)];
    assert units[..1][..0] == [];
    assert QuantityOf(units, VegeterianAnimal) == 50.0;
    assert QuantityOf(units, Plant) == 50.0;
  }
}
