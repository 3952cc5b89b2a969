/** Identifier allocation for units: a monotone counter (`IdGen` in src/lib.rs). */
module Ids {

  /** True when `ids` is the block of consecutive identifiers `first, first + 1, ...`. */
  ghost predicate ConsecutiveFrom(ids: seq<nat>, first: nat) {
    forall k :: 0 <= k < |ids| ==> ids[k] == first + k
  }

  /** True when every identifier in `ids` is larger than the ones before it. */
  ghost predicate StrictlyIncreasing(ids: seq<nat>) {
    forall j, k :: 0 <= j < k < |ids| ==> ids[j] < ids[k]
  }

  /** A block of consecutive identifiers is strictly increasing, so no identifier occurs twice in it. */
  lemma ConsecutiveIdsAreDistinct(ids: seq<nat>, first: nat)
    requires ConsecutiveFrom(ids, first)
    ensures StrictlyIncreasing(ids)
    ensures forall j, k :: 0 <= j < k < |ids| ==> ids[j] != ids[k]
  {
  }

  /** The identifier allocator. `issued` is the history of the identifiers `Next` has returned. */
  class IdGen {
    var counter: nat
    ghost var issued: seq<nat>

    ghost predicate Valid()
      reads this
    {
      |issued| == counter && ConsecutiveFrom(issued, 1)
    }

    /** A fresh allocator has issued nothing. */
    constructor ()
      ensures Valid()
      ensures counter == 0 && issued == []
    {
      counter := 0;
      issued := [];
    }

    /** Increments the counter and returns its new value: the k-th call returns k, and the
        returned identifier is larger than, hence different from, every one issued before. */
    method Next() returns (id: nat)
      requires Valid()
      modifies this
      ensures Valid()
      ensures counter == old(counter) + 1 && id == counter
      ensures issued == old(issued) + [id]
      ensures forall old_id :: old_id in old(issued) ==> old_id < id
    {
      counter := counter + 1;
      id := counter;
      issued := issued + [id];
    }

    /** The number of identifiers issued so far. */
    function Total(): (n: nat)
      reads this
      requires Valid()
      ensures n == |issued|
      ensures forall id :: id in issued ==> 1 <= id <= n
    {
      counter
    }
  }
}
