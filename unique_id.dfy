/**
 * The module-level id counter and the hook that gives a component one id
 * for its lifetime. The React ref of one component is an explicit object.
 */
module UniqueId {
  import opened Wrappers

  /** The counter `uniqueId`, with the ids it has handed out so far. */
  class IdCounter {
    var uniqueId: nat
    ghost var issued: seq<nat>

    /** Ids are handed out from 0 upwards, one per call. */
    ghost predicate Valid()
      reads this
    {
      |issued| == uniqueId && forall i :: 0 <= i < |issued| ==> issued[i] == i
    }

    constructor ()
      ensures Valid() && uniqueId == 0 && issued == []
    {
      uniqueId := 0;
      issued := [];
    }

    /**
     * `getUniqueId`: the current value, then the counter moves on by one.
     * The id is new and larger than every id handed out before.
     */
    method GetUniqueId() returns (id: nat)
      requires Valid()
      modifies this
      ensures Valid()
      ensures id == old(uniqueId) && uniqueId == old(uniqueId) + 1
      ensures issued == old(issued) + [id]
      ensures forall i :: 0 <= i < |old(issued)| ==> old(issued)[i] < id
    {
      id := uniqueId;
      uniqueId := uniqueId + 1;
      issued := issued + [id];
    }
  }

  /** The ids a valid counter has handed out are pairwise distinct and increasing. */
  lemma IssuedIdsIncrease(c: IdCounter)
    requires c.Valid()
    ensures forall i, j :: 0 <= i < j < |c.issued| ==> c.issued[i] < c.issued[j]
  {
  }

  /** The `useRef` box of one mounted component. */
  class IdRef {
    var current: Option<nat>

    constructor ()
      ensures current.None?
    {
      current := None;
    }
  }

  /**
   * `useComponentId` in one render: the argument of `useRef` is evaluated
   * on every render, so the counter always moves on; the ref keeps the id
   * of the first render, and that id is returned.
   */
  method UseComponentId(counter: IdCounter, ref: IdRef) returns (id: nat)
    requires counter.Valid()
    modifies counter, ref
    ensures counter.Valid() && counter.uniqueId == old(counter.uniqueId) + 1
    ensures old(ref.current).Some? ==> id == old(ref.current).value && ref.current == old(ref.current)
    ensures old(ref.current).None? ==> id == old(counter.uniqueId) && ref.current == Some(id)
  {
    var candidate := counter.GetUniqueId();
    if ref.current.None? {
      ref.current := Some(candidate);
    }
    id := ref.current.value;
  }
}
