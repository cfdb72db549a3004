/** A bounded counter of admission slots for one task class (reserved or elastic). */
module Quotas {
  import opened Exceptions

  /** `value` slots in all, `state` of them currently free. */
  class Quota {
    const value: int
    var state: int

    ghost predicate Valid()
      reads this
    {
      0 <= state <= value
    }

    /** `new Quota(value)` once the value has passed the non-negativity check. */
    constructor (value: int)
      requires value >= 0
      ensures Valid()
      ensures this.value == value && state == value
    {
      this.value := value;
      state := value;
    }

    /** `acquire()`: takes a slot when one is free. The compare-and-compensate sequence of the
        source collapses to its sequential meaning. */
    method Acquire() returns (ok: bool)
      requires Valid()
      modifies this
      ensures Valid()
      ensures ok <==> old(state) > 0
      ensures state == if ok then old(state) - 1 else old(state)
    {
      if state == 0 {
        return false;
      }
      state := state - 1;
      return true;
    }

    /** `release()`: gives a slot back unless all are already free (an invalid release). */
    method Release() returns (ok: bool)
      requires Valid()
      modifies this
      ensures Valid()
      ensures ok <==> old(state) < value
      ensures state == if ok then old(state) + 1 else old(state)
    {
      if state == value {
        return false;
      }
      state := state + 1;
      return true;
    }
  }

  /** `reserve(value)` / `elastic(value)`: a fresh quota, refused when the value is negative. */
  method NewQuota(value: int) returns (r: Result<Quota>)
    ensures r.Failure? <==> value < 0
    ensures r.Failure? ==> r.error == IllegalArgument("Quota should not less than 0.")
    ensures r.Success? ==> fresh(r.value) && r.value.Valid()
    ensures r.Success? ==> r.value.value == value && r.value.state == value
  {
    if value < 0 {
      return Failure(IllegalArgument("Quota should not less than 0."));
    }
    var q := new Quota(value);
    return Success(q);
  }

  /** `nil()`: a fresh quota with no slots. */
  method Nil() returns (q: Quota)
    ensures fresh(q) && q.Valid() && q.value == 0 && q.state == 0
  {
    q := new Quota(0);
  }
}
