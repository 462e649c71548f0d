/** The daemon's admission boundaries: a counted semaphore that can be closed. */
module Admission {
  import opened Orders

  datatype AdmissionError = Capacity | Closed

  datatype Gate = Gate(limit: nat, available: nat, closed: bool)

  function NewGate(limit: nat): Gate {
    Gate(limit, limit, false)
  }

  /** Why the gate turns an arrival away; a closed gate never blames its capacity. */
  function Refusal(g: Gate): Option<AdmissionError> {
    if g.closed then Some(Closed) else if g.available == 0 then Some(Capacity) else None
  }

  function Entered(g: Gate): Gate
    requires Refusal(g).None?
  {
    g.(available := g.available - 1)
  }

  function Left(g: Gate): Gate {
    g.(available := g.available + 1)
  }

  function Shut(g: Gate): Gate {
    g.(closed := true)
  }

  /** `BlockingAdmission` and `ConnectionAdmission`, with the permits that are out. */
  class AdmissionControl {
    const limit: nat
    var available: nat
    var closed: bool
    ghost var outstanding: nat

    ghost predicate Valid()
      reads this
    {
      available + outstanding == limit
    }

    function State(): Gate
      reads this
    {
      Gate(limit, available, closed)
    }

    constructor (limit: nat)
      ensures Valid() && State() == NewGate(limit) && outstanding == 0
    {
      this.limit := limit;
      available, closed, outstanding := limit, false, 0;
    }

    method TryAcquire() returns (r: Result<(), AdmissionError>)
      requires Valid()
      modifies this
      ensures Valid()
      ensures r.Ok? <==> Refusal(old(State())).None?
      ensures r.Ok? ==> State() == Entered(old(State())) && outstanding == old(outstanding) + 1
      ensures r.Err? ==> Refusal(old(State())) == Some(r.error) && State() == old(State()) && outstanding == old(outstanding)
      ensures r.Ok? <==> !old(closed) && old(outstanding) < limit
      ensures r == Err(Closed) <==> old(closed)
      ensures r == Err(Capacity) <==> !old(closed) && old(outstanding) == limit
    {
      if closed {
        return Err(Closed);
      }
      if available == 0 {
        return Err(Capacity);
      }
      available, outstanding := available - 1, outstanding + 1;
      r := Ok(());
    }

    /** A permit is dropped. */
    method Release()
      requires Valid() && outstanding > 0
      modifies this
      ensures Valid() && State() == Left(old(State())) && outstanding == old(outstanding) - 1
    {
      available, outstanding := available + 1, outstanding - 1;
    }

    method Close()
      requires Valid()
      modifies this
      ensures Valid() && State() == Shut(old(State())) && outstanding == old(outstanding)
    {
      closed := true;
    }

    method InUse() returns (n: nat)
      requires Valid()
      ensures n == outstanding <= limit
    {
      n := if available < limit then limit - available else 0;
    }
  }
}
