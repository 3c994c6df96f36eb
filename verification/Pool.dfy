/** A pool's idle values and the queue of those waiting for one, as they change under the lock. */
module Pool {
  import opened Wrappers

  /** How many waiters at the front of the queue have gone away. */
  function Gone(waiters: seq<nat>, closed: set<nat>): (k: nat)
    ensures k <= |waiters|
    ensures forall i | 0 <= i < k :: waiters[i] in closed
    ensures k < |waiters| ==> waiters[k] !in closed
  {
    if waiters != [] && waiters[0] in closed then 1 + Gone(waiters[1..], closed) else 0
  }

  /** Idle values, and the callers waiting for one. */
  datatype Shelf<T> = Shelf(values: seq<T>, waiters: seq<nat>)

  /** A caller takes the value idle for longest, or queues. */
  function Asked<T>(s: Shelf<T>, caller: nat): (Shelf<T>, Option<T>) {
    if s.values != [] then (s.(values := s.values[1..]), Some(s.values[0]))
    else (s.(waiters := s.waiters + [caller]), None)
  }

  /** A value given back goes to the first waiter that is still there, else to the idle ones. */
  function GivenBack<T>(s: Shelf<T>, value: T, closed: set<nat>): (r: (Shelf<T>, Option<nat>))
    ensures r.1.Some? ==> Gone(s.waiters, closed) < |s.waiters| && r.1.value == s.waiters[Gone(s.waiters, closed)]
  {
    var k := Gone(s.waiters, closed);
    if k == |s.waiters| then (Shelf(s.values + [value], []), None)
    else (s.(waiters := s.waiters[k + 1..]), Some(s.waiters[k]))
  }

  class PoolState<T> {
    var values: seq<T>
    var waiters: seq<nat>

    constructor (values: seq<T>)
      ensures Value() == Shelf(values, [])
    {
      this.values, waiters := values, [];
    }

    function Value(): Shelf<T>
      reads this
    {
      Shelf(values, waiters)
    }

    method Get(caller: nat) returns (value: Option<T>)
      modifies this
      ensures (Value(), value) == Asked(old(Value()), caller)
    {
      if values != [] {
        value := Some(values[0]);
        values := values[1..];
        return;
      }
      waiters := waiters + [caller];
      value := None;
    }

    method GiveBack(value: T, closed: set<nat>) returns (to: Option<nat>)
      modifies this
      ensures (Value(), to) == GivenBack(old(Value()), value, closed)
    {
      ghost var popped := 0;
      while waiters != []
        invariant popped <= |old(waiters)| && waiters == old(waiters)[popped..]
        invariant values == old(values)
        invariant Gone(old(waiters), closed) == popped + Gone(waiters, closed)
        decreases |waiters|
      {
        var sender := waiters[0];
        waiters := waiters[1..];
        if sender !in closed {
          return Some(sender);
        }
        popped := popped + 1;
      }
      values := values + [value];
      to := None;
    }
  }
}
