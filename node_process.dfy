/**
 * The node_process protothread: a controller whose only state across timer
 * expiries is the previously seen time source `old_n`.
 */
module NodeProcess {
  import opened Types
  import opened DemandEstimator
  import opened Allocation
  import opened Runs

  class Controller {
    /** Fixed at start-up: the coordinator never negotiates cells. */
    const isCoordinator: bool
    /** The time source seen by the last participating tick; NULL at start. */
    var oldN: Option<Nbr>

    /** Start-up: the static `old_n` pointer is zero-initialised. */
    constructor (isCoordinator: bool)
      ensures this.isCoordinator == isCoordinator && oldN == None
    {
      this.isCoordinator := isCoordinator;
      oldN := None;
    }

    /** One timer expiry: the body of the loop, returning the requests it issued. */
    method Tick(obs: Reading) returns (calls: seq<Call>)
      modifies this
      ensures Outcome(calls, oldN) == Step(isCoordinator, old(oldN), obs)
    {
      calls := [];
      var n := obs.timeSource;
      if !isCoordinator && n.Some? {
        var diotime := obs.dioTime;
        if diotime != 0 {
          var txLinks := obs.txAmount;
          var demanded := Demand(diotime, MaxLinks);
          if txLinks > demanded {
            calls := calls + [Remove(n.value)];
            if obs.removeResult < 0 {
              calls := calls + [Check(n.value)];
            }
          } else if txLinks < demanded {
            calls := calls + [Add(n.value, 1)];
          }
          if oldN != n {
            calls := calls + [Flush(oldN)];
          }
        }
        oldN := n;
      }
    }

    /**
     * The `while(1)` loop, run for one timer expiry per reading: the requests
     * issued are those of the ticks in order.
     */
    method Serve(readings: seq<Reading>) returns (calls: seq<Call>)
      modifies this
      ensures Outcome(calls, oldN) == Run(isCoordinator, old(oldN), readings)
    {
      ghost var total := Run(isCoordinator, oldN, readings);
      calls := [];
      var i := 0;
      while i < |readings|
        invariant 0 <= i <= |readings|
        invariant total == Outcome(calls + Run(isCoordinator, oldN, readings[i..]).calls,
                                   Run(isCoordinator, oldN, readings[i..]).oldN)
      {
        ghost var before := oldN;
        ghost var prefix := calls;
        var issued := Tick(readings[i]);
        ghost var rest := Run(isCoordinator, oldN, readings[i + 1..]);
        RunFrom(isCoordinator, before, readings, i);
        assert Run(isCoordinator, before, readings[i..]) == Outcome(issued + rest.calls, rest.oldN);
        calls := calls + issued;
        assert prefix + (issued + rest.calls) == calls + rest.calls;
        i := i + 1;
      }
      assert readings[i..] == [];
    }
  }
}
