/**
 * Successive iterations of the node_process loop: the requests issued by a
 * sequence of timer expiries and what holds of them across ticks.
 */
module Runs {
  import opened Types
  import opened Allocation

  /** The ticks of `readings`, in order, starting from the stored `oldN`. */
  function Run(isCoordinator: bool, oldN: Option<Nbr>, readings: seq<Reading>): (r: Outcome)
    // a coordinator never negotiates and never changes old_n
    ensures isCoordinator ==> r == Outcome([], oldN)
    decreases |readings|
  {
    if readings == [] then
      Outcome([], oldN)
    else
      var first := Step(isCoordinator, oldN, readings[0]);
      var rest := Run(isCoordinator, first.oldN, readings[1..]);
      Outcome(first.calls + rest.calls, rest.oldN)
  }

  /** The run from tick `i` on is tick `i` followed by the run from tick `i + 1` on. */
  lemma RunFrom(isCoordinator: bool, oldN: Option<Nbr>, readings: seq<Reading>, i: nat)
    requires i < |readings|
    ensures var first := Step(isCoordinator, oldN, readings[i]);
      var rest := Run(isCoordinator, first.oldN, readings[i + 1..]);
      Run(isCoordinator, oldN, readings[i..]) == Outcome(first.calls + rest.calls, rest.oldN)
  {
  }

  /** The time sources reported during `readings`. */
  function TimeSources(readings: seq<Reading>): set<Option<Nbr>> {
    set i | 0 <= i < |readings| :: readings[i].timeSource
  }

  /**
   * Negotiation traffic is rate-limited: over k ticks at most k adds or
   * removes are issued and at most k cells are requested, and no tick
   * issues more than three requests.
   */
  lemma {:induction false} RunRateLimit(isCoordinator: bool, oldN: Option<Nbr>, readings: seq<Reading>)
    ensures var calls := Run(isCoordinator, oldN, readings).calls;
      Adjustments(calls) <= |readings| && CellsRequested(calls) <= |readings| &&
      |calls| <= 3 * |readings|
    decreases |readings|
  {
    if readings != [] {
      var first := Step(isCoordinator, oldN, readings[0]);
      RunRateLimit(isCoordinator, first.oldN, readings[1..]);
      StepAdjustsAtMostOnce(isCoordinator, oldN, readings[0]);
      AdjustmentsAppend(first.calls, Run(isCoordinator, first.oldN, readings[1..]).calls);
    }
  }

  /**
   * Every request of a run is addressed to the neighbour stored before the
   * run or to a neighbour some tick reported as time source.
   */
  lemma {:induction false} RunTargets(isCoordinator: bool, oldN: Option<Nbr>, readings: seq<Reading>)
    ensures var r := Run(isCoordinator, oldN, readings);
      forall c | c in r.calls :: c.Target() == oldN || c.Target() in TimeSources(readings)
    ensures var r := Run(isCoordinator, oldN, readings);
      r.oldN == oldN || r.oldN in TimeSources(readings)
    decreases |readings|
  {
    if readings != [] {
      var first := Step(isCoordinator, oldN, readings[0]);
      RunTargets(isCoordinator, first.oldN, readings[1..]);
      assert readings[0].timeSource in TimeSources(readings);
      forall i | 0 <= i < |readings[1..]|
        ensures readings[1..][i].timeSource in TimeSources(readings)
      {
        assert readings[1..][i] == readings[i + 1];
      }
      assert TimeSources(readings[1..]) <= TimeSources(readings);
    }
  }

  /** Across a whole run, every check directly follows a remove toward the same neighbour. */
  lemma {:induction false} RunChecksFollowRemoves(isCoordinator: bool, oldN: Option<Nbr>, readings: seq<Reading>)
    ensures ChecksFollowRemoves(Run(isCoordinator, oldN, readings).calls)
    decreases |readings|
  {
    if readings != [] {
      var first := Step(isCoordinator, oldN, readings[0]);
      var rest := Run(isCoordinator, first.oldN, readings[1..]);
      RunChecksFollowRemoves(isCoordinator, first.oldN, readings[1..]);
      StepChecksFailedRemove(isCoordinator, oldN, readings[0]);
      RunStartsWithoutCheck(isCoordinator, first.oldN, readings[1..]);
      ChecksFollowRemovesAppend(first.calls, rest.calls);
    }
  }

  /** A run never opens with a check: no tick issues one before its remove. */
  lemma {:induction false} RunStartsWithoutCheck(isCoordinator: bool, oldN: Option<Nbr>, readings: seq<Reading>)
    ensures var calls := Run(isCoordinator, oldN, readings).calls;
      calls != [] ==> !calls[0].Check?
    decreases |readings|
  {
    if readings != [] {
      var first := Step(isCoordinator, oldN, readings[0]);
      RunStartsWithoutCheck(isCoordinator, first.oldN, readings[1..]);
      if first.calls != [] {
        assert first.calls[0] in first.calls;
      }
    }
  }

  /**
   * While the time source stays `m` (or is momentarily missing) and `m` is
   * already stored, no flush is ever issued and `m` stays stored.
   */
  lemma {:induction false} SteadyParentNoFlush(isCoordinator: bool, m: Nbr, readings: seq<Reading>)
    requires forall i :: 0 <= i < |readings| ==>
      readings[i].timeSource == None || readings[i].timeSource == Some(m)
    ensures var r := Run(isCoordinator, Some(m), readings);
      r.oldN == Some(m) && forall c | c in r.calls :: !c.Flush?
    decreases |readings|
  {
    if readings != [] {
      var first := Step(isCoordinator, Some(m), readings[0]);
      assert first.oldN == Some(m);
      SteadyParentNoFlush(isCoordinator, m, readings[1..]);
    }
  }

  /**
   * After a run, a coordinator still stores its initial `old_n`, and a
   * non-coordinator whose last tick saw a time source stores that one.
   */
  lemma {:induction false} RunStoresLastTimeSource(isCoordinator: bool, oldN: Option<Nbr>, readings: seq<Reading>)
    ensures isCoordinator ==> Run(isCoordinator, oldN, readings).oldN == oldN
    ensures !isCoordinator && readings != [] && readings[|readings| - 1].timeSource.Some? ==>
      Run(isCoordinator, oldN, readings).oldN == readings[|readings| - 1].timeSource
    decreases |readings|
  {
    if readings != [] {
      var first := Step(isCoordinator, oldN, readings[0]);
      RunStoresLastTimeSource(isCoordinator, first.oldN, readings[1..]);
      if |readings| > 1 {
        assert readings[1..][|readings[1..]| - 1] == readings[|readings| - 1];
      }
    }
  }

  /**
   * A parent switch first seen on a tick whose DIO interval is 0 is never
   * flushed: that tick stores the new time source `b` without reaching the
   * flush, and while the time source stays `b` (or is missing) no later tick
   * flushes either, whatever was stored before (NULL included).
   */
  lemma {:induction false} SwitchOnZeroIntervalNeverFlushed(oldN: Option<Nbr>, b: Nbr, first: Reading, later: seq<Reading>)
    requires first.timeSource == Some(b) && first.dioTime == 0
    requires forall i :: 0 <= i < |later| ==>
      later[i].timeSource == None || later[i].timeSource == Some(b)
    ensures var r := Run(false, oldN, [first] + later);
      r.oldN == Some(b) && forall c | c in r.calls :: !c.Flush?
  {
    assert ([first] + later)[0] == first && ([first] + later)[1..] == later;
    SteadyParentNoFlush(false, b, later);
  }

  /**
   * Once a neighbour is stored, `old_n` never becomes NULL again and no run
   * ever flushes NULL: a NULL `old_n` is flushed only before any tick with a
   * time source has been seen.
   */
  lemma {:induction false} NullNeverFlushedOnceStored(isCoordinator: bool, m: Nbr, readings: seq<Reading>)
    ensures var r := Run(isCoordinator, Some(m), readings);
      r.oldN.Some? && Flush(None) !in r.calls
    decreases |readings|
  {
    if readings != [] {
      var first := Step(isCoordinator, Some(m), readings[0]);
      StepFlushesOnSwitch(isCoordinator, Some(m), readings[0]);
      assert first.oldN.Some?;
      NullNeverFlushedOnceStored(isCoordinator, first.oldN.value, readings[1..]);
      assert forall i | 0 <= i < |first.calls| :: first.calls[i] != Flush(None);
    }
  }

  /**
   * A tick that follows a participating tick with the same time source
   * issues no flush.
   */
  lemma SameTimeSourceNoFlush(isCoordinator: bool, oldN: Option<Nbr>, a: Reading, b: Reading)
    requires Participates(isCoordinator, a) && b.timeSource == a.timeSource
    ensures forall c | c in Step(isCoordinator, Step(isCoordinator, oldN, a).oldN, b).calls :: !c.Flush?
  {
  }
}
