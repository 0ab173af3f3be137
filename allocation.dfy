/**
 * One iteration of node_process as a function of the stored `old_n` and the
 * collaborators' answers: the convergence step toward the time source, the
 * parent-switch flush, and the update of `old_n`.
 */
module Allocation {
  import opened Types
  import opened DemandEstimator

  /**
   * The convergence step: compare the cells held toward `n` with the demand
   * and issue at most one remove or one single-cell add; a remove that
   * returns a negative value is followed by a check of the same neighbour.
   */
  function Converge(n: Nbr, held: int, demanded: int, removeResult: int): (r: seq<Call>)
    ensures held == demanded <==> r == []
    ensures held < demanded <==> r == [Add(n, 1)]
    ensures held > demanded <==> (r != [] && r[0] == Remove(n))
    ensures r == [Remove(n), Check(n)] <==> (held > demanded && removeResult < 0)
    ensures forall c | c in r :: c.Target() == Some(n) && !c.Flush?
    ensures Adjustments(r) <= 1 && ChecksFollowRemoves(r)
  {
    if held > demanded then
      if removeResult < 0 then
        assert [Remove(n), Check(n)][1..] == [Check(n)] && Adjustments([Check(n)]) == 0;
        [Remove(n), Check(n)]
      else
        [Remove(n)]
    else if held < demanded then
      [Add(n, 1)]
    else
      []
  }

  /**
   * The parent-switch test: when the time source differs from the stored
   * `old_n`, the stored neighbour is flushed, even when it is NULL.
   */
  function ParentSwitch(oldN: Option<Nbr>, n: Nbr): (r: seq<Call>)
    ensures r != [] <==> oldN != Some(n)
    ensures forall c | c in r :: c == Flush(oldN)
    ensures |r| <= 1
  {
    if oldN != Some(n) then [Flush(oldN)] else []
  }

  /** True when the tick reaches the DIO-interval test (line 127). */
  predicate Participates(isCoordinator: bool, obs: Reading) {
    !isCoordinator && obs.timeSource.Some?
  }

  /** True when the tick reaches the demand computation (line 131). */
  predicate Active(isCoordinator: bool, obs: Reading) {
    Participates(isCoordinator, obs) && obs.dioTime != 0
  }

  /** One iteration of the loop body (node-minimalp.c:125-171). */
  function Step(isCoordinator: bool, oldN: Option<Nbr>, obs: Reading): (r: Outcome)
    // requests are issued only on a tick that reaches the demand computation
    ensures r.calls != [] ==> Active(isCoordinator, obs)
    ensures |r.calls| <= 3
  {
    if !Participates(isCoordinator, obs) then
      Outcome([], oldN)
    else if obs.dioTime == 0 then
      Outcome([], obs.timeSource)
    else
      var n := obs.timeSource.value;
      Outcome(Converge(n, obs.txAmount, Demand(obs.dioTime, MaxLinks), obs.removeResult)
                + ParentSwitch(oldN, n),
              obs.timeSource)
  }

  /** A coordinator, or a node without time source, issues nothing and keeps `old_n`. */
  lemma StepSkips(isCoordinator: bool, oldN: Option<Nbr>, obs: Reading)
    requires isCoordinator || obs.timeSource == None
    ensures Step(isCoordinator, oldN, obs) == Outcome([], oldN)
  {
  }

  /**
   * Otherwise `old_n` becomes the time source, whatever the DIO interval;
   * an unknown interval (0) issues nothing.
   */
  lemma StepStoresTimeSource(isCoordinator: bool, oldN: Option<Nbr>, obs: Reading)
    requires Participates(isCoordinator, obs)
    ensures Step(isCoordinator, oldN, obs).oldN == obs.timeSource
    ensures obs.dioTime == 0 ==> Step(isCoordinator, oldN, obs).calls == []
  {
  }

  /**
   * Toward the time source a tick issues at most one add or remove, an add
   * asks for exactly one cell, and nothing is adjusted when the held count
   * already equals the demand.
   */
  lemma StepAdjustsAtMostOnce(isCoordinator: bool, oldN: Option<Nbr>, obs: Reading)
    ensures var calls := Step(isCoordinator, oldN, obs).calls;
      Adjustments(calls) <= 1 && CellsRequested(calls) <= 1 && |calls| <= 3
    ensures var calls := Step(isCoordinator, oldN, obs).calls;
      forall c | c in calls && !c.Flush? :: c.Target() == obs.timeSource
    ensures var calls := Step(isCoordinator, oldN, obs).calls;
      forall c | c in calls && c.Add? :: c.cells == 1
    ensures obs.txAmount == Demand(obs.dioTime, MaxLinks) ==>
      Adjustments(Step(isCoordinator, oldN, obs).calls) == 0
  {
    if Active(isCoordinator, obs) {
      var n := obs.timeSource.value;
      AdjustmentsAppend(Converge(n, obs.txAmount, Demand(obs.dioTime, MaxLinks), obs.removeResult),
                        ParentSwitch(oldN, n));
    }
  }

  /**
   * A check is issued exactly when a remove was issued on the same tick and
   * returned a negative value, and it directly follows that remove.
   */
  lemma StepChecksFailedRemove(isCoordinator: bool, oldN: Option<Nbr>, obs: Reading)
    ensures ChecksFollowRemoves(Step(isCoordinator, oldN, obs).calls)
    ensures var calls := Step(isCoordinator, oldN, obs).calls;
      (exists c :: c in calls && c.Check?) <==>
        (exists c :: c in calls && c.Remove?) && obs.removeResult < 0
  {
    if Active(isCoordinator, obs) {
      var n := obs.timeSource.value;
      var converge := Converge(n, obs.txAmount, Demand(obs.dioTime, MaxLinks), obs.removeResult);
      var flush := ParentSwitch(oldN, n);
      ChecksFollowRemovesAppend(converge, flush);
      assert forall c :: c in converge + flush <==> c in converge || c in flush;
      if converge != [] && converge[0] == Remove(n) {
        assert Remove(n) in converge + flush;
        if obs.removeResult < 0 {
          assert Check(n) in converge + flush;
        }
      }
    }
  }

  /**
   * `old_n` is flushed exactly on a tick that reaches the demand computation
   * with a time source different from `old_n` (a NULL `old_n` included), and
   * the flush is the last request of the tick.
   */
  lemma StepFlushesOnSwitch(isCoordinator: bool, oldN: Option<Nbr>, obs: Reading)
    ensures var calls := Step(isCoordinator, oldN, obs).calls;
      (exists c :: c in calls && c.Flush?) <==> Active(isCoordinator, obs) && oldN != obs.timeSource
    ensures var calls := Step(isCoordinator, oldN, obs).calls;
      forall i | 0 <= i < |calls| && calls[i].Flush? :: i == |calls| - 1 && calls[i] == Flush(oldN)
  {
    if Active(isCoordinator, obs) {
      var n := obs.timeSource.value;
      var converge := Converge(n, obs.txAmount, Demand(obs.dioTime, MaxLinks), obs.removeResult);
      var flush := ParentSwitch(oldN, n);
      assert forall c :: c in converge + flush <==> c in converge || c in flush;
      if oldN != Some(n) {
        assert Flush(oldN) in converge + flush;
      }
    }
  }

  /**
   * On a parent switch from A to B with four cells held toward B, the code
   * first issues a remove toward B and then flushes A.
   */
  lemma SwitchTickRemovesThenFlushes(a: Nbr, b: Nbr, dioTime: int, removeResult: int)
    requires a != b && dioTime != 0 && removeResult >= 0
    ensures Step(false, Some(a), Reading(Some(b), dioTime, 4, removeResult)).calls
      == [Remove(b), Flush(Some(a))]
  {
  }

  /**
   * A tick that reaches the demand computation while the stored `old_n` is
   * still NULL ends with a flush of NULL.
   */
  lemma FirstActiveTickFlushesNull(obs: Reading)
    requires Active(false, obs)
    ensures var calls := Step(false, None, obs).calls;
      calls != [] && calls[|calls| - 1] == Flush(None)
  {
  }
}
