/**
 * The demand estimator of node_process: how many TX cells the node wants
 * toward its time source, computed from the RPL DIO interval.
 */
module DemandEstimator {

  /** TSCH_SCHEDULE_CONF_DEFAULT_LENGTH in the project configuration. */
  const ScheduleDefaultLength: int := 13

  /** `max_links`: a third of the slotframe, rounded down (C division of positives). */
  const MaxLinks: int := ScheduleDefaultLength / 3

  /** DIO intervals strictly below this value demand a cell. */
  const DioThreshold: int := 16

  /**
   * `demanded_cell`: the 0/1 truth value of `diotime < 16`, lowered to
   * `maxLinks` when it exceeds it.
   */
  function Demand(dioTime: int, maxLinks: int): (r: int)
    // the cap is an upper bound, and so is the flag
    ensures r <= maxLinks && r <= 1
    // r is the smaller of the flag and the cap
    ensures r == maxLinks || r == (if dioTime < DioThreshold then 1 else 0)
    // with room for one cell, a cell is demanded exactly when the interval is short
    ensures maxLinks >= 1 ==> (r == 1 <==> dioTime < DioThreshold)
    ensures maxLinks >= 0 ==> 0 <= r
  {
    var demanded := if dioTime < DioThreshold then 1 else 0;
    if demanded > maxLinks then maxLinks else demanded
  }

  /**
   * With the configured slotframe the cap is 4 and never binds: the demand
   * is exactly the flag, always strictly below `max_links`, and an interval
   * of 16 already demands nothing.
   */
  lemma ConfiguredDemand(dioTime: int)
    ensures MaxLinks == 4
    ensures Demand(dioTime, MaxLinks) == (if dioTime < 16 then 1 else 0)
    ensures 0 <= Demand(dioTime, MaxLinks) < MaxLinks
    ensures Demand(16, MaxLinks) == 0
  {
  }
}
