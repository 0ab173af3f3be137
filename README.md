# minimalplus: the per-tick cell-allocation loop of `node_process`

This project models the allocation controller of a 6TiSCH node (Contiki-NG, TSCH with
RPL-lite). Every time the process timer expires, the node looks at its TSCH time-source
neighbour. It derives from the RPL DIO interval how many TX cells it wants toward that
neighbour and compares this with the cells it holds. It then issues at most one remove
(followed by a check if the remove fails) or one single-cell add. If the time source
differs from the stored `old_n`, it then flushes `old_n`. All of this happens only when the
DIO interval is nonzero, and only on a non-coordinator node that has a time source. Every
non-coordinator tick that has a time source, interval 0 included, then stores it as `old_n`.
This is the only state kept across ticks.

Layout:

- `types.dfy` (`Types`): neighbour identities, the `Reading` a tick receives from its
  collaborators, the `Call`s it issues, and counting helpers over call sequences.
- `demand.dfy` (`DemandEstimator`): the configured constants and the demand computation.
- `allocation.dfy` (`Allocation`): the convergence step, the parent-switch flush and one
  whole tick (`Step`) as pure functions, with their per-tick properties.
- `runs.dfy` (`Runs`): a sequence of ticks (`Run`) and the properties that hold across ticks.
- `node_process.dfy` (`NodeProcess`): the protothread as the class `Controller`. It has the
  constant `isCoordinator` and the field `oldN`. `Tick` is one loop iteration and `Serve`
  is the `while(1)` loop over a finite number of timer expiries. Both are proved against
  `Step` and `Run`.

Collaborators are inputs or recorded outputs. The time source, `dio_intcurrent`, the count
from `sf_minimalplus_tx_amount` and the value `sf_simple_remove_links` returns arrive in a
`Reading`. The remove, add, check and flush requests are returned as a sequence of `Call`s,
in the order they are issued. A NULL neighbour pointer is `None`.

Consequences of the code as written, each proved in the model:

- The demand is the 0/1 truth value of `diotime < 16`, capped at `max_links` = 13/3 = 4.
  The cap therefore never binds, the demand is never `max_links`, and an interval of
  exactly 16 demands nothing (`ConfiguredDemand`).
- The flush on a parent switch has no NULL check. An active tick whose stored `old_n` is
  still NULL flushes NULL (`FirstActiveTickFlushesNull`).
- On a switch tick, the add or remove toward the new neighbour is still issued, and before
  the old neighbour is flushed (`SwitchTickRemovesThenFlushes`).
- A tick whose interval is 0 issues nothing but still stores the time source as `old_n`.
  A parent switch first seen on such a tick is therefore never flushed: no flush of the
  previous neighbour is issued while the time source stays the same
  (`SwitchOnZeroIntervalNeverFlushed`). For the same reason, a NULL `old_n` is never flushed
  when the first tick with a time source has interval 0: once a neighbour is stored, no later
  tick ever flushes NULL (`NullNeverFlushedOnceStored`).
- The loop has no periodic reconciliation step. A check is issued only directly after a remove
  that returned a negative value (`StepChecksFailedRemove`, `RunChecksFollowRemoves`).

## Model

| member | source | states |
|---|---|---|
| DemandEstimator.Demand | node-minimalp.c:134-138 | the demand is the smaller of the flag `diotime < 16` and `max_links`; it never exceeds `max_links` or 1; with `max_links >= 1` it is 1 exactly when the interval is below 16 |
| DemandEstimator.ConfiguredDemand | node-minimalp.c:134-138 | with the configured slotframe length `max_links` is 4, the demand equals the 0/1 flag, stays strictly below `max_links`, and an interval of 16 demands 0 |
| Allocation.Converge | node-minimalp.c:140-154 | no request when held equals demand; exactly one 1-cell add when held is below demand; a remove first when held is above demand, followed by a check exactly when the remove returned a negative value; all toward `n`, never a flush |
| Allocation.ParentSwitch | node-minimalp.c:157-168 | a single flush of `old_n` exactly when `old_n` differs from `n`, NULL included |
| Allocation.StepSkips | node-minimalp.c:125-127 | a coordinator, or a node without time source, issues nothing and keeps `old_n` |
| Allocation.StepStoresTimeSource | node-minimalp.c:127-170 | otherwise `old_n` becomes the time source, and an interval of 0 issues no request |
| Allocation.StepAdjustsAtMostOnce | node-minimalp.c:133-154 | per tick at most one add or remove, at most one cell requested, at most three requests; add, remove and check go to the time source; adds ask for one cell; none when held equals demand |
| Allocation.StepChecksFailedRemove | node-minimalp.c:140-146 | a check is issued exactly when a remove was issued on that tick and returned a negative value, directly after that remove and toward the same neighbour |
| Allocation.StepFlushesOnSwitch | node-minimalp.c:127-168 | a flush exactly on a tick that reaches the demand computation with a time source different from `old_n` (NULL included); it targets `old_n` and is the last request of the tick |
| Allocation.SwitchTickRemovesThenFlushes | node-minimalp.c:140-168 | switching from A to B with 4 cells held toward B issues a remove toward B and then a flush of A |
| Allocation.FirstActiveTickFlushesNull | node-minimalp.c:157-167 | an active tick that starts from a NULL `old_n` ends with a flush of NULL |
| Allocation.Step | node-minimalp.c:125-170 | one loop iteration as a function of the stored `old_n` and the tick's `Reading`: requests only on a tick that passes the tests of lines 127 and 131, at most three of them; its other properties are the Step lemmas above |
| Runs.Run | node-minimalp.c:120-173 | the loop as `Step` folded over the readings, threading `old_n`; a coordinator's run issues nothing and keeps `old_n` |
| Runs.SwitchOnZeroIntervalNeverFlushed | node-minimalp.c:127-170 | a switch to `b` first seen on a tick with interval 0 stores `b` without a flush, and no later tick with time source `b` (or none) flushes, whatever `old_n` was before, NULL included |
| Runs.NullNeverFlushedOnceStored | node-minimalp.c:127-170 | from a stored neighbour, `old_n` stays non-NULL and no run ever issues a flush of NULL |
| Runs.RunRateLimit | node-minimalp.c:120-172 | over k ticks at most k adds or removes, at most k requested cells and at most 3k requests |
| Runs.RunTargets | node-minimalp.c:120-172 | every request of a run, and the stored `old_n` afterwards, is the initial `old_n` or a time source some tick reported |
| Runs.RunChecksFollowRemoves | node-minimalp.c:140-146 | across a whole run every check directly follows a remove toward the same neighbour |
| Runs.SteadyParentNoFlush | node-minimalp.c:157-170 | while the time source stays the stored neighbour (or is missing), no flush is issued and the stored neighbour is kept |
| Runs.RunStoresLastTimeSource | node-minimalp.c:127-170 | a coordinator never changes `old_n`; otherwise after a run whose last tick saw a time source, `old_n` is that time source |
| Runs.SameTimeSourceNoFlush | node-minimalp.c:157-170 | a tick following a participating tick with the same time source issues no flush |
| NodeProcess.Controller.constructor | node-minimalp.c:98-101 | the controller starts with `old_n` NULL and a fixed coordinator role |
| NodeProcess.Controller.Tick | node-minimalp.c:125-171 | one loop iteration issues exactly the requests of `Step` and leaves `old_n` as `Step` says |
| NodeProcess.Controller.Serve | node-minimalp.c:120-173 | the loop over a sequence of timer expiries issues the requests of `Run` in order and ends with its `old_n` |

## Left out

- The `my_app` UDP traffic generator and `udp_rx_callback` (node-minimalp.c:68-82, 180-218):
  network I/O, timers and logging, with no interaction with the allocation loop.
- Start-up (node-minimalp.c:104-119): `root_start`, `NETSTACK_MAC.on`, `sixtop_add_sf`, and
  the `node_id == 1` coordinator test, which becomes the constructor's argument. The etimer
  and yield plumbing is also left out; one timer expiry is one `Tick`.
- `printf` and log output: they change no state.
- The scheduling-function collaborators `sf_simple_remove_links`, `sf_simple_add_links`,
  `sf_minimalplus_check`, `sf_minimalplus_flush` and `sf_minimalplus_tx_amount` (6P, RFC 8480).
  sf-simple is not part of this model. Requests are recorded, and the held count and the
  remove result are inputs. Nothing is assumed about how many cells a request frees or
  adds, so convergence of the held count over several ticks is not stated.
- Neighbour identity: `Nbr` stands for the neighbour-queue entry, which is what the C pointer
  `old_n == n` test compares, not the peer itself. If an entry is freed and reused for another
  peer, the model, like the code, sees no switch. The flush would then go to whatever address
  the entry holds. Entry allocation and reuse in the TSCH queue are not part of this model.
- `tsch_queue_get_nbr_address`: requests carry the neighbour identity, or `None` for NULL,
  instead of its link-layer address.
- The RPL and Trickle computation of `dio_intcurrent` (RFC 6550, RFC 6206) and the choice of
  the time source by `tsch_queue_get_time_source`: both are inputs of a `Reading`.
- Commented-out code in the loop (node-minimalp.c:128, 130, 141, 164): it is not behaviour.
- `Serve` runs a finite number of timer expiries. The `while(1)` loop never terminates; any
  finite prefix of it is covered.
- C `int` width: the loop only compares these values and does no arithmetic on them, so
  unbounded integers lose nothing.
