/**
 * Values exchanged between the node's allocation loop and its collaborators:
 * the TSCH neighbour it talks to, what the collaborators answer during one
 * timer expiry, and the negotiation requests the loop issues.
 */
module Types {

  /** A possibly-null reference; `None` stands for a NULL pointer. */
  datatype Option<T> = None | Some(value: T)

  /**
   * Identity of a TSCH neighbour entry. The loop only compares neighbour
   * pointers and passes their link-layer address to the negotiation
   * collaborators, so an opaque number is enough.
   */
  type Nbr = nat

  /** A request issued to the scheduling function during a tick. */
  datatype Call =
    | Remove(nbr: Nbr)            // sf_simple_remove_links(addr(n))
    | Check(nbr: Nbr)             // sf_minimalplus_check(addr(n))
    | Add(nbr: Nbr, cells: int)   // sf_simple_add_links(addr(n), cells)
    | Flush(peer: Option<Nbr>)    // sf_minimalplus_flush(addr(old_n)), possibly NULL
  {
    /** The neighbour the request is addressed to. */
    function Target(): Option<Nbr> {
      if Flush? then peer else Some(nbr)
    }

    /** Add and remove change the number of cells held toward the target. */
    predicate IsAdjustment() {
      Add? || Remove?
    }
  }

  /**
   * What the environment answers during one iteration of the loop: the
   * time-source neighbour, the current RPL DIO interval, the number of TX
   * cells held toward the time source, and the value a remove would return.
   * Each answer is consulted only on the path where the code asks for it.
   */
  datatype Reading = Reading(
    timeSource: Option<Nbr>,
    dioTime: int,
    txAmount: int,
    removeResult: int)

  /** The requests issued by one or more ticks and the stored `old_n` afterwards. */
  datatype Outcome = Outcome(calls: seq<Call>, oldN: Option<Nbr>)

  /** Number of add and remove requests in `calls`. */
  function Adjustments(calls: seq<Call>): nat {
    if calls == [] then 0
    else (if calls[0].IsAdjustment() then 1 else 0) + Adjustments(calls[1..])
  }

  /** Total number of cells requested by the add requests in `calls`. */
  function CellsRequested(calls: seq<Call>): int {
    if calls == [] then 0
    else (if calls[0].Add? then calls[0].cells else 0) + CellsRequested(calls[1..])
  }

  /** Every check request directly follows a remove toward the same neighbour. */
  predicate ChecksFollowRemoves(calls: seq<Call>) {
    forall i :: 0 <= i < |calls| && calls[i].Check? ==>
      i > 0 && calls[i - 1] == Remove(calls[i].nbr)
  }

  lemma {:induction false} AdjustmentsAppend(a: seq<Call>, b: seq<Call>)
    ensures Adjustments(a + b) == Adjustments(a) + Adjustments(b)
    ensures CellsRequested(a + b) == CellsRequested(a) + CellsRequested(b)
  {
    if a == [] {
      assert a + b == b;
    } else {
      assert (a + b)[1..] == a[1..] + b;
      AdjustmentsAppend(a[1..], b);
    }
  }

  lemma ChecksFollowRemovesAppend(a: seq<Call>, b: seq<Call>)
    requires ChecksFollowRemoves(a) && ChecksFollowRemoves(b)
    requires b != [] ==> !b[0].Check?
    ensures ChecksFollowRemoves(a + b)
  {
  }
}
