/**
 * Replica exchange partners.  Every rank draws the same coin (the random
 * stream is shared between ranks); with an up coin even ranks pair with the
 * rank above and odd ranks with the rank below, and the other way round with
 * a down coin.
 */
module Tempering {

  /** The partner findPartner computes for a non-negative rank. */
  function PartnerOf(rank: int, up: bool): (p: int)
    requires rank >= 0
    ensures p == rank + 1 || p == rank - 1
    ensures p >= -1
    ensures p == rank + 1 <==> (rank % 2 == 0) == up
  {
    var dr := if up then 1 else -1;
    if rank % 2 == 0 then rank + dr else rank - dr
  }

  /** The partner is a neighbour, never the rank itself, and the lower of the two is even for an up coin and odd for a down coin. */
  lemma {:induction false} PartnerIsNeighbour(rank: int, up: bool)
    requires rank >= 0
    ensures PartnerOf(rank, up) == rank + 1 || PartnerOf(rank, up) == rank - 1
    ensures var lower := if PartnerOf(rank, up) < rank then PartnerOf(rank, up) else rank;
      lower % 2 == (if up then 0 else 1)
  {
  }

  /** Two ranks that see the same coin pick each other. */
  lemma {:induction false} PartnersAreMutual(rank: int, up: bool)
    requires rank >= 0 && PartnerOf(rank, up) >= 0
    ensures PartnerOf(PartnerOf(rank, up), up) == rank
  {
    var p := PartnerOf(rank, up);
    if rank % 2 == 0 {
      assert p % 2 == 1;
    } else {
      assert p % 2 == 0;
    }
  }

  class ParallelTempering {
    var partner: int

    /** No partner before the first search. */
    constructor ()
      ensures partner == -1
    {
      partner := -1;
    }

    /** findPartner(): the coin is up when the shared draw exceeds 1/2. */
    method FindPartner(rank: int, draw: real)
      requires rank >= 0
      modifies this
      ensures partner == PartnerOf(rank, draw > 0.5)
    {
      var dr := 0;
      partner := rank;
      if draw > 0.5 {
        dr := dr + 1;
      } else {
        dr := dr - 1;
      }
      if rank % 2 == 0 {
        partner := partner + dr;
      } else {
        partner := partner - dr;
      }
    }

    /** goodPartner(): the partner is an existing rank other than this one. */
    function GoodPartner(rank: int, nproc: int): (r: bool)
      reads this
      ensures r <==> 0 <= partner < nproc && partner != rank
    {
      if partner >= 0 then
        if partner < nproc then
          if partner != rank then true else false
        else false
      else false
    }
  }

  /** When the partner of rank is good, rank is a good partner for it in turn. */
  lemma {:induction false} GoodPartnersAgree(rank: int, up: bool, nproc: int, t: ParallelTempering, u: ParallelTempering)
    requires 0 <= rank < nproc
    requires t.partner == PartnerOf(rank, up) && t.GoodPartner(rank, nproc)
    requires u.partner == PartnerOf(t.partner, up)
    ensures u.partner == rank && u.GoodPartner(t.partner, nproc)
  {
    PartnerIsNeighbour(rank, up);
    PartnersAreMutual(rank, up);
  }
}
