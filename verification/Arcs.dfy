/** Indices on a ring: the arc predicates of llvm/ngrt/serialize.c. */
module Arcs {
  import opened EventTree

  /** The index of an absolute position on a ring of n slots. */
  function Idx(n: nat, pos: nat): (i: nat)
    requires 0 < n
    ensures i < n
  {
    pos % n
  }

  /** How far index x lies ahead of the consumer index c. */
  function Off(n: nat, c: nat, x: nat): nat
    requires c < n && x < n
  {
    if c <= x then x - c else n - c + x
  }

  /** rvp_ring_cp_arc_contains_lr_arc, branch for branch. */
  predicate ContainsArc(cidx: nat, pidx: nat, lidx: nat, ridx: nat)
  {
    if cidx == pidx then cidx == lidx && lidx == ridx
    else if cidx < pidx then cidx <= lidx && lidx <= ridx && ridx <= pidx
    else if cidx <= lidx && lidx <= ridx then true
    else if lidx <= ridx && ridx <= pidx then true
    else cidx <= lidx && ridx <= pidx
  }

  /** rvp_ring_cp_arc_contains_proper_lr_arc */
  predicate ContainsProperArc(cidx: nat, pidx: nat, lidx: nat, ridx: nat)
  {
    ContainsArc(cidx, pidx, lidx, ridx) && lidx != ridx
  }

  /** The case analysis on indices comes to an order of distances from the consumer. */
  lemma ArcIsOrder(n: nat, cidx: nat, pidx: nat, lidx: nat, ridx: nat)
    requires cidx < n && pidx < n && lidx < n && ridx < n
    ensures ContainsArc(cidx, pidx, lidx, ridx) <==>
            Off(n, cidx, lidx) <= Off(n, cidx, ridx) <= Off(n, cidx, pidx)
  {
  }

  lemma OffIdx(n: nat, cons: nat, pos: nat)
    requires 0 < n && cons <= pos < cons + n
    ensures Off(n, Idx(n, cons), Idx(n, pos)) == pos - cons
  {
    Wrap(n, cons, pos);
  }

  /** For positions between the consumer and the producer, the arc predicates compare
      the positions. */
  lemma ArcComparesPositions(n: nat, cons: nat, prod: nat, l: nat, r: nat)
    requires 0 < n && cons <= l <= prod && cons <= r <= prod < cons + n
    ensures ContainsArc(Idx(n, cons), Idx(n, prod), Idx(n, l), Idx(n, r)) <==> l <= r
    ensures ContainsProperArc(Idx(n, cons), Idx(n, prod), Idx(n, l), Idx(n, r)) <==> l < r
    ensures Idx(n, l) == Idx(n, r) <==> l == r
  {
    ArcIsOrder(n, Idx(n, cons), Idx(n, prod), Idx(n, l), Idx(n, r));
    OffIdx(n, cons, l);
    OffIdx(n, cons, r);
    OffIdx(n, cons, prod);
    hide Idx;
  }

  /** The passes take an interruption at `at` for one of the bracket `first..last` exactly
      when neither of their two tests rejects it. One recorded at the end of a finished
      bracket is taken for that bracket's, even if it interrupted the next bracket before
      that one's first word: the ambiguity noted in the code. */
  lemma TakenWithin(n: nat, cons: nat, prod: nat, first: nat, last: nat, at: nat)
    requires 0 < n && cons <= first <= prod < cons + n && cons <= last <= prod && cons <= at <= prod
    ensures !ContainsProperArc(Idx(n, cons), Idx(n, prod), Idx(n, at), Idx(n, first)) &&
            !ContainsProperArc(Idx(n, cons), Idx(n, prod), Idx(n, last), Idx(n, at)) <==>
            first <= at <= last
  {
    ArcComparesPositions(n, cons, prod, at, first);
    ArcComparesPositions(n, cons, prod, last, at);
    hide Idx;
  }
}
