/** What the threads and their handlers do to the rings while the serializer works: words are
    put, interruptions are recorded and closed (llvm/ngrt/ring.h, llvm/ngrt/ring.c and the
    handler wrapper of llvm/ngrt/rvpsignal.c). Every such step keeps a thread's tree laid out on
    its rings and only makes the tree grow. */
module Producers {
  import opened EventTree
  import opened EventLog

  // ---- who holds a ring ----------------------------------------------------------

  /** No bracket is on ring `r`. */
  predicate Away(b: Bracket, r: nat)
    decreases b, 1
  {
    b.ring != r && AwaySpan(b.body, r)
  }

  predicate AwaySpan(s: Span, r: nat)
    decreases s, 0
  {
    s.Cut? ==> Away(s.sub, r) && AwaySpan(s.rest, r)
  }

  /** No unfinished bracket is on ring `r`. */
  predicate NoneOpen(b: Bracket, r: nat)
    decreases b, 1
  {
    (b.ring == r ==> !b.open) && NoneOpenSpan(b.body, r)
  }

  predicate NoneOpenSpan(s: Span, r: nat)
    decreases s, 0
  {
    s.Cut? ==> NoneOpen(s.sub, r) && NoneOpenSpan(s.rest, r)
  }

  /** The last bracket on ring `r` is unfinished, and it is the only unfinished one there: a
      thread or a handler of this tree is logging on the ring. */
  predicate Holds(b: Bracket, r: nat)
    decreases b, 1
  {
    if b.ring == r then b.open else HoldsSpan(b.body, r)
  }

  predicate HoldsSpan(s: Span, r: nat)
    decreases s, 0
  {
    s.Cut? &&
    if AwaySpan(s.rest, r) then Holds(s.sub, r) else NoneOpen(s.sub, r) && HoldsSpan(s.rest, r)
  }

  /** And nothing at all comes after it: the ring is the one that the thread's next
      interruption will be recorded on. */
  predicate AtTail(b: Bracket, r: nat)
    decreases b, 1
  {
    b.open && (b.ring == r || AtTailSpan(b.body, r))
  }

  predicate AtTailSpan(s: Span, r: nat)
    decreases s, 0
  {
    s.Cut? &&
    if s.rest.Done? then s.rest.from == s.rest.to && AtTail(s.sub, r)
    else NoneOpen(s.sub, r) && AtTailSpan(s.rest, r)
  }

  // ---- the steps, on trees -----------------------------------------------------------

  /** `k` more words at the end of a bracket. */
  function Longer(s: Span, k: nat): (r: Span)
    ensures r.from == s.from && r.Cut? == s.Cut?
  {
    match s
    case Done(from, to, more) => Done(from, to + k, more)
    case Cut(from, at, sub, rest) => Cut(from, at, sub, Longer(rest, k))
  }

  /** rvp_ring_put_multiple of `k` words by the holder of ring `r`. */
  function PutOn(b: Bracket, r: nat, k: nat): (b': Bracket)
    requires Holds(b, r)
    ensures b'.ring == b.ring && b'.depth == b.depth && b'.open == b.open && b'.body.from == b.body.from
    decreases b, 1
  {
    b.(body := if b.ring == r then Longer(b.body, k) else PutOnSpan(b.body, r, k))
  }

  function PutOnSpan(s: Span, r: nat, k: nat): (s': Span)
    requires HoldsSpan(s, r)
    ensures s'.from == s.from && s'.Cut?
    decreases s, 0
  {
    if AwaySpan(s.rest, r) then Cut(s.from, s.at, PutOn(s.sub, r, k), s.rest)
    else Cut(s.from, s.at, s.sub, PutOnSpan(s.rest, r, k))
  }

  /** The words that come after the holder of ring `r`. */
  function Beyond(b: Bracket, r: nat): seq<Slot>
    requires Holds(b, r)
    decreases b, 1
  {
    if b.ring == r then [] else BeyondSpan(b.ring, b.depth, b.body, r)
  }

  function BeyondSpan(ring: nat, depth: nat, s: Span, r: nat): seq<Slot>
    requires HoldsSpan(s, r)
    decreases s, 0
  {
    if AwaySpan(s.rest, r) then Beyond(s.sub, r) + FlattenSpan(ring, depth, s.rest)
    else BeyondSpan(ring, depth, s.rest, r)
  }

  /** The signal depth that the holder of ring `r` logs at. */
  function DepthOf(b: Bracket, r: nat): nat
    requires Holds(b, r)
    decreases b, 1
  {
    if b.ring == r then b.depth else DepthOfSpan(b.body, r)
  }

  function DepthOfSpan(s: Span, r: nat): nat
    requires HoldsSpan(s, r)
    decreases s, 0
  {
    if AwaySpan(s.rest, r) then DepthOf(s.sub, r) else DepthOfSpan(s.rest, r)
  }

  /** Where the words of the holder of ring `r` end. */
  function EndOf(s: Span): nat
  {
    if s.Done? then s.to else EndOf(s.rest)
  }

  function TipOf(b: Bracket, r: nat): nat
    requires Holds(b, r)
    decreases b, 1
  {
    if b.ring == r then EndOf(b.body) else TipOfSpan(b.body, r)
  }

  function TipOfSpan(s: Span, r: nat): nat
    requires HoldsSpan(s, r)
    decreases s, 0
  {
    if AwaySpan(s.rest, r) then TipOf(s.sub, r) else TipOfSpan(s.rest, r)
  }

  lemma {:induction false} LongerFlattens(ring: nat, depth: nat, s: Span, k: nat)
    requires s.Done? ==> s.from <= s.to
    requires OrderedRest(s)
    ensures FlattenSpan(ring, depth, Longer(s, k)) ==
            FlattenSpan(ring, depth, s) + Run(ring, depth, EndOf(s), EndOf(s) + k)
    decreases s
  {
    hide Flatten;
    match s {
      case Done(from, to, _) => RunSplit(ring, depth, from, to, to + k);
      case Cut(from, at, sub, rest) =>
        LongerFlattens(ring, depth, rest, k);
        assert Run(ring, depth, from, at) + Flatten(sub) + (FlattenSpan(ring, depth, rest) + Run(ring, depth, EndOf(s), EndOf(s) + k)) ==
               Run(ring, depth, from, at) + Flatten(sub) + FlattenSpan(ring, depth, rest) + Run(ring, depth, EndOf(s), EndOf(s) + k);
    }
  }

  predicate OrderedRest(s: Span)
  {
    if s.Done? then s.from <= s.to else OrderedRest(s.rest)
  }

  lemma {:induction false} OrderedHasRest(n: nat, depth: nat, s: Span)
    requires OrderedSpan(n, depth, s)
    ensures OrderedRest(s)
    decreases s
  {
    if s.Cut? { OrderedHasRest(n, depth, s.rest); }
  }

  /** What a holder puts goes, in program order, after everything but the words of handlers that
      came after it; after everything if it is at the tail. */
  lemma {:induction false} PutFlattens(n: nat, b: Bracket, r: nat, k: nat) returns (front: seq<Slot>)
    requires Holds(b, r) && Ordered(n, b)
    ensures Flatten(b) == front + Beyond(b, r)
    ensures Flatten(PutOn(b, r, k)) == front + Run(r, DepthOf(b, r), TipOf(b, r), TipOf(b, r) + k) + Beyond(b, r)
    decreases b, 1
  {
    if b.ring == r {
      front := Flatten(b);
      OrderedHasRest(n, b.depth, b.body);
      LongerFlattens(b.ring, b.depth, b.body, k);
      assert front + [] == front;
      assert Flatten(PutOn(b, r, k)) + [] == Flatten(PutOn(b, r, k));
    } else {
      front := PutSpanFlattens(n, b.ring, b.depth, b.body, r, k);
    }
  }

  lemma {:induction false} PutSpanFlattens(n: nat, ring: nat, depth: nat, s: Span, r: nat, k: nat) returns (front: seq<Slot>)
    requires HoldsSpan(s, r) && OrderedSpan(n, depth, s)
    ensures FlattenSpan(ring, depth, s) == front + BeyondSpan(ring, depth, s, r)
    ensures FlattenSpan(ring, depth, PutOnSpan(s, r, k)) ==
            front + Run(r, DepthOfSpan(s, r), TipOfSpan(s, r), TipOfSpan(s, r) + k) + BeyondSpan(ring, depth, s, r)
    decreases s, 0
  {
    hide Flatten, Run, Beyond, PutOn, DepthOf, TipOf, Away, NoneOpen, Holds, Ordered;
    var lead := Run(ring, depth, s.from, s.at);
    if AwaySpan(s.rest, r) {
      var a := PutFlattens(n, s.sub, r, k);
      front := lead + a;
      var words := Run(r, DepthOf(s.sub, r), TipOf(s.sub, r), TipOf(s.sub, r) + k);
      Regroup(lead, a, words, Beyond(s.sub, r), FlattenSpan(ring, depth, s.rest));
    } else {
      var a := PutSpanFlattens(n, ring, depth, s.rest, r, k);
      front := lead + Flatten(s.sub) + a;
      var words := Run(r, DepthOfSpan(s.rest, r), TipOfSpan(s.rest, r), TipOfSpan(s.rest, r) + k);
      Regroup(lead + Flatten(s.sub), a, words, BeyondSpan(ring, depth, s.rest, r), []);
    }
  }

  lemma Regroup(a: seq<Slot>, b: seq<Slot>, w: seq<Slot>, c: seq<Slot>, d: seq<Slot>)
    ensures a + (b + c) + d == (a + b) + (c + d)
    ensures a + (b + w + c) + d == (a + b) + w + (c + d)
    ensures c + [] == c && a + (b + c) + [] == a + (b + c) && a + (b + w + c) + [] == a + (b + w + c)
  {
  }

  lemma {:induction false} NothingBeyondTail(b: Bracket, r: nat)
    requires AtTail(b, r)
    ensures Holds(b, r) && Beyond(b, r) == []
    decreases b, 1
  {
    if b.ring != r { NothingBeyondTailSpan(b.ring, b.depth, b.body, r); }
  }

  lemma {:induction false} NothingBeyondTailSpan(ring: nat, depth: nat, s: Span, r: nat)
    requires AtTailSpan(s, r)
    ensures HoldsSpan(s, r) && !AwaySpan(s, r) && BeyondSpan(ring, depth, s, r) == []
    decreases s, 0
  {
    if s.rest.Done? {
      NothingBeyondTail(s.sub, r);
      HolderIsNotAway(s.sub, r);
    } else {
      NothingBeyondTailSpan(ring, depth, s.rest, r);
    }
  }

  lemma {:induction false} HolderIsNotAway(b: Bracket, r: nat)
    requires Holds(b, r)
    ensures !Away(b, r)
    decreases b, 1
  {
    if b.ring != r { HolderSpanIsNotAway(b.body, r); }
  }

  lemma {:induction false} HolderSpanIsNotAway(s: Span, r: nat)
    requires HoldsSpan(s, r)
    ensures !AwaySpan(s, r)
    decreases s, 0
  {
    if AwaySpan(s.rest, r) { HolderIsNotAway(s.sub, r); }
  }

  // ---- words put ---------------------------------------------------------------------------

  function PutLog(log: seq<LogRing>, r: nat, k: nat): (log': seq<LogRing>)
    requires r < |log|
    ensures |log'| == |log|
  {
    log[r := log[r].(prod := log[r].prod + k)]
  }

  function Bump(c: Cursor, r: nat, k: nat): (c': Cursor)
    requires r < |c.w|
    ensures |c'.w| == |c.w| && c'.p == c.p
  {
    c.(w := c.w[r := c.w[r] + k])
  }

  /** Brackets deeper than ring `r` do not see what is put on it. */
  lemma DeeperStays(log: seq<LogRing>, r: nat, k: nat, it: LogIntr, b: Bracket, c: Cursor)
    requires Fits(log, c) && r < |log| && it.ring < |log| && Under(log, r, it.ring) && Laid(log, it, b, c)
    ensures Laid(PutLog(log, r, k), it, b, c)
  {
    hide Laid;
    LaidFrame(log, PutLog(log, r, k), it, b, c, c);
  }

  lemma {:induction false} HolderGrows(n: nat, log: seq<LogRing>, r: nat, k: nat, s: Span, c: Cursor)
    requires Fits(log, c) && r < |log| && LaidSpan(log, r, log[r].prod, true, s, c) && Bounded(n, log) && Ahead(log, c)
    ensures LaidSpan(PutLog(log, r, k), r, log[r].prod + k, true, Longer(s, k), c)
    ensures AfterSpan(r, s, c).w[r] == log[r].prod && AfterSpan(r, Longer(s, k), c) == Bump(AfterSpan(r, s, c), r, k)
    ensures EndOf(s) == log[r].prod
    decreases s
  {
    hide Laid, After;
    assert BoundedRing(n, |log|, log[r]);
    if s.Cut? {
      var it := log[r].pend[c.p[r]];
      var c1 := PassIntr(c, r, s.at);
      DeeperStays(log, r, k, it, s.sub, c1);
      AfterMoves(log, it, s.sub, c1);
      HolderGrows(n, log, r, k, s.rest, After(s.sub, c1));
    }
  }

  /** Finished brackets on ring `r` do not see it either. */
  lemma {:induction false} FinishedStays(log: seq<LogRing>, r: nat, k: nat, it: LogIntr, b: Bracket, c: Cursor)
    requires Fits(log, c) && r < |log| && it.ring < |log| && Laid(log, it, b, c) && NoneOpen(b, r)
    ensures Laid(PutLog(log, r, k), it, b, c)
    decreases b, 1
  {
    FinishedSpanStays(log, r, k, b.ring, End(log, it), b.open, b.body, c);
  }

  lemma {:induction false} FinishedSpanStays(log: seq<LogRing>, r: nat, k: nat, q: nat, last: nat, open: bool, s: Span, c: Cursor)
    requires Fits(log, c) && r < |log| && q < |log| && LaidSpan(log, q, last, open, s, c) && NoneOpenSpan(s, r)
    ensures LaidSpan(PutLog(log, r, k), q, last, open, s, c)
    decreases s, 0
  {
    hide Laid, After;
    if s.Cut? {
      var c1 := PassIntr(c, q, s.at);
      FinishedStays(log, r, k, log[q].pend[c.p[q]], s.sub, c1);
      FinishedSpanStays(log, r, k, q, last, open, s.rest, After(s.sub, c1));
    }
  }

  /** Nor do brackets on other rings, wherever the walk has got to on ring `r`. */
  lemma {:induction false} AwayStays(log: seq<LogRing>, r: nat, k: nat, it: LogIntr, b: Bracket, c: Cursor)
    requires Fits(log, c) && r < |log| && it.ring < |log| && Laid(log, it, b, c) && Away(b, r)
    ensures Laid(PutLog(log, r, k), it, b, Bump(c, r, k)) && After(b, Bump(c, r, k)) == Bump(After(b, c), r, k)
    decreases b, 1
  {
    AwaySpanStays(log, r, k, b.ring, End(log, it), b.open, b.body, c);
  }

  lemma {:induction false} AwaySpanStays(log: seq<LogRing>, r: nat, k: nat, q: nat, last: nat, open: bool, s: Span, c: Cursor)
    requires Fits(log, c) && r < |log| && q < |log| && LaidSpan(log, q, last, open, s, c) && AwaySpan(s, r) && q != r
    ensures LaidSpan(PutLog(log, r, k), q, last, open, s, Bump(c, r, k))
    ensures AfterSpan(q, s, Bump(c, r, k)) == Bump(AfterSpan(q, s, c), r, k)
    decreases s, 0
  {
    hide Laid, After;
    if s.Cut? {
      var c1 := PassIntr(c, q, s.at);
      assert PassIntr(Bump(c, r, k), q, s.at) == Bump(c1, r, k);
      AwayStays(log, r, k, log[q].pend[c.p[q]], s.sub, c1);
      AwaySpanStays(log, r, k, q, last, open, s.rest, After(s.sub, c1));
    } else {
      assert MoveTo(Bump(c, r, k), q, s.to) == Bump(MoveTo(c, q, s.to), r, k);
    }
  }

  /** What the holder of a ring puts on it lengthens its bracket. */
  lemma {:induction false} PutIsLaid(n: nat, log: seq<LogRing>, r: nat, k: nat, it: LogIntr, b: Bracket, c: Cursor)
    requires Fits(log, c) && r < |log| && it.ring < |log| && Laid(log, it, b, c) && Holds(b, r)
    requires Bounded(n, log) && Ahead(log, c)
    ensures Laid(PutLog(log, r, k), it, PutOn(b, r, k), c) && After(PutOn(b, r, k), c) == Bump(After(b, c), r, k)
    ensures TipOf(b, r) == log[r].prod && DepthOf(b, r) == log[r].depth
    decreases b, 1
  {
    if b.ring == r {
      HolderGrows(n, log, r, k, b.body, c);
    } else {
      PutSpanIsLaid(n, log, r, k, b.ring, End(log, it), b.open, b.body, c);
    }
  }

  lemma {:induction false} PutSpanIsLaid(n: nat, log: seq<LogRing>, r: nat, k: nat, q: nat, last: nat, open: bool, s: Span, c: Cursor)
    requires Fits(log, c) && r < |log| && q < |log| && LaidSpan(log, q, last, open, s, c) && HoldsSpan(s, r) && q != r
    requires Bounded(n, log) && Ahead(log, c)
    ensures LaidSpan(PutLog(log, r, k), q, last, open, PutOnSpan(s, r, k), c)
    ensures AfterSpan(q, PutOnSpan(s, r, k), c) == Bump(AfterSpan(q, s, c), r, k)
    ensures TipOfSpan(s, r) == log[r].prod && DepthOfSpan(s, r) == log[r].depth
    decreases s, 0
  {
    hide Laid, After, Bounded, PutOn, Holds, Away, NoneOpen, TipOf, DepthOf;
    var it := log[q].pend[c.p[q]];
    var c1 := PassIntr(c, q, s.at);
    AfterMoves(log, it, s.sub, c1);
    if AwaySpan(s.rest, r) {
      PutIsLaid(n, log, r, k, it, s.sub, c1);
      AwaySpanStays(log, r, k, q, last, open, s.rest, After(s.sub, c1));
    } else {
      FinishedStays(log, r, k, it, s.sub, c1);
      PutSpanIsLaid(n, log, r, k, q, last, open, s.rest, After(s.sub, c1));
    }
  }

  /** A bracket that is laid ends where its interruption does. */
  lemma {:induction false} EndIs(log: seq<LogRing>, r: nat, last: nat, open: bool, s: Span, c: Cursor)
    requires Fits(log, c) && r < |log| && LaidSpan(log, r, last, open, s, c)
    ensures EndOf(s) == last
    decreases s
  {
    hide Laid, After;
    if s.Cut? { EndIs(log, r, last, open, s.rest, After(s.sub, PassIntr(c, r, s.at))); }
  }

  // ---- an interruption closed ---------------------------------------------------------------

  /** rvp_interruption_close of interruption number `j` of ring `h`, at its ring's producer. */
  function LeaveLog(log: seq<LogRing>, h: nat, j: nat): (log': seq<LogRing>)
    requires h < |log| && j < |log[h].pend| && log[h].pend[j].ring < |log|
    ensures |log'| == |log|
  {
    var it := log[h].pend[j];
    log[h := log[h].(pend := log[h].pend[j := it.(eidx := log[it.ring].prod, open := false)])]
  }

  /** The holder of ring `r` finishes. */
  function LeaveOn(b: Bracket, r: nat): (b': Bracket)
    requires Holds(b, r)
    ensures b'.ring == b.ring && b'.depth == b.depth && b'.body.from == b.body.from
    ensures (b'.open ==> b.open) && (b.ring != r ==> b'.open == b.open)
    decreases b, 1
  {
    if b.ring == r then b.(open := false) else b.(body := LeaveOnSpan(b.body, r))
  }

  function LeaveOnSpan(s: Span, r: nat): (s': Span)
    requires HoldsSpan(s, r)
    ensures s'.from == s.from && s'.Cut?
    decreases s, 0
  {
    if AwaySpan(s.rest, r) then Cut(s.from, s.at, LeaveOn(s.sub, r), s.rest)
    else Cut(s.from, s.at, s.sub, LeaveOnSpan(s.rest, r))
  }

  /** The handlers that interrupted a bracket have finished, and it has words after the last. */
  predicate Closable(s: Span)
  {
    s.Cut? ==> !s.sub.open && (s.rest.Done? ==> s.rest.from < s.rest.to) && Closable(s.rest)
  }

  /** The holder of ring `r` may finish. */
  predicate MayLeave(b: Bracket, r: nat)
    requires Holds(b, r)
    decreases b, 1
  {
    if b.ring == r then Closable(b.body) else MayLeaveSpan(b.body, r)
  }

  predicate MayLeaveSpan(s: Span, r: nat)
    requires HoldsSpan(s, r)
    decreases s, 0
  {
    if AwaySpan(s.rest, r) then MayLeave(s.sub, r) else MayLeaveSpan(s.rest, r)
  }

  /** Interruption number `j` of ring `h` is the one unfinished interruption by its ring. */
  predicate OnlyOpen(log: seq<LogRing>, h: nat, j: nat)
  {
    h < |log| && log[h].pcons <= j < |log[h].pend| && log[h].pend[j].open && log[h].pend[j].ring < |log| &&
    forall q, x | 0 <= q < |log| && log[q].pcons <= x < |log[q].pend| ::
      log[q].pend[x].open && log[q].pend[x].ring == log[h].pend[j].ring ==> q == h && x == j
  }

  lemma {:induction false} OthersStay(log: seq<LogRing>, h: nat, j: nat, it: LogIntr, b: Bracket, c: Cursor)
    requires Fits(log, c) && it.ring < |log| && Laid(log, it, b, c) && OnlyOpen(log, h, j)
    requires NoneOpen(b, log[h].pend[j].ring)
    ensures Laid(LeaveLog(log, h, j), it, b, c)
    decreases b, 1
  {
    OthersSpanStay(log, h, j, b.ring, End(log, it), b.open, b.body, c);
  }

  lemma {:induction false} OthersSpanStay(log: seq<LogRing>, h: nat, j: nat, q: nat, last: nat, open: bool, s: Span, c: Cursor)
    requires Fits(log, c) && q < |log| && LaidSpan(log, q, last, open, s, c) && OnlyOpen(log, h, j)
    requires NoneOpenSpan(s, log[h].pend[j].ring)
    ensures LaidSpan(LeaveLog(log, h, j), q, last, open, s, c)
    decreases s, 0
  {
    hide After;
    if s.Cut? {
      var c1 := PassIntr(c, q, s.at);
      OthersStay(log, h, j, log[q].pend[c.p[q]], s.sub, c1);
      OthersSpanStay(log, h, j, q, last, open, s.rest, After(s.sub, c1));
    }
  }

  lemma {:induction false} AwayIsNoneOpen(s: Span, r: nat)
    requires AwaySpan(s, r)
    ensures NoneOpenSpan(s, r)
    decreases s, 0
  {
    if s.Cut? {
      AwayBracketIsNoneOpen(s.sub, r);
      AwayIsNoneOpen(s.rest, r);
    }
  }

  lemma {:induction false} AwayBracketIsNoneOpen(b: Bracket, r: nat)
    requires Away(b, r)
    ensures NoneOpen(b, r)
    decreases b, 1
  {
    AwayIsNoneOpen(b.body, r);
  }

  /** Brackets deeper than a ring are not on it. */
  lemma {:induction false} DeeperIsAway(log: seq<LogRing>, r: nat, it: LogIntr, b: Bracket, c: Cursor)
    requires Fits(log, c) && r < |log| && it.ring < |log| && Laid(log, it, b, c) && log[r].depth < log[it.ring].depth
    ensures Away(b, r)
    decreases b, 1
  {
    DeeperSpanIsAway(log, r, b.ring, End(log, it), b.open, b.body, c);
  }

  lemma {:induction false} DeeperSpanIsAway(log: seq<LogRing>, r: nat, q: nat, last: nat, open: bool, s: Span, c: Cursor)
    requires Fits(log, c) && r < |log| && q < |log| && LaidSpan(log, q, last, open, s, c) && log[r].depth <= log[q].depth
    ensures AwaySpan(s, r)
    decreases s, 0
  {
    hide After;
    if s.Cut? {
      var c1 := PassIntr(c, q, s.at);
      DeeperIsAway(log, r, log[q].pend[c.p[q]], s.sub, c1);
      DeeperSpanIsAway(log, r, q, last, open, s.rest, After(s.sub, c1));
    }
  }

  /** The holder's own span, once it is finished. */
  lemma {:induction false} HolderFinishes(log: seq<LogRing>, r: nat, last: nat, s: Span, c: Cursor)
    requires Fits(log, c) && r < |log| && LaidSpan(log, r, last, true, s, c) && Closable(s)
    ensures LaidSpan(log, r, last, false, s, c) && (s.Cut? ==> s.at < last) && s.from <= last
    decreases s
  {
    hide Laid, After;
    if s.Cut? {
      LaidSub(log, r, last, true, s, c);
      HolderFinishes(log, r, last, s.rest, After(s.sub, PassIntr(c, r, s.at)));
    }
  }

  lemma {:induction false} LeaveIsLaid(log: seq<LogRing>, h: nat, j: nat, r: nat, it: LogIntr, b: Bracket, c: Cursor)
    requires Fits(log, c) && it.ring < |log| && Laid(log, it, b, c) && Ahead(log, c)
    requires OnlyOpen(log, h, j) && r == log[h].pend[j].ring && Holds(b, r) && MayLeave(b, r)
    ensures var it' := if b.ring == r then it.(eidx := log[r].prod, open := false) else it;
            Laid(LeaveLog(log, h, j), it', LeaveOn(b, r), c)
    ensures After(LeaveOn(b, r), c) == After(b, c)
    decreases b, 1
  {
    if b.ring == r {
      DeeperSpanIsAway(log, r, r, End(log, it), true, b.body, c);
      AwayIsNoneOpen(b.body, r);
      OthersSpanStay(log, h, j, r, End(log, it), true, b.body, c);
      HolderFinishes(LeaveLog(log, h, j), r, End(log, it), b.body, c);
    } else {
      LeaveSpanIsLaid(log, h, j, r, b.ring, End(log, it), b.open, b.body, c);
    }
  }

  lemma {:induction false} LeaveSpanIsLaid(log: seq<LogRing>, h: nat, j: nat, r: nat, q: nat, last: nat, open: bool, s: Span, c: Cursor)
    requires Fits(log, c) && q < |log| && LaidSpan(log, q, last, open, s, c) && Ahead(log, c) && q != r
    requires OnlyOpen(log, h, j) && r == log[h].pend[j].ring && HoldsSpan(s, r) && MayLeaveSpan(s, r)
    ensures LaidSpan(LeaveLog(log, h, j), q, last, open, LeaveOnSpan(s, r), c)
    ensures AfterSpan(q, LeaveOnSpan(s, r), c) == AfterSpan(q, s, c)
    decreases s, 0
  {
    hide Laid, After;
    var it := log[q].pend[c.p[q]];
    var c1 := PassIntr(c, q, s.at);
    LaidSub(log, q, last, open, s, c);
    AfterMoves(log, it, s.sub, c1);
    if AwaySpan(s.rest, r) {
      LeaveIsLaid(log, h, j, r, it, s.sub, c1);
      AwayIsNoneOpen(s.rest, r);
      OthersSpanStay(log, h, j, q, last, open, s.rest, After(s.sub, c1));
      EntryIs(log, h, j, q, c.p[q], s.sub, r);
    } else {
      OthersStay(log, h, j, it, s.sub, c1);
      LeaveSpanIsLaid(log, h, j, r, q, last, open, s.rest, After(s.sub, c1));
    }
  }

  lemma LaidSub(log: seq<LogRing>, q: nat, last: nat, open: bool, s: Span, c: Cursor)
    requires Fits(log, c) && q < |log| && LaidSpan(log, q, last, open, s, c) && s.Cut?
    ensures c.p[q] < |log[q].pend| &&
            var it := log[q].pend[c.p[q]];
            it.ring < |log| && s.sub.ring == it.ring && s.sub.open == it.open
  {
  }

  /** If the holder is the bracket of an interruption, it is of the one that finishes. */
  lemma EntryIs(log: seq<LogRing>, h: nat, j: nat, q: nat, x: nat, b: Bracket, r: nat)
    requires OnlyOpen(log, h, j) && r == log[h].pend[j].ring && q < |log| && log[q].pcons <= x < |log[q].pend|
    requires b.ring == log[q].pend[x].ring && b.open == log[q].pend[x].open && Holds(b, r)
    ensures LeaveLog(log, h, j)[q].pend[x] ==
            if b.ring == r then log[q].pend[x].(eidx := log[r].prod, open := false) else log[q].pend[x]
  {
  }

  // ---- an interruption recorded ---------------------------------------------------------------

  /** rvp_ring_put_interruption on ring `h`, by ring `q`. */
  function EnterLog(log: seq<LogRing>, h: nat, q: nat): (log': seq<LogRing>)
    requires h < |log| && q < |log|
    ensures |log'| == |log|
  {
    log[h := log[h].(pend := log[h].pend + [Recorded(log, h, q)])]
  }

  /** The record: where the ring is interrupted, and from where on the interruptor logs. */
  function Recorded(log: seq<LogRing>, h: nat, q: nat): LogIntr
    requires h < |log| && q < |log|
  {
    LogIntr(q, log[h].prod, log[q].prod, 0, true)
  }

  /** A finished bracket on the ring is now followed by an interruption there. */
  function MarkEnd(s: Span): (s': Span)
    ensures s'.from == s.from && s'.Cut? == s.Cut?
  {
    match s
    case Done(from, to, _) => Done(from, to, true)
    case Cut(from, at, sub, rest) => Cut(from, at, sub, MarkEnd(rest))
  }

  function Mark(b: Bracket, h: nat): (b': Bracket)
    ensures b'.ring == b.ring && b'.depth == b.depth && b'.open == b.open && b'.body.from == b.body.from
    decreases b, 1
  {
    b.(body := if b.ring == h then MarkEnd(b.body) else MarkSpan(b.body, h))
  }

  function MarkSpan(s: Span, h: nat): (s': Span)
    ensures s'.from == s.from && s'.Cut? == s.Cut?
    decreases s, 0
  {
    match s
    case Done(_, _, _) => s
    case Cut(from, at, sub, rest) => Cut(from, at, Mark(sub, h), MarkSpan(rest, h))
  }

  /** The span of the interrupted ring is cut where it ends. */
  function Interrupted(s: Span, sub: Bracket): (s': Span)
    ensures s'.from == s.from && s'.Cut?
  {
    match s
    case Done(from, to, _) => Cut(from, to, sub, Done(to, to, false))
    case Cut(from, at, first, rest) => Cut(from, at, first, Interrupted(rest, sub))
  }

  /** The ring at the tail, `h`, is interrupted by the bracket `sub`. */
  function EnterOn(b: Bracket, h: nat, sub: Bracket): (b': Bracket)
    requires AtTail(b, h)
    ensures b'.ring == b.ring && b'.depth == b.depth && b'.open == b.open && b'.body.from == b.body.from
    decreases b, 1
  {
    b.(body := if b.ring == h then Interrupted(b.body, sub) else EnterOnSpan(b.body, h, sub))
  }

  function EnterOnSpan(s: Span, h: nat, sub: Bracket): (s': Span)
    requires AtTailSpan(s, h)
    ensures s'.from == s.from && s'.Cut?
    decreases s, 0
  {
    if s.rest.Done? then Cut(s.from, s.at, EnterOn(s.sub, h, sub), s.rest)
    else Cut(s.from, s.at, Mark(s.sub, h), EnterOnSpan(s.rest, h, sub))
  }

  /** A handler that has just started on ring `q`. */
  function Starting(log: seq<LogRing>, q: nat): Bracket
    requires q < |log|
  {
    Bracket(q, log[q].depth, true, Done(log[q].prod, log[q].prod, false))
  }

  /** The finished brackets on ring `h` end before position `pos`. */
  predicate EndBefore(b: Bracket, h: nat, pos: nat)
    decreases b, 1
  {
    (b.ring == h && !b.open ==> EndOf(b.body) < pos) && EndBeforeSpan(b.body, h, pos)
  }

  predicate EndBeforeSpan(s: Span, h: nat, pos: nat)
    decreases s, 0
  {
    s.Cut? ==> EndBefore(s.sub, h, pos) && EndBeforeSpan(s.rest, h, pos)
  }

  /** A walk passes no more interruptions than there are. */
  predicate Within(log: seq<LogRing>, c: Cursor)
    requires Fits(log, c)
  {
    forall q | 0 <= q < |log| :: c.p[q] <= |log[q].pend|
  }

  lemma {:induction false} StaysWithin(log: seq<LogRing>, it: LogIntr, b: Bracket, c: Cursor)
    requires Fits(log, c) && it.ring < |log| && Laid(log, it, b, c) && Within(log, c)
    ensures Within(log, After(b, c))
    decreases b, 1
  {
    SpanStaysWithin(log, b.ring, End(log, it), b.open, b.body, c);
  }

  lemma {:induction false} SpanStaysWithin(log: seq<LogRing>, r: nat, last: nat, open: bool, s: Span, c: Cursor)
    requires Fits(log, c) && r < |log| && LaidSpan(log, r, last, open, s, c) && Within(log, c)
    ensures Within(log, AfterSpan(r, s, c))
    decreases s, 0
  {
    hide After;
    if s.Cut? {
      var c1 := PassIntr(c, r, s.at);
      StaysWithin(log, log[r].pend[c.p[r]], s.sub, c1);
      SpanStaysWithin(log, r, last, open, s.rest, After(s.sub, c1));
    }
  }

  lemma DeeperIgnores(log: seq<LogRing>, h: nat, q: nat, it: LogIntr, b: Bracket, c: Cursor)
    requires Fits(log, c) && h < |log| && q < |log| && it.ring < |log| && Under(log, h, it.ring) && Laid(log, it, b, c)
    ensures Laid(EnterLog(log, h, q), it, b, c)
  {
    hide Laid;
    LaidFrame(log, EnterLog(log, h, q), it, b, c, c);
  }

  lemma {:induction false} MarkEndIsLaid(log: seq<LogRing>, h: nat, q: nat, last: nat, s: Span, c: Cursor)
    requires Fits(log, c) && h < |log| && q < |log| && LaidSpan(log, h, last, false, s, c) && Within(log, c)
    requires EndOf(s) < log[h].prod
    ensures LaidSpan(EnterLog(log, h, q), h, last, false, MarkEnd(s), c)
    ensures AfterSpan(h, MarkEnd(s), c) == AfterSpan(h, s, c)
    decreases s
  {
    hide Laid, After;
    if s.Cut? {
      var it := log[h].pend[c.p[h]];
      var c1 := PassIntr(c, h, s.at);
      DeeperIgnores(log, h, q, it, s.sub, c1);
      StaysWithin(log, it, s.sub, c1);
      MarkEndIsLaid(log, h, q, last, s.rest, After(s.sub, c1));
    }
  }

  lemma {:induction false} MarkIsLaid(log: seq<LogRing>, h: nat, q: nat, it: LogIntr, b: Bracket, c: Cursor)
    requires Fits(log, c) && h < |log| && q < |log| && it.ring < |log| && Laid(log, it, b, c) && Within(log, c)
    requires NoneOpen(b, h) && EndBefore(b, h, log[h].prod)
    ensures Laid(EnterLog(log, h, q), it, Mark(b, h), c) && After(Mark(b, h), c) == After(b, c)
    decreases b, 1
  {
    if b.ring == h {
      MarkEndIsLaid(log, h, q, End(log, it), b.body, c);
    } else {
      MarkSpanIsLaid(log, h, q, b.ring, End(log, it), b.open, b.body, c);
    }
  }

  lemma {:induction false} MarkSpanIsLaid(log: seq<LogRing>, h: nat, q: nat, r: nat, last: nat, open: bool, s: Span, c: Cursor)
    requires Fits(log, c) && h < |log| && q < |log| && r < |log| && LaidSpan(log, r, last, open, s, c) && Within(log, c) && r != h
    requires NoneOpenSpan(s, h) && EndBeforeSpan(s, h, log[h].prod)
    ensures LaidSpan(EnterLog(log, h, q), r, last, open, MarkSpan(s, h), c)
    ensures AfterSpan(r, MarkSpan(s, h), c) == AfterSpan(r, s, c)
    decreases s, 0
  {
    hide Laid, After;
    if s.Cut? {
      var it := log[r].pend[c.p[r]];
      var c1 := PassIntr(c, r, s.at);
      MarkIsLaid(log, h, q, it, s.sub, c1);
      StaysWithin(log, it, s.sub, c1);
      MarkSpanIsLaid(log, h, q, r, last, open, s.rest, After(s.sub, c1));
    }
  }

  /** The cursor with one more interruption of ring `h` passed. */
  function OneMore(c: Cursor, h: nat): (c': Cursor)
    requires h < |c.p|
    ensures |c'.p| == |c.p| && c'.w == c.w
  {
    c.(p := c.p[h := c.p[h] + 1])
  }

  lemma {:induction false} HolderIsCut(n: nat, log: seq<LogRing>, h: nat, s: Span, c: Cursor, sub: Bracket)
    requires Fits(log, c) && h < |log| && sub.ring < |log| && LaidSpan(log, h, log[h].prod, true, s, c)
    requires Bounded(n, log) && Ahead(log, c) && Within(log, c)
    requires Under(log, h, sub.ring) && Laid(log, Recorded(log, h, sub.ring), sub, AfterSpan(h, s, c))
    ensures LaidSpan(EnterLog(log, h, sub.ring), h, log[h].prod, true, Interrupted(s, sub), c)
    ensures AfterSpan(h, Interrupted(s, sub), c) == OneMore(After(sub, AfterSpan(h, s, c)), h)
    decreases s
  {
    hide Laid, After;
    assert BoundedRing(n, |log|, log[h]);
    if s.Cut? {
      var it := log[h].pend[c.p[h]];
      var c1 := PassIntr(c, h, s.at);
      DeeperIgnores(log, h, sub.ring, it, s.sub, c1);
      AfterMoves(log, it, s.sub, c1);
      StaysWithin(log, it, s.sub, c1);
      HolderIsCut(n, log, h, s.rest, After(s.sub, c1), sub);
    } else {
      HungIsLaid(log, h, s.to, c, sub);
    }
  }

  /** What is laid after the words of ring `h` is laid as an interruption of their end. */
  lemma HungIsLaid(log: seq<LogRing>, h: nat, at: nat, c: Cursor, sub: Bracket)
    requires Fits(log, c) && h < |log| && sub.ring < |log| && Under(log, h, sub.ring)
    requires Laid(log, Recorded(log, h, sub.ring), sub, MoveTo(c, h, at))
    ensures var c0, c1 := MoveTo(c, h, at), PassIntr(c, h, at);
            Laid(EnterLog(log, h, sub.ring), Recorded(log, h, sub.ring), sub, c1) &&
            After(sub, c1) == OneMore(After(sub, c0), h) && After(sub, c1).w[h] == at && After(sub, c1).p[h] == c.p[h] + 1
  {
    hide Laid, After;
    var log', it := EnterLog(log, h, sub.ring), Recorded(log, h, sub.ring);
    var c0, c1 := MoveTo(c, h, at), PassIntr(c, h, at);
    LaidFrame(log, log', it, sub, c0, c1);
    AfterMoves(log, it, sub, c0);
    AfterMoves(log', it, sub, c1);
    var a, b := OneMore(After(sub, c0), h), After(sub, c1);
    forall x | 0 <= x < |log|
      ensures a.w[x] == b.w[x] && a.p[x] == b.p[x]
    {
      assert Below(log, sub.ring, x) <==> Below(log', sub.ring, x);
    }
    assert a.w == b.w && a.p == b.p;
  }

  /** The ring at the tail is as deep as the bracket, or deeper. */
  lemma {:induction false} TailIsDeep(log: seq<LogRing>, h: nat, it: LogIntr, b: Bracket, c: Cursor)
    requires Fits(log, c) && it.ring < |log| && Laid(log, it, b, c) && AtTail(b, h)
    ensures h < |log| && Below(log, it.ring, h)
    decreases b, 1
  {
    if b.ring != h { TailSpanIsDeep(log, h, b.ring, End(log, it), b.open, b.body, c); }
  }

  lemma {:induction false} TailSpanIsDeep(log: seq<LogRing>, h: nat, r: nat, last: nat, open: bool, s: Span, c: Cursor)
    requires Fits(log, c) && r < |log| && LaidSpan(log, r, last, open, s, c) && AtTailSpan(s, h)
    ensures h < |log| && Under(log, r, h)
    decreases s, 0
  {
    hide Laid, After;
    var c1 := PassIntr(c, r, s.at);
    if s.rest.Done? {
      TailIsDeep(log, h, log[r].pend[c.p[r]], s.sub, c1);
    } else {
      TailSpanIsDeep(log, h, r, last, open, s.rest, After(s.sub, c1));
    }
  }

  /** What is laid after a tree, and is then recorded as an interruption of the ring at its tail, is
      laid in the tree where that ring's words end. */
  lemma {:induction false} EnterIsLaid(n: nat, log: seq<LogRing>, h: nat, it: LogIntr, b: Bracket, c: Cursor, sub: Bracket)
    requires Fits(log, c) && h < |log| && sub.ring < |log| && it.ring < |log| && Laid(log, it, b, c) && AtTail(b, h)
    requires Bounded(n, log) && Ahead(log, c) && Within(log, c) && EndBefore(b, h, log[h].prod)
    requires Under(log, h, sub.ring) && Laid(log, Recorded(log, h, sub.ring), sub, After(b, c))
    ensures Laid(EnterLog(log, h, sub.ring), it, EnterOn(b, h, sub), c)
    ensures After(EnterOn(b, h, sub), c) == OneMore(After(sub, After(b, c)), h)
    decreases b, 1
  {
    if b.ring == h {
      HolderIsCut(n, log, h, b.body, c, sub);
    } else {
      EnterSpanIsLaid(n, log, h, b.ring, End(log, it), b.open, b.body, c, sub);
    }
  }

  lemma {:induction false} EnterSpanIsLaid(n: nat, log: seq<LogRing>, h: nat, r: nat, last: nat, open: bool, s: Span, c: Cursor, sub: Bracket)
    requires Fits(log, c) && h < |log| && sub.ring < |log| && r < |log| && LaidSpan(log, r, last, open, s, c) && AtTailSpan(s, h) && r != h
    requires Bounded(n, log) && Ahead(log, c) && Within(log, c) && EndBeforeSpan(s, h, log[h].prod)
    requires Under(log, h, sub.ring) && Laid(log, Recorded(log, h, sub.ring), sub, AfterSpan(r, s, c))
    ensures LaidSpan(EnterLog(log, h, sub.ring), r, last, open, EnterOnSpan(s, h, sub), c)
    ensures AfterSpan(r, EnterOnSpan(s, h, sub), c) == OneMore(After(sub, AfterSpan(r, s, c)), h)
    decreases s, 0
  {
    hide Laid, After, Bounded, EndBefore, AtTail, EnterOn, Mark, NoneOpen;
    var it := log[r].pend[c.p[r]];
    var c1 := PassIntr(c, r, s.at);
    AfterMoves(log, it, s.sub, c1);
    StaysWithin(log, it, s.sub, c1);
    TailSpanIsDeep(log, h, r, last, open, s, c);
    if s.rest.Done? {
      var c2 := After(s.sub, c1);
      StayPut(c2, r, s.rest.to);
      EnterIsLaid(n, log, h, it, s.sub, c1, sub);
      AfterMoves(log, Recorded(log, h, sub.ring), sub, c2);
      StayPut(OneMore(After(sub, c2), h), r, s.rest.to);
    } else {
      MarkIsLaid(log, h, sub.ring, it, s.sub, c1);
      EnterSpanIsLaid(n, log, h, r, last, open, s.rest, After(s.sub, c1), sub);
    }
  }

  lemma StayPut(c: Cursor, r: nat, pos: nat)
    requires r < |c.w| && c.w[r] == pos
    ensures MoveTo(c, r, pos) == c
  {
    assert c.w[r := pos] == c.w;
  }

  // ---- a ring taken over ------------------------------------------------------------------------

  /** rvp_signal_ring_acquire on a clean ring: it gets the thread and the depth of its holder. */
  function AcquireLog(log: seq<LogRing>, q: nat, tid: nat, depth: nat): (log': seq<LogRing>)
    requires q < |log|
    ensures |log'| == |log|
  {
    log[q := log[q].(tid := tid, depth := depth)]
  }

  /** Under its new label ring `q` could have made every interruption by it, among those of the rings
      below `root`, that the serializer has not dropped. */
  predicate Relabels(log: seq<LogRing>, root: nat, q: nat, tid: nat, depth: nat)
    requires root < |log|
  {
    forall x, k | 0 <= x < |log| && Below(log, root, x) && log[x].pcons <= k < |log[x].pend| && log[x].pend[k].ring == q ::
      log[x].tid == tid && log[x].depth < depth
  }

  /** The brackets on ring `q` get a new depth. */
  function Relabel(b: Bracket, q: nat, depth: nat): (b': Bracket)
    ensures b'.ring == b.ring && b'.open == b.open && b'.body.from == b.body.from && (b.ring != q ==> b'.depth == b.depth)
    decreases b, 1
  {
    Bracket(b.ring, if b.ring == q then depth else b.depth, b.open, RelabelSpan(b.body, q, depth))
  }

  function RelabelSpan(s: Span, q: nat, depth: nat): (s': Span)
    ensures s'.from == s.from && s'.Cut? == s.Cut?
    decreases s, 0
  {
    match s
    case Done(_, _, _) => s
    case Cut(from, at, sub, rest) => Cut(from, at, Relabel(sub, q, depth), RelabelSpan(rest, q, depth))
  }

  lemma {:induction false} RelabelIsLaid(log: seq<LogRing>, q: nat, tid: nat, depth: nat, root: nat, it: LogIntr, b: Bracket, c: Cursor)
    requires Fits(log, c) && it.ring < |log| && Laid(log, it, b, c) && Ahead(log, c) && Clean(log, q) && b.ring != q
    requires root < |log| && Below(log, root, it.ring) && Relabels(log, root, q, tid, depth)
    ensures Laid(AcquireLog(log, q, tid, depth), it, Relabel(b, q, depth), c) && After(Relabel(b, q, depth), c) == After(b, c)
    decreases b, 1
  {
    RelabelSpanIsLaid(log, q, tid, depth, root, b.ring, End(log, it), b.open, b.body, c);
  }

  lemma {:induction false} RelabelSpanIsLaid(log: seq<LogRing>, q: nat, tid: nat, depth: nat, root: nat, r: nat, last: nat, open: bool, s: Span, c: Cursor)
    requires Fits(log, c) && r < |log| && LaidSpan(log, r, last, open, s, c) && Ahead(log, c) && Clean(log, q) && r != q
    requires root < |log| && Below(log, root, r) && Relabels(log, root, q, tid, depth)
    ensures LaidSpan(AcquireLog(log, q, tid, depth), r, last, open, RelabelSpan(s, q, depth), c)
    ensures AfterSpan(r, RelabelSpan(s, q, depth), c) == AfterSpan(r, s, c)
    decreases s, 0
  {
    if s.Cut? {
      var it := log[r].pend[c.p[r]];
      var c1 := PassIntr(c, r, s.at);
      BelowIsBelow(log, r, it.ring);
      if it.ring == q {
        RelabelOne(log, q, tid, depth, it, s.sub, c1);
      } else {
        RelabelIsLaid(log, q, tid, depth, root, it, s.sub, c1);
      }
      AfterMoves(log, it, s.sub, c1);
      RelabelSpanIsLaid(log, q, tid, depth, root, r, last, open, s.rest, After(s.sub, c1));
    }
  }

  lemma RelabelOne(log: seq<LogRing>, q: nat, tid: nat, depth: nat, it: LogIntr, b: Bracket, c: Cursor)
    requires Fits(log, c) && it.ring < |log| && Laid(log, it, b, c) && Ahead(log, c) && Clean(log, q) && it.ring == q
    ensures Laid(AcquireLog(log, q, tid, depth), it, Relabel(b, q, depth), c) && After(Relabel(b, q, depth), c) == After(b, c)
  {
  }

  /** The brackets on ring `q` hold no words and have not been interrupted. */
  predicate Hollow(b: Bracket, q: nat)
    decreases b, 1
  {
    (b.ring == q ==> b.body.Done? && b.body.to <= b.body.from) && HollowSpan(b.body, q)
  }

  predicate HollowSpan(s: Span, q: nat)
    decreases s, 0
  {
    s.Cut? ==> Hollow(s.sub, q) && HollowSpan(s.rest, q)
  }

  lemma {:induction false} CleanIsHollow(log: seq<LogRing>, q: nat, it: LogIntr, b: Bracket, c: Cursor)
    requires Fits(log, c) && it.ring < |log| && Laid(log, it, b, c) && Ahead(log, c) && Clean(log, q)
    ensures Hollow(b, q)
    decreases b, 1
  {
    CleanSpanIsHollow(log, q, b.ring, End(log, it), b.open, b.body, c);
  }

  lemma {:induction false} CleanSpanIsHollow(log: seq<LogRing>, q: nat, r: nat, last: nat, open: bool, s: Span, c: Cursor)
    requires Fits(log, c) && r < |log| && LaidSpan(log, r, last, open, s, c) && Ahead(log, c) && Clean(log, q)
    ensures HollowSpan(s, q)
    decreases s, 0
  {
    if s.Cut? {
      var it := log[r].pend[c.p[r]];
      var c1 := PassIntr(c, r, s.at);
      AfterMoves(log, it, s.sub, c1);
      CleanIsHollow(log, q, it, s.sub, c1);
      CleanSpanIsHollow(log, q, r, last, open, s.rest, After(s.sub, c1));
    }
  }

  lemma {:induction false} HollowFlattens(b: Bracket, q: nat, depth: nat)
    requires Hollow(b, q)
    ensures Flatten(Relabel(b, q, depth)) == Flatten(b)
    decreases b, 1
  {
    if b.ring != q { HollowSpanFlattens(b.ring, b.depth, b.body, q, depth); }
  }

  lemma {:induction false} HollowSpanFlattens(ring: nat, depth: nat, s: Span, q: nat, depth': nat)
    requires HollowSpan(s, q)
    ensures FlattenSpan(ring, depth, RelabelSpan(s, q, depth')) == FlattenSpan(ring, depth, s)
    decreases s, 0
  {
    hide Flatten, Relabel;
    if s.Cut? {
      HollowFlattens(s.sub, q, depth');
      HollowSpanFlattens(ring, depth, s.rest, q, depth');
    }
  }

  /** A get pass does not notice the new label. */
  lemma {:induction false} HollowEmits(n: nat, b: Bracket, q: nat, depth: nat, room: nat, d: nat)
    requires 0 < n && Hollow(b, q)
    ensures Emit(n, Relabel(b, q, depth), room, d) == Emit(n, b, room, d)
    decreases b, 1
  {
    if b.ring != q { HollowSpanEmits(n, b.ring, b.depth, b.body, q, depth, room, d); }
  }

  lemma {:induction false} HollowSpanEmits(n: nat, ring: nat, depth: nat, s: Span, q: nat, depth': nat, room: nat, d: nat)
    requires 0 < n && HollowSpan(s, q)
    ensures EmitSpan(n, ring, depth, RelabelSpan(s, q, depth'), room, d) == EmitSpan(n, ring, depth, s, room, d)
    decreases s, 0
  {
    hide Emit, Relabel, Pieces, Hollow;
    if s.Cut? && room > 0 {
      var lead := Lead(n, ring, depth, s.from, s.at, room, d);
      if lead.Some? {
        var room1, d1 := room - |lead.value|, LeadDepth(depth, s.from, s.at, d);
        HollowEmits(n, s.sub, q, depth', room1, d1);
        var e := Emit(n, s.sub, room1, d1);
        if e.residue >= 0 { HollowSpanEmits(n, ring, depth, s.rest, q, depth', e.residue, e.depth); }
      }
    }
  }

  /** A tree that has only grown into a hollow one was hollow. */
  lemma {:induction false} HollowBefore(n: nat, b: Bracket, t: Bracket, q: nat)
    requires Grown(b, t) && Ordered(n, b) && Hollow(t, q)
    ensures Hollow(b, q)
    decreases b, 1
  {
    HollowSpanBefore(n, b.open, b.depth, b.body, t.body, q);
  }

  lemma {:induction false} HollowSpanBefore(n: nat, open: bool, depth: nat, s: Span, t: Span, q: nat)
    requires GrownSpan(open, s, t) && OrderedSpan(n, depth, s) && HollowSpan(t, q)
    ensures HollowSpan(s, q)
    decreases s, 0
  {
    if s.Cut? {
      HollowBefore(n, s.sub, t.sub, q);
      HollowSpanBefore(n, open, depth, s.rest, t.rest, q);
    }
  }

  /** What has grown into a tree has still grown into it when both have been relabelled. */
  lemma {:induction false} RelabelGrows(n: nat, b: Bracket, t: Bracket, q: nat, depth: nat)
    requires Grown(b, t) && Ordered(n, b) && Ordered(n, Relabel(t, q, depth))
    ensures Grown(Relabel(b, q, depth), Relabel(t, q, depth)) && Ordered(n, Relabel(b, q, depth))
    decreases b, 1
  {
    RelabelSpanGrows(n, b.open, b.depth, Relabel(b, q, depth).depth, b.body, t.body, q, depth);
  }

  lemma {:induction false} RelabelSpanGrows(n: nat, open: bool, depth0: nat, depth1: nat, s: Span, t: Span, q: nat, depth: nat)
    requires GrownSpan(open, s, t) && OrderedSpan(n, depth0, s) && OrderedSpan(n, depth1, RelabelSpan(t, q, depth))
    ensures GrownSpan(open, RelabelSpan(s, q, depth), RelabelSpan(t, q, depth)) && OrderedSpan(n, depth1, RelabelSpan(s, q, depth))
    decreases s, 0
  {
    if s.Cut? {
      RelabelGrows(n, s.sub, t.sub, q, depth);
      RelabelSpanGrows(n, open, depth0, depth1, s.rest, t.rest, q, depth);
    }
  }

  lemma {:induction false} RelabelIsFresh(b: Bracket, q: nat, depth: nat)
    ensures Fresh(Relabel(b, q, depth)) == Fresh(b) && Leading(Relabel(b, q, depth)) == Leading(b)
    decreases b, 1
  {
    RelabelSpanIsFresh(b.open, b.body, q, depth);
  }

  lemma {:induction false} RelabelSpanIsFresh(open: bool, s: Span, q: nat, depth: nat)
    ensures FreshSpan(open, RelabelSpan(s, q, depth)) == FreshSpan(open, s)
    ensures LeadingSpan(open, RelabelSpan(s, q, depth)) == LeadingSpan(open, s)
    ensures EndOf(RelabelSpan(s, q, depth)) == EndOf(s)
    decreases s, 0
  {
    if s.Cut? {
      RelabelIsFresh(s.sub, q, depth);
      RelabelSpanIsFresh(open, s.rest, q, depth);
    }
  }

  // ---- when a ring may be taken over -------------------------------------------------------------

  /** Whatever tree the rings hold once ring `q` has its new label, the walk of it is the same, and
      finds only interruptions that ring `q` could have made under that label. */
  lemma {:induction false} WalkIsSame(log: seq<LogRing>, q: nat, tid: nat, depth: nat, it: LogIntr, b: Bracket, b': Bracket, c: Cursor)
    requires Fits(log, c) && it.ring < |log| && q < |log| && Laid(log, it, b, c) && Laid(AcquireLog(log, q, tid, depth), it, b', c)
    requires Clean(log, q) && Ahead(log, c)
    ensures After(b', c) == After(b, c)
    ensures forall x, k | 0 <= x < |log| && c.p[x] <= k < After(b, c).p[x] && k < |log[x].pend| && log[x].pend[k].ring == q ::
              log[x].tid == tid && log[x].depth < depth && (b == b' ==> log[q].tid == tid && log[q].depth == depth)
    decreases b, 1
  {
    SpanWalkIsSame(log, q, tid, depth, b.ring, End(log, it), b.open, b.body, b'.body, c);
  }

  lemma {:induction false} SpanWalkIsSame(log: seq<LogRing>, q: nat, tid: nat, depth: nat, r: nat, last: nat, open: bool, s: Span, s': Span, c: Cursor)
    requires Fits(log, c) && r < |log| && q < |log| && LaidSpan(log, r, last, open, s, c) && LaidSpan(AcquireLog(log, q, tid, depth), r, last, open, s', c)
    requires Clean(log, q) && Ahead(log, c)
    ensures AfterSpan(r, s', c) == AfterSpan(r, s, c)
    ensures forall x, k | 0 <= x < |log| && c.p[x] <= k < AfterSpan(r, s, c).p[x] && k < |log[x].pend| && log[x].pend[k].ring == q ::
              log[x].tid == tid && log[x].depth < depth && (s == s' ==> log[q].tid == tid && log[q].depth == depth)
    decreases s, 0
  {
    if s.Cut? {
      var it := log[r].pend[c.p[r]];
      var c1 := PassIntr(c, r, s.at);
      AfterMoves(log, it, s.sub, c1);
      WalkIsSame(log, q, tid, depth, it, s.sub, s'.sub, c1);
      SpanWalkIsSame(log, q, tid, depth, r, last, open, s.rest, s'.rest, After(s.sub, c1));
    }
  }

  // ---- every step makes the tree grow, and keeps it fit to be serialized ---------------------------

  lemma {:induction false} LongerGrows(n: nat, depth: nat, s: Span, k: nat)
    requires OrderedSpan(n, depth, s)
    ensures GrownSpan(true, s, Longer(s, k))
    ensures FreshSpan(true, s) ==> FreshSpan(true, Longer(s, k))
    ensures LeadingSpan(true, s) ==> LeadingSpan(true, Longer(s, k))
    decreases s
  {
    hide Fresh, Leading, Grown;
    if s.Cut? {
      GrownSelf(s.sub, n);
      LongerGrows(n, depth, s.rest, k);
    }
  }

  lemma {:induction false} PutGrows(n: nat, b: Bracket, r: nat, k: nat)
    requires Holds(b, r) && Ordered(n, b)
    ensures Grown(b, PutOn(b, r, k))
    ensures Fresh(b) ==> Fresh(PutOn(b, r, k))
    ensures Leading(b) ==> Leading(PutOn(b, r, k))
    decreases b, 1
  {
    if b.ring == r { LongerGrows(n, b.depth, b.body, k); } else { PutSpanGrows(n, b.open, b.depth, b.body, r, k); }
  }

  lemma {:induction false} PutSpanGrows(n: nat, open: bool, depth: nat, s: Span, r: nat, k: nat)
    requires HoldsSpan(s, r) && OrderedSpan(n, depth, s)
    ensures GrownSpan(open, s, PutOnSpan(s, r, k))
    ensures FreshSpan(open, s) ==> FreshSpan(open, PutOnSpan(s, r, k))
    ensures LeadingSpan(open, s) ==> LeadingSpan(open, PutOnSpan(s, r, k))
    decreases s, 0
  {
    hide Fresh, Leading, Grown, PutOn, Holds, Away, NoneOpen, Ordered;
    if AwaySpan(s.rest, r) {
      PutGrows(n, s.sub, r, k);
      GrownSpanSelf(open, s.rest, n, depth);
    } else {
      GrownSelf(s.sub, n);
      PutSpanGrows(n, open, depth, s.rest, r, k);
    }
  }

  lemma {:induction false} LeaveGrows(n: nat, b: Bracket, r: nat)
    requires Holds(b, r) && Ordered(n, b)
    ensures Grown(b, LeaveOn(b, r)) && Flatten(LeaveOn(b, r)) == Flatten(b)
    decreases b, 1
  {
    if b.ring == r { GrownSelf(b, n); } else { LeaveSpanGrows(n, b.open, b.ring, b.depth, b.body, r); }
  }

  lemma {:induction false} LeaveSpanGrows(n: nat, open: bool, ring: nat, depth: nat, s: Span, r: nat)
    requires HoldsSpan(s, r) && OrderedSpan(n, depth, s)
    ensures GrownSpan(open, s, LeaveOnSpan(s, r))
    ensures FlattenSpan(ring, depth, LeaveOnSpan(s, r)) == FlattenSpan(ring, depth, s)
    decreases s, 0
  {
    hide Grown, LeaveOn, Holds, Away, NoneOpen, Ordered, Flatten;
    if AwaySpan(s.rest, r) {
      LeaveGrows(n, s.sub, r);
      GrownSpanSelf(open, s.rest, n, depth);
    } else {
      GrownSelf(s.sub, n);
      LeaveSpanGrows(n, open, ring, depth, s.rest, r);
    }
  }

  lemma {:induction false} MarkEndGrows(n: nat, open: bool, ring: nat, depth: nat, s: Span)
    requires OrderedSpan(n, depth, s)
    ensures GrownSpan(open, s, MarkEnd(s)) && FlattenSpan(ring, depth, MarkEnd(s)) == FlattenSpan(ring, depth, s)
    ensures FreshSpan(open, s) ==> FreshSpan(open, MarkEnd(s))
    ensures LeadingSpan(open, s) ==> LeadingSpan(open, MarkEnd(s))
    decreases s
  {
    hide Fresh, Leading, Grown, Flatten, Ordered;
    if s.Cut? {
      GrownSelf(s.sub, n);
      MarkEndGrows(n, open, ring, depth, s.rest);
    }
  }

  lemma {:induction false} MarkGrows(n: nat, b: Bracket, h: nat)
    requires Ordered(n, b)
    ensures Grown(b, Mark(b, h)) && Flatten(Mark(b, h)) == Flatten(b)
    ensures Fresh(b) ==> Fresh(Mark(b, h))
    ensures Leading(b) ==> Leading(Mark(b, h))
    decreases b, 1
  {
    if b.ring == h { MarkEndGrows(n, b.open, b.ring, b.depth, b.body); }
    else { MarkSpanGrows(n, b.open, b.ring, b.depth, b.body, h); }
  }

  lemma {:induction false} MarkSpanGrows(n: nat, open: bool, ring: nat, depth: nat, s: Span, h: nat)
    requires OrderedSpan(n, depth, s)
    ensures GrownSpan(open, s, MarkSpan(s, h)) && FlattenSpan(ring, depth, MarkSpan(s, h)) == FlattenSpan(ring, depth, s)
    ensures FreshSpan(open, s) ==> FreshSpan(open, MarkSpan(s, h))
    ensures LeadingSpan(open, s) ==> LeadingSpan(open, MarkSpan(s, h))
    decreases s, 0
  {
    hide Fresh, Leading, Grown, Flatten, Mark, Ordered;
    if s.Cut? {
      MarkGrows(n, s.sub, h);
      MarkSpanGrows(n, open, ring, depth, s.rest, h);
    }
  }

  lemma {:induction false} InterruptedGrows(n: nat, ring: nat, depth: nat, s: Span, sub: Bracket)
    requires OrderedSpan(n, depth, s) && Fresh(sub)
    ensures GrownSpan(true, s, Interrupted(s, sub))
    ensures FlattenSpan(ring, depth, Interrupted(s, sub)) == FlattenSpan(ring, depth, s) + Flatten(sub)
    ensures FreshSpan(true, s) ==> FreshSpan(true, Interrupted(s, sub))
    ensures LeadingSpan(true, s) ==> LeadingSpan(true, Interrupted(s, sub))
    decreases s
  {
    hide Flatten, Leading, Fresh, Grown;
    FreshIsLeading(sub);
    if s.Cut? {
      GrownSelf(s.sub, n);
      InterruptedGrows(n, ring, depth, s.rest, sub);
      var lead := Run(ring, depth, s.from, s.at);
      assert lead + Flatten(s.sub) + (FlattenSpan(ring, depth, s.rest) + Flatten(sub)) ==
             lead + Flatten(s.sub) + FlattenSpan(ring, depth, s.rest) + Flatten(sub);
    } else {
      assert Run(ring, depth, s.to, s.to) == [];
    }
  }

  lemma {:induction false} EnterGrows(n: nat, b: Bracket, h: nat, sub: Bracket)
    requires AtTail(b, h) && Ordered(n, b) && Fresh(sub)
    ensures Grown(b, EnterOn(b, h, sub)) && Flatten(EnterOn(b, h, sub)) == Flatten(b) + Flatten(sub)
    ensures Fresh(b) ==> Fresh(EnterOn(b, h, sub))
    ensures Leading(b) ==> Leading(EnterOn(b, h, sub))
    decreases b, 1
  {
    if b.ring == h { InterruptedGrows(n, b.ring, b.depth, b.body, sub); }
    else { EnterSpanGrows(n, b.open, b.ring, b.depth, b.body, h, sub); }
  }

  lemma {:induction false} EnterSpanGrows(n: nat, open: bool, ring: nat, depth: nat, s: Span, h: nat, sub: Bracket)
    requires AtTailSpan(s, h) && OrderedSpan(n, depth, s) && Fresh(sub)
    ensures GrownSpan(open, s, EnterOnSpan(s, h, sub))
    ensures FlattenSpan(ring, depth, EnterOnSpan(s, h, sub)) == FlattenSpan(ring, depth, s) + Flatten(sub)
    ensures FreshSpan(open, s) ==> FreshSpan(open, EnterOnSpan(s, h, sub))
    ensures LeadingSpan(open, s) ==> LeadingSpan(open, EnterOnSpan(s, h, sub))
    decreases s, 0
  {
    hide Fresh, Leading, Grown, Flatten, Mark, EnterOn, AtTail, NoneOpen, Ordered;
    var lead := Run(ring, depth, s.from, s.at);
    if s.rest.Done? {
      EnterGrows(n, s.sub, h, sub);
      GrownSpanSelf(open, s.rest, n, depth);
      assert FlattenSpan(ring, depth, s.rest) == [];
      assert lead + (Flatten(s.sub) + Flatten(sub)) + [] == lead + Flatten(s.sub) + [] + Flatten(sub);
    } else {
      MarkGrows(n, s.sub, h);
      EnterSpanGrows(n, open, ring, depth, s.rest, h, sub);
      assert lead + Flatten(s.sub) + (FlattenSpan(ring, depth, s.rest) + Flatten(sub)) ==
             lead + Flatten(s.sub) + FlattenSpan(ring, depth, s.rest) + Flatten(sub);
    }
  }

  lemma {:induction false} GrownTrans(a: Bracket, b: Bracket, c: Bracket)
    requires Grown(a, b) && Grown(b, c)
    ensures Grown(a, c)
    decreases a, 1
  {
    GrownSpanTrans(a.open, b.open, a.body, b.body, c.body);
  }

  lemma {:induction false} GrownSpanTrans(open: bool, open': bool, a: Span, b: Span, c: Span)
    requires GrownSpan(open, a, b) && GrownSpan(open', b, c) && (open' ==> open)
    ensures GrownSpan(open, a, c)
    decreases a, 0
  {
    if a.Cut? {
      GrownTrans(a.sub, b.sub, c.sub);
      GrownSpanTrans(open, open', a.rest, b.rest, c.rest);
    }
  }

  // ---- bounds ------------------------------------------------------------------------------

  lemma PutBounded(n: nat, log: seq<LogRing>, r: nat, k: nat)
    requires Bounded(n, log) && r < |log| && log[r].prod + k < log[r].cons + n
    ensures Bounded(n, PutLog(log, r, k))
  {
    var log' := PutLog(log, r, k);
    forall x | 0 <= x < |log'|
      ensures BoundedRing(n, |log'|, log'[x])
    {
      assert BoundedRing(n, |log|, log[x]);
    }
  }

  lemma EnterBounded(n: nat, log: seq<LogRing>, h: nat, q: nat)
    requires Bounded(n, log) && h < |log| && q < |log| && |log[h].pend| < log[h].pcons + 7
    ensures Bounded(n, EnterLog(log, h, q))
  {
    var log' := EnterLog(log, h, q);
    forall x | 0 <= x < |log'|
      ensures BoundedRing(n, |log'|, log'[x])
    {
      assert BoundedRing(n, |log|, log[x]);
    }
  }

  lemma LeaveBounded(n: nat, log: seq<LogRing>, h: nat, j: nat)
    requires Bounded(n, log) && OnlyOpen(log, h, j)
    ensures Bounded(n, LeaveLog(log, h, j))
  {
    var log' := LeaveLog(log, h, j);
    forall x | 0 <= x < |log'|
      ensures BoundedRing(n, |log'|, log'[x])
    {
      assert BoundedRing(n, |log|, log[x]);
    }
  }

  lemma AcquireBounded(n: nat, log: seq<LogRing>, q: nat, tid: nat, depth: nat)
    requires Bounded(n, log) && q < |log|
    ensures Bounded(n, AcquireLog(log, q, tid, depth))
  {
    var log' := AcquireLog(log, q, tid, depth);
    forall x | 0 <= x < |log'|
      ensures BoundedRing(n, |log'|, log'[x])
    {
      assert BoundedRing(n, |log|, log[x]);
    }
  }
}
