/** An interruption that is recorded where a finished bracket of the same ring ends. The passes take it
    for that bracket's (the note at llvm/ngrt/serialize.c:502-506), so what its handler logs is read
    before all that the thread has logged since that bracket. */
module Touching {
  import opened Basics
  import opened EventTree
  import opened EventLog
  import opened Producers
  import opened Threads
  import opened Spines
  import opened Walks

  // ---- where the passes take the interruption ---------------------------------------------------------

  /** A finished bracket on ring `h` that ends at position `e`, where the ring is interrupted. */
  predicate IsTouched(b: Bracket, h: nat, e: nat)
  {
    b.ring == h && !b.open && e <= EndOf(b.body)
  }

  /** The words up to the end of the first bracket that is touched; all of them if there is none. */
  function UpTo(b: Bracket, h: nat, e: nat): seq<Slot>
    decreases b, 1
  {
    if IsTouched(b, h, e) then Flatten(b) else UpToSpan(b.ring, b.depth, b.body, h, e)
  }

  function UpToSpan(ring: nat, depth: nat, s: Span, h: nat, e: nat): seq<Slot>
    decreases s, 0
  {
    match s
    case Done(from, to, _) => Run(ring, depth, from, to)
    case Cut(from, at, sub, rest) =>
      if EndBefore(sub, h, e) then Run(ring, depth, from, at) + Flatten(sub) + UpToSpan(ring, depth, rest, h, e)
      else Run(ring, depth, from, at) + UpTo(sub, h, e)
  }

  /** The words after it. */
  function Since(b: Bracket, h: nat, e: nat): seq<Slot>
    decreases b, 1
  {
    if IsTouched(b, h, e) then [] else SinceSpan(b.ring, b.depth, b.body, h, e)
  }

  function SinceSpan(ring: nat, depth: nat, s: Span, h: nat, e: nat): seq<Slot>
    decreases s, 0
  {
    match s
    case Done(_, _, _) => []
    case Cut(_, _, sub, rest) =>
      if EndBefore(sub, h, e) then SinceSpan(ring, depth, rest, h, e)
      else Since(sub, h, e) + FlattenSpan(ring, depth, rest)
  }

  /** Where a walk is when it has come to its end. */
  function Where(b: Bracket, c: Cursor, h: nat, e: nat): (c': Cursor)
    ensures |c'.w| == |c.w| && |c'.p| == |c.p|
    decreases b, 1
  {
    if IsTouched(b, h, e) then After(b, c) else WhereSpan(b.ring, b.body, c, h, e)
  }

  function WhereSpan(r: nat, s: Span, c: Cursor, h: nat, e: nat): (c': Cursor)
    ensures |c'.w| == |c.w| && |c'.p| == |c.p|
    decreases s, 0
  {
    match s
    case Done(_, to, _) => MoveTo(c, r, to)
    case Cut(_, at, sub, rest) =>
      var c1 := PassIntr(c, r, at);
      if EndBefore(sub, h, e) then WhereSpan(r, rest, After(sub, c1), h, e) else Where(sub, c1, h, e)
  }

  lemma {:induction false} SplitThere(b: Bracket, h: nat, e: nat)
    ensures Flatten(b) == UpTo(b, h, e) + Since(b, h, e)
    decreases b, 1
  {
    if !IsTouched(b, h, e) { SplitSpanThere(b.ring, b.depth, b.body, h, e); }
  }

  lemma {:induction false} SplitSpanThere(ring: nat, depth: nat, s: Span, h: nat, e: nat)
    ensures FlattenSpan(ring, depth, s) == UpToSpan(ring, depth, s, h, e) + SinceSpan(ring, depth, s, h, e)
    decreases s, 0
  {
    hide Flatten, UpTo, Since, EndBefore;
    if s.Cut? {
      var lead := Run(ring, depth, s.from, s.at);
      SplitThere(s.sub, h, e);
      SplitSpanThere(ring, depth, s.rest, h, e);
      Regrouped(lead, UpTo(s.sub, h, e), Since(s.sub, h, e), FlattenSpan(ring, depth, s.rest));
      Regrouped(lead, Flatten(s.sub), UpToSpan(ring, depth, s.rest, h, e), SinceSpan(ring, depth, s.rest, h, e));
    }
  }

  lemma Regrouped(a: seq<Slot>, b: seq<Slot>, c: seq<Slot>, d: seq<Slot>)
    ensures a + (b + c) + d == (a + b) + (c + d) && a + b + (c + d) == (a + b + c) + d
  {
  }

  /** With no bracket touched, `UpTo` is everything. */
  lemma {:induction false} NoneTouched(b: Bracket, h: nat, e: nat)
    requires EndBefore(b, h, e)
    ensures UpTo(b, h, e) == Flatten(b) && Since(b, h, e) == []
    decreases b, 1
  {
    NoneTouchedSpan(b.ring, b.depth, b.body, h, e);
  }

  lemma {:induction false} NoneTouchedSpan(ring: nat, depth: nat, s: Span, h: nat, e: nat)
    requires EndBeforeSpan(s, h, e)
    ensures UpToSpan(ring, depth, s, h, e) == FlattenSpan(ring, depth, s) && SinceSpan(ring, depth, s, h, e) == []
    decreases s, 0
  {
    hide Flatten;
    if s.Cut? { NoneTouchedSpan(ring, depth, s.rest, h, e); }
  }

  /** The rings once the interruption of ring `h` by ring `q` has been recorded, and `k` words have been
      put on ring `q`. */
  function TouchLog(log: seq<LogRing>, h: nat, q: nat, k: nat): (log': seq<LogRing>)
    requires h < |log| && q < |log|
    ensures |log'| == |log|
  {
    PutLog(EnterLog(log, h, q), q, k)
  }

  /** Nobody on ring `h` has not finished, but perhaps who is at the tail. */
  predicate Tailed(b: Bracket, h: nat)
  {
    NoneOpen(b, h) || AtTail(b, h)
  }

  predicate TailedSpan(s: Span, h: nat)
  {
    NoneOpenSpan(s, h) || AtTailSpan(s, h)
  }

  /** What the part of a thread's tree is like that is laid from cursor `c` on, when ring `h` is about
      to be interrupted by ring `q`. */
  ghost predicate Part(n: nat, log: seq<LogRing>, h: nat, q: nat, it: LogIntr, b: Bracket, c: Cursor)
  {
    Fits(log, c) && it.ring < |log| && h < |log| && q < |log| && Under(log, h, q) && Laid(log, it, b, c) &&
    Bounded(n, log) && Ahead(log, c) && Within(log, c) && Tailed(b, h) && NoneOpen(b, q)
  }

  ghost predicate PartSpan(n: nat, log: seq<LogRing>, h: nat, q: nat, r: nat, last: nat, open: bool, s: Span, c: Cursor)
  {
    Fits(log, c) && r < |log| && h < |log| && q < |log| && Under(log, h, q) && LaidSpan(log, r, last, open, s, c) &&
    Bounded(n, log) && Ahead(log, c) && Within(log, c) && TailedSpan(s, h) && NoneOpenSpan(s, q)
  }

  lemma PartIs(n: nat, log: seq<LogRing>, h: nat, q: nat, it: LogIntr, b: Bracket, c: Cursor)
    requires Part(n, log, h, q, it, b, c) && b.ring != h
    ensures PartSpan(n, log, h, q, b.ring, End(log, it), b.open, b.body, c)
  {
    hide LaidSpan, Bounded;
  }

  /** The interruption that the walk comes to, and what comes after. */
  lemma PartCut(n: nat, log: seq<LogRing>, h: nat, q: nat, r: nat, last: nat, open: bool, s: Span, c: Cursor)
    requires PartSpan(n, log, h, q, r, last, open, s, c) && s.Cut?
    ensures c.p[r] < |log[r].pend| &&
            Part(n, log, h, q, log[r].pend[c.p[r]], s.sub, PassIntr(c, r, s.at)) &&
            PartSpan(n, log, h, q, r, last, open, s.rest, After(s.sub, PassIntr(c, r, s.at)))
    ensures !EndBeforeSpan(s.rest, h, log[h].prod) ==> NoneOpen(s.sub, h)
  {
    hide Laid, After, Bounded;
    CutMeets(log, r, last, open, s, c);
    var c1 := PassIntr(c, r, s.at);
    var it := log[r].pend[c.p[r]];
    StaysWithin(log, it, s.sub, c1);
    assert Ahead(log, c1);
    AfterMoves(log, it, s.sub, c1);
  }

  /** A part that is not touched stays as it was. */
  lemma UntouchedStays(n: nat, log: seq<LogRing>, h: nat, q: nat, k: nat, it: LogIntr, b: Bracket, c: Cursor)
    requires Part(n, log, h, q, it, b, c) && NoneOpen(b, h) && EndBefore(b, h, log[h].prod)
    ensures Laid(TouchLog(log, h, q, k), it, Mark(b, h), c) && After(Mark(b, h), c) == After(b, c) && Flatten(Mark(b, h)) == Flatten(b)
  {
    hide Laid, After, Mark, NoneOpen, EndBefore, Flatten, Bounded, Ordered;
    LaidIsOrdered(n, log, it, b, c);
    MarkIsLaid(log, h, q, it, b, c);
    MarkGrows(n, b, h);
    MarkedNoneOpen(b, h, q);
    FinishedStays(EnterLog(log, h, q), q, k, it, Mark(b, h), c);
  }

  /** A bracket deeper than ring `h` that nobody on ring `q` is in. */
  lemma DeepStays(log: seq<LogRing>, h: nat, q: nat, k: nat, it: LogIntr, b: Bracket, c: Cursor)
    requires Fits(log, c) && h < |log| && q < |log| && it.ring < |log| && Under(log, h, it.ring) && Laid(log, it, b, c) && NoneOpen(b, q)
    ensures Laid(TouchLog(log, h, q, k), it, b, c)
  {
    hide Laid, NoneOpen;
    DeeperIgnores(log, h, q, it, b, c);
    FinishedStays(EnterLog(log, h, q), q, k, it, b, c);
  }

  /** In the touched bracket, whatever tree the rings hold after the record, the walk comes to the
      interruption at the bracket's end. */
  lemma {:induction false} TakenAtEnd(n: nat, log: seq<LogRing>, h: nat, q: nat, k: nat, s: Span, s': Span, c: Cursor) returns (d: Bracket)
    requires Fits(log, c) && h < |log| && q < |log| && Under(log, h, q) && LaidSpan(log, h, log[h].prod, false, s, c) && NoneOpenSpan(s, q)
    requires Bounded(n, log) && Ahead(log, c) && Within(log, c)
    requires LaidSpan(TouchLog(log, h, q, k), h, log[h].prod, false, s', c)
    ensures Laid(TouchLog(log, h, q, k), Recorded(log, h, q), d, PassIntr(AfterSpan(h, s, c), h, log[h].prod))
    decreases s
  {
    hide Laid, After, NoneOpen, Bounded;
    var log', e := TouchLog(log, h, q, k), log[h].prod;
    OwnBound(n, log, h);
    if s.Cut? {
      CutMeets(log, h, e, false, s, c);
      CutMeets(log', h, e, false, s', c);
      var it := log[h].pend[c.p[h]];
      var c1 := PassIntr(c, h, s.at);
      DeepStays(log, h, q, k, it, s.sub, c1);
      LaidOnce(log', it, s.sub, s'.sub, c1);
      StaysWithin(log, it, s.sub, c1);
      d := TakenAtEnd(n, log, h, q, k, s.rest, s'.rest, After(s.sub, c1));
    } else {
      TakenHere(n, log, h, q, k, s, s', c);
      d := s'.sub;
    }
  }

  lemma TakenHere(n: nat, log: seq<LogRing>, h: nat, q: nat, k: nat, s: Span, s': Span, c: Cursor)
    requires Fits(log, c) && h < |log| && q < |log| && h != q && LaidSpan(log, h, log[h].prod, false, s, c) && s.Done?
    requires Bounded(n, log) && Ahead(log, c) && Within(log, c) && LaidSpan(TouchLog(log, h, q, k), h, log[h].prod, false, s', c)
    ensures s'.Cut? && Laid(TouchLog(log, h, q, k), Recorded(log, h, q), s'.sub, PassIntr(AfterSpan(h, s, c), h, log[h].prod))
  {
    hide Laid, Bounded;
    var e := log[h].prod;
    OwnBound(n, log, h);
    assert c.w[h := e][h := e] == c.w[h := e];
    assert PassIntr(AfterSpan(h, s, c), h, e) == PassIntr(c, h, e);
  }

  lemma {:induction false} AwayEndsBefore(s: Span, h: nat, e: nat)
    requires AwaySpan(s, h)
    ensures EndBeforeSpan(s, h, e)
    decreases s, 0
  {
    if s.Cut? {
      AwayBracketEndsBefore(s.sub, h, e);
      AwayEndsBefore(s.rest, h, e);
    }
  }

  lemma {:induction false} AwayBracketEndsBefore(b: Bracket, h: nat, e: nat)
    requires Away(b, h)
    ensures EndBefore(b, h, e)
    decreases b, 1
  {
    AwayEndsBefore(b.body, h, e);
  }

  /** A part that is touched, but is not itself the touched bracket, is on another ring. */
  lemma TouchedInside(n: nat, log: seq<LogRing>, h: nat, q: nat, it: LogIntr, b: Bracket, c: Cursor)
    requires Part(n, log, h, q, it, b, c) && !EndBefore(b, h, log[h].prod)
    ensures b.ring == it.ring && b.open == it.open && b.depth == log[b.ring].depth
    ensures forall k: nat :: End(TouchLog(log, h, q, k), it) == End(log, it)
    ensures IsTouched(b, h, log[h].prod) ==> End(log, it) == log[h].prod && EndOf(b.body) == log[h].prod && NoneOpenSpan(b.body, q)
    ensures !IsTouched(b, h, log[h].prod) ==> b.ring != h && !EndBeforeSpan(b.body, h, log[h].prod)
  {
    hide LaidSpan, Bounded;
    SubIs(log, it, b, c);
    EndIs(log, b.ring, End(log, it), b.open, b.body, c);
    if b.ring == h {
      DeeperSpanIsAway(log, h, h, End(log, it), b.open, b.body, c);
      AwayEndsBefore(b.body, h, log[h].prod);
    }
  }

  /** Wherever the touched bracket is in a part: the walk takes the interruption at its end. */
  lemma {:induction false} Taken(n: nat, log: seq<LogRing>, h: nat, q: nat, k: nat, it: LogIntr, b: Bracket, b': Bracket, c: Cursor)
    returns (d: Bracket)
    requires Part(n, log, h, q, it, b, c) && !EndBefore(b, h, log[h].prod) && Laid(TouchLog(log, h, q, k), it, b', c)
    ensures Laid(TouchLog(log, h, q, k), Recorded(log, h, q), d, PassIntr(Where(b, c, h, log[h].prod), h, log[h].prod))
    decreases b, 1
  {
    hide LaidSpan, Bounded, AfterSpan, NoneOpen, AtTail, EndBefore;
    TouchedInside(n, log, h, q, it, b, c);
    if IsTouched(b, h, log[h].prod) {
      d := TakenAtEnd(n, log, h, q, k, b.body, b'.body, c);
    } else {
      PartIs(n, log, h, q, it, b, c);
      d := TakenInSpan(n, log, h, q, k, b.ring, End(log, it), b.open, b.body, b'.body, c);
    }
  }

  lemma {:induction false} TakenInSpan(n: nat, log: seq<LogRing>, h: nat, q: nat, k: nat, r: nat, last: nat, open: bool, s: Span, s': Span, c: Cursor)
    returns (d: Bracket)
    requires PartSpan(n, log, h, q, r, last, open, s, c) && r != h && !EndBeforeSpan(s, h, log[h].prod)
    requires LaidSpan(TouchLog(log, h, q, k), r, last, open, s', c)
    ensures Laid(TouchLog(log, h, q, k), Recorded(log, h, q), d, PassIntr(WhereSpan(r, s, c, h, log[h].prod), h, log[h].prod))
    decreases s, 0
  {
    hide Laid, After, NoneOpen, Bounded, AtTail, EndBefore, Where, Mark;
    var log', e := TouchLog(log, h, q, k), log[h].prod;
    CutMeets(log, r, last, open, s, c);
    PartCut(n, log, h, q, r, last, open, s, c);
    CutMeets(log', r, last, open, s', c);
    var it := log[r].pend[c.p[r]];
    var c1 := PassIntr(c, r, s.at);
    if EndBefore(s.sub, h, e) {
      UntouchedStays(n, log, h, q, k, it, s.sub, c1);
      LaidOnce(log', it, Mark(s.sub, h), s'.sub, c1);
      d := TakenInSpan(n, log, h, q, k, r, last, open, s.rest, s'.rest, After(s.sub, c1));
    } else {
      d := Taken(n, log, h, q, k, it, s.sub, s'.sub, c1);
    }
  }

  // ---- when nothing has come since --------------------------------------------------------------------

  /** The interruption `d` is put where the touched bracket ends. */
  function JoinOn(b: Bracket, h: nat, e: nat, d: Bracket): (b': Bracket)
    ensures b'.ring == b.ring && b'.depth == b.depth && b'.open == b.open && b'.body.from == b.body.from
    decreases b, 1
  {
    b.(body := if IsTouched(b, h, e) then Interrupted(b.body, d) else JoinSpan(b.body, h, e, d))
  }

  function JoinSpan(s: Span, h: nat, e: nat, d: Bracket): (s': Span)
    ensures s'.from == s.from
    decreases s, 0
  {
    match s
    case Done(_, _, _) => s
    case Cut(from, at, sub, rest) =>
      if EndBefore(sub, h, e) then Cut(from, at, Mark(sub, h), JoinSpan(rest, h, e, d)) else Cut(from, at, JoinOn(sub, h, e, d), rest)
  }

  /** No bracket after the touched one is on ring `y`. */
  predicate RestAway(b: Bracket, h: nat, e: nat, y: nat)
    decreases b, 1
  {
    IsTouched(b, h, e) || RestAwaySpan(b.body, h, e, y)
  }

  predicate RestAwaySpan(s: Span, h: nat, e: nat, y: nat)
    decreases s, 0
  {
    s.Cut? ==> if EndBefore(s.sub, h, e) then RestAwaySpan(s.rest, h, e, y) else RestAway(s.sub, h, e, y) && AwaySpan(s.rest, y)
  }

  /** The interruption is on rings deeper than `h`, and no bracket after the touched one is on those. */
  predicate Apart(log: seq<LogRing>, b: Bracket, h: nat, e: nat, d: Bracket)
    requires h < |log|
  {
    forall y | 0 <= y < |log| && !Away(d, y) :: log[h].depth < log[y].depth && RestAway(b, h, e, y)
  }

  predicate ApartSpan(log: seq<LogRing>, s: Span, h: nat, e: nat, d: Bracket)
    requires h < |log|
  {
    forall y | 0 <= y < |log| && !Away(d, y) :: log[h].depth < log[y].depth && RestAwaySpan(s, h, e, y)
  }

  /** Where a walk ends that ended at `a` before, when it comes by the interruption `d`, which ends
      at `a'`. */
  predicate Detour(log: seq<LogRing>, d: Bracket, h: nat, a: Cursor, a': Cursor, end: Cursor)
    requires Fits(log, a) && Fits(log, a') && Fits(log, end) && h < |log|
  {
    a.p[h] == |log[h].pend| &&
    forall y | 0 <= y < |log| ::
      if Away(d, y) then end.w[y] == a.w[y] && end.p[y] == a.p[y] + (if y == h then 1 else 0) else Level(end, a', y)
  }

  lemma {:induction false} JoinedAtEnd(n: nat, log: seq<LogRing>, h: nat, q: nat, k: nat, s: Span, c: Cursor, d: Bracket)
    requires Fits(log, c) && h < |log| && q < |log| && Under(log, h, q) && LaidSpan(log, h, log[h].prod, false, s, c) && NoneOpenSpan(s, q)
    requires Bounded(n, log) && Ahead(log, c) && Within(log, c)
    requires Laid(TouchLog(log, h, q, k), Recorded(log, h, q), d, PassIntr(AfterSpan(h, s, c), h, log[h].prod))
    ensures LaidSpan(TouchLog(log, h, q, k), h, log[h].prod, false, Interrupted(s, d), c)
    ensures FlattenSpan(h, log[h].depth, Interrupted(s, d)) == FlattenSpan(h, log[h].depth, s) + Flatten(d)
    ensures AfterSpan(h, Interrupted(s, d), c) == After(d, PassIntr(AfterSpan(h, s, c), h, log[h].prod))
    ensures AfterSpan(h, s, c).p[h] == |log[h].pend| && AfterSpan(h, s, c).w[h] == log[h].prod
    decreases s
  {
    hide Laid, After, NoneOpen, Flatten, Bounded;
    var log', e := TouchLog(log, h, q, k), log[h].prod;
    OwnBound(n, log, h);
    if s.Cut? {
      CutMeets(log, h, e, false, s, c);
      var it := log[h].pend[c.p[h]];
      var c1 := PassIntr(c, h, s.at);
      DeepStays(log, h, q, k, it, s.sub, c1);
      StaysWithin(log, it, s.sub, c1);
      JoinedAtEnd(n, log, h, q, k, s.rest, After(s.sub, c1), d);
      var lead, sub, rest := Run(h, log[h].depth, s.from, s.at), Flatten(s.sub), FlattenSpan(h, log[h].depth, s.rest);
      Associate(lead + sub, rest, Flatten(d));
    } else {
      var c1 := PassIntr(c, h, e);
      assert c.w[h := e][h := e] == c.w[h := e];
      assert PassIntr(AfterSpan(h, s, c), h, e) == c1;
      assert Under(log', h, q);
      AfterMoves(log', Recorded(log, h, q), d, c1);
      BelowIsBelow(log', h, q);
      assert !Below(log', q, h);
      StayPut(After(d, c1), h, e);
      assert Run(h, log[h].depth, s.from, e) + Flatten(d) + [] == Run(h, log[h].depth, s.from, e) + Flatten(d);
    }
  }

  lemma {:induction false} TouchIsDeep(log: seq<LogRing>, h: nat, r: nat, last: nat, open: bool, s: Span, c: Cursor)
    requires Fits(log, c) && r < |log| && h < |log| && LaidSpan(log, r, last, open, s, c) && !EndBeforeSpan(s, h, log[h].prod)
    ensures Under(log, r, h)
    decreases s, 0
  {
    hide Laid, After, EndBefore;
    CutMeets(log, r, last, open, s, c);
    var it := log[r].pend[c.p[r]];
    var c1 := PassIntr(c, r, s.at);
    if EndBefore(s.sub, h, log[h].prod) {
      TouchIsDeep(log, h, r, last, open, s.rest, After(s.sub, c1));
    } else {
      TouchIsDeepIn(log, h, it, s.sub, c1);
      BelowIsBelow(log, r, it.ring);
    }
  }

  lemma {:induction false} TouchIsDeepIn(log: seq<LogRing>, h: nat, it: LogIntr, b: Bracket, c: Cursor)
    requires Fits(log, c) && it.ring < |log| && h < |log| && Laid(log, it, b, c) && !EndBefore(b, h, log[h].prod)
    ensures Below(log, it.ring, h)
    decreases b, 1
  {
    if b.ring != h { TouchIsDeep(log, h, b.ring, End(log, it), b.open, b.body, c); }
  }

  lemma {:induction false} JoinIsLaid(n: nat, log: seq<LogRing>, h: nat, q: nat, k: nat, it: LogIntr, b: Bracket, c: Cursor, d: Bracket)
    requires Part(n, log, h, q, it, b, c) && !EndBefore(b, h, log[h].prod) && Apart(log, b, h, log[h].prod, d) && d.ring == q
    requires Laid(TouchLog(log, h, q, k), Recorded(log, h, q), d, PassIntr(Where(b, c, h, log[h].prod), h, log[h].prod))
    ensures Laid(TouchLog(log, h, q, k), it, JoinOn(b, h, log[h].prod, d), c)
    ensures Flatten(JoinOn(b, h, log[h].prod, d)) == UpTo(b, h, log[h].prod) + Flatten(d) + Since(b, h, log[h].prod)
    ensures Detour(log, d, h, After(b, c), After(d, PassIntr(Where(b, c, h, log[h].prod), h, log[h].prod)), After(JoinOn(b, h, log[h].prod, d), c))
    decreases b, 1
  {
    hide LaidSpan, Bounded, AfterSpan, FlattenSpan, NoneOpen, AtTail, EndBefore, Interrupted;
    var e := log[h].prod;
    TouchedInside(n, log, h, q, it, b, c);
    if IsTouched(b, h, e) {
      JoinedAtEnd(n, log, h, q, k, b.body, c, d);
      AroundIt(log, h, d, After(b, c));
      assert Flatten(b) + Flatten(d) + [] == Flatten(b) + Flatten(d);
    } else {
      PartIs(n, log, h, q, it, b, c);
      JoinSpanIsLaid(n, log, h, q, k, b.ring, End(log, it), b.open, b.body, c, d);
    }
  }

  lemma AroundIt(log: seq<LogRing>, h: nat, d: Bracket, a: Cursor)
    requires Fits(log, a) && h < |log| && a.p[h] == |log[h].pend|
    ensures var cut := PassIntr(a, h, a.w[h]); Detour(log, d, h, a, After(d, cut), After(d, cut))
  {
    hide After, Away;
    var cut := PassIntr(a, h, a.w[h]);
    forall y | 0 <= y < |log| && Away(d, y)
      ensures After(d, cut).w[y] == a.w[y] && After(d, cut).p[y] == a.p[y] + (if y == h then 1 else 0)
    {
      AwayStill(d, cut, y);
    }
  }

  lemma {:induction false} JoinSpanIsLaid(n: nat, log: seq<LogRing>, h: nat, q: nat, k: nat, r: nat, last: nat, open: bool, s: Span, c: Cursor, d: Bracket)
    requires PartSpan(n, log, h, q, r, last, open, s, c) && r != h && !EndBeforeSpan(s, h, log[h].prod)
    requires ApartSpan(log, s, h, log[h].prod, d) && d.ring == q
    requires Laid(TouchLog(log, h, q, k), Recorded(log, h, q), d, PassIntr(WhereSpan(r, s, c, h, log[h].prod), h, log[h].prod))
    ensures LaidSpan(TouchLog(log, h, q, k), r, last, open, JoinSpan(s, h, log[h].prod, d), c)
    ensures FlattenSpan(r, log[r].depth, JoinSpan(s, h, log[h].prod, d)) ==
            UpToSpan(r, log[r].depth, s, h, log[h].prod) + Flatten(d) + SinceSpan(r, log[r].depth, s, h, log[h].prod)
    ensures Detour(log, d, h, AfterSpan(r, s, c), After(d, PassIntr(WhereSpan(r, s, c, h, log[h].prod), h, log[h].prod)),
                   AfterSpan(r, JoinSpan(s, h, log[h].prod, d), c))
    decreases s, 0
  {
    hide Laid, After, NoneOpen, Flatten, Bounded, AtTail, EndBefore, UpTo, Since, Where, Mark, Away, RestAway, Detour;
    var log', e := TouchLog(log, h, q, k), log[h].prod;
    CutMeets(log, r, last, open, s, c);
    PartCut(n, log, h, q, r, last, open, s, c);
    TouchIsDeep(log, h, r, last, open, s, c);
    var it := log[r].pend[c.p[r]];
    var c1 := PassIntr(c, r, s.at);
    var lead := Run(r, log[r].depth, s.from, s.at);
    if EndBefore(s.sub, h, e) {
      UntouchedStays(n, log, h, q, k, it, s.sub, c1);
      JoinSpanIsLaid(n, log, h, q, k, r, last, open, s.rest, After(s.sub, c1), d);
      AssociateFour(lead + Flatten(s.sub), UpToSpan(r, log[r].depth, s.rest, h, e), Flatten(d), SinceSpan(r, log[r].depth, s.rest, h, e));
    } else {
      JoinIsLaid(n, log, h, q, k, it, s.sub, c1, d);
      var c2, c2' := After(s.sub, c1), After(JoinOn(s.sub, h, e, d), c1);
      var a := After(d, PassIntr(Where(s.sub, c1, h, e), h, e));
      forall y | 0 <= y < |log| && !Away(d, y)
        ensures y != r && AwaySpan(s.rest, y)
      {
        assert RestAwaySpan(s, h, e, y);
      }
      SpanDetours(log, h, q, k, r, last, open, s.rest, c2, a, c2', d);
      AssociateFour(lead, UpTo(s.sub, h, e), Flatten(d), Since(s.sub, h, e));
      Associate(lead + UpTo(s.sub, h, e) + Flatten(d), Since(s.sub, h, e), FlattenSpan(r, log[r].depth, s.rest));
    }
  }

  /** A bracket that comes after the detour finds its ring as it found it before. */
  lemma DetourIsSame(log: seq<LogRing>, h: nat, q: nat, k: nat, c: Cursor, a: Cursor, c': Cursor, d: Bracket, y: nat)
    requires Fits(log, c) && Fits(log, a) && Fits(log, c') && h < |log| && q < |log| && h != q && d.ring == q
    requires Detour(log, d, h, c, a, c') && Within(log, c) && y < |log| && Away(d, y)
    ensures SameOn(log, TouchLog(log, h, q, k), c, c', y)
  {
    var log' := TouchLog(log, h, q, k);
    assert y != q;
    if y == h {
      assert log'[y].pend[|log'[y].pend|..] == [] == log[y].pend[|log[y].pend|..];
    } else {
      assert log'[y] == log[y];
    }
  }

  /** And the walk goes on from there as before. */
  lemma DetourGoesOn(log: seq<LogRing>, h: nat, q: nat, k: nat, c: Cursor, a: Cursor, c': Cursor, d: Bracket, b: Cursor, b': Cursor)
    requires Fits(log, c) && Fits(log, a) && Fits(log, c') && Fits(log, b) && Fits(log, b') && h < |log| && q < |log|
    requires Detour(log, d, h, c, a, c') && Within(log, b) && c.p[h] <= b.p[h]
    requires forall y | 0 <= y < |log| :: (Level(b, c, y) && Level(b', c', y)) || (Away(d, y) && SameOn(log, TouchLog(log, h, q, k), b, b', y))
    ensures Detour(log, d, h, b, a, b')
  {
    hide Away;
    var log' := TouchLog(log, h, q, k);
    forall y | 0 <= y < |log|
      ensures if Away(d, y) then b'.w[y] == b.w[y] && b'.p[y] == b.p[y] + (if y == h then 1 else 0) else Level(b', a, y)
    {
      if !(Level(b, c, y) && Level(b', c', y)) {
        assert |log[y].pend[b.p[y]..]| == |log'[y].pend[b'.p[y]..]|;
      }
    }
  }

  lemma SpanDetours(log: seq<LogRing>, h: nat, q: nat, k: nat, r: nat, last: nat, open: bool, s: Span, c: Cursor, a: Cursor, c': Cursor, d: Bracket)
    requires Fits(log, c) && Fits(log, a) && Fits(log, c') && h < |log| && q < |log| && r < |log| && h != q && d.ring == q
    requires Detour(log, d, h, c, a, c') && Within(log, c) && LaidSpan(log, r, last, open, s, c)
    requires forall y | 0 <= y < |log| && !Away(d, y) :: y != r && AwaySpan(s, y)
    ensures LaidSpan(TouchLog(log, h, q, k), r, last, open, s, c') && Detour(log, d, h, AfterSpan(r, s, c), a, AfterSpan(r, s, c'))
  {
    hide LaidSpan, AfterSpan, Away, AwaySpan, Detour, SameOn;
    var log' := TouchLog(log, h, q, k);
    forall y | 0 <= y < |log| && (y == r || !AwaySpan(s, y))
      ensures Away(d, y) && SameOn(log, log', c, c', y)
    {
      DetourIsSame(log, h, q, k, c, a, c', d, y);
    }
    VisitSpanFrame(log, log', r, last, open, s, c, c');
    SpanStaysWithin(log, r, last, open, s, c);
    AfterSpanMoves(log, r, last, open, s, c);
    forall y | 0 <= y < |log| && y != r && AwaySpan(s, y)
      ensures Level(AfterSpan(r, s, c), c, y) && Level(AfterSpan(r, s, c'), c', y)
    {
      AwaySpanStill(r, s, c, y);
      AwaySpanStill(r, s, c', y);
    }
    DetourGoesOn(log, h, q, k, c, a, c', d, AfterSpan(r, s, c), AfterSpan(r, s, c'));
  }

  lemma BracketDetours(log: seq<LogRing>, h: nat, q: nat, k: nat, it: LogIntr, b: Bracket, c: Cursor, a: Cursor, c': Cursor, d: Bracket)
    requires Fits(log, c) && Fits(log, a) && Fits(log, c') && h < |log| && q < |log| && it.ring < |log| && h != q && d.ring == q
    requires Detour(log, d, h, c, a, c') && Within(log, c) && Laid(log, it, b, c)
    requires forall y | 0 <= y < |log| && !Away(d, y) :: Away(b, y)
    ensures Laid(TouchLog(log, h, q, k), it, b, c') && Detour(log, d, h, After(b, c), a, After(b, c'))
  {
    hide Laid, After, Away, Detour, SameOn;
    var log' := TouchLog(log, h, q, k);
    forall y | 0 <= y < |log| && !Away(b, y)
      ensures Away(d, y) && SameOn(log, log', c, c', y)
    {
      DetourIsSame(log, h, q, k, c, a, c', d, y);
    }
    VisitFrame(log, log', it, b, c, c');
    StaysWithin(log, it, b, c);
    AfterMoves(log, it, b, c);
    forall y | 0 <= y < |log| && Away(b, y)
      ensures Level(After(b, c), c, y) && Level(After(b, c'), c', y)
    {
      AwayStill(b, c, y);
      AwayStill(b, c', y);
    }
    DetourGoesOn(log, h, q, k, c, a, c', d, After(b, c), After(b, c'));
  }

  // ---- a tree and what hangs, as one sequence of parts ------------------------------------------------

  /** The parts are laid one after the other. */
  predicate LaidAll(log: seq<LogRing>, ps: seq<Bracket>, c: Cursor)
    requires Fits(log, c)
  {
    ps != [] ==>
      LaidAll(log, Others(ps), c) && Last(ps).ring < |log| && Laid(log, HungIntr(Last(ps)), Last(ps), AfterHung(Others(ps), c))
  }

  /** Only the last part may have a bracket on ring `h` that has not finished. */
  ghost predicate AllParts(n: nat, log: seq<LogRing>, h: nat, q: nat, ps: seq<Bracket>, c: Cursor)
  {
    Fits(log, c) &&
    (ps != [] ==>
       AllParts(n, log, h, q, Others(ps), c) && NoneOpenHung(Others(ps), h) &&
       Part(n, log, h, q, HungIntr(Last(ps)), Last(ps), AfterHung(Others(ps), c)))
  }

  function UpToAll(ps: seq<Bracket>, h: nat, e: nat): seq<Slot>
  {
    if ps == [] then []
    else if EndBeforeHung(Others(ps), h, e) then FlattenHung(Others(ps)) + UpTo(Last(ps), h, e)
    else UpToAll(Others(ps), h, e)
  }

  function SinceAll(ps: seq<Bracket>, h: nat, e: nat): seq<Slot>
  {
    if ps == [] then []
    else if EndBeforeHung(Others(ps), h, e) then Since(Last(ps), h, e)
    else SinceAll(Others(ps), h, e) + Flatten(Last(ps))
  }

  function WhereAll(ps: seq<Bracket>, c: Cursor, h: nat, e: nat): (c': Cursor)
    ensures |c'.w| == |c.w| && |c'.p| == |c.p|
  {
    if ps == [] then c
    else if EndBeforeHung(Others(ps), h, e) then Where(Last(ps), AfterHung(Others(ps), c), h, e)
    else WhereAll(Others(ps), c, h, e)
  }

  lemma {:induction false} SplitAllThere(ps: seq<Bracket>, h: nat, e: nat)
    ensures FlattenHung(ps) == UpToAll(ps, h, e) + SinceAll(ps, h, e)
    ensures EndBeforeHung(ps, h, e) ==> SinceAll(ps, h, e) == []
    decreases |ps|
  {
    hide Flatten, UpTo, Since, EndBefore;
    if ps != [] {
      SplitAllThere(Others(ps), h, e);
      SplitThere(Last(ps), h, e);
      if EndBefore(Last(ps), h, e) { NoneTouched(Last(ps), h, e); }
      Associate(FlattenHung(Others(ps)), UpTo(Last(ps), h, e), Since(Last(ps), h, e));
      Associate(UpToAll(Others(ps), h, e), SinceAll(Others(ps), h, e), Flatten(Last(ps)));
    }
  }

  predicate SameRoots(ps: seq<Bracket>, ps': seq<Bracket>)
  {
    |ps'| == |ps| && forall i | 0 <= i < |ps| :: ps'[i].ring == ps[i].ring
  }

  lemma {:induction false} LaidAllOnce(log: seq<LogRing>, ps: seq<Bracket>, ps': seq<Bracket>, c: Cursor)
    requires Fits(log, c) && LaidAll(log, ps, c) && LaidAll(log, ps', c) && SameRoots(ps, ps')
    ensures ps == ps'
    decreases |ps|
  {
    hide Laid, After;
    if ps != [] {
      LaidAllOnce(log, Others(ps), Others(ps'), c);
      var c1 := AfterHung(Others(ps), c);
      SubIs(log, HungIntr(Last(ps)), Last(ps), c1);
      SubIs(log, HungIntr(Last(ps')), Last(ps'), c1);
      LaidOnce(log, HungIntr(Last(ps)), Last(ps), Last(ps'), c1);
      assert ps == Others(ps) + [Last(ps)] && ps' == Others(ps') + [Last(ps')];
    }
  }

  lemma {:induction false} UntouchedAllStay(n: nat, log: seq<LogRing>, h: nat, q: nat, k: nat, ps: seq<Bracket>, c: Cursor)
    requires AllParts(n, log, h, q, ps, c) && NoneOpenHung(ps, h) && h < |log| && q < |log| && EndBeforeHung(ps, h, log[h].prod)
    ensures LaidAll(TouchLog(log, h, q, k), MarkHung(ps, h), c) && AfterHung(MarkHung(ps, h), c) == AfterHung(ps, c)
    ensures FlattenHung(MarkHung(ps, h)) == FlattenHung(ps) && SameRoots(ps, MarkHung(ps, h))
    decreases |ps|
  {
    hide Laid, After, Part, Mark, NoneOpen, EndBefore, Flatten;
    if ps != [] {
      var b, c1 := Last(ps), AfterHung(Others(ps), c);
      UntouchedAllStay(n, log, h, q, k, Others(ps), c);
      UntouchedStays(n, log, h, q, k, HungIntr(b), b, c1);
      PartRing(n, log, h, q, HungIntr(b), b, c1);
      Pushed(MarkHung(Others(ps), h), Mark(b, h), c);
    }
  }

  lemma PartRing(n: nat, log: seq<LogRing>, h: nat, q: nat, it: LogIntr, b: Bracket, c: Cursor)
    requires Part(n, log, h, q, it, b, c)
    ensures it.ring < |log| && b.ring == it.ring && h < |log| && q < |log| && h != q && Fits(log, c) && Laid(log, it, b, c)
    ensures Within(log, c) && Within(log, After(b, c)) && Ahead(log, c) && MovedBelow(log, b.ring, c, After(b, c))
  {
    hide LaidSpan, After, Bounded;
    AfterMoves(log, it, b, c);
    StaysWithin(log, it, b, c);
  }

  /** `Taken`, for all parts. */
  lemma {:induction false} TakenInAll(n: nat, log: seq<LogRing>, h: nat, q: nat, k: nat, ps: seq<Bracket>, ps': seq<Bracket>, c: Cursor)
    returns (d: Bracket)
    requires AllParts(n, log, h, q, ps, c) && h < |log| && q < |log| && !EndBeforeHung(ps, h, log[h].prod)
    requires LaidAll(TouchLog(log, h, q, k), ps', c) && SameRoots(ps, ps')
    ensures Laid(TouchLog(log, h, q, k), Recorded(log, h, q), d, PassIntr(WhereAll(ps, c, h, log[h].prod), h, log[h].prod))
    decreases |ps|
  {
    hide Laid, After, Part, Mark, NoneOpen, EndBefore, Where;
    var log', e := TouchLog(log, h, q, k), log[h].prod;
    var b, c1, b', c1' := Last(ps), AfterHung(Others(ps), c), Last(ps'), AfterHung(Others(ps'), c);
    if EndBeforeHung(Others(ps), h, e) {
      PartRing(n, log, h, q, HungIntr(b), b, c1);
      SubIs(log', HungIntr(b'), b', c1');
      UntouchedAllStay(n, log, h, q, k, Others(ps), c);
      LaidAllOnce(log', MarkHung(Others(ps), h), Others(ps'), c);
      SubIs(log, HungIntr(b), b, c1);
      d := Taken(n, log, h, q, k, HungIntr(b), b, b', c1);
    } else {
      d := TakenInAll(n, log, h, q, k, Others(ps), Others(ps'), c);
    }
  }

  function JoinAll(ps: seq<Bracket>, h: nat, e: nat, d: Bracket): (ps': seq<Bracket>)
    ensures SameRoots(ps, ps')
  {
    if ps == [] then []
    else if EndBeforeHung(Others(ps), h, e) then MarkedAll(Others(ps), h) + [JoinOn(Last(ps), h, e, d)]
    else JoinAll(Others(ps), h, e, d) + [Last(ps)]
  }

  function MarkedAll(ps: seq<Bracket>, h: nat): (ps': seq<Bracket>)
    ensures SameRoots(ps, ps') && ps' == MarkHung(ps, h)
  {
    if ps == [] then [] else MarkedAll(Others(ps), h) + [Mark(Last(ps), h)]
  }

  predicate RestAwayAll(ps: seq<Bracket>, h: nat, e: nat, y: nat)
  {
    ps != [] ==>
      if EndBeforeHung(Others(ps), h, e) then RestAway(Last(ps), h, e, y) else RestAwayAll(Others(ps), h, e, y) && Away(Last(ps), y)
  }

  predicate ApartAll(log: seq<LogRing>, ps: seq<Bracket>, h: nat, e: nat, d: Bracket)
    requires h < |log|
  {
    forall y | 0 <= y < |log| && !Away(d, y) :: log[h].depth < log[y].depth && RestAwayAll(ps, h, e, y)
  }

  lemma {:induction false} JoinAllIsLaid(n: nat, log: seq<LogRing>, h: nat, q: nat, k: nat, ps: seq<Bracket>, c: Cursor, d: Bracket)
    requires AllParts(n, log, h, q, ps, c) && h < |log| && q < |log| && !EndBeforeHung(ps, h, log[h].prod)
    requires ApartAll(log, ps, h, log[h].prod, d) && d.ring == q
    requires Laid(TouchLog(log, h, q, k), Recorded(log, h, q), d, PassIntr(WhereAll(ps, c, h, log[h].prod), h, log[h].prod))
    ensures LaidAll(TouchLog(log, h, q, k), JoinAll(ps, h, log[h].prod, d), c)
    ensures FlattenHung(JoinAll(ps, h, log[h].prod, d)) == UpToAll(ps, h, log[h].prod) + Flatten(d) + SinceAll(ps, h, log[h].prod)
    ensures Detour(log, d, h, AfterHung(ps, c), After(d, PassIntr(WhereAll(ps, c, h, log[h].prod), h, log[h].prod)),
                   AfterHung(JoinAll(ps, h, log[h].prod, d), c))
    decreases |ps|
  {
    hide Laid, After, Part, Mark, NoneOpen, EndBefore, Flatten, UpTo, Since, Where, Away, RestAway, Detour;
    var log', e := TouchLog(log, h, q, k), log[h].prod;
    var b, c1 := Last(ps), AfterHung(Others(ps), c);
    PartRing(n, log, h, q, HungIntr(b), b, c1);
    if EndBeforeHung(Others(ps), h, e) {
      UntouchedAllStay(n, log, h, q, k, Others(ps), c);
      JoinIsLaid(n, log, h, q, k, HungIntr(b), b, c1, d);
      Pushed(MarkedAll(Others(ps), h), JoinOn(b, h, e, d), c);
      AssociateFour(FlattenHung(Others(ps)), UpTo(b, h, e), Flatten(d), Since(b, h, e));
    } else {
      JoinAllIsLaid(n, log, h, q, k, Others(ps), c, d);
      var ps1 := JoinAll(Others(ps), h, e, d);
      var a := After(d, PassIntr(WhereAll(Others(ps), c, h, e), h, e));
      BracketDetours(log, h, q, k, HungIntr(b), b, c1, a, AfterHung(ps1, c), d);
      Pushed(ps1, b, c);
      Associate(UpToAll(Others(ps), h, e) + Flatten(d), SinceAll(Others(ps), h, e), Flatten(b));
    }
  }

  // ---- what lies between when nothing is logged between -------------------------------------------------

  lemma {:induction false} FinishedHasWords(ring: nat, depth: nat, s: Span)
    requires FreshSpan(false, s)
    ensures FlattenSpan(ring, depth, s) != []
    decreases s
  {
    hide Flatten, Fresh;
    if s.Cut? { FinishedHasWords(ring, depth, s.rest); }
  }

  /** A fresh bracket without words is, and holds, brackets that have not finished and nothing else. */
  lemma {:induction false} WordlessIsAway(b: Bracket, y: nat)
    requires Fresh(b) && Flatten(b) == [] && NoneOpen(b, y)
    ensures Away(b, y)
    decreases b, 1
  {
    if !b.open { FinishedHasWords(b.ring, b.depth, b.body); }
    WordlessSpanIsAway(b.open, b.ring, b.depth, b.body, y);
  }

  lemma {:induction false} WordlessSpanIsAway(open: bool, ring: nat, depth: nat, s: Span, y: nat)
    requires FreshSpan(open, s) && FlattenSpan(ring, depth, s) == [] && NoneOpenSpan(s, y)
    ensures AwaySpan(s, y)
    decreases s, 0
  {
    hide Flatten, Fresh, NoneOpen;
    if s.Cut? {
      WordlessIsAway(s.sub, y);
      WordlessSpanIsAway(open, ring, depth, s.rest, y);
    }
  }

  lemma {:induction false} NoneSinceIsAway(b: Bracket, h: nat, e: nat, y: nat)
    requires Leading(b) && NoneOpen(b, y) && !EndBefore(b, h, e) && Since(b, h, e) == []
    ensures RestAway(b, h, e, y)
    decreases b, 1
  {
    if !IsTouched(b, h, e) { NoneSinceSpanIsAway(b.open, b.ring, b.depth, b.body, h, e, y); }
  }

  lemma {:induction false} NoneSinceSpanIsAway(open: bool, ring: nat, depth: nat, s: Span, h: nat, e: nat, y: nat)
    requires LeadingSpan(open, s) && NoneOpenSpan(s, y) && SinceSpan(ring, depth, s, h, e) == []
    ensures RestAwaySpan(s, h, e, y)
    decreases s, 0
  {
    hide Flatten, Fresh, NoneOpen, Leading, EndBefore, Since;
    if s.Cut? {
      SubLeads(open, s);
      FreshSpanIsLeading(open, s.rest);
      if EndBefore(s.sub, h, e) {
        NoneSinceSpanIsAway(open, ring, depth, s.rest, h, e, y);
      } else {
        NoneSinceIsAway(s.sub, h, e, y);
        WordlessSpanIsAway(open, ring, depth, s.rest, y);
      }
    }
  }

  /** The first part is the tree. */
  predicate AllLead(ps: seq<Bracket>)
  {
    ps != [] ==> AllLead(Others(ps)) && Leading(Last(ps)) && (Others(ps) != [] ==> Fresh(Last(ps)))
  }

  lemma {:induction false} NoneSinceInAll(ps: seq<Bracket>, h: nat, e: nat, y: nat)
    requires AllLead(ps) && NoneOpenHung(ps, y) && !EndBeforeHung(ps, h, e) && SinceAll(ps, h, e) == []
    ensures RestAwayAll(ps, h, e, y)
    decreases |ps|
  {
    hide Flatten, Fresh, NoneOpen, Leading, EndBefore, Since, RestAway;
    if EndBeforeHung(Others(ps), h, e) {
      NoneSinceIsAway(Last(ps), h, e, y);
    } else {
      NoneSinceInAll(Others(ps), h, e, y);
      WordlessIsAway(Last(ps), y);
    }
  }

  // ---- the walk from the touched bracket to the end -------------------------------------------------

  lemma {:induction false} WhereIsBefore(log: seq<LogRing>, it: LogIntr, b: Bracket, c: Cursor, h: nat, e: nat, y: nat)
    requires Fits(log, c) && it.ring < |log| && Laid(log, it, b, c) && y < |log|
    ensures c.p[y] <= Where(b, c, h, e).p[y] <= After(b, c).p[y] && c.w[y] <= Where(b, c, h, e).w[y] <= After(b, c).w[y]
    ensures h < |log| && log[h].depth < log[y].depth && !EndBefore(b, h, e) && e == log[h].prod && RestAway(b, h, e, y) ==> Level(Where(b, c, h, e), After(b, c), y)
    decreases b, 1
  {
    AfterMoves(log, it, b, c);
    if !IsTouched(b, h, e) { WhereInSpanIsBefore(log, b.ring, End(log, it), b.open, b.body, c, h, e, y); }
    if h < |log| && !EndBefore(b, h, e) && e == log[h].prod { TouchIsDeepIn(log, h, it, b, c); }
    if b.ring == h {
      DeeperSpanIsAway(log, h, h, End(log, it), b.open, b.body, c);
      AwayEndsBefore(b.body, h, e);
    }
  }

  lemma {:induction false} WhereInSpanIsBefore(log: seq<LogRing>, r: nat, last: nat, open: bool, s: Span, c: Cursor, h: nat, e: nat, y: nat)
    requires Fits(log, c) && r < |log| && LaidSpan(log, r, last, open, s, c) && y < |log|
    ensures c.p[y] <= WhereSpan(r, s, c, h, e).p[y] <= AfterSpan(r, s, c).p[y] && c.w[y] <= WhereSpan(r, s, c, h, e).w[y] <= AfterSpan(r, s, c).w[y]
    ensures r != y && h < |log| && log[h].depth < log[y].depth && !EndBeforeSpan(s, h, e) && e == log[h].prod && RestAwaySpan(s, h, e, y) ==>
              Level(WhereSpan(r, s, c, h, e), AfterSpan(r, s, c), y)
    decreases s, 0
  {
    hide Laid, After, EndBefore, Where, RestAway, Away;
    if s.Cut? {
      CutMeets(log, r, last, open, s, c);
      var it := log[r].pend[c.p[r]];
      var c1 := PassIntr(c, r, s.at);
      var c2 := After(s.sub, c1);
      if EndBefore(s.sub, h, e) {
        WhereInSpanIsBefore(log, r, last, open, s.rest, c2, h, e, y);
      } else {
        WhereIsBefore(log, it, s.sub, c1, h, e, y);
        if r != y && AwaySpan(s.rest, y) { AwaySpanStill(r, s.rest, c2, y); }
      }
    }
  }

  lemma {:induction false} WhereAllIsBefore(log: seq<LogRing>, ps: seq<Bracket>, c: Cursor, h: nat, y: nat)
    requires Fits(log, c) && h < |log| && y < |log| && LaidAll(log, ps, c)
    ensures c.p[y] <= WhereAll(ps, c, h, log[h].prod).p[y] <= AfterHung(ps, c).p[y] && c.w[y] <= WhereAll(ps, c, h, log[h].prod).w[y] <= AfterHung(ps, c).w[y]
    ensures log[h].depth < log[y].depth && !EndBeforeHung(ps, h, log[h].prod) && RestAwayAll(ps, h, log[h].prod, y) ==>
              Level(WhereAll(ps, c, h, log[h].prod), AfterHung(ps, c), y)
    decreases |ps|
  {
    hide Laid, After, EndBefore, Where, RestAway, Away;
    if ps != [] {
      var b, c1 := Last(ps), AfterHung(Others(ps), c);
      WhereAllIsBefore(log, Others(ps), c, h, y);
      WhereIsBefore(log, HungIntr(b), b, c1, h, log[h].prod, y);
      AfterMoves(log, HungIntr(b), b, c1);
      if Away(b, y) { AwayStill(b, c1, y); }
      if EndBeforeHung(Others(ps), h, log[h].prod) { AllMove(log, Others(ps), c); }
    }
  }

  lemma {:induction false} AllMove(log: seq<LogRing>, ps: seq<Bracket>, c: Cursor)
    requires Fits(log, c) && LaidAll(log, ps, c)
    ensures forall x | 0 <= x < |log| :: c.p[x] <= AfterHung(ps, c).p[x] && c.w[x] <= AfterHung(ps, c).w[x]
    decreases |ps|
  {
    hide Laid, After;
    if ps != [] {
      AllMove(log, Others(ps), c);
      AfterMoves(log, HungIntr(Last(ps)), Last(ps), AfterHung(Others(ps), c));
    }
  }

  lemma {:induction false} AllPass(log: seq<LogRing>, y: nat, k: nat, ps: seq<Bracket>, c: Cursor)
    requires Fits(log, c) && y < |log| && LaidAll(log, ps, c) && AllLead(ps) && NoneOpenHung(ps, y) && PassedOn(log, y, k, c)
    ensures PassedOn(log, y, k, AfterHung(ps, c))
    decreases |ps|
  {
    hide Laid, After, Leading, Fresh, NoneOpen, PassedOn;
    if ps != [] {
      AllPass(log, y, k, Others(ps), c);
      LeadingPasses(log, y, k, HungIntr(Last(ps)), Last(ps), AfterHung(Others(ps), c));
    }
  }

  // ---- who is on a ring ----------------------------------------------------------------------------

  lemma {:induction false} OpenReaches(log: seq<LogRing>, it: LogIntr, b: Bracket, c: Cursor, y: nat)
    requires Fits(log, c) && it.ring < |log| && Laid(log, it, b, c)
    ensures !NoneOpen(b, y) ==> y < |log| && log[y].prod <= After(b, c).w[y]
    ensures y < |log| && c.w[y] <= log[y].prod ==> After(b, c).w[y] <= log[y].prod
    decreases b, 1
  {
    AfterMoves(log, it, b, c);
    OpenInSpanReaches(log, b.ring, End(log, it), b.open, b.body, c, y);
  }

  lemma {:induction false} OpenInSpanReaches(log: seq<LogRing>, r: nat, last: nat, open: bool, s: Span, c: Cursor, y: nat)
    requires Fits(log, c) && r < |log| && LaidSpan(log, r, last, open, s, c) && last <= log[r].prod
    ensures !NoneOpenSpan(s, y) ==> y < |log| && log[y].prod <= AfterSpan(r, s, c).w[y]
    ensures y < |log| && c.w[y] <= log[y].prod ==> AfterSpan(r, s, c).w[y] <= log[y].prod
    decreases s, 0
  {
    hide Laid, After, NoneOpen;
    if s.Cut? {
      CutMeets(log, r, last, open, s, c);
      var it := log[r].pend[c.p[r]];
      var c1 := PassIntr(c, r, s.at);
      OpenReaches(log, it, s.sub, c1, y);
      OpenInSpanReaches(log, r, last, open, s.rest, After(s.sub, c1), y);
    }
  }

  lemma {:induction false} OpenInAllReaches(log: seq<LogRing>, ps: seq<Bracket>, c: Cursor, y: nat)
    requires Fits(log, c) && LaidAll(log, ps, c)
    ensures !NoneOpenHung(ps, y) ==> y < |log| && log[y].prod <= AfterHung(ps, c).w[y]
    ensures y < |log| && c.w[y] <= log[y].prod ==> AfterHung(ps, c).w[y] <= log[y].prod
    decreases |ps|
  {
    hide Laid, After, NoneOpen;
    if ps != [] {
      var b, c1 := Last(ps), AfterHung(Others(ps), c);
      OpenInAllReaches(log, Others(ps), c, y);
      OpenReaches(log, HungIntr(b), b, c1, y);
      AfterMoves(log, HungIntr(b), b, c1);
    }
  }

  /** The walk has met the interruption of whoever is on a ring, unless it is a part's own. */
  lemma {:induction false} OpenIsMet(log: seq<LogRing>, ps: seq<Bracket>, c: Cursor, y: nat) returns (x: nat, j: nat)
    requires Fits(log, c) && LaidAll(log, ps, c) && !NoneOpenHung(ps, y) && forall i | 0 <= i < |ps| :: ps[i].ring != y
    ensures Met(log, c, AfterHung(ps, c), x, j) && log[x].pend[j].open && log[x].pend[j].ring == y
    decreases |ps|
  {
    hide Laid, After, NoneOpen;
    var b, c1 := Last(ps), AfterHung(Others(ps), c);
    AllMove(log, Others(ps), c);
    AfterMoves(log, HungIntr(b), b, c1);
    if !NoneOpenHung(Others(ps), y) {
      x, j := OpenIsMet(log, Others(ps), c, y);
    } else {
      if NoneMet(log, c1, After(b, c1), y) {
        NoneOpenOnWay(log, y, HungIntr(b), b, c1);
        assert ps[|ps| - 1].ring != y;
        NoneOpenToo(b, y);
      }
      x, j :| Met(log, c1, After(b, c1), x, j) && log[x].pend[j].open && log[x].pend[j].ring == y;
    }
  }

  /** Nobody shares a ring: an unfinished interruption is the only one by its ring, and handlers that hang
      have rings of their own. */
  predicate OneEach(log: seq<LogRing>, g: Grove)
  {
    (forall x, j | 0 <= x < |log| && log[x].pcons <= j < |log[x].pend| && log[x].pend[j].open :: OneOpen(log, log[x].pend[j].ring, x, j)) &&
    (forall i | 0 <= i < |g.hung| :: NoneOpenBy(log, g.hung[i].ring) && g.hung[i].ring != g.tree.ring) &&
    forall i, j | 0 <= i < j < |g.hung| :: g.hung[i].ring != g.hung[j].ring
  }

  /** A walk moves on every ring that a bracket of it is on, unless it is somebody's who has not finished. */
  lemma {:induction false} VisitMoves(log: seq<LogRing>, it: LogIntr, b: Bracket, c: Cursor, y: nat)
    requires Fits(log, c) && it.ring < |log| && y < |log| && Laid(log, it, b, c) && Fresh(b) && NoneOpen(b, y) && !Away(b, y)
    ensures c.w[y] < After(b, c).w[y]
    decreases b, 1
  {
    SubIs(log, it, b, c);
    AfterMoves(log, it, b, c);
    if b.ring == y { FreshHasWords(log, y, End(log, it), b.body, c); } else { VisitSpanMoves(log, b.ring, End(log, it), b.open, b.body, c, y); }
  }

  lemma {:induction false} VisitSpanMoves(log: seq<LogRing>, r: nat, last: nat, open: bool, s: Span, c: Cursor, y: nat)
    requires Fits(log, c) && r < |log| && y < |log| && y != r && LaidSpan(log, r, last, open, s, c) && FreshSpan(open, s) && NoneOpenSpan(s, y) && !AwaySpan(s, y)
    ensures c.w[y] < AfterSpan(r, s, c).w[y]
    decreases s, 0
  {
    hide Laid, After, Fresh, NoneOpen, Away;
    CutMeets(log, r, last, open, s, c);
    var it := log[r].pend[c.p[r]];
    var c1 := PassIntr(c, r, s.at);
    if Away(s.sub, y) {
      VisitSpanMoves(log, r, last, open, s.rest, After(s.sub, c1), y);
    } else {
      VisitMoves(log, it, s.sub, c1, y);
    }
  }

  /** So if it has not moved there since the touched bracket, no bracket since is on that ring. */
  lemma {:induction false} StillIsAway(log: seq<LogRing>, it: LogIntr, b: Bracket, c: Cursor, h: nat, y: nat)
    requires Fits(log, c) && it.ring < |log| && h < |log| && y < |log| && Laid(log, it, b, c) && Leading(b) && NoneOpen(b, y)
    requires !EndBefore(b, h, log[h].prod) && log[h].depth < log[y].depth && After(b, c).w[y] <= Where(b, c, h, log[h].prod).w[y]
    ensures RestAway(b, h, log[h].prod, y)
    decreases b, 1
  {
    if !IsTouched(b, h, log[h].prod) {
      TouchIsDeepIn(log, h, it, b, c);
      if b.ring == h {
        DeeperSpanIsAway(log, h, h, End(log, it), b.open, b.body, c);
        AwayEndsBefore(b.body, h, log[h].prod);
      }
      StillSpanIsAway(log, b.ring, End(log, it), b.open, b.body, c, h, y);
    }
  }

  lemma {:induction false} StillSpanIsAway(log: seq<LogRing>, r: nat, last: nat, open: bool, s: Span, c: Cursor, h: nat, y: nat)
    requires Fits(log, c) && r < |log| && h < |log| && y < |log| && y != r && LaidSpan(log, r, last, open, s, c) && LeadingSpan(open, s) && NoneOpenSpan(s, y)
    requires !EndBeforeSpan(s, h, log[h].prod) && log[h].depth < log[y].depth
    requires AfterSpan(r, s, c).w[y] <= WhereSpan(r, s, c, h, log[h].prod).w[y]
    ensures RestAwaySpan(s, h, log[h].prod, y)
    decreases s, 0
  {
    hide Laid, After, Fresh, NoneOpen, Leading, EndBefore, Where, RestAway, Away;
    CutMeets(log, r, last, open, s, c);
    var it := log[r].pend[c.p[r]];
    var c1 := PassIntr(c, r, s.at);
    var c2 := After(s.sub, c1);
    SubLeads(open, s);
    FreshSpanIsLeading(open, s.rest);
    if EndBefore(s.sub, h, log[h].prod) {
      StillSpanIsAway(log, r, last, open, s.rest, c2, h, y);
    } else {
      WhereIsBefore(log, it, s.sub, c1, h, log[h].prod, y);
      StillIsAway(log, it, s.sub, c1, h, y);
      if !AwaySpan(s.rest, y) { VisitSpanMoves(log, r, last, open, s.rest, c2, y); }
    }
  }

  lemma {:induction false} StillAllAway(log: seq<LogRing>, ps: seq<Bracket>, c: Cursor, h: nat, y: nat)
    requires Fits(log, c) && h < |log| && y < |log| && LaidAll(log, ps, c) && AllLead(ps) && NoneOpenHung(ps, y) && !EndBeforeHung(ps, h, log[h].prod)
    requires log[h].depth < log[y].depth && AfterHung(ps, c).w[y] <= WhereAll(ps, c, h, log[h].prod).w[y]
    ensures RestAwayAll(ps, h, log[h].prod, y)
    decreases |ps|
  {
    hide Laid, After, Fresh, NoneOpen, Leading, EndBefore, Where, RestAway, Away;
    var b, c1 := Last(ps), AfterHung(Others(ps), c);
    if EndBeforeHung(Others(ps), h, log[h].prod) {
      StillIsAway(log, HungIntr(b), b, c1, h, y);
    } else {
      WhereAllIsBefore(log, Others(ps), c, h, y);
      AfterMoves(log, HungIntr(b), b, c1);
      StillAllAway(log, Others(ps), c, h, y);
      if !Away(b, y) { VisitMoves(log, HungIntr(b), b, c1, y); }
    }
  }

  /** What is laid after the parts is on no ring that somebody in them is on. */
  lemma ClearOfAll(n: nat, log: seq<LogRing>, ps: seq<Bracket>, c: Cursor, d: Bracket, y: nat)
    requires Fits(log, c) && LaidAll(log, ps, c) && Ahead(log, c) && Bounded(n, log) && d.ring < |log| && Laid(log, HungIntr(d), d, AfterHung(ps, c)) && Fresh(d)
    requires forall x | 0 <= x < |log| :: c.w[x] <= log[x].prod
    requires forall x, j | 0 <= x < |log| && log[x].pcons <= j < |log[x].pend| && log[x].pend[j].open :: OneOpen(log, log[x].pend[j].ring, x, j)
    requires d.ring != y && !NoneOpenHung(ps, y) && ((forall i | 0 <= i < |ps| :: ps[i].ring != y) || NoneOpenBy(log, y))
    ensures Away(d, y)
  {
    hide Laid, After, NoneOpen, Fresh, Bounded, NoneOpenHung, NoneMet;
    var c1 := AfterHung(ps, c);
    OpenInAllReaches(log, ps, c, y);
    AllMove(log, ps, c);
    assert Ahead(log, c1);
    if NoneOpenBy(log, y) {
      UnmetIsNone(log, c1, After(d, c1), y, 0, 0);
    } else {
      var x, j := OpenIsMet(log, ps, c, y);
      assert OneOpen(log, y, x, j);
      UnmetIsNone(log, c1, After(d, c1), y, x, j);
    }
    AwayAfter(log, y, HungIntr(d), d, c1);
  }

  // ---- the tree and what hangs are such parts ------------------------------------------------------------

  function PartsOf(g: Grove): seq<Bracket>
  {
    [g.tree] + g.hung
  }

  lemma OneMorePart(tree: Bracket, hung: seq<Bracket>)
    requires hung != []
    ensures Last([tree] + hung) == Last(hung) && Others([tree] + hung) == [tree] + Others(hung)
  {
  }

  lemma {:induction false} PartsWalk(g: Grove, c: Cursor, h: nat, e: nat)
    ensures AfterHung(PartsOf(g), c) == AfterHung(g.hung, After(g.tree, c)) && FlattenHung(PartsOf(g)) == FlattenAll(g)
    ensures EndBeforeHung(PartsOf(g), h, e) <==> EndBefore(g.tree, h, e) && EndBeforeHung(g.hung, h, e)
    ensures NoneOpenHung(PartsOf(g), h) <==> NoneOpen(g.tree, h) && NoneOpenHung(g.hung, h)
    decreases |g.hung|
  {
    hide After, Flatten, EndBefore, NoneOpen;
    if g.hung != [] {
      OneMorePart(g.tree, g.hung);
      PartsWalk(Outer(g), c, h, e);
      Associate(Flatten(g.tree), FlattenHung(Others(g.hung)), Flatten(Last(g.hung)));
    } else {
      assert Others([g.tree]) == [];
      assert [] + Flatten(g.tree) == Flatten(g.tree) == Flatten(g.tree) + [];
    }
  }

  /** Only the innermost part may have a bracket on ring `h` that has not finished. */
  predicate TopTailed(g: Grove, h: nat)
  {
    NoneOpenBelow(g, h) && Tailed(Top(g), h)
  }

  lemma {:induction false} StandingIsLaid(n: nat, log: seq<LogRing>, g: Grove)
    requires Standing(n, log, g)
    ensures LaidAll(log, PartsOf(g), Start(log)) && AllLead(PartsOf(g))
    decreases |g.hung|
  {
    hide Laid, After, Leading, Fresh, Bounded, Hanging;
    RootStart(n, log, g);
    if g.hung == [] {
      assert PartsOf(g) == [g.tree] && Others([g.tree]) == [];
      RootIsHung(log, g.tree);
    } else {
      OneMorePart(g.tree, g.hung);
      PartsWalk(Outer(g), Start(log), 0, 0);
      OuterStands(n, log, g);
      TopFacts(n, log, g);
      StandingIsLaid(n, log, Outer(g));
      HungFresh(log, g.tree.ring, Top(g), TopStart(log, g));
      FreshIsLeading(Top(g));
    }
  }

  lemma RootIsHung(log: seq<LogRing>, b: Bracket)
    requires b.ring < |log| && Laid(log, RootIntr(log, b.ring), b, Start(log))
    ensures HungIntr(b) == RootIntr(log, b.ring)
  {
    hide LaidSpan;
  }

  lemma {:induction false} StandingIsParts(n: nat, log: seq<LogRing>, g: Grove, h: nat, q: nat)
    requires Standing(n, log, g) && h < |log| && q < |log| && Under(log, h, q) && TopTailed(g, h) && NoneOpen(g.tree, q) && NoneOpenHung(g.hung, q)
    ensures AllParts(n, log, h, q, PartsOf(g), Start(log))
    decreases |g.hung|
  {
    hide Laid, After, NoneOpen, AtTail, Leading, Fresh, Bounded, Hanging;
    RootStart(n, log, g);
    if g.hung == [] {
      assert PartsOf(g) == [g.tree] && Others([g.tree]) == [];
      RootIsHung(log, g.tree);
    } else {
      OneMorePart(g.tree, g.hung);
      PartsWalk(Outer(g), Start(log), h, 0);
      OuterStands(n, log, g);
      TopFacts(n, log, g);
      TailedBelow(g, h);
      StandingIsParts(n, log, Outer(g), h, q);
    }
  }

  lemma TailedBelow(g: Grove, h: nat)
    requires NoneOpenBelow(g, h) && g.hung != []
    ensures TopTailed(Outer(g), h) && NoneOpenHung(Others(g.hung), h) && NoneOpenHung(PartsOf(Outer(g)), h)
  {
    hide NoneOpen, AtTail;
    PartsWalk(Outer(g), Cursor([], []), h, 0);
  }

  // ---- in order, exactly when ------------------------------------------------------------------------------

  /** The passes find this tree, and after it what hangs, and these are all that the thread's rings hold. */
  ghost predicate Held(log: seq<LogRing>, g: Grove)
  {
    g.tree.ring < |log| && LaidAll(log, PartsOf(g), Start(log)) && NothingElse(log, g)
  }

  /** The bracket that hangs last may be recorded as an interruption of ring `h`. */
  predicate MayRecord(log: seq<LogRing>, g: Grove, h: nat)
  {
    h < |log| && g.hung != [] && Top(g).ring < |log| && Under(log, h, Top(g).ring) && |log[h].pend| < log[h].pcons + 7 &&
    AtTail(Top(Outer(g)), h) && NoneOpenBelow(Outer(g), h) && OneEach(log, g)
  }

  /** What the thread has logged since the end of the first finished span of ring `h` that ends where the
      ring's words end; nothing if there is no such span. */
  function LoggedSince(log: seq<LogRing>, g: Grove, h: nat): seq<Slot>
    requires h < |log| && g.hung != []
  {
    SinceAll(PartsOf(Outer(g)), h, log[h].prod)
  }

  /** And before that; all of it if there is no such span. */
  function LoggedUpTo(log: seq<LogRing>, g: Grove, h: nat): seq<Slot>
    requires h < |log| && g.hung != []
  {
    UpToAll(PartsOf(Outer(g)), h, log[h].prod)
  }

  /** Once the handler that hangs last has been recorded as an interruption of ring `h`, and has logged `k`
      words, the rings hold a tree of the thread. */
  ghost predicate StillHeld(log: seq<LogRing>, g: Grove, h: nat, k: nat)
    requires h < |log| && g.hung != [] && Top(g).ring < |log|
  {
    exists g' :: SameRoots(PartsOf(Outer(g)), PartsOf(g')) && Held(TouchLog(log, h, Top(g).ring, k), g')
  }

  /** Once the handler that hangs last has been recorded as an interruption of ring `h`, and has logged `k`
      words, the rings hold a tree of the thread in which these words come last. */
  ghost predicate KeepsOrder(log: seq<LogRing>, g: Grove, h: nat, k: nat)
    requires h < |log| && g.hung != [] && Top(g).ring < |log|
  {
    var q := Top(g).ring;
    exists g' ::
      SameRoots(PartsOf(Outer(g)), PartsOf(g')) && Held(TouchLog(log, h, q, k), g') &&
      FlattenAll(g') == FlattenAll(g) + Run(q, log[q].depth, log[q].prod, log[q].prod + k)
  }

  lemma TracedIsHeld(n: nat, log: seq<LogRing>, g: Grove)
    requires Tracing(n, log, g)
    ensures Held(log, g)
  {
    hide Standing, LaidAll, WalkEnd;
    TracedStands(n, log, g);
    StandingIsLaid(n, log, g);
    TopFacts(n, log, g) by { hide Standing; }
  }

  /** What is known of the parts around the bracket that hangs last, and of that bracket. */
  lemma Around(n: nat, log: seq<LogRing>, g: Grove, h: nat)
    requires Tracing(n, log, g) && MayRecord(log, g, h)
    ensures var ps, q, c := PartsOf(Outer(g)), Top(g).ring, Start(log);
            AllParts(n, log, h, q, ps, c) && AllLead(ps) && LaidAll(log, ps, c) && Bounded(n, log) &&
            Laid(log, Recorded(log, h, q), Top(g), AfterHung(ps, c)) && Ahead(log, AfterHung(ps, c)) && Within(log, AfterHung(ps, c)) &&
            AfterHung(ps, c) == TopStart(log, g) && FlattenAll(g) == FlattenHung(ps) + Flatten(Top(g))
    ensures forall y | 0 <= y < |log| && !Away(Top(g), y) :: NoneOpenHung(PartsOf(Outer(g)), y) && log[h].depth < log[y].depth
  {
    hide Laid, After, NoneOpen, AtTail, Leading, Fresh, Bounded, Hanging, Standing, NothingElse, Flatten;
    var o, q, d, c, ps := Outer(g), Top(g).ring, Top(g), Start(log), PartsOf(Outer(g));
    TracedStands(n, log, g);
    OuterStands(n, log, g);
    TopFacts(n, log, g);
    StandingIsLaid(n, log, o);
    PartsWalk(o, c, h, 0);
    PartsWalk(o, c, q, 0);
    Unshared(n, log, g, q);
    StandingIsParts(n, log, o, h, q);
    RecordedSame(log, g.tree.ring, h, d, TopStart(log, g));
    Associate(Flatten(g.tree), FlattenHung(Others(g.hung)), Flatten(d));
    forall y | 0 <= y < |log| && !Away(d, y)
      ensures NoneOpenHung(ps, y) && log[h].depth < log[y].depth
    {
      if log[y].depth <= log[h].depth { DeeperIsAway(log, y, HungIntr(d), d, TopStart(log, g)); }
      if y != q && !NoneOpenHung(ps, y) { OthersClear(n, log, g, y); }
      if y == q { PartsWalk(o, c, q, 0); }
    }
  }

  /** Nobody else is on the ring of the bracket that hangs last. */
  lemma Unshared(n: nat, log: seq<LogRing>, g: Grove, q: nat)
    requires Standing(n, log, g) && g.hung != [] && OneEach(log, g) && q == Top(g).ring
    ensures NoneOpen(Outer(g).tree, q) && NoneOpenHung(Outer(g).hung, q)
  {
    hide Laid, After, NoneOpen, Leading, Fresh, Bounded, Hanging, Standing;
    var o := Outer(g);
    OuterStands(n, log, g);
    TopFacts(n, log, o);
    StandingIsLaid(n, log, o);
    PartsWalk(o, Start(log), q, 0);
    assert q == g.hung[|g.hung| - 1].ring;
    if !NoneOpenHung(PartsOf(o), q) {
      forall i | 0 <= i < |PartsOf(o)|
        ensures PartsOf(o)[i].ring != q
      {
        if i > 0 { assert PartsOf(o)[i] == g.hung[i - 1]; }
      }
      var x, j := OpenIsMet(log, PartsOf(o), Start(log), q);
    }
  }

  /** Nor is that bracket on a ring that somebody else is on. */
  lemma OthersClear(n: nat, log: seq<LogRing>, g: Grove, y: nat)
    requires Standing(n, log, g) && g.hung != [] && OneEach(log, g) && y < |log| && y != Top(g).ring && !NoneOpenHung(PartsOf(Outer(g)), y)
    ensures Away(Top(g), y)
  {
    hide Laid, After, NoneOpen, Leading, Bounded, Hanging, Standing;
    var o, d, ps := Outer(g), Top(g), PartsOf(Outer(g));
    OuterStands(n, log, g);
    TopFacts(n, log, g);
    StandingIsLaid(n, log, o);
    PartsWalk(o, Start(log), y, 0);
    if y == g.tree.ring {
      DeeperIsAway(log, y, HungIntr(d), d, TopStart(log, g));
    } else {
      StartIsShort(n, log);
      if i :| 0 <= i < |o.hung| && o.hung[i].ring == y {
        assert o.hung[i] == g.hung[i];
      } else {
        forall i | 0 <= i < |ps|
          ensures ps[i].ring != y
        {
          if i > 0 { assert ps[i] == o.hung[i - 1]; }
        }
      }
      ClearOfAll(n, log, ps, Start(log), d, y);
    }
  }

  lemma StartIsShort(n: nat, log: seq<LogRing>)
    requires Bounded(n, log)
    ensures forall x | 0 <= x < |log| :: Start(log).w[x] <= log[x].prod
    ensures Ahead(log, Start(log))
  {
    forall x | 0 <= x < |log|
      ensures Start(log).w[x] <= log[x].prod
    {
      assert BoundedRing(n, |log|, log[x]);
    }
  }

  /** Nothing touched: the record joins what hangs to the tree, and the handler is at the tail. */
  lemma UntouchedIsTraced(n: nat, log: seq<LogRing>, g: Grove, h: nat, k: nat) returns (g': Grove)
    requires Tracing(n, log, g) && MayRecord(log, g, h) && log[Top(g).ring].prod + k < log[Top(g).ring].cons + n
    requires EndBeforeHung(PartsOf(Outer(g)), h, log[h].prod)
    ensures var q := Top(g).ring;
            Tracing(n, TouchLog(log, h, q, k), g') && SameRoots(PartsOf(Outer(g)), PartsOf(g')) &&
            FlattenAll(g') == FlattenAll(g) + Run(q, log[q].depth, log[q].prod, log[q].prod + k)
  {
    hide Tracing, AtTail, Holds, EnterOn, PutOn, NoneOpen, NoneOpenBelow, EndBefore, EndBeforeHung, FlattenAll, Run, Marked, Grown, Beyond, OneEach, PartsOf;
    var q, o, d := Top(g).ring, Outer(g), Top(g);
    PartsWalk(o, Start(log), h, log[h].prod) by { hide AfterHung, FlattenAll; }
    RecordKeeps(n, log, g, h);
    var log1, g1 := EnterLog(log, h, q), Marked(o, h, EnterOn(Top(o), h, d));
    NewTail(n, log, g, h);
    assert log1[q].prod == log[q].prod && log1[q].cons == log[q].cons && log1[q].depth == log[q].depth;
    assert Enabled(n, log1, g1, Put(q, k));
    PutKeeps(n, log1, g1, q, k);
    TailAppends(n, log1, g1, q, k);
    g' := WithTop(g1, PutOn(Top(g1), q, k));
    SameAfterPut(o, h, EnterOn(Top(o), h, d), PutOn(Top(g1), q, k));
  }

  lemma UntouchedKeepsOrder(n: nat, log: seq<LogRing>, g: Grove, h: nat, k: nat)
    requires Tracing(n, log, g) && MayRecord(log, g, h) && log[Top(g).ring].prod + k < log[Top(g).ring].cons + n
    requires EndBeforeHung(PartsOf(Outer(g)), h, log[h].prod)
    ensures KeepsOrder(log, g, h, k)
  {
    hide Tracing, EndBeforeHung, FlattenAll, Run, Held, OneEach, PartsOf, AtTail, NoneOpenBelow;
    var g' := UntouchedIsTraced(n, log, g, h, k);
    TracedIsHeld(n, TouchLog(log, h, Top(g).ring, k), g');
  }

  /** The ring of the new interruption is at the tail. */
  lemma NewTail(n: nat, log: seq<LogRing>, g: Grove, h: nat)
    requires Tracing(n, log, g) && MayRecord(log, g, h)
    ensures var q, o := Top(g).ring, Outer(g);
            var b := EnterOn(Top(o), h, Top(g));
            var g1 := Marked(o, h, b);
            Top(g1) == b && AtTail(b, q) && Holds(b, q) && NoneOpenBelow(g1, q) && (g1.hung != [] ==> q != b.ring) && b.ring == Top(o).ring
  {
    hide Laid, After, AtTail, Holds, EnterOn, NoneOpen, Leading, Fresh, Bounded, Hanging, NothingElse, Mark, MarkHung, Standing;
    var q, o, d := Top(g).ring, Outer(g), Top(g);
    TracedStands(n, log, g);
    TopFacts(n, log, g);
    Unshared(n, log, g, q);
    var b := EnterOn(Top(o), h, d);
    HandlerAtTail(Top(o), h, d, 0);
    MarkedTop(o, h, b, b);
    MarkedBelow(o, h, b, q);
    EnterRing(Top(o), h, d);
    MarkedParts(o, h, b);
    OwnRingIsNot(Top(o), q);
  }

  lemma OwnRingIsNot(b: Bracket, q: nat)
    requires NoneOpen(b, q) && b.open
    ensures b.ring != q
  {
  }

  lemma MarkedParts(o: Grove, h: nat, b: Bracket)
    requires b.ring == Top(o).ring
    ensures SameRoots(PartsOf(o), PartsOf(Marked(o, h, b))) && (Marked(o, h, b).hung == [] <==> o.hung == [])
  {
    hide Mark;
    if o.hung != [] {
      var g1 := Marked(o, h, b);
      assert MarkedAll(Others(o.hung), h) == MarkHung(Others(o.hung), h);
      MarkRing(o.tree, h);
      forall i | 0 <= i < |PartsOf(o)|
        ensures PartsOf(g1)[i].ring == PartsOf(o)[i].ring
      {
        if 0 < i < |PartsOf(o)| - 1 { assert MarkedAll(Others(o.hung), h)[i - 1].ring == Others(o.hung)[i - 1].ring; }
      }
    }
  }

  lemma MarkRing(b: Bracket, h: nat)
    ensures Mark(b, h).ring == b.ring
  {
  }

  lemma SameAfterPut(o: Grove, h: nat, b: Bracket, b': Bracket)
    requires b.ring == Top(o).ring && b'.ring == b.ring
    ensures SameRoots(PartsOf(o), PartsOf(WithTop(Marked(o, h, b), b')))
  {
    hide Mark, MarkHung, Marked;
    MarkedTop(o, h, b, b');
    MarkedParts(o, h, b');
  }

  lemma {:induction false} LongerIsOn(b: Bracket, k: nat, y: nat)
    ensures Away(b.(body := Longer(b.body, k)), y) <==> Away(b, y)
  {
    LongerSpanIsOn(b.body, k, y);
  }

  lemma {:induction false} LongerSpanIsOn(s: Span, k: nat, y: nat)
    ensures AwaySpan(Longer(s, k), y) <==> AwaySpan(s, y)
    decreases s
  {
    hide Away;
    if s.Cut? { LongerSpanIsOn(s.rest, k, y); }
  }

  /** Where the passes find the bracket of the interruption, with the `k` words, when no bracket after the touched
      one is on a ring of its. */
  function Found(d: Bracket, k: nat): Bracket
  {
    d.(body := Longer(d.body, k))
  }

  /** A walk of it ends at `a` where one of the bracket as it was ended at `c`, but for the words put. */
  predicate EndsAlike(log: seq<LogRing>, h: nat, d: Bracket, k: nat, c: Cursor, a: Cursor)
    requires Fits(log, c) && Fits(log, a)
  {
    forall y | 0 <= y < |log| ::
      (Away(Found(d, k), y) <==> Away(d, y)) &&
      (!Away(d, y) ==> y != h && a.p[y] == c.p[y] && a.w[y] == c.w[y] + (if y == d.ring then k else 0))
  }

  lemma FoundThere(n: nat, log: seq<LogRing>, h: nat, q: nat, k: nat, ps: seq<Bracket>, c: Cursor, d: Bracket)
    requires Fits(log, c) && h < |log| && q < |log| && Under(log, h, q) && LaidAll(log, ps, c) && Bounded(n, log) && Ahead(log, c)
    requires |log[h].pend| < log[h].pcons + 7 && !EndBeforeHung(ps, h, log[h].prod) && Within(log, AfterHung(ps, c))
    requires Laid(log, Recorded(log, h, q), d, AfterHung(ps, c)) && ApartAll(log, ps, h, log[h].prod, d)
    ensures var cut := PassIntr(WhereAll(ps, c, h, log[h].prod), h, log[h].prod);
            Laid(TouchLog(log, h, q, k), Recorded(log, h, q), Found(d, k), cut) &&
            EndsAlike(log, h, d, k, After(d, AfterHung(ps, c)), After(Found(d, k), cut))
    ensures ApartAll(log, ps, h, log[h].prod, Found(d, k)) && d.ring == q == Found(d, k).ring
    ensures Flatten(Found(d, k)) == Flatten(d) + Run(q, log[q].depth, log[q].prod, log[q].prod + k)
  {
    hide Laid, After, EndBefore, EndBeforeHung, LaidAll, Away, Bounded, RestAwayAll, Flatten, Run, FlattenSpan, Longer, SameOn;
    var it, log1, e, c1 := Recorded(log, h, q), EnterLog(log, h, q), log[h].prod, AfterHung(ps, c);
    var cut := PassIntr(WhereAll(ps, c, h, e), h, e);
    SubIs(log, it, d, c1);
    OwnBound(n, log, h);
    forall y | 0 <= y < |log| && !Away(d, y)
      ensures SameOn(log, log1, c1, cut, y)
    {
      WhereAllIsBefore(log, ps, c, h, y);
      SameThere(log, h, q, c1, cut, y);
    }
    VisitFrame(log, log1, it, d, c1, cut);
    EnterBounded(n, log, h, q);
    AheadThere(log, h, q, ps, c, cut);
    PutFound(n, log1, q, k, it, d, cut);
    LaidIsOrdered(n, log1, it, d, cut);
    FoundFlattens(n, log1, q, k, it, d, cut);
    forall y | 0 <= y < |log|
      ensures Away(Found(d, k), y) <==> Away(d, y)
    {
      LongerIsOn(d, k, y);
    }
    forall y | 0 <= y < |log| && !Away(d, y)
      ensures After(Found(d, k), cut).p[y] == After(d, c1).p[y] && After(Found(d, k), cut).w[y] == After(d, c1).w[y] + (if y == q then k else 0)
    {
      LevelThere(log, h, q, After(d, c1), After(d, cut), y);
    }
  }

  lemma SameThere(log: seq<LogRing>, h: nat, q: nat, c: Cursor, c': Cursor, y: nat)
    requires Fits(log, c) && Fits(log, c') && h < |log| && q < |log| && y < |log| && y != h && Level(c', c, y) && c.p[y] <= |log[y].pend|
    ensures SameOn(log, EnterLog(log, h, q), c, c', y)
  {
  }

  lemma LevelThere(log: seq<LogRing>, h: nat, q: nat, c: Cursor, c': Cursor, y: nat)
    requires Fits(log, c) && Fits(log, c') && h < |log| && q < |log| && y < |log| && y != h && SameOn(log, EnterLog(log, h, q), c, c', y)
    ensures Level(c', c, y)
  {
    assert |log[y].pend[c.p[y]..]| == |log[y].pend[c'.p[y]..]|;
  }

  lemma AheadThere(log: seq<LogRing>, h: nat, q: nat, ps: seq<Bracket>, c: Cursor, cut: Cursor)
    requires Fits(log, c) && h < |log| && q < |log| && LaidAll(log, ps, c) && Ahead(log, c) && cut == PassIntr(WhereAll(ps, c, h, log[h].prod), h, log[h].prod)
    requires log[h].cons <= log[h].prod
    ensures Ahead(EnterLog(log, h, q), cut)
  {
    hide LaidAll, WhereAll;
    forall y | 0 <= y < |log|
      ensures EnterLog(log, h, q)[y].cons <= cut.w[y] && EnterLog(log, h, q)[y].pcons <= cut.p[y]
    {
      WhereAllIsBefore(log, ps, c, h, y);
    }
  }

  lemma PutFound(n: nat, log: seq<LogRing>, q: nat, k: nat, it: LogIntr, d: Bracket, c: Cursor)
    requires Fits(log, c) && q == it.ring < |log| && it.open && Laid(log, it, d, c) && Bounded(n, log) && Ahead(log, c)
    ensures Laid(PutLog(log, q, k), it, Found(d, k), c) && After(Found(d, k), c) == Bump(After(d, c), q, k)
  {
    hide LaidSpan, AfterSpan, Bounded;
    assert Holds(d, q) && PutOn(d, q, k) == Found(d, k);
    PutIsLaid(n, log, q, k, it, d, c);
  }

  lemma FoundFlattens(n: nat, log: seq<LogRing>, q: nat, k: nat, it: LogIntr, d: Bracket, c: Cursor)
    requires Fits(log, c) && q == it.ring < |log| && it.open && Laid(log, it, d, c) && Ordered(n, d)
    ensures Flatten(Found(d, k)) == Flatten(d) + Run(q, log[q].depth, log[q].prod, log[q].prod + k)
  {
    hide LaidSpan, Run, FlattenSpan;
    SubIs(log, it, d, c);
    EndIs(log, q, log[q].prod, true, d.body, c);
    OrderedHasRest(n, d.depth, d.body);
    LongerFlattens(q, d.depth, d.body, k);
  }

  /** The tree with the interruption moved is all that the rings hold. */
  lemma JoinedIsAll(n: nat, log: seq<LogRing>, g: Grove, h: nat, k: nat, g': Grove, a: Cursor)
    requires Tracing(n, log, g) && MayRecord(log, g, h) && Fits(log, a) && PartsOf(g')[0].ring == g.tree.ring
    requires var d, c1, log' := Top(g), TopStart(log, g), TouchLog(log, h, Top(g).ring, k);
             LaidAll(log', PartsOf(g'), Start(log)) && Detour(log, Found(d, k), h, c1, a, AfterHung(PartsOf(g'), Start(log))) &&
             EndsAlike(log, h, d, k, After(d, c1), a)
    ensures Held(TouchLog(log, h, Top(g).ring, k), g')
  {
    hide Laid, After, AtTail, NoneOpen, NoneOpenBelow, OneEach, LaidAll, Away, Bounded, Leading, Hanging, Fresh, Standing, Found;
    var d, q, c1, log' := Top(g), Top(g).ring, TopStart(log, g), TouchLog(log, h, Top(g).ring, k);
    TracedStands(n, log, g);
    TopFacts(n, log, g);
    Walked(n, log, g);
    PartsWalk(g', Start(log), h, 0);
    assert Start(log') == Start(log);
    assert !Away(d, q) by { OnSame(d, k); }
    forall x | 0 <= x < |log'| && Below(log', g'.tree.ring, x)
      ensures WalkedAll(log', WalkEnd(log', g'), x)
    {
      assert WalkedAll(log, WalkEnd(log, g), x);
      if Away(d, x) { AwayStill(d, c1, x); }
    }
  }

  /** Something touched, and no bracket since on a ring of the interruption: the passes find it in the touched
      bracket, and then what they would have found. */
  lemma UnusedIsHeld(n: nat, log: seq<LogRing>, g: Grove, h: nat, k: nat) returns (g': Grove)
    requires Tracing(n, log, g) && MayRecord(log, g, h)
    requires !EndBeforeHung(PartsOf(Outer(g)), h, log[h].prod) && NotUsedSince(log, g, h)
    ensures Held(TouchLog(log, h, Top(g).ring, k), g') && SameRoots(PartsOf(Outer(g)), PartsOf(g')) && Coming(g'.tree)
    ensures var q := Top(g).ring;
            FlattenAll(g') == LoggedUpTo(log, g, h) + Flatten(Top(g)) + Run(q, log[q].depth, log[q].prod, log[q].prod + k) + LoggedSince(log, g, h)
  {
    hide Coming, Ripe, Fresh, Laid, After, AtTail, Holds, PutOn, NoneOpen, NoneOpenBelow, EndBefore, EndBeforeHung, Flatten, Run, OneEach, Tracing, AllParts, AllLead, LaidAll, NoneOpenHung, Detour, Away, Bounded, Found;
    hide UpToAll, SinceAll, WhereAll, RestAwayAll, EndsAlike, Held, FlattenHung, AfterHung;
    var q, d, e, ps, c := Top(g).ring, Top(g), log[h].prod, PartsOf(Outer(g)), Start(log);
    Around(n, log, g, h);
    assert ApartAll(log, ps, h, e, d);
    StartIsShort(n, log);
    FoundThere(n, log, h, q, k, ps, c, d);
    JoinAllIsLaid(n, log, h, q, k, ps, c, Found(d, k));
    g' := JoinedGrove(ps, h, e, Found(d, k));
    JoinedIsAll(n, log, g, h, k, g', After(Found(d, k), PassIntr(WhereAll(ps, c, h, e), h, e)));
    JoinedOrder(ps, h, e, d, Found(d, k), Run(q, log[q].depth, log[q].prod, log[q].prod + k), g');
    TopIsFresh(n, log, g);
    FoundIsRipe(d, k);
    JoinAllIsComing(ps, h, e, Found(d, k));
    assert g'.tree == PartsOf(g')[0];
  }

  lemma TopIsFresh(n: nat, log: seq<LogRing>, g: Grove)
    requires Tracing(n, log, g) && g.hung != []
    ensures Fresh(Top(g)) && Top(g).open
  {
    hide Laid, After, Bounded, Leading, Hanging, NothingElse, Standing, Fresh;
    TracedStands(n, log, g);
    TopFacts(n, log, g);
    HungFresh(log, g.tree.ring, Top(g), TopStart(log, g));
  }

  lemma JoinedGrove(ps: seq<Bracket>, h: nat, e: nat, d: Bracket) returns (g: Grove)
    requires ps != []
    ensures PartsOf(g) == JoinAll(ps, h, e, d) && SameRoots(ps, PartsOf(g)) && PartsOf(g)[0].ring == ps[0].ring
  {
    var ps' := JoinAll(ps, h, e, d);
    g := Grove(ps'[0], ps'[1..]);
    hide JoinAll;
    assert PartsOf(g) == ps';
  }

  lemma JoinedOrder(ps: seq<Bracket>, h: nat, e: nat, d: Bracket, d': Bracket, words: seq<Slot>, g: Grove)
    requires PartsOf(g) == JoinAll(ps, h, e, d') && FlattenHung(JoinAll(ps, h, e, d')) == UpToAll(ps, h, e) + Flatten(d') + SinceAll(ps, h, e)
    requires Flatten(d') == Flatten(d) + words
    ensures FlattenAll(g) == UpToAll(ps, h, e) + Flatten(d) + words + SinceAll(ps, h, e)
  {
    hide JoinAll, UpToAll, SinceAll, Flatten, FlattenAll, FlattenHung, PartsOf;
    PartsWalk(g, Cursor([], []), h, e);
    Associate(UpToAll(ps, h, e), Flatten(d), words);
  }

  lemma OnSame(d: Bracket, k: nat)
    ensures (forall y: nat :: Away(Found(d, k), y) <==> Away(d, y)) && !Away(d, d.ring)
  {
    forall y: nat
      ensures Away(Found(d, k), y) <==> Away(d, y)
    {
      LongerIsOn(d, k, y);
    }
  }

  /** Whatever bracket the passes find there, it is the interruption's; and the walk is then where it was at the
      end, on the rings that the bracket is on. */
  lemma FoundIs(n: nat, log: seq<LogRing>, h: nat, q: nat, k: nat, ps: seq<Bracket>, d: Bracket, d': Bracket)
    requires h < |log| && q < |log| && Under(log, h, q) && LaidAll(log, ps, Start(log)) && AllLead(ps) && Bounded(n, log)
    requires Ahead(log, AfterHung(ps, Start(log))) && Within(log, AfterHung(ps, Start(log)))
    requires Laid(log, Recorded(log, h, q), d, AfterHung(ps, Start(log)))
    requires Laid(TouchLog(log, h, q, k), Recorded(log, h, q), d', PassIntr(WhereAll(ps, Start(log), h, log[h].prod), h, log[h].prod))
    requires forall y | 0 <= y < |log| && !Away(d, y) :: NoneOpenHung(ps, y) && log[h].depth < log[y].depth
    ensures Flatten(d') == Flatten(d) + Run(q, log[q].depth, log[q].prod, log[q].prod + k)
    ensures d' == Found(d, k)
    ensures LevelOn(d, AfterHung(ps, Start(log)), PassIntr(WhereAll(ps, Start(log), h, log[h].prod), h, log[h].prod))
  {
    hide Laid, After, NoneOpen, Flatten, Run, AllLead, LaidAll, NoneOpenHung, Away, Bounded, AfterHung, WhereAll;
    var c, c1, e, log' := Start(log), AfterHung(ps, Start(log)), log[h].prod, TouchLog(log, h, q, k);
    var cut := PassIntr(WhereAll(ps, c, h, e), h, e);
    forall y | 0 <= y < |log| && !Away(d, y)
      ensures (y != q ==> log'[y] == log[y]) && Lags(log, c1, cut, y)
    {
      AllPass(log, y, log[y].pcons, ps, c);
      WhereAllIsBefore(log, ps, c, h, y);
    }
    PutSame(n, log, log', k, Recorded(log, h, q), d, d', c1, cut);
  }

  /** No bracket since the touched one is on a ring of the bracket that hangs last. */
  predicate NotUsedSince(log: seq<LogRing>, g: Grove, h: nat)
    requires h < |log| && g.hung != []
  {
    forall y | 0 <= y < |log| && !Away(Top(g), y) :: RestAwayAll(PartsOf(Outer(g)), h, log[h].prod, y)
  }

  lemma {:induction false} NoneSince(ps: seq<Bracket>, h: nat, e: nat, y: nat)
    requires EndBeforeHung(ps, h, e)
    ensures RestAwayAll(ps, h, e, y)
    decreases |ps|
  {
    if ps != [] { NoneSinceIn(Last(ps).body, h, e, y); }
  }

  lemma {:induction false} NoneSinceIn(s: Span, h: nat, e: nat, y: nat)
    requires EndBeforeSpan(s, h, e)
    ensures RestAwaySpan(s, h, e, y)
    decreases s
  {
    hide EndBefore;
    if s.Cut? { NoneSinceIn(s.rest, h, e, y); }
  }

  /** The rings still hold a tree, and it is the only one. */
  lemma HeldOnce(log: seq<LogRing>, g: Grove, g': Grove)
    requires Held(log, g) && Held(log, g') && SameRoots(PartsOf(g), PartsOf(g'))
    ensures g == g'
  {
    LaidAllOnce(log, PartsOf(g), PartsOf(g'), Start(log));
    assert PartsOf(g)[1..] == g.hung && PartsOf(g')[1..] == g'.hung && PartsOf(g)[0] == PartsOf(g')[0];
  }

  /** If the rings hold a tree at all, the touched bracket is where its interruption is, and nothing since is on a
      ring of it. */
  lemma HeldIsUnused(n: nat, log: seq<LogRing>, g: Grove, h: nat, k: nat, g': Grove)
    requires Tracing(n, log, g) && MayRecord(log, g, h)
    requires Held(TouchLog(log, h, Top(g).ring, k), g') && SameRoots(PartsOf(Outer(g)), PartsOf(g'))
    ensures NotUsedSince(log, g, h)
  {
    hide Laid, After, AtTail, NoneOpen, NoneOpenBelow, EndBefore, EndBeforeHung, Flatten, Run, OneEach, Tracing, AllParts, AllLead, LaidAll, NoneOpenHung, Away, Bounded;
    hide RestAwayAll, WhereAll, FlattenHung, AfterHung, FlattenAll, NothingElse, Found;
    var q, d, e, ps, c := Top(g).ring, Top(g), log[h].prod, PartsOf(Outer(g)), Start(log);
    assert Start(TouchLog(log, h, q, k)) == c;
    Around(n, log, g, h);
    if !EndBeforeHung(ps, h, e) {
      var d' := TakenInAll(n, log, h, q, k, ps, PartsOf(g'), c);
      FoundIs(n, log, h, q, k, ps, d, d');
    }
    forall y | 0 <= y < |log| && !Away(d, y)
      ensures RestAwayAll(ps, h, e, y)
    {
      if EndBeforeHung(ps, h, e) { NoneSince(ps, h, e, y); } else { StillAllAway(log, ps, c, h, y); }
    }
  }

  /** An interruption is recorded, and its handler logs. The thread's rings then hold a tree at all if and only if,
      since the finished span that it touches, no handler has had a ring that the new one has, or one that
      has interrupted it. */
  lemma HeldExactly(n: nat, log: seq<LogRing>, g: Grove, h: nat, k: nat)
    requires Tracing(n, log, g) && MayRecord(log, g, h) && log[Top(g).ring].prod + k < log[Top(g).ring].cons + n
    ensures StillHeld(log, g, h, k) <==> NotUsedSince(log, g, h)
  {
    hide Tracing, EndBeforeHung, SameRoots, Held, NotUsedSince, OneEach, AtTail, NoneOpenBelow, PartsOf, FlattenAll, Run;
    var q, ps := Top(g).ring, PartsOf(Outer(g));
    if StillHeld(log, g, h, k) {
      var g' :| SameRoots(ps, PartsOf(g')) && Held(TouchLog(log, h, q, k), g');
      HeldIsUnused(n, log, g, h, k, g');
    }
    if NotUsedSince(log, g, h) {
      if EndBeforeHung(ps, h, log[h].prod) {
        UntouchedKeepsOrder(n, log, g, h, k);
        var g' :| SameRoots(ps, PartsOf(g')) && Held(TouchLog(log, h, q, k), g') && FlattenAll(g') == FlattenAll(g) + Run(q, log[q].depth, log[q].prod, log[q].prod + k);
      } else {
        var g' := UnusedIsHeld(n, log, g, h, k);
      }
    }
  }

  /** And whatever tree that is, what the new handler and those that have interrupted it have logged is read where the
      touched span ends, before everything that the thread has logged since. */
  lemma ReadOrder(n: nat, log: seq<LogRing>, g: Grove, h: nat, k: nat, g': Grove)
    requires Tracing(n, log, g) && MayRecord(log, g, h) && log[Top(g).ring].prod + k < log[Top(g).ring].cons + n
    requires Held(TouchLog(log, h, Top(g).ring, k), g') && SameRoots(PartsOf(Outer(g)), PartsOf(g'))
    ensures FlattenAll(g) == LoggedUpTo(log, g, h) + LoggedSince(log, g, h) + Flatten(Top(g))
    ensures var q := Top(g).ring;
            FlattenAll(g') == LoggedUpTo(log, g, h) + Flatten(Top(g)) + Run(q, log[q].depth, log[q].prod, log[q].prod + k) + LoggedSince(log, g, h)
  {
    hide Tracing, EndBeforeHung, Held, NotUsedSince, OneEach, AtTail, NoneOpenBelow, PartsOf, FlattenAll, FlattenHung, Flatten, Run, SinceAll, UpToAll, Under;
    var q, ps, e := Top(g).ring, PartsOf(Outer(g)), log[h].prod;
    SplitAllThere(ps, h, e);
    GroveOrder(n, log, g, h);
    var words := Run(q, log[q].depth, log[q].prod, log[q].prod + k);
    if EndBeforeHung(ps, h, e) {
      UntouchedKeepsOrder(n, log, g, h, k);
      var g1 :| SameRoots(ps, PartsOf(g1)) && Held(TouchLog(log, h, q, k), g1) && FlattenAll(g1) == FlattenAll(g) + words;
      HeldOnce(TouchLog(log, h, q, k), g', g1);
      Empties(UpToAll(ps, h, e), Flatten(Top(g)), words);
    } else {
      HeldIsUnused(n, log, g, h, k, g');
      var g1 := UnusedIsHeld(n, log, g, h, k);
      HeldOnce(TouchLog(log, h, q, k), g', g1);
    }
  }

  // ---- what the passes rely on holds of that tree -----------------------------------------------------

  lemma {:induction false} JoinIsRipe(b: Bracket, h: nat, e: nat, d: Bracket)
    requires Ripe(d)
    ensures Ripe(b) ==> Ripe(JoinOn(b, h, e, d))
    ensures Coming(b) ==> Coming(JoinOn(b, h, e, d))
    decreases b, 1
  {
    CutIsRipe(b.body, d);
    JoinSpanIsRipe(b.body, h, e, d);
  }

  lemma {:induction false} CutIsRipe(s: Span, d: Bracket)
    requires Ripe(d)
    ensures RipeSpan(s) ==> RipeSpan(Interrupted(s, d))
    ensures ComingSpan(s) ==> ComingSpan(Interrupted(s, d))
    decreases s
  {
    hide Ripe, Coming;
    RipeIsComing(d);
    if s.Cut? { CutIsRipe(s.rest, d); }
  }

  lemma {:induction false} JoinSpanIsRipe(s: Span, h: nat, e: nat, d: Bracket)
    requires Ripe(d)
    ensures RipeSpan(s) ==> RipeSpan(JoinSpan(s, h, e, d))
    ensures ComingSpan(s) ==> ComingSpan(JoinSpan(s, h, e, d))
    ensures JoinSpan(s, h, e, d).Cut? == s.Cut? && (s.Done? ==> JoinSpan(s, h, e, d) == s)
    decreases s, 0
  {
    hide Ripe, Coming, JoinOn, EndBefore, Mark;
    if s.Cut? {
      JoinIsRipe(s.sub, h, e, d);
      JoinSpanIsRipe(s.rest, h, e, d);
      MarkIsRipe(s.sub, h);
    }
  }

  lemma {:induction false} MarkIsRipe(b: Bracket, h: nat)
    ensures Ripe(b) ==> Ripe(Mark(b, h))
    ensures Coming(b) ==> Coming(Mark(b, h))
    decreases b, 1
  {
    MarkSpanIsRipe(b.body, h);
  }

  lemma {:induction false} MarkSpanIsRipe(s: Span, h: nat)
    ensures RipeSpan(s) ==> RipeSpan(MarkSpan(s, h)) && RipeSpan(MarkEnd(s))
    ensures ComingSpan(s) ==> ComingSpan(MarkSpan(s, h)) && ComingSpan(MarkEnd(s))
    ensures s.Done? ==> MarkEnd(s).from == s.from && MarkEnd(s).Done? && MarkEnd(s).to == s.to && MarkSpan(s, h) == s
    decreases s, 0
  {
    hide Ripe, Coming, Mark;
    if s.Cut? {
      MarkIsRipe(s.sub, h);
      MarkSpanIsRipe(s.rest, h);
    }
  }

  lemma {:induction false} JoinAllIsComing(ps: seq<Bracket>, h: nat, e: nat, d: Bracket)
    requires ps != [] && AllLead(ps) && Ripe(d)
    ensures Coming(JoinAll(ps, h, e, d)[0])
    decreases |ps|
  {
    hide Coming, Ripe, Leading, Fresh, JoinOn, EndBefore, Mark;
    if |ps| == 1 {
      assert Others(ps) == [] && Last(ps) == ps[0];
      LeadingIsComing(ps[0]);
      JoinIsRipe(ps[0], h, e, d);
    } else {
      JoinAllIsComing(Others(ps), h, e, d);
      MarkedIsComing(Others(ps), h);
    }
  }

  lemma {:induction false} MarkedIsComing(ps: seq<Bracket>, h: nat)
    requires ps != [] && AllLead(ps)
    ensures Coming(MarkedAll(ps, h)[0])
    decreases |ps|
  {
    hide Coming, Leading, Fresh, Mark;
    if |ps| == 1 {
      assert Others(ps) == [] && Last(ps) == ps[0];
      LeadingIsComing(ps[0]);
      MarkIsRipe(ps[0], h);
    } else {
      MarkedIsComing(Others(ps), h);
    }
  }

  /** What a flush needs of a thread's ring: the tree is laid there, and there is something of each bracket that
      the serializer has not come to. */
  ghost predicate Flushable(n: nat, log: seq<LogRing>, t: Bracket)
  {
    Bounded(n, log) && LaidRoot(log, t) && Coming(t)
  }

  lemma FoundIsRipe(d: Bracket, k: nat)
    requires Fresh(d) && d.open
    ensures Ripe(Found(d, k))
  {
    FreshIsRipe(d);
    LongerIsRipe(d.body, k);
  }

  lemma {:induction false} LongerIsRipe(s: Span, k: nat)
    requires RipeSpan(s)
    ensures RipeSpan(Longer(s, k))
    decreases s
  {
    hide Ripe;
    if s.Cut? { LongerIsRipe(s.rest, k); }
  }

  lemma HeldRoot(log: seq<LogRing>, g: Grove)
    requires Held(log, g)
    ensures LaidRoot(log, g.tree)
  {
    hide Laid, NothingElse;
    FirstIsLaid(log, PartsOf(g), Start(log));
    RootIsStart(log, g.tree);
  }

  lemma {:induction false} FirstIsLaid(log: seq<LogRing>, ps: seq<Bracket>, c: Cursor)
    requires Fits(log, c) && LaidAll(log, ps, c) && ps != []
    ensures ps[0].ring < |log| && Laid(log, HungIntr(ps[0]), ps[0], c)
    decreases |ps|
  {
    hide Laid, After;
    if |ps| == 1 { assert Others(ps) == [] && Last(ps) == ps[0]; } else { FirstIsLaid(log, Others(ps), c); }
  }

  lemma RootIsStart(log: seq<LogRing>, b: Bracket)
    requires b.ring < |log| && Laid(log, HungIntr(b), b, Start(log))
    ensures HungIntr(b) == RootIntr(log, b.ring)
  {
    hide LaidSpan;
  }

  /** So the serializer goes on: whatever tree the rings hold after the record, its flush is the one that
      `Serializer` proves to lose nothing. */
  lemma StillFlushed(n: nat, log: seq<LogRing>, g: Grove, h: nat, k: nat, g': Grove)
    requires Tracing(n, log, g) && MayRecord(log, g, h) && log[Top(g).ring].prod + k < log[Top(g).ring].cons + n
    requires Held(TouchLog(log, h, Top(g).ring, k), g') && SameRoots(PartsOf(Outer(g)), PartsOf(g'))
    ensures Flushable(n, TouchLog(log, h, Top(g).ring, k), g'.tree)
  {
    hide Tracing, EndBeforeHung, LaidAll, NotUsedSince, OneEach, AtTail, NoneOpenBelow, FlattenAll, FlattenHung, Flatten, Run, SinceAll, UpToAll, Bounded, Laid, Coming, NothingElse, Leading;
    var q, ps, log' := Top(g).ring, PartsOf(Outer(g)), TouchLog(log, h, Top(g).ring, k);
    TracedStands(n, log, g);
    TopFacts(n, log, g) by { hide Standing; }
    EnterBounded(n, log, h, q);
    PutBounded(n, EnterLog(log, h, q), q, k);
    HeldRoot(log', g');
    if EndBeforeHung(ps, h, log[h].prod) {
      var g1 := UntouchedIsTraced(n, log, g, h, k);
      TracedIsHeld(n, log', g1);
      HeldOnce(log', g', g1);
      TracedStands(n, log', g1);
      LeadingIsComing(g1.tree);
    } else {
      HeldIsUnused(n, log, g, h, k, g');
      var g1 := UnusedIsHeld(n, log, g, h, k);
      HeldOnce(log', g', g1);
    }
  }

  lemma Empties(a: seq<Slot>, b: seq<Slot>, c: seq<Slot>)
    ensures a + [] + b + c == a + b + c + []
  {
  }

  lemma GroveOrder(n: nat, log: seq<LogRing>, g: Grove, h: nat)
    requires Tracing(n, log, g) && MayRecord(log, g, h)
    ensures FlattenAll(g) == FlattenHung(PartsOf(Outer(g))) + Flatten(Top(g))
  {
    hide Tracing, FlattenAll, FlattenHung, Flatten, MayRecord;
    Around(n, log, g, h);
  }

  lemma {:induction false} AwayHasNoWords(b: Bracket, y: nat)
    requires Away(b, y)
    ensures forall x | x in Flatten(b) :: x.ring != y
    decreases b, 1
  {
    AwaySpanHasNoWords(b.ring, b.depth, b.body, y);
  }

  lemma {:induction false} AwaySpanHasNoWords(ring: nat, depth: nat, s: Span, y: nat)
    requires AwaySpan(s, y) && ring != y
    ensures forall x | x in FlattenSpan(ring, depth, s) :: x.ring != y
    decreases s, 0
  {
    hide Away, Flatten;
    RunsOver(ring, depth, s.from, if s.Done? then s.to else s.at);
    if s.Cut? {
      AwayHasNoWords(s.sub, y);
      AwaySpanHasNoWords(ring, depth, s.rest, y);
    }
  }

  /** Nothing that has been logged since is on a ring that no bracket since is on. */
  lemma {:induction false} SinceIsElsewhere(log: seq<LogRing>, it: LogIntr, b: Bracket, c: Cursor, h: nat, y: nat)
    requires Fits(log, c) && it.ring < |log| && h < |log| && y < |log| && Laid(log, it, b, c) && !EndBefore(b, h, log[h].prod)
    requires log[h].depth < log[y].depth && RestAway(b, h, log[h].prod, y)
    ensures forall x | x in Since(b, h, log[h].prod) :: x.ring != y
    decreases b, 1
  {
    if !IsTouched(b, h, log[h].prod) {
      TouchIsDeepIn(log, h, it, b, c);
      SinceSpanIsElsewhere(log, b.ring, End(log, it), b.open, b.body, c, h, y);
    }
  }

  lemma {:induction false} SinceSpanIsElsewhere(log: seq<LogRing>, r: nat, last: nat, open: bool, s: Span, c: Cursor, h: nat, y: nat)
    requires Fits(log, c) && r < |log| && h < |log| && y < |log| && r != y && LaidSpan(log, r, last, open, s, c)
    requires log[h].depth < log[y].depth && RestAwaySpan(s, h, log[h].prod, y)
    ensures forall x | x in SinceSpan(r, log[r].depth, s, h, log[h].prod) :: x.ring != y
    decreases s, 0
  {
    hide Laid, After, Away, RestAway, EndBefore, Since, Flatten;
    if s.Cut? {
      CutMeets(log, r, last, open, s, c);
      var it := log[r].pend[c.p[r]];
      var c1 := PassIntr(c, r, s.at);
      if EndBefore(s.sub, h, log[h].prod) {
        SinceSpanIsElsewhere(log, r, last, open, s.rest, After(s.sub, c1), h, y);
      } else {
        SinceIsElsewhere(log, it, s.sub, c1, h, y);
        AwaySpanHasNoWords(r, log[r].depth, s.rest, y);
      }
    }
  }

  lemma {:induction false} SinceAllIsElsewhere(log: seq<LogRing>, ps: seq<Bracket>, c: Cursor, h: nat, y: nat)
    requires Fits(log, c) && h < |log| && y < |log| && LaidAll(log, ps, c) && !EndBeforeHung(ps, h, log[h].prod)
    requires log[h].depth < log[y].depth && RestAwayAll(ps, h, log[h].prod, y)
    ensures forall x | x in SinceAll(ps, h, log[h].prod) :: x.ring != y
    decreases |ps|
  {
    hide Laid, After, Away, RestAway, EndBefore, Since, Flatten;
    var b, c1 := Last(ps), AfterHung(Others(ps), c);
    if EndBeforeHung(Others(ps), h, log[h].prod) {
      SinceIsElsewhere(log, HungIntr(b), b, c1, h, y);
    } else {
      SinceAllIsElsewhere(log, Others(ps), c, h, y);
      AwayHasNoWords(b, y);
    }
  }

  /** Something touched, and words logged since: whatever tree the rings hold, these words are read after what
      the handler logs. */
  lemma SomethingSinceBreaksOrder(n: nat, log: seq<LogRing>, g: Grove, h: nat, k: nat)
    requires Tracing(n, log, g) && MayRecord(log, g, h) && 0 < k && log[Top(g).ring].prod + k < log[Top(g).ring].cons + n
    requires !EndBeforeHung(PartsOf(Outer(g)), h, log[h].prod) && LoggedSince(log, g, h) != []
    ensures !KeepsOrder(log, g, h, k)
  {
    hide Tracing, EndBefore, EndBeforeHung, Held, OneEach, AtTail, NoneOpenBelow, FlattenAll, FlattenHung, Flatten, Run, SinceAll, UpToAll, AllParts, AllLead, LaidAll, RestAwayAll, Laid, Away, AfterHung, NoneOpenHung, Bounded;
    var q, d, ps := Top(g).ring, Top(g), PartsOf(Outer(g));
    if KeepsOrder(log, g, h, k) {
      var words := Run(q, log[q].depth, log[q].prod, log[q].prod + k);
      var g' :| SameRoots(ps, PartsOf(g')) && Held(TouchLog(log, h, q, k), g') && FlattenAll(g') == FlattenAll(g) + words;
      HeldIsUnused(n, log, g, h, k, g');
      ReadOrder(n, log, g, h, k, g');
      Around(n, log, g, h);
      OnSame(d, k) by { hide Found; }
      SinceAllIsElsewhere(log, ps, Start(log), h, q);
      WordsOn(q, log[q].depth, log[q].prod, k);
      SameLast(LoggedUpTo(log, g, h) + Flatten(d) + words, LoggedSince(log, g, h), LoggedUpTo(log, g, h) + LoggedSince(log, g, h) + Flatten(d), words);
    }
  }

  lemma WordsOn(q: nat, depth: nat, pos: nat, k: nat)
    requires 0 < k
    ensures var words := Run(q, depth, pos, pos + k); words != [] && Last(words).ring == q
  {
    RunsOver(q, depth, pos, pos + k);
    var words := Run(q, depth, pos, pos + k);
    assert Last(words) in words;
  }

  lemma SameLast(a: seq<Slot>, b: seq<Slot>, c: seq<Slot>, d: seq<Slot>)
    requires a + b == c + d
    ensures b != [] && d != [] ==> Last(d) in b
  {
    if b != [] && d != [] { assert Last(a + b) == Last(b) && Last(c + d) == Last(d) && Last(b) in b; }
  }

  // ---- a flush that is under way ---------------------------------------------------------------------

  /** The record may come between the get pass and the discard pass of a flush. The words that the vectors carry,
      `flight`, are then still the first on the rings if and only if they do not go beyond the touched span. */
  lemma FlightFits(n: nat, log: seq<LogRing>, g: Grove, h: nat, k: nat, g': Grove, flight: seq<Slot>)
    requires Tracing(n, log, g) && MayRecord(log, g, h) && 0 < k && log[Top(g).ring].prod + k < log[Top(g).ring].cons + n
    requires Held(TouchLog(log, h, Top(g).ring, k), g') && SameRoots(PartsOf(Outer(g)), PartsOf(g'))
    requires flight <= LoggedUpTo(log, g, h) + LoggedSince(log, g, h)
    ensures flight <= FlattenAll(g') <==> |flight| <= |LoggedUpTo(log, g, h)|
  {
    hide Tracing, EndBefore, EndBeforeHung, OneEach, AtTail, NoneOpenBelow, FlattenAll, FlattenHung, Flatten, Run, SinceAll, UpToAll, AllParts, AllLead, LaidAll, RestAwayAll, Laid, Away, AfterHung, NoneOpenHung, Bounded, Held;
    var q, d, ps := Top(g).ring, Top(g), PartsOf(Outer(g));
    var words := Run(q, log[q].depth, log[q].prod, log[q].prod + k);
    ReadOrder(n, log, g, h, k, g');
    HeldIsUnused(n, log, g, h, k, g');
    Around(n, log, g, h);
    WordsOn(q, log[q].depth, log[q].prod, k);
    if EndBeforeHung(ps, h, log[h].prod) {
      SplitAllThere(ps, h, log[h].prod);
    } else {
      forall x, y | x in LoggedSince(log, g, h) && y in Flatten(d) + words
        ensures x != y
      {
        InterruptorWord(log, h, q, k, d, y);
        OnRings(log, Recorded(log, h, q), d, AfterHung(ps, Start(log)), y.ring);
        SinceAllIsElsewhere(log, ps, Start(log), h, y.ring);
      }
    }
    PrefixOf(flight, LoggedUpTo(log, g, h), LoggedSince(log, g, h), Flatten(d) + words);
    AssociateFour(LoggedUpTo(log, g, h), Flatten(d), words, LoggedSince(log, g, h));
    Associate(LoggedUpTo(log, g, h), Flatten(d) + words, LoggedSince(log, g, h));
    Associate(LoggedUpTo(log, g, h), Flatten(d), words);
  }

  lemma {:induction false} OnRings(log: seq<LogRing>, it: LogIntr, b: Bracket, c: Cursor, y: nat)
    requires Fits(log, c) && it.ring < |log| && Laid(log, it, b, c)
    ensures !Away(b, y) ==> y < |log|
    decreases b, 1
  {
    OnRingsSpan(log, b.ring, End(log, it), b.open, b.body, c, y);
  }

  lemma {:induction false} OnRingsSpan(log: seq<LogRing>, r: nat, last: nat, open: bool, s: Span, c: Cursor, y: nat)
    requires Fits(log, c) && r < |log| && LaidSpan(log, r, last, open, s, c)
    ensures !AwaySpan(s, y) ==> y < |log|
    decreases s, 0
  {
    hide Laid, After, Away;
    if s.Cut? {
      CutMeets(log, r, last, open, s, c);
      OnRings(log, log[r].pend[c.p[r]], s.sub, PassIntr(c, r, s.at), y);
      OnRingsSpan(log, r, last, open, s.rest, After(s.sub, PassIntr(c, r, s.at)), y);
    }
  }

  /** A word of the interruption is on a ring of its. */
  lemma InterruptorWord(log: seq<LogRing>, h: nat, q: nat, k: nat, d: Bracket, y: Slot)
    requires q < |log| && d.ring == q && y in Flatten(d) + Run(q, log[q].depth, log[q].prod, log[q].prod + k)
    ensures !Away(d, y.ring)
  {
    RunsOver(q, log[q].depth, log[q].prod, log[q].prod + k);
    if Away(d, y.ring) { AwayHasNoWords(d, y.ring); }
  }

  lemma PrefixOf(flight: seq<Slot>, upTo: seq<Slot>, since: seq<Slot>, inner: seq<Slot>)
    requires flight <= upTo + since && inner != []
    requires forall x, y | x in since && y in inner :: x != y
    ensures flight <= upTo + (inner + since) <==> |flight| <= |upTo|
  {
    var m, all := |upTo|, upTo + (inner + since);
    assert all[m] == inner[0] && all[..m] == upTo;
    if m < |flight| {
      assert flight[m] == (upTo + since)[m] == since[0];
      assert since[0] in since && inner[0] in inner;
    } else {
      assert flight == upTo[..|flight|] == all[..|flight|];
    }
  }

  /** They are read in program order if and only if no finished span of the interrupted ring ends there, or
      nothing that the thread has logged since such a span is left on the rings. */
  lemma InOrderExactly(n: nat, log: seq<LogRing>, g: Grove, h: nat, k: nat)
    requires Tracing(n, log, g) && g.tree.ring < |log| && MayRecord(log, g, h)
    requires 0 < k && log[Top(g).ring].prod + k < log[Top(g).ring].cons + n
    ensures KeepsOrder(log, g, h, k) <==> Untouched(log, g.tree.ring, h) || LoggedSince(log, g, h) == []
  {
    hide Tracing, MayRecord, KeepsOrder, EndBefore, EndBeforeHung, Untouched, SinceAll;
    MayIs(log, g, h);
    var ps, e := PartsOf(Outer(g)), log[h].prod;
    if EndBeforeHung(ps, h, e) {
      UntouchedKeepsOrder(n, log, g, h, k);
      SplitAllThere(ps, h, e);
    } else {
      if Untouched(log, g.tree.ring, h) { UntouchedEndsBefore(n, log, g, h); }
      if LoggedSince(log, g, h) == [] { NothingSinceKeepsOrder(n, log, g, h, k); } else { SomethingSinceBreaksOrder(n, log, g, h, k); }
    }
  }

  /** Something touched, and nothing logged since. */
  lemma NothingSinceKeepsOrder(n: nat, log: seq<LogRing>, g: Grove, h: nat, k: nat)
    requires Tracing(n, log, g) && MayRecord(log, g, h)
    requires !EndBeforeHung(PartsOf(Outer(g)), h, log[h].prod) && LoggedSince(log, g, h) == []
    ensures KeepsOrder(log, g, h, k)
  {
    hide Tracing, EndBefore, EndBeforeHung, Held, OneEach, AtTail, NoneOpenBelow, FlattenAll, FlattenHung, Flatten, Run, SinceAll, UpToAll, AllParts, AllLead, LaidAll, RestAwayAll, Laid, Away, AfterHung, NoneOpenHung, Bounded;
    var q, d, e, ps := Top(g).ring, Top(g), log[h].prod, PartsOf(Outer(g));
    Around(n, log, g, h);
    forall y | 0 <= y < |log| && !Away(d, y)
      ensures RestAwayAll(ps, h, e, y)
    {
      NoneSinceInAll(ps, h, e, y);
    }
    var g' := UnusedIsHeld(n, log, g, h, k);
    SplitAllThere(ps, h, e);
    Empties(UpToAll(ps, h, e), Flatten(d), Run(q, log[q].depth, log[q].prod, log[q].prod + k));
  }

  lemma MayIs(log: seq<LogRing>, g: Grove, h: nat)
    requires MayRecord(log, g, h)
    ensures h < |log| && g.hung != [] && Top(g).ring < |log|
  {
  }

  lemma {:induction false} UntouchedParts(log: seq<LogRing>, root: nat, h: nat, ps: seq<Bracket>, c: Cursor)
    requires Fits(log, c) && root < |log| && h < |log| && LaidAll(log, ps, c) && Untouched(log, root, h) && Ahead(log, c)
    requires forall i | 0 <= i < |ps| :: ps[i].ring < |log| && Below(log, root, ps[i].ring)
    ensures EndBeforeHung(ps, h, log[h].prod)
    decreases |ps|
  {
    hide Laid, After, EndBefore, Untouched;
    if ps != [] {
      var b, c1 := Last(ps), AfterHung(Others(ps), c);
      UntouchedParts(log, root, h, Others(ps), c);
      AllMove(log, Others(ps), c);
      assert b == ps[|ps| - 1];
      EndBeforeIf(log, root, h, HungIntr(b), b, c1);
    }
  }

  lemma UntouchedEndsBefore(n: nat, log: seq<LogRing>, g: Grove, h: nat)
    requires Tracing(n, log, g) && g.hung != [] && h < |log| && g.tree.ring < |log| && Untouched(log, g.tree.ring, h)
    ensures EndBeforeHung(PartsOf(Outer(g)), h, log[h].prod)
  {
    hide Laid, After, EndBefore, EndBeforeHung, Untouched, Leading, Bounded, Fresh, NothingElse, Standing, LaidAll;
    var o := Outer(g);
    TracedStands(n, log, g);
    OuterStands(n, log, g);
    StandingIsLaid(n, log, o);
    StartIsShort(n, log) by { TopFacts(n, log, o); }
    PartsAreBelow(n, log, o);
    UntouchedParts(log, g.tree.ring, h, PartsOf(o), Start(log));
  }

  lemma {:induction false} PartsAreBelow(n: nat, log: seq<LogRing>, g: Grove)
    requires Standing(n, log, g)
    ensures g.tree.ring < |log| && forall i | 0 <= i < |PartsOf(g)| :: PartsOf(g)[i].ring < |log| && Below(log, g.tree.ring, PartsOf(g)[i].ring)
    decreases |g.hung|
  {
    hide Laid, After, Leading, Bounded, Fresh, Hanging;
    TopFacts(n, log, g);
    if g.hung != [] {
      OuterStands(n, log, g);
      PartsAreBelow(n, log, Outer(g));
      OneMorePart(g.tree, g.hung);
      forall i | 0 <= i < |PartsOf(g)|
        ensures PartsOf(g)[i].ring < |log| && Below(log, g.tree.ring, PartsOf(g)[i].ring)
      {
        if i < |PartsOf(g)| - 1 { assert PartsOf(g)[i] == PartsOf(Outer(g))[i]; }
      }
    }
  }
}
