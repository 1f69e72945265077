/** How the rings of one thread hold its tree of events.

    `LogRing` is what a ring and its interruptions ring mean, with absolute positions
    for words and absolute numbers for interruptions. `Laid` says that an in-order
    walk of the tree finds every word and every interruption exactly where the walk
    has got to on their ring. */
module EventLog {
  import opened Basics
  import opened EventTree

  /** An interruption: the interrupting ring, where it interrupted, and the span of the
      interrupting ring that belongs to it. `eidx` means nothing while it is open. */
  datatype LogIntr = LogIntr(ring: nat, at: nat, sidx: nat, eidx: nat, open: bool)

  /** Words `cons..prod` of the ring are unserialized, and so are the interruptions from
      number `pcons` on. */
  datatype LogRing = LogRing(cons: nat, prod: nat, tid: nat, depth: nat, pcons: nat, pend: seq<LogIntr>)

  /** How far a walk has got on each ring: words and interruptions. */
  datatype Cursor = Cursor(w: seq<nat>, p: seq<nat>)

  predicate Fits(log: seq<LogRing>, c: Cursor)
  {
    |c.w| == |log| && |c.p| == |log|
  }

  /** The cursor before anything: every ring at its consumer. */
  function Start(log: seq<LogRing>): (c: Cursor)
    ensures Fits(log, c)
  {
    Cursor(seq(|log|, q requires 0 <= q < |log| => log[q].cons), seq(|log|, q requires 0 <= q < |log| => log[q].pcons))
  }

  function MoveTo(c: Cursor, r: nat, pos: nat): (c': Cursor)
    ensures |c'.w| == |c.w| && |c'.p| == |c.p|
  {
    if r < |c.w| then c.(w := c.w[r := pos]) else c
  }

  function PassIntr(c: Cursor, r: nat, pos: nat): (c': Cursor)
    ensures |c'.w| == |c.w| && |c'.p| == |c.p|
  {
    if r < |c.w| && r < |c.p| then Cursor(c.w[r := pos], c.p[r := c.p[r] + 1]) else c
  }

  /** The cursor after a walk of a bracket. */
  function After(b: Bracket, c: Cursor): (c': Cursor)
    ensures |c'.w| == |c.w| && |c'.p| == |c.p|
    decreases b, 1
  {
    AfterSpan(b.ring, b.body, c)
  }

  function AfterSpan(r: nat, s: Span, c: Cursor): (c': Cursor)
    ensures |c'.w| == |c.w| && |c'.p| == |c.p|
    decreases s, 0
  {
    match s
    case Done(_, to, _) => MoveTo(c, r, to)
    case Cut(_, at, sub, rest) => AfterSpan(r, rest, After(sub, PassIntr(c, r, at)))
  }

  function End(log: seq<LogRing>, it: LogIntr): nat
    requires it.ring < |log|
  {
    if it.open then log[it.ring].prod else it.eidx
  }

  /** Interruption `it` holds bracket `b`, from cursor `c` on. */
  predicate Laid(log: seq<LogRing>, it: LogIntr, b: Bracket, c: Cursor)
    requires Fits(log, c)
    decreases b, 1
  {
    b.ring == it.ring < |log| && b.depth == log[b.ring].depth && b.open == it.open &&
    b.body.from == it.sidx == c.w[b.ring] && End(log, it) <= log[b.ring].prod &&
    LaidSpan(log, b.ring, End(log, it), b.open, b.body, c)
  }

  /** Ring `r` holds span `s` from cursor `c` up to position `last`. An interruption at the end of a span
      is the span's, also when the span is finished: that is how the passes take it, rightly or not
      (module `Touching`). */
  predicate LaidSpan(log: seq<LogRing>, r: nat, last: nat, open: bool, s: Span, c: Cursor)
    requires Fits(log, c) && r < |log|
    decreases s, 0
  {
    s.from == c.w[r] &&
    match s
    case Done(from, to, more) =>
      from <= to == last && more == (c.p[r] < |log[r].pend|) &&
      (more ==> last < log[r].pend[c.p[r]].at)
    case Cut(from, at, sub, rest) =>
      c.p[r] < |log[r].pend| &&
      var it := log[r].pend[c.p[r]];
      from <= at == it.at <= last && rest.from == at &&
      it.ring < |log| && Under(log, r, it.ring) &&
      Laid(log, it, sub, PassIntr(c, r, at)) &&
      LaidSpan(log, r, last, open, rest, After(sub, PassIntr(c, r, at)))
  }

  /** A thread's ring, read as one unfinished bracket from its consumer on. */
  function RootIntr(log: seq<LogRing>, r: nat): LogIntr
    requires r < |log|
  {
    LogIntr(r, 0, log[r].cons, 0, true)
  }

  /** A thread's ring holds the tree `b`. */
  predicate LaidRoot(log: seq<LogRing>, b: Bracket)
  {
    b.ring < |log| && Laid(log, RootIntr(log, b.ring), b, Start(log))
  }

  /** Everything on ring `q` has been walked. */
  predicate WalkedAll(log: seq<LogRing>, c: Cursor, q: nat)
    requires Fits(log, c) && q < |log|
  {
    c.w[q] == log[q].prod && c.p[q] == |log[q].pend|
  }

  /** A ring that holds nothing: no unserialized word, and no interruption that has not been dropped. */
  predicate Clean(log: seq<LogRing>, q: nat)
  {
    q < |log| && log[q].cons == log[q].prod && log[q].pcons == |log[q].pend|
  }

  /** The tree is all that its thread's rings hold. */
  predicate AllWalked(log: seq<LogRing>, t: Bracket)
    requires t.ring < |log|
  {
    forall q | 0 <= q < |log| && Below(log, t.ring, q) :: WalkedAll(log, After(t, Start(log)), q)
  }

  // ---- what a walk depends on ------------------------------------------------

  /** Ring `q` may interrupt ring `r`: it is of the same thread, and deeper. */
  predicate Under(log: seq<LogRing>, r: nat, q: nat)
    requires r < |log| && q < |log|
  {
    log[r].depth < log[q].depth && log[r].tid == log[q].tid
  }

  /** The rings that a walk of ring `r` may visit. */
  predicate Below(log: seq<LogRing>, r: nat, q: nat)
    requires r < |log| && q < |log|
  {
    q == r || Under(log, r, q)
  }

  /** From their cursors on, two logs hold the same on the rings below `r`. */
  predicate Agree(log: seq<LogRing>, log': seq<LogRing>, c: Cursor, c': Cursor, r: nat)
    requires Fits(log, c) && Fits(log', c') && r < |log| == |log'|
  {
    (forall q | 0 <= q < |log| :: log[q].depth == log'[q].depth && log[q].tid == log'[q].tid) &&
    (forall q | 0 <= q < |log| && Below(log, r, q) ::
       log[q].prod == log'[q].prod && c.w[q] == c'.w[q] && c.p[q] == c'.p[q] &&
       |log[q].pend| == |log'[q].pend|) &&
    (forall q, k | 0 <= q < |log| && Below(log, r, q) && c.p[q] <= k < |log[q].pend| ::
       log[q].pend[k] == log'[q].pend[k])
  }

  /** Two cursors agree on the rings below `r`. */
  predicate SameBelow(log: seq<LogRing>, r: nat, c: Cursor, d: Cursor)
    requires Fits(log, c) && Fits(log, d) && r < |log|
  {
    forall q | 0 <= q < |log| && Below(log, r, q) :: c.w[q] == d.w[q] && c.p[q] == d.p[q]
  }

  /** A walk below `r` moves a cursor `c` to `d`: forwards, and on no other ring. */
  predicate MovedBelow(log: seq<LogRing>, r: nat, c: Cursor, d: Cursor)
    requires Fits(log, c) && Fits(log, d) && r < |log|
  {
    (forall q | 0 <= q < |log| :: c.w[q] <= d.w[q] && c.p[q] <= d.p[q]) &&
    (forall q | 0 <= q < |log| && !Below(log, r, q) :: c.w[q] == d.w[q] && c.p[q] == d.p[q])
  }

  lemma {:induction false} AfterMoves(log: seq<LogRing>, it: LogIntr, b: Bracket, c: Cursor)
    requires Fits(log, c) && it.ring < |log| && Laid(log, it, b, c)
    ensures MovedBelow(log, it.ring, c, After(b, c))
    ensures After(b, c).w[it.ring] == End(log, it)
    decreases b, 1
  {
    AfterSpanMoves(log, b.ring, End(log, it), b.open, b.body, c);
  }

  lemma {:induction false} AfterSpanMoves(log: seq<LogRing>, r: nat, last: nat, open: bool, s: Span, c: Cursor)
    requires Fits(log, c) && r < |log| && LaidSpan(log, r, last, open, s, c)
    ensures MovedBelow(log, r, c, AfterSpan(r, s, c)) && AfterSpan(r, s, c).w[r] == last
    decreases s, 0
  {
    if s.Cut? {
      var it := log[r].pend[c.p[r]];
      var c1 := PassIntr(c, r, s.at);
      AfterMoves(log, it, s.sub, c1);
      BelowIsBelow(log, r, it.ring);
      AfterSpanMoves(log, r, last, open, s.rest, After(s.sub, c1));
    }
  }

  lemma BelowIsBelow(log: seq<LogRing>, r: nat, q: nat)
    requires r < |log| && q < |log| && Under(log, r, q)
    ensures forall x | 0 <= x < |log| && Below(log, q, x) :: Below(log, r, x) && x != r
    ensures Below(log, r, r)
  {
  }

  lemma {:induction false} LaidFrame(log: seq<LogRing>, log': seq<LogRing>, it: LogIntr, b: Bracket, c: Cursor, c': Cursor)
    requires Fits(log, c) && Fits(log', c') && it.ring < |log| == |log'|
    requires Agree(log, log', c, c', it.ring) && Laid(log, it, b, c)
    ensures Laid(log', it, b, c') && SameBelow(log, it.ring, After(b, c), After(b, c'))
    decreases b, 1
  {
    assert Below(log, it.ring, it.ring);
    LaidSpanFrame(log, log', b.ring, End(log, it), b.open, b.body, c, c');
  }

  lemma {:induction false} LaidSpanFrame(log: seq<LogRing>, log': seq<LogRing>, r: nat, last: nat, open: bool, s: Span, c: Cursor, c': Cursor)
    requires Fits(log, c) && Fits(log', c') && r < |log| == |log'|
    requires Agree(log, log', c, c', r) && LaidSpan(log, r, last, open, s, c)
    ensures LaidSpan(log', r, last, open, s, c') && SameBelow(log, r, AfterSpan(r, s, c), AfterSpan(r, s, c'))
    decreases s, 0
  {
    assert Below(log, r, r);
    if s.Cut? {
      var it := log[r].pend[c.p[r]];
      var c1, c1' := PassIntr(c, r, s.at), PassIntr(c', r, s.at);
      BelowIsBelow(log, r, it.ring);
      assert log'[r].pend[c'.p[r]] == it;
      AgreeIn(log, log', c, c', r, c1, c1', it.ring);
      LaidFrame(log, log', it, s.sub, c1, c1');
      AfterMoves(log, it, s.sub, c1);
      AfterMoves(log', it, s.sub, c1');
      AgreeOn(log, log', c, c', r, c1, c1', it.ring, After(s.sub, c1), After(s.sub, c1'));
      LaidSpanFrame(log, log', r, last, open, s.rest, After(s.sub, c1), After(s.sub, c1'));
    }
  }

  lemma AgreeIn(log: seq<LogRing>, log': seq<LogRing>, c: Cursor, c': Cursor, r: nat, c1: Cursor, c1': Cursor, q: nat)
    requires Fits(log, c) && Fits(log', c') && r < |log| == |log'| && Agree(log, log', c, c', r)
    requires q < |log| && Under(log, r, q)
    requires Fits(log, c1) && Fits(log, c1')
    requires forall x | 0 <= x < |log| && x != r :: c1.w[x] == c.w[x] && c1.p[x] == c.p[x] && c1'.w[x] == c'.w[x] && c1'.p[x] == c'.p[x]
    ensures Agree(log, log', c1, c1', q)
  {
    BelowIsBelow(log, r, q);
  }

  lemma AgreeOn(log: seq<LogRing>, log': seq<LogRing>, c: Cursor, c': Cursor, r: nat, c1: Cursor, c1': Cursor, q: nat, c2: Cursor, c2': Cursor)
    requires Fits(log, c) && Fits(log', c') && r < |log| == |log'| && Agree(log, log', c, c', r)
    requires q < |log| && Under(log, r, q)
    requires Fits(log, c1) && Fits(log, c1') && Fits(log, c2) && Fits(log, c2')
    requires forall x | 0 <= x < |log| && x != r :: c1.w[x] == c.w[x] && c1.p[x] == c.p[x] && c1'.w[x] == c'.w[x] && c1'.p[x] == c'.p[x]
    requires c1.w[r] == c1'.w[r] && c1.p[r] == c1'.p[r] == c.p[r] + 1
    requires MovedBelow(log, q, c1, c2) && MovedBelow(log', q, c1', c2') && SameBelow(log, q, c2, c2')
    ensures Agree(log, log', c2, c2', r)
  {
    BelowIsBelow(log, r, q);
    forall x | 0 <= x < |log| && Below(log, r, x)
      ensures c2.w[x] == c2'.w[x] && c2.p[x] == c2'.p[x] && c2.p[x] >= c.p[x]
    {
      assert Below(log, q, x) <==> Below(log', q, x);
    }
  }

  // ---- positions ---------------------------------------------------------------

  /** What every ring of n slots keeps: it is never full, its unserialized interruptions
      lie among its unserialized words, in order, and there are fewer of them than
      there are slots for them. */
  predicate Bounded(n: nat, log: seq<LogRing>)
  {
    forall q | 0 <= q < |log| :: BoundedRing(n, |log|, log[q])
  }

  predicate BoundedRing(n: nat, nrings: nat, l: LogRing)
  {
    l.cons <= l.prod < l.cons + n && l.pcons <= |l.pend| < l.pcons + 8 &&
    (forall k | l.pcons <= k < |l.pend| :: l.cons <= l.pend[k].at <= l.prod && l.pend[k].ring < nrings) &&
    (forall j, k | l.pcons <= j < k < |l.pend| :: l.pend[j].at <= l.pend[k].at)
  }

  predicate Ahead(log: seq<LogRing>, c: Cursor)
    requires Fits(log, c)
  {
    forall q | 0 <= q < |log| :: log[q].cons <= c.w[q] && log[q].pcons <= c.p[q]
  }

  lemma {:induction false} LaidIsOrdered(n: nat, log: seq<LogRing>, it: LogIntr, b: Bracket, c: Cursor)
    requires Fits(log, c) && it.ring < |log| && Laid(log, it, b, c) && Bounded(n, log) && Ahead(log, c)
    ensures Ordered(n, b)
    decreases b, 1
  {
    LaidSpanIsOrdered(n, log, b.ring, End(log, it), b.open, b.body, c);
  }

  lemma {:induction false} LaidSpanIsOrdered(n: nat, log: seq<LogRing>, r: nat, last: nat, open: bool, s: Span, c: Cursor)
    requires Fits(log, c) && r < |log| && LaidSpan(log, r, last, open, s, c) && last <= log[r].prod
    requires Bounded(n, log) && Ahead(log, c)
    ensures OrderedSpan(n, log[r].depth, s)
    decreases s, 0
  {
    assert BoundedRing(n, |log|, log[r]);
    if s.Cut? {
      var it := log[r].pend[c.p[r]];
      var c1 := PassIntr(c, r, s.at);
      AfterMoves(log, it, s.sub, c1);
      LaidIsOrdered(n, log, it, s.sub, c1);
      LaidSpanIsOrdered(n, log, r, last, open, s.rest, After(s.sub, c1));
    }
  }

  /** On the rings deeper than `depth`, the interruptions that a walk has passed lie
      before the words that it has reached. */
  predicate Passed(log: seq<LogRing>, depth: int, c: Cursor)
    requires Fits(log, c)
  {
    forall q, k | 0 <= q < |log| && depth < log[q].depth && log[q].pcons <= k < c.p[q] && k < |log[q].pend| ::
      log[q].pend[k].at < c.w[q]
  }

  lemma {:induction false} WholeHasWords(log: seq<LogRing>, r: nat, last: nat, open: bool, s: Span, c: Cursor)
    requires Fits(log, c) && r < |log| && LaidSpan(log, r, last, open, s, c) && WholeSpan(s)
    ensures s.from < last
    decreases s
  {
    hide Laid, After;
    if s.Cut? { WholeHasWords(log, r, last, open, s.rest, After(s.sub, PassIntr(c, r, s.at))); }
  }

  lemma {:induction false} WholePasses(log: seq<LogRing>, it: LogIntr, b: Bracket, c: Cursor, depth: int)
    requires Fits(log, c) && it.ring < |log| && Laid(log, it, b, c) && Whole(b)
    requires depth < log[it.ring].depth && Passed(log, depth, c)
    ensures Passed(log, depth, After(b, c))
    decreases b, 1
  {
    AfterMoves(log, it, b, c);
    WholeSpanPasses(log, b.ring, End(log, it), b.open, b.body, c, depth);
  }

  lemma {:induction false} WholeSpanPasses(log: seq<LogRing>, r: nat, last: nat, open: bool, s: Span, c: Cursor, depth: int)
    requires Fits(log, c) && r < |log| && LaidSpan(log, r, last, open, s, c) && depth < log[r].depth && WholeSpan(s)
    requires Passed(log, log[r].depth, c)
    requires forall q, k | 0 <= q < |log| && depth < log[q].depth && q != r && log[q].pcons <= k < c.p[q] && k < |log[q].pend| ::
               log[q].pend[k].at < c.w[q]
    requires forall k | log[r].pcons <= k < c.p[r] && k < |log[r].pend| :: log[r].pend[k].at < last
    ensures Passed(log, depth, AfterSpan(r, s, c))
    decreases s, 0
  {
    if s.Cut? {
      var it := log[r].pend[c.p[r]];
      var c1 := PassIntr(c, r, s.at);
      assert Passed(log, log[r].depth, c1);
      WholePasses(log, it, s.sub, c1, log[r].depth);
      var c2 := After(s.sub, c1);
      AfterMoves(log, it, s.sub, c1);
      BelowIsBelow(log, r, it.ring);
      assert !Below(log, it.ring, r);
      WholeHasWords(log, r, last, open, s.rest, c2);
      WholeSpanPasses(log, r, last, open, s.rest, c2, depth);
    }
  }

  // ---- a pass that takes from the front of a bracket -------------------------------

  /** `log` has become `log'` while a bracket on ring `r` was read from the front. Cursor
      `a` is at the bracket's end: nothing from there on has changed. If the bracket is an
      interruption, it is the first one of ring `host`, and its start has moved along. */
  predicate Shrunk(log: seq<LogRing>, log': seq<LogRing>, host: Option<nat>, r: nat, a: Cursor)
    requires Fits(log, a) && r < |log|
  {
    |log| == |log'| &&
    (forall q | 0 <= q < |log| && Below(log, r, q) :: ShrunkRing(log[q], log'[q], a.p[q])) &&
    (forall q | 0 <= q < |log| && !Below(log, r, q) ::
       if host == Some(q) then HeadMoved(log[q], log'[q]) else log'[q] == log[q])
  }

  predicate ShrunkRing(l: LogRing, l': LogRing, p: nat)
  {
    l.prod == l'.prod && l.tid == l'.tid && l.depth == l'.depth && |l.pend| == |l'.pend| &&
    l.cons <= l'.cons && l.pcons <= l'.pcons &&
    (forall k | p <= k < |l.pend| :: l.pend[k] == l'.pend[k]) &&
    forall k | l'.pcons <= k < |l.pend| :: SameButStart(l.pend[k], l'.pend[k])
  }

  /** The words of an interruption may have been read in part. */
  predicate SameButStart(i: LogIntr, i': LogIntr)
  {
    i' == i.(sidx := i'.sidx)
  }

  predicate HeadMoved(l: LogRing, l': LogRing)
  {
    l.pcons < |l.pend| == |l'.pend| && l' == WithHead(l, l'.pend[l.pcons].sidx)
  }

  /** The first interruption of the ring now starts at `sidx`. */
  function WithHead(l: LogRing, sidx: nat): LogRing
    requires l.pcons < |l.pend|
  {
    l.(pend := l.pend[l.pcons := l.pend[l.pcons].(sidx := sidx)])
  }

  /** Interruption `it` is the first of the ring that hosts it. */
  predicate Hosted(log: seq<LogRing>, host: Option<nat>, it: LogIntr)
  {
    it.ring < |log| &&
    match host
    case None => true
    case Some(h) =>
      h < |log| && Under(log, h, it.ring) && log[h].pcons < |log[h].pend| && log[h].pend[log[h].pcons] == it
  }

  /** A pass that found bracket `b` of interruption `it` in `log0` has come to where `log`
      holds the rest `s` of it. */
  predicate Reached(log0: seq<LogRing>, log: seq<LogRing>, host: Option<nat>, it: LogIntr, b: Bracket, s: Span)
  {
    it.ring < |log0| && |log| == |log0| && b.ring == it.ring &&
    Hosted(log0, host, it) && Hosted(log, host, it.(sidx := s.from)) &&
    Shrunk(log0, log, host, it.ring, After(b, Start(log0))) &&
    End(log0, it) <= log[it.ring].prod &&
    LaidSpan(log, it.ring, End(log0, it), it.open, s, Start(log)) &&
    SameBelow(log0, it.ring, After(b, Start(log0)), AfterSpan(it.ring, s, Start(log)))
  }

  lemma ReachedStart(log: seq<LogRing>, host: Option<nat>, it: LogIntr, b: Bracket)
    requires Hosted(log, host, it) && Laid(log, it, b, Start(log))
    ensures Reached(log, log, host, it, b, b.body)
  {
    match host
    case None =>
    case Some(h) => assert WithHead(log[h], it.sidx) == log[h];
  }

  /** What is left of the bracket is laid again. */
  lemma ReachedLaid(log0: seq<LogRing>, log: seq<LogRing>, host: Option<nat>, it: LogIntr, b: Bracket, s: Span)
    requires Reached(log0, log, host, it, b, s) && b.open == it.open && b.depth == log0[it.ring].depth
    ensures Laid(log, it.(sidx := s.from), b.(body := s), Start(log))
  {
    assert Below(log0, it.ring, it.ring);
  }

  lemma ShrunkBelow(log: seq<LogRing>, log': seq<LogRing>, host: Option<nat>, r: nat, a: Cursor)
    requires Fits(log, a) && r < |log| && Shrunk(log, log', host, r, a)
    ensures |log'| == |log|
    ensures forall q | 0 <= q < |log| :: log'[q].depth == log[q].depth && log'[q].tid == log[q].tid && log'[q].prod == log[q].prod && |log'[q].pend| == |log[q].pend|
    ensures forall q, x | 0 <= q < |log| && 0 <= x < |log| :: Below(log, q, x) <==> Below(log', q, x)
  {
    forall q | 0 <= q < |log|
      ensures log'[q].depth == log[q].depth && log'[q].tid == log[q].tid && log'[q].prod == log[q].prod && |log'[q].pend| == |log[q].pend|
    {
      if Below(log, r, q) { assert ShrunkRing(log[q], log'[q], a.p[q]); }
    }
  }

  // ---- its steps: words taken

  function Consumed(log: seq<LogRing>, r: nat, pos: nat): seq<LogRing>
    requires r < |log|
  {
    log[r := log[r].(cons := pos)]
  }

  /** The first interruption of the host, if any, is made to start at `pos`. */
  function Rehosted(log: seq<LogRing>, host: Option<nat>, pos: nat): seq<LogRing>
    requires host.Some? ==> host.value < |log| && log[host.value].pcons < |log[host.value].pend|
  {
    match host
    case None => log
    case Some(h) => log[h := WithHead(log[h], pos)]
  }

  lemma ReachedWords(log0: seq<LogRing>, log: seq<LogRing>, host: Option<nat>, it: LogIntr, b: Bracket, s: Span, pos: nat, log': seq<LogRing>)
    requires Reached(log0, log, host, it, b, s) && s.from <= pos <= (if s.Done? then s.to else s.at)
    requires log' == Rehosted(Consumed(log, it.ring, pos), host, pos)
    ensures Reached(log0, log', host, it, b, s.(from := pos))
  {
    hide LaidSpan, After, AfterSpan;
    var r := it.ring;
    ShrunkBelow(log0, log, host, r, After(b, Start(log0)));
    assert Below(log, r, r) && Below(log0, r, r);
    SpanStarts(log, r, End(log0, it), it.open, s);
    assert log'[r] == log[r].(cons := pos);
    LaidAdvances(log, log', r, End(log0, it), it.open, s, pos);
  }

  lemma SpanStarts(log: seq<LogRing>, r: nat, last: nat, open: bool, s: Span)
    requires r < |log| && LaidSpan(log, r, last, open, s, Start(log))
    ensures s.from == log[r].cons
  {
  }

  lemma LaidAdvances(log: seq<LogRing>, log': seq<LogRing>, r: nat, last: nat, open: bool, s: Span, pos: nat)
    requires r < |log| == |log'| && LaidSpan(log, r, last, open, s, Start(log))
    requires s.from <= pos <= (if s.Done? then s.to else s.at)
    requires log'[r] == log[r].(cons := pos)
    requires forall q | 0 <= q < |log| :: log'[q].depth == log[q].depth && log'[q].tid == log[q].tid && log'[q].pcons == log[q].pcons && (q != r ==> log'[q].cons == log[q].cons)
    requires forall q | 0 <= q < |log| && Below(log, r, q) && q != r :: log'[q] == log[q]
    ensures LaidSpan(log', r, last, open, s.(from := pos), Start(log'))
    ensures AfterSpan(r, s.(from := pos), Start(log')) == AfterSpan(r, s, Start(log))
  {
    if s.Cut? {
      var i := log[r].pend[log[r].pcons];
      var c1 := PassIntr(Start(log), r, s.at);
      assert PassIntr(Start(log'), r, s.at) == c1;
      BelowIsBelow(log, r, i.ring);
      assert Agree(log, log', c1, c1, i.ring);
      LaidFrame(log, log', i, s.sub, c1, c1);
      var c2 := After(s.sub, c1);
      AfterMoves(log, i, s.sub, c1);
      assert Agree(log, log', c2, c2, r);
      LaidSpanFrame(log, log', r, last, open, s.rest, c2, c2);
    } else {
      assert MoveTo(Start(log'), r, s.to) == MoveTo(Start(log), r, s.to);
    }
  }

  // ---- an interruption entered, left, and dropped

  lemma ReachedEnters(log0: seq<LogRing>, log: seq<LogRing>, host: Option<nat>, it: LogIntr, b: Bracket, s: Span)
    requires Reached(log0, log, host, it, b, s) && s.Cut?
    ensures var l := log[it.ring];
            l.pcons < |l.pend| &&
            var i := l.pend[l.pcons];
            i.at == s.at && Hosted(log, Some(it.ring), i) && Laid(log, i, s.sub, Start(log))
    ensures var i := log[it.ring].pend[log[it.ring].pcons];
            SameBelow(log, i.ring, After(s.sub, PassIntr(Start(log), it.ring, s.at)), After(s.sub, Start(log)))
  {
    var r := it.ring;
    var c1 := PassIntr(Start(log), r, s.at);
    var i := log[r].pend[log[r].pcons];
    BelowIsBelow(log, r, i.ring);
    assert Agree(log, log, c1, Start(log), i.ring);
    LaidFrame(log, log, i, s.sub, c1, Start(log));
  }

  /** Passing an interruption of which nothing is left is dropping it. */
  lemma PassSpent(log: seq<LogRing>, log': seq<LogRing>, r: nat, s: Span)
    requires r < |log| && s.Cut? && s.from == s.at == log[r].cons && Spent(s.sub)
    requires s.sub.ring < |log| ==> s.sub.body.from == PassIntr(Start(log), r, s.at).w[s.sub.ring]
    requires log' == log[r := log[r].(pcons := log[r].pcons + 1)]
    ensures After(s.sub, PassIntr(Start(log), r, s.at)) == Start(log')
  {
    var c1 := PassIntr(Start(log), r, s.at);
    assert c1.w == Start(log').w && c1.p == Start(log').p;
    assert After(s.sub, c1) == MoveTo(c1, s.sub.ring, s.sub.body.from);
    assert MoveTo(c1, s.sub.ring, s.sub.body.from).w == c1.w;
  }

  lemma ReachedDrops(log0: seq<LogRing>, log: seq<LogRing>, host: Option<nat>, it: LogIntr, b: Bracket, s: Span, log': seq<LogRing>)
    requires Reached(log0, log, host, it, b, s) && s.Cut? && s.from == s.at && Spent(s.sub)
    requires log' == log[it.ring := log[it.ring].(pcons := log[it.ring].pcons + 1)]
    ensures Reached(log0, log', host, it, b, s.rest)
  {
    var r := it.ring;
    ShrunkBelow(log0, log, host, r, After(b, Start(log0)));
    assert Below(log, r, r);
    var c2 := After(s.sub, PassIntr(Start(log), r, s.at));
    assert Laid(log, log[r].pend[log[r].pcons], s.sub, PassIntr(Start(log), r, s.at));
    PassSpent(log, log', it.ring, s);
    assert Agree(log, log', c2, c2, r);
    LaidSpanFrame(log, log', r, End(log0, it), it.open, s.rest, c2, c2);
  }

  /** Once a pass has read the first interruption `i` of the span down to `l`, the rest of
      the span is still in place. */
  lemma ReachedLeaves(log0: seq<LogRing>, log1: seq<LogRing>, host: Option<nat>, it: LogIntr, b: Bracket, s: Span,
                      i: LogIntr, log2: seq<LogRing>, l: Bracket)
    requires Reached(log0, log1, host, it, b, s) && s.Cut? && log1[it.ring].pcons < |log1[it.ring].pend|
    requires i == log1[it.ring].pend[log1[it.ring].pcons]
    requires Reached(log1, log2, Some(it.ring), i, s.sub, l.body) && l == s.sub.(body := l.body) && s.sub.open == i.open
    requires s.sub.depth == log1[i.ring].depth
    ensures Reached(log0, log2, host, it, b, s.(sub := l))
  {
    hide LaidSpan, After, AfterSpan, Reached, MovedBelow;
    var r := it.ring;
    ReachedFacts(log0, log1, host, it, b, s);
    ReachedFacts(log1, log2, Some(r), i, s.sub, l.body);
    var a0, a1 := After(b, Start(log0)), After(s.sub, Start(log1));
    ShrunkBelow(log0, log1, host, r, a0);
    ShrunkBelow(log1, log2, Some(r), i.ring, a1);
    ReachedEnters(log0, log1, host, it, b, s);
    assert !Below(log1, i.ring, r) && HeadMoved(log1[r], log2[r]);
    LeaveLaid(log1, log2, r, End(log0, it), it.open, s, i, l);
    LeaveShrinks(log0, log1, log2, host, r, i.ring, a0, a1, AfterSpan(r, s, Start(log1)));
    FoldReached(log0, log2, host, it, b, s.(sub := l));
  }

  lemma LeaveLaid(log1: seq<LogRing>, log2: seq<LogRing>, r: nat, last: nat, open: bool, s: Span, i: LogIntr, l: Bracket)
    requires r < |log1| && s.Cut? && LaidSpan(log1, r, last, open, s, Start(log1)) && log1[r].pcons < |log1[r].pend|
    requires i == log1[r].pend[log1[r].pcons] && i.ring < |log1| == |log2| && Under(log1, r, i.ring)
    requires Laid(log1, i, s.sub, Start(log1))
    requires SameBelow(log1, i.ring, After(s.sub, PassIntr(Start(log1), r, s.at)), After(s.sub, Start(log1)))
    requires Reached(log1, log2, Some(r), i, s.sub, l.body) && l == s.sub.(body := l.body) && s.sub.open == i.open
    requires s.sub.depth == log1[i.ring].depth && HeadMoved(log1[r], log2[r])
    ensures LaidSpan(log2, r, last, open, s.(sub := l), Start(log2))
    ensures SameBelow(log1, r, AfterSpan(r, s, Start(log1)), AfterSpan(r, s.(sub := l), Start(log2)))
    ensures log1[r].pcons < AfterSpan(r, s, Start(log1)).p[r]
    ensures forall x | 0 <= x < |log1| && Below(log1, i.ring, x) :: After(s.sub, Start(log1)).p[x] <= AfterSpan(r, s, Start(log1)).p[x]
  {
    hide LaidSpan, After, AfterSpan, Reached, Shrunk, Agree;
    var q, a1 := i.ring, After(s.sub, Start(log1));
    ReachedFacts(log1, log2, Some(r), i, s.sub, l.body);
    ReachedLaid(log1, log2, Some(r), i, s.sub, l.body);
    ShrunkBelow(log1, log2, Some(r), q, a1);
    var i' := i.(sidx := l.body.from);
    var c1, c1' := PassIntr(Start(log1), r, s.at), PassIntr(Start(log2), r, s.at);
    var c2, c2' := After(s.sub, c1), After(l, c1');
    BelowIsBelow(log1, r, q);
    LaidFrameBelow(log2, i', l, Start(log2), c1', r);
    UnfoldCut(log1, r, last, open, s);
    AfterMoves(log1, i, s.sub, c1);
    AfterMoves(log2, i', l, c1');
    AfterBody(l, Start(log2));
    LeaveAgrees(log1, log2, r, q, a1, c1, c1', c2, c2');
    LaidSpanFrame(log1, log2, r, last, open, s.rest, c2, c2');
    SpanStarts(log1, r, last, open, s);
    assert log2[r].pend[log2[r].pcons] == i' && log2[r].cons == log1[r].cons;
    FoldCut(log2, r, last, open, s.(sub := l));
    AfterCut(r, s, Start(log1));
    AfterCut(r, s.(sub := l), Start(log2));
    AfterSpanMoves(log1, r, last, open, s.rest, c2);
  }

  lemma LaidFrameBelow(log: seq<LogRing>, it: LogIntr, b: Bracket, c: Cursor, c': Cursor, r: nat)
    requires Fits(log, c) && Fits(log, c') && it.ring < |log| && Laid(log, it, b, c)
    requires r < |log| && Under(log, r, it.ring)
    requires forall x | 0 <= x < |log| && x != r :: c.w[x] == c'.w[x] && c.p[x] == c'.p[x]
    ensures Laid(log, it, b, c') && SameBelow(log, it.ring, After(b, c), After(b, c'))
  {
    BelowIsBelow(log, r, it.ring);
    LaidFrame(log, log, it, b, c, c');
  }

  lemma AfterBody(b: Bracket, c: Cursor)
    ensures After(b, c) == AfterSpan(b.ring, b.body, c)
  {
    hide AfterSpan;
  }

  lemma AfterCut(r: nat, s: Span, c: Cursor)
    requires s.Cut?
    ensures AfterSpan(r, s, c) == AfterSpan(r, s.rest, After(s.sub, PassIntr(c, r, s.at)))
  {
    hide After;
  }

  lemma UnfoldCut(log: seq<LogRing>, r: nat, last: nat, open: bool, s: Span)
    requires r < |log| && s.Cut? && LaidSpan(log, r, last, open, s, Start(log)) && log[r].pcons < |log[r].pend|
    ensures var i := log[r].pend[log[r].pcons];
            var c1 := PassIntr(Start(log), r, s.at);
            s.from <= s.at == i.at <= last && s.rest.from == s.at &&
            i.ring < |log| && Under(log, r, i.ring) &&
            Laid(log, i, s.sub, c1) && LaidSpan(log, r, last, open, s.rest, After(s.sub, c1))
  {
    hide Laid, After;
  }

  lemma FoldCut(log: seq<LogRing>, r: nat, last: nat, open: bool, s: Span)
    requires r < |log| && s.Cut? && log[r].pcons < |log[r].pend|
    requires var i := log[r].pend[log[r].pcons];
             var c1 := PassIntr(Start(log), r, s.at);
             s.from == log[r].cons && s.from <= s.at == i.at <= last && s.rest.from == s.at &&
             i.ring < |log| && Under(log, r, i.ring) &&
             Laid(log, i, s.sub, c1) && LaidSpan(log, r, last, open, s.rest, After(s.sub, c1))
    ensures LaidSpan(log, r, last, open, s, Start(log))
  {
    hide Laid, After;
  }

  lemma FoldReached(log0: seq<LogRing>, log: seq<LogRing>, host: Option<nat>, it: LogIntr, b: Bracket, s: Span)
    requires it.ring < |log0| == |log| && b.ring == it.ring
    requires Hosted(log0, host, it) && Hosted(log, host, it.(sidx := s.from))
    requires Shrunk(log0, log, host, it.ring, After(b, Start(log0)))
    requires LaidSpan(log, it.ring, End(log0, it), it.open, s, Start(log))
    requires SameBelow(log0, it.ring, After(b, Start(log0)), AfterSpan(it.ring, s, Start(log)))
    requires End(log0, it) <= log[it.ring].prod
    ensures Reached(log0, log, host, it, b, s)
  {
    hide LaidSpan, After, AfterSpan;
  }

  lemma LeaveAgrees(log: seq<LogRing>, log': seq<LogRing>, r: nat, q: nat, a: Cursor, c1: Cursor, c1': Cursor, c2: Cursor, c2': Cursor)
    requires r < |log| && q < |log| && Under(log, r, q) && Fits(log, a) && Shrunk(log, log', Some(r), q, a)
    requires HeadMoved(log[r], log'[r])
    requires Fits(log, c1) && Fits(log, c1') && Fits(log, c2) && Fits(log, c2')
    requires c1.w[r] == c1'.w[r] && c1.p[r] == c1'.p[r] == log[r].pcons + 1
    requires forall x | 0 <= x < |log| && x != r :: c1.w[x] == log[x].cons && c1.p[x] == log[x].pcons && c1'.w[x] == log'[x].cons && c1'.p[x] == log'[x].pcons
    requires MovedBelow(log, q, c1, c2) && MovedBelow(log', q, c1', c2')
    requires SameBelow(log, q, a, c2) && SameBelow(log, q, a, c2')
    ensures Agree(log, log', c2, c2', r)
  {
    BelowIsBelow(log, r, q);
    ShrunkBelow(log, log', Some(r), q, a);
    forall x | 0 <= x < |log| && Below(log, r, x)
      ensures c2.w[x] == c2'.w[x] && c2.p[x] == c2'.p[x] && log[x].prod == log'[x].prod
      ensures forall k | c2.p[x] <= k < |log[x].pend| :: log[x].pend[k] == log'[x].pend[k]
    {
      if Below(log, q, x) {
        assert ShrunkRing(log[x], log'[x], a.p[x]);
      }
    }
  }

  lemma LeaveShrinks(log0: seq<LogRing>, log1: seq<LogRing>, log2: seq<LogRing>, host: Option<nat>, r: nat, q: nat, a0: Cursor, a1: Cursor, a: Cursor)
    requires r < |log0| && q < |log0| == |log1| && Under(log0, r, q)
    requires Fits(log0, a0) && Fits(log1, a1) && Fits(log0, a)
    requires Shrunk(log0, log1, host, r, a0) && Shrunk(log1, log2, Some(r), q, a1)
    requires log1[q].depth == log0[q].depth && log1[r].depth == log0[r].depth && log1[q].tid == log0[q].tid && HeadMoved(log1[r], log2[r])
    requires SameBelow(log0, r, a0, a)
    requires forall x | 0 <= x < |log0| && Below(log0, q, x) :: a1.p[x] <= a.p[x]
    requires log1[r].pcons < a.p[r]
    ensures Shrunk(log0, log2, host, r, a0)
  {
    ShrunkBelow(log0, log1, host, r, a0);
    BelowIsBelow(log0, r, q);
    forall x | 0 <= x < |log0| && Below(log0, r, x)
      ensures ShrunkRing(log0[x], log2[x], a0.p[x])
    {
      assert ShrunkRing(log0[x], log1[x], a0.p[x]);
      if Below(log0, q, x) {
        assert ShrunkRing(log1[x], log2[x], a1.p[x]);
      }
    }
  }

  lemma ReachedFacts(log0: seq<LogRing>, log: seq<LogRing>, host: Option<nat>, it: LogIntr, b: Bracket, s: Span)
    requires Reached(log0, log, host, it, b, s)
    ensures it.ring < |log0| == |log| && b.ring == it.ring && s.from == log[it.ring].cons
    ensures Hosted(log0, host, it) && Hosted(log, host, it.(sidx := s.from))
    ensures Shrunk(log0, log, host, it.ring, After(b, Start(log0)))
    ensures LaidSpan(log, it.ring, End(log0, it), it.open, s, Start(log))
    ensures SameBelow(log0, it.ring, After(b, Start(log0)), AfterSpan(it.ring, s, Start(log)))
    ensures End(log0, it) <= log[it.ring].prod
  {
    hide After, AfterSpan;
  }

  /** One pass after another over a thread's tree. */
  lemma ReachedTrans(log0: seq<LogRing>, log1: seq<LogRing>, log2: seq<LogRing>, t: Bracket, t1: Bracket, s: Span)
    requires t.ring < |log0| && t1 == t.(body := t1.body)
    requires Reached(log0, log1, None, RootIntr(log0, t.ring), t, t1.body)
    requires t.ring < |log1| && Reached(log1, log2, None, RootIntr(log1, t.ring), t1, s)
    ensures Reached(log0, log2, None, RootIntr(log0, t.ring), t, s)
  {
    hide LaidSpan, After, AfterSpan, Reached;
    var r := t.ring;
    var a0, a1 := After(t, Start(log0)), After(t1, Start(log1));
    ReachedFacts(log0, log1, None, RootIntr(log0, r), t, t1.body);
    ReachedFacts(log1, log2, None, RootIntr(log1, r), t1, s);
    ShrunkBelow(log0, log1, None, r, a0);
    ShrunkBelow(log1, log2, None, r, a1);
    AfterBody(t1, Start(log1));
    forall q | 0 <= q < |log0| && Below(log0, r, q)
      ensures ShrunkRing(log0[q], log2[q], a0.p[q])
    {
      assert ShrunkRing(log0[q], log1[q], a0.p[q]) && ShrunkRing(log1[q], log2[q], a1.p[q]);
    }
    FoldReached(log0, log2, None, RootIntr(log0, r), t, s);
  }

  // ---- a tree that the serializer cannot drain --------------------------------------------

  /** A handler ran on ring 1 and was drained before it closed its interruption; then
      another ran on ring 1 and was itself interrupted. */
  function StuckLog(): seq<LogRing>
  {
    [LogRing(0, 1, 1, 0, 0, [LogIntr(1, 0, 2, 2, false), LogIntr(1, 1, 2, 4, false)]),
     LogRing(2, 4, 1, 1, 0, [LogIntr(2, 3, 0, 1, false)]),
     LogRing(0, 1, 1, 2, 0, [])]
  }

  function StuckFirst(): Bracket
  {
    Bracket(1, 1, false, Done(2, 2, true))
  }

  function StuckRest(): Span
  {
    Cut(0, 1, Bracket(1, 1, false, Cut(2, 3, Bracket(2, 2, false, Done(0, 1, false)), Done(3, 4, false))), Done(1, 1, false))
  }

  lemma StuckIsLaid()
    ensures LaidSpan(StuckLog(), 0, 1, true, Cut(0, 0, StuckFirst(), StuckRest()), Start(StuckLog()))
  {
    var log, rest := StuckLog(), StuckRest();
    var second := rest.sub;
    var c1 := PassIntr(Start(log), 0, 0);
    assert Laid(log, log[0].pend[0], StuckFirst(), c1);
    var c2 := After(StuckFirst(), c1);
    var c3 := PassIntr(c2, 0, 1);
    assert Laid(log, log[1].pend[0], second.body.sub, PassIntr(c3, 1, 3));
    assert LaidSpan(log, 1, 4, false, Done(3, 4, false), After(second.body.sub, PassIntr(c3, 1, 3)));
    assert LaidSpan(log, 1, 4, false, second.body, c3);
    assert Laid(log, log[0].pend[1], second, c3);
    assert LaidSpan(log, 0, 1, true, Done(1, 1, false), After(second, c3));
    assert LaidSpan(log, 0, 1, true, rest, c2);
  }

  lemma {:induction false} StuckHasWords()
    ensures FlattenSpan(0, 0, StuckRest()) != [] && FreshSpan(true, StuckRest()) && Quiet(StuckRest())
  {
    var second := StuckRest().sub;
    assert |Run(0, 0, 0, 1)| > 0;
    assert Fresh(second.body.sub) && Quiet(second.body);
  }

  /** A thread's rings from which the serializer, though the program is quiet, never takes a
      word, while words are there. */
  lemma QuietButStuck() returns (log: seq<LogRing>, t: Bracket)
    ensures LaidRoot(log, t) && Bounded(1024, log) && Leading(t) && Quiet(t.body) && Flatten(t) != []
    ensures Stuck(t.body)
  {
    hide LaidSpan, Run;
    log, t := StuckLog(), Bracket(0, 0, true, Cut(0, 0, StuckFirst(), StuckRest()));
    StuckIsLaid();
    StuckHasWords();
  }
}
