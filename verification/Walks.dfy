/** What a walk of a thread's tree depends on: only the rings that it visits, and only from where it starts on
    them. */
module Walks {
  import opened Basics
  import opened EventTree
  import opened EventLog
  import opened Producers
  import opened Spines

  // ---- a walk depends on the rings that it visits -------------------------------------------

  /** From their cursors on, two logs hold the same on ring `y`. */
  predicate SameOn(log: seq<LogRing>, log': seq<LogRing>, c: Cursor, c': Cursor, y: nat)
    requires Fits(log, c) && Fits(log', c') && y < |log| == |log'|
  {
    c.w[y] == c'.w[y] && log[y].prod == log'[y].prod && log[y].depth == log'[y].depth && log[y].tid == log'[y].tid &&
    c.p[y] <= |log[y].pend| && c'.p[y] <= |log'[y].pend| && log[y].pend[c.p[y]..] == log'[y].pend[c'.p[y]..]
  }

  lemma SameHead(log: seq<LogRing>, log': seq<LogRing>, c: Cursor, c': Cursor, y: nat)
    requires Fits(log, c) && Fits(log', c') && y < |log| == |log'| && SameOn(log, log', c, c', y)
    ensures c.p[y] < |log[y].pend| <==> c'.p[y] < |log'[y].pend|
    ensures c.p[y] < |log[y].pend| ==>
              log[y].pend[c.p[y]] == log'[y].pend[c'.p[y]] &&
              forall pos :: SameOn(log, log', PassIntr(c, y, pos), PassIntr(c', y, pos), y)
  {
    var a, b := log[y].pend[c.p[y]..], log'[y].pend[c'.p[y]..];
    if c.p[y] < |log[y].pend| {
      assert a[0] == b[0];
      assert log[y].pend[c.p[y] + 1..] == a[1..] && log'[y].pend[c'.p[y] + 1..] == b[1..];
    }
  }

  /** A walk leaves alone the rings that no bracket of it is on. */
  lemma {:induction false} AwayStill(b: Bracket, c: Cursor, y: nat)
    requires Away(b, y) && y < |c.w| && y < |c.p|
    ensures After(b, c).w[y] == c.w[y] && After(b, c).p[y] == c.p[y]
    decreases b, 1
  {
    AwaySpanStill(b.ring, b.body, c, y);
  }

  lemma {:induction false} AwaySpanStill(r: nat, s: Span, c: Cursor, y: nat)
    requires AwaySpan(s, y) && y != r && y < |c.w| && y < |c.p|
    ensures AfterSpan(r, s, c).w[y] == c.w[y] && AfterSpan(r, s, c).p[y] == c.p[y]
    decreases s, 0
  {
    hide After, Away;
    if s.Cut? {
      AwayStill(s.sub, PassIntr(c, r, s.at), y);
      AwaySpanStill(r, s.rest, After(s.sub, PassIntr(c, r, s.at)), y);
    }
  }

  predicate SameVisited(log: seq<LogRing>, log': seq<LogRing>, b: Bracket, c: Cursor, c': Cursor)
    requires Fits(log, c) && Fits(log', c') && |log| == |log'|
  {
    forall y | 0 <= y < |log| && !Away(b, y) :: SameOn(log, log', c, c', y)
  }

  predicate SameOnSpan(log: seq<LogRing>, log': seq<LogRing>, r: nat, s: Span, c: Cursor, c': Cursor)
    requires Fits(log, c) && Fits(log', c') && |log| == |log'|
  {
    forall y | 0 <= y < |log| && (y == r || !AwaySpan(s, y)) :: SameOn(log, log', c, c', y)
  }

  lemma {:induction false} VisitFrame(log: seq<LogRing>, log': seq<LogRing>, it: LogIntr, b: Bracket, c: Cursor, c': Cursor)
    requires Fits(log, c) && Fits(log', c') && it.ring < |log| == |log'| && Laid(log, it, b, c) && SameVisited(log, log', b, c, c')
    ensures Laid(log', it, b, c') && SameVisited(log, log', b, After(b, c), After(b, c'))
    decreases b, 1
  {
    assert !Away(b, b.ring);
    VisitSpanFrame(log, log', b.ring, End(log, it), b.open, b.body, c, c');
  }

  lemma {:induction false} VisitSpanFrame(log: seq<LogRing>, log': seq<LogRing>, r: nat, last: nat, open: bool, s: Span, c: Cursor, c': Cursor)
    requires Fits(log, c) && Fits(log', c') && r < |log| == |log'| && LaidSpan(log, r, last, open, s, c) && SameOnSpan(log, log', r, s, c, c')
    ensures LaidSpan(log', r, last, open, s, c') && SameOnSpan(log, log', r, s, AfterSpan(r, s, c), AfterSpan(r, s, c'))
    decreases s, 0
  {
    hide Laid, After, Away;
    SameHead(log, log', c, c', r);
    if s.Cut? {
      CutMeets(log, r, last, open, s, c);
      var it := log[r].pend[c.p[r]];
      var c1, c1' := PassIntr(c, r, s.at), PassIntr(c', r, s.at);
      SubIs(log, it, s.sub, c1);
      VisitEnters(log, log', r, s, c, c');
      VisitFrame(log, log', it, s.sub, c1, c1');
      var c2, c2' := After(s.sub, c1), After(s.sub, c1');
      assert !Away(s.sub, r) ==> SameOn(log, log', c2, c2', r);
      forall y | 0 <= y < |log| && (y == r || !AwaySpan(s, y))
        ensures SameOn(log, log', c2, c2', y)
      {
        if Away(s.sub, y) {
          AwayStill(s.sub, c1, y);
          AwayStill(s.sub, c1', y);
          assert SameOn(log, log', c1, c1', y);
        }
      }
      AwayInRest(log, log', r, s, c2, c2');
      VisitSpanFrame(log, log', r, last, open, s.rest, c2, c2');
      forall y | 0 <= y < |log| && (y == r || !AwaySpan(s, y))
        ensures SameOn(log, log', AfterSpan(r, s, c), AfterSpan(r, s, c'), y)
      {
        if y != r && AwaySpan(s.rest, y) {
          AwaySpanStill(r, s.rest, c2, y);
          AwaySpanStill(r, s.rest, c2', y);
          assert SameOn(log, log', c2, c2', y);
        }
      }
    }
  }

  lemma VisitEnters(log: seq<LogRing>, log': seq<LogRing>, r: nat, s: Span, c: Cursor, c': Cursor)
    requires Fits(log, c) && Fits(log', c') && r < |log| == |log'| && s.Cut? && SameOnSpan(log, log', r, s, c, c') && c.p[r] < |log[r].pend|
    ensures SameVisited(log, log', s.sub, PassIntr(c, r, s.at), PassIntr(c', r, s.at))
    ensures forall y | 0 <= y < |log| && (y == r || !AwaySpan(s, y)) :: SameOn(log, log', PassIntr(c, r, s.at), PassIntr(c', r, s.at), y)
    ensures !Away(s.sub, s.sub.ring)
  {
    var c1, c1' := PassIntr(c, r, s.at), PassIntr(c', r, s.at);
    SameHead(log, log', c, c', r);
    forall y | 0 <= y < |log| && (y == r || !AwaySpan(s, y))
      ensures SameOn(log, log', c1, c1', y)
    {
      assert SameOn(log, log', c, c', y);
    }
  }

  lemma AwayInRest(log: seq<LogRing>, log': seq<LogRing>, r: nat, s: Span, c: Cursor, c': Cursor)
    requires Fits(log, c) && Fits(log', c') && r < |log| == |log'| && s.Cut?
    requires forall y | 0 <= y < |log| && (y == r || !AwaySpan(s, y)) :: SameOn(log, log', c, c', y)
    ensures SameOnSpan(log, log', r, s.rest, c, c')
  {
    hide SameOn, Away;
    forall y | 0 <= y < |log| && (y == r || !AwaySpan(s.rest, y))
      ensures SameOn(log, log', c, c', y)
    {
      assert y == r || !AwaySpan(s, y);
    }
  }

  /** There is one tree at most that an interruption holds. */
  lemma {:induction false} LaidOnce(log: seq<LogRing>, it: LogIntr, b: Bracket, b': Bracket, c: Cursor)
    requires Fits(log, c) && it.ring < |log| && Laid(log, it, b, c) && Laid(log, it, b', c)
    ensures b == b'
    decreases b, 1
  {
    LaidSpanOnce(log, b.ring, End(log, it), b.open, b.body, b'.body, c);
  }

  lemma {:induction false} LaidSpanOnce(log: seq<LogRing>, r: nat, last: nat, open: bool, s: Span, s': Span, c: Cursor)
    requires Fits(log, c) && r < |log| && LaidSpan(log, r, last, open, s, c) && LaidSpan(log, r, last, open, s', c)
    ensures s == s'
    decreases s, 0
  {
    hide Laid, After;
    if s.Cut? {
      CutMeets(log, r, last, open, s, c);
      CutMeets(log, r, last, open, s', c);
      LaidOnce(log, log[r].pend[c.p[r]], s.sub, s'.sub, PassIntr(c, r, s.at));
      LaidSpanOnce(log, r, last, open, s.rest, s'.rest, After(s.sub, PassIntr(c, r, s.at)));
    }
  }

  // ---- what a walk has passed ------------------------------------------------------------------

  /** On ring `y`, the interruptions from number `k` on that a walk has passed lie before the words that
      it has reached. */
  predicate PassedOn(log: seq<LogRing>, y: nat, k: nat, c: Cursor)
    requires Fits(log, c) && y < |log|
  {
    forall j | k <= j < c.p[y] && j < |log[y].pend| :: log[y].pend[j].at < c.w[y]
  }

  lemma {:induction false} LeadingPasses(log: seq<LogRing>, y: nat, k: nat, it: LogIntr, b: Bracket, c: Cursor)
    requires Fits(log, c) && it.ring < |log| && y < |log| && Laid(log, it, b, c) && Leading(b) && NoneOpen(b, y) && PassedOn(log, y, k, c)
    ensures PassedOn(log, y, k, After(b, c))
    decreases b, 1
  {
    LeadingSpanPasses(log, y, k, b.ring, End(log, it), b.open, b.body, c);
  }

  lemma {:induction false} LeadingSpanPasses(log: seq<LogRing>, y: nat, k: nat, r: nat, last: nat, open: bool, s: Span, c: Cursor)
    requires Fits(log, c) && r < |log| && y < |log| && LaidSpan(log, r, last, open, s, c) && LeadingSpan(open, s) && NoneOpenSpan(s, y)
    requires y == r ==> !open && forall j | k <= j < c.p[y] && j < |log[y].pend| :: log[y].pend[j].at < last
    requires y != r ==> PassedOn(log, y, k, c)
    ensures PassedOn(log, y, k, AfterSpan(r, s, c))
    decreases s, 0
  {
    hide Laid, After, NoneOpen, Leading, Fresh;
    if s.Cut? {
      CutMeets(log, r, last, open, s, c);
      var it := log[r].pend[c.p[r]];
      var c1 := PassIntr(c, r, s.at);
      SubIs(log, it, s.sub, c1);
      SubLeads(open, s);
      FreshSpanIsLeading(open, s.rest);
      if y == r {
        FreshHasWords(log, r, last, s.rest, After(s.sub, c1));
      } else {
        LeadingPasses(log, y, k, it, s.sub, c1);
      }
      LeadingSpanPasses(log, y, k, r, last, open, s.rest, After(s.sub, c1));
    }
  }

  lemma {:induction false} RunsOver(ring: nat, depth: nat, from: nat, to: nat)
    ensures forall x | x in Run(ring, depth, from, to) :: x.ring == ring && from <= x.pos < to
    ensures from <= to ==> |Run(ring, depth, from, to)| == to - from
    decreases if from < to then to - from else 0
  {
    if from < to { RunsOver(ring, depth, from + 1, to); }
  }

  // ---- the same bracket, found from further back ------------------------------------------------------

  /** A walk at `c'` is behind one at `c` on ring `y` only by interruptions that lie before the words
      that the latter has reached. */
  predicate Lags(log: seq<LogRing>, c: Cursor, c': Cursor, y: nat)
    requires Fits(log, c) && Fits(log, c') && y < |log|
  {
    c'.p[y] <= c.p[y] <= |log[y].pend| && forall j | c'.p[y] <= j < c.p[y] :: log[y].pend[j].at < c.w[y]
  }

  predicate Level(c: Cursor, c': Cursor, y: nat)
    requires y < |c.w| == |c'.w| && y < |c.p| == |c'.p|
  {
    c.w[y] == c'.w[y] && c.p[y] == c'.p[y]
  }

  /** On the rings that the bracket is on the logs are the same, and the walk of `log'` lags. */
  predicate LagsOn(log: seq<LogRing>, log': seq<LogRing>, b: Bracket, c: Cursor, c': Cursor)
    requires Fits(log, c) && Fits(log', c') && |log| == |log'|
  {
    forall y | 0 <= y < |log| && !Away(b, y) :: log'[y] == log[y] && Lags(log, c, c', y)
  }

  predicate LagsOnSpan(log: seq<LogRing>, log': seq<LogRing>, s: Span, c: Cursor, c': Cursor)
    requires Fits(log, c) && Fits(log', c') && |log| == |log'|
  {
    forall y | 0 <= y < |log| && !AwaySpan(s, y) :: log'[y] == log[y] && Lags(log, c, c', y)
  }

  predicate LevelOn(b: Bracket, c: Cursor, c': Cursor)
    requires |c.w| == |c'.w| == |c.p| == |c'.p|
  {
    forall y | 0 <= y < |c.w| && !Away(b, y) :: Level(c, c', y)
  }

  predicate LevelOnSpan(s: Span, c: Cursor, c': Cursor)
    requires |c.w| == |c'.w| == |c.p| == |c'.p|
  {
    forall y | 0 <= y < |c.w| && !AwaySpan(s, y) :: Level(c, c', y)
  }

  /** A bracket starts where its interruption says, so that a walk that lags finds what the other finds. */
  lemma {:induction false} SameWalk(log: seq<LogRing>, log': seq<LogRing>, it: LogIntr, b: Bracket, b': Bracket, c: Cursor, c': Cursor)
    requires Fits(log, c) && Fits(log', c') && it.ring < |log| == |log'| && Laid(log, it, b, c) && Laid(log', it, b', c') && LagsOn(log, log', b, c, c')
    requires Within(log, c)
    ensures b' == b && LevelOn(b, c, c') && LevelOn(b, After(b, c), After(b, c'))
    decreases b, 1
  {
    assert !Away(b, b.ring);
    CatchesUp(log, b.ring, End(log, it), b'.body, c, c');
    DeeperSpanIsAway(log, b.ring, b.ring, End(log, it), b.open, b.body, c);
    SameSpanWalk(log, log', b.ring, End(log, it), b.open, b.body, b'.body, c, c');
  }

  /** Where it starts, it is not behind. */
  lemma CatchesUp(log: seq<LogRing>, r: nat, last: nat, s': Span, c: Cursor, c': Cursor)
    requires Fits(log, c) && Fits(log, c') && r < |log| && Lags(log, c, c', r) && c'.w[r] == c.w[r]
    requires s'.from == c'.w[r] && (s'.Done? ==> s'.from <= last && (c'.p[r] < |log[r].pend| ==> last < log[r].pend[c'.p[r]].at))
    requires s'.Cut? ==> c'.p[r] < |log[r].pend| && s'.from <= log[r].pend[c'.p[r]].at
    ensures Level(c, c', r)
  {
  }

  lemma {:induction false} SameSpanWalk(log: seq<LogRing>, log': seq<LogRing>, r: nat, last: nat, open: bool, s: Span, s': Span, c: Cursor, c': Cursor)
    requires Fits(log, c) && Fits(log', c') && r < |log| == |log'| && LaidSpan(log, r, last, open, s, c) && LaidSpan(log', r, last, open, s', c')
    requires LagsOnSpan(log, log', s, c, c') && Level(c, c', r) && log'[r] == log[r] && Within(log, c) && AwaySpan(s, r)
    ensures s' == s && LevelOnSpan(s, c, c') && LevelOnSpan(s, AfterSpan(r, s, c), AfterSpan(r, s, c'))
    ensures Level(AfterSpan(r, s, c), AfterSpan(r, s, c'), r)
    decreases s, 0
  {
    hide Laid, After, Away, Lags;
    if s.Cut? {
      CutMeets(log, r, last, open, s, c);
      CutMeets(log', r, last, open, s', c');
      var it := log[r].pend[c.p[r]];
      var c1, c1' := PassIntr(c, r, s.at), PassIntr(c', r, s.at);
      SubIs(log, it, s.sub, c1);
      LagsIn(log, log', r, s, c, c');
      SameWalk(log, log', it, s.sub, s'.sub, c1, c1');
      StaysWithin(log, it, s.sub, c1);
      LagsAfter(log, log', r, s, c1, c1');
      var c2, c2' := After(s.sub, c1), After(s.sub, c1');
      SameSpanWalk(log, log', r, last, open, s.rest, s'.rest, c2, c2');
      LevelBefore(r, s, c, c');
      forall y | 0 <= y < |log| && !AwaySpan(s, y)
        ensures Level(AfterSpan(r, s, c), AfterSpan(r, s, c'), y)
      {
        if AwaySpan(s.rest, y) {
          assert !Away(s.sub, y) && Level(c2, c2', y);
          if y != r {
            AwaySpanStill(r, s.rest, c2, y);
            AwaySpanStill(r, s.rest, c2', y);
          }
        }
      }
    }
  }

  lemma LevelBefore(r: nat, s: Span, c: Cursor, c': Cursor)
    requires |c.w| == |c'.w| == |c.p| == |c'.p| && s.Cut? && AwaySpan(s, r)
    requires LevelOn(s.sub, PassIntr(c, r, s.at), PassIntr(c', r, s.at))
    requires LevelOnSpan(s.rest, After(s.sub, PassIntr(c, r, s.at)), After(s.sub, PassIntr(c', r, s.at)))
    ensures LevelOnSpan(s, c, c')
  {
    hide After, Away;
    var c1, c1' := PassIntr(c, r, s.at), PassIntr(c', r, s.at);
    forall y | 0 <= y < |c.w| && !AwaySpan(s, y)
      ensures Level(c, c', y)
    {
      if Away(s.sub, y) {
        AwayStill(s.sub, c1, y);
        AwayStill(s.sub, c1', y);
        assert !AwaySpan(s.rest, y) && y != r;
        assert Level(After(s.sub, c1), After(s.sub, c1'), y);
      } else {
        assert Level(c1, c1', y) && y != r;
      }
    }
  }

  lemma LagsIn(log: seq<LogRing>, log': seq<LogRing>, r: nat, s: Span, c: Cursor, c': Cursor)
    requires Fits(log, c) && Fits(log', c') && r < |log| == |log'| && s.Cut? && LagsOnSpan(log, log', s, c, c') && AwaySpan(s, r)
    ensures LagsOn(log, log', s.sub, PassIntr(c, r, s.at), PassIntr(c', r, s.at))
    ensures LagsOnSpan(log, log', s.rest, PassIntr(c, r, s.at), PassIntr(c', r, s.at))
  {
    var c1, c1' := PassIntr(c, r, s.at), PassIntr(c', r, s.at);
    forall y | 0 <= y < |log| && !AwaySpan(s, y)
      ensures log'[y] == log[y] && Lags(log, c1, c1', y)
    {
      assert Lags(log, c, c', y);
    }
  }

  lemma LagsAfter(log: seq<LogRing>, log': seq<LogRing>, r: nat, s: Span, c: Cursor, c': Cursor)
    requires Fits(log, c) && Fits(log', c') && r < |log| == |log'| && s.Cut? && AwaySpan(s, r)
    requires LagsOnSpan(log, log', s.rest, c, c') && LevelOn(s.sub, After(s.sub, c), After(s.sub, c')) && Level(c, c', r)
    requires forall y | 0 <= y < |log| && !Away(s.sub, y) :: After(s.sub, c).p[y] <= |log[y].pend|
    ensures LagsOnSpan(log, log', s.rest, After(s.sub, c), After(s.sub, c')) && Level(After(s.sub, c), After(s.sub, c'), r)
  {
    hide After, Away;
    AwayStill(s.sub, c, r) by { hide After; }
    AwayStill(s.sub, c', r) by { hide After; }
    forall y | 0 <= y < |log| && !AwaySpan(s.rest, y)
      ensures log'[y] == log[y] && Lags(log, After(s.sub, c), After(s.sub, c'), y)
    {
      assert Lags(log, c, c', y);
      if Away(s.sub, y) {
        AwayStill(s.sub, c, y);
        AwayStill(s.sub, c', y);
      } else {
        assert Level(After(s.sub, c), After(s.sub, c'), y);
      }
    }
  }

  lemma {:induction false} PutSpanSame(n: nat, log: seq<LogRing>, log': seq<LogRing>, r: nat, k: nat, s: Span, s': Span, c: Cursor, c': Cursor)
    requires Fits(log, c) && Fits(log', c') && r < |log| == |log'| && LaidSpan(log, r, log[r].prod, true, s, c)
    requires LaidSpan(log', r, log[r].prod + k, true, s', c') && log'[r] == log[r].(prod := log[r].prod + k)
    requires LagsOnSpan(log, log', s, c, c') && Level(c, c', r) && AwaySpan(s, r)
    requires Bounded(n, log) && Ahead(log, c) && Within(log, c)
    ensures s' == Longer(s, k) && LevelOnSpan(s, c, c')
    decreases s
  {
    hide Laid, After, Away, Lags, Bounded;
    OwnBound(n, log, r);
    if s.Cut? {
      CutMeets(log, r, log[r].prod, true, s, c);
      CutMeets(log', r, log[r].prod + k, true, s', c');
      var it := log[r].pend[c.p[r]];
      var c1, c1' := PassIntr(c, r, s.at), PassIntr(c', r, s.at);
      SubIs(log, it, s.sub, c1);
      LagsIn(log, log', r, s, c, c');
      SameWalk(log, log', it, s.sub, s'.sub, c1, c1');
      StaysWithin(log, it, s.sub, c1);
      LagsAfter(log, log', r, s, c1, c1');
      PutSpanSame(n, log, log', r, k, s.rest, s'.rest, After(s.sub, c1), After(s.sub, c1'));
      LevelBefore(r, s, c, c');
    }
  }

  lemma OwnBound(n: nat, log: seq<LogRing>, r: nat)
    requires Bounded(n, log) && r < |log|
    ensures log[r].cons <= log[r].prod && forall j | log[r].pcons <= j < |log[r].pend| :: log[r].pend[j].at <= log[r].prod
  {
    assert BoundedRing(n, |log|, log[r]);
  }

  /** And so with a bracket to which `k` words have been added meanwhile. */
  lemma PutSame(n: nat, log: seq<LogRing>, log': seq<LogRing>, k: nat, it: LogIntr, b: Bracket, b': Bracket, c: Cursor, c': Cursor)
    requires Fits(log, c) && Fits(log', c') && it.ring < |log| == |log'| && it.open && Laid(log, it, b, c) && Laid(log', it, b', c')
    requires Bounded(n, log) && Ahead(log, c) && Within(log, c) && log'[it.ring] == log[it.ring].(prod := log[it.ring].prod + k)
    requires forall y | 0 <= y < |log| && !Away(b, y) :: (y != it.ring ==> log'[y] == log[y]) && Lags(log, c, c', y)
    ensures Flatten(b') == Flatten(b) + Run(it.ring, log[it.ring].depth, log[it.ring].prod, log[it.ring].prod + k)
    ensures b' == b.(body := Longer(b.body, k)) && LevelOn(b, c, c')
  {
    hide LaidSpan, After, Flatten, Run, FlattenSpan, Bounded;
    var r := it.ring;
    SubIs(log, it, b, c);
    SubIs(log', it, b', c');
    LaidIsOrdered(n, log, it, b, c);
    DeeperSpanIsAway(log, r, r, log[r].prod, true, b.body, c);
    assert !Away(b, r);
    PutCatchesUp(log, log', r, k, b'.body, c, c');
    assert LagsOnSpan(log, log', b.body, c, c');
    PutSpanSame(n, log, log', r, k, b.body, b'.body, c, c');
    EndIs(log, r, log[r].prod, true, b.body, c);
    OrderedHasRest(n, b.depth, b.body);
    LongerFlattens(r, b.depth, b.body, k);
    FlattenBody(b);
    FlattenBody(b');
  }

  lemma FlattenBody(b: Bracket)
    ensures Flatten(b) == FlattenSpan(b.ring, b.depth, b.body)
  {
    hide FlattenSpan;
  }

  lemma PutCatchesUp(log: seq<LogRing>, log': seq<LogRing>, r: nat, k: nat, s': Span, c: Cursor, c': Cursor)
    requires Fits(log, c) && Fits(log', c') && r < |log| == |log'| && log'[r] == log[r].(prod := log[r].prod + k)
    requires Lags(log, c, c', r) && c'.w[r] == c.w[r] && LaidSpan(log', r, log[r].prod + k, true, s', c')
    ensures Level(c, c', r)
  {
    hide Laid, After;
    CatchesUp(log, r, log[r].prod + k, s', c, c');
  }
}
