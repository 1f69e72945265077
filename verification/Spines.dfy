/** What the records of unfinished interruptions say of a thread's tree: who holds a ring, what is at
    the tail, and what may finish (llvm/ngrt/serialize.c walks the same records). */
module Spines {
  import opened Basics
  import opened EventTree
  import opened EventLog
  import opened Producers

  /** A walk from cursor `c` to cursor `c'` has met interruption number `k` of ring `x`. */
  predicate Met(log: seq<LogRing>, c: Cursor, c': Cursor, x: nat, k: nat)
    requires Fits(log, c) && Fits(log, c')
  {
    x < |log| && c.p[x] <= k < c'.p[x] && k < |log[x].pend|
  }

  /** The walk has met no unfinished interruption by ring `r`. */
  ghost predicate NoneMet(log: seq<LogRing>, c: Cursor, c': Cursor, r: nat)
    requires Fits(log, c) && Fits(log, c')
  {
    forall x: nat, k: nat | Met(log, c, c', x, k) :: log[x].pend[k].open ==> log[x].pend[k].ring != r
  }

  /** The only unfinished interruption by ring `r` is number `k` of ring `h`. */
  predicate OneOpen(log: seq<LogRing>, r: nat, h: nat, k: nat)
  {
    h < |log| && k < |log[h].pend| && log[h].pend[k].open && log[h].pend[k].ring == r &&
    forall x, y | 0 <= x < |log| && log[x].pcons <= y < |log[x].pend| ::
      log[x].pend[y].open && log[x].pend[y].ring == r ==> x == h && y == k
  }

  predicate NoneOpenBy(log: seq<LogRing>, r: nat)
  {
    forall x, y | 0 <= x < |log| && log[x].pcons <= y < |log[x].pend| :: log[x].pend[y].open ==> log[x].pend[y].ring != r
  }

  lemma UnmetIsNone(log: seq<LogRing>, c: Cursor, c': Cursor, r: nat, h: nat, k: nat)
    requires Fits(log, c) && Fits(log, c') && Ahead(log, c)
    requires NoneOpenBy(log, r) || (OneOpen(log, r, h, k) && !Met(log, c, c', h, k))
    ensures NoneMet(log, c, c', r)
  {
  }

  lemma {:induction false} NoneOpenOnWay(log: seq<LogRing>, r: nat, it: LogIntr, b: Bracket, c: Cursor)
    requires Fits(log, c) && it.ring < |log| && Laid(log, it, b, c) && NoneMet(log, c, After(b, c), r)
    ensures NoneOpenSpan(b.body, r)
    decreases b, 1
  {
    NoneOpenOnSpan(log, r, b.ring, End(log, it), b.open, b.body, c);
  }

  lemma {:induction false} NoneOpenOnSpan(log: seq<LogRing>, r: nat, q: nat, last: nat, open: bool, s: Span, c: Cursor)
    requires Fits(log, c) && q < |log| && LaidSpan(log, q, last, open, s, c) && NoneMet(log, c, AfterSpan(q, s, c), r)
    ensures NoneOpenSpan(s, r)
    decreases s, 0
  {
    hide Laid, After;
    if s.Cut? {
      CutMeets(log, q, last, open, s, c);
      var it := log[q].pend[c.p[q]];
      var c1 := PassIntr(c, q, s.at);
      var c2 := After(s.sub, c1);
      assert Met(log, c, AfterSpan(q, s, c), q, c.p[q]);
      SubIs(log, it, s.sub, c1);
      assert NoneMet(log, c1, c2, r) by {
        forall x: nat, k: nat | Met(log, c1, c2, x, k)
          ensures log[x].pend[k].open ==> log[x].pend[k].ring != r
        {
          assert Met(log, c, AfterSpan(q, s, c), x, k);
        }
      }
      NoneOpenOnWay(log, r, it, s.sub, c1);
      assert NoneMet(log, c2, AfterSpan(q, s.rest, c2), r) by {
        forall x: nat, k: nat | Met(log, c2, AfterSpan(q, s.rest, c2), x, k)
          ensures log[x].pend[k].open ==> log[x].pend[k].ring != r
        {
          assert Met(log, c, AfterSpan(q, s, c), x, k);
        }
      }
      NoneOpenOnSpan(log, r, q, last, open, s.rest, c2);
    }
  }

  lemma SubIs(log: seq<LogRing>, it: LogIntr, b: Bracket, c: Cursor)
    requires Fits(log, c) && it.ring < |log| && Laid(log, it, b, c)
    ensures b.ring == it.ring && b.open == it.open && b.body.from == it.sidx == c.w[b.ring] && End(log, it) <= log[b.ring].prod
    ensures LaidSpan(log, b.ring, End(log, it), b.open, b.body, c)
  {
    hide LaidSpan;
  }

  /** How a walk goes on through an interruption. */
  lemma CutMeets(log: seq<LogRing>, q: nat, last: nat, open: bool, s: Span, c: Cursor)
    requires Fits(log, c) && q < |log| && LaidSpan(log, q, last, open, s, c) && s.Cut?
    ensures c.p[q] < |log[q].pend|
    ensures var it := log[q].pend[c.p[q]];
            var c1 := PassIntr(c, q, s.at);
            var c2 := After(s.sub, c1);
            it.ring < |log| && Under(log, q, it.ring) && Laid(log, it, s.sub, c1) && LaidSpan(log, q, last, open, s.rest, c2) &&
            s.at == it.at <= last && s.rest.from == s.at && s.from <= s.at &&
            AfterSpan(q, s, c) == AfterSpan(q, s.rest, c2) && MovedBelow(log, it.ring, c1, c2) && MovedBelow(log, q, c2, AfterSpan(q, s.rest, c2)) &&
            c1.p[q] == c.p[q] + 1 == c2.p[q] && c2.w[q] == s.at && c2.w[it.ring] == End(log, it) &&
            (forall x | 0 <= x < |log| && x != q :: c1.p[x] == c.p[x] && c1.w[x] == c.w[x]) &&
            forall x | 0 <= x < |log| :: c.p[x] <= c1.p[x] <= c2.p[x] <= AfterSpan(q, s, c).p[x] && (x != q ==> c.w[x] <= c2.w[x])
  {
    hide Laid, After;
    var it := log[q].pend[c.p[q]];
    var c1 := PassIntr(c, q, s.at);
    AfterMoves(log, it, s.sub, c1);
    AfterSpanMoves(log, q, last, open, s.rest, After(s.sub, c1));
  }

  // ---- the holder of a ring ------------------------------------------------------------------

  lemma {:induction false} FreshHasWords(log: seq<LogRing>, r: nat, last: nat, s: Span, c: Cursor)
    requires Fits(log, c) && r < |log| && LaidSpan(log, r, last, false, s, c) && FreshSpan(false, s)
    ensures s.from < last
    decreases s
  {
    hide Laid, After, Fresh;
    if s.Cut? {
      CutMeets(log, r, last, false, s, c);
      FreshHasWords(log, r, last, s.rest, After(s.sub, PassIntr(c, r, s.at)));
    }
  }

  /** After all words of ring `r` a fresh bracket has nothing on it, unless it is somebody's who has not
      finished. */
  lemma {:induction false} AwayAfter(log: seq<LogRing>, r: nat, it: LogIntr, b: Bracket, c: Cursor)
    requires Fits(log, c) && it.ring < |log| && r < |log| && Laid(log, it, b, c) && Fresh(b) && b.ring != r
    requires c.w[r] == log[r].prod && NoneMet(log, c, After(b, c), r)
    ensures Away(b, r) && After(b, c).w[r] == c.w[r]
    decreases b, 1
  {
    AwayAfterSpan(log, r, b.ring, End(log, it), b.open, b.body, c);
  }

  lemma {:induction false} AwayAfterSpan(log: seq<LogRing>, r: nat, q: nat, last: nat, open: bool, s: Span, c: Cursor)
    requires Fits(log, c) && q < |log| && r < |log| && LaidSpan(log, q, last, open, s, c) && FreshSpan(open, s) && q != r
    requires c.w[r] == log[r].prod && NoneMet(log, c, AfterSpan(q, s, c), r)
    ensures AwaySpan(s, r) && AfterSpan(q, s, c).w[r] == c.w[r]
    decreases s, 0
  {
    hide Laid, After, Away;
    if s.Cut? {
      CutMeets(log, q, last, open, s, c);
      var it := log[q].pend[c.p[q]];
      var c1 := PassIntr(c, q, s.at);
      var c2 := After(s.sub, c1);
      assert Met(log, c, AfterSpan(q, s, c), q, c.p[q]);
      SubIs(log, it, s.sub, c1);
      if it.ring == r {
        FreshHasWords(log, r, End(log, it), s.sub.body, c1);
      }
      assert NoneMet(log, c1, c2, r) by {
        forall x: nat, k: nat | Met(log, c1, c2, x, k)
          ensures log[x].pend[k].open ==> log[x].pend[k].ring != r
        {
          assert Met(log, c, AfterSpan(q, s, c), x, k);
        }
      }
      AwayAfter(log, r, it, s.sub, c1);
      assert NoneMet(log, c2, AfterSpan(q, s.rest, c2), r) by {
        forall x: nat, k: nat | Met(log, c2, AfterSpan(q, s.rest, c2), x, k)
          ensures log[x].pend[k].open ==> log[x].pend[k].ring != r
        {
          assert Met(log, c, AfterSpan(q, s, c), x, k);
        }
      }
      AwayAfterSpan(log, r, q, last, open, s.rest, c2);
    }
  }

  /** The bracket of the only unfinished interruption by ring `r` holds the ring. */
  lemma {:induction false} HoldsIfMet(log: seq<LogRing>, r: nat, h: nat, k: nat, it: LogIntr, b: Bracket, c: Cursor)
    requires Fits(log, c) && it.ring < |log| && r < |log| && Laid(log, it, b, c) && Leading(b) && b.ring != r && Ahead(log, c)
    requires OneOpen(log, r, h, k) && Met(log, c, After(b, c), h, k)
    ensures Holds(b, r) && After(b, c).w[r] == log[r].prod
    decreases b, 1
  {
    HoldsSpanIfMet(log, r, h, k, b.ring, End(log, it), b.open, b.body, c);
  }

  lemma {:induction false} HoldsSpanIfMet(log: seq<LogRing>, r: nat, h: nat, k: nat, q: nat, last: nat, open: bool, s: Span, c: Cursor)
    requires Fits(log, c) && q < |log| && r < |log| && LaidSpan(log, q, last, open, s, c) && LeadingSpan(open, s) && q != r && Ahead(log, c)
    requires OneOpen(log, r, h, k) && Met(log, c, AfterSpan(q, s, c), h, k)
    ensures HoldsSpan(s, r) && AfterSpan(q, s, c).w[r] == log[r].prod
    decreases s, 0
  {
    hide Laid, After, Holds, Away, NoneOpen, Leading, Fresh;
    if s.Cut? {
      CutMeets(log, q, last, open, s, c);
      var it := log[q].pend[c.p[q]];
      var c1 := PassIntr(c, q, s.at);
      var c2 := After(s.sub, c1);
      SubIs(log, it, s.sub, c1);
      SubLeads(open, s);
      if (h == q && k == c.p[q]) || Met(log, c1, c2, h, k) {
        if h == q && k == c.p[q] {
          OpenHolds(s.sub, r);
        } else {
          assert s.sub.ring != r by { if s.sub.ring == r { OwnRing(log, r, h, k, it, s.sub, c1); } }
          HoldsIfMet(log, r, h, k, it, s.sub, c1);
        }
        UnmetIsNone(log, c2, AfterSpan(q, s.rest, c2), r, h, k);
        AwayAfterSpan(log, r, q, last, open, s.rest, c2);
      } else {
        UnmetIsNone(log, c1, c2, r, h, k);
        NoneOpenOnWay(log, r, it, s.sub, c1);
        NoneOpenToo(s.sub, r);
        FreshSpanIsLeading(open, s.rest);
        HoldsSpanIfMet(log, r, h, k, q, last, open, s.rest, c2);
        HolderSpanIsNotAway(s.rest, r);
      }
    }
  }

  lemma SubLeads(open: bool, s: Span)
    requires s.Cut? && LeadingSpan(open, s)
    ensures Leading(s.sub) && FreshSpan(open, s.rest)
  {
    if s.from < s.at { FreshIsLeading(s.sub); }
  }

  lemma OpenHolds(b: Bracket, r: nat)
    requires b.ring == r && b.open
    ensures Holds(b, r)
  {
  }

  lemma NoneOpenToo(b: Bracket, r: nat)
    requires NoneOpenSpan(b.body, r) && (b.ring == r ==> !b.open)
    ensures NoneOpen(b, r)
  {
  }

  /** A bracket on ring `r` meets no interruption by ring `r`. */
  lemma OwnRing(log: seq<LogRing>, r: nat, h: nat, k: nat, it: LogIntr, b: Bracket, c: Cursor)
    requires Fits(log, c) && it.ring < |log| && Laid(log, it, b, c) && b.ring == r && Met(log, c, After(b, c), h, k)
    ensures log[h].pend[k].ring != r
  {
    OwnRingSpan(log, r, h, k, b.ring, End(log, it), b.open, b.body, c);
  }

  lemma {:induction false} OwnRingSpan(log: seq<LogRing>, r: nat, h: nat, k: nat, q: nat, last: nat, open: bool, s: Span, c: Cursor)
    requires Fits(log, c) && q < |log| && r < |log| && LaidSpan(log, q, last, open, s, c) && Below(log, r, q) && Met(log, c, AfterSpan(q, s, c), h, k)
    ensures log[h].pend[k].ring != r
    decreases s, 0
  {
    hide Laid, After;
    if s.Cut? {
      CutMeets(log, q, last, open, s, c);
      var it := log[q].pend[c.p[q]];
      var c1 := PassIntr(c, q, s.at);
      var c2 := After(s.sub, c1);
      SubIs(log, it, s.sub, c1);
      if h == q && k == c.p[q] {
      } else if Met(log, c1, c2, h, k) {
        OwnRingSpan(log, r, h, k, it.ring, End(log, it), s.sub.open, s.sub.body, c1) by { AfterBody(s.sub, c1); }
      } else {
        OwnRingSpan(log, r, h, k, q, last, open, s.rest, c2);
      }
    }
  }

  // ---- what is at the tail --------------------------------------------------------------------

  /** A finished bracket meets finished interruptions only, on its own ring. */
  lemma {:induction false} OwnAreFinished(log: seq<LogRing>, q: nat, last: nat, s: Span, c: Cursor, k: nat)
    requires Fits(log, c) && q < |log| && LaidSpan(log, q, last, false, s, c) && LeadingSpan(false, s) && Met(log, c, AfterSpan(q, s, c), q, k)
    ensures !log[q].pend[k].open
    decreases s
  {
    hide Laid, After;
    if s.Cut? {
      CutMeets(log, q, last, false, s, c);
      SubIs(log, log[q].pend[c.p[q]], s.sub, PassIntr(c, q, s.at));
      FreshSpanIsLeading(false, s.rest);
      if k != c.p[q] { OwnAreFinished(log, q, last, s.rest, After(s.sub, PassIntr(c, q, s.at)), k); }
    }
  }

  /** Where a walk meets an unfinished interruption of ring `h`, it has met the unfinished interruption
      by ring `h` itself, unless it started on that ring. */
  lemma {:induction false} HostMet(log: seq<LogRing>, h: nat, k: nat, it: LogIntr, b: Bracket, c: Cursor) returns (x: nat, y: nat)
    requires Fits(log, c) && it.ring < |log| && Laid(log, it, b, c) && Leading(b) && Met(log, c, After(b, c), h, k) && log[h].pend[k].open && b.ring != h
    ensures Met(log, c, After(b, c), x, y) && log[x].pend[y].open && log[x].pend[y].ring == h
    decreases b, 1
  {
    x, y := HostMetInSpan(log, h, k, b.ring, End(log, it), b.open, b.body, c);
  }

  lemma {:induction false} HostMetInSpan(log: seq<LogRing>, h: nat, k: nat, q: nat, last: nat, open: bool, s: Span, c: Cursor) returns (x: nat, y: nat)
    requires Fits(log, c) && q < |log| && LaidSpan(log, q, last, open, s, c) && LeadingSpan(open, s) && Met(log, c, AfterSpan(q, s, c), h, k)
    requires log[h].pend[k].open && q != h
    ensures Met(log, c, AfterSpan(q, s, c), x, y) && log[x].pend[y].open && log[x].pend[y].ring == h
    decreases s, 0
  {
    hide Laid, After;
    assert s.Cut?;
    CutMeets(log, q, last, open, s, c);
    var it := log[q].pend[c.p[q]];
    var c1 := PassIntr(c, q, s.at);
    var c2 := After(s.sub, c1);
    SubIs(log, it, s.sub, c1);
    SubLeads(open, s);
    FreshSpanIsLeading(open, s.rest);
    if Met(log, c1, c2, h, k) {
      if it.ring == h {
        if !it.open { OwnAreFinished(log, h, End(log, it), s.sub.body, c1, k) by { AfterBody(s.sub, c1); } }
        x, y := q, c.p[q];
      } else {
        x, y := HostMet(log, h, k, it, s.sub, c1);
      }
    } else {
      x, y := HostMetInSpan(log, h, k, q, last, open, s.rest, c2);
    }
  }

  /** A handler that runs on `ring`: it interrupted ring `host`, as that ring's interruption `index`. */
  datatype Link = Link(ring: nat, host: nat, index: nat)

  function LastRing(r: nat, links: seq<Link>): nat
  {
    if links == [] then r else links[|links| - 1].ring
  }

  /** A handler interrupted ring `r` last, and nothing has been logged on it since; another interrupted
      that handler's ring last; and so on. */
  predicate Chain(log: seq<LogRing>, r: nat, links: seq<Link>)
    decreases |links|
  {
    links != [] ==>
      var l := links[|links| - 1];
      Chain(log, r, links[..|links| - 1]) && l.host == LastRing(r, links[..|links| - 1]) && l.host < |log| && l.ring < |log| &&
      Under(log, l.host, l.ring) && OneOpen(log, l.ring, l.host, l.index) && l.index == |log[l.host].pend| - 1 &&
      log[l.host].pend[l.index].at == log[l.host].prod
  }

  /** The chain from its second ring on. */
  lemma {:induction false} ChainOn(log: seq<LogRing>, r: nat, links: seq<Link>)
    requires r < |log| && Chain(log, r, links) && links != []
    ensures Chain(log, links[0].ring, links[1..]) && LastRing(links[0].ring, links[1..]) == LastRing(r, links)
    ensures links[0].host == r && links[0].ring < |log| && Under(log, r, links[0].ring) && OneOpen(log, links[0].ring, r, links[0].index)
    ensures links[0].index == |log[r].pend| - 1 && log[r].pend[links[0].index].at == log[r].prod
    decreases |links|
  {
    hide OneOpen;
    var front := links[..|links| - 1];
    if front != [] {
      ChainOn(log, r, front);
      assert links[1..][..|links[1..]| - 1] == front[1..];
      assert front[1..] == [] ==> LastRing(links[0].ring, front[1..]) == LastRing(r, front);
    } else {
      assert links[1..] == [];
    }
  }

  lemma {:induction false} ChainIsDeep(log: seq<LogRing>, r: nat, links: seq<Link>)
    requires r < |log| && Chain(log, r, links) && links != []
    ensures var l := links[|links| - 1];
            l.host < |log| && l.ring < |log| && Below(log, r, l.host) && Under(log, r, l.ring)
    decreases |links|
  {
    hide OneOpen;
    if |links| > 1 { ChainIsDeep(log, r, links[..|links| - 1]); }
  }

  /** An interruption of ring `q` that is not the chain's first meets none of the chain's. */
  lemma {:induction false} NotMetBelow(log: seq<LogRing>, q: nat, y: nat, b: Bracket, c: Cursor, links: seq<Link>)
    requires Fits(log, c) && q < |log| && log[q].pcons <= y < |log[q].pend| && y < |log[q].pend|
    requires var it := log[q].pend[y]; it.ring < |log| && Under(log, q, it.ring) && Laid(log, it, b, c) && Leading(b)
    requires Chain(log, q, links) && links != [] && y != links[0].index && Ahead(log, c)
    ensures var l := links[|links| - 1]; !Met(log, c, After(b, c), l.host, l.index)
    decreases |links|
  {
    hide Laid, After, OneOpen;
    var it, l, front := log[q].pend[y], links[|links| - 1], links[..|links| - 1];
    ChainIsDeep(log, q, links);
    AfterMoves(log, it, b, c);
    SubIs(log, it, b, c);
    OnlyFront(log, q, links);
    assert !Below(log, it.ring, q);
    if front != [] && Met(log, c, After(b, c), l.host, l.index) {
      ChainEnds(log, q, links);
      var m := front[|front| - 1];
      OnlyFront(log, q, front);
      ChainEnds(log, q, front);
      if b.ring == l.host {
        if !it.open { OwnAreFinished(log, l.host, End(log, it), b.body, c, l.index) by { AfterBody(b, c); } }
        OneIsOnly(log, m.ring, m.host, m.index, q, y);
      } else {
        var x, z := HostMet(log, l.host, l.index, it, b, c);
        OneIsOnly(log, m.ring, m.host, m.index, x, z);
        NotMetBelow(log, q, y, b, c, front);
      }
    }
  }

  lemma OneIs(log: seq<LogRing>, r: nat, h: nat, k: nat)
    requires OneOpen(log, r, h, k)
    ensures h < |log| && k < |log[h].pend| && log[h].pend[k].open && log[h].pend[k].ring == r
  {
  }

  lemma OneIsOnly(log: seq<LogRing>, r: nat, h: nat, k: nat, x: nat, y: nat)
    requires OneOpen(log, r, h, k) && x < |log| && log[x].pcons <= y < |log[x].pend| && log[x].pend[y].open && log[x].pend[y].ring == r
    ensures x == h && y == k
  {
  }

  /** The last ring of the chain is at the tail. */
  lemma {:induction false} TailIfChained(log: seq<LogRing>, it: LogIntr, b: Bracket, c: Cursor, links: seq<Link>)
    requires Fits(log, c) && it.ring < |log| && Laid(log, it, b, c) && b.open && End(log, it) == log[it.ring].prod && Ahead(log, c)
    requires Chain(log, b.ring, links) && Leading(b)
    requires links != [] ==> var l := links[|links| - 1]; Met(log, c, After(b, c), l.host, l.index)
    ensures AtTail(b, LastRing(b.ring, links))
    decreases b, 1
  {
    hide OneOpen;
    if links != [] { TailSpanIfChained(log, b.ring, b.body, c, links); }
  }

  lemma {:induction false} TailSpanIfChained(log: seq<LogRing>, q: nat, s: Span, c: Cursor, links: seq<Link>)
    requires Fits(log, c) && q < |log| && LaidSpan(log, q, log[q].prod, true, s, c) && Ahead(log, c) && Chain(log, q, links) && links != []
    requires LeadingSpan(true, s)
    requires var l := links[|links| - 1]; Met(log, c, AfterSpan(q, s, c), l.host, l.index)
    ensures AtTailSpan(s, LastRing(q, links))
    decreases s, 0
  {
    hide Laid, After, AtTail, NoneOpen, OneOpen, Chain;
    var l := links[|links| - 1];
    ChainIsDeep(log, q, links);
    ChainOn(log, q, links);
    OneIs(log, links[0].ring, q, links[0].index);
    if s.Cut? {
      CutMeets(log, q, log[q].prod, true, s, c);
      var it := log[q].pend[c.p[q]];
      var c1 := PassIntr(c, q, s.at);
      var c2 := After(s.sub, c1);
      SubIs(log, it, s.sub, c1);
      SubLeads(true, s);
      FreshSpanIsLeading(true, s.rest);
      if c.p[q] == links[0].index {
        LastOfRing(log, q, s.rest, c2);
        OnlyFront(log, q, links);
        assert links[1..] != [] ==> links[1..][|links[1..]| - 1] == l;
        TailIfChained(log, it, s.sub, c1, links[1..]);
      } else {
        NotMetBelow(log, q, c.p[q], s.sub, c1, links);
        OnlyFront(log, q, links);
        UnmetIsNone(log, c1, c2, l.ring, l.host, l.index) by { ChainEnds(log, q, links); }
        NoneOpenOnWay(log, l.ring, it, s.sub, c1);
        if s.sub.ring == l.ring && it.open {
          ChainEnds(log, q, links);
          OneIsOnly(log, l.ring, l.host, l.index, q, c.p[q]);
        }
        NoneOpenToo(s.sub, l.ring);
        TailSpanIfChained(log, q, s.rest, c2, links);
      }
    }
  }

  lemma ChainEnds(log: seq<LogRing>, r: nat, links: seq<Link>)
    requires Chain(log, r, links) && links != []
    ensures var l := links[|links| - 1];
            OneOpen(log, l.ring, l.host, l.index) && l.host == LastRing(r, links[..|links| - 1]) && Chain(log, r, links[..|links| - 1])
    ensures var l := links[|links| - 1];
            l.host < |log| && l.index < |log[l.host].pend| && log[l.host].pend[l.index].open && log[l.host].pend[l.index].ring == l.ring
  {
    var l := links[|links| - 1];
    OneIs(log, l.ring, l.host, l.index);
    hide OneOpen;
  }

  lemma OnlyFront(log: seq<LogRing>, r: nat, links: seq<Link>)
    requires r < |log| && Chain(log, r, links) && links != []
    ensures links[|links| - 1].host == r <==> |links| == 1
    ensures |links| == 1 ==> links[|links| - 1] == links[0] && links[1..] == []
  {
    hide OneOpen;
    if |links| > 1 { ChainIsDeep(log, r, links[..|links| - 1]); }
  }

  /** After the last interruption of a ring, at its producer, there is nothing. */
  lemma LastOfRing(log: seq<LogRing>, q: nat, s: Span, c: Cursor)
    requires Fits(log, c) && q < |log| && LaidSpan(log, q, log[q].prod, true, s, c) && c.p[q] == |log[q].pend| && c.w[q] == log[q].prod
    ensures s.Done? && s.from == s.to && AfterSpan(q, s, c).p == c.p
  {
  }

  // ---- what may finish --------------------------------------------------------------------------

  /** The handlers that interrupted ring `x` have finished, and words have been logged since. */
  predicate Ended(log: seq<LogRing>, x: nat)
    requires x < |log|
  {
    forall k | log[x].pcons <= k < |log[x].pend| :: !log[x].pend[k].open && log[x].pend[k].at < log[x].prod
  }

  lemma {:induction false} EndedIsClosable(log: seq<LogRing>, x: nat, s: Span, c: Cursor)
    requires Fits(log, c) && x < |log| && LaidSpan(log, x, log[x].prod, true, s, c) && Ended(log, x) && log[x].pcons <= c.p[x]
    ensures Closable(s)
    decreases s
  {
    hide Laid, After;
    if s.Cut? {
      CutMeets(log, x, log[x].prod, true, s, c);
      var c1 := PassIntr(c, x, s.at);
      SubIs(log, log[x].pend[c.p[x]], s.sub, c1);
      EndedIsClosable(log, x, s.rest, After(s.sub, c1));
    }
  }

  lemma {:induction false} MayLeaveIfEnded(log: seq<LogRing>, x: nat, it: LogIntr, b: Bracket, c: Cursor)
    requires Fits(log, c) && it.ring < |log| && x < |log| && Laid(log, it, b, c) && Holds(b, x) && Ended(log, x) && Ahead(log, c)
    requires b.open ==> End(log, it) == log[it.ring].prod
    ensures MayLeave(b, x)
    decreases b, 1
  {
    if b.ring == x { EndedIsClosable(log, x, b.body, c); } else { MayLeaveSpanIfEnded(log, x, b.ring, End(log, it), b.open, b.body, c); }
  }

  lemma {:induction false} MayLeaveSpanIfEnded(log: seq<LogRing>, x: nat, q: nat, last: nat, open: bool, s: Span, c: Cursor)
    requires Fits(log, c) && q < |log| && x < |log| && LaidSpan(log, q, last, open, s, c) && HoldsSpan(s, x) && Ended(log, x) && Ahead(log, c)
    ensures MayLeaveSpan(s, x)
    decreases s, 0
  {
    hide Laid, After, Holds, MayLeave, Away, NoneOpen, Ended;
    CutMeets(log, q, last, open, s, c);
    var it := log[q].pend[c.p[q]];
    var c1 := PassIntr(c, q, s.at);
    if AwaySpan(s.rest, x) {
      SubIs(log, it, s.sub, c1);
      MayLeaveIfEnded(log, x, it, s.sub, c1);
    } else {
      MayLeaveSpanIfEnded(log, x, q, last, open, s.rest, After(s.sub, c1));
    }
  }

  /** The finished interruptions by ring `h` that have not been dropped ended before its producer. */
  predicate Untouched(log: seq<LogRing>, root: nat, h: nat)
    requires h < |log| && root < |log|
  {
    forall x, k | 0 <= x < |log| && Below(log, root, x) && log[x].pcons <= k < |log[x].pend| && log[x].pend[k].ring == h && !log[x].pend[k].open ::
      log[x].pend[k].eidx < log[h].prod
  }

  lemma {:induction false} EndBeforeIf(log: seq<LogRing>, root: nat, h: nat, it: LogIntr, b: Bracket, c: Cursor)
    requires Fits(log, c) && it.ring < |log| && h < |log| && root < |log| && Laid(log, it, b, c) && Below(log, root, it.ring) && Untouched(log, root, h)
    requires Ahead(log, c) && (it.ring == h && !it.open ==> End(log, it) < log[h].prod)
    ensures EndBefore(b, h, log[h].prod)
    decreases b, 1
  {
    SubIs(log, it, b, c);
    EndIs(log, b.ring, End(log, it), b.open, b.body, c);
    EndBeforeSpanIf(log, root, h, b.ring, End(log, it), b.open, b.body, c);
  }

  lemma {:induction false} EndBeforeSpanIf(log: seq<LogRing>, root: nat, h: nat, q: nat, last: nat, open: bool, s: Span, c: Cursor)
    requires Fits(log, c) && q < |log| && h < |log| && root < |log| && LaidSpan(log, q, last, open, s, c) && Below(log, root, q) && Untouched(log, root, h)
    requires Ahead(log, c)
    ensures EndBeforeSpan(s, h, log[h].prod)
    decreases s, 0
  {
    hide Laid, After, EndBefore;
    if s.Cut? {
      CutMeets(log, q, last, open, s, c);
      var it := log[q].pend[c.p[q]];
      var c1 := PassIntr(c, q, s.at);
      BelowIsBelow(log, q, it.ring);
      EndBeforeIf(log, root, h, it, s.sub, c1);
      EndBeforeSpanIf(log, root, h, q, last, open, s.rest, After(s.sub, c1));
    }
  }

  // ---- where a handler's words begin --------------------------------------------------------------

  /** The unfinished brackets on ring `x` start at position `pos`: nothing of them has been read. */
  predicate StartsAt(b: Bracket, x: nat, pos: nat)
    decreases b, 1
  {
    (b.ring == x && b.open ==> b.body.from == pos) && StartsSpanAt(b.body, x, pos)
  }

  predicate StartsSpanAt(s: Span, x: nat, pos: nat)
    decreases s, 0
  {
    s.Cut? ==> StartsAt(s.sub, x, pos) && StartsSpanAt(s.rest, x, pos)
  }

  /** Everything before the unfinished bracket on ring `x` has been read. */
  predicate Front(b: Bracket, x: nat)
    decreases b, 1
  {
    (b.ring == x && b.open) || FrontSpan(b.body, x)
  }

  predicate FrontSpan(s: Span, x: nat)
    decreases s, 0
  {
    s.Cut? && s.at <= s.from && Front(s.sub, x)
  }

  lemma {:induction false} FrontIsOpen(b: Bracket, x: nat)
    requires Front(b, x)
    ensures !NoneOpen(b, x)
    decreases b, 1
  {
    if !(b.ring == x && b.open) { FrontIsOpen(b.body.sub, x); }
  }

  lemma {:induction false} LaidStarts(log: seq<LogRing>, x: nat, pos: nat, it: LogIntr, b: Bracket, c: Cursor)
    requires Fits(log, c) && it.ring < |log| && Laid(log, it, b, c) && Ahead(log, c)
    requires forall q, k | 0 <= q < |log| && log[q].pcons <= k < |log[q].pend| ::
               log[q].pend[k].open && log[q].pend[k].ring == x ==> log[q].pend[k].sidx == pos
    ensures StartsSpanAt(b.body, x, pos)
    decreases b, 1
  {
    LaidSpanStarts(log, x, pos, b.ring, End(log, it), b.open, b.body, c);
  }

  lemma {:induction false} LaidSpanStarts(log: seq<LogRing>, x: nat, pos: nat, r: nat, last: nat, open: bool, s: Span, c: Cursor)
    requires Fits(log, c) && r < |log| && LaidSpan(log, r, last, open, s, c) && Ahead(log, c)
    requires forall q, k | 0 <= q < |log| && log[q].pcons <= k < |log[q].pend| ::
               log[q].pend[k].open && log[q].pend[k].ring == x ==> log[q].pend[k].sidx == pos
    ensures StartsSpanAt(s, x, pos)
    decreases s, 0
  {
    hide Laid, After;
    if s.Cut? {
      CutMeets(log, r, last, open, s, c);
      var it := log[r].pend[c.p[r]];
      var c1 := PassIntr(c, r, s.at);
      SubIs(log, it, s.sub, c1);
      LaidStarts(log, x, pos, it, s.sub, c1);
      LaidSpanStarts(log, x, pos, r, last, open, s.rest, After(s.sub, c1));
    }
  }

  lemma {:induction false} StartsAreLaid(log: seq<LogRing>, x: nat, pos: nat, it: LogIntr, b: Bracket, c: Cursor, q: nat, k: nat)
    requires Fits(log, c) && it.ring < |log| && Laid(log, it, b, c) && StartsSpanAt(b.body, x, pos)
    requires Met(log, c, After(b, c), q, k) && log[q].pend[k].open && log[q].pend[k].ring == x
    ensures log[q].pend[k].sidx == pos
    decreases b, 1
  {
    StartsSpansAreLaid(log, x, pos, b.ring, End(log, it), b.open, b.body, c, q, k);
  }

  lemma {:induction false} StartsSpansAreLaid(log: seq<LogRing>, x: nat, pos: nat, r: nat, last: nat, open: bool, s: Span, c: Cursor, q: nat, k: nat)
    requires Fits(log, c) && r < |log| && LaidSpan(log, r, last, open, s, c) && StartsSpanAt(s, x, pos)
    requires Met(log, c, AfterSpan(r, s, c), q, k) && log[q].pend[k].open && log[q].pend[k].ring == x
    ensures log[q].pend[k].sidx == pos
    decreases s, 0
  {
    hide Laid, After;
    if s.Cut? {
      CutMeets(log, r, last, open, s, c);
      var it := log[r].pend[c.p[r]];
      var c1 := PassIntr(c, r, s.at);
      SubIs(log, it, s.sub, c1);
      if Met(log, c1, After(s.sub, c1), q, k) {
        StartsAreLaid(log, x, pos, it, s.sub, c1, q, k);
      } else if q != r || k != c.p[r] {
        StartsSpansAreLaid(log, x, pos, r, last, open, s.rest, After(s.sub, c1), q, k);
      }
    }
  }

  // ---- a handler that has logged may finish -------------------------------------------------------

  lemma {:induction false} ClosableIsFresh(s: Span)
    requires Closable(s) && FreshSpan(true, s) && (s.Done? ==> s.from < s.to)
    ensures FreshSpan(false, s)
    decreases s
  {
    hide Fresh;
    if s.Cut? { ClosableIsFresh(s.rest); }
  }

  lemma {:induction false} LeaveIsFresh(b: Bracket, x: nat, pos: nat)
    requires Holds(b, x) && MayLeave(b, x) && Fresh(b) && StartsAt(b, x, pos) && pos < TipOf(b, x)
    ensures Fresh(LeaveOn(b, x))
    decreases b, 1
  {
    if b.ring == x { ClosableIsFresh(b.body); } else { LeaveSpanIsFresh(b.open, b.body, x, pos); }
  }

  lemma {:induction false} LeaveSpanIsFresh(open: bool, s: Span, x: nat, pos: nat)
    requires HoldsSpan(s, x) && MayLeaveSpan(s, x) && FreshSpan(open, s) && StartsSpanAt(s, x, pos) && pos < TipOfSpan(s, x)
    ensures FreshSpan(open, LeaveOnSpan(s, x))
    decreases s, 0
  {
    hide Holds, MayLeave, Fresh, Away, NoneOpen, LeaveOn, StartsAt;
    if AwaySpan(s.rest, x) { LeaveIsFresh(s.sub, x, pos); } else { LeaveSpanIsFresh(open, s.rest, x, pos); }
  }

  lemma {:induction false} LeaveIsLeading(b: Bracket, x: nat, pos: nat)
    requires Holds(b, x) && MayLeave(b, x) && Leading(b) && (Front(b, x) || (StartsAt(b, x, pos) && pos < TipOf(b, x)))
    ensures Leading(LeaveOn(b, x))
    decreases b, 1
  {
    if b.ring == x {
      if b.body.Cut? { ClosableRest(b.body); }
    } else {
      LeaveSpanIsLeading(b.open, b.body, x, pos);
    }
  }

  lemma ClosableRest(s: Span)
    requires s.Cut? && Closable(s) && LeadingSpan(true, s)
    ensures LeadingSpan(false, s)
  {
    ClosableIsFresh(s.rest);
  }

  lemma {:induction false} LeaveSpanIsLeading(open: bool, s: Span, x: nat, pos: nat)
    requires HoldsSpan(s, x) && MayLeaveSpan(s, x) && LeadingSpan(open, s)
    requires FrontSpan(s, x) || (StartsSpanAt(s, x, pos) && pos < TipOfSpan(s, x))
    ensures LeadingSpan(open, LeaveOnSpan(s, x))
    decreases s, 0
  {
    hide Holds, MayLeave, Fresh, Away, NoneOpen, LeaveOn, StartsAt, Leading, Front;
    if AwaySpan(s.rest, x) {
      if s.from < s.at { LeaveIsFresh(s.sub, x, pos); } else { LeaveIsLeading(s.sub, x, pos); }
    } else {
      if FrontSpan(s, x) { FrontIsOpen(s.sub, x); }
      LeaveSpanIsFresh(open, s.rest, x, pos);
    }
  }

  // ---- what the passes of the serializer leave of it ------------------------------------------------

  lemma {:induction false} DropStarts(b: Bracket, x: nat, pos: nat)
    ensures Front(b, x) ==> Front(Drop(b).0, x) && !Drop(b).1
    ensures StartsAt(b, x, pos) ==> Front(Drop(b).0, x) || StartsAt(Drop(b).0, x, pos)
    ensures Drop(b).1 ==> NoneOpen(b, x)
    ensures NoneOpen(Drop(b).0, x) ==> NoneOpen(b, x)
    decreases b, 1
  {
    DropSpanStarts(b.open, b.body, x, pos);
  }

  lemma {:induction false} DropSpanStarts(open: bool, s: Span, x: nat, pos: nat)
    ensures FrontSpan(s, x) ==> FrontSpan(DropSpan(open, s).0, x) && !DropSpan(open, s).1
    ensures StartsSpanAt(s, x, pos) ==> FrontSpan(DropSpan(open, s).0, x) || StartsSpanAt(DropSpan(open, s).0, x, pos)
    ensures DropSpan(open, s).1 ==> !open && NoneOpenSpan(s, x)
    ensures NoneOpenSpan(DropSpan(open, s).0, x) ==> NoneOpenSpan(s, x)
    decreases s, 0
  {
    hide StartsAt, Front, NoneOpen, Drop;
    if s.Cut? {
      DropStarts(s.sub, x, pos);
      DropSpanStarts(open, s.rest, x, pos);
    }
  }

  lemma {:induction false} LeftStarts(n: nat, b: Bracket, t: Bracket, room: nat, d: nat, x: nat, pos: nat)
    requires 0 < n && Grown(b, t)
    ensures var l := Left(n, b, t, room, d);
            (Front(t, x) ==> Front(l, x)) && (StartsAt(t, x, pos) ==> Front(l, x) || StartsAt(l, x, pos)) &&
            (NoneOpen(l, x) ==> NoneOpen(t, x))
    decreases b, 1
  {
    LeftSpanStarts(n, b.ring, b.depth, b.open, b.body, t.body, room, d, x, pos);
  }

  lemma {:induction false} LeftSpanStarts(n: nat, ring: nat, depth: nat, open: bool, s: Span, t: Span, room: nat, d: nat, x: nat, pos: nat)
    requires 0 < n && GrownSpan(open, s, t)
    ensures var l := LeftSpan(n, ring, depth, open, s, t, room, d);
            (FrontSpan(t, x) ==> FrontSpan(l, x)) && (StartsSpanAt(t, x, pos) ==> FrontSpan(l, x) || StartsSpanAt(l, x, pos)) &&
            (NoneOpenSpan(l, x) ==> NoneOpenSpan(t, x))
    decreases s, 0
  {
    hide StartsAt, Front, NoneOpen, Left, Emit, Pieces, Grown;
    if room > 0 && s.Cut? {
      var lead := Lead(n, ring, depth, s.from, s.at, room, d);
      if lead.Some? {
        var room1, d1 := room - |lead.value|, LeadDepth(depth, s.from, s.at, d);
        LeftStarts(n, s.sub, t.sub, room1, d1, x, pos);
        var l := Left(n, s.sub, t.sub, room1, d1);
        SpentHasNone(l, x);
        var e := Emit(n, s.sub, room1, d1);
        if Spent(l) && e.residue >= 0 {
          LeftSpanStarts(n, ring, depth, open, s.rest, t.rest, e.residue, e.depth, x, pos);
        }
      }
    }
  }

  lemma SpentHasNone(l: Bracket, x: nat)
    ensures Spent(l) ==> NoneOpen(l, x) && !Front(l, x)
  {
  }

  // ---- what the producers' steps leave of it ----------------------------------------------------------

  /** What happens at the end of a bracket does not matter at its front. */
  lemma EndsKeepFront(s: Span, k: nat, sub: Bracket, x: nat)
    ensures FrontSpan(s, x) ==> FrontSpan(Longer(s, k), x) && FrontSpan(MarkEnd(s), x) && FrontSpan(Interrupted(s, sub), x)
  {
    hide Front;
  }

  lemma {:induction false} PutKeepsFront(b: Bracket, r: nat, k: nat, x: nat)
    requires Holds(b, r)
    ensures Front(b, x) ==> Front(PutOn(b, r, k), x)
    decreases b, 1
  {
    EndsKeepFront(b.body, k, b, x);
    if b.ring != r { PutSpanKeepsFront(b.body, r, k, x); }
  }

  lemma {:induction false} PutSpanKeepsFront(s: Span, r: nat, k: nat, x: nat)
    requires HoldsSpan(s, r)
    ensures FrontSpan(s, x) ==> FrontSpan(PutOnSpan(s, r, k), x)
    decreases s, 0
  {
    hide Holds, PutOn, Front, Away, NoneOpen;
    if AwaySpan(s.rest, r) { PutKeepsFront(s.sub, r, k, x); }
  }

  lemma {:induction false} LeaveKeepsFront(b: Bracket, r: nat, x: nat)
    requires Holds(b, r) && r != x
    ensures Front(b, x) ==> Front(LeaveOn(b, r), x)
    decreases b, 1
  {
    if b.ring != r { LeaveSpanKeepsFront(b.body, r, x); }
  }

  lemma {:induction false} LeaveSpanKeepsFront(s: Span, r: nat, x: nat)
    requires HoldsSpan(s, r) && r != x
    ensures FrontSpan(s, x) ==> FrontSpan(LeaveOnSpan(s, r), x)
    decreases s, 0
  {
    hide Holds, LeaveOn, Front, Away, NoneOpen;
    if AwaySpan(s.rest, r) { LeaveKeepsFront(s.sub, r, x); }
  }

  lemma {:induction false} MarkKeepsFront(b: Bracket, h: nat, x: nat)
    ensures Front(b, x) ==> Front(Mark(b, h), x)
    decreases b, 1
  {
    EndsKeepFront(b.body, 0, b, x);
    if b.ring != h && b.body.Cut? { MarkKeepsFront(b.body.sub, h, x); }
  }

  lemma {:induction false} EnterKeepsFront(b: Bracket, h: nat, sub: Bracket, x: nat)
    requires AtTail(b, h)
    ensures Front(b, x) ==> Front(EnterOn(b, h, sub), x)
    decreases b, 1
  {
    EndsKeepFront(b.body, 0, sub, x);
    if b.ring != h { EnterSpanKeepsFront(b.body, h, sub, x); }
  }

  lemma {:induction false} EnterSpanKeepsFront(s: Span, h: nat, sub: Bracket, x: nat)
    requires AtTailSpan(s, h)
    ensures FrontSpan(s, x) ==> FrontSpan(EnterOnSpan(s, h, sub), x)
    decreases s, 0
  {
    hide AtTail, EnterOn, Front, NoneOpen, Mark;
    if s.rest.Done? { EnterKeepsFront(s.sub, h, sub, x); } else { MarkKeepsFront(s.sub, h, x); }
  }

  lemma {:induction false} RelabelKeepsFront(b: Bracket, q: nat, depth: nat, x: nat)
    ensures Front(Relabel(b, q, depth), x) <==> Front(b, x)
    decreases b, 1
  {
    if b.body.Cut? { RelabelKeepsFront(b.body.sub, q, depth, x); }
  }

  /** Who holds a ring has not finished. */
  lemma {:induction false} HolderIsOpen(b: Bracket, x: nat)
    requires Holds(b, x)
    ensures !NoneOpen(b, x)
    decreases b, 1
  {
    if b.ring != x { HolderSpanIsOpen(b.body, x); }
  }

  lemma {:induction false} HolderSpanIsOpen(s: Span, x: nat)
    requires HoldsSpan(s, x)
    ensures !NoneOpenSpan(s, x)
    decreases s, 0
  {
    hide Holds, NoneOpen, Away;
    if AwaySpan(s.rest, x) { HolderIsOpen(s.sub, x); } else { HolderSpanIsOpen(s.rest, x); }
  }
}
