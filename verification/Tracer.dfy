/** The whole of the tracer at work: producers and the serializer on the same rings. */
module Tracer {
  import opened Basics
  import opened EventTree
  import opened Plans
  import opened Arcs
  import opened EventLog
  import opened TraceFile
  import opened Serializer
  import opened Producers
  import opened Threads

  // ---- the producers' operations on rings ------------------------------------------------

  /** Ring `r` had `words` put at position `pos`; nothing else about the rings' words, threads
      and depths has changed. */
  predicate PutInto(n: nat, a: seq<Ring>, b: seq<Ring>, r: nat, pos: nat, words: seq<Word>)
    requires 0 < n
  {
    |a| == |b| && r < |a| && (forall q | 0 <= q < |a| && q != r :: b[q] == a[q]) &&
    |a[r].items| == n && |words| < n &&
    b[r].items == Overwritten(n, a[r].items, Idx(n, pos), Idx(n, pos + |words|), words)
  }

  /** The slots of a ring after `words` are copied in from index `prev` up to `next`, in one
      piece or in two. */
  function Overwritten(n: nat, items: seq<Word>, prev: nat, next: nat, words: seq<Word>): (r: seq<Word>)
    requires |items| == n && prev < n && next < n && |words| < n
  {
    if prev < next && next == prev + |words| then items[..prev] + words + items[next..]
    else if next <= prev && |words| == n - prev + next
    then words[n - prev..] + items[next..prev] + words[..n - prev]
    else items
  }

  lemma OverwrittenAt(n: nat, items: seq<Word>, pos: nat, words: seq<Word>, p: nat)
    requires 0 < n && |items| == n && 0 < |words| < n && pos <= p < pos + n
    ensures var r := Overwritten(n, items, Idx(n, pos), Idx(n, pos + |words|), words);
            |r| == n && r[Idx(n, p)] == if p < pos + |words| then words[p - pos] else items[Idx(n, p)]
  {
    Wrap(n, pos, pos + |words|);
    Wrap(n, pos, p);
    hide Idx;
  }

  /** rvp_ring_nempty */
  method Nempty(f: EventForest, r: nat) returns (k: int)
    requires f.Valid() && r < |f.rings|
    ensures k == f.size - 1 - (f.log[r].prod - f.log[r].cons)
  {
    hide Idx;
    assert RepRing(f.size, f.rings[r], f.log[r]) && BoundedRing(f.size, |f.log|, f.log[r]);
    OffIdx(f.size, f.log[r].cons, f.log[r].prod);
    var producer, consumer := f.rings[r].producer, f.rings[r].consumer;
    var nfull := if producer >= consumer then producer - consumer else f.size - (consumer - producer);
    k := f.size - 1 - nfull;
  }

  /** rvp_ring_put_multiple, once the ring has room. */
  method PutMultiple(f: EventForest, r: nat, words: seq<Word>)
    requires f.Valid() && r < |f.rings| && 0 < |words| && f.log[r].prod + |words| < f.log[r].cons + f.size
    modifies f`rings, f`log
    ensures f.Valid() && f.log == PutLog(old(f.log), r, |words|)
    ensures PutInto(f.size, old(f.rings), f.rings, r, old(f.log)[r].prod, words)
  {
    hide Idx, Overwritten, RepIntr;
    var n, ring, nitems := f.size, f.rings[r], |words|;
    assert RepRing(n, ring, f.log[r]) && BoundedRing(n, |f.log|, f.log[r]);
    var prev := ring.producer;
    var next := if prev + nitems <= n - 1 then prev + nitems else prev + nitems - n;
    NextIndex(n, f.log[r].prod, nitems);
    var nempty := Nempty(f, r);
    assert nempty >= nitems;
    var items;
    if prev < next {
      items := ring.items[..prev] + words + ring.items[next..];
    } else {
      var nfirst := n - prev;
      items := words[nfirst..] + ring.items[next..prev] + words[..nfirst];
    }
    assert items == Overwritten(n, ring.items, prev, next, words) by { CopiedIn(n, ring.items, prev, next, words); }
    OverwrittenAt(n, ring.items, f.log[r].prod, words, f.log[r].prod);
    f.rings := f.rings[r := ring.(items := items, producer := next)];
    f.log := PutLog(f.log, r, nitems);
    PutBounded(n, old(f.log), r, nitems);
    assert RepRing(n, f.rings[r], f.log[r]);
    assert forall q | 0 <= q < |f.log| && q != r :: f.rings[q] == old(f.rings)[q] && f.log[q] == old(f.log)[q];
  }

  lemma NextIndex(n: nat, pos: nat, k: nat)
    requires 0 < k < n
    ensures Idx(n, pos + k) == if Idx(n, pos) + k <= n - 1 then Idx(n, pos) + k else Idx(n, pos) + k - n
  {
    Wrap(n, pos, pos + k);
  }

  lemma CopiedIn(n: nat, items: seq<Word>, prev: nat, next: nat, words: seq<Word>)
    requires 0 < n && |items| == n && prev < n && 0 < |words| < n
    requires next == if prev + |words| <= n - 1 then prev + |words| else prev + |words| - n
    ensures prev < next ==> Overwritten(n, items, prev, next, words) == items[..prev] + words + items[next..]
    ensures prev >= next ==> |words| == n - prev + next &&
                             Overwritten(n, items, prev, next, words) == words[n - prev..] + items[next..prev] + words[..n - prev]
  {
  }

  /** rvp_ring_put_interruption on ring `h`, once its interruptions ring has room. */
  method PutInterruption(f: EventForest, h: nat, q: nat, sidx: nat) returns (slot: nat)
    requires f.Valid() && h < |f.rings| && q < |f.rings| && |f.log[h].pend| < f.log[h].pcons + 7
    requires sidx == f.rings[q].producer
    modifies f`rings, f`log
    ensures f.Valid() && f.log == EnterLog(old(f.log), h, q) && SameItems(old(f.rings), f.rings)
    ensures slot == Idx(8, |old(f.log)[h].pend|)
  {
    hide Idx, RepIntr;
    var n, ring := f.size, f.rings[h];
    ghost var k := |f.log[h].pend|;
    assert RepRing(n, ring, f.log[h]) && BoundedRing(n, |f.log|, f.log[h]) && RepRing(n, f.rings[q], f.log[q]);
    slot := ring.iproducer;
    var next := NextSlot(slot);
    NextSlotIsNext(k);
    var it := Interruption(q, ring.producer, sidx, -1);
    f.rings := f.rings[h := ring.(islots := ring.islots[slot := it], iproducer := next)];
    f.log := EnterLog(f.log, h, q);
    EnterBounded(n, old(f.log), h, q);
    forall j | f.log[h].pcons <= j < |f.log[h].pend|
      ensures RepIntr(n, f.rings[h].islots[Idx(8, j)], f.log[h].pend[j])
    {
      SlotsDiffer(j, k);
      if j < k {
        assert RepIntr(n, ring.islots[Idx(8, j)], old(f.log)[h].pend[j]);
      } else {
        NewIntr(n, q, old(f.log)[h].prod, old(f.log)[q].prod);
      }
    }
    assert RepRing(n, f.rings[h], f.log[h]);
    assert forall x | 0 <= x < |f.log| && x != h :: f.rings[x] == old(f.rings)[x] && f.log[x] == old(f.log)[x];
  }

  lemma NewIntr(n: nat, q: nat, at: nat, sidx: nat)
    requires 0 < n
    ensures RepIntr(n, Interruption(q, Idx(n, at), Idx(n, sidx), -1), LogIntr(q, at, sidx, 0, true))
  {
  }

  /** rvp_interruption_close of the interruption in a slot of ring `h`, at its ring's producer. */
  method CloseInterruption(f: EventForest, h: nat, slot: nat, eidx: nat, ghost j: nat)
    requires f.Valid() && OnlyOpen(f.log, h, j) && slot == Idx(8, j)
    requires eidx == f.rings[f.log[h].pend[j].ring].producer
    modifies f`rings, f`log
    ensures f.Valid() && f.log == LeaveLog(old(f.log), h, j) && SameItems(old(f.rings), f.rings)
  {
    hide Idx, RepIntr;
    var n, ring := f.size, f.rings[h];
    ghost var q := f.log[h].pend[j].ring;
    assert RepRing(n, ring, f.log[h]) && BoundedRing(n, |f.log|, f.log[h]) && RepRing(n, f.rings[q], f.log[q]);
    f.rings := f.rings[h := ring.(islots := ring.islots[slot := ring.islots[slot].(eidx := eidx)])];
    f.log := LeaveLog(f.log, h, j);
    LeaveBounded(n, old(f.log), h, j);
    forall x | f.log[h].pcons <= x < |f.log[h].pend|
      ensures RepIntr(n, f.rings[h].islots[Idx(8, x)], f.log[h].pend[x])
    {
      SlotsDiffer(if x < j then x else j, if x < j then j else x);
      assert RepIntr(n, ring.islots[Idx(8, x)], old(f.log)[h].pend[x]);
      if x == j {
        ClosedIntr(n, ring.islots[slot], old(f.log)[h].pend[j], old(f.log)[q].prod);
      }
    }
    assert RepRing(n, f.rings[h], f.log[h]);
    assert forall x | 0 <= x < |f.log| && x != h :: f.rings[x] == old(f.rings)[x] && f.log[x] == old(f.log)[x];
  }

  lemma ClosedIntr(n: nat, i: Interruption, l: LogIntr, end: nat)
    requires 0 < n && RepIntr(n, i, l)
    ensures RepIntr(n, i.(eidx := Idx(n, end)), l.(eidx := end, open := false))
  {
  }

  /** The part of rvp_signal_ring_acquire that makes a clean ring its holder's. */
  method AcquireRing(f: EventForest, q: nat, tid: nat, idepth: nat)
    requires f.Valid() && q < |f.rings|
    modifies f`rings, f`log
    ensures f.Valid() && f.log == AcquireLog(old(f.log), q, tid, idepth) && SameItems(old(f.rings), f.rings)
  {
    hide Idx, RepIntr;
    assert RepRing(f.size, f.rings[q], f.log[q]);
    f.rings := f.rings[q := f.rings[q].(tid := tid, idepth := idepth)];
    f.log := AcquireLog(f.log, q, tid, idepth);
    AcquireBounded(f.size, old(f.log), q, tid, idepth);
    assert RepRing(f.size, f.rings[q], f.log[q]);
    assert forall x | 0 <= x < |f.log| && x != q :: f.rings[x] == old(f.rings)[x] && f.log[x] == old(f.log)[x];
  }

  // ---- unserialized words stay as they are ---------------------------------------------------

  predicate Live(log: seq<LogRing>, s: Slot)
  {
    s.ring < |log| && log[s.ring].cons <= s.pos < log[s.ring].prod
  }

  predicate AllLive(log: seq<LogRing>, ss: seq<Slot>)
  {
    forall k | 0 <= k < |ss| :: Live(log, ss[k])
  }

  lemma {:induction false} RunIsLive(log: seq<LogRing>, ring: nat, depth: nat, from: nat, to: nat)
    requires ring < |log| && log[ring].cons <= from && to <= log[ring].prod
    ensures AllLive(log, Run(ring, depth, from, to))
    decreases if from < to then to - from else 0
  {
    if from < to { RunIsLive(log, ring, depth, from + 1, to); }
  }

  lemma {:induction false} TreeIsLive(log: seq<LogRing>, it: LogIntr, b: Bracket, c: Cursor)
    requires Fits(log, c) && it.ring < |log| && Laid(log, it, b, c) && Ahead(log, c)
    ensures AllLive(log, Flatten(b))
    decreases b, 1
  {
    SpanIsLive(log, b.ring, b.depth, End(log, it), b.open, b.body, c);
  }

  lemma {:induction false} SpanIsLive(log: seq<LogRing>, r: nat, depth: nat, last: nat, open: bool, s: Span, c: Cursor)
    requires Fits(log, c) && r < |log| && LaidSpan(log, r, last, open, s, c) && last <= log[r].prod && Ahead(log, c)
    ensures AllLive(log, FlattenSpan(r, depth, s))
    decreases s, 0
  {
    hide Laid, After, Live, Flatten;
    match s {
      case Done(from, to, _) => RunIsLive(log, r, depth, from, to);
      case Cut(from, at, sub, rest) =>
        var it := log[r].pend[c.p[r]];
        var c1 := PassIntr(c, r, at);
        RunIsLive(log, r, depth, from, at);
        AfterMoves(log, it, sub, c1);
        TreeIsLive(log, it, sub, c1);
        SpanIsLive(log, r, depth, last, open, rest, After(sub, c1));
    }
  }

  /** Words of a thread, as they are logged. */
  function TagWords(tid: nat, depth: nat, words: seq<Word>): (r: seq<Tagged>)
    ensures |r| == |words| && forall k | 0 <= k < |words| :: r[k] == Tagged(tid, depth, words[k])
  {
    seq(|words|, k requires 0 <= k < |words| => Tagged(tid, depth, words[k]))
  }

  /** Putting words on a ring overwrites no unserialized word. */
  lemma LiveStays(n: nat, a: seq<Ring>, b: seq<Ring>, log: seq<LogRing>, r: nat, words: seq<Word>, tid: nat, ss: seq<Slot>)
    requires 0 < n && Rep(n, a, log) && r < |log| && 0 < |words| && log[r].prod + |words| < log[r].cons + n
    requires PutInto(n, a, b, r, log[r].prod, words) && AllLive(log, ss)
    ensures TaggedAll(n, b, tid, ss) == TaggedAll(n, a, tid, ss)
  {
    hide Overwritten, Idx;
    forall k | 0 <= k < |ss|
      ensures WordOf(n, b, ss[k]) == WordOf(n, a, ss[k])
    {
      assert Live(log, ss[k]) && RepRing(n, a[ss[k].ring], log[ss[k].ring]);
      if ss[k].ring == r {
        LiveIsElsewhere(n, a[r].items, log[r].cons, log[r].prod, words, ss[k].pos);
      }
    }
  }

  lemma LiveIsElsewhere(n: nat, items: seq<Word>, cons: nat, prod: nat, words: seq<Word>, p: nat)
    requires 0 < n && |items| == n && 0 < |words| && cons <= p < prod && prod + |words| < cons + n
    ensures var r := Overwritten(n, items, Idx(n, prod), Idx(n, prod + |words|), words);
            |r| == n && r[Idx(n, p)] == items[Idx(n, p)]
  {
    hide Overwritten;
    OverwrittenAt(n, items, prod, words, p + n);
    ModUnique(n, p + n, p / n + 1, p % n);
    assert n * (p / n + 1) == n * (p / n) + n;
  }

  lemma {:induction false} RunAt(ring: nat, depth: nat, from: nat, to: nat)
    requires from <= to
    ensures |Run(ring, depth, from, to)| == to - from
    ensures forall k | 0 <= k < |Run(ring, depth, from, to)| :: Run(ring, depth, from, to)[k] == Slot(ring, depth, from + k)
    decreases if from < to then to - from else 0
  {
    if from < to { RunAt(ring, depth, from + 1, to); }
  }

  /** The words put are the ones that their slots hold. */
  lemma PutIsRead(n: nat, a: seq<Ring>, b: seq<Ring>, r: nat, pos: nat, words: seq<Word>, tid: nat, depth: nat)
    requires 0 < n && PutInto(n, a, b, r, pos, words)
    ensures TaggedAll(n, b, tid, Run(r, depth, pos, pos + |words|)) == TagWords(tid, depth, words)
  {
    hide Overwritten, Idx, Run;
    RunAt(r, depth, pos, pos + |words|);
    forall k | 0 <= k < |words|
      ensures WordOf(n, b, Slot(r, depth, pos + k)) == words[k]
    {
      OverwrittenAt(n, a[r].items, pos, words, pos + k);
    }
  }

  // ---- threads do not disturb each other -------------------------------------------------------

  lemma {:induction false} HolderIsBelow(log: seq<LogRing>, r: nat, it: LogIntr, b: Bracket, c: Cursor)
    requires Fits(log, c) && it.ring < |log| && Laid(log, it, b, c) && Holds(b, r)
    ensures r < |log| && Below(log, it.ring, r)
    decreases b, 1
  {
    if b.ring != r { HolderSpanIsBelow(log, r, b.ring, End(log, it), b.open, b.body, c); }
  }

  lemma {:induction false} HolderSpanIsBelow(log: seq<LogRing>, r: nat, q: nat, last: nat, open: bool, s: Span, c: Cursor)
    requires Fits(log, c) && q < |log| && LaidSpan(log, q, last, open, s, c) && HoldsSpan(s, r)
    ensures r < |log| && Under(log, q, r)
    decreases s, 0
  {
    hide Laid, After;
    var c1 := PassIntr(c, q, s.at);
    if AwaySpan(s.rest, r) {
      HolderIsBelow(log, r, log[q].pend[c.p[q]], s.sub, c1);
    } else {
      HolderSpanIsBelow(log, r, q, last, open, s.rest, After(s.sub, c1));
    }
  }

  /** A thread's tree and what hangs stay as they are while nothing happens on its rings. */
  lemma UntouchedStays(n: nat, log: seq<LogRing>, log': seq<LogRing>, u: Grove)
    requires Tracing(n, log, u) && |log'| == |log| && Bounded(n, log') && u.tree.ring < |log|
    requires forall q | 0 <= q < |log| :: log'[q].depth == log[q].depth && log'[q].tid == log[q].tid
    requires forall q | 0 <= q < |log| && Below(log, u.tree.ring, q) :: log'[q] == log[q]
    ensures Tracing(n, log', u)
  {
    hide Laid, After, AfterHung, Bounded, Leading, Hanging;
    var root := u.tree.ring;
    RootStart(n, log, u);
    assert Below(log, root, root);
    LaidFrame(log, log', RootIntr(log, root), u.tree, Start(log), Start(log'));
    AgreesAfter(log, log', root, u.tree, Start(log), Start(log'));
    HungFrame(log, log', root, u.hung, TreeEnd(log, u), TreeEnd(log', u));
    Walked(n, log, u);
    forall q | 0 <= q < |log'| && Below(log', root, q)
      ensures WalkedAll(log', WalkEnd(log', u), q)
    {
      assert Below(log, root, q);
    }
  }

  lemma AgreesAfter(log: seq<LogRing>, log': seq<LogRing>, root: nat, t: Bracket, c: Cursor, c': Cursor)
    requires Fits(log, c) && Fits(log', c') && root < |log| == |log'| && Agree(log, log', c, c', root) && t.ring == root
    requires Laid(log, RootIntr(log, root), t, c)
    requires SameBelow(log, root, After(t, c), After(t, c'))
    ensures Agree(log, log', After(t, c), After(t, c'), root)
  {
    hide Laid, After;
    AfterMoves(log, RootIntr(log, root), t, c);
  }

  /** A ring that another thread may take over is not referred to at all. */
  lemma AcquireIsElsewhere(n: nat, log: seq<LogRing>, g: Grove, u: Grove, q: nat, tid: nat, depth: nat)
    requires Tracing(n, log, u) && Enabled(n, log, g, Acquire(q, tid, depth)) && NotRooted(u, q)
    requires u.tree.ring < |log| && log[g.tree.ring].tid != log[u.tree.ring].tid && Relabels(log, u.tree.ring, q, tid, depth)
    ensures Tracing(n, AcquireLog(log, q, tid, depth), u)
  {
    hide Tracing, NotRooted;
    UnnamedStays(n, log, u, q, tid, depth);
  }

  /** A step of one thread, seen from another. */
  lemma StepIsElsewhere(n: nat, log: seq<LogRing>, g: Grove, u: Grove, a: Act)
    requires Tracing(n, log, g) && Tracing(n, log, u) && Enabled(n, log, g, a)
    requires g.tree.ring < |log| && u.tree.ring < |log| && log[g.tree.ring].tid != log[u.tree.ring].tid
    requires a.Acquire? ==> NotRooted(u, a.ring) && Relabels(log, u.tree.ring, a.ring, a.tid, a.depth)
    ensures Tracing(n, ActLog(n, log, g, a), u)
  {
    hide Tracing, Laid, Holds, AtTail, MayLeave, Leading, EndBefore, EndBeforeHung, Grown, PutOn, LeaveOn, EnterOn, Bounded, Fresh;
    hide NoneOpenBelow, NotRooted, Relabels, Clean, Standing;
    TracedStands(n, log, g);
    TopFacts(n, log, g);
    var it, c := TopIntr(log, g), TopStart(log, g);
    match a {
      case Put(r, k) =>
        HolderIsBelow(log, r, it, Top(g), c);
        PutBounded(n, log, r, k);
        UntouchedStays(n, log, PutLog(log, r, k), u);
      case Take(h, q) =>
      case Record(h, q) =>
        OuterStands(n, log, g);
        TopFacts(n, log, Outer(g));
        TailIsDeep(log, h, TopIntr(log, Outer(g)), Top(Outer(g)), TopStart(log, Outer(g)));
        EnterBounded(n, log, h, q);
        UntouchedStays(n, log, EnterLog(log, h, q), u);
      case Leave(h, j) =>
        LeaveBounded(n, log, h, j);
        UntouchedStays(n, log, LeaveLog(log, h, j), u);
      case Acquire(q, tid, depth) =>
        AcquireIsElsewhere(n, log, g, u, q, tid, depth);
    }
  }

  /** What a pass of the serializer leaves of a tree, and what hangs, are still all that the thread's
      rings hold. */
  lemma PassKeeps(n: nat, log0: seq<LogRing>, log: seq<LogRing>, g: Grove, l: Bracket)
    requires Tracing(n, log0, g) && g.tree.ring < |log0|
    requires Reached(log0, log, None, RootIntr(log0, g.tree.ring), g.tree, l.body)
    requires LaidRoot(log, l) && l.ring == g.tree.ring && Leading(l) && Bounded(n, log)
    ensures Tracing(n, log, g.(tree := l)) && |log| == |log0| && log[l.ring].tid == log0[l.ring].tid
  {
    hide Laid, LaidSpan, After, AfterSpan, AfterHung, Leading, Bounded, Reached, Shrunk, Hanging;
    var r, g' := l.ring, g.(tree := l);
    ReachedFacts(log0, log, None, RootIntr(log0, r), g.tree, l.body);
    ShrunkBelow(log0, log, None, r, TreeEnd(log0, g));
    AfterBody(l, Start(log));
    ShrunkAgrees(log0, log, r, TreeEnd(log0, g), TreeEnd(log, g'));
    RootStart(n, log0, g);
    HungFrame(log0, log, r, g.hung, TreeEnd(log0, g), TreeEnd(log, g'));
    Walked(n, log0, g);
    forall q | 0 <= q < |log| && Below(log, r, q)
      ensures WalkedAll(log, WalkEnd(log, g'), q)
    {
      assert Below(log0, r, q);
    }
  }

  lemma ShrunkAgrees(log0: seq<LogRing>, log: seq<LogRing>, r: nat, a: Cursor, c: Cursor)
    requires Fits(log0, a) && r < |log0| && Shrunk(log0, log, None, r, a) && Fits(log, c) && SameBelow(log0, r, a, c)
    ensures |log| == |log0| && Agree(log0, log, a, c, r)
  {
    ShrunkBelow(log0, log, None, r, a);
    forall q, k | 0 <= q < |log0| && Below(log0, r, q) && a.p[q] <= k < |log0[q].pend|
      ensures log0[q].pend[k] == log[q].pend[k]
    {
      assert ShrunkRing(log0[q], log[q], a.p[q]);
    }
  }

  /** And no other thread's tree is touched by it. */
  lemma PassIsElsewhere(n: nat, log0: seq<LogRing>, log: seq<LogRing>, g: Grove, l: Bracket, u: Grove)
    requires Tracing(n, log0, g) && g.tree.ring < |log0|
    requires Reached(log0, log, None, RootIntr(log0, g.tree.ring), g.tree, l.body)
    requires Tracing(n, log0, u) && u.tree.ring < |log0| && log0[g.tree.ring].tid != log0[u.tree.ring].tid && Bounded(n, log)
    ensures |log| == |log0| && Tracing(n, log, u) && log[u.tree.ring].tid == log0[u.tree.ring].tid
  {
    hide Laid, LaidSpan, After, AfterSpan, Leading, Bounded, Reached, Shrunk, Hanging;
    RootStart(n, log0, u);
    ReachedFacts(log0, log, None, RootIntr(log0, g.tree.ring), g.tree, l.body);
    ShrunkBelow(log0, log, None, g.tree.ring, TreeEnd(log0, g));
    OtherThread(log0, log, g.tree, l.body, u.tree);
    UntouchedStays(n, log0, log, u);
  }

  // ---- a flush under way -------------------------------------------------------------------------

  /** The vectors still stand for words that are there, however the tree has grown since. */
  lemma {:induction false} GrownChunks(n: nat, log: seq<LogRing>, it: LogIntr, b: Bracket, t: Bracket, c: Cursor)
    requires Fits(log, c) && it.ring < |log| && Laid(log, it, t, c) && Grown(b, t) && Ordered(n, b)
    ensures forall k | 0 <= k < |Chunks(b)| :: ChunkFits(n, log, Chunks(b)[k])
    decreases b, 1
  {
    GrownSpanChunks(n, log, b.ring, End(log, it), b.open, t.open, b.body, t.body, c);
  }

  lemma {:induction false} GrownSpanChunks(n: nat, log: seq<LogRing>, r: nat, last: nat, open: bool, open': bool, s: Span, t: Span, c: Cursor)
    requires Fits(log, c) && r < |log| && LaidSpan(log, r, last, open', t, c) && GrownSpan(open, s, t) && OrderedSpan(n, log[r].depth, s)
    ensures forall k | 0 <= k < |ChunksSpan(r, log[r].depth, s)| :: ChunkFits(n, log, ChunksSpan(r, log[r].depth, s)[k])
    decreases s, 0
  {
    if s.Cut? {
      var it := log[r].pend[c.p[r]];
      GrownChunks(n, log, it, s.sub, t.sub, PassIntr(c, r, s.at));
      GrownSpanChunks(n, log, r, last, open, open', s.rest, t.rest, After(t.sub, PassIntr(c, r, s.at)));
    }
  }

  lemma GrownFits(n: nat, rings: seq<Ring>, log: seq<LogRing>, b: Bracket, g: Grove, room: nat, d: nat)
    requires Tracing(n, log, g) && Rep(n, rings, log) && Grown(b, g.tree) && Ordered(n, b)
    ensures var vs := Emit(n, b, room, d).vecs; forall k | 0 <= k < |vs| :: VecFits(n, rings, vs[k])
  {
    hide Emit, Rep, VecFits, PiecesAll, ChunkFits, Chunks, Laid, Grown, Tracing, Standing;
    TracedStands(n, log, g);
    RootStart(n, log, g);
    GrownChunks(n, log, RootIntr(log, g.tree.ring), b, g.tree, Start(log));
    var k := WholeChunks(n, b, room, d);
    PiecesAllFit(n, rings, log, Chunks(b)[..k], d);
  }

  // ---- all threads at once --------------------------------------------------------------------------

  /** Each thread has its own id. */
  predicate Distinct(log: seq<LogRing>, threads: seq<Grove>)
  {
    (forall i | 0 <= i < |threads| :: threads[i].tree.ring < |log|) &&
    (forall i, j | 0 <= i < j < |threads| :: log[threads[i].tree.ring].tid != log[threads[j].tree.ring].tid)
  }

  function TidOf(log: seq<LogRing>, g: Grove): nat
  {
    if g.tree.ring < |log| then log[g.tree.ring].tid else 0
  }

  /** Of what a thread has logged, `done` has been discarded, and the rest is in its tree. */
  ghost predicate KeptThread(n: nat, rings: seq<Ring>, log: seq<LogRing>, g: Grove, logged: seq<Tagged>, done: seq<Tagged>)
    requires 0 < n
  {
    Tracing(n, log, g) && logged == done + TaggedAll(n, rings, TidOf(log, g), FlattenAll(g))
  }

  ghost predicate Kept(n: nat, rings: seq<Ring>, log: seq<LogRing>, threads: seq<Grove>, logged: seq<seq<Tagged>>, done: seq<seq<Tagged>>)
    requires 0 < n
  {
    |threads| == |logged| == |done| && Distinct(log, threads) &&
    forall i | 0 <= i < |threads| :: KeptThread(n, rings, log, threads[i], logged[i], done[i])
  }

  /** `w` put into `l` before its last `beyond` words. */
  function Inserted(l: seq<Tagged>, beyond: nat, w: seq<Tagged>): seq<Tagged>
  {
    if beyond <= |l| then l[..|l| - beyond] + w + l[|l| - beyond..] else l
  }

  /** What became of the rings' words in a step of a producer. */
  predicate RingsAct(n: nat, rings: seq<Ring>, rings': seq<Ring>, log: seq<LogRing>, a: Act, words: seq<Word>)
    requires 0 < n
  {
    if a.Put? then a.ring < |log| && |words| == a.count > 0 && PutInto(n, rings, rings', a.ring, log[a.ring].prod, words)
    else SameItems(rings, rings')
  }

  /** What a thread has logged, after a step of its own. */
  function LoggedAfter(n: nat, log: seq<LogRing>, g: Grove, a: Act, words: seq<Word>, logged: seq<Tagged>): seq<Tagged>
    requires Enabled(n, log, g, a)
  {
    if a.Put? then Inserted(logged, |Beyond(Top(g), a.ring)|, TagWords(TidOf(log, g), log[a.ring].depth, words)) else logged
  }

  /** The words of unserialized slots do not change in a step. */
  lemma ActKeepsWords(n: nat, rings: seq<Ring>, rings': seq<Ring>, log: seq<LogRing>, g: Grove, a: Act, words: seq<Word>, tid: nat, ss: seq<Slot>)
    requires 0 < n && Rep(n, rings, log) && Enabled(n, log, g, a) && RingsAct(n, rings, rings', log, a, words) && AllLive(log, ss)
    ensures TaggedAll(n, rings', tid, ss) == TaggedAll(n, rings, tid, ss)
  {
    hide Rep, PutInto, AllLive;
    if a.Put? {
      LiveStays(n, rings, rings', log, a.ring, words, tid, ss);
    } else {
      TaggedSame(n, rings, rings', tid, ss);
    }
  }

  lemma {:induction false} HungIsLive(log: seq<LogRing>, root: nat, hung: seq<Bracket>, c: Cursor)
    requires Fits(log, c) && root < |log| && Hanging(log, root, hung, c) && Ahead(log, c) && Within(log, c)
    ensures AllLive(log, FlattenHung(hung))
    decreases |hung|
  {
    hide Laid, After, Live, Flatten;
    if hung != [] {
      HungIsLive(log, root, Others(hung), c);
      HungMoves(log, root, Others(hung), c);
      TreeIsLive(log, HungIntr(Last(hung)), Last(hung), AfterHung(Others(hung), c));
    }
  }

  lemma TracedIsLive(n: nat, log: seq<LogRing>, g: Grove)
    requires Tracing(n, log, g)
    ensures AllLive(log, FlattenAll(g)) && g.tree.ring < |log|
  {
    hide Laid, After, Hanging, Live, Flatten, Leading, Bounded;
    TracedStands(n, log, g);
    RootStart(n, log, g);
    TreeIsLive(log, RootIntr(log, g.tree.ring), g.tree, Start(log));
    HungIsLive(log, g.tree.ring, g.hung, TreeEnd(log, g));
  }

  /** A step of the thread itself. */
  lemma OwnStep(n: nat, rings: seq<Ring>, rings': seq<Ring>, log: seq<LogRing>, g: Grove, a: Act, words: seq<Word>, logged: seq<Tagged>, done: seq<Tagged>)
    requires 0 < n && Rep(n, rings, log) && KeptThread(n, rings, log, g, logged, done)
    requires Enabled(n, log, g, a) && RingsAct(n, rings, rings', log, a, words)
    ensures KeptThread(n, rings', ActLog(n, log, g, a), ActGrove(n, log, g, a), LoggedAfter(n, log, g, a, words, logged), done)
    ensures TidOf(ActLog(n, log, g, a), g) == TidOf(log, g)
  {
    hide Tracing, FlattenAll, TaggedAll, Rep, PutInto, AllLive, ActLog, ActGrove, TagWords, Inserted, Beyond, ActWords, ActBeyond, Enabled, RingsAct;
    var front := StepKeeps(n, log, g, a);
    TracedIsLive(n, log, g);
    var tid := TidOf(log, g);
    ActKeepsTid(n, log, g, a);
    ActKeepsWords(n, rings, rings', log, g, a, words, tid, FlattenAll(g));
    var mid, back := ActWords(n, log, g, a), ActBeyond(n, log, g, a);
    TaggedConcat(n, rings, tid, front, back);
    TaggedConcat(n, rings', tid, front, back);
    TaggedConcat(n, rings', tid, front, mid);
    TaggedConcat(n, rings', tid, front + mid, back);
    ActPutsWords(n, rings, rings', log, g, a, words, tid);
    LoggedIs(n, log, g, a, words, logged, done, TaggedAll(n, rings', tid, front), TaggedAll(n, rings', tid, mid), TaggedAll(n, rings', tid, back));
  }

  lemma ActKeepsTid(n: nat, log: seq<LogRing>, g: Grove, a: Act)
    requires Enabled(n, log, g, a)
    ensures TidOf(ActLog(n, log, g, a), g) == TidOf(log, g)
  {
  }

  lemma ActPutsWords(n: nat, rings: seq<Ring>, rings': seq<Ring>, log: seq<LogRing>, g: Grove, a: Act, words: seq<Word>, tid: nat)
    requires 0 < n && Enabled(n, log, g, a) && RingsAct(n, rings, rings', log, a, words)
    ensures TaggedAll(n, rings', tid, ActWords(n, log, g, a)) ==
            if a.Put? then TagWords(tid, log[a.ring].depth, words) else []
  {
    hide PutInto, TaggedAll, TagWords;
    if a.Put? {
      PutIsRead(n, rings, rings', a.ring, log[a.ring].prod, words, tid, log[a.ring].depth);
    } else {
      TaggedNothing(n, rings', tid);
    }
  }

  lemma LoggedIs(n: nat, log: seq<LogRing>, g: Grove, a: Act, words: seq<Word>, logged: seq<Tagged>, done: seq<Tagged>,
                 front: seq<Tagged>, mid: seq<Tagged>, back: seq<Tagged>)
    requires Enabled(n, log, g, a) && logged == done + (front + back) && |back| == |ActBeyond(n, log, g, a)|
    requires mid == if a.Put? then TagWords(TidOf(log, g), log[a.ring].depth, words) else []
    ensures LoggedAfter(n, log, g, a, words, logged) == done + (front + mid + back)
  {
    hide Beyond, TagWords;
    var cut := |logged| - |back|;
    assert logged[..cut] == done + front && logged[cut..] == back;
    assert done + front + mid + back == done + (front + mid + back);
    assert done + (front + [] + back) == done + (front + back);
  }

  /** A step of another thread. */
  lemma OtherStep(n: nat, rings: seq<Ring>, rings': seq<Ring>, log: seq<LogRing>, g: Grove, u: Grove, a: Act, words: seq<Word>, logged: seq<Tagged>, done: seq<Tagged>)
    requires 0 < n && Rep(n, rings, log) && KeptThread(n, rings, log, u, logged, done) && Tracing(n, log, g)
    requires Enabled(n, log, g, a) && RingsAct(n, rings, rings', log, a, words)
    requires g.tree.ring < |log| && u.tree.ring < |log| && log[g.tree.ring].tid != log[u.tree.ring].tid &&
             (a.Acquire? ==> NotRooted(u, a.ring) && Relabels(log, u.tree.ring, a.ring, a.tid, a.depth))
    ensures KeptThread(n, rings', ActLog(n, log, g, a), u, logged, done) && TidOf(ActLog(n, log, g, a), u) == TidOf(log, u)
  {
    hide Tracing, FlattenAll, TaggedAll, Rep, PutInto, AllLive, RingsAct;
    TracedIsLive(n, log, u);
    StepIsElsewhere(n, log, g, u, a);
    ActKeepsWords(n, rings, rings', log, g, a, words, TidOf(log, u), FlattenAll(u));
  }

  /** The ring that is taken over, if one is, is no thread's own, and its new label leaves true what
      any thread's interruptions say of it. */
  predicate Foreign(log: seq<LogRing>, threads: seq<Grove>, a: Act)
  {
    a.Acquire? ==>
      forall i | 0 <= i < |threads| :: NotRooted(threads[i], a.ring) && threads[i].tree.ring < |log| &&
        Relabels(log, threads[i].tree.ring, a.ring, a.tid, a.depth)
  }

  lemma KeptByStep(n: nat, rings: seq<Ring>, rings': seq<Ring>, log: seq<LogRing>, threads: seq<Grove>, logged: seq<seq<Tagged>>,
                   done: seq<seq<Tagged>>, i: nat, a: Act, words: seq<Word>)
    requires 0 < n && Rep(n, rings, log) && Kept(n, rings, log, threads, logged, done) && i < |threads|
    requires Enabled(n, log, threads[i], a) && RingsAct(n, rings, rings', log, a, words) && Foreign(log, threads, a)
    ensures var log' := ActLog(n, log, threads[i], a);
            Kept(n, rings', log', threads[i := ActGrove(n, log, threads[i], a)], logged[i := LoggedAfter(n, log, threads[i], a, words, logged[i])], done) &&
            (forall j | 0 <= j < |threads| :: TidOf(log', threads[j]) == TidOf(log, threads[j]))
  {
    hide KeptThread, Rep, RingsAct, Enabled, ActLog, ActGrove, LoggedAfter, Tracing;
    var log', t' := ActLog(n, log, threads[i], a), ActGrove(n, log, threads[i], a);
    forall j | 0 <= j < |threads|
      ensures j != i ==> KeptThread(n, rings', log', threads[j], logged[j], done[j])
      ensures TidOf(log', threads[j]) == TidOf(log, threads[j])
    {
      KeptIsTraced(n, rings, log, threads[i], logged[i], done[i]);
      if j == i {
        OwnStep(n, rings, rings', log, threads[i], a, words, logged[i], done[i]);
      } else {
        OtherStep(n, rings, rings', log, threads[i], threads[j], a, words, logged[j], done[j]);
      }
    }
    OwnStep(n, rings, rings', log, threads[i], a, words, logged[i], done[i]);
    assert forall j | 0 <= j < |threads| :: log'[threads[j].tree.ring].tid == TidOf(log', threads[j]) == log[threads[j].tree.ring].tid;
  }

  lemma KeptIsTraced(n: nat, rings: seq<Ring>, log: seq<LogRing>, g: Grove, logged: seq<Tagged>, done: seq<Tagged>)
    requires 0 < n && KeptThread(n, rings, log, g, logged, done)
    ensures Tracing(n, log, g) && g.tree.ring < |log|
  {
  }

  // ---- the flush in progress -----------------------------------------------------------------------

  /** The words that a get pass took when the tree was `seen`. */
  function Taken(n: nat, seen: Bracket, room: nat): seq<Slot>
    requires 0 < n
  {
    Read(Emit(n, seen, room, seen.depth).vecs, seen.depth)
  }

  /** Vectors filled when the thread's tree was `seen` are still to be discarded; it is `t` now. */
  ghost predicate InFlight(n: nat, t: Bracket, seen: Bracket, room: nat, iovs: seq<Iovec>, idepth: nat)
    requires 0 < n
  {
    Grown(seen, t) && Ordered(n, seen) && iovs != [] &&
    iovs == ToIovecs(n, Emit(n, seen, room, seen.depth).vecs) && idepth == Emit(n, seen, room, seen.depth).depth
  }

  /** What the thread itself logs, and a handler that has not yet handed the thread's ring back, is
      logged last. */
  lemma LoggedLast(n: nat, log: seq<LogRing>, g: Grove, r: nat, words: seq<Word>, logged: seq<Tagged>)
    requires Enabled(n, log, g, Put(r, |words|)) && AtTail(Top(g), r)
    ensures LoggedAfter(n, log, g, Put(r, |words|), words, logged) == logged + TagWords(TidOf(log, g), log[r].depth, words)
  {
    hide TagWords, AtTail;
    NothingBeyondTail(Top(g), r);
    var w := TagWords(TidOf(log, g), log[r].depth, words);
    assert logged[..|logged|] + w + logged[|logged|..] == logged + w;
  }

  /** What is in flight is still the first part of what the tree holds. */
  lemma FlightIsFront(n: nat, log: seq<LogRing>, g: Grove, seen: Bracket, room: nat, iovs: seq<Iovec>, idepth: nat)
    requires 0 < n && InFlight(n, g.tree, seen, room, iovs, idepth) && Tracing(n, log, g)
    ensures Flatten(g.tree) == Taken(n, seen, room) + Flatten(Left(n, seen, g.tree, room, seen.depth))
    ensures FlattenAll(g) == Taken(n, seen, room) + FlattenAll(g.(tree := Left(n, seen, g.tree, room, seen.depth)))
    ensures seen.depth == g.tree.depth && seen.ring == g.tree.ring
    ensures EndDepth(Emit(n, seen, room, seen.depth).vecs, seen.depth) == idepth
    ensures AllLive(log, Taken(n, seen, room))
  {
    hide Emit, Left, Tracing, Standing, Live, Flatten, Read, EndDepth;
    TracedStands(n, log, g);
    RootStart(n, log, g);
    Conservation(n, seen, g.tree, room, seen.depth);
    TracedIsLive(n, log, g);
    var taken, l := Taken(n, seen, room), Flatten(Left(n, seen, g.tree, room, seen.depth));
    assert taken + l + FlattenHung(g.hung) == taken + (l + FlattenHung(g.hung));
    FrontIsLive(log, taken, l + FlattenHung(g.hung));
    hide Ordered;
  }

  /** What is in flight is a word at least. */
  lemma FlightHasWord(n: nat, t: Bracket, seen: Bracket, room: nat, iovs: seq<Iovec>, idepth: nat)
    requires 0 < n && InFlight(n, t, seen, room, iovs, idepth)
    ensures Taken(n, seen, room) != []
  {
    hide Grown, Ordered, EmitSpan;
    EmitBody(n, seen, room, seen.depth);
    SpanIsOrdered(n, seen);
    EmitMoves(n, seen.ring, seen.depth, seen.body, room, seen.depth);
  }

  lemma SpanIsOrdered(n: nat, b: Bracket)
    requires Ordered(n, b)
    ensures OrderedSpan(n, b.depth, b.body)
  {
  }

  lemma FrontIsLive(log: seq<LogRing>, a: seq<Slot>, b: seq<Slot>)
    requires AllLive(log, a + b)
    ensures AllLive(log, a)
  {
    hide Live;
    assert forall k | 0 <= k < |a| :: (a + b)[k] == a[k];
  }

  lemma FlightStarts(n: nat, t: Bracket, room: nat, iovs: seq<Iovec>, idepth: nat)
    requires 0 < n && Ordered(n, t) && iovs == ToIovecs(n, Emit(n, t, room, t.depth).vecs) && idepth == Emit(n, t, room, t.depth).depth
    ensures iovs != [] ==> InFlight(n, t, t, room, iovs, idepth)
  {
    hide Emit, Ordered;
    GrownSelf(t, n);
  }

  lemma FlightGoesOn(n: nat, log: seq<LogRing>, t: Bracket, t': Bracket, seen: Bracket, room: nat, iovs: seq<Iovec>, idepth: nat)
    requires 0 < n && InFlight(n, t, seen, room, iovs, idepth) && Grown(t, t')
    ensures InFlight(n, t', seen, room, iovs, idepth)
  {
    hide Emit, Ordered;
    GrownTrans(seen, t, t');
  }

  /** A step of the thread whose flush is in progress: if a ring gets a new label, the tree that was
      seen gets it too, which makes no difference to the vectors. */
  lemma FlightActs(n: nat, log: seq<LogRing>, g: Grove, a: Act, seen: Bracket, room: nat, iovs: seq<Iovec>, idepth: nat)
    requires 0 < n && Tracing(n, log, g) && Enabled(n, log, g, a) && InFlight(n, g.tree, seen, room, iovs, idepth)
    ensures InFlight(n, ActGrove(n, log, g, a).tree, ActSeen(seen, a), room, iovs, idepth)
    ensures Taken(n, ActSeen(seen, a), room) == Taken(n, seen, room) && ActSeen(seen, a).depth == seen.depth
  {
    hide Tracing, Emit, Read, Ordered, Relabel, FlattenAll, Hollow;
    if a.Acquire? {
      AcquireKeeps(n, log, g, a.ring, a.tid, a.depth);
      assert seen.ring == g.tree.ring != a.ring;
      HollowBefore(n, seen, g.tree, a.ring);
      RelabelGrows(n, seen, g.tree, a.ring, a.depth);
      HollowEmits(n, seen, a.ring, a.depth, room, seen.depth);
    } else {
      var front := StepKeeps(n, log, g, a);
      FlightGoesOn(n, log, g.tree, ActGrove(n, log, g, a).tree, seen, room, iovs, idepth);
    }
  }

  datatype Phase = Idle | Gathered | Written

  lemma KeptSizes(n: nat, rings: seq<Ring>, log: seq<LogRing>, threads: seq<Grove>, logged: seq<seq<Tagged>>, done: seq<seq<Tagged>>)
    requires 0 < n && Kept(n, rings, log, threads, logged, done)
    ensures |threads| == |logged| == |done| && Distinct(log, threads)
  {
  }

  lemma ThreadFacts(n: nat, rings: seq<Ring>, log: seq<LogRing>, threads: seq<Grove>, logged: seq<seq<Tagged>>, done: seq<seq<Tagged>>, i: nat)
    requires 0 < n && Rep(n, rings, log) && Kept(n, rings, log, threads, logged, done) && i < |threads|
    ensures Tracing(n, log, threads[i]) && LaidRoot(log, threads[i].tree) && Leading(threads[i].tree) && Ordered(n, threads[i].tree)
    ensures threads[i].tree.ring < |log| == |rings| && TidOf(log, threads[i]) == log[threads[i].tree.ring].tid == rings[threads[i].tree.ring].tid
    ensures rings[threads[i].tree.ring].idepth == threads[i].tree.depth && Bounded(n, log)
  {
    hide Tracing, Leading, Ordered;
    KeptIsTraced(n, rings, log, threads[i], logged[i], done[i]);
    TracedFacts(n, log, threads[i]);
    RootStarts(n, rings, log, threads[i].tree);
  }

  lemma TracedFacts(n: nat, log: seq<LogRing>, g: Grove)
    requires Tracing(n, log, g)
    ensures LaidRoot(log, g.tree) && Leading(g.tree) && Ordered(n, g.tree)
  {
    hide Laid, Ordered, Leading, Hanging, NothingElse;
    RootStart(n, log, g);
  }

  lemma DropLeaves(n: nat, log: seq<LogRing>, g: Grove)
    requires Tracing(n, log, g)
    ensures var l := Drop(g.tree).0;
            Flatten(g.tree) == [] + Flatten(l) && Leading(l) && Ordered(n, l) && l.ring == g.tree.ring && l.depth == g.tree.depth
  {
    hide Drop, Flatten, Tracing;
    TracedFacts(n, log, g);
    DropKeeps(n, g.tree);
  }

  /** A pass over one thread's tree, that takes `taken` from its front. */
  lemma KeptByPass(n: nat, rings: seq<Ring>, rings': seq<Ring>, log: seq<LogRing>, log': seq<LogRing>, threads: seq<Grove>,
                   logged: seq<seq<Tagged>>, done: seq<seq<Tagged>>, i: nat, l: Bracket, taken: seq<Slot>)
    requires 0 < n && Kept(n, rings, log, threads, logged, done) && i < |threads| && SameItems(rings, rings') && Rep(n, rings', log')
    requires threads[i].tree.ring < |log| && Reached(log, log', None, RootIntr(log, threads[i].tree.ring), threads[i].tree, l.body)
    requires LaidRoot(log', l) && l.ring == threads[i].tree.ring && Leading(l) && Flatten(threads[i].tree) == taken + Flatten(l)
    ensures Kept(n, rings', log', threads[i := threads[i].(tree := l)], logged, done[i := done[i] + TaggedAll(n, rings, TidOf(log, threads[i]), taken)])
    ensures forall j | 0 <= j < |threads| :: TidOf(log', threads[i := threads[i].(tree := l)][j]) == TidOf(log, threads[j])
  {
    hide Tracing, Reached, LaidRoot, Leading, Flatten, FlattenHung, TaggedAll, Bounded, RepRing;
    var g, g', tid := threads[i], threads[i].(tree := l), TidOf(log, threads[i]);
    forall j | 0 <= j < |threads|
      ensures TidOf(log', threads[i := g'][j]) == TidOf(log, threads[j]) && threads[j].tree.ring < |log'|
      ensures j == i ==> KeptThread(n, rings', log', g', logged[i], done[i] + TaggedAll(n, rings, tid, taken))
      ensures j != i ==> KeptThread(n, rings', log', threads[j], logged[j], done[j])
    {
      KeptIsTraced(n, rings, log, g, logged[i], done[i]);
      KeptIsTraced(n, rings, log, threads[j], logged[j], done[j]);
      if j == i {
        PassKeeps(n, log, log', g, l);
        assert taken + Flatten(l) + FlattenHung(g.hung) == taken + FlattenAll(g');
        TaggedConcat(n, rings, tid, taken, FlattenAll(g'));
        TaggedSame(n, rings, rings', tid, FlattenAll(g'));
        Associate(done[i], TaggedAll(n, rings, tid, taken), TaggedAll(n, rings, tid, FlattenAll(g')));
      } else {
        PassIsElsewhere(n, log, log', g, l, threads[j]);
        TaggedSame(n, rings, rings', TidOf(log, threads[j]), FlattenAll(threads[j]));
      }
    }
    assert forall j | 0 <= j < |threads| :: log'[threads[i := g'][j].tree.ring].tid == TidOf(log, threads[j]) == log[threads[j].tree.ring].tid;
  }

  lemma KeptByDrop(n: nat, rings: seq<Ring>, rings': seq<Ring>, log: seq<LogRing>, log': seq<LogRing>, threads: seq<Grove>,
                   logged: seq<seq<Tagged>>, done: seq<seq<Tagged>>, i: nat, l: Bracket)
    requires 0 < n && Kept(n, rings, log, threads, logged, done) && i < |threads| && SameItems(rings, rings') && Rep(n, rings', log')
    requires threads[i].tree.ring < |log| && Reached(log, log', None, RootIntr(log, threads[i].tree.ring), threads[i].tree, l.body)
    requires LaidRoot(log', l) && l == Drop(threads[i].tree).0
    ensures Kept(n, rings', log', threads[i := threads[i].(tree := l)], logged, done) && l.ring == threads[i].tree.ring && l.depth == threads[i].tree.depth
    ensures forall j | 0 <= j < |threads| :: TidOf(log', threads[i := threads[i].(tree := l)][j]) == TidOf(log, threads[j])
  {
    hide Tracing, Reached, LaidRoot, Leading, Flatten, TaggedAll, Rep, Drop, Distinct, TidOf;
    KeptIsTraced(n, rings, log, threads[i], logged[i], done[i]);
    DropLeaves(n, log, threads[i]);
    KeptByPass(n, rings, rings', log, log', threads, logged, done, i, l, []);
    TaggedNothing(n, rings, TidOf(log, threads[i]));
    assert done[i] + [] == done[i] && done[i := done[i]] == done;
  }

  function WrittenBy(phase: Phase, thread: nat): Option<nat>
  {
    if phase.Written? then Some(thread) else None
  }

  /** What the tree whose vectors are in flight was, when thread `i` takes a step. */
  function SeenAfter(phase: Phase, thread: nat, seen: Bracket, i: nat, a: Act): Bracket
  {
    if !phase.Idle? && i == thread then ActSeen(seen, a) else seen
  }

  /** A producer's step does not disturb a flush in progress. */
  lemma FlightByStep(n: nat, rings: seq<Ring>, rings': seq<Ring>, log: seq<LogRing>, threads: seq<Grove>, logged: seq<seq<Tagged>>,
                     done: seq<seq<Tagged>>, i: nat, a: Act, words: seq<Word>,
                     phase: Phase, thread: nat, seen: Bracket, room: nat, iovs: seq<Iovec>, idepth: nat, shown: seq<Tagged>)
    requires 0 < n && Rep(n, rings, log) && Kept(n, rings, log, threads, logged, done) && i < |threads|
    requires Enabled(n, log, threads[i], a) && RingsAct(n, rings, rings', log, a, words) && Foreign(log, threads, a)
    requires ShownIs(n, rings, log, threads, done, shown, WrittenBy(phase, thread), Taken(n, seen, room))
    requires !phase.Idle? ==> thread < |threads| && InFlight(n, threads[thread].tree, seen, room, iovs, idepth)
    ensures var threads', seen' := threads[i := ActGrove(n, log, threads[i], a)], SeenAfter(phase, thread, seen, i, a);
            ShownIs(n, rings', ActLog(n, log, threads[i], a), threads', done, shown, WrittenBy(phase, thread), Taken(n, seen', room)) &&
            (!phase.Idle? ==> InFlight(n, threads'[thread].tree, seen', room, iovs, idepth) && seen'.depth == seen.depth)
  {
    hide Rep, RingsAct, Enabled, ActLog, ActGrove, LoggedAfter, Tracing, InFlight, TaggedAll, Taken, KeptThread, Distinct, Foreign, OfThread;
    KeptByStep(n, rings, rings', log, threads, logged, done, i, a, words);
    KeptIsTraced(n, rings, log, threads[i], logged[i], done[i]);
    var t' := ActGrove(n, log, threads[i], a);
    if !phase.Idle? {
      KeptIsTraced(n, rings, log, threads[thread], logged[thread], done[thread]);
      FlightIsFront(n, log, threads[thread], seen, room, iovs, idepth);
      ActKeepsWords(n, rings, rings', log, threads[i], a, words, TidOf(log, threads[thread]), Taken(n, seen, room));
      if i == thread {
        FlightActs(n, log, threads[i], a, seen, room, iovs, idepth);
      }
    }
    assert forall j | 0 <= j < |threads| :: TidOf(ActLog(n, log, threads[i], a), threads[i := t'][j]) == TidOf(ActLog(n, log, threads[i], a), threads[j]);
  }

  /** The reader has been shown, of every thread, the words that are done with, and those in
      flight once they are written. */
  ghost predicate ShownIs(n: nat, rings: seq<Ring>, log: seq<LogRing>, threads: seq<Grove>, done: seq<seq<Tagged>>,
                          shown: seq<Tagged>, written: Option<nat>, taken: seq<Slot>)
    requires 0 < n
  {
    |threads| == |done| &&
    forall i | 0 <= i < |threads| ::
      OfThread(shown, TidOf(log, threads[i])) ==
      done[i] + (if written == Some(i) then TaggedAll(n, rings, TidOf(log, threads[i]), taken) else [])
  }

  lemma ShownByPass(n: nat, rings: seq<Ring>, rings': seq<Ring>, log: seq<LogRing>, log': seq<LogRing>, threads: seq<Grove>, threads': seq<Grove>,
                    done: seq<seq<Tagged>>, shown: seq<Tagged>, taken: seq<Slot>, taken': seq<Slot>)
    requires 0 < n && ShownIs(n, rings, log, threads, done, shown, None, taken) && |threads'| == |threads|
    requires forall j | 0 <= j < |threads| :: TidOf(log', threads'[j]) == TidOf(log, threads[j])
    ensures ShownIs(n, rings', log', threads', done, shown, None, taken')
  {
    hide TidOf, OfThread;
  }

  lemma ShownMore(n: nat, rings: seq<Ring>, log: seq<LogRing>, threads: seq<Grove>, logged: seq<seq<Tagged>>, done: seq<seq<Tagged>>,
                  shown: seq<Tagged>, i: nat, taken: seq<Slot>)
    requires 0 < n && Kept(n, rings, log, threads, logged, done) && i < |threads| && ShownIs(n, rings, log, threads, done, shown, None, taken)
    ensures ShownIs(n, rings, log, threads, done, shown + TaggedAll(n, rings, TidOf(log, threads[i]), taken), Some(i), taken)
  {
    hide KeptThread, TaggedAll, OfThread;
    var more := TaggedAll(n, rings, TidOf(log, threads[i]), taken);
    forall j | 0 <= j < |threads|
      ensures OfThread(shown + more, TidOf(log, threads[j])) == done[j] + (if j == i then more else [])
    {
      OfThreadConcat(shown, more, TidOf(log, threads[j]));
      TaggedThread(n, rings, TidOf(log, threads[i]), taken, TidOf(log, threads[j]));
      assert j != i ==> TidOf(log, threads[j]) != TidOf(log, threads[i]);
    }
  }

  lemma ShownDone(n: nat, rings: seq<Ring>, rings': seq<Ring>, log: seq<LogRing>, log': seq<LogRing>, threads: seq<Grove>, threads': seq<Grove>,
                  done: seq<seq<Tagged>>, shown: seq<Tagged>, i: nat, taken: seq<Slot>)
    requires 0 < n && ShownIs(n, rings, log, threads, done, shown, Some(i), taken) && |threads'| == |threads| && i < |threads|
    requires forall j | 0 <= j < |threads| :: TidOf(log', threads'[j]) == TidOf(log, threads[j])
    ensures ShownIs(n, rings', log', threads', done[i := done[i] + TaggedAll(n, rings, TidOf(log, threads[i]), taken)], shown, None, taken)
  {
    hide TidOf, OfThread, TaggedAll;
    assert forall j | 0 <= j < |threads| :: done[j] + [] == done[j];
  }

  /** Where the serializer is in a flush: what rvp_ring_flush_to_fd keeps in its locals. `thread` is
      the number of the thread whose ring is flushed. */
  datatype Flush = Flush(phase: Phase, thread: nat, root: nat, header: seq<Item>, iovs: seq<Iovec>, idepth0: nat, idepth1: nat)

  /** The threads' trees, with what hangs; all that each thread has logged, and how much of that has been
      discarded; and all the words that a reader of the trace file finds in it. */
  datatype History = History(threads: seq<Grove>, logged: seq<seq<Tagged>>, done: seq<seq<Tagged>>, shown: seq<Tagged>)

  /** Where the reader of the file is after what has been written. */
  function Reading(log: seq<LogRing>, lc: LastCtx, fl: Flush, h: History): LastCtx
  {
    if fl.phase.Written? && fl.thread < |h.threads| then LastCtx(TidOf(log, h.threads[fl.thread]), fl.idepth0) else lc
  }

  /** `seen` is what the tree was when the vectors in flight were filled, and `room` how many
      there was room for. */
  ghost predicate Consistent(n: nat, rings: seq<Ring>, log: seq<LogRing>, out: seq<Item>, start: LastCtx, lc: LastCtx,
                             fl: Flush, seen: Bracket, room: nat, h: History)
    requires 0 < n
  {
    Kept(n, rings, log, h.threads, h.logged, h.done) &&
    Wrote([], start, out, Reading(log, lc, fl, h), h.shown) &&
    ShownIs(n, rings, log, h.threads, h.done, h.shown, WrittenBy(fl.phase, fl.thread), Taken(n, seen, room)) &&
    (!fl.phase.Idle? ==>
       fl.thread < |h.threads| && h.threads[fl.thread].tree.ring == fl.root && fl.idepth1 == seen.depth &&
       InFlight(n, h.threads[fl.thread].tree, seen, room, fl.iovs, fl.idepth0)) &&
    (fl.phase.Gathered? ==> fl.header == Header(lc, TidOf(log, h.threads[fl.thread]), seen.depth))
  }

  lemma ConsistentStarts(n: nat, rings: seq<Ring>, log: seq<LogRing>, lc: LastCtx, fl: Flush, seen: Bracket, room: nat, h: History)
    requires 0 < n && Distinct(log, h.threads) && fl.phase.Idle? && |h.threads| == |h.done| == |h.logged| && h.shown == []
    requires forall i | 0 <= i < |h.threads| ::
               Tracing(n, log, h.threads[i]) && h.done[i] == [] && h.logged[i] == TaggedAll(n, rings, TidOf(log, h.threads[i]), FlattenAll(h.threads[i]))
    ensures Consistent(n, rings, log, [], lc, lc, fl, seen, room, h)
  {
    hide Tracing, TaggedAll, FlattenAll, Wrote, Distinct;
    WroteNothing([], lc);
    forall i | 0 <= i < |h.threads|
      ensures KeptThread(n, rings, log, h.threads[i], h.logged[i], [])
    {
      assert [] + h.logged[i] == h.logged[i];
    }
  }

  /** A producer's step keeps everything consistent, whatever the serializer is doing. */
  lemma ConsistentStep(n: nat, rings: seq<Ring>, rings': seq<Ring>, log: seq<LogRing>, out: seq<Item>, start: LastCtx, lc: LastCtx,
                       fl: Flush, seen: Bracket, room: nat, h: History, i: nat, a: Act, words: seq<Word>) returns (h': History)
    requires 0 < n && Rep(n, rings, log) && Consistent(n, rings, log, out, start, lc, fl, seen, room, h)
    requires i < |h.threads| && Enabled(n, log, h.threads[i], a) && RingsAct(n, rings, rings', log, a, words) && Foreign(log, h.threads, a)
    ensures i < |h.logged| && h' == h.(threads := h.threads[i := ActGrove(n, log, h.threads[i], a)],
                                      logged := h.logged[i := LoggedAfter(n, log, h.threads[i], a, words, h.logged[i])])
    ensures Consistent(n, rings', ActLog(n, log, h.threads[i], a), out, start, lc, fl, SeenAfter(fl.phase, fl.thread, seen, i, a), room, h')
  {
    hide Kept, Wrote, ShownIs, InFlight, Tracing, Rep, RingsAct, Enabled, Taken, Header, Distinct, Foreign, ActGrove, ActLog, LoggedAfter, TidOf;
    KeptSizes(n, rings, log, h.threads, h.logged, h.done);
    KeptByStep(n, rings, rings', log, h.threads, h.logged, h.done, i, a, words);
    FlightByStep(n, rings, rings', log, h.threads, h.logged, h.done, i, a, words, fl.phase, fl.thread, seen, room, fl.iovs, fl.idepth0, h.shown);
    var t' := ActGrove(n, log, h.threads[i], a);
    h' := h.(threads := h.threads[i := t'], logged := h.logged[i := LoggedAfter(n, log, h.threads[i], a, words, h.logged[i])]);
    SameTid(ActLog(n, log, h.threads[i], a), h.threads[i], t');
  }

  lemma SameTid(log: seq<LogRing>, t: Grove, t': Grove)
    requires t'.tree.ring == t.tree.ring
    ensures TidOf(log, t') == TidOf(log, t)
  {
  }

  /** The drop and get passes. */
  lemma ConsistentBegins(n: nat, rings: seq<Ring>, rings': seq<Ring>, log: seq<LogRing>, log': seq<LogRing>, out: seq<Item>, start: LastCtx,
                         lc: LastCtx, fl: Flush, seen: Bracket, room: nat, h: History, fl': Flush, l: Bracket, free: nat) returns (h': History)
    requires 0 < n && Consistent(n, rings, log, out, start, lc, fl, seen, room, h) && fl.phase.Idle?
    requires fl'.thread < |h.threads| && SameItems(rings, rings') && Rep(n, rings', log')
    requires var t := h.threads[fl'.thread].tree;
             t.ring < |log| && Reached(log, log', None, RootIntr(log, t.ring), t, l.body) && LaidRoot(log', l) && l == Drop(t).0 &&
             fl'.root == t.ring && fl'.idepth1 == t.depth && fl'.header == Header(lc, TidOf(log, h.threads[fl'.thread]), t.depth)
    requires fl'.iovs == ToIovecs(n, Emit(n, l, free, l.depth).vecs) && fl'.idepth0 == Emit(n, l, free, l.depth).depth
    requires fl'.phase == if fl'.iovs == [] then Idle else Gathered
    ensures h' == h.(threads := h.threads[fl'.thread := h.threads[fl'.thread].(tree := l)])
    ensures Consistent(n, rings', log', out, start, lc, fl', l, free, h')
  {
    hide Kept, Wrote, ShownIs, Tracing, Rep, Leading, Grown, Header, Drop, Emit, Reached, LaidRoot, ToIovecs, Ordered, Flatten;
    hide InFlight, Taken, SameItems, RootIntr, TidOf, Distinct, Bounded;
    var i := fl'.thread;
    var threads' := h.threads[i := h.threads[i].(tree := l)];
    KeptByDrop(n, rings, rings', log, log', h.threads, h.logged, h.done, i, l);
    ShownByPass(n, rings, rings', log, log', h.threads, threads', h.done, h.shown, Taken(n, seen, room), Taken(n, l, free));
    ThreadFacts(n, rings', log', threads', h.logged, h.done, i);
    FlightStarts(n, l, free, fl'.iovs, fl'.idepth0);
    h' := h.(threads := threads');
  }

  /** The write. */
  lemma ConsistentWrites(n: nat, rings: seq<Ring>, log: seq<LogRing>, out: seq<Item>, start: LastCtx, lc: LastCtx,
                         fl: Flush, seen: Bracket, room: nat, h: History) returns (h': History)
    requires 0 < n && Rep(n, rings, log) && Consistent(n, rings, log, out, start, lc, fl, seen, room, h) && fl.phase.Gathered?
    ensures IovsFit(rings, fl.iovs) && fl.thread < |h.threads|
    ensures h' == h.(shown := h.shown + TaggedAll(n, rings, TidOf(log, h.threads[fl.thread]), Taken(n, seen, room)))
    ensures Consistent(n, rings, log, out + fl.header + IovsItems(rings, fl.iovs), start, lc, fl.(phase := Written), seen, room, h')
  {
    hide Kept, ShownIs, Wrote, Tracing, Rep, Header, Emit, ToIovecs, TaggedAll, Read, EndDepth, IovsItems, VecFits, IovsFit, Flatten, Left;
    var i, t := fl.thread, h.threads[fl.thread];
    KeptSizes(n, rings, log, h.threads, h.logged, h.done);
    ThreadFacts(n, rings, log, h.threads, h.logged, h.done, i);
    var tid, e := TidOf(log, t), Emit(n, seen, room, seen.depth);
    GrownFits(n, rings, log, seen, t, room, seen.depth);
    FlightIsFront(n, log, t, seen, room, fl.iovs, fl.idepth0);
    PlanIsTight(n, seen, room, seen.depth);
    WroteFlush(n, rings, out, lc, tid, seen.depth, fl.header, e.vecs);
    WroteMore([], start, out, lc, h.shown, out + fl.header + IovsItems(rings, fl.iovs), LastCtx(tid, fl.idepth0),
              TaggedAll(n, rings, tid, Taken(n, seen, room)));
    ShownMore(n, rings, log, h.threads, h.logged, h.done, h.shown, i, Taken(n, seen, room));
    h' := h.(shown := h.shown + TaggedAll(n, rings, tid, Taken(n, seen, room)));
  }

  /** The discard pass. */
  lemma ConsistentEnds(n: nat, rings: seq<Ring>, rings': seq<Ring>, log: seq<LogRing>, log': seq<LogRing>, out: seq<Item>, start: LastCtx,
                       lc: LastCtx, fl: Flush, seen: Bracket, room: nat, h: History, l: Bracket) returns (h': History)
    requires 0 < n && Consistent(n, rings, log, out, start, lc, fl, seen, room, h) && fl.phase.Written?
    requires SameItems(rings, rings') && Rep(n, rings', log') && LaidRoot(log', l) && Grown(seen, h.threads[fl.thread].tree)
    requires var t := h.threads[fl.thread].tree;
             t.ring < |log| && Reached(log, log', None, RootIntr(log, t.ring), t, l.body) && l == Left(n, seen, t, room, seen.depth)
    ensures fl.thread < |h.done| && fl.thread < |h.threads|
    ensures h' == h.(threads := h.threads[fl.thread := h.threads[fl.thread].(tree := l)],
                     done := h.done[fl.thread := h.done[fl.thread] + TaggedAll(n, rings, TidOf(log, h.threads[fl.thread]), Taken(n, seen, room))])
    ensures Consistent(n, rings', log', out, start, Reading(log, lc, fl, h), fl.(phase := Idle), seen, room, h')
    ensures l.ring < |rings'| && Reading(log, lc, fl, h) == LastCtx(rings'[l.ring].tid, fl.idepth0)
  {
    hide Kept, ShownIs, Wrote, Tracing, Rep, Emit, ToIovecs, TaggedAll, Read, EndDepth, Flatten, Left, Leading, Grown, Reached, LaidRoot, Ordered;
    hide SameItems, Distinct, TidOf, Taken, Header;
    var i, t := fl.thread, h.threads[fl.thread];
    KeptSizes(n, rings, log, h.threads, h.logged, h.done);
    KeptIsTraced(n, rings, log, t, h.logged[i], h.done[i]) by { KeptOne(n, rings, log, h.threads, h.logged, h.done, i); }
    FlightIsFront(n, log, t, seen, room, fl.iovs, fl.idepth0);
    TracedFacts(n, log, t);
    LeftKeeps(n, seen, t.tree, room, seen.depth);
    var taken, threads' := Taken(n, seen, room), h.threads[i := t.(tree := l)];
    KeptByPass(n, rings, rings', log, log', h.threads, h.logged, h.done, i, l, taken);
    ShownDone(n, rings, rings', log, log', h.threads, threads', h.done, h.shown, i, taken);
    h' := h.(threads := threads', done := h.done[i := h.done[i] + TaggedAll(n, rings, TidOf(log, t), taken)]);
    ThreadFacts(n, rings', log', h'.threads, h'.logged, h'.done, i);
    assert TidOf(log', threads'[i]) == TidOf(log, t);
  }

  /** At any moment, what a reader of the file finds of a thread, followed by the words that have
      still to be written, is all that the thread has logged, in program order. */
  lemma NothingIsLost(n: nat, rings: seq<Ring>, log: seq<LogRing>, out: seq<Item>, start: LastCtx, lc: LastCtx,
                      fl: Flush, seen: Bracket, room: nat, h: History, i: nat)
    requires 0 < n && Consistent(n, rings, log, out, start, lc, fl, seen, room, h) && i < |h.threads|
    ensures i < |h.logged|
    ensures var t := h.threads[i];
            var tid := TidOf(log, t);
            var found := OfThread(Decode(out, start), tid);
            Tight(out, start) &&
            if WrittenBy(fl.phase, fl.thread) == Some(i)
            then Grown(seen, t.tree) && h.logged[i] == found + TaggedAll(n, rings, tid, FlattenAll(t.(tree := Left(n, seen, t.tree, room, seen.depth))))
            else h.logged[i] == found + TaggedAll(n, rings, tid, FlattenAll(t))
  {
    hide Tracing, TaggedAll, FlattenAll, Left, OfThread, TidOf, Taken, Emit, Grown, Distinct, Tight;
    WroteAll(out, start, Reading(log, lc, fl, h), h.shown);
    var t := h.threads[i];
    KeptIsTraced(n, rings, log, t, h.logged[i], h.done[i]);
    if WrittenBy(fl.phase, fl.thread) == Some(i) {
      FlightIsFront(n, log, t, seen, room, fl.iovs, fl.idepth0);
      var taken, l := Taken(n, seen, room), FlattenAll(t.(tree := Left(n, seen, t.tree, room, seen.depth)));
      TaggedConcat(n, rings, TidOf(log, t), taken, l);
      Associate(h.done[i], TaggedAll(n, rings, TidOf(log, t), taken), TaggedAll(n, rings, TidOf(log, t), l));
    } else {
      assert h.done[i] + [] == h.done[i];
    }
  }

  lemma WroteAll(out: seq<Item>, start: LastCtx, lc: LastCtx, words: seq<Tagged>)
    requires Wrote([], start, out, lc, words)
    ensures Decode(out, start) == words && Tight(out, start)
  {
    assert out[0..] == out;
  }

  lemma KeptOne(n: nat, rings: seq<Ring>, log: seq<LogRing>, threads: seq<Grove>, logged: seq<seq<Tagged>>, done: seq<seq<Tagged>>, i: nat)
    requires 0 < n && Kept(n, rings, log, threads, logged, done) && i < |threads|
    ensures KeptThread(n, rings, log, threads[i], logged[i], done[i])
  {
  }

  /** The program's rings, its trace file, and a serializer that may be anywhere in a flush. */
  class Session {
    const forest: EventForest
    /** Where a reader of the file starts. */
    const start: LastCtx
    var lc: LastCtx
    var flush: Flush
    ghost var seen: Bracket
    ghost var room: nat
    ghost var history: History

    ghost predicate Valid()
      reads this, forest
    {
      forest.Valid() && Consistent(forest.size, forest.rings, forest.log, forest.out, start, lc, flush, seen, room, history)
    }

    /** Nothing has been written yet; the threads' trees are all that their rings hold. */
    constructor (f: EventForest, lc0: LastCtx, ghost ts: seq<Grove>)
      requires f.Valid() && f.out == [] && Distinct(f.log, ts)
      requires forall i | 0 <= i < |ts| :: Tracing(f.size, f.log, ts[i])
      ensures Valid() && forest == f && flush.phase.Idle? && lc == start == lc0
      ensures history.threads == ts && |history.logged| == |ts| && history.shown == []
      ensures forall i | 0 <= i < |ts| :: history.logged[i] == TaggedAll(f.size, f.rings, TidOf(f.log, ts[i]), FlattenAll(ts[i]))
    {
      hide Tracing, TaggedAll, FlattenAll, Rep, Consistent, Distinct;
      ghost var n, rings, log := f.size, f.rings, f.log;
      ghost var logged := seq(|ts|, i requires 0 <= i < |ts| => TaggedAll(n, rings, TidOf(log, ts[i]), FlattenAll(ts[i])));
      ghost var h := History(ts, logged, seq(|ts|, i => []), []);
      ghost var t := Bracket(0, 0, true, Done(0, 0, false));
      forest, start, lc, flush := f, lc0, lc0, Flush(Idle, 0, 0, [], [], 0, 0);
      seen, room, history := t, 0, h;
      new;
      ConsistentStarts(n, rings, log, lc0, flush, t, 0, h);
    }

    /** Whatever has happened, in whatever order: the trace file shows of each thread a first part
        of what it has logged, between flushes all of it if and only if no word is left in the thread's tree or in
        what hangs, and no idle record. */
    lemma ReaderSees(i: nat)
      requires Valid() && i < |history.threads|
      ensures i < |history.logged|
      ensures var found := OfThread(Decode(forest.out, start), TidOf(forest.log, history.threads[i]));
              found <= history.logged[i] && Tight(forest.out, start) &&
              (flush.phase.Idle? ==> (found == history.logged[i] <==> FlattenAll(history.threads[i]) == []))
    {
      hide Consistent, TaggedAll, FlattenAll, Left, OfThread, TidOf, Decode, Tight;
      NothingIsLost(forest.size, forest.rings, forest.log, forest.out, start, lc, flush, seen, room, history, i);
      TaggedNothing(forest.size, forest.rings, TidOf(forest.log, history.threads[i]));
    }

    /** A thread, or a handler that runs on it, takes a step. */
    method Produce(ghost i: nat, a: Act, words: seq<Word>)
      requires Valid() && i < |history.threads| && Enabled(forest.size, forest.log, history.threads[i], a) && Foreign(forest.log, history.threads, a)
      requires a.Put? ==> |words| == a.count > 0
      modifies this`history, this`seen, forest`rings, forest`log
      ensures Valid()
      ensures i < |old(history).logged| &&
              var t := old(history).threads[i];
              forest.log == ActLog(forest.size, old(forest.log), t, a) &&
              history == old(history).(
                threads := old(history).threads[i := ActGrove(forest.size, old(forest.log), t, a)],
                logged := old(history).logged[i := LoggedAfter(forest.size, old(forest.log), t, a, words, old(history).logged[i])])
    {
      hide Consistent, Tracing, Rep, PutInto, Holds, AtTail, Leading, MayLeave, EndBefore, Grown;
      hide Bounded, BoundedRing, RepRing, PutOn, LeaveOn, EnterOn, Relabels, Relabel, LoggedAfter, LeaveLog, EnterLog, PutLog, AcquireLog, SameItems;
      ghost var n, rings, log := forest.size, forest.rings, forest.log;
      RingCount(n, rings, log);
      match a {
        case Put(r, count) =>
          PutMultiple(forest, r, words);
        case Take(h, q) =>
          ItemsStay(rings);
        case Record(h, q) =>
          var slot := PutInterruption(forest, h, q, forest.rings[q].producer);
        case Leave(h, j) =>
          InterruptorIs(n, rings, log, h, j);
          var q := forest.rings[h].islots[Idx(8, j)].interruptor;
          CloseInterruption(forest, h, Idx(8, j), forest.rings[q].producer, j);
        case Acquire(q, tid, depth) =>
          AcquireRing(forest, q, tid, depth);
      }
      ghost var h := ConsistentStep(n, rings, forest.rings, log, forest.out, start, lc, flush, seen, room, history, i, a, words);
      seen, history := SeenAfter(flush.phase, flush.thread, seen, i, a), h;
    }

    /** The first part of rvp_ring_flush_to_fd on thread `i`'s ring `r`: drained interruptions are
        dropped, and the vectors are filled. `busy` if there is anything to write: if and only if what is first in the
        tree then is a word. */
    method BeginFlush(i: nat, r: nat) returns (busy: bool)
      requires Valid() && flush.phase.Idle? && i < |history.threads| && history.threads[i].tree.ring == r
      modifies this`flush, this`seen, this`room, this`history, forest`rings, forest`log
      ensures Valid() && flush.phase == (if busy then Gathered else Idle) && flush.thread == i
      ensures i < |old(history).threads| && var t := old(history).threads[i].tree;
              (busy <==> FirstIsWord(Drop(t).0.body)) && (Quiet(t.body) && !Stuck(t.body) && Flatten(t) != [] ==> busy)
      ensures room == 20 - |flush.header| >= 18 && i < |history.threads| && seen == history.threads[i].tree && (busy <==> Taken(forest.size, seen, room) != [])
      ensures history == old(history).(threads := old(history).threads[i := old(history).threads[i].(tree := Drop(old(history).threads[i].tree).0)])
      ensures var t := old(history).threads[i].tree;
              r < |old(forest.log)| && Reached(old(forest.log), forest.log, None, RootIntr(old(forest.log), r), t, Drop(t).0.body)
    {
      hide Rep, Reached, LaidRoot, Drop, Emit, ToIovecs, Header, SameItems, RootIntr, Kept, Wrote, ShownIs, InFlight, Taken, Tracing, Leading, Ordered;
      ghost var n, rings, log, t := forest.size, forest.rings, forest.log, history.threads[i].tree;
      ThreadFacts(n, rings, log, history.threads, history.logged, history.done, i);
      hide Consistent;
      var header, iovs, idepth0;
      ghost var free;
      header, iovs, idepth0, free := forest.Gather(r, lc, t);
      busy := iovs != [];
      FlushBegins(n, log, history.threads[i], free, iovs) by { ThreadIsTraced(n, rings, log, forest.out, start, lc, flush, seen, room, history, i); }
      var fl := Flush(if busy then Gathered else Idle, i, r, header, iovs, idepth0, forest.rings[r].idepth);
      ghost var h := ConsistentBegins(n, rings, forest.rings, log, forest.log, forest.out, start, lc, flush, seen, room, history, fl, Drop(t).0, free);
      flush, seen, room, history := fl, Drop(t).0, free, h;
    }

    /** The write in the middle: a reader finds the words in flight after what it has found before, one at least. */
    method WriteOut()
      requires Valid() && flush.phase.Gathered?
      modifies this`flush, this`history, forest`out
      ensures Valid() && flush == old(flush).(phase := Written) && flush.thread < |history.threads|
      ensures var words := TaggedAll(forest.size, forest.rings, TidOf(forest.log, history.threads[flush.thread]), Taken(forest.size, seen, room));
              history == old(history).(shown := old(history).shown + words) && words != [] &&
              Decode(forest.out, start) == old(Decode(forest.out, start)) + words
    {
      hide Consistent, Rep, TaggedAll, IovsItems, IovsFit, Taken, Decode;
      FlightIsShown(forest.size, forest.rings, forest.log, forest.out, start, lc, flush, seen, room, history);
      ghost var h := ConsistentWrites(forest.size, forest.rings, forest.log, forest.out, start, lc, flush, seen, room, history);
      forest.Write(flush.header, flush.iovs);
      flush, history := flush.(phase := Written), h;
      FlightIsShown(forest.size, forest.rings, forest.log, forest.out, start, lc, flush, seen, room, history);
    }

    /** The last part: the vectors are discarded from what the tree has become. */
    method EndFlush()
      requires Valid() && flush.phase.Written?
      modifies this`flush, this`lc, this`history, forest`rings, forest`log
      ensures Valid() && flush == old(flush).(phase := Idle)
      ensures history.logged == old(history).logged && history.shown == old(history).shown
      ensures flush.thread < |old(history).threads| && Grown(seen, old(history).threads[flush.thread].tree)
      ensures var t := old(history).threads[flush.thread];
              history.threads == old(history).threads[flush.thread := t.(tree := Left(forest.size, seen, t.tree, room, seen.depth))]
      ensures var t := old(history).threads[flush.thread].tree;
              t.ring < |old(forest.log)| && seen == old(seen) && room == old(room) &&
              Reached(old(forest.log), forest.log, None, RootIntr(old(forest.log), t.ring), t, Left(forest.size, seen, t, room, seen.depth).body)
    {
      hide Rep, Reached, LaidRoot, Left, Emit, ToIovecs, Header, SameItems, RootIntr, Kept, Wrote, ShownIs, Taken, Tracing, Leading, Coming, Ordered, Grown;
      ghost var n, rings, log := forest.size, forest.rings, forest.log;
      ghost var t := history.threads[flush.thread].tree;
      ThreadFacts(n, rings, log, history.threads, history.logged, history.done, flush.thread);
      LeadingIsComing(t);
      var idepth := forest.Retire(flush.root, flush.iovs, flush.idepth1, seen, t, room);
      assert idepth == flush.idepth0;
      ghost var l := Left(n, seen, t, room, seen.depth);
      ghost var h := ConsistentEnds(n, rings, forest.rings, log, forest.log, forest.out, start, lc, flush, seen, room, history, l);
      lc := LastCtx(forest.rings[flush.root].tid, flush.idepth0);
      flush, history := flush.(phase := Idle), h;
    }

    /** One thread's ring is flushed until a flush finds nothing to write, while no handler is unfinished. Then a reader finds
        all that the thread has logged, if and only if no word of it hangs and the tree was not stuck, unless it held none. */
    method Drain(i: nat, r: nat)
      requires Valid() && flush.phase.Idle? && i < |history.threads| && history.threads[i].tree.ring == r && Quiet(history.threads[i].tree.body)
      modifies this`flush, this`seen, this`room, this`history, this`lc, forest`rings, forest`log, forest`out
      ensures Valid() && flush.phase.Idle? && history.logged == old(history).logged && i < |history.threads| && i < |history.logged|
      ensures history.threads == old(history).threads[i := old(history).threads[i].(tree := history.threads[i].tree)]
      ensures var g := old(history).threads[i];
              OfThread(Decode(forest.out, start), TidOf(forest.log, history.threads[i])) == history.logged[i] <==>
              FlattenHung(g.hung) == [] && (!Stuck(g.tree.body) || Flatten(g.tree) == [])
    {
      hide Consistent, Drop, Left, Taken, FirstIsWord, Quiet, Stuck, Flatten, Reached, RootIntr, Grown, Decode, OfThread, TidOf, TaggedAll, FlattenHung;
      ghost var n, g := forest.size, history.threads[i];
      var busy := true;
      while busy
        invariant Valid() && flush.phase.Idle? && history.logged == old(history).logged && i < |history.threads|
        invariant history.threads == old(history).threads[i := g.(tree := history.threads[i].tree)] && history.threads[i].tree.ring == r
        invariant Quiet(history.threads[i].tree.body) && (Stuck(history.threads[i].tree.body) <==> Stuck(g.tree.body))
        invariant Stuck(g.tree.body) ==> Flatten(history.threads[i].tree) == Flatten(g.tree)
        invariant !busy && !Stuck(g.tree.body) ==> Flatten(history.threads[i].tree) == []
        decreases busy, |Flatten(history.threads[i].tree)|
      {
        ghost var t := history.threads[i].tree;
        ThreadIsTraced(n, forest.rings, forest.log, forest.out, start, lc, flush, seen, room, history, i);
        FlushDrains(n, forest.log, history.threads[i]);
        busy := BeginFlush(i, r);
        if busy {
          WriteOut();
          EndFlush();
        }
      }
      ReaderSees(i);
      NothingLeft(g.(tree := history.threads[i].tree));
    }
  }

  /** What the file shows, and what is in flight. */
  lemma FlightIsShown(n: nat, rings: seq<Ring>, log: seq<LogRing>, out: seq<Item>, start: LastCtx, lc: LastCtx, fl: Flush,
                      seen: Bracket, room: nat, h: History)
    requires 0 < n && Consistent(n, rings, log, out, start, lc, fl, seen, room, h)
    ensures Decode(out, start) == h.shown && (!fl.phase.Idle? ==> Taken(n, seen, room) != [])
  {
    hide Kept, ShownIs, InFlight, Wrote, Decode, Taken;
    WroteAll(out, start, Reading(log, lc, fl, h), h.shown);
    if !fl.phase.Idle? { FlightHasWord(n, h.threads[fl.thread].tree, seen, room, fl.iovs, fl.idepth0); }
  }

  lemma ThreadIsTraced(n: nat, rings: seq<Ring>, log: seq<LogRing>, out: seq<Item>, start: LastCtx, lc: LastCtx, fl: Flush,
                       seen: Bracket, room: nat, h: History, i: nat)
    requires 0 < n && Consistent(n, rings, log, out, start, lc, fl, seen, room, h) && i < |h.threads|
    ensures Tracing(n, log, h.threads[i]) && |h.logged| == |h.threads|
  {
    hide Tracing, Wrote, ShownIs, InFlight, KeptThread;
    KeptOne(n, rings, log, h.threads, h.logged, h.done, i);
    KeptIsTraced(n, rings, log, h.threads[i], h.logged[i], h.done[i]);
  }

  /** What the drop and get passes find on a thread's rings. */
  lemma FlushBegins(n: nat, log: seq<LogRing>, g: Grove, room: nat, iovs: seq<Iovec>)
    requires 0 < n && Tracing(n, log, g) && 3 <= room && iovs == ToIovecs(n, Emit(n, Drop(g.tree).0, room, g.tree.depth).vecs)
    ensures var t := g.tree;
            (iovs != [] <==> FirstIsWord(Drop(t).0.body)) && (Quiet(t.body) && !Stuck(t.body) && Flatten(t) != [] ==> iovs != []) &&
            (iovs != [] <==> Taken(n, Drop(t).0, room) != [])
  {
    hide Tracing, Emit, Drop, Flatten, Read, Leading, Coming, Ordered, FirstIsWord;
    var t, t1 := g.tree, Drop(g.tree).0;
    TracedFacts(n, log, g);
    LeadingIsComing(t);
    FlushLeaves(n, t, room, t.depth);
    EmitBegins(n, t1, room, t.depth);
    if Quiet(t.body) && !Stuck(t.body) && iovs == [] { NothingInIt(t1); }
  }

  /** What a flush leaves of a quiet tree, whatever its vectors had room for. */
  lemma FlushDrains(n: nat, log: seq<LogRing>, g: Grove)
    requires 0 < n && Tracing(n, log, g) && Quiet(g.tree.body)
    ensures var t, t1 := g.tree, Drop(g.tree).0;
            t1.ring == t.ring && t1.depth == t.depth && Quiet(t1.body) && (Stuck(t.body) <==> Stuck(t1.body)) && Flatten(t1) == Flatten(t)
    ensures forall room: nat | 3 <= room ::
              var t, t1 := g.tree, Drop(g.tree).0;
              Grown(t1, t1) &&
              (Taken(n, t1, room) == [] && !Stuck(t.body) ==> Flatten(t1) == []) &&
              (Taken(n, t1, room) != [] ==>
                 var l := Left(n, t1, t1, room, t1.depth);
                 !Stuck(t.body) && !Stuck(l.body) && Quiet(l.body) && l.ring == t.ring && |Flatten(l)| < |Flatten(t)|)
  {
    hide Tracing, Emit, Drop, Flatten, Read, Leading, Coming, Ordered, Stuck, Quiet, Left;
    var t, t1 := g.tree, Drop(g.tree).0;
    TracedFacts(n, log, g);
    LeadingIsComing(t);
    DropKeeps(n, t);
    FlushLeaves(n, t, 3, t.depth);
    FlushMoves(n, t, 3, t.depth);
    forall room: nat | 3 <= room
      ensures Grown(t1, t1)
      ensures Taken(n, t1, room) == [] && !Stuck(t.body) ==> Flatten(t1) == []
      ensures Taken(n, t1, room) != [] ==>
                var l := Left(n, t1, t1, room, t1.depth);
                !Stuck(t.body) && !Stuck(l.body) && Quiet(l.body) && l.ring == t.ring && |Flatten(l)| < |Flatten(t)|
    {
      FlushLeaves(n, t, room, t.depth);
      if Taken(n, t1, room) == [] && !Stuck(t.body) { NothingInIt(t1); }
    }
  }

  lemma NothingLeft(g: Grove)
    ensures FlattenAll(g) == [] <==> Flatten(g.tree) == [] && FlattenHung(g.hung) == []
  {
    hide Flatten, FlattenHung;
  }

  lemma NothingInIt(b: Bracket)
    requires b.body.Done? && b.body.from == b.body.to
    ensures Flatten(b) == []
  {
  }

  lemma ItemsStay(rings: seq<Ring>)
    ensures SameItems(rings, rings)
  {
  }

  lemma InterruptorIs(n: nat, rings: seq<Ring>, log: seq<LogRing>, h: nat, j: nat)
    requires 0 < n && Rep(n, rings, log) && OnlyOpen(log, h, j)
    ensures Idx(8, j) < |rings[h].islots| && rings[h].islots[Idx(8, j)].interruptor == log[h].pend[j].ring < |rings|
  {
    SlotFacts(n, rings, log, h, j);
  }
}
