/** The serializer of llvm/ngrt/serialize.c over rings as the program keeps them:
    word and interruption indices that wrap, and pointers to slots. */
module Serializer {
  import opened Basics
  import opened EventTree
  import opened Plans
  import opened Arcs
  import opened EventLog
  import opened TraceFile

  /** rvp_interruption_t; the end index is -1 until the interruption is closed. */
  datatype Interruption = Interruption(interruptor: nat, interrupted: nat, sidx: nat, eidx: int)

  /** rvp_ring_t, with its interruptions ring of eight slots. Rings are named by their
      place in `EventForest.rings`. */
  datatype Ring = Ring(
    items: seq<Word>, producer: nat, consumer: nat, tid: nat, idepth: nat,
    islots: seq<Interruption>, iproducer: nat, iconsumer: nat)

  /** The `bracket` argument of the passes: none for a thread's ring, or an interruption
      in a slot of the interrupted ring. */
  datatype Bracketing = Root | Slotted(ring: nat, slot: nat)

  /** struct iovec: it points at a ring's `r_sigdepth`, or at words of a ring. */
  datatype Iovec = IoDepth(ring: nat) | IoWords(ring: nat, base: nat, len: nat)

  // ---- what the fields mean ----------------------------------------------------

  predicate RepIntr(n: nat, i: Interruption, l: LogIntr)
    requires 0 < n
  {
    i.interruptor == l.ring && i.interrupted == Idx(n, l.at) && i.sidx == Idx(n, l.sidx) &&
    i.eidx == if l.open then -1 else Idx(n, l.eidx)
  }

  predicate RepRing(n: nat, r: Ring, l: LogRing)
    requires 0 < n
  {
    |r.items| == n && r.producer == Idx(n, l.prod) && r.consumer == Idx(n, l.cons) &&
    r.tid == l.tid && r.idepth == l.depth && |r.islots| == 8 &&
    r.iproducer == Idx(8, |l.pend|) && r.iconsumer == Idx(8, l.pcons) &&
    (forall k | l.pcons <= k < |l.pend| :: RepIntr(n, r.islots[Idx(8, k)], l.pend[k]))
  }

  predicate Rep(n: nat, rings: seq<Ring>, log: seq<LogRing>)
    requires 0 < n
  {
    |rings| == |log| && Bounded(n, log) &&
    forall q | 0 <= q < |rings| :: RepRing(n, rings[q], log[q])
  }

  /** The interruption that a bracket argument points at. */
  predicate Designates(n: nat, rings: seq<Ring>, log: seq<LogRing>, br: Bracketing, it: LogIntr)
    requires 0 < n
  {
    it.ring < |log| == |rings| &&
    match br
    case Root => it == RootIntr(log, it.ring)
    case Slotted(ring, slot) =>
      ring < |rings| && slot < |rings[ring].islots| && RepIntr(n, rings[ring].islots[slot], it)
  }

  function ToIovec(n: nat, v: Vec): Iovec
    requires 0 < n
  {
    match v
    case Depth(ring, _) => IoDepth(ring)
    case Words(ring, from, len) => IoWords(ring, Idx(n, from), len)
  }

  function ToIovecs(n: nat, vs: seq<Vec>): (r: seq<Iovec>)
    requires 0 < n
    ensures |r| == |vs|
  {
    if vs == [] then [] else [ToIovec(n, vs[0])] + ToIovecs(n, vs[1..])
  }

  lemma {:induction false} ToIovecsConcat(n: nat, a: seq<Vec>, b: seq<Vec>)
    requires 0 < n
    ensures ToIovecs(n, a + b) == ToIovecs(n, a) + ToIovecs(n, b)
  {
    if a == [] {
      assert a + b == b;
    } else {
      assert (a + b)[1..] == a[1..] + b;
      ToIovecsConcat(n, a[1..], b);
    }
  }

  /** The vectors of a chunk as the program writes them. */
  lemma PiecesAsIovecs(n: nat, ring: nat, depth: nat, from: nat, to: nat, d: nat)
    requires 0 < n && from < to < from + n
    ensures Idx(n, from) != Idx(n, to)
    ensures ToIovecs(n, Pieces(n, ring, depth, from, to, d)) ==
            (if depth != d then [IoDepth(ring)] else []) +
            if Idx(n, from) < Idx(n, to)
            then [IoWords(ring, Idx(n, from), Idx(n, to) - Idx(n, from))]
            else [IoWords(ring, Idx(n, from), n - Idx(n, from)), IoWords(ring, 0, Idx(n, to))]
  {
    Wrap(n, from, to);
    IdxAtEnd(n, from);
    var header := if depth != d then [Depth(ring, depth)] else [];
    var words := if from % n < to % n
                 then [Words(ring, from, to - from)]
                 else [Words(ring, from, n - from % n), Words(ring, from + (n - from % n), to % n)];
    ToIovecsConcat(n, header, words);
    assert header != [] ==> ToIovecs(n, header) == [IoDepth(ring)] + ToIovecs(n, header[1..]) && header[1..] == [];
    if |words| == 2 {
      assert words[1..] == [words[1]] && words[1..][1..] == [];
      assert ToIovecs(n, words[1..]) == [ToIovec(n, words[1])];
    } else {
      assert words[1..] == [];
    }
  }

  function NextSlot(slot: nat): nat
  {
    if slot == 7 then 0 else slot + 1
  }

  lemma NextSlotIsNext(k: nat)
    ensures NextSlot(Idx(8, k)) == Idx(8, k + 1)
  {
  }

  lemma SlotsDiffer(j: nat, k: nat)
    requires j <= k < j + 8
    ensures Idx(8, j) == Idx(8, k) <==> j == k
  {
  }

  lemma NoIovecs(n: nat)
    requires 0 < n
    ensures ToIovecs(n, []) == []
  {
  }

  lemma RingFacts(n: nat, rings: seq<Ring>, log: seq<LogRing>, r: nat)
    requires 0 < n && Rep(n, rings, log) && r < |rings|
    ensures |rings| == |log| && Bounded(n, log) && rings[r].idepth == log[r].depth && log[r].pcons <= |log[r].pend|
  {
    assert RepRing(n, rings[r], log[r]) && BoundedRing(n, |log|, log[r]);
  }

  lemma SlotFacts(n: nat, rings: seq<Ring>, log: seq<LogRing>, r: nat, k: nat)
    requires 0 < n && Rep(n, rings, log) && r < |rings| && log[r].pcons <= k < |log[r].pend|
    ensures Idx(8, k) < |rings[r].islots|
    ensures Designates(n, rings, log, Slotted(r, Idx(8, k)), log[r].pend[k])
    ensures var slot := rings[r].islots[Idx(8, k)];
            slot.interruptor == log[r].pend[k].ring && slot.interrupted == Idx(n, log[r].pend[k].at)
  {
    assert RepRing(n, rings[r], log[r]) && BoundedRing(n, |log|, log[r]);
    assert RepIntr(n, rings[r].islots[Idx(8, k)], log[r].pend[k]);
  }

  /** Vectors `vs` have been filled from `iovs0` on. */
  predicate Filled(n: nat, iovs0: seq<Iovec>, vs: seq<Vec>, iovs: seq<Iovec>)
    requires 0 < n
  {
    iovs == iovs0 + ToIovecs(n, vs)
  }

  lemma FilledNone(n: nat, iovs: seq<Iovec>)
    requires 0 < n
    ensures Filled(n, iovs, [], iovs)
  {
  }

  lemma FilledMore(n: nat, a: seq<Iovec>, vs: seq<Vec>, b: seq<Iovec>, ws: seq<Vec>, c: seq<Iovec>)
    requires 0 < n && Filled(n, a, vs, b) && Filled(n, b, ws, c)
    ensures Filled(n, a, vs + ws, c) && |c| == |b| + |ws|
  {
    ToIovecsConcat(n, vs, ws);
    hide ToIovecs;
  }

  // ---- the get loop's ghost state --------------------------------------------------

  function Size(b: Bracket): nat
    decreases b, 1
  {
    1 + SizeSpan(b.body)
  }

  function SizeSpan(s: Span): nat
    decreases s, 0
  {
    match s
    case Done(_, _, _) => 0
    case Cut(_, _, sub, rest) => Size(sub) + SizeSpan(rest)
  }

  /** A call of the get pass: the bracket, where it lies, and the room there was. */
  datatype Task = Task(n: nat, log: seq<LogRing>, it: LogIntr, b: Bracket, c: Cursor, whole: Out)

  /** Where the loop has got to: the number of the next interruption, the rest of the
      bracket, the cursor, and the vectors filled. */
  datatype Walk = Walk(k: nat, s: Span, cur: Cursor, vs: seq<Vec>)

  function GetTask(n: nat, log: seq<LogRing>, it: LogIntr, b: Bracket, c: Cursor, room: nat, d: nat): Task
    requires 0 < n
  {
    Task(n, log, it, b, c, EmitSpan(n, b.ring, b.depth, b.body, room, d))
  }

  ghost predicate GoodTask(g: Task)
  {
    0 < g.n && g.it.ring < |g.log| && Fits(g.log, g.c) && Bounded(g.n, g.log) && Ahead(g.log, g.c) &&
    Laid(g.log, g.it, g.b, g.c) && Passed(g.log, g.b.depth - 1, g.c)
  }

  /** The invariant of the get loop, with `room` vectors left at depth `d`. */
  ghost predicate Getting(g: Task, w: Walk, room: int, d: nat)
  {
    GoodTask(g) && var r := g.b.ring; var l := g.log[r];
    l.pcons <= w.k <= |l.pend| && Fits(g.log, w.cur) && w.k <= w.cur.p[r] && (w.k < w.cur.p[r] ==> w.cur == g.c) &&
    Ahead(g.log, w.cur) && (room > 0 ==> Passed(g.log, g.b.depth, w.cur)) &&
    LaidSpan(g.log, r, End(g.log, g.it), g.b.open, w.s, w.cur) &&
    SizeSpan(w.s) <= SizeSpan(g.b.body) && 0 <= room && Continues(g, w, room, d)
  }

  /** What the get pass has still to do, after the vectors `w.vs`. */
  ghost predicate Continues(g: Task, w: Walk, room: nat, d: nat)
    requires 0 < g.n
  {
    var rest := EmitSpan(g.n, g.b.ring, g.b.depth, w.s, room, d);
    g.whole == Out(w.vs + rest.vecs, rest.residue, rest.depth)
  }

  lemma NewTask(n: nat, log: seq<LogRing>, it: LogIntr, b: Bracket, c: Cursor, room: nat, d: nat) returns (g: Task)
    requires 0 < n && it.ring < |log| && Fits(log, c) && Bounded(n, log) && Ahead(log, c)
    requires Laid(log, it, b, c) && Passed(log, b.depth - 1, c)
    ensures g == GetTask(n, log, it, b, c, room, d) && GoodTask(g)
    ensures g.n == n && g.log == log && g.it == it && g.b == b && g.c == c
    ensures var o := Emit(n, b, room, d);
            g.whole.vecs == o.vecs && g.whole.depth == o.depth && (if b.open then o.residue == -1 else o.residue == g.whole.residue)
  {
    hide EmitSpan, Laid, Passed;
    g := GetTask(n, log, it, b, c, room, d);
  }

  lemma GetStarts(g: Task, room: nat, d: nat) returns (w: Walk)
    requires GoodTask(g) && g == GetTask(g.n, g.log, g.it, g.b, g.c, room, d)
    ensures g.b.ring == g.it.ring && g.b.depth == g.log[g.b.ring].depth && g.b.open == g.it.open
    ensures w == Walk(g.log[g.b.ring].pcons, g.b.body, g.c, [])
    ensures w.s.from == g.it.sidx
    ensures Getting(g, w, room, d)
  {
    w := Walk(g.log[g.b.ring].pcons, g.b.body, g.c, []);
    var rest := EmitSpan(g.n, g.b.ring, g.b.depth, w.s, room, d);
    assert [] + rest.vecs == rest.vecs;
  }

  /** What the tests of the loop compare lies between the consumer and the producer, and
      they tell apart an interruption before the bracket, after it, and in it. */
  lemma GetHead(g: Task, w: Walk, room: nat, d: nat)
    requires Getting(g, w, room, d) && 0 < room && w.k < |g.log[g.b.ring].pend|
    ensures var l := g.log[g.b.ring]; var i := l.pend[w.k]; var stop := End(g.log, g.it);
            l.cons <= w.s.from <= stop <= l.prod && l.cons <= i.at <= l.prod && w.k <= w.cur.p[g.b.ring] &&
            (i.at < w.s.from <==> w.k < w.cur.p[g.b.ring]) &&
            (w.s.from <= i.at ==> (stop < i.at <==> w.s.Done?)) &&
            (w.s.from <= i.at && w.s.Cut? ==> w.s.at == i.at && i.at < w.s.from + g.n && Laid(g.log, i, w.s.sub, PassIntr(w.cur, g.b.ring, i.at)))
  {
    AfterSpanMoves(g.log, g.b.ring, End(g.log, g.it), g.b.open, w.s, w.cur);
    assert BoundedRing(g.n, |g.log|, g.log[g.b.ring]);
  }

  lemma GetSkips(g: Task, w: Walk, room: nat, d: nat) returns (w': Walk)
    requires Getting(g, w, room, d) && w.k < w.cur.p[g.b.ring] && w.k < |g.log[g.b.ring].pend|
    ensures w' == w.(k := w.k + 1) && Getting(g, w', room, d)
  {
    hide EmitSpan, LaidSpan;
    w' := w.(k := w.k + 1);
  }

  lemma GetNoLead(g: Task, w: Walk, room: nat, d: nat)
    requires Getting(g, w, room, d) && 0 < room && w.s.Cut?
    requires Lead(g.n, g.b.ring, g.b.depth, w.s.from, w.s.at, room, d).None?
    ensures g.whole == Out(w.vs, -1, d)
  {
    EmitNoLead(g.n, g.b.ring, g.b.depth, w.s, room, d);
    hide EmitSpan, Lead;
    assert w.vs + [] == w.vs;
  }

  /** At an interruption of the bracket, once its lead is in vectors `p`. */
  lemma GetCut(g: Task, w: Walk, room: nat, d: nat) returns (p: seq<Vec>, cut: Cursor, e: Out)
    requires Getting(g, w, room, d) && 0 < room && w.s.Cut? && w.k == w.cur.p[g.b.ring]
    requires Lead(g.n, g.b.ring, g.b.depth, w.s.from, w.s.at, room, d).Some?
    ensures Lead(g.n, g.b.ring, g.b.depth, w.s.from, w.s.at, room, d) == Some(p) && |p| <= room
    ensures cut == PassIntr(w.cur, g.b.ring, w.s.at)
    ensures e == Emit(g.n, w.s.sub, room - |p|, LeadDepth(g.b.depth, w.s.from, w.s.at, d))
    ensures var l := g.log[g.b.ring];
            w.k < |l.pend| &&
            var i := l.pend[w.k];
            i.ring < |g.log| && Fits(g.log, cut) && Ahead(g.log, cut) &&
            Laid(g.log, i, w.s.sub, cut) && Passed(g.log, w.s.sub.depth - 1, cut)
    ensures Size(w.s.sub) < Size(g.b)
  {
    hide EmitSpan, Emit, Lead;
    p := Lead(g.n, g.b.ring, g.b.depth, w.s.from, w.s.at, room, d).value;
    cut := PassIntr(w.cur, g.b.ring, w.s.at);
    e := Emit(g.n, w.s.sub, room - |p|, LeadDepth(g.b.depth, w.s.from, w.s.at, d));
  }

  lemma GetNext(g: Task, w: Walk, room: nat, d: nat, p: seq<Vec>, cut: Cursor, e: Out) returns (w': Walk)
    requires Getting(g, w, room, d) && 0 < room && w.s.Cut? && w.k == w.cur.p[g.b.ring] && w.k < |g.log[g.b.ring].pend|
    requires Lead(g.n, g.b.ring, g.b.depth, w.s.from, w.s.at, room, d) == Some(p)
    requires cut == PassIntr(w.cur, g.b.ring, w.s.at)
    requires e == Emit(g.n, w.s.sub, room - |p|, LeadDepth(g.b.depth, w.s.from, w.s.at, d))
    ensures w'.vs == w.vs + p + e.vecs && w'.k == w.k + 1 && w'.s == w.s.rest && w'.s.from == w.s.at
    ensures e.residue < 0 ==> g.whole == Out(w'.vs, -1, e.depth)
    ensures e.residue >= 0 ==> Getting(g, w', e.residue, e.depth)
  {
    hide Between, Pieces, Lead, EmitSpan;
    var i := g.log[g.b.ring].pend[w.k];
    EmitStep(g.n, g.b.ring, g.b.depth, w.s, room, d, p, e);
    w' := Walk(w.k + 1, w.s.rest, After(w.s.sub, cut), w.vs + p + e.vecs);
    assert w.vs + (p + e.vecs) == w'.vs;
    if e.residue >= 0 {
      AfterMoves(g.log, i, w.s.sub, cut);
      if e.residue > 0 {
        PassedIsWhole(g.n, w.s.sub, room - |p|, LeadDepth(g.b.depth, w.s.from, w.s.at, d));
        WholePasses(g.log, i, w.s.sub, cut, g.b.depth);
      }
      BelowIsBelow(g.log, g.b.ring, i.ring);
      assert !Below(g.log, i.ring, g.b.ring);
      var r := EmitSpan(g.n, g.b.ring, g.b.depth, w.s.rest, e.residue, e.depth);
      assert w.vs + (p + e.vecs + r.vecs) == w'.vs + r.vecs;
    }
  }

  lemma GetEnds(g: Task, w: Walk, room: nat, d: nat)
    requires Getting(g, w, room, d)
    requires room == 0 || w.k == |g.log[g.b.ring].pend| || w.s.Done?
    ensures room == 0 ==> g.whole == Out(w.vs, 0, d)
    ensures room > 0 ==>
              w.s.Done? && w.s.from <= w.s.to == End(g.log, g.it) < w.s.from + g.n &&
              g.whole == match Between(g.n, g.b.ring, g.b.depth, w.s.from, w.s.to, room, d)
                         case None => Out(w.vs, -1, d)
                         case Some(p) => Out(w.vs + p, room - |p|, g.b.depth)
  {
    hide Between, EmitSpan;
    assert BoundedRing(g.n, |g.log|, g.log[g.b.ring]);
    if room == 0 || w.s.Done? { EmitLast(g.n, g.b.ring, g.b.depth, w.s, room, d); }
    assert w.vs + [] == w.vs;
  }

  // ---- the drop and discard passes' ghost state -----------------------------------

  /** A call of the discard pass: the bracket `b` that the get pass saw, what it has become,
      `t`, the vectors that belong to later brackets, and what the pass must leave. */
  datatype Replay = Replay(n: nat, b: Bracket, t: Bracket, tail: seq<Iovec>, goal: Span, depth: nat)

  /** Where the loop has got to: the rest of `b`, the rest of `t`, and the room the get pass
      had left when it was there. */
  datatype Place = Place(s: Span, t: Span, room: nat)

  /** Vectors `tail` may follow the ones that a get pass has filled for a bracket. */
  predicate Follows(e: Out, tail: seq<Iovec>)
  {
    if e.residue < 0 then tail == [] else |tail| <= e.residue
  }

  ghost predicate GoodReplay(g: Replay)
  {
    0 < g.n && Grown(g.b, g.t) && Ordered(g.n, g.b)
  }

  /** The invariant of the discard loop, at depth `d` with vectors `vecs` to go. */
  ghost predicate Planned(g: Replay, w: Place, vecs: seq<Iovec>, d: nat)
  {
    GoodReplay(g) && GrownSpan(g.b.open, w.s, w.t) && OrderedSpan(g.n, g.b.depth, w.s) && ComingSpan(w.t) &&
    LeftSpan(g.n, g.b.ring, g.b.depth, g.b.open, w.s, w.t, w.room, d) == g.goal &&
    (vecs == [] ==> RipeSpan(w.t)) && SizeSpan(w.t) <= SizeSpan(g.t.body) &&
    PlannedVecs(g, EmitSpan(g.n, g.b.ring, g.b.depth, w.s, w.room, d), vecs)
  }

  ghost predicate PlannedVecs(g: Replay, e: Out, vecs: seq<Iovec>)
    requires 0 < g.n
  {
    vecs == ToIovecs(g.n, e.vecs) + g.tail && e.depth == g.depth && Follows(e, g.tail) && (g.b.open ==> g.tail == [])
  }

  lemma PlanStarts(n: nat, b: Bracket, t: Bracket, room: nat, d: nat, vecs: seq<Iovec>, tail: seq<Iovec>) returns (g: Replay, w: Place)
    requires 0 < n && Grown(b, t) && Ordered(n, b) && Coming(t) && (vecs == [] ==> Ripe(t))
    requires var e := Emit(n, b, room, d); vecs == ToIovecs(n, e.vecs) + tail && Follows(e, tail)
    ensures g == Replay(n, b, t, tail, Left(n, b, t, room, d).body, Emit(n, b, room, d).depth)
    ensures w == Place(b.body, t.body, room) && Planned(g, w, vecs, d)
    ensures (t.open ==> tail == []) && b.ring == t.ring && b.depth == t.depth
  {
    hide EmitSpan, LeftSpan, ToIovecs, OrderedSpan, GrownSpan;
    g := Replay(n, b, t, tail, Left(n, b, t, room, d).body, Emit(n, b, room, d).depth);
    w := Place(b.body, t.body, room);
  }

  /** With no vectors to replay, everything is left. */
  lemma {:induction false} LeftNothing(n: nat, ring: nat, depth: nat, open: bool, s: Span, t: Span, room: nat, d: nat)
    requires 0 < n && GrownSpan(open, s, t) && RipeSpan(t) && OrderedSpan(n, depth, s)
    requires EmitSpan(n, ring, depth, s, room, d).vecs == []
    ensures LeftSpan(n, ring, depth, open, s, t, room, d) == t
    decreases s
  {
    hide Pieces, LeftSpan, EmitSpan, Left, Emit, Between, Lead;
    var lead := if s.Cut? then Lead(n, ring, depth, s.from, s.at, room, d) else None;
    if room == 0 || lead.None? {
      LeftNothingShort(n, ring, depth, open, s, t, room, d);
    } else {
      var vs, d1 := lead.value, LeadDepth(depth, s.from, s.at, d);
      var e, l := Emit(n, s.sub, room - |vs|, d1), Left(n, s.sub, t.sub, room - |vs|, d1);
      var r := if e.residue > 0 then EmitSpan(n, ring, depth, s.rest, e.residue, e.depth) else Out([], e.residue, e.depth);
      EmitCut(n, ring, depth, s, room, d, vs, e, r);
      assert |vs + e.vecs + r.vecs| == |vs| + |e.vecs| + |r.vecs|;
      LeadNothing(n, ring, depth, s.from, s.at, room, d);
      EmitBody(n, s.sub, room - |vs|, d1);
      LeftBody(n, s.sub, t.sub, room - |vs|, d1);
      LeftNothing(n, s.sub.ring, s.sub.depth, s.sub.open, s.sub.body, t.sub.body, room - |vs|, d1);
      assert l == t.sub;
      var left := if e.residue > 0 then LeftSpan(n, ring, depth, open, s.rest, t.rest, e.residue, e.depth) else t.rest;
      LeftCut(n, ring, depth, open, s, t, room, d, vs, e, l, left);
    }
  }

  lemma LeadNothing(n: nat, ring: nat, depth: nat, from: nat, at: nat, room: nat, d: nat)
    requires 0 < n
    ensures var r := Lead(n, ring, depth, from, at, room, d); r.Some? ==> (r.value == [] <==> at <= from)
  {
  }

  lemma LeftNothingShort(n: nat, ring: nat, depth: nat, open: bool, s: Span, t: Span, room: nat, d: nat)
    requires 0 < n && GrownSpan(open, s, t) && EmitSpan(n, ring, depth, s, room, d).vecs == []
    requires room == 0 || s.Done? || Lead(n, ring, depth, s.from, s.at, room, d).None?
    ensures LeftSpan(n, ring, depth, open, s, t, room, d) == t
  {
  }

  /** What the discard loop hands to the interruption it has come to: the position it moves
      to first, the interruption as the get pass saw it and the room it had, and the
      vectors, with those that come after the interruption's. */
  datatype Entry = Entry(mid: nat, sub: Bracket, room: nat, d: nat, tail: seq<Iovec>, vecs: seq<Iovec>)

  ghost predicate Entered(g: Replay, w: Place, vecs: seq<Iovec>, d: nat, e: Entry)
    requires 0 < g.n && w.t.Cut?
  {
    w.t.from <= e.mid <= w.t.at && e.mid < w.t.from + g.n &&
    (if w.t.from < w.t.at
     then w.t.from < e.mid && e.d == g.b.depth &&
          vecs == ToIovecs(g.n, Pieces(g.n, g.b.ring, g.b.depth, w.t.from, e.mid, d)) + e.vecs
     else e.d == d && vecs == e.vecs) &&
    Grown(e.sub, w.t.sub) && Ordered(g.n, e.sub) && Coming(w.t.sub) && (e.vecs == [] ==> Ripe(w.t.sub)) &&
    Size(w.t.sub) < Size(g.t) &&
    var o := Emit(g.n, e.sub, e.room, e.d);
    e.vecs == ToIovecs(g.n, o.vecs) + e.tail && Follows(o, e.tail) &&
    Resumable(g, w, e, Left(g.n, e.sub, w.t.sub, e.room, e.d), o.depth, o.residue)
  }

  /** What follows when the interruption has been read down to `l`: the loop goes on, or the
      pass is over. */
  ghost predicate Resumable(g: Replay, w: Place, e: Entry, l: Bracket, d: nat, residue: int)
    requires w.t.Cut?
  {
    if Spent(l)
    then e.mid == w.t.at && Planned(g, Next(w, residue), e.tail, d)
    else g.goal == Cut(e.mid, w.t.at, l, w.t.rest) && e.tail == g.tail && d == g.depth
  }

  function Next(w: Place, residue: int): Place
    requires w.t.Cut?
  {
    Place(if w.s.Cut? then w.s.rest else w.s, w.t.rest, if residue < 0 then 0 else residue)
  }

  lemma PlanEnters(g: Replay, w: Place, vecs: seq<Iovec>, d: nat) returns (e: Entry)
    requires Planned(g, w, vecs, d) && w.t.Cut? && vecs != [] && OrderedSpan(g.n, g.b.depth, w.t)
    ensures Entered(g, w, vecs, d, e)
  {
    hide Entered, Planned;
    if w.s.Cut? {
      e := PlanCut(g, w, vecs, d);
    } else {
      e := PlanGrown(g, w, vecs, d);
    }
  }

  /** The interruption was there when the get pass ran. */
  lemma PlanCut(g: Replay, w: Place, vecs: seq<Iovec>, d: nat) returns (e: Entry)
    requires Planned(g, w, vecs, d) && w.t.Cut? && vecs != [] && w.s.Cut?
    ensures Entered(g, w, vecs, d, e)
  {
    hide Pieces, Emit, EmitSpan, Left, LeftSpan, Lead, ToIovecs, Resumable;
    var n, ring, depth, s := g.n, g.b.ring, g.b.depth, w.s;
    var whole := EmitSpan(n, ring, depth, s, w.room, d);
    if w.room == 0 || Lead(n, ring, depth, s.from, s.at, w.room, d).None? {
      PlanStops(g, w, vecs, d);
    }
    var p, d1 := Lead(n, ring, depth, s.from, s.at, w.room, d).value, LeadDepth(depth, s.from, s.at, d);
    var o := Emit(n, s.sub, w.room - |p|, d1);
    var r := if o.residue > 0 then EmitSpan(n, ring, depth, s.rest, o.residue, o.depth) else Out([], o.residue, o.depth);
    EmitCut(n, ring, depth, s, w.room, d, p, o, r);
    var tail := ToIovecs(n, r.vecs) + g.tail;
    e := Entry(s.at, s.sub, w.room - |p|, d1, tail, ToIovecs(n, o.vecs) + tail);
    ThreeParts(n, p, o.vecs, r.vecs, g.tail);
    LeadPieces(n, ring, depth, s.from, s.at, w.room, d);
    LeadNothing(n, ring, depth, s.from, s.at, w.room, d);
    NoIovecs(n);
    if w.t.from < w.t.at { RipeIsComing(w.t.sub); }
    PlanGoesOn(g, w, vecs, d, e, o, r);
  }

  lemma PlanStops(g: Replay, w: Place, vecs: seq<Iovec>, d: nat)
    requires Planned(g, w, vecs, d) && w.s.Cut?
    requires w.room == 0 || Lead(g.n, g.b.ring, g.b.depth, w.s.from, w.s.at, w.room, d).None?
    ensures vecs == []
  {
    hide Lead;
  }

  lemma ThreeParts(n: nat, a: seq<Vec>, b: seq<Vec>, c: seq<Vec>, tail: seq<Iovec>)
    requires 0 < n
    ensures ToIovecs(n, a + b + c) + tail == ToIovecs(n, a) + (ToIovecs(n, b) + (ToIovecs(n, c) + tail))
  {
    hide ToIovecs;
    ToIovecsConcat(n, a, b);
    ToIovecsConcat(n, a + b, c);
    Associate(ToIovecs(n, a) + ToIovecs(n, b), ToIovecs(n, c), tail);
    Associate(ToIovecs(n, a), ToIovecs(n, b), ToIovecs(n, c) + tail);
  }

  lemma LeadPieces(n: nat, ring: nat, depth: nat, from: nat, at: nat, room: nat, d: nat)
    requires 0 < n && Lead(n, ring, depth, from, at, room, d).Some?
    ensures Lead(n, ring, depth, from, at, room, d).value == Pieces(n, ring, depth, from, at, d)
  {
  }

  lemma PlanGoesOn(g: Replay, w: Place, vecs: seq<Iovec>, d: nat, e: Entry, o: Out, r: Out)
    requires Planned(g, w, vecs, d) && w.t.Cut? && w.s.Cut? && w.room > 0
    requires var p := Lead(g.n, g.b.ring, g.b.depth, w.s.from, w.s.at, w.room, d);
             p.Some? &&
             e.room == w.room - |p.value| && e.d == LeadDepth(g.b.depth, w.s.from, w.s.at, d)
    requires e.mid == w.s.at && e.sub == w.s.sub && e.tail == ToIovecs(g.n, r.vecs) + g.tail
    requires o == Emit(g.n, w.s.sub, e.room, e.d)
    requires r == if o.residue > 0 then EmitSpan(g.n, g.b.ring, g.b.depth, w.s.rest, o.residue, o.depth)
                  else Out([], o.residue, o.depth)
    requires EmitSpan(g.n, g.b.ring, g.b.depth, w.s, w.room, d).residue == r.residue
    requires EmitSpan(g.n, g.b.ring, g.b.depth, w.s, w.room, d).depth == r.depth
    ensures Resumable(g, w, e, Left(g.n, e.sub, w.t.sub, e.room, e.d), o.depth, o.residue)
    ensures Follows(o, e.tail)
  {
    hide Pieces, Emit, EmitSpan, Left, LeftSpan, Lead, ToIovecs;
    var n, ring, depth := g.n, g.b.ring, g.b.depth;
    var l := Left(n, e.sub, w.t.sub, e.room, e.d);
    var left := if o.residue > 0 then LeftSpan(n, ring, depth, g.b.open, w.s.rest, w.t.rest, o.residue, o.depth) else w.t.rest;
    LeftCut(n, ring, depth, g.b.open, w.s, w.t, w.room, d, Lead(n, ring, depth, w.s.from, w.s.at, w.room, d).value, o, l, left);
    NoIovecs(n);
    if o.residue > 0 {
      WholeIsSpent(n, e.sub, w.t.sub, e.room, e.d);
    } else {
      NoRoom(n, ring, depth, g.b.open, w.s.rest, w.t.rest, o.depth);
    }
    RipeSpanIsComing(w.t.rest);
  }

  lemma NoRoom(n: nat, ring: nat, depth: nat, open: bool, s: Span, t: Span, d: nat)
    requires 0 < n && GrownSpan(open, s, t)
    ensures EmitSpan(n, ring, depth, s, 0, d) == Out([], 0, d) && LeftSpan(n, ring, depth, open, s, t, 0, d) == t
  {
  }

  /** The interruption came after the get pass had run. */
  lemma PlanGrown(g: Replay, w: Place, vecs: seq<Iovec>, d: nat) returns (e: Entry)
    requires Planned(g, w, vecs, d) && w.t.Cut? && vecs != [] && w.s.Done? && OrderedSpan(g.n, g.b.depth, w.t)
    ensures Entered(g, w, vecs, d, e)
  {
    hide Pieces, Emit, Left, ToIovecs;
    e := Entry(w.s.to, w.t.sub, 0, g.b.depth, [], []);
    NoIovecs(g.n);
    RipeIsComing(w.t.sub);
    GrownSelf(w.t.sub, g.n);
    NoRoomBracket(g.n, w.t.sub, g.b.depth);
  }

  lemma NoRoomBracket(n: nat, b: Bracket, d: nat)
    requires 0 < n && Grown(b, b)
    ensures Emit(n, b, 0, d).vecs == [] && Emit(n, b, 0, d).depth == d && Left(n, b, b, 0, d) == b
    ensures Ripe(b) ==> !Spent(b)
  {
    NoRoom(n, b.ring, b.depth, b.open, b.body, b.body, d);
    LeftBody(n, b, b, 0, d);
    hide EmitSpan, LeftSpan;
  }

  /** No interruption of the bracket remains, and vectors do. */
  lemma PlanEnds(g: Replay, w: Place, vecs: seq<Iovec>, d: nat)
    requires Planned(g, w, vecs, d) && w.t.Done? && vecs != []
    ensures w.s.Done? && w.t.from < w.s.to <= w.t.to && w.s.to < w.t.from + g.n
    ensures vecs == ToIovecs(g.n, Pieces(g.n, g.b.ring, g.b.depth, w.t.from, w.s.to, d)) + g.tail
    ensures g.depth == g.b.depth && g.goal == Advanced(w.t, w.s.to)
    ensures g.tail != [] ==> w.s.to == w.t.to
  {
    hide Pieces;
  }

  lemma PlanOver(g: Replay, w: Place, d: nat)
    requires Planned(g, w, [], d)
    ensures g.tail == [] && g.depth == d && g.goal == w.t
  {
    hide EmitSpan, LeftSpan;
    var e := EmitSpan(g.n, g.b.ring, g.b.depth, w.s, w.room, d);
    LeftNothing(g.n, g.b.ring, g.b.depth, g.b.open, w.s, w.t, w.room, d);
    GrownSelf(Bracket(g.b.ring, g.b.depth, g.b.open, w.s), g.n);
    ConservationSpan(g.n, g.b.ring, g.b.depth, g.b.open, w.s, w.s, w.room, d);
    ReadNil(d);
  }

  /** What the tests of the drop and discard loops compare lies between the consumer and the
      producer; the first interruption is never before the rest of the bracket, and it is
      beyond it exactly when no interruption of the bracket remains. */
  lemma ReachedHead(log0: seq<LogRing>, log: seq<LogRing>, host: Option<nat>, it: LogIntr, b: Bracket, s: Span)
    requires Reached(log0, log, host, it, b, s)
    ensures var l := log[it.ring]; var stop := End(log0, it);
            l.cons == s.from <= stop <= l.prod && l.depth == log0[it.ring].depth &&
            (l.pcons < |l.pend| ==>
               var at := l.pend[l.pcons].at;
               s.from <= at && (stop < at <==> s.Done?) && (s.Cut? ==> s.at == at == s.rest.from)) &&
            (l.pcons >= |l.pend| ==> s.Done?) &&
            (s.Done? ==> s.to == stop && s.more == (l.pcons < |l.pend|))
  {
    AfterSpanMoves(log, it.ring, End(log0, it), it.open, s, Start(log));
    assert Below(log0, it.ring, it.ring);
  }

  lemma PointsStay(log0: seq<LogRing>, log: seq<LogRing>, host: Option<nat>, it: LogIntr, b: Bracket, s: Span, br: Bracketing)
    requires Reached(log0, log, host, it, b, s) && Points(log0, br, host)
    ensures Points(log, br, host) && (host.Some? ==> host.value != it.ring)
    ensures forall pos: nat :: Points(Consumed(log, it.ring, pos), br, host)
  {
    hide LaidSpan, After, AfterSpan, Idx;
  }

  /** The bracket argument points at the first interruption of ring `host`. */
  predicate Points(log: seq<LogRing>, br: Bracketing, host: Option<nat>)
  {
    match br
    case Root => host == None
    case Slotted(ring, slot) =>
      host == Some(ring) && ring < |log| && log[ring].pcons < |log[ring].pend| && slot == Idx(8, log[ring].pcons)
  }

  /** It is the interruption `it`, or else `it` stands for a thread's ring. */
  predicate AtHead(log: seq<LogRing>, br: Bracketing, host: Option<nat>, it: LogIntr)
  {
    Points(log, br, host) && Hosted(log, host, it) && (br.Root? ==> it == RootIntr(log, it.ring))
  }

  lemma HeadDesignates(n: nat, rings: seq<Ring>, log: seq<LogRing>, br: Bracketing, host: Option<nat>, it: LogIntr)
    requires 0 < n && Rep(n, rings, log) && AtHead(log, br, host, it)
    ensures Designates(n, rings, log, br, it)
  {
    match br
    case Root =>
    case Slotted(ring, slot) => SlotFacts(n, rings, log, ring, log[ring].pcons);
  }

  lemma SpanOrdered(n: nat, rings: seq<Ring>, log0: seq<LogRing>, log: seq<LogRing>, host: Option<nat>, it: LogIntr, b: Bracket, s: Span)
    requires 0 < n && Rep(n, rings, log) && Reached(log0, log, host, it, b, s)
    ensures OrderedSpan(n, log0[it.ring].depth, s)
  {
    hide LaidSpan, OrderedSpan;
    ReachedFacts(log0, log, host, it, b, s);
    ShrunkBelow(log0, log, host, it.ring, After(b, Start(log0)));
    LaidSpanIsOrdered(n, log, it.ring, End(log0, it), it.open, s, Start(log));
  }

  // ---- single steps of the drop pass

  /** What a laid bracket says about its interruption, and the interruption's ring. */
  lemma BracketFacts(log: seq<LogRing>, it: LogIntr, b: Bracket)
    requires it.ring < |log| && Laid(log, it, b, Start(log))
    ensures b.ring == it.ring && b.open == it.open && b.depth == log[it.ring].depth && b.body.from == it.sidx == log[it.ring].cons
    ensures Size(b) == 1 + SizeSpan(b.body)
  {
    hide LaidSpan, SizeSpan;
  }

  lemma DropStops(open: bool, s: Span)
    requires s.Cut? ==> s.from < s.at
    ensures DropSpan(open, s) == (s, s.Done? && !s.more && s.from == s.to && !open)
  {
  }

  lemma DropGoesOn(open: bool, s: Span)
    requires s.Cut? && s.from >= s.at
    ensures var r := Drop(s.sub);
            DropSpan(open, s) == if r.1 then DropSpan(open, s.rest) else (Cut(s.from, s.at, r.0, s.rest), false)
    ensures SizeSpan(s) == Size(s.sub) + SizeSpan(s.rest) && Size(s.sub) > 0
  {
  }

  /** A bracket that the drop pass finds empty is spent. */
  lemma {:induction false} DropSpanSpent(open: bool, s: Span)
    ensures var r := DropSpan(open, s); r.1 ==> !open && r.0.Done? && r.0.from == r.0.to
    decreases s
  {
    if s.Cut? { DropSpanSpent(open, s.rest); }
  }

  lemma SameIdx(n: nat, log: seq<LogRing>, r: nat, x: nat, y: nat)
    requires 0 < n && Bounded(n, log) && r < |log| && log[r].cons <= x <= y <= log[r].prod
    ensures Idx(n, x) == Idx(n, y) <==> x == y
  {
    assert BoundedRing(n, |log|, log[r]);
    ArcComparesPositions(n, log[r].cons, log[r].prod, x, y);
  }

  lemma RingCount(n: nat, rings: seq<Ring>, log: seq<LogRing>)
    requires 0 < n && Rep(n, rings, log)
    ensures |rings| == |log|
  {
  }

  lemma SizeCut(s: Span)
    requires s.Cut?
    ensures SizeSpan(s.rest) < SizeSpan(s)
  {
  }

  lemma WrapIdx(n: nat, from: nat, to: nat)
    requires 0 < n && from < to < from + n
    ensures Idx(n, from) < Idx(n, to) ==> Idx(n, to) - Idx(n, from) < n - Idx(n, from)
    ensures Idx(n, from) < n
  {
  }

  /** The first interruption of a ring and the slot that holds it. */
  lemma HeadFacts(n: nat, rings: seq<Ring>, log: seq<LogRing>, r: nat)
    requires 0 < n && Rep(n, rings, log) && r < |rings| && log[r].pcons < |log[r].pend|
    ensures |rings| == |log|
    ensures var i := log[r].pend[log[r].pcons]; log[r].cons <= i.at <= log[r].prod && i.ring < |log|
    ensures var k := Idx(8, log[r].pcons);
            k < |rings[r].islots| &&
            rings[r].islots[k].interruptor == log[r].pend[log[r].pcons].ring &&
            rings[r].islots[k].interrupted == Idx(n, log[r].pend[log[r].pcons].at)
  {
    assert BoundedRing(n, |log|, log[r]);
    SlotFacts(n, rings, log, r, log[r].pcons);
  }

  lemma ChildFacts(log0: seq<LogRing>, log: seq<LogRing>, host: Option<nat>, it: LogIntr, b: Bracket, s: Span)
    requires Reached(log0, log, host, it, b, s) && s.Cut?
    ensures var r := it.ring;
            r < |log| && log[r].pcons < |log[r].pend| &&
            var i := log[r].pend[log[r].pcons];
            AtHead(log, Slotted(r, Idx(8, log[r].pcons)), Some(r), i) && Laid(log, i, s.sub, Start(log))
  {
    hide Laid;
    ReachedEnters(log0, log, host, it, b, s);
  }

  predicate SameItems(a: seq<Ring>, b: seq<Ring>)
  {
    |a| == |b| && forall q | 0 <= q < |a| :: a[q].items == b[q].items
  }

  // ---- what a flush writes ---------------------------------------------------------

  /** The word at a position of a ring. */
  function WordOf(n: nat, rings: seq<Ring>, s: Slot): Word
    requires 0 < n
  {
    if s.ring < |rings| && Idx(n, s.pos) < |rings[s.ring].items| then rings[s.ring].items[Idx(n, s.pos)] else 0
  }

  /** Words of a thread as the reader should see them: each under its ring's depth. */
  function TaggedAll(n: nat, rings: seq<Ring>, tid: nat, ss: seq<Slot>): (r: seq<Tagged>)
    requires 0 < n
    ensures |r| == |ss| && forall k | 0 <= k < |ss| :: r[k] == Tagged(tid, ss[k].depth, WordOf(n, rings, ss[k]))
  {
    seq(|ss|, k requires 0 <= k < |ss| => Tagged(tid, ss[k].depth, WordOf(n, rings, ss[k])))
  }

  lemma TaggedConcat(n: nat, rings: seq<Ring>, tid: nat, a: seq<Slot>, b: seq<Slot>)
    requires 0 < n
    ensures TaggedAll(n, rings, tid, a + b) == TaggedAll(n, rings, tid, a) + TaggedAll(n, rings, tid, b)
  {
  }

  lemma TaggedSame(n: nat, rings: seq<Ring>, rings': seq<Ring>, tid: nat, ss: seq<Slot>)
    requires 0 < n && SameItems(rings, rings')
    ensures TaggedAll(n, rings, tid, ss) == TaggedAll(n, rings', tid, ss)
  {
  }

  function AsItems(words: seq<Word>): (r: seq<Item>)
    ensures |r| == |words| && forall k | 0 <= k < |words| :: r[k] == IWord(words[k])
  {
    seq(|words|, k requires 0 <= k < |words| => IWord(words[k]))
  }

  predicate IovFits(rings: seq<Ring>, v: Iovec)
  {
    v.ring < |rings| && (v.IoWords? ==> v.base + v.len <= |rings[v.ring].items|)
  }

  /** What one vector points at. */
  function IovItems(rings: seq<Ring>, v: Iovec): seq<Item>
    requires IovFits(rings, v)
  {
    match v
    case IoDepth(ring) => [IDepth(rings[ring].idepth)]
    case IoWords(ring, base, len) => AsItems(rings[ring].items[base..base + len])
  }

  predicate IovsFit(rings: seq<Ring>, iovs: seq<Iovec>)
  {
    forall k | 0 <= k < |iovs| :: IovFits(rings, iovs[k])
  }

  function IovsItems(rings: seq<Ring>, iovs: seq<Iovec>): seq<Item>
    requires IovsFit(rings, iovs)
  {
    if iovs == [] then [] else IovItems(rings, iovs[0]) + IovsItems(rings, iovs[1..])
  }

  /** A vector of the get pass agrees with the ring that it points at. */
  predicate VecFits(n: nat, rings: seq<Ring>, v: Vec)
    requires 0 < n
  {
    v.ring < |rings| && |rings[v.ring].items| == n &&
    match v
    case Depth(ring, depth) => rings[ring].idepth == depth
    case Words(ring, from, len) => Idx(n, from) + len <= n
  }

  /** The reader takes what the vectors carry for the words that they stand for. */
  lemma {:induction false} VecsDecode(n: nat, rings: seq<Ring>, tid: nat, vs: seq<Vec>, d: nat)
    requires 0 < n && (forall k | 0 <= k < |vs| :: VecFits(n, rings, vs[k]))
    ensures IovsFit(rings, ToIovecs(n, vs))
    ensures var items := IovsItems(rings, ToIovecs(n, vs));
            Decode(items, LastCtx(tid, d)) == TaggedAll(n, rings, tid, Read(vs, d)) &&
            Final(items, LastCtx(tid, d)) == LastCtx(tid, EndDepth(vs, d))
    decreases vs
  {
    hide Idx, TaggedAll, AsItems, Decode, Final, IovFits, VecFits, IovItems, ToIovec, Run;
    if vs == [] {
      NothingDecodes(n, rings, tid, d);
    } else {
      var v := vs[0];
      var d1 := if v.Depth? then v.depth else d;
      VecDecodes(n, rings, tid, v, d);
      VecsDecode(n, rings, tid, vs[1..], d1);
      var iovs, rest := ToIovecs(n, vs), ToIovecs(n, vs[1..]);
      assert iovs[1..] == rest;
      assert forall k | 0 < k < |vs| :: iovs[k] == rest[k - 1];
      DecodeConcat(IovItems(rings, iovs[0]), IovsItems(rings, rest), LastCtx(tid, d));
      TaggedConcat(n, rings, tid, Read([v], d), Read(vs[1..], d1));
      ReadConcat([v], vs[1..], d);
      assert [v] + vs[1..] == vs;
    }
  }

  lemma NothingDecodes(n: nat, rings: seq<Ring>, tid: nat, d: nat)
    requires 0 < n
    ensures Decode([], LastCtx(tid, d)) == TaggedAll(n, rings, tid, []) && Final([], LastCtx(tid, d)) == LastCtx(tid, d)
  {
  }

  lemma VecDecodes(n: nat, rings: seq<Ring>, tid: nat, v: Vec, d: nat)
    requires 0 < n && VecFits(n, rings, v)
    ensures IovFits(rings, ToIovec(n, v))
    ensures EndDepth([v], d) == if v.Depth? then v.depth else d
    ensures var items := IovItems(rings, ToIovec(n, v));
            Decode(items, LastCtx(tid, d)) == TaggedAll(n, rings, tid, Read([v], d)) &&
            Final(items, LastCtx(tid, d)) == LastCtx(tid, EndDepth([v], d))
  {
    hide Idx, TaggedAll, AsItems;
    assert [v][1..] == [];
    if v.Words? {
      WordsDecode(n, rings, tid, d, v.ring, v.from, v.len);
      assert Read([v], d) == Run(v.ring, d, v.from, v.from + v.len);
    } else {
      assert [IDepth(rings[v.ring].idepth)][1..] == [];
      NothingDecodes(n, rings, tid, v.depth);
    }
  }

  lemma {:induction false} WordsDecode(n: nat, rings: seq<Ring>, tid: nat, d: nat, ring: nat, from: nat, len: nat)
    requires 0 < n && ring < |rings| && |rings[ring].items| == n && Idx(n, from) + len <= n
    ensures var items := AsItems(rings[ring].items[Idx(n, from)..Idx(n, from) + len]);
            Decode(items, LastCtx(tid, d)) == TaggedAll(n, rings, tid, Run(ring, d, from, from + len)) &&
            Final(items, LastCtx(tid, d)) == LastCtx(tid, d)
    decreases len
  {
    hide Idx;
    var base := Idx(n, from);
    var words := rings[ring].items[base..base + len];
    if len > 0 {
      var s := Slot(ring, d, from);
      var run := Run(ring, d, from + 1, from + len);
      assert Run(ring, d, from, from + len) == [s] + run;
      TaggedConcat(n, rings, tid, [s], run);
      assert TaggedAll(n, rings, tid, [s]) == [Tagged(tid, d, words[0])];
      var items := AsItems(words);
      assert items[0] == IWord(words[0]);
      if len > 1 {
        NextIdx(n, from);
        assert AsItems(rings[ring].items[base + 1..base + len]) == items[1..];
        WordsDecode(n, rings, tid, d, ring, from + 1, len - 1);
      } else {
        assert items[1..] == [] && run == [];
      }
    }
  }

  // ---- the chunks of a laid bracket are really there ------------------------------------

  predicate ChunkFits(n: nat, log: seq<LogRing>, c: Chunk)
  {
    c.ring < |log| && log[c.ring].depth == c.depth && c.from < c.to < c.from + n
  }

  lemma {:induction false} LaidChunks(n: nat, log: seq<LogRing>, it: LogIntr, b: Bracket, c: Cursor)
    requires Fits(log, c) && it.ring < |log| && Laid(log, it, b, c) && Ordered(n, b)
    ensures forall k | 0 <= k < |Chunks(b)| :: ChunkFits(n, log, Chunks(b)[k])
    decreases b, 1
  {
    LaidSpanChunks(n, log, b.ring, End(log, it), b.open, b.body, c);
  }

  lemma {:induction false} LaidSpanChunks(n: nat, log: seq<LogRing>, r: nat, last: nat, open: bool, s: Span, c: Cursor)
    requires Fits(log, c) && r < |log| && LaidSpan(log, r, last, open, s, c) && OrderedSpan(n, log[r].depth, s)
    ensures forall k | 0 <= k < |ChunksSpan(r, log[r].depth, s)| :: ChunkFits(n, log, ChunksSpan(r, log[r].depth, s)[k])
    decreases s, 0
  {
    if s.Cut? {
      var it := log[r].pend[c.p[r]];
      LaidChunks(n, log, it, s.sub, PassIntr(c, r, s.at));
      LaidSpanChunks(n, log, r, last, open, s.rest, After(s.sub, PassIntr(c, r, s.at)));
    }
  }

  lemma {:induction false} PiecesAllFit(n: nat, rings: seq<Ring>, log: seq<LogRing>, cs: seq<Chunk>, d: nat)
    requires 0 < n && Rep(n, rings, log) && forall k | 0 <= k < |cs| :: ChunkFits(n, log, cs[k])
    ensures forall k | 0 <= k < |PiecesAll(n, cs, d)| :: VecFits(n, rings, PiecesAll(n, cs, d)[k])
    decreases cs
  {
    if cs != [] {
      PiecesFit(n, rings, log, cs[0], d);
      PiecesAllFit(n, rings, log, cs[1..], cs[0].depth);
    }
  }

  lemma PiecesFit(n: nat, rings: seq<Ring>, log: seq<LogRing>, c: Chunk, d: nat)
    requires 0 < n && Rep(n, rings, log) && ChunkFits(n, log, c)
    ensures var ps := Pieces(n, c.ring, c.depth, c.from, c.to, d); forall k | 0 <= k < |ps| :: VecFits(n, rings, ps[k])
  {
    assert RepRing(n, rings[c.ring], log[c.ring]);
    Wrap(n, c.from, c.to);
    IdxAtEnd(n, c.from);
  }

  lemma NextIdx(n: nat, from: nat)
    requires 0 < n && Idx(n, from) + 1 < n
    ensures Idx(n, from + 1) == Idx(n, from) + 1
  {
    ModUnique(n, from + 1, from / n, from % n + 1);
  }

  // ---- a flush ------------------------------------------------------------------------

  /** What `out1` adds to `out0` is `words` to a reader that is at `lc`, who is at `lc'` after it; and there is no idle
      record in it. */
  ghost predicate Wrote(out0: seq<Item>, lc: LastCtx, out1: seq<Item>, lc': LastCtx, words: seq<Tagged>)
  {
    out0 <= out1 &&
    var added := out1[|out0|..];
    Decode(added, lc) == words && Final(added, lc) == lc' && Tight(added, lc)
  }

  /** Whatever context a reader starts the file at, if it was at `lc` after `out0`, then it
      reads `words` in what `out1` adds, and is at `lc'` after that. */
  lemma WroteAfter(out0: seq<Item>, lc: LastCtx, out1: seq<Item>, lc': LastCtx, words: seq<Tagged>, c0: LastCtx)
    requires Wrote(out0, lc, out1, lc', words) && Final(out0, c0) == lc
    ensures Decode(out1, c0) == Decode(out0, c0) + words && Final(out1, c0) == lc'
  {
    assert out1 == out0 + out1[|out0|..];
    DecodeConcat(out0, out1[|out0|..], c0);
  }

  lemma WroteNothing(out: seq<Item>, lc: LastCtx)
    ensures Wrote(out, lc, out, lc, [])
  {
    assert out[|out|..] == [];
  }

  lemma WroteMore(out0: seq<Item>, lc0: LastCtx, out1: seq<Item>, lc1: LastCtx, words1: seq<Tagged>,
                  out2: seq<Item>, lc2: LastCtx, words2: seq<Tagged>)
    requires Wrote(out0, lc0, out1, lc1, words1) && Wrote(out1, lc1, out2, lc2, words2)
    ensures Wrote(out0, lc0, out2, lc2, words1 + words2)
  {
    hide Decode, Final, Tight;
    var a, b := out1[|out0|..], out2[|out1|..];
    assert out2 == out1 + b && out1 == out0 + a;
    assert out2[|out0|..] == a + b;
    DecodeConcat(a, b, lc0);
    TightConcat(a, b, lc0);
  }

  /** A flush's records: those that bring the reader to the ring's context, and the ring's. */
  lemma WroteFlush(n: nat, rings: seq<Ring>, out0: seq<Item>, lc: LastCtx, tid: nat, d: nat, header: seq<Item>, vs: seq<Vec>)
    requires 0 < n && (forall k | 0 <= k < |vs| :: VecFits(n, rings, vs[k])) && TightVecs(vs, d)
    requires header == Header(lc, tid, d)
    ensures IovsFit(rings, ToIovecs(n, vs))
    ensures Wrote(out0, lc, out0 + header + IovsItems(rings, ToIovecs(n, vs)), LastCtx(tid, EndDepth(vs, d)),
                  TaggedAll(n, rings, tid, Read(vs, d)))
  {
    hide Decode, Final, Tight, IovFits, VecFits, TaggedAll, IovsItems, Header, ToIovecs, TightVecs, Read, EndDepth;
    VecsDecode(n, rings, tid, vs, d);
    VecsAreTight(n, rings, tid, vs, d);
    var items := IovsItems(rings, ToIovecs(n, vs));
    HeaderDecodes(lc, tid, d);
    var out1 := out0 + header + items;
    assert out1[|out0|..] == header + items;
    DecodeConcat(header, items, lc);
    TightConcat(header, items, lc);
    assert [] + TaggedAll(n, rings, tid, Read(vs, d)) == TaggedAll(n, rings, tid, Read(vs, d));
  }

  /** Nor is there an idle record among what the vectors carry. */
  lemma {:induction false} VecsAreTight(n: nat, rings: seq<Ring>, tid: nat, vs: seq<Vec>, d: nat)
    requires 0 < n && (forall k | 0 <= k < |vs| :: VecFits(n, rings, vs[k])) && TightVecs(vs, d)
    ensures IovsFit(rings, ToIovecs(n, vs)) && Tight(IovsItems(rings, ToIovecs(n, vs)), LastCtx(tid, d))
    decreases vs
  {
    hide Idx, TaggedAll, AsItems, Decode, Final, Tight, IovFits, VecFits, IovItems, ToIovec, Run;
    VecsDecode(n, rings, tid, vs, d);
    if vs == [] {
      NothingIsTight(LastCtx(tid, d));
    } else {
      var v := vs[0];
      var d1 := if v.Depth? then v.depth else d;
      VecDecodes(n, rings, tid, v, d);
      VecIsTight(n, rings, tid, v, d);
      VecsAreTight(n, rings, tid, vs[1..], d1);
      var iovs, rest := ToIovecs(n, vs), ToIovecs(n, vs[1..]);
      assert iovs[1..] == rest;
      assert forall k | 0 < k < |vs| :: iovs[k] == rest[k - 1];
      TightConcat(IovItems(rings, iovs[0]), IovsItems(rings, rest), LastCtx(tid, d));
    }
  }

  lemma NothingIsTight(c: LastCtx)
    ensures Tight([], c)
  {
  }

  lemma VecIsTight(n: nat, rings: seq<Ring>, tid: nat, v: Vec, d: nat)
    requires 0 < n && VecFits(n, rings, v) && (v.Depth? ==> v.depth != d)
    ensures IovFits(rings, ToIovec(n, v)) && Tight(IovItems(rings, ToIovec(n, v)), LastCtx(tid, d))
  {
    hide Idx;
    if v.Words? {
      WordsAreTight(rings[v.ring].items[Idx(n, v.from)..Idx(n, v.from) + v.len], LastCtx(tid, d));
    } else {
      assert [IDepth(rings[v.ring].idepth)][1..] == [];
    }
  }

  lemma {:induction false} WordsAreTight(words: seq<Word>, c: LastCtx)
    ensures Tight(AsItems(words), c)
    decreases |words|
  {
    if words != [] {
      assert AsItems(words)[1..] == AsItems(words[1..]);
      WordsAreTight(words[1..], c);
    }
  }

  /** The records that take the reader from `lc` to thread `tid` and depth `d`. */
  function Header(lc: LastCtx, tid: nat, d: nat): (h: seq<Item>)
    ensures |h| <= 2
  {
    if lc.tid != tid then [ISwitch(tid)] + (if d != 0 then [IDepth(d)] else [])
    else if lc.idepth != d then [IDepth(d)] else []
  }

  lemma HeaderDecodes(lc: LastCtx, tid: nat, d: nat)
    ensures Decode(Header(lc, tid, d), lc) == [] && Final(Header(lc, tid, d), lc) == LastCtx(tid, d)
    ensures Tight(Header(lc, tid, d), lc) && (Header(lc, tid, d) == [] <==> lc == LastCtx(tid, d))
  {
    assert [IDepth(d)][1..] == [];
    if lc.tid != tid {
      if d != 0 {
        assert Header(lc, tid, d)[1..] == [IDepth(d)];
        DecodeConcat([ISwitch(tid)], [IDepth(d)], lc);
      } else {
        assert Header(lc, tid, d)[1..] == [];
      }
    }
  }

  lemma RootReached(log0: seq<LogRing>, log: seq<LogRing>, t: Bracket, s: Span)
    requires LaidRoot(log0, t) && Reached(log0, log, None, RootIntr(log0, t.ring), t, s)
    ensures LaidRoot(log, t.(body := s)) && log[t.ring].tid == log0[t.ring].tid && log[t.ring].depth == log0[t.ring].depth
    ensures Hosted(log, None, RootIntr(log, t.ring)) && RootIntr(log, t.ring) == RootIntr(log0, t.ring).(sidx := s.from)
  {
    ReachedLaid(log0, log, None, RootIntr(log0, t.ring), t, s);
    ReachedFacts(log0, log, None, RootIntr(log0, t.ring), t, s);
    ShrunkBelow(log0, log, None, t.ring, After(t, Start(log0)));
  }

  lemma RootStarts(n: nat, rings: seq<Ring>, log: seq<LogRing>, t: Bracket)
    requires 0 < n && Rep(n, rings, log) && LaidRoot(log, t)
    ensures Hosted(log, None, RootIntr(log, t.ring)) && Ahead(log, Start(log)) && Passed(log, t.depth - 1, Start(log))
    ensures t.ring < |rings| == |log| && rings[t.ring].idepth == t.depth == log[t.ring].depth && rings[t.ring].tid == log[t.ring].tid && t.open
    ensures Ordered(n, t)
  {
    assert RepRing(n, rings[t.ring], log[t.ring]);
    LaidIsOrdered(n, log, RootIntr(log, t.ring), t, Start(log));
  }

  /** The vectors of a get pass stand for words that are there. */
  lemma EmitFits(n: nat, rings: seq<Ring>, log: seq<LogRing>, t: Bracket, room: nat, d: nat)
    requires 0 < n && Rep(n, rings, log) && LaidRoot(log, t)
    ensures var vs := Emit(n, t, room, d).vecs; forall k | 0 <= k < |vs| :: VecFits(n, rings, vs[k])
  {
    hide Emit, Rep, LaidRoot, VecFits, PiecesAll, ChunkFits, Chunks;
    RootStarts(n, rings, log, t);
    RootLaid(log, t);
    LaidChunks(n, log, RootIntr(log, t.ring), t, Start(log));
    var k := WholeChunks(n, t, room, d);
    PiecesAllFit(n, rings, log, Chunks(t)[..k], d);
  }

  lemma RootLaid(log: seq<LogRing>, t: Bracket)
    requires LaidRoot(log, t)
    ensures t.ring < |log| && Laid(log, RootIntr(log, t.ring), t, Start(log))
  {
  }

  /** What is left of a thread's tree after a flush, and the words taken. */
  ghost predicate FlushedTo(n: nat, t: Bracket, l: Bracket, taken: seq<Slot>)
  {
    Flatten(t) == taken + Flatten(l) && l.ring == t.ring && l.depth == t.depth && l.open == t.open &&
    Coming(l) && (Leading(t) ==> Leading(l)) && (Quiet(t.body) ==> Quiet(l.body)) && (Stuck(t.body) ==> Stuck(l.body) && taken == []) &&
    (Leading(t) && Quiet(t.body) && !Stuck(t.body) ==> !Stuck(l.body)) &&
    (Leading(t) && Quiet(t.body) && !Stuck(t.body) && taken == [] ==> l.body.Done? && l.body.from == l.body.to)
  }

  /** A drop pass, a get pass with room enough, and the discard pass that replays it. */
  lemma FlushLeaves(n: nat, t: Bracket, room: nat, d: nat)
    requires 0 < n && Ordered(n, t) && Coming(t) && 3 <= room
    ensures var t1 := Drop(t).0;
            Ordered(n, t1) && Coming(t1) && Grown(t1, t1) &&
            var e := Emit(n, t1, room, d);
            FlushedTo(n, t, if e.vecs == [] then t1 else Left(n, t1, t1, room, d), Read(e.vecs, d)) &&
            EndDepth(e.vecs, d) == e.depth && (e.vecs == [] <==> Read(e.vecs, d) == [])
  {
    hide Emit, EmitSpan, Left, LeftSpan, Drop, DropSpan, Flatten, Read, EndDepth, Ordered, OrderedSpan, Leading, LeadingSpan, Coming, Grown;
    var t1 := Drop(t).0;
    DropKeeps(n, t);
    GrownSelf(t1, n);
    Conservation(n, t1, t1, room, d);
    LeftKeeps(n, t1, t1, room, d);
    FlushMoves(n, t, room, d);
    ReadNil(d);
    var e := Emit(n, t1, room, d);
    assert [] + Flatten(t1) == Flatten(t1);
  }

  lemma FlushMoves(n: nat, t: Bracket, room: nat, d: nat)
    requires 0 < n && Ordered(n, t) && 3 <= room
    requires var t1 := Drop(t).0; Ordered(n, t1) && (Leading(t) ==> Leading(t1)) && Grown(t1, t1)
    ensures var t1 := Drop(t).0;
            var e := Emit(n, t1, room, d);
            (Stuck(t.body) ==> e.vecs == [] && Stuck(t1.body)) &&
            (Leading(t) && !Stuck(t.body) && Quiet(t.body) ==>
               !Stuck(t1.body) && !Stuck(Left(n, t1, t1, room, d).body) &&
               (e.vecs == [] ==> t1.body.Done? && t1.body.from == t1.body.to)) &&
            (e.vecs == [] <==> Read(e.vecs, d) == [])
  {
    hide EmitSpan, LeftSpan, DropSpan;
    var t1 := Drop(t).0;
    EmitMoves(n, t1.ring, t1.depth, t1.body, room, d);
    if Stuck(t.body) {
      StuckStays(n, t.ring, t.depth, t.open, t.body, room, d);
    } else if Leading(t) && Quiet(t.body) {
      FrontMoves(n, t.ring, t.depth, t.open, t.body, room, d);
      LeftIsNotStuck(n, t1.ring, t1.depth, t1.open, t1.open, t1.body, t1.body, room, d);
    }
  }

  lemma EmitBegins(n: nat, b: Bracket, room: nat, d: nat)
    requires 0 < n && 3 <= room && Ordered(n, b)
    ensures Emit(n, b, room, d).vecs != [] <==> FirstIsWord(b.body)
  {
    hide EmitSpan;
    PlanBegins(n, b.ring, b.depth, b.body, room, d);
    EmitBody(n, b, room, d);
  }

  lemma FilledAll(n: nat, vs: seq<Vec>, iovs: seq<Iovec>)
    requires 0 < n && Filled(n, [], vs, iovs)
    ensures iovs == ToIovecs(n, vs) && (iovs == [] <==> vs == [])
  {
    assert [] + ToIovecs(n, vs) == ToIovecs(n, vs);
  }

  lemma NoTail(n: nat, e: Out, iovs: seq<Iovec>)
    requires 0 < n && iovs == ToIovecs(n, e.vecs)
    ensures iovs == ToIovecs(n, e.vecs) + [] && Follows(e, [])
  {
  }

  lemma TaggedNothing(n: nat, rings: seq<Ring>, tid: nat)
    requires 0 < n
    ensures TaggedAll(n, rings, tid, []) == []
  {
  }

  lemma IovsStep(rings: seq<Ring>, iovs: seq<Iovec>, k: nat)
    requires k < |iovs| && IovsFit(rings, iovs)
    ensures IovsFit(rings, iovs[k..]) && IovsFit(rings, iovs[k + 1..])
    ensures IovsItems(rings, iovs[k..]) == IovItems(rings, iovs[k]) + IovsItems(rings, iovs[k + 1..])
  {
    hide IovFits, IovItems;
    assert iovs[k..][1..] == iovs[k + 1..];
  }

  lemma IovsNone(rings: seq<Ring>, iovs: seq<Iovec>)
    requires iovs == []
    ensures IovsItems(rings, iovs) == []
  {
  }

  // ---- the serializer's loop over threads ------------------------------------------------

  /** The threads' trees, one thread each. */
  predicate QuietThreads(log: seq<LogRing>, ts: seq<Bracket>)
  {
    (forall i | 0 <= i < |ts| :: LaidRoot(log, ts[i]) && Leading(ts[i]) && Quiet(ts[i].body)) &&
    (forall i, j | 0 <= i < j < |ts| :: log[ts[i].ring].tid != log[ts[j].ring].tid)
  }

  /** What the loop has come to with thread `t`: `taken` has been written, `l` remains. */
  predicate Drained(log0: seq<LogRing>, log: seq<LogRing>, t: Bracket, l: Bracket, taken: seq<Slot>)
  {
    l.ring == t.ring < |log0| == |log| && log[t.ring].tid == log0[t.ring].tid &&
    Flatten(t) == taken + Flatten(l) && (Stuck(t.body) <==> Stuck(l.body)) && (Stuck(t.body) ==> taken == []) &&
    (forall q | 0 <= q < |log| ::
       log[q].depth == log0[q].depth && log[q].tid == log0[q].tid && log[q].prod == log0[q].prod && |log[q].pend| == |log0[q].pend|) &&
    SameBelow(log0, t.ring, After(t, Start(log0)), After(l, Start(log)))
  }

  /** What the loop has come to with all threads, and the words written. */
  ghost predicate Serialized(n: nat, rings: seq<Ring>, log0: seq<LogRing>, log: seq<LogRing>, ts: seq<Bracket>,
                             ls: seq<Bracket>, takens: seq<seq<Slot>>, words: seq<Tagged>)
    requires 0 < n
  {
    |ls| == |takens| == |ts| && QuietThreads(log, ls) &&
    forall i | 0 <= i < |ts| ::
      Drained(log0, log, ts[i], ls[i], takens[i]) &&
      OfThread(words, log0[ts[i].ring].tid) == TaggedAll(n, rings, log0[ts[i].ring].tid, takens[i])
  }

  /** A flush of one thread does not touch another's rings. */
  lemma OtherThread(log0: seq<LogRing>, log: seq<LogRing>, t: Bracket, s: Span, u: Bracket)
    requires t.ring < |log0| && Reached(log0, log, None, RootIntr(log0, t.ring), t, s)
    requires LaidRoot(log0, u) && log0[t.ring].tid != log0[u.ring].tid
    ensures LaidRoot(log, u) && SameBelow(log0, u.ring, After(u, Start(log0)), After(u, Start(log)))
    ensures forall q | 0 <= q < |log0| && Below(log0, u.ring, q) :: log[q] == log0[q]
  {
    hide LaidSpan, After, AfterSpan;
    ReachedFacts(log0, log, None, RootIntr(log0, t.ring), t, s);
    ShrunkBelow(log0, log, None, t.ring, After(t, Start(log0)));
    assert Below(log0, u.ring, u.ring);
    assert Agree(log0, log, Start(log0), Start(log), u.ring);
    RootLaid(log0, u);
    LaidFrame(log0, log, RootIntr(log0, u.ring), u, Start(log0), Start(log));
  }

  function Remaining(ls: seq<Bracket>): nat
  {
    if ls == [] then 0 else |Flatten(ls[0])| + Remaining(ls[1..])
  }

  lemma {:induction false} RemainingLess(ls: seq<Bracket>, i: nat, l: Bracket)
    requires i < |ls|
    ensures Remaining(ls[i := l]) == Remaining(ls) - |Flatten(ls[i])| + |Flatten(l)|
    decreases i
  {
    if i == 0 {
      assert ls[0 := l][1..] == ls[1..];
    } else {
      assert ls[i := l][1..] == ls[1..][i - 1 := l];
      RemainingLess(ls[1..], i - 1, l);
    }
  }

  lemma SerializeStarts(n: nat, rings: seq<Ring>, log: seq<LogRing>, ts: seq<Bracket>)
    requires 0 < n && QuietThreads(log, ts)
    ensures Serialized(n, rings, log, log, ts, ts, seq(|ts|, i => []), [])
  {
    hide LaidRoot, Leading, Quiet, Stuck, After;
    forall i | 0 <= i < |ts|
      ensures Drained(log, log, ts[i], ts[i], [])
    {
      RootLaid(log, ts[i]);
      assert [] + Flatten(ts[i]) == Flatten(ts[i]);
    }
  }

  lemma SerializedThread(n: nat, rings: seq<Ring>, log0: seq<LogRing>, log: seq<LogRing>, ts: seq<Bracket>,
                         ls: seq<Bracket>, takens: seq<seq<Slot>>, words: seq<Tagged>, k: nat)
    requires 0 < n && Serialized(n, rings, log0, log, ts, ls, takens, words) && k < |ts|
    ensures |ls| == |takens| == |ts| && ls[k].ring == ts[k].ring && LaidRoot(log, ls[k]) && Leading(ls[k]) && Quiet(ls[k].body)
    ensures Stuck(ls[k].body) <==> Stuck(ts[k].body)
    ensures ls[k].ring < |log| == |log0| && log[ls[k].ring].tid == log0[ls[k].ring].tid
  {
    hide LaidRoot, Leading, Quiet, Stuck, After;
  }

  lemma SerializedMore(n: nat, rings: seq<Ring>, log0: seq<LogRing>, log1: seq<LogRing>, log2: seq<LogRing>, ts: seq<Bracket>,
                       ls: seq<Bracket>, takens: seq<seq<Slot>>, words: seq<Tagged>, k: nat, l: Bracket, taken: seq<Slot>)
    requires 0 < n && Serialized(n, rings, log0, log1, ts, ls, takens, words) && k < |ts|
    requires ls[k].ring < |log1| && Reached(log1, log2, None, RootIntr(log1, ls[k].ring), ls[k], l.body)
    requires LaidRoot(log2, l) && FlushedTo(n, ls[k], l, taken)
    ensures Serialized(n, rings, log0, log2, ts, ls[k := l], takens[k := takens[k] + taken],
                       words + TaggedAll(n, rings, log1[ls[k].ring].tid, taken))
  {
    hide LaidRoot, Leading, Quiet, Stuck, After, Reached, Shrunk, TaggedAll, OfThread, FlushedTo, Flatten, Laid;
    var t, ls', takens' := ls[k], ls[k := l], takens[k := takens[k] + taken];
    var more := TaggedAll(n, rings, log1[t.ring].tid, taken);
    FlushedFacts(n, t, l, taken);
    RootLaid(log1, t);
    ReachedFacts(log1, log2, None, RootIntr(log1, t.ring), t, l.body);
    ShrunkBelow(log1, log2, None, t.ring, After(t, Start(log1)));
    AfterBody(l, Start(log2));
    forall i | 0 <= i < |ts|
      ensures LaidRoot(log2, ls'[i]) && Leading(ls'[i]) && Quiet(ls'[i].body) && Drained(log0, log2, ts[i], ls'[i], takens'[i])
      ensures OfThread(words + more, log0[ts[i].ring].tid) == TaggedAll(n, rings, log0[ts[i].ring].tid, takens'[i])
    {
      assert Drained(log0, log1, ts[i], ls[i], takens[i]);
      OfThreadConcat(words, more, log0[ts[i].ring].tid);
      TaggedThread(n, rings, log1[t.ring].tid, taken, log0[ts[i].ring].tid);
      if i == k {
        TaggedConcat(n, rings, log1[t.ring].tid, takens[k], taken);
        assert takens[k] + taken + Flatten(l) == takens[k] + (taken + Flatten(l));
      } else {
        assert log1[ls[i].ring].tid != log1[t.ring].tid;
        OtherThread(log1, log2, t, l.body, ls[i]);
      }
    }
  }

  lemma TaggedThread(n: nat, rings: seq<Ring>, of: nat, taken: seq<Slot>, tid: nat)
    requires 0 < n
    ensures OfThread(TaggedAll(n, rings, of, taken), tid) == if tid == of then TaggedAll(n, rings, of, taken) else []
  {
    OfThreadSame(TaggedAll(n, rings, of, taken), tid, of);
  }

  lemma FlushedFacts(n: nat, t: Bracket, l: Bracket, taken: seq<Slot>)
    requires FlushedTo(n, t, l, taken) && Leading(t)
    ensures Flatten(t) == taken + Flatten(l) && l == t.(body := l.body) && Leading(l)
    ensures Quiet(t.body) ==> Quiet(l.body) && (Stuck(t.body) <==> Stuck(l.body))
    ensures Stuck(t.body) ==> taken == []
    ensures Quiet(t.body) && taken == [] ==> Empty(t, l)
    ensures |Flatten(l)| == |Flatten(t)| - |taken|
  {
  }

  /** Unless the thread's tree was stuck, nothing is left of it. */
  predicate Empty(t: Bracket, l: Bracket)
  {
    !Stuck(t.body) ==> l.body.Done? && l.body.from == l.body.to
  }

  lemma SerializedSame(n: nat, rings: seq<Ring>, rings': seq<Ring>, log0: seq<LogRing>, log: seq<LogRing>, ts: seq<Bracket>,
                       ls: seq<Bracket>, takens: seq<seq<Slot>>, words: seq<Tagged>)
    requires 0 < n && Serialized(n, rings, log0, log, ts, ls, takens, words) && SameItems(rings, rings')
    ensures Serialized(n, rings', log0, log, ts, ls, takens, words) && |ls| == |ts|
  {
    hide QuietThreads, Drained, TaggedAll, OfThread;
    forall i | 0 <= i < |ts|
      ensures Drained(log0, log, ts[i], ls[i], takens[i]) && ts[i].ring < |log0|
      ensures OfThread(words, log0[ts[i].ring].tid) == TaggedAll(n, rings', log0[ts[i].ring].tid, takens[i])
    {
      assert Drained(log0, log, ts[i], ls[i], takens[i]);
      DrainedRing(log0, log, ts[i], ls[i], takens[i]);
      TaggedSame(n, rings, rings', log0[ts[i].ring].tid, takens[i]);
    }
  }

  lemma DrainedRing(log0: seq<LogRing>, log: seq<LogRing>, t: Bracket, l: Bracket, taken: seq<Slot>)
    requires Drained(log0, log, t, l, taken)
    ensures t.ring < |log0|
  {
  }

  /** Once nothing is left of a tree that was all that its thread's rings held, those rings are empty. */
  lemma EmptyIsClean(log0: seq<LogRing>, log: seq<LogRing>, t: Bracket, l: Bracket, taken: seq<Slot>)
    requires Drained(log0, log, t, l, taken) && AllWalked(log0, t) && LaidRoot(log, l) && l.body.Done? && l.body.from == l.body.to
    ensures forall q | 0 <= q < |log| && Below(log, t.ring, q) :: Clean(log, q)
  {
    hide Flatten, Stuck;
    var c := Start(log);
    assert c.w[l.ring := c.w[l.ring]] == c.w;
    assert After(l, c) == c;
    forall q | 0 <= q < |log| && Below(log, t.ring, q)
      ensures Clean(log, q)
    {
      assert Below(log0, t.ring, q);
    }
  }

  lemma SerializedIsClean(n: nat, rings: seq<Ring>, log0: seq<LogRing>, log: seq<LogRing>, ts: seq<Bracket>,
                          ls: seq<Bracket>, takens: seq<seq<Slot>>, words: seq<Tagged>)
    requires 0 < n && Serialized(n, rings, log0, log, ts, ls, takens, words) && |ls| == |ts|
    requires forall i | 0 <= i < |ts| :: Empty(ts[i], ls[i])
    ensures forall i | 0 <= i < |ts| :: RingsEmptied(log0, log, ts[i])
  {
    hide Stuck, Flatten, LaidRoot, AllWalked, TaggedAll, OfThread, Quiet, Leading;
    forall i | 0 <= i < |ts|
      ensures RingsEmptied(log0, log, ts[i])
    {
      assert Drained(log0, log, ts[i], ls[i], takens[i]) && LaidRoot(log, ls[i]) && Empty(ts[i], ls[i]);
      if !Stuck(ts[i].body) && AllWalked(log0, ts[i]) { EmptyIsClean(log0, log, ts[i], ls[i], takens[i]); }
    }
  }

  /** Unless the thread's tree was stuck, its ring and every ring of its handlers hold nothing, if the
      tree was all that they held. */
  predicate RingsEmptied(log0: seq<LogRing>, log: seq<LogRing>, t: Bracket)
  {
    t.ring < |log0| == |log| && !Stuck(t.body) && AllWalked(log0, t) ==>
      forall q | 0 <= q < |log| && Below(log, t.ring, q) :: Clean(log, q)
  }

  class EventForest {
    /** Slots per ring. */
    const size: nat
    var rings: seq<Ring>
    /** What has been written to the trace file. */
    var out: seq<Item>
    /** What the rings mean. */
    ghost var log: seq<LogRing>

    ghost predicate Valid()
      reads this
    {
      1 < size && Rep(size, rings, log)
    }

    // ---- small readers, from llvm/ngrt/ring.h ---------------------------------

    method FirstInterruption(r: nat) returns (it: Option<nat>)
      requires Valid() && r < |rings|
      ensures it == if log[r].pcons < |log[r].pend| then Some(Idx(8, log[r].pcons)) else None
    {
      assert RepRing(size, rings[r], log[r]) && BoundedRing(size, |log|, log[r]);
      SlotsDiffer(log[r].pcons, |log[r].pend|);
      it := if rings[r].iconsumer == rings[r].iproducer then None else Some(rings[r].iconsumer);
    }

    method NextInterruption(r: nat, prev: nat, ghost k: nat) returns (it: Option<nat>)
      requires Valid() && r < |rings| && log[r].pcons <= k < |log[r].pend| && prev == Idx(8, k)
      ensures it == if k + 1 < |log[r].pend| then Some(Idx(8, k + 1)) else None
    {
      assert RepRing(size, rings[r], log[r]) && BoundedRing(size, |log|, log[r]);
      NextSlotIsNext(k);
      SlotsDiffer(k + 1, |log[r].pend|);
      var next := NextSlot(prev);
      it := if next == rings[r].iproducer then None else Some(next);
    }

    /** Where the bracket starts and ends, and whether it is an unfinished interruption. */
    method Extent(r: nat, br: Bracketing, ghost it: LogIntr) returns (first: nat, last: nat, unfinished: bool)
      requires Valid() && r < |rings| && Designates(size, rings, log, br, it) && it.ring == r
      ensures first == Idx(size, it.sidx) && last == Idx(size, End(log, it))
      ensures unfinished == (br.Slotted? && it.open)
    {
      assert RepRing(size, rings[r], log[r]);
      match br
      case Root =>
        first, last, unfinished := rings[r].consumer, rings[r].producer, false;
      case Slotted(ring, slot) =>
        var i := rings[ring].islots[slot];
        unfinished := i.eidx < 0;
        first, last := i.sidx, if i.eidx < 0 then rings[r].producer else i.eidx;
    }

    method ContainsProper(r: nat, l: nat, m: nat, ghost x: nat, ghost y: nat) returns (b: bool)
      requires Valid() && r < |rings|
      requires log[r].cons <= x <= log[r].prod && log[r].cons <= y <= log[r].prod
      requires l == Idx(size, x) && m == Idx(size, y)
      ensures b <==> x < y
    {
      assert RepRing(size, rings[r], log[r]) && BoundedRing(size, |log|, log[r]);
      ArcComparesPositions(size, log[r].cons, log[r].prod, x, y);
      b := ContainsProperArc(rings[r].consumer, rings[r].producer, l, m);
    }

    method Contains(r: nat, l: nat, m: nat, ghost x: nat, ghost y: nat) returns (b: bool)
      requires Valid() && r < |rings|
      requires log[r].cons <= x <= log[r].prod && log[r].cons <= y <= log[r].prod
      requires l == Idx(size, x) && m == Idx(size, y)
      ensures b <==> x <= y
    {
      assert RepRing(size, rings[r], log[r]) && BoundedRing(size, |log|, log[r]);
      ArcComparesPositions(size, log[r].cons, log[r].prod, x, y);
      b := ContainsArc(rings[r].consumer, rings[r].producer, l, m);
    }

    method ConsumerOf(r: nat) returns (cidx: nat)
      requires Valid() && r < |rings|
      ensures cidx == Idx(size, log[r].cons)
    {
      assert RepRing(size, rings[r], log[r]);
      cidx := rings[r].consumer;
    }

    // ---- the get pass ------------------------------------------------------------

    /** rvp_ring_get_iovs_between: the vectors are filled from `iovs` on, up to but not
        including number `lastiov`. */
    method GetIovsBetween(r: nat, iovs0: seq<Iovec>, lastiov: nat, first: nat, last: nat, idepth0: nat,
                          ghost from: nat, ghost to: nat)
      returns (iovs: seq<Iovec>, residue: int, idepth: nat)
      requires Valid() && r < |rings| && |iovs0| <= lastiov
      requires from <= to < from + size && first == Idx(size, from) && last == Idx(size, to)
      ensures |iovs| <= lastiov
      ensures match Between(size, r, rings[r].idepth, from, to, lastiov - |iovs0|, idepth0)
              case None => iovs == iovs0 && residue == -1 && idepth == idepth0
              case Some(p) =>
                Filled(size, iovs0, p, iovs) && residue == lastiov - |iovs| && idepth == rings[r].idepth
    {
      hide Pieces, ToIovecs, Idx, RepIntr, Bounded;
      assert RepRing(size, rings[r], log[r]);
      if from < to { PiecesAsIovecs(size, r, rings[r].idepth, from, to, idepth0); }
      iovs, residue, idepth := iovs0, -1, idepth0;
      if first == last { return; }
      if |iovs0| == lastiov { return; }
      var iov := iovs0;
      var writebackDepth := false;
      if rings[r].idepth != idepth0 {
        if |iov| + 1 == lastiov { return; }
        iov := iov + [IoDepth(r)];
        writebackDepth := true;
      }
      if first < last {
        iov := iov + [IoWords(r, first, last - first)];
      } else {
        iov := iov + [IoWords(r, first, size - first)];
        if |iov| == lastiov { return; }
        iov := iov + [IoWords(r, 0, last)];
      }
      assert iov == iovs0 + ToIovecs(size, Pieces(size, r, rings[r].idepth, from, to, idepth0));
      iovs := iov;
      if writebackDepth { idepth := rings[r].idepth; }
      residue := lastiov - |iovs|;
    }

    /** The words of a bracket that precede an interruption, if there are any. */
    method GetLead(r: nat, iovs0: seq<Iovec>, lastiov: nat, first: nat, intr: nat, idepth0: nat,
                   ghost from: nat, ghost at: nat)
      returns (iovs: seq<Iovec>, residue: int, idepth: nat)
      requires Valid() && r < |rings| && |iovs0| <= lastiov
      requires log[r].cons <= from <= at <= log[r].prod && first == Idx(size, from) && intr == Idx(size, at)
      ensures |iovs| <= lastiov
      ensures match Lead(size, r, rings[r].idepth, from, at, lastiov - |iovs0|, idepth0)
              case None => residue == -1 && iovs == iovs0 && idepth == idepth0
              case Some(p) =>
                Filled(size, iovs0, p, iovs) && residue == lastiov - |iovs| &&
                idepth == LeadDepth(rings[r].idepth, from, at, idepth0)
    {
      hide Idx, Between, ToIovecs, RepRing;
      assert BoundedRing(size, |log|, log[r]);
      iovs, residue, idepth := iovs0, lastiov - |iovs0|, idepth0;
      var lead := ContainsProper(r, first, intr, from, at);
      if lead {
        iovs, residue, idepth := GetIovsBetween(r, iovs, lastiov, first, intr, idepth, from, at);
      } else {
        FilledNone(size, iovs);
      }
    }

    /** rvp_ring_get_iovs fills vectors with the unserialized words of a bracket, in program
        order; the recursion follows the tree. */
    method GetIovs(r: nat, br: Bracketing, iovs0: seq<Iovec>, lastiov: nat, idepth0: nat,
                   ghost it: LogIntr, ghost b: Bracket, ghost c: Cursor)
      returns (iovs: seq<Iovec>, residue: int, idepth: nat)
      requires Valid() && r < |rings| && Designates(size, rings, log, br, it) && it.ring == r && |iovs0| <= lastiov
      requires Fits(log, c) && Ahead(log, c) && Laid(log, it, b, c) && Passed(log, b.depth - 1, c)
      ensures var e := Emit(size, b, lastiov - |iovs0|, idepth0);
              Filled(size, iovs0, e.vecs, iovs) && idepth == e.depth &&
              (br.Slotted? ==> residue == e.residue)
      decreases Size(b)
    {
      hide Idx, Pieces, Between, ToIovecs, RepIntr, Lead, Emit, EmitSpan, Laid, LaidSpan, Passed, Ahead, PassIntr, After;
      hide Getting, GetTask, Size, SizeSpan, Rep, RepRing, Bounded, BoundedRing, Designates, LeadDepth, Fits, End, Filled;
      RingFacts(size, rings, log, r);
      ghost var g := NewTask(size, log, it, b, c, lastiov - |iovs0|, idepth0);
      ghost var w := GetStarts(g, lastiov - |iovs0|, idepth0);
      var first, last, unfinished := Extent(r, br, it);
      var next := FirstInterruption(r);
      iovs, idepth := iovs0, idepth0;
      residue := lastiov - |iovs|;
      FilledNone(size, iovs);
      while residue > 0 && next.Some?
        invariant log[r].pcons <= w.k <= |log[r].pend|
        invariant next == if w.k < |log[r].pend| then Some(Idx(8, w.k)) else None
        invariant first == Idx(size, w.s.from)
        invariant Filled(size, iovs0, w.vs, iovs) && 0 <= residue == lastiov - |iovs|
        invariant Getting(g, w, residue, idepth)
        decreases |log[r].pend| - w.k
      {
        ghost var i := log[r].pend[w.k];
        SlotFacts(size, rings, log, r, w.k);
        var slot := rings[r].islots[next.value];
        var intr := slot.interrupted;
        GetHead(g, w, residue, idepth);
        var before := ContainsProper(r, intr, first, i.at, w.s.from);
        if before {
          next := NextInterruption(r, next.value, w.k);
          w := GetSkips(g, w, residue, idepth);
          continue;
        }
        var beyond := ContainsProper(r, last, intr, End(log, it), i.at);
        if beyond {
          break;
        }
        ghost var d0, room, iovsHead, vsHead := idepth, residue, iovs, w.vs;
        iovs, residue, idepth := GetLead(r, iovs, lastiov, first, intr, idepth, w.s.from, i.at);
        if residue < 0 {
          GetNoLead(g, w, room, d0);
          break;
        }
        ghost var p, cut, e := GetCut(g, w, room, d0);
        ghost var iovs1 := iovs;
        FilledMore(size, iovs0, w.vs, iovsHead, p, iovs1);
        first := intr;
        iovs, residue, idepth := GetIovs(slot.interruptor, Slotted(r, next.value), iovs, lastiov, idepth, i, w.s.sub, cut);
        next := NextInterruption(r, next.value, w.k);
        w := GetNext(g, w, room, d0, p, cut, e);
        FilledMore(size, iovs0, vsHead + p, iovs1, e.vecs, iovs);
        if residue < 0 {
          break;
        }
      }
      if residue >= 0 {
        iovs, residue, idepth := GetLast(r, iovs, lastiov, first, last, idepth, iovs0, g, w);
      }
      if unfinished { residue := -1; }
    }

    /** The words of a bracket after its interruptions, if there are vectors left. */
    method GetLast(r: nat, iovs1: seq<Iovec>, lastiov: nat, first: nat, last: nat, idepth1: nat,
                   ghost iovs0: seq<Iovec>, ghost g: Task, ghost w: Walk)
      returns (iovs: seq<Iovec>, residue: int, idepth: nat)
      requires Valid() && r < |rings| && g.n == size && g.log == log && g.b.ring == r == g.it.ring && g.b.depth == log[r].depth
      requires |iovs1| <= lastiov && Getting(g, w, lastiov - |iovs1|, idepth1) && Filled(size, iovs0, w.vs, iovs1)
      requires |iovs1| == lastiov || w.k == |log[r].pend| || w.s.Done?
      requires first == Idx(size, w.s.from) && last == Idx(size, End(log, g.it))
      ensures Filled(size, iovs0, g.whole.vecs, iovs) && residue == g.whole.residue && idepth == g.whole.depth
    {
      hide Idx, Pieces, Between, ToIovecs, Emit, EmitSpan, Laid, LaidSpan, Passed, Ahead, PassIntr, After, Getting, Filled;
      GetEnds(g, w, lastiov - |iovs1|, idepth1);
      iovs, idepth, residue := iovs1, idepth1, lastiov - |iovs1|;
      if residue > 0 {
        ghost var p := Between(size, r, g.b.depth, w.s.from, w.s.to, residue, idepth);
        iovs, residue, idepth := GetIovsBetween(r, iovs, lastiov, first, last, idepth, w.s.from, w.s.to);
        if p.Some? { FilledMore(size, iovs0, w.vs, iovs1, p.value, iovs); }
      }
    }

    // ---- small writers ---------------------------------------------------------------

    /** r->r_consumer = producer */
    method Consume(r: nat, producer: nat, ghost to: nat)
      requires Valid() && r < |rings| && producer == Idx(size, to)
      requires log[r].cons <= to <= log[r].prod
      requires log[r].pcons < |log[r].pend| ==> to <= log[r].pend[log[r].pcons].at
      modifies this`rings, this`log
      ensures Valid() && SameItems(old(rings), rings) && log == Consumed(old(log), r, to)
    {
      hide Idx, RepIntr;
      assert RepRing(size, rings[r], log[r]) && BoundedRing(size, |log|, log[r]);
      rings := rings[r := rings[r].(consumer := producer)];
      log := Consumed(log, r, to);
      assert RepRing(size, rings[r], log[r]) && BoundedRing(size, |log|, log[r]);
      assert forall q | 0 <= q < |log| && q != r :: rings[q] == old(rings)[q] && log[q] == old(log)[q];
    }

    /** bracket->it_interruptor_sidx = r->r_consumer - r->r_items, if there is a bracket. */
    method MoveBracket(r: nat, br: Bracketing, ghost host: Option<nat>)
      requires Valid() && r < |rings| && Points(log, br, host)
      modifies this`rings, this`log
      ensures Valid() && SameItems(old(rings), rings) && log == Rehosted(old(log), host, old(log)[r].cons)
    {
      hide Idx;
      match br
      case Root =>
      case Slotted(p, slot) =>
        ghost var k := log[p].pcons;
        SlotFacts(size, rings, log, p, k);
        assert RepRing(size, rings[p], log[p]) && BoundedRing(size, |log|, log[p]) && RepRing(size, rings[r], log[r]);
        rings := rings[p := rings[p].(islots := rings[p].islots[slot := rings[p].islots[slot].(sidx := rings[r].consumer)])];
        log := Rehosted(log, host, log[r].cons);
        forall j | k <= j < |log[p].pend|
          ensures RepIntr(size, rings[p].islots[Idx(8, j)], log[p].pend[j])
        {
          SlotsDiffer(k, j);
          assert RepIntr(size, old(rings)[p].islots[Idx(8, j)], old(log)[p].pend[j]);
        }
        assert RepRing(size, rings[p], log[p]) && BoundedRing(size, |log|, log[p]);
        assert forall q | 0 <= q < |log| && q != p :: rings[q] == old(rings)[q] && log[q] == old(log)[q];
    }

    /** rvp_ring_drop_interruption */
    method DropInterruption(r: nat) returns (next: Option<nat>)
      requires Valid() && r < |rings| && log[r].pcons < |log[r].pend|
      modifies this`rings, this`log
      ensures Valid() && SameItems(old(rings), rings)
      ensures log == old(log)[r := old(log)[r].(pcons := old(log)[r].pcons + 1)]
      ensures next == if log[r].pcons < |log[r].pend| then Some(Idx(8, log[r].pcons)) else None
    {
      hide Idx, RepIntr;
      ghost var k := log[r].pcons;
      assert RepRing(size, rings[r], log[r]) && BoundedRing(size, |log|, log[r]);
      NextSlotIsNext(k);
      SlotsDiffer(k, |log[r].pend|);
      SlotsDiffer(k + 1, |log[r].pend|);
      var prev := rings[r].iconsumer;
      var producer := rings[r].iproducer;
      var after := NextSlot(prev);
      assert prev != producer;
      rings := rings[r := rings[r].(iconsumer := after)];
      log := log[r := log[r].(pcons := k + 1)];
      assert RepRing(size, rings[r], log[r]) && BoundedRing(size, |log|, log[r]);
      assert forall q | 0 <= q < |log| && q != r :: rings[q] == old(rings)[q] && log[q] == old(log)[q];
      next := if after == producer then None else Some(after);
    }

    // ---- the drop pass -----------------------------------------------------------------

    /** rvp_ring_drop_empties drops the drained brackets that come first. */
    method DropEmpties(r: nat, br: Bracketing, ghost it: LogIntr, ghost b: Bracket, ghost host: Option<nat>)
      returns (empty: bool)
      requires Valid() && r < |rings| && AtHead(log, br, host, it) && it.ring == r && Laid(log, it, b, Start(log))
      modifies this`rings, this`log
      ensures Valid() && SameItems(old(rings), rings)
      ensures Reached(old(log), log, host, it, b, Drop(b).0.body)
      ensures br.Slotted? ==> empty == Drop(b).1
      decreases Size(b)
    {
      hide Idx, Rep, RepRing, RepIntr, Bounded, BoundedRing, Designates, Laid, LaidSpan, Reached, DropSpan, Size, SizeSpan, After, AfterSpan;
      hide Hosted, Points, Start, Spent;
      RingFacts(size, rings, log, r);
      HeadDesignates(size, rings, log, br, host, it);
      ghost var log0 := log;
      ghost var s := b.body;
      BracketFacts(log, it, b);
      ReachedStart(log, host, it, b);
      var first, last, unfinished := Extent(r, br, it);
      var next := FirstInterruption(r);
      while next.Some?
        invariant Valid() && |rings| == |log| && SameItems(old(rings), rings)
        invariant Reached(log0, log, host, it, b, s) && first == Idx(size, s.from)
        invariant DropSpan(b.open, s) == DropSpan(b.open, b.body) && SizeSpan(s) <= SizeSpan(b.body)
        invariant next == if log[r].pcons < |log[r].pend| then Some(Idx(8, log[r].pcons)) else None
        decreases SizeSpan(s)
      {
        ReachedHead(log0, log, host, it, b, s);
        HeadFacts(size, rings, log, r);
        ghost var i := log[r].pend[log[r].pcons];
        var slot := rings[r].islots[next.value];
        var intr := slot.interrupted;
        var before := ContainsProper(r, intr, first, i.at, s.from);
        assert !before;
        var beyond := ContainsProper(r, last, intr, End(log0, it), i.at);
        if beyond {
          DropStops(b.open, s);
          return false;
        }
        var words := ContainsProper(r, first, intr, s.from, i.at);
        if words {
          DropStops(b.open, s);
          return false;
        }
        ChildFacts(log0, log, host, it, b, s);
        first := intr;
        DropGoesOn(b.open, s);
        ghost var log1 := log;
        var gone := DropEmpties(slot.interruptor, Slotted(r, next.value), i, s.sub, Some(r));
        ghost var l := Drop(s.sub).0;
        BracketFacts(log1, i, s.sub);
        ghost var log2, s2 := log, s.(sub := l);
        ReachedLeaves(log0, log1, host, it, b, s, i, log2, l);
        ReachedHead(log0, log2, host, it, b, s2);
        if !gone {
          return false;
        }
        next := DropInterruption(r);
        DropSpanSpent(s.sub.open, s.sub.body);
        ReachedDrops(log0, log2, host, it, b, s2, log);
        s := s.rest;
      }
      ReachedHead(log0, log, host, it, b, s);
      RingFacts(size, rings, log, r);
      DropStops(b.open, s);
      SameIdx(size, log, r, s.from, End(log0, it));
      empty := first == last && !unfinished;
    }

    // ---- the discard pass --------------------------------------------------------------

    /** rvp_ring_discard_iovs_between takes from `vecs` the vectors of one chunk. */
    method DiscardIovsBetween(r: nat, vecs: seq<Iovec>, cidx: nat, idepth0: nat, ghost to: nat, ghost tail: seq<Iovec>)
      returns (rest: seq<Iovec>, residue: int, idepth: nat)
      requires Valid() && r < |rings| && log[r].cons < to <= log[r].prod && cidx == Idx(size, log[r].cons)
      requires log[r].pcons < |log[r].pend| ==> to <= log[r].pend[log[r].pcons].at
      requires vecs == ToIovecs(size, Pieces(size, r, rings[r].idepth, log[r].cons, to, idepth0)) + tail
      modifies this`rings, this`log
      ensures Valid() && SameItems(old(rings), rings) && log == Consumed(old(log), r, to)
      ensures rest == tail && residue == |tail| && idepth == log[r].depth
    {
      hide Idx, Pieces, ToIovecs, RepIntr;
      assert RepRing(size, rings[r], log[r]) && BoundedRing(size, |log|, log[r]);
      ghost var from := log[r].cons;
      PiecesAsIovecs(size, r, rings[r].idepth, from, to, idepth0);
      Wrap(size, from, to);
      WrapIdx(size, from, to);
      var iov := vecs;
      idepth := idepth0;
      assert iov != [];
      var writebackDepth := false;
      if rings[r].idepth != idepth0 {
        assert |iov| > 1;
        assert iov[0] == IoDepth(r);
        iov := iov[1..];
        writebackDepth := true;
      }
      assert iov[0].IoWords? && iov[0].ring == r && iov[0].base == cidx;
      var producer;
      if iov[0].len == size - cidx {
        iov := iov[1..];
        assert iov != [];
        assert iov[0].IoWords? && iov[0].ring == r && iov[0].base == 0;
        producer := iov[0].len;
        iov := iov[1..];
      } else {
        producer := iov[0].len + cidx;
        iov := iov[1..];
      }
      assert cidx == rings[r].consumer;
      Consume(r, producer, to);
      rest := iov;
      if writebackDepth { idepth := rings[r].idepth; }
      assert RepRing(size, rings[r], log[r]);
      residue := |rest|;
    }

    /** The words of a bracket that precede an interruption, if there are any; the bracket then
        starts where the consumer is. */
    method DiscardLead(r: nat, br: Bracketing, vecs: seq<Iovec>, first: nat, intr: nat, idepth0: nat,
                       ghost from: nat, ghost at: nat, ghost mid: nat, ghost tail: seq<Iovec>, ghost d: nat, ghost host: Option<nat>)
      returns (rest: seq<Iovec>, idepth: nat)
      requires Valid() && r < |rings| && Points(log, br, host) && (host.Some? ==> host.value != r)
      requires log[r].cons == from <= at <= log[r].prod && first == Idx(size, from) && intr == Idx(size, at)
      requires log[r].pcons < |log[r].pend| && log[r].pend[log[r].pcons].at == at && from <= mid <= at
      requires if from < at
               then from < mid && d == log[r].depth &&
                    vecs == ToIovecs(size, Pieces(size, r, log[r].depth, from, mid, idepth0)) + tail
               else vecs == tail && d == idepth0
      modifies this`rings, this`log
      ensures Valid() && SameItems(old(rings), rings) && log == Rehosted(Consumed(old(log), r, mid), host, mid)
      ensures |log| == |rings| && log[r].pend == old(log)[r].pend && log[r].pcons == old(log)[r].pcons
      ensures rest == tail && idepth == d
    {
      hide Idx, Rep, RepRing, Pieces, ToIovecs;
      RingFacts(size, rings, log, r);
      rest, idepth := vecs, idepth0;
      var residue := |rest|;
      var lead := ContainsProper(r, first, intr, from, at);
      if lead {
        rest, residue, idepth := DiscardIovsBetween(r, rest, first, idepth, mid, tail);
      }
      assert log == Consumed(old(log), r, mid);
      MoveBracket(r, br, host);
      RingFacts(size, rings, log, r);
    }

    /** When the vectors are exhausted: whether words or interruptions of the bracket remain. */
    method Unserialized(r: nat, first: nat, last: nat, ghost log0: seq<LogRing>, ghost host: Option<nat>,
                        ghost it: LogIntr, ghost t: Bracket, ghost x: Span)
      returns (more: bool)
      requires Valid() && Reached(log0, log, host, it, t, x) && r == it.ring
      requires first == Idx(size, x.from) && last == Idx(size, End(log0, it))
      ensures more <==> !(x.Done? && x.from == x.to)
    {
      hide Idx, Rep, Reached;
      ReachedHead(log0, log, host, it, t, x);
      ReachedFacts(log0, log, host, it, t, x);
      RingCount(size, rings, log);
      more := ContainsProper(r, first, last, x.from, End(log0, it));
      if more { return; }
      var next := FirstInterruption(r);
      if next.None? { return; }
      HeadFacts(size, rings, log, r);
      var intr := rings[r].islots[next.value].interrupted;
      more := Contains(r, intr, last, log[r].pend[log[r].pcons].at, End(log0, it));
    }

    /** The words of a bracket after its interruptions, once no interruption of it remains or
        the vectors are exhausted. */
    method DiscardLast(r: nat, br: Bracketing, vecs: seq<Iovec>, first0: nat, last: nat, idepth0: nat,
                       ghost log0: seq<LogRing>, ghost host: Option<nat>, ghost it: LogIntr, ghost g: Replay, ghost w: Place)
      returns (rest: seq<Iovec>, residue: int, idepth: nat)
      requires Valid() && r < |rings| && AtHead(log0, br, host, it) && it.ring == r
      requires Reached(log0, log, host, it, g.t, w.t) && Planned(g, w, vecs, idepth0) && g.n == size
      requires g.b.ring == r && g.b.depth == log0[r].depth
      requires first0 == Idx(size, w.t.from) && last == Idx(size, End(log0, it))
      requires vecs == [] || w.t.Done?
      modifies this`rings, this`log
      ensures Valid() && SameItems(old(rings), rings)
      ensures Reached(log0, log, host, it, g.t, g.goal) && rest == g.tail && idepth == g.depth
      ensures residue == if g.goal.Done? && g.goal.from == g.goal.to then |g.tail| else -1
    {
      hide Idx, Rep, RepRing, RepIntr, Bounded, BoundedRing, Designates, Laid, LaidSpan, Reached, After, AfterSpan;
      hide Hosted, Points, Start, Emit, EmitSpan, LeftSpan, Pieces, ToIovecs, Planned;
      var first := first0;
      rest, idepth := vecs, idepth0;
      residue := |rest|;
      ghost var x := w.t;
      ReachedHead(log0, log, host, it, g.t, w.t);
      RingFacts(size, rings, log, r);
      if residue > 0 {
        PlanEnds(g, w, rest, idepth);
        PointsStay(log0, log, host, it, g.t, w.t, br);
        x := Advanced(w.t, w.s.to);
        rest, residue, idepth := DiscardIovsBetween(r, rest, first, idepth, w.s.to, g.tail);
        first := ConsumerOf(r);
        MoveBracket(r, br, host);
        ReachedWords(log0, old(log), host, it, g.t, w.t, w.s.to, log);
      } else {
        PlanOver(g, w, idepth);
      }
      if residue == 0 {
        var more := Unserialized(r, first, last, log0, host, it, g.t, x);
        if more { residue := -1; }
      }
    }

    /** The first interruption of what remains of a bracket, and the words before it. */
    method DiscardIntr(r: nat, br: Bracketing, k: nat, vecs: seq<Iovec>, first: nat, idepth0: nat,
                       ghost log0: seq<LogRing>, ghost host: Option<nat>, ghost it: LogIntr, ghost g: Replay, ghost w: Place)
      returns (rest: seq<Iovec>, residue: int, idepth: nat, ghost w': Place, ghost s: Span)
      requires Valid() && r < |rings| && AtHead(log0, br, host, it) && it.ring == r
      requires Reached(log0, log, host, it, g.t, w.t) && Planned(g, w, vecs, idepth0) && g.n == size
      requires g.b.ring == r && g.b.depth == log0[r].depth
      requires w.t.Cut? && vecs != [] && first == Idx(size, w.t.from)
      requires r < |log| && log[r].pcons < |log[r].pend| && k == Idx(8, log[r].pcons)
      modifies this`rings, this`log
      ensures Valid() && SameItems(old(rings), rings) && |log| == |rings|
      ensures residue < 0 ==>
                residue == -1 && Reached(log0, log, host, it, g.t, g.goal) && g.goal.Cut? && rest == g.tail && idepth == g.depth
      ensures residue >= 0 ==>
                residue == |rest| && Reached(log0, log, host, it, g.t, s) && log[r].pcons < |log[r].pend| &&
                s.Cut? && s.from == s.at == w.t.at && Spent(s.sub) && s.rest == w.t.rest == w'.t && Planned(g, w', rest, idepth)
      decreases Size(g.t), 0
    {
      hide Idx, Rep, RepRing, RepIntr, Bounded, BoundedRing, Designates, Laid, LaidSpan, Reached, Size, SizeSpan, After, AfterSpan;
      hide Hosted, Points, Start, Emit, EmitSpan, LeftSpan, Pieces, ToIovecs, Planned, Grown, Ordered, Coming, Ripe, Rehosted, Consumed;
      ReachedHead(log0, log, host, it, g.t, w.t);
      HeadFacts(size, rings, log, r);
      ghost var i := log[r].pend[log[r].pcons];
      var slot := rings[r].islots[k];
      SpanOrdered(size, rings, log0, log, host, it, g.t, w.t);
      ghost var e := PlanEnters(g, w, vecs, idepth0);
      ghost var s1 := Cut(e.mid, w.t.at, w.t.sub, w.t.rest);
      PointsStay(log0, log, host, it, g.t, w.t, br);
      rest, idepth := DiscardLead(r, br, vecs, first, slot.interrupted, idepth0, w.t.from, i.at, e.mid, e.vecs, e.d, host);
      ReachedWords(log0, old(log), host, it, g.t, w.t, e.mid, log);
      ChildFacts(log0, log, host, it, g.t, s1);
      BracketFacts(log, i, w.t.sub);
      ghost var log1 := log;
      rest, residue, idepth := DiscardIovs(slot.interruptor, Slotted(r, k), rest, idepth, i, e.sub, w.t.sub, Some(r), e.room, e.tail);
      ghost var l := Left(size, e.sub, w.t.sub, e.room, e.d);
      ReachedLeaves(log0, log1, host, it, g.t, s1, i, log, l);
      s := s1.(sub := l);
      ReachedHead(log0, log, host, it, g.t, s);
      RingFacts(size, rings, log, r);
      w' := Next(w, Emit(size, e.sub, e.room, e.d).residue);
    }

    /** rvp_ring_discard_iovs replays the vectors that a get pass filled when the bracket
        was `b`; it has become `t`. */
    method DiscardIovs(r: nat, br: Bracketing, vecs: seq<Iovec>, idepth0: nat,
                       ghost it: LogIntr, ghost b: Bracket, ghost t: Bracket, ghost host: Option<nat>,
                       ghost room: nat, ghost tail: seq<Iovec>)
      returns (rest: seq<Iovec>, residue: int, idepth: nat)
      requires Valid() && r < |rings| && AtHead(log, br, host, it) && it.ring == r && Laid(log, it, t, Start(log))
      requires Grown(b, t) && Ordered(size, b) && Coming(t) && (vecs == [] ==> Ripe(t))
      requires vecs == ToIovecs(size, Emit(size, b, room, idepth0).vecs) + tail
      requires Follows(Emit(size, b, room, idepth0), tail)
      modifies this`rings, this`log
      ensures Valid() && SameItems(old(rings), rings)
      ensures Reached(old(log), log, host, it, t, Left(size, b, t, room, idepth0).body)
      ensures rest == tail && idepth == Emit(size, b, room, idepth0).depth
      ensures br.Slotted? ==> residue == if Spent(Left(size, b, t, room, idepth0)) then |tail| else -1
      ensures br.Root? ==> residue <= 0
      decreases Size(t), 1
    {
      hide Idx, Rep, RepRing, RepIntr, Bounded, BoundedRing, Designates, Laid, LaidSpan, Reached, Size, SizeSpan, After, AfterSpan;
      hide Hosted, Points, Start, Emit, EmitSpan, LeftSpan, Pieces, ToIovecs, Planned, Grown, Ordered, Coming, Ripe, Rehosted, Consumed;
      RingFacts(size, rings, log, r);
      HeadDesignates(size, rings, log, br, host, it);
      ghost var log0 := log;
      BracketFacts(log, it, t);
      ReachedStart(log, host, it, t);
      ghost var g, w := PlanStarts(size, b, t, room, idepth0, vecs, tail);
      ReachedHead(log0, log, host, it, t, w.t);
      var first, last, unfinished := Extent(r, br, it);
      var next := FirstInterruption(r);
      rest, idepth := vecs, idepth0;
      residue := |rest|;
      while residue > 0 && next.Some?
        invariant Valid() && SameItems(old(rings), rings) && |rings| == |log| && residue == |rest|
        invariant Reached(log0, log, host, it, t, w.t) && first == Idx(size, w.t.from)
        invariant Planned(g, w, rest, idepth) && (log[r].pcons >= |log[r].pend| ==> w.t.Done?)
        invariant next == if log[r].pcons < |log[r].pend| then Some(Idx(8, log[r].pcons)) else None
        decreases SizeSpan(w.t)
      {
        ReachedHead(log0, log, host, it, t, w.t);
        HeadFacts(size, rings, log, r);
        ghost var i := log[r].pend[log[r].pcons];
        var slot := rings[r].islots[next.value];
        var intr := slot.interrupted;
        var before := ContainsProper(r, intr, first, i.at, w.t.from);
        assert !before;
        var beyond := ContainsProper(r, last, intr, End(log0, it), i.at);
        if beyond {
          break;
        }
        ghost var w1, s;
        rest, residue, idepth, w1, s := DiscardIntr(r, br, next.value, rest, first, idepth, log0, host, it, g, w);
        first := intr;
        if residue < 0 {
          break;
        }
        ghost var log1 := log;
        next := DropInterruption(r);
        ReachedDrops(log0, log1, host, it, t, s, log);
        SizeCut(w.t);
        w := w1;
        ReachedHead(log0, log, host, it, t, w.t);
      }
      if residue >= 0 {
        rest, residue, idepth := DiscardLast(r, br, rest, first, last, idepth, log0, host, it, g, w);
      }
      if unfinished { residue := -1; }
    }

    // ---- the flush --------------------------------------------------------------------------

    /** writeallv of a header and of what the vectors point at. */
    method Write(header: seq<Item>, iovs: seq<Iovec>)
      requires IovsFit(rings, iovs)
      modifies this`out
      ensures out == old(out) + header + IovsItems(rings, iovs)
    {
      hide IovsItems, IovItems;
      out := out + header;
      var k := 0;
      assert iovs[0..] == iovs;
      while k < |iovs|
        invariant k <= |iovs|
        invariant IovsFit(rings, iovs[k..])
        invariant out + IovsItems(rings, iovs[k..]) == old(out) + header + IovsItems(rings, iovs)
      {
        IovsStep(rings, iovs, k);
        Associate(out, IovItems(rings, iovs[k]), IovsItems(rings, iovs[k + 1..]));
        out := out + IovItems(rings, iovs[k]);
        k := k + 1;
      }
      IovsNone(rings, iovs[k..]);
    }

    /** The first half of rvp_ring_flush_to_fd: the records that bring the reader to the
        ring's context, and the vectors. */
    method Gather(r: nat, lc: LastCtx, ghost t: Bracket)
      returns (header: seq<Item>, iovs: seq<Iovec>, idepth: nat, ghost room: nat)
      requires Valid() && LaidRoot(log, t) && t.ring == r
      modifies this`rings, this`log
      ensures Valid() && SameItems(old(rings), rings) && LaidRoot(log, Drop(t).0)
      ensures Reached(old(log), log, None, RootIntr(old(log), r), t, Drop(t).0.body)
      ensures r < |old(log)| && r < |rings| && header == Header(lc, old(log)[r].tid, t.depth) && room == 20 - |header|
      ensures rings[r].tid == old(log)[r].tid && rings[r].idepth == t.depth
      ensures iovs == ToIovecs(size, Emit(size, Drop(t).0, room, t.depth).vecs)
      ensures idepth == Emit(size, Drop(t).0, room, t.depth).depth
    {
      hide Idx, Rep, RepRing, Emit, Drop, Reached, LaidRoot, ToIovecs, Laid, RootIntr, SameItems, Hosted, Start, Passed, Ahead;
      RootStarts(size, rings, log, t);
      RootLaid(log, t);
      header := [];
      if lc.tid != rings[r].tid {
        header := header + [ISwitch(rings[r].tid)];
        if rings[r].idepth != 0 {
          header := header + [IDepth(rings[r].idepth)];
        }
      } else if lc.idepth != rings[r].idepth {
        header := header + [IDepth(rings[r].idepth)];
      }
      assert header == Header(lc, rings[r].tid, rings[r].idepth);
      room := 20 - |header|;
      idepth := rings[r].idepth;
      var empty := DropEmpties(r, Root, RootIntr(log, r), t, None);
      RootReached(old(log), log, t, Drop(t).0.body);
      RootStarts(size, rings, log, Drop(t).0);
      RootLaid(log, Drop(t).0);
      var residue;
      iovs, residue, idepth := GetIovs(r, Root, [], 20 - |header|, idepth, RootIntr(log, r), Drop(t).0, Start(log));
      FilledAll(size, Emit(size, Drop(t).0, room, t.depth).vecs, iovs);
    }

    /** rvp_ring_flush_to_fd on a thread's ring: 1 if it wrote anything, 0 if not. The
        thread's tree was `t`, and is `l` now. */
    method FlushToFd(r: nat, lc: LastCtx, ghost t: Bracket)
      returns (result: int, lc': LastCtx, ghost l: Bracket, ghost taken: seq<Slot>)
      requires Valid() && LaidRoot(log, t) && t.ring == r && Coming(t)
      modifies this`rings, this`log, this`out
      ensures Valid() && SameItems(old(rings), rings) && LaidRoot(log, l) && FlushedTo(size, t, l, taken)
      ensures Wrote(old(out), lc, out, lc', TaggedAll(size, rings, old(log)[r].tid, taken))
      ensures result == (if taken == [] then 0 else 1) && (result == 0 ==> out == old(out) && lc' == lc)
      ensures r < |old(log)| && taken == Read(Emit(size, Drop(t).0, 20 - |Header(lc, old(log)[r].tid, t.depth)|, t.depth).vecs, t.depth)
      ensures result == 1 <==> FirstIsWord(Drop(t).0.body)
      ensures Reached(old(log), log, None, RootIntr(old(log), r), t, l.body)
    {
      hide Idx, Rep, RepRing, Emit, Left, Drop, Reached, LaidRoot, Read, EndDepth, FlushedTo, TaggedAll, IovsItems, Wrote;
      hide Ordered, Leading, Coming, Grown, ToIovecs, VecFits, IovsFit, Hosted, Laid, Passed, Ahead, Start, Shrunk, Ripe;
      hide RootIntr, Follows, Header, FirstIsWord;
      RootStarts(size, rings, log, t);
      var idepth1 := rings[r].idepth;
      ghost var log0, t1 := log, Drop(t).0;
      var header, iovs, idepth0;
      ghost var room;
      header, iovs, idepth0, room := Gather(r, lc, t);
      FlushLeaves(size, t, room, t.depth);
      EmitBegins(size, t1, room, t.depth);
      ghost var log1, rings1 := log, rings;
      ghost var e := Emit(size, t1, room, t.depth);
      FilledAll(size, e.vecs, iovs);
      taken := Read(e.vecs, t.depth);
      if iovs == [] {
        l := t1;
        WroteNothing(out, lc);
        TaggedNothing(size, rings, rings[r].tid);
        return 0, lc, l, taken;
      }
      EmitFits(size, rings, log, t1, room, t.depth);
      PlanIsTight(size, t1, room, t.depth);
      WroteFlush(size, rings, out, lc, rings[r].tid, t.depth, header, e.vecs);
      Write(header, iovs);
      l := Left(size, t1, t1, room, t.depth);
      lc' := LastCtx(rings[r].tid, idepth0);
      idepth1 := Retire(r, iovs, idepth1, t1, t1, room);
      assert idepth0 == idepth1;
      RootLaid(log1, t1);
      ReachedTrans(log0, log1, log, t, t1, l.body);
      TaggedSame(size, rings1, rings, rings1[r].tid, taken);
      result := 1;
    }

    /** The last part of rvp_ring_flush_to_fd: the vectors, filled when the thread's tree
        was `b`, are discarded from what it has become. */
    method Retire(r: nat, iovs: seq<Iovec>, idepth0: nat, ghost b: Bracket, ghost t: Bracket, ghost room: nat)
      returns (idepth: nat)
      requires Valid() && LaidRoot(log, t) && t.ring == r && Coming(t) && Grown(b, t) && Ordered(size, b)
      requires iovs != [] && iovs == ToIovecs(size, Emit(size, b, room, idepth0).vecs)
      modifies this`rings, this`log
      ensures Valid() && SameItems(old(rings), rings)
      ensures LaidRoot(log, Left(size, b, t, room, idepth0)) && idepth == Emit(size, b, room, idepth0).depth
      ensures Reached(old(log), log, None, RootIntr(old(log), r), t, Left(size, b, t, room, idepth0).body)
    {
      hide Idx, Rep, RepRing, Emit, Left, Reached, LaidRoot, ToIovecs, Laid, RootIntr, SameItems, Hosted, Start, Coming, Ordered;
      RootStarts(size, rings, log, t);
      RootLaid(log, t);
      NoTail(size, Emit(size, b, room, idepth0), iovs);
      var rest, residue;
      rest, residue, idepth := DiscardIovs(r, Root, iovs, idepth0, RootIntr(log, r), b, t, None, room, []);
      assert residue <= 0;
      RootReached(old(log), log, t, Left(size, b, t, room, idepth0).body);
    }

    /** The loop of the serializer thread: it flushes every thread's ring in turn until a
        round writes nothing. Then every ring is empty, but for the threads whose trees are stuck. */
    method Serialize(roots: seq<nat>, lc0: LastCtx, ghost ts: seq<Bracket>)
      returns (lc: LastCtx, ghost ls: seq<Bracket>, ghost takens: seq<seq<Slot>>, ghost words: seq<Tagged>)
      requires Valid() && |roots| == |ts| && QuietThreads(log, ts) && forall i | 0 <= i < |ts| :: ts[i].ring == roots[i]
      modifies this`rings, this`log, this`out
      ensures Valid() && SameItems(old(rings), rings) && Wrote(old(out), lc0, out, lc, words)
      ensures Serialized(size, rings, old(log), log, ts, ls, takens, words)
      ensures |ls| == |ts| && forall i | 0 <= i < |ts| :: Empty(ts[i], ls[i]) && RingsEmptied(old(log), log, ts[i])
    {
      hide QuietThreads, Drained, Serialized, Wrote, Stuck, Quiet, LaidRoot, Leading, Coming, Reached, FlushedTo, Rep, TaggedAll, Flatten, Remaining;
      lc, ls, takens, words := lc0, ts, seq(|ts|, i => []), [];
      ghost var log0, rings0 := log, rings;
      SerializeStarts(size, rings0, log, ts);
      WroteNothing(out, lc);
      var anyEmptied := true;
      while anyEmptied
        invariant Valid() && SameItems(old(rings), rings) && Wrote(old(out), lc0, out, lc, words)
        invariant |ls| == |ts| && Serialized(size, rings0, log0, log, ts, ls, takens, words)
        invariant !anyEmptied ==> forall i | 0 <= i < |ts| :: Empty(ts[i], ls[i])
        decreases Remaining(ls), anyEmptied
      {
        anyEmptied := false;
        ghost var before := Remaining(ls);
        var k := 0;
        while k < |roots|
          invariant 0 <= k <= |roots|
          invariant Valid() && SameItems(old(rings), rings) && Wrote(old(out), lc0, out, lc, words)
          invariant |ls| == |ts| && Serialized(size, rings0, log0, log, ts, ls, takens, words)
          invariant Remaining(ls) <= before && (anyEmptied ==> Remaining(ls) < before)
          invariant !anyEmptied ==> forall i | 0 <= i < k :: Empty(ts[i], ls[i])
        {
          SerializedThread(size, rings0, log0, log, ts, ls, takens, words, k);
          ghost var log1, lc1, out1, l, taken, l0 := log, lc, out, ls[k], [], ls[k];
          LeadingIsComing(l0);
          var result;
          result, lc, l, taken := FlushToFd(roots[k], lc, l0);
          TaggedSame(size, rings0, rings, log1[l0.ring].tid, taken);
          SerializedMore(size, rings0, log0, log1, log, ts, ls, takens, words, k, l, taken);
          WroteMore(old(out), lc0, out1, lc1, words, out, lc, TaggedAll(size, rings0, log1[l0.ring].tid, taken));
          FlushedFacts(size, l0, l, taken);
          RemainingLess(ls, k, l);
          ls, takens, words := ls[k := l], takens[k := takens[k] + taken], words + TaggedAll(size, rings0, log1[l0.ring].tid, taken);
          if result != 0 {
            anyEmptied := true;
          }
          k := k + 1;
        }
      }
      SerializedIsClean(size, rings0, log0, log, ts, ls, takens, words);
      SerializedSame(size, rings0, rings, log0, log, ts, ls, takens, words);
    }
  }

  lemma IdxAtEnd(n: nat, from: nat)
    requires 0 < n
    ensures Idx(n, from + (n - from % n)) == 0
  {
    var q := from / n;
    assert from == n * q + from % n;
    assert n * (q + 1) == n * q + n;
    ModUnique(n, from + (n - from % n), q + 1, 0);
  }
}
