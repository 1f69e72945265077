/** Whole events. A producer's pointer advances by whole events only, an interruption begins and ends where
    an event does, and the serializer stops nowhere else (llvm/ngrt/serialize.c:147-153): the words of one
    event stand together in the file. */
module Events {
  import opened Basics
  import opened Arcs
  import opened EventTree
  import opened EventLog
  import opened Producers
  import opened TraceFile
  import opened Serializer
  import opened Threads
  import opened Tracer
  import opened Walks
  import opened Runs

  /** The words of one put. */
  datatype Event = Event(ring: nat, from: nat, to: nat)

  /** For each ring, where events have begun and ended. */
  type Marks = seq<set<nat>>

  predicate More(m: Marks, m': Marks)
  {
    |m'| == |m| && forall r | 0 <= r < |m| :: m[r] <= m'[r]
  }

  /** Every position of the bracket is a mark. */
  predicate OnMarks(m: Marks, b: Bracket)
    decreases b, 1
  {
    b.ring < |m| && SpanOnMarks(m, b.ring, b.body)
  }

  predicate SpanOnMarks(m: Marks, r: nat, s: Span)
    requires r < |m|
    decreases s, 0
  {
    s.from in m[r] &&
    match s
    case Done(_, to, _) => to in m[r]
    case Cut(_, at, sub, rest) => at in m[r] && OnMarks(m, sub) && SpanOnMarks(m, r, rest)
  }

  predicate AllOnMarks(m: Marks, hung: seq<Bracket>)
  {
    hung != [] ==> AllOnMarks(m, Others(hung)) && OnMarks(m, Last(hung))
  }

  predicate GroveOnMarks(m: Marks, g: Grove)
  {
    OnMarks(m, g.tree) && AllOnMarks(m, g.hung)
  }

  /** So is every producer. */
  ghost predicate WorldOnMarks(m: Marks, w: World)
  {
    |m| == |w.log| && (forall r | 0 <= r < |w.log| :: w.log[r].prod in m[r]) &&
    forall i | 0 <= i < |w.threads| :: GroveOnMarks(m, w.threads[i])
  }

  // ---- more marks -------------------------------------------------------------------------------

  lemma {:induction false} MoreMarks(m: Marks, m': Marks, b: Bracket)
    requires More(m, m') && OnMarks(m, b)
    ensures OnMarks(m', b)
    decreases b, 1
  {
    MoreMarksSpan(m, m', b.ring, b.body);
  }

  lemma {:induction false} MoreMarksSpan(m: Marks, m': Marks, r: nat, s: Span)
    requires More(m, m') && r < |m| && SpanOnMarks(m, r, s)
    ensures SpanOnMarks(m', r, s)
    decreases s, 0
  {
    if s.Cut? {
      MoreMarks(m, m', s.sub);
      MoreMarksSpan(m, m', r, s.rest);
    }
  }

  lemma {:induction false} MoreMarksAll(m: Marks, m': Marks, hung: seq<Bracket>)
    requires More(m, m') && AllOnMarks(m, hung)
    ensures AllOnMarks(m', hung)
    decreases |hung|
  {
    hide OnMarks;
    if hung != [] {
      MoreMarksAll(m, m', Others(hung));
      MoreMarks(m, m', Last(hung));
    }
  }

  // ---- what the producers' steps do ---------------------------------------------------------------

  lemma {:induction false} EndIsMark(m: Marks, r: nat, s: Span)
    requires r < |m| && SpanOnMarks(m, r, s)
    ensures EndOf(s) in m[r]
    decreases s
  {
    hide OnMarks;
    if s.Cut? { EndIsMark(m, r, s.rest); }
  }

  lemma {:induction false} LongerOnMarks(m: Marks, r: nat, s: Span, k: nat)
    requires r < |m| && SpanOnMarks(m, r, s) && EndOf(s) + k in m[r]
    ensures SpanOnMarks(m, r, Longer(s, k))
    decreases s
  {
    hide OnMarks;
    if s.Cut? { LongerOnMarks(m, r, s.rest, k); }
  }

  lemma {:induction false} PutOnMarks(m: Marks, b: Bracket, r: nat, k: nat)
    requires Holds(b, r) && OnMarks(m, b) && r < |m| && TipOf(b, r) + k in m[r]
    ensures OnMarks(m, PutOn(b, r, k))
    decreases b, 1
  {
    if b.ring == r { LongerOnMarks(m, r, b.body, k); } else { PutSpanOnMarks(m, b.ring, b.body, r, k); }
  }

  lemma {:induction false} PutSpanOnMarks(m: Marks, ring: nat, s: Span, r: nat, k: nat)
    requires HoldsSpan(s, r) && ring < |m| && SpanOnMarks(m, ring, s) && r < |m| && TipOfSpan(s, r) + k in m[r]
    ensures SpanOnMarks(m, ring, PutOnSpan(s, r, k))
    decreases s, 0
  {
    hide OnMarks, Holds, PutOn, TipOf, Away, NoneOpen;
    if AwaySpan(s.rest, r) { PutOnMarks(m, s.sub, r, k); } else { PutSpanOnMarks(m, ring, s.rest, r, k); }
  }

  lemma {:induction false} LeaveOnMarks(m: Marks, b: Bracket, r: nat)
    requires Holds(b, r) && OnMarks(m, b)
    ensures OnMarks(m, LeaveOn(b, r))
    decreases b, 1
  {
    if b.ring != r { LeaveSpanOnMarks(m, b.ring, b.body, r); }
  }

  lemma {:induction false} LeaveSpanOnMarks(m: Marks, ring: nat, s: Span, r: nat)
    requires HoldsSpan(s, r) && ring < |m| && SpanOnMarks(m, ring, s)
    ensures SpanOnMarks(m, ring, LeaveOnSpan(s, r))
    decreases s, 0
  {
    hide OnMarks, Holds, LeaveOn, Away, NoneOpen;
    if AwaySpan(s.rest, r) { LeaveOnMarks(m, s.sub, r); } else { LeaveSpanOnMarks(m, ring, s.rest, r); }
  }

  lemma {:induction false} MarkOnMarks(m: Marks, b: Bracket, h: nat)
    requires OnMarks(m, b)
    ensures OnMarks(m, Mark(b, h))
    decreases b, 1
  {
    MarkSpanOnMarks(m, b.ring, b.body, h);
  }

  lemma {:induction false} MarkSpanOnMarks(m: Marks, r: nat, s: Span, h: nat)
    requires r < |m| && SpanOnMarks(m, r, s)
    ensures SpanOnMarks(m, r, MarkSpan(s, h)) && SpanOnMarks(m, r, MarkEnd(s))
    decreases s, 0
  {
    hide OnMarks, Mark;
    if s.Cut? {
      MarkOnMarks(m, s.sub, h);
      MarkSpanOnMarks(m, r, s.rest, h);
    }
  }

  lemma {:induction false} MarkHungOnMarks(m: Marks, hung: seq<Bracket>, h: nat)
    requires AllOnMarks(m, hung)
    ensures AllOnMarks(m, MarkHung(hung, h))
    decreases |hung|
  {
    hide OnMarks, Mark;
    if hung != [] {
      MarkHungOnMarks(m, Others(hung), h);
      MarkOnMarks(m, Last(hung), h);
      OneMoreOnMarks(m, MarkHung(Others(hung), h), Mark(Last(hung), h));
    }
  }

  lemma OneMoreOnMarks(m: Marks, hung: seq<Bracket>, d: Bracket)
    ensures AllOnMarks(m, hung + [d]) <==> AllOnMarks(m, hung) && OnMarks(m, d)
  {
    hide OnMarks;
    assert Others(hung + [d]) == hung;
  }

  lemma {:induction false} EnterOnMarks(m: Marks, b: Bracket, h: nat, sub: Bracket)
    requires AtTail(b, h) && OnMarks(m, b) && OnMarks(m, sub)
    ensures OnMarks(m, EnterOn(b, h, sub))
    decreases b, 1
  {
    if b.ring == h { CutOnMarks(m, b.ring, b.body, sub); } else { EnterSpanOnMarks(m, b.ring, b.body, h, sub); }
  }

  lemma {:induction false} CutOnMarks(m: Marks, r: nat, s: Span, sub: Bracket)
    requires r < |m| && SpanOnMarks(m, r, s) && OnMarks(m, sub)
    ensures SpanOnMarks(m, r, Interrupted(s, sub))
    decreases s
  {
    hide OnMarks;
    if s.Cut? { CutOnMarks(m, r, s.rest, sub); }
  }

  lemma {:induction false} EnterSpanOnMarks(m: Marks, r: nat, s: Span, h: nat, sub: Bracket)
    requires AtTailSpan(s, h) && r < |m| && SpanOnMarks(m, r, s) && OnMarks(m, sub)
    ensures SpanOnMarks(m, r, EnterOnSpan(s, h, sub))
    decreases s, 0
  {
    hide OnMarks, AtTail, EnterOn, Mark, NoneOpen;
    if s.rest.Done? {
      EnterOnMarks(m, s.sub, h, sub);
    } else {
      MarkOnMarks(m, s.sub, h);
      EnterSpanOnMarks(m, r, s.rest, h, sub);
    }
  }

  lemma {:induction false} RelabelOnMarks(m: Marks, b: Bracket, q: nat, depth: nat)
    requires OnMarks(m, b)
    ensures OnMarks(m, Relabel(b, q, depth))
    decreases b, 1
  {
    RelabelSpanOnMarks(m, b.ring, b.body, q, depth);
  }

  lemma {:induction false} RelabelSpanOnMarks(m: Marks, r: nat, s: Span, q: nat, depth: nat)
    requires r < |m| && SpanOnMarks(m, r, s)
    ensures SpanOnMarks(m, r, RelabelSpan(s, q, depth))
    decreases s, 0
  {
    hide OnMarks, Relabel;
    if s.Cut? {
      RelabelOnMarks(m, s.sub, q, depth);
      RelabelSpanOnMarks(m, r, s.rest, q, depth);
    }
  }

  lemma {:induction false} RelabelHungOnMarks(m: Marks, hung: seq<Bracket>, q: nat, depth: nat)
    requires AllOnMarks(m, hung)
    ensures AllOnMarks(m, RelabelHung(hung, q, depth))
    decreases |hung|
  {
    hide OnMarks, Relabel;
    if hung != [] {
      RelabelHungOnMarks(m, Others(hung), q, depth);
      RelabelOnMarks(m, Last(hung), q, depth);
      OneMoreOnMarks(m, RelabelHung(Others(hung), q, depth), Relabel(Last(hung), q, depth));
    }
  }

  // ---- what the passes do -----------------------------------------------------------------------------

  lemma {:induction false} DropOnMarks(m: Marks, b: Bracket)
    requires OnMarks(m, b)
    ensures OnMarks(m, Drop(b).0)
    decreases b, 1
  {
    DropSpanOnMarks(m, b.ring, b.open, b.body);
  }

  lemma {:induction false} DropSpanOnMarks(m: Marks, r: nat, open: bool, s: Span)
    requires r < |m| && SpanOnMarks(m, r, s)
    ensures SpanOnMarks(m, r, DropSpan(open, s).0)
    decreases s, 0
  {
    hide OnMarks, Drop;
    if s.Cut? {
      DropOnMarks(m, s.sub);
      DropSpanOnMarks(m, r, open, s.rest);
    }
  }

  /** The bracket may have grown between the passes. */
  lemma {:induction false} LeftOnMarks(n: nat, m: Marks, b: Bracket, t: Bracket, room: nat, d: nat)
    requires 0 < n && Grown(b, t) && OnMarks(m, b) && OnMarks(m, t)
    ensures OnMarks(m, Left(n, b, t, room, d))
    decreases b, 1
  {
    LeftSpanOnMarks(n, m, b.ring, b.depth, b.open, b.body, t.body, room, d);
  }

  lemma {:induction false} LeftSpanOnMarks(n: nat, m: Marks, ring: nat, depth: nat, open: bool, s: Span, t: Span, room: nat, d: nat)
    requires 0 < n && GrownSpan(open, s, t) && ring < |m| && SpanOnMarks(m, ring, s) && SpanOnMarks(m, ring, t)
    ensures SpanOnMarks(m, ring, LeftSpan(n, ring, depth, open, s, t, room, d))
    decreases s, 0
  {
    hide OnMarks, Emit, Left, Pieces, Grown;
    if room > 0 && s.Cut? {
      var lead := Lead(n, ring, depth, s.from, s.at, room, d);
      if lead.Some? {
        var room1, d1 := room - |lead.value|, LeadDepth(depth, s.from, s.at, d);
        LeftOnMarks(n, m, s.sub, t.sub, room1, d1);
        var e := Emit(n, s.sub, room1, d1);
        if e.residue >= 0 { LeftSpanOnMarks(n, m, ring, depth, open, s.rest, t.rest, e.residue, e.depth); }
      }
    }
  }

  // ---- over whole runs -----------------------------------------------------------------------------------

  /** A put makes a mark where it ends. */
  function MarksAfter(m: Marks, e: Event): (m': Marks)
    ensures More(m, m')
  {
    if e.ring < |m| then m[e.ring := m[e.ring] + {e.to}] else m
  }

  function MarksOf(m: Marks, puts: seq<Event>): (m': Marks)
    ensures More(m, m')
  {
    if puts == [] then m else MarksAfter(MarksOf(m, Others(puts)), Last(puts))
  }

  /** The event that a move puts on a ring. */
  function PutBy(log: seq<LogRing>, move: Move): (puts: seq<Event>)
    ensures |puts| <= 1
  {
    if move.Step? && move.act.Put? && move.act.ring < |log|
    then [Event(move.act.ring, log[move.act.ring].prod, log[move.act.ring].prod + move.act.count)] else []
  }

  /** A run, with the events that have been put in it. */
  ghost predicate Logs(n: nat, w: World, moves: seq<Move>, w': World, puts: seq<Event>)
    requires 0 < n
    decreases |moves|
  {
    if moves == [] then w' == w && puts == []
    else exists mid, earlier :: Logs(n, w, Others(moves), mid, earlier) && Moves(n, mid, Last(moves), w') && puts == earlier + PutBy(mid.log, Last(moves))
  }

  /** No mark lies beyond a producer, or inside an event. */
  ghost predicate Orderly(m: Marks, puts: seq<Event>, log: seq<LogRing>)
  {
    |m| == |log| && (forall r, x | 0 <= r < |m| && x in m[r] :: x <= log[r].prod) &&
    forall e | e in puts ::
      e.ring < |log| && e.from <= e.to <= log[e.ring].prod && forall x | x in m[e.ring] :: x <= e.from || e.to <= x
  }

  lemma TopOnMarks(m: Marks, g: Grove, b: Bracket)
    requires GroveOnMarks(m, g)
    ensures OnMarks(m, Top(g)) && (OnMarks(m, b) ==> GroveOnMarks(m, WithTop(g, b)))
    ensures g.hung != [] ==> GroveOnMarks(m, Outer(g))
  {
    hide OnMarks;
    if g.hung != [] { OneMoreOnMarks(m, Others(g.hung), b); }
  }

  lemma MarkedOnMarks(m: Marks, g: Grove, h: nat, b: Bracket)
    requires GroveOnMarks(m, g) && OnMarks(m, b)
    ensures GroveOnMarks(m, Threads.Marked(g, h, b))
  {
    hide OnMarks, Mark;
    if g.hung != [] {
      MarkOnMarks(m, g.tree, h);
      MarkHungOnMarks(m, Others(g.hung), h);
      OneMoreOnMarks(m, MarkHung(Others(g.hung), h), b);
    }
  }

  lemma MoreMarksGrove(m: Marks, m': Marks, g: Grove)
    requires More(m, m') && GroveOnMarks(m, g)
    ensures GroveOnMarks(m', g)
  {
    hide OnMarks;
    MoreMarks(m, m', g.tree);
    MoreMarksAll(m, m', g.hung);
  }

  lemma ActOnMarks(n: nat, log: seq<LogRing>, g: Grove, a: Act, m: Marks)
    requires Tracing(n, log, g) && Enabled(n, log, g, a) && GroveOnMarks(m, g) && |m| == |log| && forall r | 0 <= r < |log| :: log[r].prod in m[r]
    requires a.Put? ==> log[a.ring].prod + a.count in m[a.ring]
    ensures GroveOnMarks(m, ActGrove(n, log, g, a))
  {
    hide Tracing, GroveOnMarks, AllOnMarks, Holds, AtTail, PutOn, LeaveOn, EnterOn, Threads.Marked, NoneOpenBelow, MayLeave, Leading, Fresh, Relabels, EndBefore, EndBeforeHung;
    TopOnMarks(m, g, g.tree);
    match a {
      case Put(r, k) =>
        PutKeeps(n, log, g, r, k);
        PutOnMarks(m, Top(g), r, k);
        TopOnMarks(m, g, PutOn(Top(g), r, k));
      case Take(h, q) =>
        TakenOnMarks(m, g, Starting(log, q));
      case Record(h, q) =>
        TopOnMarks(m, Outer(g), g.tree);
        EnterOnMarks(m, Top(Outer(g)), h, Top(g));
        MarkedOnMarks(m, Outer(g), h, EnterOn(Top(Outer(g)), h, Top(g)));
      case Leave(h, j) =>
        LeaveOnMarks(m, Top(g), log[h].pend[j].ring);
        TopOnMarks(m, g, LeaveOn(Top(g), log[h].pend[j].ring));
      case Acquire(q, tid, depth) =>
        RelabelledOnMarks(m, g, q, depth);
    }
  }

  lemma TakenOnMarks(m: Marks, g: Grove, d: Bracket)
    requires GroveOnMarks(m, g) && OnMarks(m, d)
    ensures GroveOnMarks(m, g.(hung := g.hung + [d]))
  {
    hide OnMarks;
    OneMoreOnMarks(m, g.hung, d);
  }

  lemma RelabelledOnMarks(m: Marks, g: Grove, q: nat, depth: nat)
    requires GroveOnMarks(m, g)
    ensures GroveOnMarks(m, Relabelled(g, q, depth))
  {
    hide OnMarks, Relabel;
    RelabelOnMarks(m, g.tree, q, depth);
    RelabelHungOnMarks(m, g.hung, q, depth);
  }

  lemma ActProducers(n: nat, log: seq<LogRing>, g: Grove, a: Act)
    requires Enabled(n, log, g, a)
    ensures forall r | 0 <= r < |log| :: ActLog(n, log, g, a)[r].prod == log[r].prod + (if a.Put? && a.ring == r then a.count else 0)
    ensures a.Put? ==> a.ring < |log|
  {
    hide Holds, AtTail, NoneOpenBelow, MayLeave, Leading, Fresh, Relabels, EndBefore, EndBeforeHung;
  }

  lemma StepOnMarks(n: nat, w: World, i: nat, a: Act, w': World, m: Marks, puts: seq<Event>)
    requires 0 < n && AllTraced(n, w) && Moves(n, w, Step(i, a), w') && WorldOnMarks(m, w) && Orderly(m, puts, w.log)
    ensures var latest := PutBy(w.log, Step(i, a));
            var m' := MarksOf(m, latest);
            WorldOnMarks(m', w') && Orderly(m', puts + latest, w'.log)
  {
    hide Tracing, GroveOnMarks, Enabled, ActLog, ActGrove, Foreign, Distinct;
    var g, latest := w.threads[i], PutBy(w.log, Step(i, a));
    var m' := MarksOf(m, latest);
    ActProducers(n, w.log, g, a);
    NewMarks(m, w.log, latest, a);
    forall j | 0 <= j < |w.threads|
      ensures GroveOnMarks(m', w.threads[j])
    {
      MoreMarksGrove(m, m', w.threads[j]);
    }
    ActOnMarks(n, w.log, g, a, m');
  }

  lemma NewMarks(m: Marks, log: seq<LogRing>, latest: seq<Event>, a: Act)
    requires |m| == |log| && (a.Put? ==> a.ring < |log|)
    requires latest == if a.Put? then [Event(a.ring, log[a.ring].prod, log[a.ring].prod + a.count)] else []
    ensures MarksOf(m, latest) == if a.Put? then m[a.ring := m[a.ring] + {log[a.ring].prod + a.count}] else m
  {
    if a.Put? { assert Others(latest) == [] && Last(latest) == latest[0]; }
  }

  lemma PassOnMarks(n: nat, w: World, p: Move, w': World, m: Marks, puts: seq<Event>)
    requires 0 < n && p.Pass? && AllTraced(n, w) && Moves(n, w, p, w') && WorldOnMarks(m, w) && Orderly(m, puts, w.log)
    ensures WorldOnMarks(m, w') && Orderly(m, puts, w'.log)
  {
    hide Tracing, OnMarks, AllOnMarks, Reached, Drop, Left, Grown, Bounded, Distinct, RootIntr;
    var g := w.threads[p.thread];
    var d := Drop(g.tree).0;
    DropOnMarks(m, g.tree);
    LeftOnMarks(n, m, d, d, p.room, d.depth);
    ReachedProducers(w.log, p.dropped, None, RootIntr(w.log, g.tree.ring), g.tree, d.body);
    ReachedProducers(p.dropped, w'.log, None, RootIntr(p.dropped, g.tree.ring), d, Left(n, d, d, p.room, d.depth).body);
  }

  lemma ReachedProducers(log: seq<LogRing>, log': seq<LogRing>, host: Option<nat>, it: LogIntr, b: Bracket, s: Span)
    requires Reached(log, log', host, it, b, s)
    ensures |log'| == |log| && forall r | 0 <= r < |log| :: log'[r].prod == log[r].prod
  {
    hide LaidSpan, After, AfterSpan;
    ReachedFacts(log, log', host, it, b, s);
    ShrunkBelow(log, log', host, it.ring, After(b, Start(log)));
  }

  /** In every world that a run reaches, every position of every thread's tree, and of what hangs, is where an event
      has begun or ended, and none is inside an event. */
  lemma {:induction false} RunOnMarks(n: nat, w: World, moves: seq<Move>, w': World, puts: seq<Event>, m: Marks)
    requires 0 < n && AllTraced(n, w) && Logs(n, w, moves, w', puts) && WorldOnMarks(m, w) && Orderly(m, [], w.log)
    ensures AllTraced(n, w') && WorldOnMarks(MarksOf(m, puts), w') && Orderly(MarksOf(m, puts), puts, w'.log)
    decreases |moves|
  {
    hide Moves, AllTraced, WorldOnMarks, Orderly;
    if moves != [] {
      var mid, earlier :| Logs(n, w, Others(moves), mid, earlier) && Moves(n, mid, Last(moves), w') && puts == earlier + PutBy(mid.log, Last(moves));
      RunOnMarks(n, w, Others(moves), mid, earlier, m);
      MoveKeeps(n, mid, Last(moves), w');
      MarksOfMore(m, earlier, PutBy(mid.log, Last(moves)));
      if Last(moves).Step? {
        StepOnMarks(n, mid, Last(moves).thread, Last(moves).act, w', MarksOf(m, earlier), earlier);
      } else {
        PassOnMarks(n, mid, Last(moves), w', MarksOf(m, earlier), earlier);
        assert earlier + [] == earlier;
      }
    }
  }

  lemma MarksOfMore(m: Marks, puts: seq<Event>, latest: seq<Event>)
    requires |latest| <= 1
    ensures MarksOf(m, puts + latest) == MarksOf(MarksOf(m, puts), latest)
  {
    if latest == [] {
      assert puts + latest == puts;
    } else {
      assert Others(puts + latest) == puts && Last(puts + latest) == Last(latest) && Others(latest) == [];
    }
  }

  // ---- what a flush writes ------------------------------------------------------------------------------------

  /** A chunk begins and ends at marks, is not empty, and does not fill its ring. */
  predicate ChunkOnMarks(n: nat, m: Marks, c: Chunk)
  {
    c.ring < |m| && c.from in m[c.ring] && c.to in m[c.ring] && c.from < c.to < c.from + n
  }

  predicate ChunksOnMarks(n: nat, m: Marks, cs: seq<Chunk>)
  {
    forall k | 0 <= k < |cs| :: ChunkOnMarks(n, m, cs[k])
  }

  lemma {:induction false} TreeOnMarks(n: nat, m: Marks, b: Bracket)
    requires OnMarks(m, b) && Ordered(n, b)
    ensures ChunksOnMarks(n, m, Chunks(b))
    decreases b, 1
  {
    TreeSpanOnMarks(n, m, b.ring, b.depth, b.body);
  }

  lemma {:induction false} TreeSpanOnMarks(n: nat, m: Marks, ring: nat, depth: nat, s: Span)
    requires ring < |m| && SpanOnMarks(m, ring, s) && OrderedSpan(n, depth, s)
    ensures ChunksOnMarks(n, m, ChunksSpan(ring, depth, s))
    decreases s, 0
  {
    hide OnMarks, Ordered, Chunks;
    if s.Cut? {
      TreeOnMarks(n, m, s.sub);
      TreeSpanOnMarks(n, m, ring, depth, s.rest);
    }
  }

  function ChunkWords(cs: seq<Chunk>): seq<Slot>
  {
    if cs == [] then [] else Run(cs[0].ring, cs[0].depth, cs[0].from, cs[0].to) + ChunkWords(cs[1..])
  }

  lemma {:induction false} ReadChunks(n: nat, m: Marks, cs: seq<Chunk>, d: nat)
    requires 0 < n && ChunksOnMarks(n, m, cs)
    ensures Read(PiecesAll(n, cs, d), d) == ChunkWords(cs)
    decreases |cs|
  {
    hide Pieces, Run;
    if cs != [] {
      var c := cs[0];
      assert ChunkOnMarks(n, m, c);
      ReadPieces(n, c.ring, c.depth, c.from, c.to, d);
      ReadChunks(n, m, cs[1..], c.depth);
      ReadConcat(Pieces(n, c.ring, c.depth, c.from, c.to, d), PiecesAll(n, cs[1..], c.depth), d);
    }
  }

  /** If a word of an event is among the words of some chunks, the whole event is, in one piece. */
  lemma {:induction false} EventInChunks(n: nat, m: Marks, cs: seq<Chunk>, e: Event, x: Slot) returns (a: seq<Slot>, depth: nat, c: seq<Slot>)
    requires ChunksOnMarks(n, m, cs) && x in ChunkWords(cs) && x.ring == e.ring && e.from <= x.pos < e.to
    requires e.ring < |m| && forall y | y in m[e.ring] :: y <= e.from || e.to <= y
    ensures ChunkWords(cs) == a + Run(e.ring, depth, e.from, e.to) + c
    decreases |cs|
  {
    hide Run;
    var h, rest := cs[0], ChunkWords(cs[1..]);
    var words := Run(h.ring, h.depth, h.from, h.to);
    assert ChunkOnMarks(n, m, h);
    if x in words {
      RunsOver(h.ring, h.depth, h.from, h.to);
      assert h.from <= e.from && e.to <= h.to;
      RunSplit(h.ring, h.depth, h.from, e.from, h.to);
      RunSplit(h.ring, h.depth, e.from, e.to, h.to);
      var tail := Run(h.ring, h.depth, e.to, h.to);
      a, depth, c := Run(h.ring, h.depth, h.from, e.from), h.depth, tail + rest;
      Associate(a, Run(e.ring, depth, e.from, e.to), tail);
      Associate(a + Run(e.ring, depth, e.from, e.to), tail, rest);
    } else {
      a, depth, c := EventInChunks(n, m, cs[1..], e, x);
      AssociateFour(words, a, Run(e.ring, depth, e.from, e.to), c);
      a := words + a;
    }
  }

  /** The rings when the threads have just begun, each with what it has logged so far, at most. */
  ghost predicate Begun(w: World)
  {
    (forall i | 0 <= i < |w.threads| :: w.threads[i].tree.ring < |w.log| && w.threads[i] == Beginning(w.log, w.threads[i].tree.ring)) &&
    forall r | 0 <= r < |w.log| :: w.log[r].cons <= w.log[r].prod
  }

  function BeginMarks(log: seq<LogRing>): (m: Marks)
    ensures |m| == |log|
  {
    seq(|log|, r requires 0 <= r < |log| => {log[r].cons, log[r].prod})
  }

  lemma BeginOnMarks(w: World)
    requires Begun(w)
    ensures WorldOnMarks(BeginMarks(w.log), w) && Orderly(BeginMarks(w.log), [], w.log)
  {
    forall i | 0 <= i < |w.threads|
      ensures GroveOnMarks(BeginMarks(w.log), w.threads[i])
    {
      assert w.threads[i].hung == [];
    }
  }

  /** From threads that have just begun, through any steps and flushes: whatever flush comes next, of whatever thread and
      with however many vectors, an event of which it takes a word it takes whole, its words stand together, and they are
      under one depth. */
  lemma EventsAreWhole(n: nat, w: World, moves: seq<Move>, w': World, puts: seq<Event>, e: Event, i: nat, room: nat, x: Slot)
    returns (a: seq<Slot>, depth: nat, c: seq<Slot>)
    requires 0 < n && AllTraced(n, w) && Begun(w) && Logs(n, w, moves, w', puts) && e in puts && i < |w'.threads|
    requires var b := Drop(w'.threads[i].tree).0;
             x in Read(Emit(n, b, room, b.depth).vecs, b.depth) && x.ring == e.ring && e.from <= x.pos < e.to
    ensures var b := Drop(w'.threads[i].tree).0;
            Read(Emit(n, b, room, b.depth).vecs, b.depth) == a + Run(e.ring, depth, e.from, e.to) + c
  {
    hide AllTraced, Logs, Tracing, Drop, Emit, Read, Run, OnMarks, Chunks, ChunkWords, PiecesAll, AllOnMarks, Ordered, Leading, LaidRoot;
    var m, b := MarksOf(BeginMarks(w.log), puts), Drop(w'.threads[i].tree).0;
    BeginOnMarks(w);
    RunOnMarks(n, w, moves, w', puts, BeginMarks(w.log));
    TracedOne(n, w', i);
    TracedFacts(n, w'.log, w'.threads[i]);
    DropKeeps(n, w'.threads[i].tree);
    assert GroveOnMarks(m, w'.threads[i]);
    DropOnMarks(m, w'.threads[i].tree);
    TreeOnMarks(n, m, b);
    var k := WholeChunks(n, b, room, b.depth);
    ReadChunks(n, m, Chunks(b)[..k], b.depth);
    a, depth, c := EventInChunks(n, m, Chunks(b)[..k], e, x);
  }

  // ---- in the file ------------------------------------------------------------------------------------------------

  lemma {:induction false} RunAt(ring: nat, depth: nat, from: nat, to: nat, j: nat)
    requires from + j < to
    ensures j < |Run(ring, depth, from, to)| == to - from && Run(ring, depth, from, to)[j] == Slot(ring, depth, from + j)
    decreases j
  {
    RunsOver(ring, depth, from, to);
    if j > 0 { RunAt(ring, depth, from + 1, to, j - 1); }
  }

  /** The words of an event. */
  function WordsOf(n: nat, rings: seq<Ring>, e: Event): (ws: seq<Word>)
    requires 0 < n && e.from <= e.to
    ensures |ws| == e.to - e.from && forall j | 0 <= j < |ws| :: ws[j] == WordOf(n, rings, Slot(e.ring, 0, e.from + j))
  {
    seq<Word>(e.to - e.from, j requires 0 <= j < e.to - e.from => WordOf(n, rings, Slot(e.ring, 0, e.from + j)))
  }

  lemma EventIsTagged(n: nat, rings: seq<Ring>, tid: nat, e: Event, depth: nat)
    requires 0 < n && e.from <= e.to
    ensures TaggedAll(n, rings, tid, Run(e.ring, depth, e.from, e.to)) == TagWords(tid, depth, WordsOf(n, rings, e))
  {
    hide Run, Idx;
    var words := Run(e.ring, depth, e.from, e.to);
    RunsOver(e.ring, depth, e.from, e.to);
    forall j | 0 <= j < |words|
      ensures TaggedAll(n, rings, tid, words)[j] == TagWords(tid, depth, WordsOf(n, rings, e))[j]
    {
      RunAt(e.ring, depth, e.from, e.to, j);
      assert words[j] == Slot(e.ring, depth, e.from + j);
      assert WordOf(n, rings, words[j]) == WordOf(n, rings, Slot(e.ring, 0, e.from + j));
    }
  }

  /** And where the flush has been written, a reader of the file finds the event's words one after the other, under one
      thread and one depth, whatever context it reads from. */
  lemma EventInFile(n: nat, rings: seq<Ring>, tid: nat, out0: seq<Item>, lc0: LastCtx, out1: seq<Item>, lc1: LastCtx, taken: seq<Slot>,
                    a: seq<Slot>, e: Event, depth: nat, c: seq<Slot>, start: LastCtx)
    requires 0 < n && e.from <= e.to && Wrote(out0, lc0, out1, lc1, TaggedAll(n, rings, tid, taken))
    requires taken == a + Run(e.ring, depth, e.from, e.to) + c && Final(out0, start) == lc0
    ensures Decode(out1, start) ==
            Decode(out0, start) + TaggedAll(n, rings, tid, a) + TagWords(tid, depth, WordsOf(n, rings, e)) + TaggedAll(n, rings, tid, c)
  {
    hide Run, WordsOf, TaggedAll, TagWords;
    var words := Run(e.ring, depth, e.from, e.to);
    WroteAfter(out0, lc0, out1, lc1, TaggedAll(n, rings, tid, taken), start);
    TaggedConcat(n, rings, tid, a + words, c);
    TaggedConcat(n, rings, tid, a, words);
    EventIsTagged(n, rings, tid, e, depth);
    var x, y, z := TaggedAll(n, rings, tid, a), TaggedAll(n, rings, tid, words), TaggedAll(n, rings, tid, c);
    assert Decode(out0, start) + (x + y + z) == Decode(out0, start) + x + y + z;
  }
}
