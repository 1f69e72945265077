/** Runs of the tracer: what the threads, their handlers and the serializer do, one after another; when
    a clean signal ring may be taken over, what happens when it may not, and what happens when an
    interruption is recorded too soon (llvm/ngrt/rvpsignal.c, llvm/ngrt/serialize.c). */
module Runs {
  import opened Basics
  import opened EventTree
  import opened Arcs
  import opened EventLog
  import opened Producers
  import opened Threads
  import opened Spines
  import opened Touching
  import opened Serializer
  import opened Tracer

  // ---- when a ring may be taken over -------------------------------------------------------

  /** The same rings, in the same places. */
  predicate SameRings(g: Grove, g': Grove)
  {
    g'.tree.ring == g.tree.ring && |g'.hung| == |g.hung| && forall i | 0 <= i < |g.hung| :: g'.hung[i].ring == g.hung[i].ring
  }

  /** A walk has met interruption `k` of ring `x`, which is by ring `q`. */
  predicate OnTheWay(log: seq<LogRing>, c: Cursor, c': Cursor, q: nat, x: nat, k: nat)
    requires Fits(log, c) && Fits(log, c')
  {
    Met(log, c, c', x, k) && log[x].pend[k].ring == q
  }

  lemma OneWalkIsSame(log: seq<LogRing>, q: nat, tid: nat, depth: nat, root: nat, d: Bracket, d': Bracket, c: Cursor)
    requires Fits(log, c) && root < |log| && q < |log| && HangsAt(log, root, d, c) && HangsAt(AcquireLog(log, q, tid, depth), root, d', c)
    requires Clean(log, q) && Ahead(log, c) && d'.ring == d.ring
    ensures After(d', c) == After(d, c)
    ensures forall x, k | 0 <= x < |log| && c.p[x] <= k < After(d, c).p[x] && k < |log[x].pend| && log[x].pend[k].ring == q ::
              log[x].tid == tid && log[x].depth < depth && (d == d' ==> log[q].tid == tid && log[q].depth == depth)
  {
    hide LaidSpan, After;
    WalkIsSame(log, q, tid, depth, HungIntr(d), d, d', c);
  }

  lemma {:induction false} HungWalkIsSame(log: seq<LogRing>, q: nat, tid: nat, depth: nat, root: nat, hung: seq<Bracket>, hung': seq<Bracket>, c: Cursor)
    requires Fits(log, c) && root < |log| && q < |log| && Hanging(log, root, hung, c) && Hanging(AcquireLog(log, q, tid, depth), root, hung', c)
    requires Clean(log, q) && Ahead(log, c) && Within(log, c) && |hung'| == |hung| && forall i | 0 <= i < |hung| :: hung'[i].ring == hung[i].ring
    ensures AfterHung(hung', c) == AfterHung(hung, c)
    ensures forall x: nat, k: nat | OnTheWay(log, c, AfterHung(hung, c), q, x, k) ::
              log[x].tid == tid && log[x].depth < depth && (hung == hung' ==> log[q].tid == tid && log[q].depth == depth)
    decreases |hung|
  {
    hide Laid, After;
    if hung != [] {
      var d, d', c1 := Last(hung), Last(hung'), AfterHung(Others(hung), c);
      HungWalkIsSame(log, q, tid, depth, root, Others(hung), Others(hung'), c);
      HungMoves(log, root, Others(hung), c);
      OneWalkIsSame(log, q, tid, depth, root, d, d', c1);
      forall x: nat, k: nat | OnTheWay(log, c, AfterHung(hung, c), q, x, k)
        ensures log[x].tid == tid && log[x].depth < depth && (hung == hung' ==> log[q].tid == tid && log[q].depth == depth)
      {
        assert k < c1.p[x] ==> OnTheWay(log, c, c1, q, x, k);
      }
    }
  }

  lemma TakenWalk(n: nat, log: seq<LogRing>, g: Grove, g': Grove, q: nat, tid: nat, depth: nat)
    requires Tracing(n, log, g) && Clean(log, q) && Tracing(n, AcquireLog(log, q, tid, depth), g') && SameRings(g, g') && g.tree.ring != q
    ensures g.tree.ring < |log| && Relabels(log, g.tree.ring, q, tid, depth)
    ensures g == g' ==> (log[q].tid == tid && log[q].depth == depth) || Unnamed(log, g.tree.ring, q)
  {
    hide Laid, After, Leading, Bounded, Hanging, NothingElse;
    var log', root := AcquireLog(log, q, tid, depth), g.tree.ring;
    TracedStands(n, log, g);
    TracedStands(n, log', g');
    RootStart(n, log, g);
    RootStart(n, log', g');
    assert Start(log') == Start(log) && RootIntr(log', root) == RootIntr(log, root);
    WalkIsSame(log, q, tid, depth, RootIntr(log, root), g.tree, g'.tree, Start(log));
    HungWalkIsSame(log, q, tid, depth, root, g.hung, g'.hung, TreeEnd(log, g));
    Walked(n, log, g);
    forall x, k | 0 <= x < |log| && Below(log, root, x) && log[x].pcons <= k < |log[x].pend| && log[x].pend[k].ring == q
      ensures log[x].tid == tid && log[x].depth < depth && (g == g' ==> log[q].tid == tid && log[q].depth == depth)
    {
      assert WalkedAll(log, WalkEnd(log, g), x);
      if TreeEnd(log, g).p[x] <= k { assert OnTheWay(log, TreeEnd(log, g), WalkEnd(log, g), q, x, k); }
    }
  }

  /** A clean ring is taken over. The thread's rings then still hold a tree if and only if, under its
      new label, the ring could have made every interruption by it that the serializer has not dropped.
      And they hold the very same tree if and only if the label is what it was, or no such
      interruption is left. */
  lemma TakenOver(n: nat, log: seq<LogRing>, g: Grove, q: nat, tid: nat, depth: nat)
    requires Tracing(n, log, g) && Clean(log, q) && NotRooted(g, q) && g.tree.ring < |log|
    ensures (exists g' :: SameRings(g, g') && Tracing(n, AcquireLog(log, q, tid, depth), g')) <==> Relabels(log, g.tree.ring, q, tid, depth)
    ensures Tracing(n, AcquireLog(log, q, tid, depth), g) <==>
            ((log[q].tid == tid && log[q].depth == depth) || Unnamed(log, g.tree.ring, q))
  {
    hide Tracing, Relabels, Unnamed, Relabelled;
    var log' := AcquireLog(log, q, tid, depth);
    if g' :| SameRings(g, g') && Tracing(n, log', g') { TakenWalk(n, log, g, g', q, tid, depth); }
    if Relabels(log, g.tree.ring, q, tid, depth) {
      AcquireKeeps(n, log, g, q, tid, depth);
      RelabelledRings(g, q, depth);
    }
    if Tracing(n, log', g) { TakenWalk(n, log, g, g, q, tid, depth); }
    if Unnamed(log, g.tree.ring, q) { UnnamedStays(n, log, g, q, tid, depth); }
    if log[q].tid == tid && log[q].depth == depth { assert log' == log; }
  }

  lemma RelabelledRings(g: Grove, q: nat, depth: nat)
    ensures SameRings(g, Relabelled(g, q, depth))
  {
    RelabelledHungRings(g.hung, q, depth);
  }

  lemma {:induction false} RelabelledHungRings(hung: seq<Bracket>, q: nat, depth: nat)
    ensures forall i | 0 <= i < |hung| :: RelabelHung(hung, q, depth)[i].ring == hung[i].ring
    decreases |hung|
  {
    hide Relabel;
    if hung != [] { RelabelledHungRings(Others(hung), q, depth); }
  }

  /** The rings of thread `g` still hold a tree of it after ring `q` has been taken over. */
  ghost predicate KeepsATree(n: nat, log: seq<LogRing>, g: Grove, q: nat, tid: nat, depth: nat)
    requires q < |log|
  {
    exists g' :: SameRings(g, g') && Tracing(n, AcquireLog(log, q, tid, depth), g')
  }

  /** All threads at once: taking over a clean ring leaves every thread a tree if and only if the new
      label is true of every interruption by the ring that is left, and leaves every thread its tree if
      and only if the label is what it was or no interruption by the ring is left. */
  lemma ThreadsTakenOver(n: nat, log: seq<LogRing>, threads: seq<Grove>, q: nat, tid: nat, depth: nat)
    requires Clean(log, q)
    requires forall i | 0 <= i < |threads| :: Tracing(n, log, threads[i]) && NotRooted(threads[i], q) && threads[i].tree.ring < |log|
    ensures (forall i | 0 <= i < |threads| :: KeepsATree(n, log, threads[i], q, tid, depth)) <==>
            (forall i | 0 <= i < |threads| :: Relabels(log, threads[i].tree.ring, q, tid, depth))
    ensures (forall i | 0 <= i < |threads| :: Tracing(n, AcquireLog(log, q, tid, depth), threads[i])) <==>
            ((log[q].tid == tid && log[q].depth == depth) || forall i | 0 <= i < |threads| :: Unnamed(log, threads[i].tree.ring, q))
  {
    hide Tracing, Relabels, Unnamed, SameRings, NotRooted;
    forall i | 0 <= i < |threads|
      ensures KeepsATree(n, log, threads[i], q, tid, depth) <==> Relabels(log, threads[i].tree.ring, q, tid, depth)
      ensures Tracing(n, AcquireLog(log, q, tid, depth), threads[i]) <==>
              ((log[q].tid == tid && log[q].depth == depth) || Unnamed(log, threads[i].tree.ring, q))
    {
      TakenOver(n, log, threads[i], q, tid, depth);
    }
  }

  // ---- runs --------------------------------------------------------------------------------

  /** The rings, and the threads' trees with what hangs. */
  datatype World = World(log: seq<LogRing>, threads: seq<Grove>)

  /** A thread or a handler that runs on it takes a step; or the serializer flushes a thread's ring:
      it drops what is drained, which leaves the rings `dropped`, fills at most `room` vectors, and
      discards them. */
  datatype Move =
    | Step(thread: nat, act: Act)
    | Pass(thread: nat, room: nat, dropped: seq<LogRing>)

  ghost predicate Moves(n: nat, w: World, m: Move, w': World)
    requires 0 < n
  {
    m.thread < |w.threads| &&
    var g := w.threads[m.thread];
    match m
    case Step(i, a) =>
      Enabled(n, w.log, g, a) && Foreign(w.log, w.threads, a) && w' == World(ActLog(n, w.log, g, a), w.threads[i := ActGrove(n, w.log, g, a)])
    case Pass(i, room, log1) =>
      var r := g.tree.ring;
      var d := Drop(g.tree).0;
      r < |w.log| && Reached(w.log, log1, None, RootIntr(w.log, r), g.tree, d.body) && Grown(d, d) &&
      var l := Left(n, d, d, room, d.depth);
      r < |log1| && Reached(log1, w'.log, None, RootIntr(log1, r), d, l.body) && Bounded(n, log1) && Bounded(n, w'.log) &&
      w'.threads == w.threads[i := g.(tree := l)]
  }

  /** Moves, one after another. */
  ghost predicate Runs(n: nat, w: World, moves: seq<Move>, w': World)
    requires 0 < n
    decreases |moves|
  {
    if moves == [] then w' == w
    else exists mid :: Runs(n, w, Others(moves), mid) && Moves(n, mid, Last(moves), w')
  }

  lemma RunsOn(n: nat, w: World, moves: seq<Move>, mid: World, m: Move, w': World)
    requires 0 < n && Runs(n, w, moves, mid) && Moves(n, mid, m, w')
    ensures Runs(n, w, moves + [m], w')
  {
    hide Moves;
    var all := moves + [m];
    assert Others(all) == moves && Last(all) == m;
  }

  /** Each thread has an id of its own, and its tree and what hangs are all that its rings hold. */
  ghost predicate AllTraced(n: nat, w: World)
  {
    Distinct(w.log, w.threads) && forall i | 0 <= i < |w.threads| :: Tracing(n, w.log, w.threads[i])
  }

  lemma StepTraced(n: nat, w: World, i: nat, a: Act, w': World)
    requires 0 < n && AllTraced(n, w) && Moves(n, w, Step(i, a), w')
    ensures AllTraced(n, w')
  {
    hide Tracing, Enabled, ActLog, ActGrove, Relabels, NotRooted;
    var g := w.threads[i];
    var front := StepKeeps(n, w.log, g, a);
    forall j | 0 <= j < |w.threads|
      ensures j != i ==> Tracing(n, w'.log, w.threads[j])
      ensures TidOf(w'.log, w.threads[j]) == TidOf(w.log, w.threads[j])
    {
      ActKeepsTid(n, w.log, w.threads[i], a);
      if j != i { StepIsElsewhere(n, w.log, g, w.threads[j], a); }
      KeepsTids(n, w.log, w.threads, i, a, j);
    }
    assert forall j | 0 <= j < |w.threads| :: w'.log[w'.threads[j].tree.ring].tid == TidOf(w'.log, w.threads[j]) == w.log[w.threads[j].tree.ring].tid;
  }

  lemma KeepsTids(n: nat, log: seq<LogRing>, threads: seq<Grove>, i: nat, a: Act, j: nat)
    requires i < |threads| && j < |threads| && Enabled(n, log, threads[i], a) && Foreign(log, threads, a)
    ensures TidOf(ActLog(n, log, threads[i], a), threads[j]) == TidOf(log, threads[j])
  {
    hide Relabels;
  }

  /** Dropping and discarding, as a pass of the serializer. */
  lemma PassTraced(n: nat, w: World, i: nat, l: Bracket, w': World)
    requires 0 < n && AllTraced(n, w) && i < |w.threads| && w.threads[i].tree.ring < |w.log|
    requires Reached(w.log, w'.log, None, RootIntr(w.log, w.threads[i].tree.ring), w.threads[i].tree, l.body)
    requires l == w.threads[i].tree.(body := l.body) && Leading(l) && Bounded(n, w'.log) && w'.threads == w.threads[i := w.threads[i].(tree := l)]
    ensures AllTraced(n, w') && w'.threads[i].tree.ring < |w'.log|
  {
    hide Tracing, Reached, Leading, Bounded, Laid, After;
    var g := w.threads[i];
    TracedStands(n, w.log, g);
    RootStart(n, w.log, g) by { hide Laid, Leading; }
    RootIsLaid(n, w.log, w'.log, g, l);
    PassKeeps(n, w.log, w'.log, g, l);
    forall j | 0 <= j < |w.threads|
      ensures j != i ==> Tracing(n, w'.log, w.threads[j])
      ensures w.threads[j].tree.ring < |w'.log| && w'.log[w.threads[j].tree.ring].tid == w.log[w.threads[j].tree.ring].tid
    {
      if j != i { PassIsElsewhere(n, w.log, w'.log, g, l, w.threads[j]); }
    }
    assert forall j | 0 <= j < |w.threads| :: w'.threads[j].tree.ring == w.threads[j].tree.ring;
  }

  lemma RootIsLaid(n: nat, log: seq<LogRing>, log': seq<LogRing>, g: Grove, l: Bracket)
    requires Tracing(n, log, g) && g.tree.ring < |log| && l == g.tree.(body := l.body)
    requires Reached(log, log', None, RootIntr(log, g.tree.ring), g.tree, l.body)
    ensures LaidRoot(log', l)
  {
    hide LaidSpan, After, AfterSpan, Leading, Bounded, Hanging, Shrunk;
    ReachedLaid(log, log', None, RootIntr(log, g.tree.ring), g.tree, l.body);
  }

  /** In every world that a run reaches, the threads' trees and what hangs are all that the rings
      hold. */
  lemma {:induction false} RunKeeps(n: nat, w: World, moves: seq<Move>, w': World)
    requires 0 < n && AllTraced(n, w) && Runs(n, w, moves, w')
    ensures AllTraced(n, w')
    decreases |moves|
  {
    hide Moves, AllTraced;
    if moves != [] {
      var mid :| Runs(n, w, Others(moves), mid) && Moves(n, mid, Last(moves), w');
      RunKeeps(n, w, Others(moves), mid);
      MoveKeeps(n, mid, Last(moves), w');
    }
  }

  lemma MoveKeeps(n: nat, w: World, m: Move, w': World)
    requires 0 < n && AllTraced(n, w) && Moves(n, w, m, w')
    ensures AllTraced(n, w')
  {
    hide Tracing, Reached, Leading, Bounded, LaidRoot, Drop, Left, Grown, Enabled, ActLog, ActGrove, Foreign, RootIntr, Ordered;
    match m {
      case Step(i, a) => StepTraced(n, w, i, a, w');
      case Pass(i, room, log1) =>
        var g := w.threads[i];
        var d := Drop(g.tree).0;
        TracedFacts(n, w.log, g);
        DropKeeps(n, g.tree);
        var w1 := World(log1, w.threads[i := g.(tree := d)]);
        PassTraced(n, w, i, d, w1);
        LeftKeeps(n, d, d, room, d.depth);
        PassTraced(n, w1, i, Left(n, d, d, room, d.depth), w');
    }
  }

  // ---- a ring taken over too early -------------------------------------------------------------

  /** The assertion that rvp_ring_drop_empties and rvp_ring_get_iovs begin with on interruption `it`. */
  predicate StartIsUnread(n: nat, log: seq<LogRing>, it: LogIntr)
    requires 0 < n && it.ring < |log|
  {
    var l := log[it.ring];
    ContainsArc(Idx(n, l.cons), Idx(n, l.prod), Idx(n, l.cons), Idx(n, it.sidx))
  }

  /** It fails once words after the interruption's start have been read for somebody else. */
  lemma StaleStart(n: nat, log: seq<LogRing>, it: LogIntr)
    requires it.ring < |log| && it.sidx < log[it.ring].cons <= log[it.ring].prod < it.sidx + n
    ensures !StartIsUnread(n, log, it)
  {
    var l := log[it.ring];
    Wrap(n, it.sidx, l.cons);
    Wrap(n, it.sidx, l.prod);
    hide Idx;
  }

  /** Threads 1 and 2 on rings 0 and 2; ring 1 is a clean signal ring. */
  function TwoThreads(): World
  {
    World([LogRing(0, 0, 1, 0, 0, []), LogRing(0, 0, 0, 0, 0, []), LogRing(0, 0, 2, 0, 0, [])],
          [Grove(Alone(0, 0, 0), []), Grove(Alone(2, 0, 0), [])])
  }

  /** A thread's ring, with the words in `from..to`. */
  function Alone(r: nat, from: nat, to: nat): Bracket
  {
    Bracket(r, 0, true, Done(from, to, false))
  }

  /** A thread's ring that holds no words, with one interruption, by ring 1. */
  function OneSignal(r: nat, open: bool, from: nat, to: nat): Bracket
  {
    Bracket(r, 0, true, Cut(0, 0, Bracket(1, 1, open, Done(from, to, false)), Done(0, 0, false)))
  }

  /** The rings while thread 1's handler runs, and after: it has logged up to `to`, and its words have
      been read up to `from`. */
  function FirstLog(from: nat, to: nat, open: bool): seq<LogRing>
  {
    [LogRing(0, 0, 1, 0, 0, [LogIntr(1, 0, from, if open then 0 else to, open)]), LogRing(from, to, 1, 1, 0, []), LogRing(0, 0, 2, 0, 0, [])]
  }

  /** The rings while a handler of thread 2 has ring 1. */
  function SecondLog(from: nat, to: nat): seq<LogRing>
  {
    [LogRing(0, 0, 1, 0, 0, [LogIntr(1, 0, 2, 2, false)]), LogRing(from, to, 2, 1, 0, []),
     LogRing(0, 0, 2, 0, 0, [LogIntr(1, 0, from, 0, true)])]
  }

  /** A handler starts on thread `i`: it makes its ring the current one, and records its interruption. */
  lemma StartMoves(n: nat, w0: World, before: seq<Move>, w: World, i: nat, h: nat, q: nat) returns (moves: seq<Move>)
    requires 0 < n && Runs(n, w0, before, w) && i < |w.threads| && Tracing(n, w.log, w.threads[i]) && MayStart(n, w.log, w.threads[i], h, q)
    ensures Runs(n, w0, moves, World(EnterLog(w.log, h, q), w.threads[i := Handling(w.log, w.threads[i], h, q, 0, true)]))
  {
    hide Runs, Tracing, Marked, EnterOn, NoneOpenBelow, NoneOpen, EndBefore, EndBeforeHung, AtTail, FlattenAll, Drop, Left, Reached, Grown;
    var g := w.threads[i];
    HandlerStarts(n, w.log, g, h, q);
    var g1, g2 := ActGrove(n, w.log, g, Take(h, q)), Handling(w.log, g, h, q, 0, true);
    var w1, w2 := World(w.log, w.threads[i := g1]), World(EnterLog(w.log, h, q), w.threads[i := g2]);
    assert w1.threads[i := g2] == w2.threads;
    RunsOn(n, w0, before, w, Step(i, Take(h, q)), w1);
    RunsOn(n, w0, before + [Step(i, Take(h, q))], w1, Step(i, Record(h, q)), w2);
    moves := before + [Step(i, Take(h, q))] + [Step(i, Record(h, q))];
  }

  /** And it logs. */
  lemma HandlerMoves(n: nat, w0: World, before: seq<Move>, w: World, i: nat, h: nat, q: nat, k: nat) returns (moves: seq<Move>)
    requires 0 < n && Runs(n, w0, before, w) && i < |w.threads| && Tracing(n, w.log, w.threads[i])
    requires MayStart(n, w.log, w.threads[i], h, q) && w.log[q].prod + k < w.log[q].cons + n
    ensures Runs(n, w0, moves, World(HandlerLog(w.log, h, q, k, true), w.threads[i := Handling(w.log, w.threads[i], h, q, k, true)]))
  {
    hide Runs, Tracing, Marked, EnterOn, NoneOpenBelow, NoneOpen, EndBefore, EndBeforeHung, AtTail, FlattenAll, Drop, Left, Reached, Grown;
    var g := w.threads[i];
    moves := StartMoves(n, w0, before, w, i, h, q);
    HandlerGoesOn(n, w.log, g, h, q, 0, k);
    var g1, g2 := Handling(w.log, g, h, q, 0, true), Handling(w.log, g, h, q, k, true);
    var w1, w2 := World(EnterLog(w.log, h, q), w.threads[i := g1]), World(HandlerLog(w.log, h, q, k, true), w.threads[i := g2]);
    assert HandlerLog(w.log, h, q, 0, true) == EnterLog(w.log, h, q) by { PutNothing(EnterLog(w.log, h, q), q); }
    assert w1.threads[i := g2] == w2.threads;
    RunsOn(n, w0, moves, w1, Step(i, Put(q, k)), w2);
    moves := moves + [Step(i, Put(q, k))];
  }

  lemma PutNothing(log: seq<LogRing>, q: nat)
    requires q < |log|
    ensures PutLog(log, q, 0) == log
  {
  }

  lemma TwoThreadsBegins(n: nat)
    requires 8 < n
    ensures AllTraced(n, TwoThreads()) && TwoThreads().threads[0] == Beginning(TwoThreads().log, 0) && TwoThreads().threads[1] == Beginning(TwoThreads().log, 2)
  {
    hide Tracing;
    var w := TwoThreads();
    TwoThreadsBounded(n);
    BeginsTraced(n, w.log, 0);
    BeginsTraced(n, w.log, 2);
  }

  lemma TwoThreadsBounded(n: nat)
    requires 8 < n
    ensures Bounded(n, TwoThreads().log)
  {
    var log := TwoThreads().log;
    assert forall q | 0 <= q < |log| :: BoundedRing(n, |log|, log[q]);
  }

  /** A handler may start on ring 1 of a thread that has done nothing yet. */
  lemma SignalMayStart(n: nat, log: seq<LogRing>, r: nat, k: nat)
    requires r < |log| && 1 < |log| && log[r].cons == log[r].prod == log[r].pcons == log[r].depth == 0 && log[r].pend == []
    requires log[1].depth == 1 && log[1].tid == log[r].tid && r != 1
    requires forall x, y | 0 <= x < |log| && log[x].pcons <= y < |log[x].pend| :: log[x].pend[y].ring == 1 ==> !log[x].pend[y].open
    ensures MayStart(n, log, Grove(Alone(r, 0, 0), []), r, 1)
    ensures Handling(log, Grove(Alone(r, 0, 0), []), r, 1, k, true) == Grove(OneSignal(r, true, log[1].prod, log[1].prod + k), [])
  {
    var g := Grove(Alone(r, 0, 0), []);
    assert AtTail(g.tree, r);
    assert EnterOn(g.tree, r, Handled(log, 1, k, true)) == OneSignal(r, true, log[1].prod, log[1].prod + k);
  }

  /** Ring 1 becomes thread 1's. */
  function TwoAcquired(): seq<LogRing>
  {
    [LogRing(0, 0, 1, 0, 0, []), LogRing(0, 0, 1, 1, 0, []), LogRing(0, 0, 2, 0, 0, [])]
  }

  lemma AloneRelabels(r: nat, q: nat, depth: nat)
    requires r != q
    ensures Relabelled(Grove(Alone(r, 0, 0), []), q, depth) == Grove(Alone(r, 0, 0), [])
  {
    assert Relabel(Alone(r, 0, 0), q, depth) == Alone(r, 0, 0);
  }

  /** A clean ring goes to a handler of a thread, when no thread has done anything yet. */
  lemma FreshAcquires(n: nat, w: World, i: nat, q: nat, depth: nat)
    requires 0 < n && i < |w.threads| && Clean(w.log, q)
    requires forall j | 0 <= j < |w.threads| ::
               var r := w.threads[j].tree.ring;
               w.threads[j] == Grove(Alone(r, 0, 0), []) && r < |w.log| && r != q
    requires forall x | 0 <= x < |w.log| :: w.log[x].pcons == |w.log[x].pend|
    ensures w.threads[i].tree.ring < |w.log|
    ensures var tid := w.log[w.threads[i].tree.ring].tid;
            Moves(n, w, Step(i, Acquire(q, tid, depth)), World(AcquireLog(w.log, q, tid, depth), w.threads))
  {
    hide Reached, Left, Drop, Grown, Flatten, Run, Laid, After, Ordered, Below;
    var g := w.threads[i];
    var tid := w.log[g.tree.ring].tid;
    var a := Acquire(q, tid, depth);
    forall j | 0 <= j < |w.threads|
      ensures NotRooted(w.threads[j], q) && w.threads[j].tree.ring < |w.log| && Relabels(w.log, w.threads[j].tree.ring, q, tid, depth)
    {
      assert w.threads[j].hung == [];
    }
    AloneRelabels(g.tree.ring, q, depth);
    assert w.threads[i := g] == w.threads;
  }

  /** Thread 1's handler starts on ring 1 and logs two words. */
  lemma FirstStarts(n: nat) returns (moves: seq<Move>)
    requires 8 < n
    ensures Runs(n, TwoThreads(), moves, World(FirstLog(0, 2, true), [Grove(OneSignal(0, true, 0, 2), []), Grove(Alone(2, 0, 0), [])]))
  {
    hide Moves, Runs, AllTraced, Handling, MayStart;
    var w0, w1 := TwoThreads(), World(TwoAcquired(), TwoThreads().threads);
    TwoThreadsBegins(n);
    FreshAcquires(n, w0, 0, 1, 1);
    assert AcquireLog(w0.log, 1, 1, 1) == TwoAcquired();
    RunsNone(n, w0);
    RunsOn(n, w0, [], w0, Step(0, Acquire(1, 1, 1)), w1);
    MoveKeeps(n, w0, Step(0, Acquire(1, 1, 1)), w1);
    TracedOne(n, w1, 0);
    SignalMayStart(n, w1.log, 0, 2);
    moves := HandlerMoves(n, w0, [] + [Step(0, Acquire(1, 1, 1))], w1, 0, 0, 1, 2);
    FirstLogIs();
    assert w1.threads[0 := Grove(OneSignal(0, true, 0, 2), [])] == [Grove(OneSignal(0, true, 0, 2), []), Grove(Alone(2, 0, 0), [])];
  }

  lemma FirstLogIs()
    ensures HandlerLog(TwoAcquired(), 0, 1, 2, true) == FirstLog(0, 2, true)
  {
    assert TwoAcquired()[0].pend + [Recorded(TwoAcquired(), 0, 1)] == [LogIntr(1, 0, 0, 0, true)];
  }

  lemma RunsNone(n: nat, w: World)
    requires 0 < n
    ensures Runs(n, w, [], w)
  {
  }

  lemma TracedOne(n: nat, w: World, i: nat)
    requires AllTraced(n, w) && i < |w.threads|
    ensures Tracing(n, w.log, w.threads[i])
  {
  }

  /** The serializer reads the words of the handler on ring 1, which has not finished. */
  function SignalRead(log: seq<LogRing>, r: nat): (log': seq<LogRing>)
    requires r < |log| && 1 < |log| && r != 1 && log[r].pcons < |log[r].pend|
  {
    Rehosted(Consumed(log, 1, log[1].prod), Some(r), log[1].prod)
  }

  predicate OnSignal(n: nat, log: seq<LogRing>, r: nat, from: nat, to: nat)
  {
    0 < n && r < |log| && 1 < |log| && r != 1 && from < to < from + n &&
    log[r] == LogRing(0, 0, log[1].tid, 0, 0, [LogIntr(1, 0, from, 0, true)]) && log[1] == LogRing(from, to, log[1].tid, 1, 0, [])
  }

  lemma SignalIsLaid(n: nat, log: seq<LogRing>, r: nat, from: nat, to: nat)
    requires OnSignal(n, log, r, from, to)
    ensures var it := LogIntr(1, 0, from, 0, true);
            Laid(log, RootIntr(log, r), OneSignal(r, true, from, to), Start(log)) && log[r].pend[log[r].pcons] == it && Hosted(log, Some(r), it)
  {
    var sub := Bracket(1, 1, true, Done(from, to, false));
    var c1 := PassIntr(Start(log), r, 0);
    assert Laid(log, log[r].pend[0], sub, c1);
    assert LaidSpan(log, r, 0, true, Done(0, 0, false), After(sub, c1));
    assert LaidSpan(log, r, 0, true, OneSignal(r, true, from, to).body, Start(log));
  }

  lemma SignalReached(n: nat, log: seq<LogRing>, r: nat, from: nat, to: nat)
    requires OnSignal(n, log, r, from, to)
    ensures var b := OneSignal(r, true, from, to);
            Reached(log, log, None, RootIntr(log, r), b, b.body) &&
            Reached(log, SignalRead(log, r), None, RootIntr(log, r), b, OneSignal(r, true, to, to).body)
  {
    hide LaidSpan, After, AfterSpan, Reached;
    var b, it := OneSignal(r, true, from, to), LogIntr(1, 0, from, 0, true);
    SignalIsLaid(n, log, r, from, to);
    ReachedStart(log, None, RootIntr(log, r), b);
    ReachedEnters(log, log, None, RootIntr(log, r), b, b.body);
    ReachedStart(log, Some(r), it, b.body.sub);
    ReachedWords(log, log, Some(r), it, b.body.sub, b.body.sub.body, to, SignalRead(log, r));
    ReachedLeaves(log, log, None, RootIntr(log, r), b, b.body, it, SignalRead(log, r), b.body.sub.(body := Done(to, to, false)));
  }

  lemma SignalLeft(n: nat, r: nat, from: nat, to: nat)
    requires 0 < n && from < to < from + n
    ensures var b := OneSignal(r, true, from, to);
            Drop(b).0 == b && Grown(b, b) && Left(n, b, b, 3, 0) == OneSignal(r, true, to, to)
  {
    hide Pieces;
    var b, s := OneSignal(r, true, from, to), Done(from, to, false);
    assert Between(n, 1, 1, from, to, 3, 0).Some? by { SignalPieces(n, from, to); }
    assert Ordered(n, b.body.sub) && OrderedSpan(n, 0, Done(0, 0, false)) && OrderedSpan(n, 0, b.body);
    GrownSelf(b, n);
    assert Drop(b.body.sub) == (b.body.sub, false) && DropSpan(true, b.body) == (b.body, false);
    assert LeftSpan(n, 1, 1, true, s, s, 3, 0) == Done(to, to, false);
    var l := Left(n, b.body.sub, b.body.sub, 3, 0);
    assert l == Bracket(1, 1, true, Done(to, to, false)) && !Spent(l);
    assert LeftSpan(n, r, 0, true, b.body, b.body, 3, 0) == Cut(0, 0, l, Done(0, 0, false));
  }

  lemma SignalPieces(n: nat, from: nat, to: nat)
    requires 0 < n && from < to < from + n
    ensures |Pieces(n, 1, 1, from, to, 0)| <= 3
  {
  }

  lemma SignalFlushes(n: nat, w: World, i: nat, r: nat, from: nat, to: nat)
    requires OnSignal(n, w.log, r, from, to) && Bounded(n, w.log) && i < |w.threads| && w.threads[i] == Grove(OneSignal(r, true, from, to), [])
    ensures Moves(n, w, Pass(i, 3, w.log), World(SignalRead(w.log, r), w.threads[i := Grove(OneSignal(r, true, to, to), [])]))
  {
    hide LaidSpan, After, AfterSpan, Reached;
    var b := OneSignal(r, true, from, to);
    SignalReached(n, w.log, r, from, to);
    SignalLeft(n, r, from, to);
    SignalBounded(n, w.log, r, from, to);
  }

  lemma SignalBounded(n: nat, log: seq<LogRing>, r: nat, from: nat, to: nat)
    requires OnSignal(n, log, r, from, to) && Bounded(n, log)
    ensures Bounded(n, SignalRead(log, r))
  {
    var log' := SignalRead(log, r);
    forall q | 0 <= q < |log'|
      ensures BoundedRing(n, |log'|, log'[q])
    {
      assert BoundedRing(n, |log|, log[q]);
    }
  }

  lemma SignalLeads(r: nat, to: nat)
    ensures Leading(OneSignal(r, false, to, to))
  {
    var b := OneSignal(r, false, to, to);
    assert LeadingSpan(false, b.body.sub.body) && Leading(b.body.sub);
    assert FreshSpan(true, b.body.rest);
    assert LeadingSpan(true, b.body);
  }

  /** The handler on ring 1 closes its interruption when all its words have been read. */
  lemma SignalLeaves(n: nat, w: World, i: nat, r: nat, to: nat)
    requires 0 < n && r < |w.log| && 1 < |w.log| && r != 1 && i < |w.threads| && w.threads[i] == Grove(OneSignal(r, true, to, to), [])
    requires OnlyOpen(w.log, r, 0) && w.log[r].pend[0].ring == 1
    ensures Moves(n, w, Step(i, Leave(r, 0)), World(LeaveLog(w.log, r, 0), w.threads[i := Grove(OneSignal(r, false, to, to), [])]))
  {
    var b, b', a := OneSignal(r, true, to, to), OneSignal(r, false, to, to), Leave(r, 0);
    assert Holds(b.body.sub, 1) && AwaySpan(b.body.rest, 1) && Holds(b, 1);
    assert LeaveOn(b.body.sub, 1) == b'.body.sub && LeaveOnSpan(b.body, 1) == b'.body;
    assert MayLeave(b.body.sub, 1) && MayLeaveSpan(b.body, 1) && MayLeave(b, 1);
    SignalLeads(r, to);
    assert Enabled(n, w.log, w.threads[i], a);
  }

  /** The rings when thread 2 has taken over ring 1. */
  function TwoTaken(): seq<LogRing>
  {
    [LogRing(0, 0, 1, 0, 0, [LogIntr(1, 0, 2, 2, false)]), LogRing(2, 2, 2, 1, 0, []), LogRing(0, 0, 2, 0, 0, [])]
  }

  lemma TwoTakenBounded(n: nat)
    requires 8 < n
    ensures Bounded(n, TwoTaken()) && Bounded(n, SecondLog(2, 3))
  {
    assert forall q | 0 <= q < 3 :: BoundedRing(n, 3, TwoTaken()[q]);
    assert forall q | 0 <= q < 3 :: BoundedRing(n, 3, SecondLog(2, 3)[q]);
  }

  lemma SecondLogIs()
    ensures HandlerLog(TwoTaken(), 2, 1, 1, true) == SecondLog(2, 3) && SignalRead(SecondLog(2, 3), 2) == SecondLog(3, 3)
    ensures SignalRead(FirstLog(0, 2, true), 0) == FirstLog(2, 2, true) && AcquireLog(FirstLog(2, 2, false), 1, 2, 1) == TwoTaken()
  {
    assert TwoTaken()[2].pend + [Recorded(TwoTaken(), 2, 1)] == [LogIntr(1, 0, 2, 0, true)];
    assert SignalRead(SecondLog(2, 3), 2)[2].pend == [LogIntr(1, 0, 3, 0, true)];
    assert SignalRead(FirstLog(0, 2, true), 0)[0].pend == [LogIntr(1, 0, 2, 0, true)];
  }

  /** Thread 1's handler logs, is read, and closes its interruption, which leaves its ring clean while
      the interruption is still recorded. */
  lemma FirstRuns(n: nat) returns (moves: seq<Move>)
    requires 8 < n
    ensures Runs(n, TwoThreads(), moves, World(FirstLog(2, 2, false), [Grove(OneSignal(0, false, 2, 2), []), Grove(Alone(2, 0, 0), [])]))
  {
    hide Moves, Runs, AllTraced, OneSignal, SignalRead, FirstLog;
    var w0, g2 := TwoThreads(), Grove(Alone(2, 0, 0), []);
    var w1, w2 := World(FirstLog(0, 2, true), [Grove(OneSignal(0, true, 0, 2), []), g2]), World(FirstLog(2, 2, true), [Grove(OneSignal(0, true, 2, 2), []), g2]);
    var w3 := World(FirstLog(2, 2, false), [Grove(OneSignal(0, false, 2, 2), []), g2]);
    moves := FirstStarts(n);
    FirstOnSignal(n);
    SecondLogIs();
    SignalFlushes(n, w1, 0, 0, 0, 2);
    assert w1.threads[0 := Grove(OneSignal(0, true, 2, 2), [])] == w2.threads;
    RunsOn(n, w0, moves, w1, Pass(0, 3, w1.log), w2);
    moves := moves + [Pass(0, 3, w1.log)];
    FirstLeft();
    SignalLeaves(n, w2, 0, 0, 2);
    assert w2.threads[0 := Grove(OneSignal(0, false, 2, 2), [])] == w3.threads;
    RunsOn(n, w0, moves, w2, Step(0, Leave(0, 0)), w3);
    moves := moves + [Step(0, Leave(0, 0))];
  }

  lemma FirstLeft()
    ensures OnlyOpen(FirstLog(2, 2, true), 0, 0) && FirstLog(2, 2, true)[0].pend[0].ring == 1 && LeaveLog(FirstLog(2, 2, true), 0, 0) == FirstLog(2, 2, false)
  {
    var log := FirstLog(2, 2, true);
    assert log[0].pend[0 := LogIntr(1, 0, 2, 2, false)] == [LogIntr(1, 0, 2, 2, false)];
  }

  lemma FirstOnSignal(n: nat)
    requires 8 < n
    ensures OnSignal(n, FirstLog(0, 2, true), 0, 0, 2) && Bounded(n, FirstLog(0, 2, true)) && OnSignal(n, SecondLog(2, 3), 2, 2, 3)
  {
    assert forall q | 0 <= q < 3 :: BoundedRing(n, 3, FirstLog(0, 2, true)[q]);
  }

  /** A handler of thread 2 has taken the ring over, logs a word, and is read. */
  lemma SecondRuns(n: nat) returns (moves: seq<Move>)
    requires 8 < n
    ensures Runs(n, World(TwoTaken(), [Grove(OneSignal(0, false, 2, 2), []), Grove(Alone(2, 0, 0), [])]), moves,
                 World(SecondLog(3, 3), [Grove(OneSignal(0, false, 2, 2), []), Grove(OneSignal(2, true, 3, 3), [])]))
  {
    hide Moves, Runs, OneSignal, Handling, Tracing, MayStart, SignalRead;
    var g1, g2 := Grove(OneSignal(0, false, 2, 2), []), Grove(Alone(2, 0, 0), []);
    var w0, w1 := World(TwoTaken(), [g1, g2]), World(SecondLog(2, 3), [g1, Grove(OneSignal(2, true, 2, 3), [])]);
    var w2 := World(SecondLog(3, 3), [g1, Grove(OneSignal(2, true, 3, 3), [])]);
    TwoTakenBounded(n);
    BeginsTraced(n, TwoTaken(), 2);
    SignalMayStart(n, TwoTaken(), 2, 1);
    RunsNone(n, w0);
    SecondLogIs();
    moves := HandlerMoves(n, w0, [], w0, 1, 2, 1, 1);
    assert w0.threads[1 := Grove(OneSignal(2, true, 2, 3), [])] == w1.threads;
    FirstOnSignal(n);
    SignalFlushes(n, w1, 1, 2, 2, 3);
    assert w1.threads[1 := Grove(OneSignal(2, true, 3, 3), [])] == w2.threads;
    RunsOn(n, w0, moves, w1, Pass(1, 3, w1.log), w2);
    moves := moves + [Pass(1, 3, w1.log)];
  }

  /** The code looks at the ring alone when it makes it clean, and at its state alone when it takes it
      over. So thread 1's handler can be read and close its interruption, a handler of thread 2 can then
      take over its ring, log, and be read, and the serializer's next pass over thread 1's ring, which
      comes at once to the interruption that is still recorded there, fails its assertion. */
  lemma TakenTooEarly(n: nat) returns (before: seq<Move>, w: World, after: seq<Move>, w': World)
    requires 8 < n
    ensures AllTraced(n, TwoThreads()) && Runs(n, TwoThreads(), before, w)
    ensures Clean(w.log, 1) && (forall i | 0 <= i < |w.threads| :: NotRooted(w.threads[i], 1)) && !Relabels(w.log, 0, 1, 2, 1)
    ensures Runs(n, World(AcquireLog(w.log, 1, 2, 1), w.threads), after, w')
    ensures var l := w'.log[0];
            l.pcons < |l.pend| && l.pend[l.pcons].at == l.cons && l.pend[l.pcons].ring == 1 < |w'.log| && !StartIsUnread(n, w'.log, l.pend[l.pcons])
  {
    hide Moves, Runs, AllTraced, Tracing;
    TwoThreadsBegins(n);
    before := FirstRuns(n);
    w := World(FirstLog(2, 2, false), [Grove(OneSignal(0, false, 2, 2), []), Grove(Alone(2, 0, 0), [])]);
    SecondLogIs();
    after := SecondRuns(n);
    w' := World(SecondLog(3, 3), [Grove(OneSignal(0, false, 2, 2), []), Grove(OneSignal(2, true, 3, 3), [])]);
    StaleStart(n, SecondLog(3, 3), LogIntr(1, 0, 2, 2, false));
    assert w.log[0].pend[0].ring == 1 && Below(w.log, 0, 0);
  }


  // ---- a run into a tree that the serializer cannot drain --------------------------------------

  /** Thread 1 on ring 0, before it has done anything; the signal rings are new, or its handlers'. */
  function NewRings(): seq<LogRing>
  {
    [LogRing(0, 0, 1, 0, 0, []), LogRing(0, 0, 0, 0, 0, []), LogRing(0, 0, 0, 0, 0, [])]
  }

  function HandlerRings(): seq<LogRing>
  {
    [LogRing(0, 0, 1, 0, 0, []), LogRing(0, 0, 1, 1, 0, []), LogRing(0, 0, 1, 2, 0, [])]
  }

  /** A handler on ring 1 has been read, has left, and the thread has gone on. */
  function AfterOne(): Bracket
  {
    Bracket(0, 0, true, Cut(0, 0, Bracket(1, 1, false, Done(2, 2, false)), Done(0, 1, false)))
  }

  function AfterOneLog(): seq<LogRing>
  {
    [LogRing(0, 1, 1, 0, 0, [LogIntr(1, 0, 2, 2, false)]), LogRing(2, 2, 1, 1, 0, []), LogRing(0, 0, 1, 2, 0, [])]
  }

  /** Another handler runs on ring 1. */
  function DuringTwo(): Bracket
  {
    Bracket(0, 0, true, Cut(0, 0, Bracket(1, 1, false, Done(2, 2, false)),
                            Cut(0, 1, Bracket(1, 1, true, Done(2, 3, false)), Done(1, 1, false))))
  }

  function DuringTwoLog(): seq<LogRing>
  {
    [LogRing(0, 1, 1, 0, 0, [LogIntr(1, 0, 2, 2, false), LogIntr(1, 1, 2, 0, true)]), LogRing(2, 3, 1, 1, 0, []), LogRing(0, 0, 1, 2, 0, [])]
  }

  /** It has been interrupted, on ring 2; `open2` and `open1` say who has not left yet. */
  function Nested(open1: bool, open2: bool, end: nat): Bracket
  {
    Bracket(0, 0, true, Cut(0, 0, Bracket(1, 1, false, Done(2, 2, true)),
                            Cut(0, 1, Bracket(1, 1, open1, Cut(2, 3, Bracket(2, 2, open2, Done(0, 1, false)), Done(3, end, false))),
                                Done(1, 1, false))))
  }

  function NestedLog(open1: bool, open2: bool, end: nat): seq<LogRing>
  {
    [LogRing(0, 1, 1, 0, 0, [LogIntr(1, 0, 2, 2, false), LogIntr(1, 1, 2, if open1 then 0 else end, open1)]),
     LogRing(2, end, 1, 1, 0, [LogIntr(2, 3, 0, if open2 then 0 else 1, open2)]), LogRing(0, 1, 1, 2, 0, [])]
  }

  lemma NewRingsTraced(n: nat)
    requires 8 < n
    ensures AllTraced(n, World(NewRings(), [Grove(Alone(0, 0, 0), [])])) && Grove(Alone(0, 0, 0), []) == Beginning(NewRings(), 0)
  {
    hide Tracing;
    assert forall q | 0 <= q < 3 :: BoundedRing(n, 3, NewRings()[q]);
    BeginsTraced(n, NewRings(), 0);
  }

  lemma OwnSignal(n: nat)
    requires 8 < n
    ensures var log := HandlerLog(HandlerRings(), 0, 1, 2, true);
            OnSignal(n, log, 0, 0, 2) && Bounded(n, log) && OnlyOpen(SignalRead(log, 0), 0, 0) && SignalRead(log, 0)[0].pend[0].ring == 1 &&
            PutLog(LeaveLog(SignalRead(log, 0), 0, 0), 0, 1) == AfterOneLog()
  {
    var log := HandlerLog(HandlerRings(), 0, 1, 2, true);
    assert log[0].pend == [LogIntr(1, 0, 0, 0, true)];
    assert forall q | 0 <= q < 3 :: BoundedRing(n, 3, log[q]);
    assert SignalRead(log, 0)[0].pend == [LogIntr(1, 0, 2, 0, true)];
    assert LeaveLog(SignalRead(log, 0), 0, 0)[0].pend == [LogIntr(1, 0, 2, 2, false)];
  }

  /** The first handler runs, and is read before it leaves. */
  lemma FirstOfTwo(n: nat, w: World, before: seq<Move>) returns (moves: seq<Move>)
    requires 8 < n && Runs(n, w, before, World(HandlerRings(), [Grove(Alone(0, 0, 0), [])])) && AllTraced(n, World(HandlerRings(), [Grove(Alone(0, 0, 0), [])]))
    ensures Runs(n, w, moves, World(AfterOneLog(), [Grove(AfterOne(), [])]))
  {
    hide Moves, Runs, AllTraced, Handling, MayStart, SignalRead, OnSignal, HandlerLog, Tracing, OneSignal;
    var w0 := World(HandlerRings(), [Grove(Alone(0, 0, 0), [])]);
    var log := HandlerLog(HandlerRings(), 0, 1, 2, true);
    TracedOne(n, w0, 0);
    SignalMayStart(n, HandlerRings(), 0, 2);
    moves := HandlerMoves(n, w, before, w0, 0, 0, 1, 2);
    OwnSignal(n);
    var w1, w2 := World(log, [Grove(OneSignal(0, true, 0, 2), [])]), World(SignalRead(log, 0), [Grove(OneSignal(0, true, 2, 2), [])]);
    assert w0.threads[0 := Grove(OneSignal(0, true, 0, 2), [])] == w1.threads && w1.threads[0 := Grove(OneSignal(0, true, 2, 2), [])] == w2.threads;
    SignalFlushes(n, w1, 0, 0, 0, 2);
    RunsOn(n, w, moves, w1, Pass(0, 3, log), w2);
    moves := moves + [Pass(0, 3, log)];
    SignalLeaves(n, w2, 0, 0, 2);
    var w3 := World(LeaveLog(w2.log, 0, 0), [Grove(OneSignal(0, false, 2, 2), [])]);
    assert w2.threads[0 := Grove(OneSignal(0, false, 2, 2), [])] == w3.threads;
    RunsOn(n, w, moves, w2, Step(0, Leave(0, 0)), w3);
    moves := moves + [Step(0, Leave(0, 0))];
    ThreadGoesOn(n, w3.log);
    RunsOn(n, w, moves, w3, Step(0, Put(0, 1)), World(AfterOneLog(), [Grove(AfterOne(), [])]));
    moves := moves + [Step(0, Put(0, 1))];
  }

  lemma ThreadGoesOn(n: nat, log: seq<LogRing>)
    requires 8 < n && 0 < |log| && PutLog(log, 0, 1) == AfterOneLog()
    ensures Moves(n, World(log, [Grove(OneSignal(0, false, 2, 2), [])]), Step(0, Put(0, 1)), World(AfterOneLog(), [Grove(AfterOne(), [])]))
  {
    hide Reached, Left, Drop, Grown, Flatten, Run, Laid, After, Ordered, Below;
    var b := OneSignal(0, false, 2, 2);
    assert AfterOneLog()[0] == log[0].(prod := log[0].prod + 1);
    assert Holds(b, 0) && PutOn(b, 0, 1) == AfterOne();
    assert Enabled(n, log, Grove(b, []), Put(0, 1));
  }

  /** Another handler starts on ring 1, and is interrupted. */
  lemma SecondMayStart(n: nat)
    requires 8 < n
    ensures MayStart(n, AfterOneLog(), Grove(AfterOne(), []), 0, 1) && HandlerLog(AfterOneLog(), 0, 1, 1, true) == DuringTwoLog()
    ensures Handling(AfterOneLog(), Grove(AfterOne(), []), 0, 1, 1, true) == Grove(DuringTwo(), [])
  {
    hide Reached, Left, Drop, Grown, Flatten, Run, Laid, After, Ordered, Below;
    var log, b, first := AfterOneLog(), AfterOne(), AfterOne().body.sub;
    assert AtTail(b, 0) && NoneOpen(first, 1) && NoneOpen(b, 1) && EndBefore(first, 0, 1) && EndBefore(b, 0, 1);
    assert log[0].pend + [Recorded(log, 0, 1)] == DuringTwoLog()[0].pend;
    assert EnterOn(b, 0, Handled(log, 1, 1, true)) == DuringTwo();
  }

  lemma ThirdMayStart(n: nat)
    requires 8 < n
    ensures MayStart(n, DuringTwoLog(), Grove(DuringTwo(), []), 1, 2) && HandlerLog(DuringTwoLog(), 1, 2, 1, true) == NestedLog(true, true, 3)
    ensures Handling(DuringTwoLog(), Grove(DuringTwo(), []), 1, 2, 1, true) == Grove(Nested(true, true, 3), [])
  {
    hide Reached, Left, Drop, Grown, Flatten, Run, Laid, After, Ordered, Below;
    var log, b := DuringTwoLog(), DuringTwo();
    var first, rest := b.body.sub, b.body.rest;
    var second, sub := rest.sub, Handled(log, 2, 1, true);
    assert NoneOpen(first, 1) && NoneOpen(first, 2) && NoneOpen(second, 2) && NoneOpenSpan(rest, 2) && NoneOpen(b, 2);
    assert AtTail(second, 1) && AtTailSpan(rest, 1) && AtTail(b, 1);
    assert EndBefore(first, 1, 3) && EndBefore(second, 1, 3) && EndBeforeSpan(rest, 1, 3) && EndBefore(b, 1, 3);
    assert log[1].pend + [Recorded(log, 1, 2)] == NestedLog(true, true, 3)[1].pend;
    var second' := Bracket(1, 1, true, Cut(2, 3, sub, Done(3, 3, false)));
    assert EnterOn(second, 1, sub) == second' && Mark(first, 1) == Bracket(1, 1, false, Done(2, 2, true));
    assert EnterOnSpan(rest, 1, sub) == Cut(0, 1, second', Done(1, 1, false));
    assert EnterOn(b, 1, sub) == Nested(true, true, 3);
  }

  lemma SecondLeaves(n: nat)
    requires 8 < n
    ensures Moves(n, World(NestedLog(true, true, 3), [Grove(Nested(true, true, 3), [])]), Step(0, Leave(1, 0)),
                  World(NestedLog(true, false, 3), [Grove(Nested(true, false, 3), [])]))
  {
    hide Reached, Left, Drop, Grown, Flatten, Run, Laid, After, Ordered;
    var log, b, b' := NestedLog(true, true, 3), Nested(true, true, 3), Nested(true, false, 3);
    var rest, rest' := b.body.rest, b'.body.rest;
    var second, second' := rest.sub, rest'.sub;
    assert OnlyOpen(log, 1, 0);
    assert LeaveLog(log, 1, 0)[1].pend == NestedLog(true, false, 3)[1].pend;
    assert Away(b.body.sub, 2) && NoneOpen(b.body.sub, 2) && Holds(second.body.sub, 2) && Holds(second, 2) && HoldsSpan(rest, 2) && !AwaySpan(rest, 2) && Holds(b, 2);
    assert MayLeave(second.body.sub, 2) && MayLeaveSpan(second.body, 2) && MayLeave(second, 2) && MayLeaveSpan(rest, 2) && MayLeave(b, 2);
    assert LeaveOn(second.body.sub, 2) == second'.body.sub && LeaveOnSpan(second.body, 2) == second'.body;
    assert LeaveOn(second, 2) == second' && LeaveOnSpan(rest, 2) == rest' && LeaveOn(b, 2) == b';
    assert Fresh(second'.body.sub) && Fresh(second') && FreshSpan(true, rest') && Leading(b'.body.sub) && Leading(b');
    assert Enabled(n, log, Grove(b, []), Leave(1, 0));
  }

  lemma FirstGoesOn(n: nat)
    requires 8 < n
    ensures Moves(n, World(NestedLog(true, false, 3), [Grove(Nested(true, false, 3), [])]), Step(0, Put(1, 1)),
                  World(NestedLog(true, false, 4), [Grove(Nested(true, false, 4), [])]))
  {
    hide Reached, Left, Drop, Grown, Flatten, Run, Laid, After, Ordered, Below;
    var log, b, b' := NestedLog(true, false, 3), Nested(true, false, 3), Nested(true, false, 4);
    var rest, rest' := b.body.rest, b'.body.rest;
    assert NoneOpen(b.body.sub, 1) && !AwaySpan(rest, 1) && Holds(rest.sub, 1) && HoldsSpan(rest, 1) && Holds(b, 1);
    assert PutOn(rest.sub, 1, 1) == rest'.sub && PutOnSpan(rest, 1, 1) == rest' && PutOn(b, 1, 1) == b';
    assert Enabled(n, log, Grove(b, []), Put(1, 1));
  }

  lemma FirstLeavesToo(n: nat)
    requires 8 < n
    ensures Moves(n, World(NestedLog(true, false, 4), [Grove(Nested(true, false, 4), [])]), Step(0, Leave(0, 1)),
                  World(NestedLog(false, false, 4), [Grove(Nested(false, false, 4), [])]))
  {
    hide Reached, Left, Drop, Grown, Flatten, Run, Laid, After, Ordered;
    var log, b, b' := NestedLog(true, false, 4), Nested(true, false, 4), Nested(false, false, 4);
    var rest, rest' := b.body.rest, b'.body.rest;
    assert OnlyOpen(log, 0, 1);
    assert LeaveLog(log, 0, 1)[0].pend == NestedLog(false, false, 4)[0].pend;
    assert NoneOpen(b.body.sub, 1) && !AwaySpan(rest, 1) && Holds(rest.sub, 1) && HoldsSpan(rest, 1) && Holds(b, 1);
    assert MayLeave(rest.sub, 1) && MayLeaveSpan(rest, 1) && MayLeave(b, 1);
    assert LeaveOn(rest.sub, 1) == rest'.sub && LeaveOnSpan(rest, 1) == rest' && LeaveOn(b, 1) == b';
    assert Fresh(rest'.sub.body.sub) && Fresh(rest'.sub) && FreshSpan(true, rest') && Leading(b'.body.sub) && Leading(b');
    assert Enabled(n, log, Grove(b, []), Leave(0, 1));
  }

  lemma StuckIs()
    ensures NestedLog(false, false, 4) == StuckLog() && Nested(false, false, 4) == Bracket(0, 0, true, Cut(0, 0, StuckFirst(), StuckRest()))
  {
  }

  /** The tree that the serializer cannot drain is one that the program gets into: a handler is read and
      leaves, its ring is used again, and the handler that uses it is interrupted. */
  lemma RunsIntoStuck(n: nat) returns (moves: seq<Move>)
    requires 8 < n
    ensures Beginning(NewRings(), 0) == Grove(Alone(0, 0, 0), []) && AllTraced(n, World(NewRings(), [Grove(Alone(0, 0, 0), [])]))
    ensures Runs(n, World(NewRings(), [Grove(Alone(0, 0, 0), [])]), moves,
                 World(StuckLog(), [Grove(Bracket(0, 0, true, Cut(0, 0, StuckFirst(), StuckRest())), [])]))
  {
    hide Moves, Runs, AllTraced, Handling, MayStart, HandlerLog, Tracing, Nested, NestedLog, DuringTwo, AfterOne;
    NewRingsTraced(n);
    var w0 := World(NewRings(), [Grove(Alone(0, 0, 0), [])]);
    moves := Acquires(n);
    var w1 := World(HandlerRings(), w0.threads);
    RunKeeps(n, w0, moves, w1);
    moves := FirstOfTwo(n, w0, moves);
    var w2, w3 := World(AfterOneLog(), [Grove(AfterOne(), [])]), World(DuringTwoLog(), [Grove(DuringTwo(), [])]);
    RunKeeps(n, w0, moves, w2);
    TracedOne(n, w2, 0);
    SecondMayStart(n);
    moves := HandlerMoves(n, w0, moves, w2, 0, 0, 1, 1);
    assert w2.threads[0 := Grove(DuringTwo(), [])] == w3.threads;
    RunKeeps(n, w0, moves, w3);
    TracedOne(n, w3, 0);
    ThirdMayStart(n);
    moves := HandlerMoves(n, w0, moves, w3, 0, 1, 2, 1);
    assert w3.threads[0 := Grove(Nested(true, true, 3), [])] == [Grove(Nested(true, true, 3), [])];
    moves := StuckEnds(n, w0, moves);
    StuckIs();
  }

  lemma Acquires(n: nat) returns (moves: seq<Move>)
    requires 8 < n
    ensures Runs(n, World(NewRings(), [Grove(Alone(0, 0, 0), [])]), moves, World(HandlerRings(), [Grove(Alone(0, 0, 0), [])]))
  {
    hide Moves, Runs;
    var w0 := World(NewRings(), [Grove(Alone(0, 0, 0), [])]);
    var w1 := World(AcquireLog(NewRings(), 1, 1, 1), w0.threads);
    RunsNone(n, w0);
    FreshAcquires(n, w0, 0, 1, 1);
    RunsOn(n, w0, [], w0, Step(0, Acquire(1, 1, 1)), w1);
    moves := [] + [Step(0, Acquire(1, 1, 1))];
    FreshAcquires(n, w1, 0, 2, 2);
    assert AcquireLog(w1.log, 2, 1, 2) == HandlerRings();
    RunsOn(n, w0, moves, w1, Step(0, Acquire(2, 1, 2)), World(HandlerRings(), w0.threads));
    moves := moves + [Step(0, Acquire(2, 1, 2))];
  }

  lemma StuckEnds(n: nat, w0: World, before: seq<Move>) returns (moves: seq<Move>)
    requires 8 < n && Runs(n, w0, before, World(NestedLog(true, true, 3), [Grove(Nested(true, true, 3), [])]))
    ensures Runs(n, w0, moves, World(NestedLog(false, false, 4), [Grove(Nested(false, false, 4), [])]))
  {
    hide Moves, Runs, Nested, NestedLog;
    moves := before;
    SecondLeaves(n);
    RunsOn(n, w0, moves, World(NestedLog(true, true, 3), [Grove(Nested(true, true, 3), [])]), Step(0, Leave(1, 0)),
           World(NestedLog(true, false, 3), [Grove(Nested(true, false, 3), [])]));
    moves := moves + [Step(0, Leave(1, 0))];
    FirstGoesOn(n);
    RunsOn(n, w0, moves, World(NestedLog(true, false, 3), [Grove(Nested(true, false, 3), [])]), Step(0, Put(1, 1)),
           World(NestedLog(true, false, 4), [Grove(Nested(true, false, 4), [])]));
    moves := moves + [Step(0, Put(1, 1))];
    FirstLeavesToo(n);
    RunsOn(n, w0, moves, World(NestedLog(true, false, 4), [Grove(Nested(true, false, 4), [])]), Step(0, Leave(0, 1)),
           World(NestedLog(false, false, 4), [Grove(Nested(false, false, 4), [])]));
    moves := moves + [Step(0, Leave(0, 1))];
  }

  // ---- an interruption recorded where a finished span of its ring ends ------------------------------------

  /** A handler on ring 1 has logged two words and has returned; the thread has logged one word. */
  function OneDone(words: nat): Bracket
  {
    Bracket(0, 0, true, Cut(0, 0, Bracket(1, 1, false, Done(0, 2, false)), Done(0, words, false)))
  }

  function OneDoneLog(words: nat): seq<LogRing>
  {
    [LogRing(0, words, 1, 0, 0, [LogIntr(1, 0, 0, 2, false)]), LogRing(0, 2, 1, 1, 0, []), LogRing(0, 0, 1, 2, 0, [])]
  }

  /** Another handler has got ring 1, and has not logged anything yet. */
  function NextBegun(): Bracket
  {
    Bracket(0, 0, true, Cut(0, 0, Bracket(1, 1, false, Done(0, 2, false)),
                            Cut(0, 1, Bracket(1, 1, true, Done(2, 2, false)), Done(1, 1, false))))
  }

  function NextBegunLog(): seq<LogRing>
  {
    [LogRing(0, 1, 1, 0, 0, [LogIntr(1, 0, 0, 2, false), LogIntr(1, 1, 2, 0, true)]), LogRing(0, 2, 1, 1, 0, []), LogRing(0, 0, 1, 2, 0, [])]
  }

  /** A third is about to interrupt it, on ring 2. */
  function ThirdHangs(): Grove
  {
    Grove(NextBegun(), [Bracket(2, 2, true, Done(0, 0, false))])
  }

  /** What the passes find once the third has recorded its interruption and has logged a word. */
  function ThirdMoved(): Bracket
  {
    Bracket(0, 0, true, Cut(0, 0, Bracket(1, 1, false, Cut(0, 2, Bracket(2, 2, true, Done(0, 1, false)), Done(2, 2, false))),
                            Cut(0, 1, Bracket(1, 1, true, Done(2, 2, false)), Done(1, 1, false))))
  }

  lemma OneMayReturn(n: nat)
    requires 8 < n
    ensures MayStart(n, HandlerRings(), Grove(Alone(0, 0, 0), []), 0, 1)
    ensures Handling(HandlerRings(), Grove(Alone(0, 0, 0), []), 0, 1, 2, true) == Grove(OneSignal(0, true, 0, 2), [])
    ensures Handling(HandlerRings(), Grove(Alone(0, 0, 0), []), 0, 1, 2, false) == Grove(OneDone(0), [])
    ensures HandlerLog(HandlerRings(), 0, 1, 2, false) == OneDoneLog(0)
  {
    var log := HandlerRings();
    SignalMayStart(n, log, 0, 2);
    assert EnterOn(Alone(0, 0, 0), 0, Handled(log, 1, 2, false)) == OneDone(0);
    var log1 := HandlerLog(log, 0, 1, 2, true);
    assert log1[0].pend == [LogIntr(1, 0, 0, 0, true)];
    assert LeaveLog(log1, 0, 0)[0].pend == [LogIntr(1, 0, 0, 2, false)];
  }

  /** The first handler runs and returns, and the thread goes on. */
  lemma FirstIsDone(n: nat, w: World, before: seq<Move>) returns (moves: seq<Move>)
    requires 8 < n && Runs(n, w, before, World(HandlerRings(), [Grove(Alone(0, 0, 0), [])])) && AllTraced(n, World(HandlerRings(), [Grove(Alone(0, 0, 0), [])]))
    ensures Runs(n, w, moves, World(OneDoneLog(1), [Grove(OneDone(1), [])]))
  {
    hide Runs, AllTraced, Handling, MayStart, HandlerLog, Tracing, OneSignal, OneDone, OneDoneLog, Drop, Left, Reached, Grown;
    var log, g := HandlerRings(), Grove(Alone(0, 0, 0), []);
    var w0, w1, w2 := World(log, [g]), World(HandlerLog(log, 0, 1, 2, true), [Grove(OneSignal(0, true, 0, 2), [])]), World(OneDoneLog(0), [Grove(OneDone(0), [])]);
    TracedOne(n, w0, 0);
    OneMayReturn(n);
    moves := HandlerMoves(n, w, before, w0, 0, 0, 1, 2);
    assert w0.threads[0 := Grove(OneSignal(0, true, 0, 2), [])] == w1.threads;
    HandlerGoesOn(n, log, g, 0, 1, 2, 2);
    assert w1.threads[0 := Grove(OneDone(0), [])] == w2.threads;
    LeaveIs(log);
    RunsOn(n, w, moves, w1, Step(0, Leave(0, 0)), w2);
    moves := moves + [Step(0, Leave(0, 0))];
    OneGoesOn(n);
    RunsOn(n, w, moves, w2, Step(0, Put(0, 1)), World(OneDoneLog(1), [Grove(OneDone(1), [])]));
    moves := moves + [Step(0, Put(0, 1))];
  }

  lemma LeaveIs(log: seq<LogRing>)
    requires log == HandlerRings()
    ensures LeaveLog(HandlerLog(log, 0, 1, 2, true), 0, 0) == HandlerLog(log, 0, 1, 2, false) && |log[0].pend| == 0
  {
  }

  lemma OneGoesOn(n: nat)
    requires 8 < n
    ensures Moves(n, World(OneDoneLog(0), [Grove(OneDone(0), [])]), Step(0, Put(0, 1)), World(OneDoneLog(1), [Grove(OneDone(1), [])]))
  {
    hide Reached, Left, Drop, Grown, Flatten, Run, Laid, After, Ordered, Below;
    var log, b := OneDoneLog(0), OneDone(0);
    assert Holds(b, 0) && PutOn(b, 0, 1) == OneDone(1);
    assert Enabled(n, log, Grove(b, []), Put(0, 1));
  }

  lemma NextMayStart(n: nat)
    requires 8 < n
    ensures MayStart(n, OneDoneLog(1), Grove(OneDone(1), []), 0, 1) && EnterLog(OneDoneLog(1), 0, 1) == NextBegunLog()
    ensures Handling(OneDoneLog(1), Grove(OneDone(1), []), 0, 1, 0, true) == Grove(NextBegun(), [])
  {
    hide Reached, Left, Drop, Grown, Flatten, Run, Laid, After, Ordered, Below;
    var log, b, first := OneDoneLog(1), OneDone(1), OneDone(1).body.sub;
    assert AtTail(b, 0) && NoneOpen(first, 1) && NoneOpen(b, 1) && EndBefore(first, 0, 1) && EndBefore(b, 0, 1);
    assert log[0].pend + [Recorded(log, 0, 1)] == NextBegunLog()[0].pend;
    assert EnterOn(b, 0, Handled(log, 1, 0, true)) == NextBegun();
  }

  lemma ThirdMayHang(n: nat)
    requires 8 < n
    ensures Moves(n, World(NextBegunLog(), [Grove(NextBegun(), [])]), Step(0, Take(1, 2)), World(NextBegunLog(), [ThirdHangs()]))
  {
    hide Reached, Left, Drop, Grown, Flatten, Run, Laid, After, Ordered;
    var log, b := NextBegunLog(), NextBegun();
    assert AtTail(b.body.rest.sub, 1) && NoneOpen(b.body.sub, 1) && AtTailSpan(b.body.rest, 1) && AtTail(b, 1);
    assert Enabled(n, log, Grove(b, []), Take(1, 2));
    assert [] + [Starting(log, 2)] == ThirdHangs().hung;
    assert [Grove(b, [])][0 := ThirdHangs()] == [ThirdHangs()];
  }

  lemma ThirdMayRecord()
    ensures MayRecord(NextBegunLog(), ThirdHangs(), 1) && !Untouched(NextBegunLog(), 0, 1)
  {
    hide Flatten, Run, Laid, After;
    var log, b := NextBegunLog(), NextBegun();
    assert AtTail(b.body.rest.sub, 1) && NoneOpen(b.body.sub, 1) && AtTailSpan(b.body.rest, 1) && AtTail(b, 1);
    assert Outer(ThirdHangs()) == Grove(b, []);
    assert log[0].pend[0].ring == 1 && Below(log, 0, 0);
  }

  lemma ThirdIsMoved(n: nat)
    requires 8 < n
    ensures Flushable(n, TouchLog(NextBegunLog(), 1, 2, 1), ThirdMoved())
  {
    var log, t := TouchLog(NextBegunLog(), 1, 2, 1), ThirdMoved();
    assert EnterLog(NextBegunLog(), 1, 2)[1].pend == [LogIntr(2, 2, 0, 0, true)];
    assert forall q | 0 <= q < 3 :: BoundedRing(n, 3, log[q]);
    MovedIsLaid(log);
    MovedIsComing();
  }

  lemma MovedIsComing()
    ensures Coming(ThirdMoved())
  {
    var t := ThirdMoved();
    var first, rest := t.body.sub, t.body.rest;
    assert Ripe(first.body.sub) && RipeSpan(first.body.rest) && Coming(first);
    assert Ripe(rest.sub) && RipeSpan(rest);
  }

  lemma MovedIsLaid(log: seq<LogRing>)
    requires log == [LogRing(0, 1, 1, 0, 0, [LogIntr(1, 0, 0, 2, false), LogIntr(1, 1, 2, 0, true)]),
                     LogRing(0, 2, 1, 1, 0, [LogIntr(2, 2, 0, 0, true)]), LogRing(0, 1, 1, 2, 0, [])]
    ensures LaidRoot(log, ThirdMoved())
  {
    var t := ThirdMoved();
    var first, rest := t.body.sub, t.body.rest;
    var c1 := PassIntr(Start(log), 0, 0);
    var c2 := PassIntr(c1, 1, 2);
    assert Laid(log, log[1].pend[0], first.body.sub, c2);
    var c3 := After(first.body.sub, c2);
    assert LaidSpan(log, 1, 2, false, Done(2, 2, false), c3);
    assert Laid(log, log[0].pend[0], first, c1);
    var c4 := After(first, c1);
    var c5 := PassIntr(c4, 0, 1);
    assert Laid(log, log[0].pend[1], rest.sub, c5);
    assert LaidSpan(log, 0, 1, true, Done(1, 1, false), After(rest.sub, c5));
    assert LaidSpan(log, 0, 1, true, rest, c4);
  }

  lemma SmallIndex(n: nat, x: nat)
    requires x < n
    ensures x % n == x
  {
  }

  /** Two words of ring 1, two vectors. */
  lemma FirstPieces(n: nat, ring: nat, depth: nat, to: nat, d: nat)
    requires 8 < n && 0 < to < 8 && depth != d
    ensures Pieces(n, ring, depth, 0, to, d) == [Depth(ring, depth), Words(ring, 0, to)]
  {
    SmallIndex(n, 0);
    SmallIndex(n, to);
  }

  /** What the get pass takes: the first handler's words, and then at once the third's. */
  lemma ThirdIsPlanned(n: nat, room: nat)
    requires 8 < n && 4 <= room
    ensures var t := ThirdMoved();
            Drop(t).0 == t && Emit(n, t, room, 0).vecs == [Depth(1, 1), Words(1, 0, 2), Depth(2, 2), Words(2, 0, 1)]
  {
    hide Pieces;
    var t := ThirdMoved();
    var first := t.body.sub;
    var third := first.body.sub;
    FirstPieces(n, 1, 1, 2, 0);
    FirstPieces(n, 2, 2, 1, 1);
    assert Drop(first).0 == first;
    assert EmitSpan(n, 2, 2, third.body, room - 2, 1) == Out([Depth(2, 2), Words(2, 0, 1)], room - 4, 2);
    var e := Emit(n, third, room - 2, 1);
    assert e == Out([Depth(2, 2), Words(2, 0, 1)], -1, 2);
    var vs := [Depth(1, 1), Words(1, 0, 2)];
    assert Lead(n, 1, 1, 0, 2, room, 0) == Some(vs);
    EmitStep(n, 1, 1, first.body, room, 0, vs, e);
    assert vs + e.vecs == [Depth(1, 1), Words(1, 0, 2), Depth(2, 2), Words(2, 0, 1)];
    var f := Emit(n, first, room, 0);
    EmitStep(n, 0, 0, t.body, room, 0, [], f);
    assert [] + f.vecs == f.vecs;
  }

  /** And what a get pass would have taken before: the first handler's words, and then the thread's. */
  lemma NextIsPlanned(n: nat, room: nat)
    requires 8 < n && 4 <= room
    ensures Drop(NextBegun()).0 == NextBegun()
    ensures Emit(n, NextBegun(), room, 0).vecs == [Depth(1, 1), Words(1, 0, 2), Depth(0, 0), Words(0, 0, 1)]
  {
    hide Pieces;
    var t := NextBegun();
    var first, rest := t.body.sub, t.body.rest;
    FirstPieces(n, 1, 1, 2, 0);
    FirstPieces(n, 0, 0, 1, 1);
    var f := Emit(n, first, room, 0);
    assert f == Out([Depth(1, 1), Words(1, 0, 2)], room - 2, 1);
    var vs := [Depth(0, 0), Words(0, 0, 1)];
    assert Lead(n, 0, 0, 0, 1, room - 2, 1) == Some(vs);
    var e := Emit(n, rest.sub, room - 4, 0);
    assert e.vecs == [] && e.residue == -1;
    EmitStep(n, 0, 0, rest, room - 2, 1, vs, e);
    var r := EmitSpan(n, 0, 0, rest, room - 2, 1);
    assert r.vecs == vs + [] == vs;
    EmitStep(n, 0, 0, t.body, room, 0, [], f);
    assert [] + f.vecs + r.vecs == [Depth(1, 1), Words(1, 0, 2), Depth(0, 0), Words(0, 0, 1)];
  }

  lemma ReadFour(a: Vec, b: Vec, c: Vec, d: Vec)
    requires a.Depth? && b.Words? && c.Depth? && d.Words?
    ensures Read([a, b, c, d], 0) == Run(b.ring, a.depth, b.from, b.from + b.len) + Run(d.ring, c.depth, d.from, d.from + d.len)
  {
    var vs := [a, b, c, d];
    assert vs[1..] == [b, c, d] && [b, c, d][1..] == [c, d] && [c, d][1..] == [d] && [d][1..] == [];
    assert Read([d], c.depth) == Run(d.ring, c.depth, d.from, d.from + d.len) + [];
    assert Read([c, d], a.depth) == Read([d], c.depth);
    assert Read([b, c, d], a.depth) == Run(b.ring, a.depth, b.from, b.from + b.len) + Read([c, d], a.depth);
  }

  lemma TwoWords()
    ensures Run(1, 1, 0, 2) == [Slot(1, 1, 0), Slot(1, 1, 1)] && Run(0, 0, 0, 1) == [Slot(0, 0, 0)] && Run(2, 2, 0, 1) == [Slot(2, 2, 0)]
    ensures Run(0, 0, 0, 0) == [] && Run(0, 0, 1, 1) == [] && Run(1, 1, 2, 2) == [] && Run(2, 2, 0, 0) == []
  {
    assert Run(1, 1, 1, 2) == [Slot(1, 1, 1)] + Run(1, 1, 2, 2);
  }

  lemma ThirdFlattens()
    ensures FlattenAll(ThirdHangs()) == [Slot(1, 1, 0), Slot(1, 1, 1), Slot(0, 0, 0)] && LoggedSince(NextBegunLog(), ThirdHangs(), 1) == [Slot(0, 0, 0)]
    ensures Flatten(ThirdMoved()) == [Slot(1, 1, 0), Slot(1, 1, 1), Slot(2, 2, 0), Slot(0, 0, 0)]
  {
    hide Run;
    TwoWords();
    var b, t := NextBegun(), ThirdMoved();
    var first := b.body.sub;
    assert FlattenSpan(0, 0, b.body.rest) == [Slot(0, 0, 0)] + [] + [];
    assert Flatten(b) == [] + [Slot(1, 1, 0), Slot(1, 1, 1)] + [Slot(0, 0, 0)];
    assert Others(ThirdHangs().hung) == [] && Last(ThirdHangs().hung) == Bracket(2, 2, true, Done(0, 0, false));
    assert FlattenHung(ThirdHangs().hung) == [] + [];
    assert PartsOf(Outer(ThirdHangs())) == [b] && Others([b]) == [] && Last([b]) == b;
    assert !EndBefore(first, 1, 2) && !EndBefore(b, 1, 2) && IsTouched(first, 1, 2);
    assert Since(b, 1, 2) == [] + [Slot(0, 0, 0)];
    assert FlattenSpan(1, 1, t.body.sub.body) == [Slot(1, 1, 0), Slot(1, 1, 1)] + [Slot(2, 2, 0)] + [];
    assert FlattenSpan(0, 0, t.body.rest) == [Slot(0, 0, 0)] + [] + [];
  }

  /** Before it takes a vector, rvp_ring_discard_iovs_between asserts that the next one is a change to the ring's
      depth, if there is to be one, or else that it points at the ring's consumer (llvm/ngrt/serialize.c:348-364). */
  predicate ReplaysOn(n: nat, log: seq<LogRing>, r: nat, d: nat, vecs: seq<Iovec>)
    requires 0 < n && r < |log|
  {
    if log[r].depth != d then |vecs| > 1 ==> vecs[0] == IoDepth(r)
    else vecs != [] ==> vecs[0].IoWords? && vecs[0].ring == r && vecs[0].base == Idx(n, log[r].cons)
  }

  /** A handler logs two words on ring 1 and returns; the thread logs a word; another handler gets ring 1, and before
      it has logged anything a third interrupts it, on ring 2. The third's interruption is recorded where the first's
      span ends. The third logs a word, and a flush reads that word before the thread's, though it was logged after.
      And if a flush was under way, the discard pass fails its assertion, as the vectors go on with the thread's word. */
  lemma ReadTooSoon(n: nat) returns (before: seq<Move>, w: World, t: Bracket)
    requires 8 < n
    ensures Beginning(NewRings(), 0) == Grove(Alone(0, 0, 0), []) && AllTraced(n, World(NewRings(), [Grove(Alone(0, 0, 0), [])]))
    ensures Runs(n, World(NewRings(), [Grove(Alone(0, 0, 0), [])]), before, w) && |w.threads| == 1
    ensures var g, log := w.threads[0], w.log;
            Tracing(n, log, g) && MayRecord(log, g, 1) && Top(g).ring == 2 && !Untouched(log, 0, 1) &&
            FlattenAll(g) == [Slot(1, 1, 0), Slot(1, 1, 1), Slot(0, 0, 0)] && !KeepsOrder(log, g, 1, 1)
    ensures Flushable(n, TouchLog(w.log, 1, 2, 1), t) && Drop(t).0 == t
    ensures forall room | 4 <= room ::
              Read(Emit(n, t, room, 0).vecs, 0) == [Slot(1, 1, 0), Slot(1, 1, 1), Slot(2, 2, 0)] && Grown(t, t) &&
              Flatten(Left(n, t, t, room, 0)) == [Slot(0, 0, 0)]
    ensures forall room | 4 <= room ::
              var vecs := Emit(n, Drop(w.threads[0].tree).0, room, 0).vecs;
              Read(vecs, 0) == [Slot(1, 1, 0), Slot(1, 1, 1), Slot(0, 0, 0)] && |vecs| == 4 &&
              Read(vecs[..2], 0) == [Slot(1, 1, 0), Slot(1, 1, 1)] && !ReplaysOn(n, TouchLog(w.log, 1, 2, 1), 2, 1, ToIovecs(n, vecs[2..]))
  {
    hide Moves, Runs, AllTraced, Tracing, Flushable, NextBegun, NextBegunLog, OneDone, OneDoneLog, ThirdHangs, ThirdMoved, Emit, Left, Drop, Grown, Flatten, FlattenAll;
    hide MayRecord, Untouched, KeepsOrder, Read, TouchLog, LoggedSince, ToIovecs, ReplaysOn, Handling, MayStart;
    NewRingsTraced(n);
    before, w := ThirdArrives(n);
    t := ThirdMoved();
    TracedOne(n, w, 0);
    ThirdMayRecord();
    ThirdFlattens();
    ThirdIsMoved(n);
    ThirdRoot();
    InOrderExactly(n, w.log, w.threads[0], 1, 1);
    ThirdIsPlanned(n, 4);
    forall room | 4 <= room
      ensures Read(Emit(n, t, room, 0).vecs, 0) == [Slot(1, 1, 0), Slot(1, 1, 1), Slot(2, 2, 0)] && Grown(t, t)
      ensures Flatten(Left(n, t, t, room, 0)) == [Slot(0, 0, 0)]
    {
      ThirdIsRead(n, room);
    }
    forall room | 4 <= room
      ensures var vecs := Emit(n, Drop(w.threads[0].tree).0, room, 0).vecs;
              Read(vecs, 0) == [Slot(1, 1, 0), Slot(1, 1, 1), Slot(0, 0, 0)] && |vecs| == 4 &&
              Read(vecs[..2], 0) == [Slot(1, 1, 0), Slot(1, 1, 1)] && !ReplaysOn(n, TouchLog(w.log, 1, 2, 1), 2, 1, ToIovecs(n, vecs[2..]))
    {
      NextIsStale(n, room);
    }
  }

  lemma ThirdRoot()
    ensures ThirdHangs().tree == NextBegun() && Top(ThirdHangs()).ring == 2 && ThirdHangs().tree.ring == 0 && |NextBegunLog()| == 3
    ensures NextBegunLog()[2].prod + 1 < NextBegunLog()[2].cons + 9
  {
  }

  lemma ThirdIsRead(n: nat, room: nat)
    requires 8 < n && 4 <= room
    ensures var t := ThirdMoved();
            Read(Emit(n, t, room, 0).vecs, 0) == [Slot(1, 1, 0), Slot(1, 1, 1), Slot(2, 2, 0)] && Grown(t, t) &&
            Flatten(Left(n, t, t, room, 0)) == [Slot(0, 0, 0)]
  {
    hide Emit, Left, Grown, Run, Read, Flatten, ThirdMoved, Bounded;
    var t, log := ThirdMoved(), TouchLog(NextBegunLog(), 1, 2, 1);
    ThirdIsPlanned(n, room);
    ReadFour(Depth(1, 1), Words(1, 0, 2), Depth(2, 2), Words(2, 0, 1));
    TwoWords();
    ThirdIsMoved(n);
    ThirdFlattens();
    MovedIsOrdered(n, log, t);
    GrownSelf(t, n);
    Conservation(n, t, t, room, 0);
    var a, b := [Slot(1, 1, 0), Slot(1, 1, 1), Slot(2, 2, 0)], Flatten(Left(n, t, t, room, 0));
    assert Flatten(t) == a + [Slot(0, 0, 0)];
    assert b == (a + b)[3..];
  }

  lemma MovedIsOrdered(n: nat, log: seq<LogRing>, t: Bracket)
    requires Flushable(n, log, t)
    ensures Ordered(n, t)
  {
    hide Laid;
    StartIsShort(n, log);
    LaidIsOrdered(n, log, RootIntr(log, t.ring), t, Start(log));
  }

  lemma NextIsStale(n: nat, room: nat)
    requires 8 < n && 4 <= room
    ensures var vecs := Emit(n, Drop(NextBegun()).0, room, 0).vecs;
            Read(vecs, 0) == [Slot(1, 1, 0), Slot(1, 1, 1), Slot(0, 0, 0)] && |vecs| == 4 &&
            Read(vecs[..2], 0) == [Slot(1, 1, 0), Slot(1, 1, 1)] &&
            2 < |TouchLog(NextBegunLog(), 1, 2, 1)| && !ReplaysOn(n, TouchLog(NextBegunLog(), 1, 2, 1), 2, 1, ToIovecs(n, vecs[2..]))
  {
    hide Emit, Drop, Run, NextBegun;
    NextIsPlanned(n, room);
    ReadFour(Depth(1, 1), Words(1, 0, 2), Depth(0, 0), Words(0, 0, 1));
    TwoWords();
    var vecs := Emit(n, Drop(NextBegun()).0, room, 0).vecs;
    assert vecs[..2] == [Depth(1, 1), Words(1, 0, 2)] && vecs[2..] == [Depth(0, 0), Words(0, 0, 1)];
    assert [Depth(1, 1), Words(1, 0, 2)][1..] == [Words(1, 0, 2)] && [Words(1, 0, 2)][1..] == [];
    assert Read([Words(1, 0, 2)], 1) == Run(1, 1, 0, 2) + [];
  }

  /** The run up to there. */
  lemma ThirdArrives(n: nat) returns (moves: seq<Move>, w: World)
    requires 8 < n
    ensures Runs(n, World(NewRings(), [Grove(Alone(0, 0, 0), [])]), moves, w) && AllTraced(n, w)
    ensures w == World(NextBegunLog(), [ThirdHangs()])
  {
    hide Moves, Runs, AllTraced, Tracing, NextBegun, NextBegunLog, OneDone, OneDoneLog, ThirdHangs, Handling, MayStart;
    NewRingsTraced(n);
    var w0 := World(NewRings(), [Grove(Alone(0, 0, 0), [])]);
    moves := Acquires(n);
    RunKeeps(n, w0, moves, World(HandlerRings(), w0.threads));
    moves := FirstIsDone(n, w0, moves);
    var w1, w2 := World(OneDoneLog(1), [Grove(OneDone(1), [])]), World(NextBegunLog(), [Grove(NextBegun(), [])]);
    RunKeeps(n, w0, moves, w1);
    TracedOne(n, w1, 0);
    NextMayStart(n);
    moves := StartMoves(n, w0, moves, w1, 0, 0, 1);
    assert w1.threads[0 := Grove(NextBegun(), [])] == w2.threads;
    ThirdMayHang(n);
    w := World(NextBegunLog(), [ThirdHangs()]);
    RunsOn(n, w0, moves, w2, Step(0, Take(1, 2)), w);
    moves := moves + [Step(0, Take(1, 2))];
    RunKeeps(n, w0, moves, w);
  }
}
