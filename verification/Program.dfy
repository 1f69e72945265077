/** A traced program from its start: threads, handlers that interrupt them and each other between any two
    statements, and the serializer (llvm/ngrt/rvpsignal.c, llvm/ngrt/ring.h, llvm/ngrt/serialize.c). */
module Program {
  import opened Basics
  import opened EventTree
  import opened Plans
  import opened EventLog
  import opened TraceFile
  import opened Serializer
  import opened Producers
  import opened Threads
  import opened Tracer
  import opened Runs
  import opened Spines
  import opened Handlers

  lemma ConsistentIsTraced(n: nat, rings: seq<Ring>, log: seq<LogRing>, out: seq<Item>, start: LastCtx, lc: LastCtx,
                           fl: Flush, seen: Bracket, room: nat, h: History)
    requires 0 < n && Consistent(n, rings, log, out, start, lc, fl, seen, room, h)
    ensures AllTraced(n, World(log, h.threads)) && |h.threads| == |h.logged|
  {
    hide Tracing, TaggedAll, Wrote, ShownIs, InFlight, Distinct, Header, Taken, FlattenAll;
    KeptSizes(n, rings, log, h.threads, h.logged, h.done);
    forall i | 0 <= i < |h.threads|
      ensures Tracing(n, log, h.threads[i])
    {
      KeptOne(n, rings, log, h.threads, h.logged, h.done, i);
      KeptIsTraced(n, rings, log, h.threads[i], h.logged[i], h.done[i]);
    }
  }

  /** A step puts words only for what the innermost code, or a returning handler, logs. */
  lemma WhatIsPut(n: nat, s: Scene, i: nat, d: Deed)
    requires May(n, s, i, d) && !d.HandsBack? && i < |s.frames| && (d.Records? || d.LogsExit? || d.Closes? ==> s.frames[i] != [])
    ensures ActOf(s, i, d).Put? <==> d.Logs? || d.LogsExit?
    ensures d.Logs? ==> ActOf(s, i, d).ring == Current(s.world.threads[i].tree.ring, s.frames[i]) && ActOf(s, i, d).count == d.k
    ensures d.LogsExit? ==> ActOf(s, i, d).count == d.k > 0
  {
    hide Relabels, Untouched, Free, Clean;
  }

  class Process {
    const session: Session
    /** The runs of the handler wrapper on each thread. */
    ghost var frames: seq<seq<Frame>>

    ghost function Now(): Scene
      reads this, session, session.forest
    {
      Scene(World(session.forest.log, session.history.threads), frames)
    }

    ghost predicate Valid()
      reads this, session, session.forest
    {
      session.Valid() && Inv(session.forest.size, Now())
    }

    /** The threads have just begun. */
    constructor (f: EventForest, lc0: LastCtx, ghost ts: seq<Grove>)
      requires f.Valid() && f.out == [] && JustBegun(f.size, Scene(World(f.log, ts), seq(|ts|, i => [])))
      ensures Valid() && session.forest == f && session.flush.phase.Idle? && session.history.threads == ts && session.start == lc0
      ensures frames == seq(|ts|, i => []) && fresh(session)
    {
      hide Inv, Consistent, Rep, Tracing;
      FreshIsOk(f.size, Scene(World(f.log, ts), seq(|ts|, i => [])));
      session := new Session(f, lc0, ts);
      frames := seq(|ts|, i => []);
    }

    /** A statement of the wrapper, or of the code that it runs, on thread `i`: what it does to the rings
        is `a`. Of the rings only what `May` says is asked: what the code sees to, and two things that it does not,
        a true label for a ring that is taken over, and that a record touches no finished span of its ring.
        What the innermost code logs comes last in the order of the thread's log. */
    method Perform(ghost i: nat, ghost d: Deed, a: Act, words: seq<Word>)
      requires Valid() && May(session.forest.size, Now(), i, d) && !d.HandsBack?
      requires d.Records? || d.LogsExit? || d.Closes? ==> frames[i] != []
      requires a == ActOf(Now(), i, d) && (a.Put? ==> |words| == a.count > 0)
      modifies this`frames, session`history, session`seen, session.forest`rings, session.forest`log
      ensures Valid() && Does(session.forest.size, old(Now()), i, d, Now())
      ensures i < |old(session.history).logged| == |session.history.logged| &&
              forall j | 0 <= j < |session.history.logged| && (j != i || !a.Put?) :: session.history.logged[j] == old(session.history).logged[j]
      ensures d.Logs? ==>
                (var log := old(session.forest.log);
                 a.ring < |log| &&
                 session.history.logged[i] ==
                 old(session.history).logged[i] + TagWords(TidOf(log, old(session.history).threads[i]), log[a.ring].depth, words))
      ensures session.history.shown == old(session.history).shown
    {
      hide Inv, Consistent, Rep, Tracing, Enabled, Foreign, LoggedAfter, ActLog, ActGrove, FramesAfter, ActOf, May, AtTail, TagWords;
      ghost var n, s := session.forest.size, Now();
      DeedSize(n, s, i, d);
      DeedIsEnabled(n, s, i, d);
      ghost var s' := DeedKeeps(n, s, i, d);
      ConsistentIsTraced(n, session.forest.rings, session.forest.log, session.forest.out, session.start, session.lc, session.flush, session.seen, session.room, session.history);
      WhatIsPut(n, s, i, d);
      LoggedSame(n, s.world.log, s.world.threads[i], a, words, session.history.logged[i]);
      if d.Logs? {
        ThreadTail(n, s, i);
        LoggedLast(n, s.world.log, s.world.threads[i], a.ring, words, session.history.logged[i]);
        PutRing(n, s.world.log, s.world.threads[i], a);
      }
      session.Produce(i, a, words);
      frames := frames[i := FramesAfter(s, i, d)];
      assert Now() == s';
    }

    /** A handler gives the interrupted ring back: it is the thread's current ring again. */
    ghost method HandBack(i: nat)
      requires Valid() && May(session.forest.size, Now(), i, HandsBack)
      modifies this`frames
      ensures Valid() && Does(session.forest.size, old(Now()), i, HandsBack, Now())
    {
      hide Inv, Consistent, FramesAfter, May;
      ghost var n, s := session.forest.size, Now();
      DeedSize(n, s, i, HandsBack);
      var s' := DeedKeeps(n, s, i, HandsBack);
      frames := frames[i := FramesAfter(s, i, HandsBack)];
      assert Now() == s';
    }

    /** The drop and get passes over thread `i`. There is something to write if and only if what is first in its tree then is a
        word; there is whenever no handler is on the thread, words of it are left, and it is not stuck. */
    method BeginFlush(i: nat, r: nat) returns (busy: bool)
      requires Valid() && session.flush.phase.Idle? && i < |session.history.threads| && session.history.threads[i].tree.ring == r
      modifies session`flush, session`seen, session`room, session`history, session.forest`rings, session.forest`log
      ensures Valid() && session.flush.phase == (if busy then Gathered else Idle) && session.flush.thread == i
      ensures i < |old(session.history).threads| && var g := old(session.history).threads[i];
              session.history == old(session.history).(threads := old(session.history).threads[i := g.(tree := Drop(g.tree).0)]) &&
              session.seen == Drop(g.tree).0 && session.room == 20 - |session.flush.header| >= 18 && (busy <==> Taken(session.forest.size, session.seen, session.room) != []) &&
              (busy <==> FirstIsWord(Drop(g.tree).0.body)) &&
              (i < |frames| && frames[i] == [] && !Stuck(g.tree.body) && FlattenAll(g) != [] ==> busy)
    {
      hide Inv, Consistent, Rep, Tracing, Reached, Drop, RootIntr, PassLeaves, Taken, FirstIsWord, Stuck, Quiet, Flatten;
      ghost var n, s, g := session.forest.size, Now(), session.history.threads[i];
      InvSize(n, s);
      if frames[i] == [] {
        NoHandlerIsQuiet(n, s, i);
        NothingHangs(g);
      }
      busy := session.BeginFlush(i, r);
      ConsistentIsTraced(n, session.forest.rings, session.forest.log, session.forest.out, session.start, session.lc, session.flush, session.seen, session.room, session.history);
      forall j | 0 <= j < |s.frames[i]|
        ensures PassLeaves(g.tree, Drop(g.tree).0, s.frames[i][j].ring, s.frames[i][j].start)
      {
        DropLeavesAll(g.tree, s.frames[i][j].ring, s.frames[i][j].start);
      }
      ReachKeeps(n, s, i, Drop(g.tree).0, World(session.forest.log, session.history.threads));
    }

    /** The write: a reader finds the words in flight after what it has found before, one at least. */
    method WriteOut()
      requires Valid() && session.flush.phase.Gathered?
      modifies session`flush, session`history, session.forest`out
      ensures Valid() && session.flush == old(session.flush).(phase := Written)
      ensures session.history == old(session.history).(shown := session.history.shown) && session.flush.thread < |session.history.threads|
      ensures var words := TaggedAll(session.forest.size, session.forest.rings, TidOf(session.forest.log, session.history.threads[session.flush.thread]),
                                     Taken(session.forest.size, session.seen, session.room));
              words != [] && Decode(session.forest.out, session.start) == old(Decode(session.forest.out, session.start)) + words
    {
      hide Inv, Consistent, Rep, Decode, TaggedAll, Taken;
      session.WriteOut();
    }

    /** The discard pass. */
    method EndFlush()
      requires Valid() && session.flush.phase.Written?
      modifies session`flush, session`lc, session`history, session.forest`rings, session.forest`log
      ensures Valid() && session.flush == old(session.flush).(phase := Idle) && session.history.logged == old(session.history).logged
      ensures var h, k := old(session.history), session.flush.thread;
              k < |h.threads| && Grown(session.seen, h.threads[k].tree) &&
              session.history.threads ==
              h.threads[k := h.threads[k].(tree := Left(session.forest.size, session.seen, h.threads[k].tree, session.room, session.seen.depth))]
    {
      hide Inv, Consistent, Rep, Tracing, Reached, Left, RootIntr, PassLeaves, Grown;
      ghost var n, s, i := session.forest.size, Now(), session.flush.thread;
      InvSize(n, s);
      session.EndFlush();
      ghost var t := s.world.threads[i].tree;
      ghost var l := Left(n, session.seen, t, session.room, session.seen.depth);
      ConsistentIsTraced(n, session.forest.rings, session.forest.log, session.forest.out, session.start, session.lc, session.flush, session.seen, session.room, session.history);
      forall j | 0 <= j < |s.frames[i]|
        ensures PassLeaves(t, l, s.frames[i][j].ring, s.frames[i][j].start)
      {
        LeftLeavesAll(n, session.seen, t, session.room, session.seen.depth, s.frames[i][j].ring, s.frames[i][j].start);
      }
      ReachKeeps(n, s, i, l, World(session.forest.log, session.history.threads));
    }

    /** The flushes of a thread's ring, repeated until one finds nothing to write, while no handler is on the thread. Then a
        reader of the trace file finds all that the thread has logged, if and only if its tree was not stuck before, or held
        no word. */
    method Drain(i: nat, r: nat)
      requires Valid() && session.flush.phase.Idle? && i < |session.history.threads| && session.history.threads[i].tree.ring == r
      requires i < |frames| && frames[i] == []
      modifies session`flush, session`seen, session`room, session`history, session`lc, session.forest`rings, session.forest`log, session.forest`out
      ensures Valid() && session.flush.phase.Idle? && session.history.logged == old(session.history).logged
      ensures i < |session.history.threads| && i < |session.history.logged| && var g := old(session.history).threads[i];
              OfThread(Decode(session.forest.out, session.start), TidOf(session.forest.log, session.history.threads[i])) == session.history.logged[i] <==>
              !Stuck(g.tree.body) || FlattenAll(g) == []
    {
      hide Inv, Consistent, Drop, Left, Taken, FirstIsWord, Quiet, Stuck, Flatten, Grown, Decode, OfThread, TidOf, TaggedAll;
      ghost var n, g := session.forest.size, session.history.threads[i];
      NoHandlerIsQuiet(n, Now(), i);
      NothingHangs(g);
      var busy := true;
      while busy
        invariant Valid() && session.flush.phase.Idle? && session.history.logged == old(session.history).logged && i < |session.history.threads|
        invariant session.history.threads == old(session.history).threads[i := g.(tree := session.history.threads[i].tree)]
        invariant session.history.threads[i].tree.ring == r && Quiet(session.history.threads[i].tree.body)
        invariant Stuck(session.history.threads[i].tree.body) <==> Stuck(g.tree.body)
        invariant Stuck(g.tree.body) ==> Flatten(session.history.threads[i].tree) == Flatten(g.tree)
        invariant !busy && !Stuck(g.tree.body) ==> Flatten(session.history.threads[i].tree) == []
        decreases busy, |Flatten(session.history.threads[i].tree)|
      {
        ThreadIsTraced(n, session.forest.rings, session.forest.log, session.forest.out, session.start, session.lc, session.flush, session.seen, session.room, session.history, i);
        FlushDrains(n, session.forest.log, session.history.threads[i]);
        busy := BeginFlush(i, r);
        if busy {
          WriteOut();
          EndFlush();
        }
      }
      session.ReaderSees(i);
      NothingHangs(g.(tree := session.history.threads[i].tree));
    }

    /** Whatever has happened since the program started, in whatever order: a reader of the trace file
        finds of each thread a first part of what it has logged, between flushes all of it if and only if
        nothing is left of it on the rings, and no idle record. */
    lemma ReaderSees(i: nat)
      requires Valid() && i < |session.history.threads|
      ensures i < |session.history.logged|
      ensures var found := OfThread(Decode(session.forest.out, session.start), TidOf(session.forest.log, session.history.threads[i]));
              found <= session.history.logged[i] && Tight(session.forest.out, session.start) &&
              (session.flush.phase.Idle? ==> (found == session.history.logged[i] <==> FlattenAll(session.history.threads[i]) == []))
    {
      hide Inv;
      session.ReaderSees(i);
    }
  }

  lemma NothingHangs(g: Grove)
    ensures g.hung == [] ==> FlattenAll(g) == Flatten(g.tree)
  {
    hide Flatten;
    assert Flatten(g.tree) + [] == Flatten(g.tree);
  }

  lemma InvSize(n: nat, s: Scene)
    requires Inv(n, s)
    ensures |s.frames| == |s.world.threads| && forall i | 0 <= i < |s.frames| :: s.world.threads[i].tree.ring < |s.world.log|
  {
    hide AllTraced, AllOwned, AllEnd, Linked, OwnRings;
  }

  lemma ThreadTail(n: nat, s: Scene, i: nat)
    requires Inv(n, s) && i < |s.frames|
    ensures i < |s.world.threads| && AtTail(Top(s.world.threads[i]), Current(s.world.threads[i].tree.ring, s.frames[i]))
  {
    hide Inv, Tracing, Linked, OwnRings, AtTail;
    SceneFacts(n, s, i);
    TailOf(n, s.world.log, s.world.threads[i], s.frames[i]);
  }

  lemma LoggedSame(n: nat, log: seq<LogRing>, g: Grove, a: Act, words: seq<Word>, logged: seq<Tagged>)
    requires Enabled(n, log, g, a)
    ensures !a.Put? ==> LoggedAfter(n, log, g, a, words, logged) == logged
  {
  }

  lemma PutRing(n: nat, log: seq<LogRing>, g: Grove, a: Act)
    requires Enabled(n, log, g, a) && a.Put?
    ensures a.ring < |log|
  {
  }

  lemma DropLeavesAll(t: Bracket, x: nat, pos: nat)
    ensures PassLeaves(t, Drop(t).0, x, pos)
  {
    hide Drop;
    DropStarts(t, x, pos);
  }

  lemma LeftLeavesAll(n: nat, b: Bracket, t: Bracket, room: nat, d: nat, x: nat, pos: nat)
    requires 0 < n && Grown(b, t)
    ensures PassLeaves(t, Left(n, b, t, room, d), x, pos)
  {
    hide Left, Grown;
    LeftStarts(n, b, t, room, d, x, pos);
  }
}
