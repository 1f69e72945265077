/** The handler wrapper on many threads (__rvpredict_handler_wrapper of llvm/ngrt/rvpsignal.c), with the
    rings, the threads' trees and the serializer's passes. Whatever a statement of the wrapper needs of
    the rings follows from how the runs of the wrapper are nested. */
module Handlers {
  import opened Basics
  import opened EventTree
  import opened EventLog
  import opened Producers
  import opened Threads
  import opened Tracer
  import opened Runs
  import opened Spines
  import opened Touching

  /** How far a run of the wrapper has got: its ring is the current one, but its interruption has not
      been recorded; it runs; it has given the interrupted ring back; it has logged its return. */
  datatype Stage = Unrecorded | Running | Returning | Closing

  /** A run of the wrapper: its ring, the ring that it interrupts, the number of its interruption there,
      and where its ring's producer was when it got it. */
  datatype Frame = Frame(stage: Stage, ring: nat, host: nat, index: nat, start: nat)

  predicate IsActive(f: Frame)
  {
    f.stage.Unrecorded? || f.stage.Running?
  }

  /** t_intr_ring of a thread on ring `root`, with these runs of the wrapper from the outermost to the
      innermost. */
  function Current(root: nat, fs: seq<Frame>): nat
    decreases |fs|
  {
    if fs == [] then root else if IsActive(Last(fs)) then Last(fs).ring else Current(root, Others(fs))
  }

  /** The finished interruptions by ring `r` that have not been dropped end at `pos` or before. */
  predicate EndsBy(log: seq<LogRing>, r: nat, pos: nat)
  {
    forall x, y | 0 <= x < |log| && log[x].pcons <= y < |log[x].pend| ::
      log[x].pend[y].ring == r && !log[x].pend[y].open ==> log[x].pend[y].eidx <= pos
  }

  predicate WordsAfter(log: seq<LogRing>, r: nat)
    requires r < |log|
  {
    forall k | log[r].pcons <= k < |log[r].pend| :: log[r].pend[k].at < log[r].prod
  }

  /** What is true of a run of the wrapper, with the runs `lower` that it has interrupted, on a thread
      with the given tree. */
  predicate FrameOk(log: seq<LogRing>, tree: Bracket, lower: seq<Frame>, f: Frame)
  {
    f.ring < |log| && f.host < |log| && f.host == Current(tree.ring, lower) && Under(log, f.host, f.ring) &&
    f.start <= log[f.ring].prod && EndsBy(log, f.ring, f.start) &&
    if f.stage.Unrecorded? then log[f.ring].prod == f.start && NoneOpenBy(log, f.ring)
    else
      OneOpen(log, f.ring, f.host, f.index) && log[f.host].pcons <= f.index &&
      (Front(tree, f.ring) || log[f.host].pend[f.index].sidx == f.start) &&
      (f.stage.Running? ==> f.index == |log[f.host].pend| - 1 && log[f.host].pend[f.index].at == log[f.host].prod) &&
      (f.stage.Closing? ==> f.start < log[f.ring].prod && WordsAfter(log, f.ring))
  }

  /** What is true of all runs of the wrapper on a thread; the brackets that hang are those of the runs
      that have not recorded their interruptions. */
  predicate Linked(log: seq<LogRing>, g: Grove, fs: seq<Frame>)
    decreases |fs|
  {
    if fs == [] then g.hung == []
    else
      var f := Last(fs);
      FrameOk(log, g.tree, Others(fs), f) &&
      if f.stage.Unrecorded? then g.hung != [] && Last(g.hung).ring == f.ring && Linked(log, Outer(g), Others(fs))
      else Linked(log, g, Others(fs))
  }

  /** Every run of the wrapper has a ring of its own. */
  predicate OwnRings(root: nat, fs: seq<Frame>)
  {
    (forall j | 0 <= j < |fs| :: fs[j].ring != root) && forall j, k | 0 <= j < k < |fs| :: fs[j].ring != fs[k].ring
  }

  lemma LowerIsOwn(root: nat, fs: seq<Frame>)
    requires OwnRings(root, fs) && fs != []
    ensures OwnRings(root, Others(fs)) && Last(fs).ring != root && forall j | 0 <= j < |Others(fs)| :: Others(fs)[j].ring != Last(fs).ring
  {
  }

  // ---- the rings of a thread ----------------------------------------------------------------

  /** The current ring is the thread's, or that of the last active run. */
  lemma {:induction false} CurrentIs(root: nat, fs: seq<Frame>) returns (m: int)
    ensures -1 <= m < |fs| && (m >= 0 ==> IsActive(fs[m]) && Current(root, fs) == fs[m].ring) && (m < 0 ==> Current(root, fs) == root)
    ensures forall j | m < j < |fs| :: !IsActive(fs[j])
    decreases |fs|
  {
    if fs == [] {
      m := -1;
    } else if IsActive(Last(fs)) {
      m := |fs| - 1;
    } else {
      m := CurrentIs(root, Others(fs));
    }
  }

  /** Every run's ring is of the thread, and deeper than the thread's. */
  lemma {:induction false} FramesAreUnder(log: seq<LogRing>, g: Grove, fs: seq<Frame>)
    requires Linked(log, g, fs) && g.tree.ring < |log|
    ensures forall j | 0 <= j < |fs| :: fs[j].ring < |log| && fs[j].host < |log| && Under(log, g.tree.ring, fs[j].ring) && Below(log, g.tree.ring, fs[j].host)
    ensures Current(g.tree.ring, fs) < |log| && Below(log, g.tree.ring, Current(g.tree.ring, fs))
    decreases |fs|
  {
    hide EndsBy, OneOpen, NoneOpenBy, WordsAfter, Front;
    if fs != [] {
      var f := Last(fs);
      if f.stage.Unrecorded? { FramesAreUnder(log, Outer(g), Others(fs)); } else { FramesAreUnder(log, g, Others(fs)); }
      BelowIsBelow(log, f.host, f.ring);
    }
  }

  /** The innermost part of the thread is the bracket of the last run that hangs, or its tree. */
  function PartRing(root: nat, fs: seq<Frame>): nat
    decreases |fs|
  {
    if fs == [] then root else if Last(fs).stage.Unrecorded? then Last(fs).ring else PartRing(root, Others(fs))
  }

  /** The runs in the innermost part that are still running. */
  function Links(fs: seq<Frame>): seq<Link>
    decreases |fs|
  {
    if fs == [] || Last(fs).stage.Unrecorded? then []
    else
      var f := Last(fs);
      if f.stage.Running? then Links(Others(fs)) + [Link(f.ring, f.host, f.index)] else Links(Others(fs))
  }

  lemma {:induction false} LinksAreChained(log: seq<LogRing>, g: Grove, fs: seq<Frame>)
    requires Linked(log, g, fs) && g.tree.ring < |log|
    ensures PartRing(g.tree.ring, fs) == Top(g).ring < |log|
    ensures Chain(log, Top(g).ring, Links(fs)) && LastRing(Top(g).ring, Links(fs)) == Current(g.tree.ring, fs)
    decreases |fs|
  {
    hide EndsBy, OneOpen, NoneOpenBy, WordsAfter, Front;
    if fs != [] && !Last(fs).stage.Unrecorded? {
      LinksAreChained(log, g, Others(fs));
      var f := Last(fs);
      if f.stage.Running? {
        OneMoreLink(log, Top(g).ring, Links(Others(fs)), Link(f.ring, f.host, f.index));
      }
    }
  }

  lemma OneMoreLink(log: seq<LogRing>, r: nat, links: seq<Link>, l: Link)
    requires Chain(log, r, links) && l.host == LastRing(r, links) && l.host < |log| && l.ring < |log| && Under(log, l.host, l.ring)
    requires OneOpen(log, l.ring, l.host, l.index) && l.index == |log[l.host].pend| - 1 && log[l.host].pend[l.index].at == log[l.host].prod
    ensures Chain(log, r, links + [l]) && LastRing(r, links + [l]) == l.ring
  {
    hide OneOpen;
    assert (links + [l])[..|links + [l]| - 1] == links;
  }

  // ---- where the runs' interruptions are ----------------------------------------------------------

  /** Ring `r` is no ring of the innermost part. */
  predicate Elsewhere(root: nat, fs: seq<Frame>, r: nat)
    decreases |fs|
  {
    if fs == [] then r != root
    else r != Last(fs).ring && (Last(fs).stage.Unrecorded? || Elsewhere(root, Others(fs), r))
  }

  lemma {:induction false} ElsewhereIsNotCurrent(root: nat, fs: seq<Frame>, r: nat)
    requires Elsewhere(root, fs, r)
    ensures r != Current(root, fs)
    decreases |fs|
  {
    if fs != [] && !IsActive(Last(fs)) { ElsewhereIsNotCurrent(root, Others(fs), r); }
  }

  lemma {:induction false} HungAreFrames(log: seq<LogRing>, g: Grove, fs: seq<Frame>, i: nat) returns (j: nat)
    requires Linked(log, g, fs) && i < |g.hung|
    ensures j < |fs| && fs[j].ring == g.hung[i].ring && fs[j].stage.Unrecorded?
    decreases |fs|
  {
    hide FrameOk;
    if Last(fs).stage.Unrecorded? {
      if i == |g.hung| - 1 { j := |fs| - 1; } else { j := HungAreFrames(log, Outer(g), Others(fs), i); }
    } else {
      j := HungAreFrames(log, g, Others(fs), i);
    }
  }

  lemma {:induction false} EarlierIsElsewhere(log: seq<LogRing>, g: Grove, fs: seq<Frame>)
    requires Linked(log, g, fs) && OwnRings(g.tree.ring, fs) && g.hung != []
    ensures Elsewhere(g.tree.ring, fs, g.tree.ring) && forall i | 0 <= i < |g.hung| - 1 :: Elsewhere(g.tree.ring, fs, g.hung[i].ring)
    decreases |fs|
  {
    hide FrameOk;
    LowerIsOwn(g.tree.ring, fs);
    if !Last(fs).stage.Unrecorded? { EarlierIsElsewhere(log, g, Others(fs)); }
    forall i | 0 <= i < |g.hung| - 1
      ensures g.hung[i].ring != Last(fs).ring
    {
      if Last(fs).stage.Unrecorded? { var j := HungAreFrames(log, Outer(g), Others(fs), i); } else { var j := HungAreFrames(log, g, Others(fs), i); }
    }
  }

  /** A part on another ring meets no unfinished interruption by the current ring. */
  lemma {:induction false} CurrentNotInPart(log: seq<LogRing>, g: Grove, fs: seq<Frame>, it: LogIntr, b: Bracket, c: Cursor)
    requires Linked(log, g, fs) && g.hung != [] && Elsewhere(g.tree.ring, fs, b.ring)
    requires Fits(log, c) && it.ring < |log| && Laid(log, it, b, c) && Leading(b) && Ahead(log, c)
    ensures NoneMet(log, c, After(b, c), Current(g.tree.ring, fs))
    decreases |fs|
  {
    hide EndsBy, WordsAfter, Front, Laid, After, OneOpen;
    var f, lower := Last(fs), Others(fs);
    if f.stage.Unrecorded? {
      hide NoneMet, NoneOpenBy;
      UnmetIsNone(log, c, After(b, c), f.ring, 0, 0);
    } else {
      CurrentNotInPart(log, g, lower, it, b, c);
      if f.stage.Running? {
        FrameNotInPart(log, g, fs, it, b, c);
        UnmetIsNone(log, c, After(b, c), f.ring, f.host, f.index);
      }
    }
  }

  /** And not the interruption of the innermost run. */
  lemma {:induction false} FrameNotInPart(log: seq<LogRing>, g: Grove, fs: seq<Frame>, it: LogIntr, b: Bracket, c: Cursor)
    requires Linked(log, g, fs) && g.hung != [] && fs != [] && !Last(fs).stage.Unrecorded? && Elsewhere(g.tree.ring, fs, b.ring)
    requires Fits(log, c) && it.ring < |log| && Laid(log, it, b, c) && Leading(b) && Ahead(log, c)
    ensures !Met(log, c, After(b, c), Last(fs).host, Last(fs).index)
    decreases |fs|, 0
  {
    hide EndsBy, WordsAfter, Front, Laid, After, OneOpen, NoneOpenBy;
    var f, lower := Last(fs), Others(fs);
    if Met(log, c, After(b, c), f.host, f.index) {
      OneIs(log, f.ring, f.host, f.index);
      ElsewhereIsNotCurrent(g.tree.ring, lower, b.ring);
      var x, y := HostMet(log, f.host, f.index, it, b, c);
      CurrentNotInPart(log, g, lower, it, b, c);
    }
  }

  /** The interruption `k` of ring `h` is not met before the innermost part. */
  predicate Late(log: seq<LogRing>, g: Grove, h: nat, k: nat)
  {
    h < |log| && TopStart(log, g).p[h] <= k
  }

  lemma {:induction false} HungPassBy(log: seq<LogRing>, g: Grove, fs: seq<Frame>, hung: seq<Bracket>, c: Cursor)
    requires Linked(log, g, fs) && fs != [] && !Last(fs).stage.Unrecorded? && g.hung != []
    requires Fits(log, c) && g.tree.ring < |log| && Hanging(log, g.tree.ring, hung, c) && Ahead(log, c) && Within(log, c)
    requires forall i | 0 <= i < |hung| :: Elsewhere(g.tree.ring, fs, hung[i].ring)
    requires var f := Last(fs); f.host < |log| && c.p[f.host] <= f.index < |log[f.host].pend|
    ensures AfterHung(hung, c).p[Last(fs).host] <= Last(fs).index
    decreases |hung|
  {
    hide Linked, Laid, After, Elsewhere;
    if hung != [] {
      var c1, d := AfterHung(Others(hung), c), Last(hung);
      HungPassBy(log, g, fs, Others(hung), c);
      HungMoves(log, g.tree.ring, Others(hung), c);
      assert Elsewhere(g.tree.ring, fs, hung[|hung| - 1].ring);
      FreshIsLeading(d);
      FrameNotInPart(log, g, fs, HungIntr(d), d, c1);
    }
  }

  /** The innermost run's interruption is in the innermost part. */
  lemma FrameIsLate(n: nat, log: seq<LogRing>, g: Grove, fs: seq<Frame>)
    requires Standing(n, log, g) && Linked(log, g, fs) && OwnRings(g.tree.ring, fs) && fs != [] && !Last(fs).stage.Unrecorded?
    ensures Late(log, g, Last(fs).host, Last(fs).index)
  {
    hide Laid, After, Elsewhere, OwnRings, Bounded, Leading;
    var f, root := Last(fs), g.tree.ring;
    RecordOf(log, g, fs);
    RootStart(n, log, g);
    if g.hung != [] {
      EarlierIsElsewhere(log, g, fs);
      FrameNotInPart(log, g, fs, RootIntr(log, root), g.tree, Start(log));
      HungPassBy(log, g, fs, Others(g.hung), TreeEnd(log, g));
    }
  }

  lemma RecordOf(log: seq<LogRing>, g: Grove, fs: seq<Frame>)
    requires Linked(log, g, fs) && fs != [] && !Last(fs).stage.Unrecorded?
    ensures var f := Last(fs);
            f.host < |log| && log[f.host].pcons <= f.index < |log[f.host].pend| && OneOpen(log, f.ring, f.host, f.index) && f.ring < |log| &&
            FrameOk(log, g.tree, Others(fs), f) && Linked(log, g, Others(fs))
  {
    var f := Last(fs);
    OneIs(log, f.ring, f.host, f.index);
  }

  /** Nor is the current ring's run met before the innermost part. */
  lemma {:induction false} CurrentIsLate(n: nat, log: seq<LogRing>, g: Grove, fs: seq<Frame>)
    requires Standing(n, log, g) && Linked(log, g, fs) && OwnRings(g.tree.ring, fs) && g.hung != []
    ensures NoneMet(log, Start(log), TopStart(log, g), Current(g.tree.ring, fs))
    decreases |fs|
  {
    hide Standing, OwnRings, OneOpen, NoneMet, FrameOk, Late, NoneOpenBy;
    var f := Last(fs);
    if f.stage.Unrecorded? {
      HangingIsUnnamed(log, g, fs);
      UnmetIsNone(log, Start(log), TopStart(log, g), f.ring, 0, 0);
    } else {
      LowerIsOwn(g.tree.ring, fs) by { hide Standing; }
      if f.stage.Running? {
        FrameIsLate(n, log, g, fs);
        RecordOf(log, g, fs);
        LateIsUnmet(log, g, f.ring, f.host, f.index);
      } else {
        CurrentIsLate(n, log, g, Others(fs));
      }
    }
  }

  lemma HangingIsUnnamed(log: seq<LogRing>, g: Grove, fs: seq<Frame>)
    requires Linked(log, g, fs) && fs != [] && Last(fs).stage.Unrecorded?
    ensures var f := Last(fs);
            NoneOpenBy(log, f.ring) && FrameOk(log, g.tree, Others(fs), f) && g.hung != [] && Last(g.hung).ring == f.ring && Linked(log, Outer(g), Others(fs))
  {
  }

  lemma LateIsUnmet(log: seq<LogRing>, g: Grove, r: nat, h: nat, k: nat)
    requires OneOpen(log, r, h, k) && Late(log, g, h, k)
    ensures NoneMet(log, Start(log), TopStart(log, g), r)
  {
    UnmetIsNone(log, Start(log), TopStart(log, g), r, h, k);
  }

  /** What has not been met before the innermost part is in no earlier part. */
  lemma EarlierHasNone(n: nat, log: seq<LogRing>, g: Grove, r: nat)
    requires Standing(n, log, g) && g.tree.ring < |log|
    requires g.hung != [] ==> NoneMet(log, Start(log), TopStart(log, g), r) && g.tree.ring != r && forall i | 0 <= i < |g.hung| - 1 :: g.hung[i].ring != r
    ensures NoneOpenBelow(g, r)
  {
    hide Laid, After, Bounded, Leading, NoneOpen;
    if g.hung != [] {
      RootStart(n, log, g);
      var root := g.tree.ring;
      HungMoves(log, root, Others(g.hung), TreeEnd(log, g));
      AfterMoves(log, RootIntr(log, root), g.tree, Start(log));
      SoonerMeetsNone(log, Start(log), TreeEnd(log, g), TopStart(log, g), r);
      NoneOpenOnWay(log, r, RootIntr(log, root), g.tree, Start(log));
      NoneOpenToo(g.tree, r);
      LaterMeetsNone(log, Start(log), TreeEnd(log, g), TopStart(log, g), r);
      NoneOpenInHung(log, root, Others(g.hung), TreeEnd(log, g), r);
    }
  }

  lemma SoonerMeetsNone(log: seq<LogRing>, c: Cursor, c1: Cursor, c2: Cursor, r: nat)
    requires Fits(log, c) && Fits(log, c1) && Fits(log, c2) && NoneMet(log, c, c2, r)
    requires forall x | 0 <= x < |log| :: c1.p[x] <= c2.p[x]
    ensures NoneMet(log, c, c1, r)
  {
    forall x: nat, k: nat | Met(log, c, c1, x, k)
      ensures log[x].pend[k].open ==> log[x].pend[k].ring != r
    {
      assert Met(log, c, c2, x, k);
    }
  }

  lemma LaterMeetsNone(log: seq<LogRing>, c: Cursor, c1: Cursor, c2: Cursor, r: nat)
    requires Fits(log, c) && Fits(log, c1) && Fits(log, c2) && NoneMet(log, c, c2, r)
    requires forall x | 0 <= x < |log| :: c.p[x] <= c1.p[x]
    ensures NoneMet(log, c1, c2, r)
  {
    forall x: nat, k: nat | Met(log, c1, c2, x, k)
      ensures log[x].pend[k].open ==> log[x].pend[k].ring != r
    {
      assert Met(log, c, c2, x, k);
    }
  }

  lemma {:induction false} NoneOpenInHung(log: seq<LogRing>, root: nat, hung: seq<Bracket>, c: Cursor, r: nat)
    requires Fits(log, c) && root < |log| && Hanging(log, root, hung, c) && Ahead(log, c) && Within(log, c)
    requires NoneMet(log, c, AfterHung(hung, c), r) && forall i | 0 <= i < |hung| :: hung[i].ring != r
    ensures NoneOpenHung(hung, r)
    decreases |hung|
  {
    hide Laid, After, NoneOpen, NoneMet;
    if hung != [] {
      var c1, d := AfterHung(Others(hung), c), Last(hung);
      HungMoves(log, root, Others(hung), c);
      AfterMoves(log, HungIntr(d), d, c1);
      SoonerMeetsNone(log, c, c1, AfterHung(hung, c), r);
      LaterMeetsNone(log, c, c1, AfterHung(hung, c), r);
      NoneOpenInHung(log, root, Others(hung), c, r);
      NoneOpenOnWay(log, r, HungIntr(d), d, c1);
      assert d == hung[|hung| - 1];
      NoneOpenToo(d, r);
    }
  }

  /** The current ring is at the tail of the innermost part, if the walk of that part gets to the end of
      the interruptions of the rings that it is on. */
  lemma CurrentIsAtTail(n: nat, log: seq<LogRing>, g: Grove, fs: seq<Frame>)
    requires Standing(n, log, g) && Linked(log, g, fs) && OwnRings(g.tree.ring, fs) && g.tree.ring < |log|
    requires Links(fs) != [] ==> var h := Links(fs)[|Links(fs)| - 1].host; h < |log| && WalkEnd(log, g).p[h] == |log[h].pend|
    ensures AtTail(Top(g), Current(g.tree.ring, fs))
  {
    hide Laid, After, Bounded, Leading, AtTail, Linked, OwnRings, Hanging, Chain, Fresh;
    LinksAreChained(log, g, fs);
    TopFacts(n, log, g);
    var links := Links(fs);
    if links != [] {
      LinkIsLate(n, log, g, fs);
      ChainEnds(log, Top(g).ring, links);
    }
    OpenIsToTheEnd(n, log, g);
    if g.hung != [] {
      HungFresh(log, g.tree.ring, Top(g), TopStart(log, g));
      FreshIsLeading(Top(g));
    }
    TailIfChained(log, TopIntr(log, g), Top(g), TopStart(log, g), links);
  }

  lemma OpenIsToTheEnd(n: nat, log: seq<LogRing>, g: Grove)
    requires Standing(n, log, g) && g.tree.ring < |log|
    ensures TopIntr(log, g).ring < |log| && End(log, TopIntr(log, g)) == log[TopIntr(log, g).ring].prod
  {
    hide Laid, After, Bounded, Leading, Hanging;
    TopFacts(n, log, g);
  }

  lemma {:induction false} LinkIsLate(n: nat, log: seq<LogRing>, g: Grove, fs: seq<Frame>)
    requires Standing(n, log, g) && Linked(log, g, fs) && OwnRings(g.tree.ring, fs) && Links(fs) != []
    ensures var l := Links(fs)[|Links(fs)| - 1]; Late(log, g, l.host, l.index)
    decreases |fs|
  {
    hide Standing, FrameOk, Late;
    if Last(fs).stage.Running? {
      FrameIsLate(n, log, g, fs);
    } else {
      LowerIsOwn(g.tree.ring, fs);
      LinkIsLate(n, log, g, Others(fs));
    }
  }

  // ---- the statements of the wrapper --------------------------------------------------------------

  /** All threads, with the runs of the wrapper on each. */
  datatype Scene = Scene(world: World, frames: seq<seq<Frame>>)

  /** The innermost code of a thread logs; a signal arrives, and its handler makes ring `q` the current
      one; it records its interruption; it gives the interrupted ring back; it logs its return; it
      closes its interruption; a clean ring gets the label of a new holder. */
  datatype Deed =
    | Logs(k: nat)
    | Signals(q: nat)
    | Records
    | HandsBack
    | LogsExit(k: nat)
    | Closes
    | TakesOver(q: nat, depth: nat)

  /** Nobody has the ring. */
  predicate Free(s: Scene, q: nat)
  {
    (forall i | 0 <= i < |s.world.threads| :: s.world.threads[i].tree.ring != q) &&
    forall i, j | 0 <= i < |s.frames| && 0 <= j < |s.frames[i]| :: s.frames[i][j].ring != q
  }

  predicate RoomFor(n: nat, log: seq<LogRing>, r: nat, k: nat)
  {
    r < |log| && log[r].prod + k < log[r].cons + n
  }

  /** What the code sees to, or waits for, before a statement: that it is the statement's turn; room; a
      free ring of its own thread that is deeper than the current one. Besides, two things that it does
      not see to: that no interruption is recorded where a finished span of the same ring ends (the note at
      llvm/ngrt/serialize.c:502-506; `ReadTooSoon`), and that a ring is taken over with a label that is
      true (`TakenTooEarly`). */
  predicate May(n: nat, s: Scene, i: nat, d: Deed)
  {
    i < |s.world.threads| == |s.frames| &&
    var log, g, fs := s.world.log, s.world.threads[i], s.frames[i];
    var current := Current(g.tree.ring, fs);
    match d
    case Logs(k) => (fs == [] || Last(fs).stage.Running?) && RoomFor(n, log, current, k)
    case Signals(q) => q < |log| && current < |log| && Free(s, q) && Under(log, current, q)
    case Records =>
      fs != [] && Last(fs).stage.Unrecorded? &&
      var h := Last(fs).host;
      h < |log| && |log[h].pend| < log[h].pcons + 7 && g.tree.ring < |log| && Untouched(log, g.tree.ring, h)
    case HandsBack => fs != [] && Last(fs).stage.Running?
    case LogsExit(k) => fs != [] && Last(fs).stage.Returning? && 0 < k && RoomFor(n, log, Last(fs).ring, k)
    case Closes => fs != [] && Last(fs).stage.Closing?
    case TakesOver(q, depth) =>
      Clean(log, q) && Free(s, q) && g.tree.ring < |log| &&
      forall j | 0 <= j < |s.world.threads| ::
        s.world.threads[j].tree.ring < |log| && Relabels(log, s.world.threads[j].tree.ring, q, log[g.tree.ring].tid, depth)
  }

  /** What a statement does to the rings; giving the interrupted ring back does nothing to them. */
  function ActOf(s: Scene, i: nat, d: Deed): Act
    requires i < |s.world.threads| == |s.frames| && !d.HandsBack?
    requires d.Records? || d.LogsExit? || d.Closes? ==> s.frames[i] != []
  {
    var log, g, fs := s.world.log, s.world.threads[i], s.frames[i];
    match d
    case Logs(k) => Put(Current(g.tree.ring, fs), k)
    case Signals(q) => Take(Current(g.tree.ring, fs), q)
    case Records => Record(Last(fs).host, Last(fs).ring)
    case LogsExit(k) => Put(Last(fs).ring, k)
    case Closes => Leave(Last(fs).host, Last(fs).index)
    case TakesOver(q, depth) => Acquire(q, if g.tree.ring < |log| then log[g.tree.ring].tid else 0, depth)
  }

  /** The unfinished interruptions are those that the runs of the wrapper have recorded. */
  predicate Owned(frames: seq<seq<Frame>>, r: nat)
  {
    exists i, j :: 0 <= i < |frames| && 0 <= j < |frames[i]| && !frames[i][j].stage.Unrecorded? && frames[i][j].ring == r
  }

  predicate AllOwned(log: seq<LogRing>, frames: seq<seq<Frame>>)
  {
    forall x, y | 0 <= x < |log| && log[x].pcons <= y < |log[x].pend| && log[x].pend[y].open :: Owned(frames, log[x].pend[y].ring)
  }

  /** A finished interruption ends where its ring's words ended, or before. */
  predicate AllEnd(log: seq<LogRing>)
  {
    forall x, y | 0 <= x < |log| && log[x].pcons <= y < |log[x].pend| && !log[x].pend[y].open ::
      log[x].pend[y].ring < |log| && log[x].pend[y].eidx <= log[log[x].pend[y].ring].prod
  }

  ghost predicate ThreadOk(log: seq<LogRing>, g: Grove, fs: seq<Frame>)
  {
    g.tree.ring < |log| && Linked(log, g, fs) && OwnRings(g.tree.ring, fs)
  }

  /** What holds between statements. */
  ghost predicate Inv(n: nat, s: Scene)
  {
    0 < n && AllTraced(n, s.world) && |s.frames| == |s.world.threads| && AllOwned(s.world.log, s.frames) && AllEnd(s.world.log) &&
    forall i | 0 <= i < |s.frames| :: ThreadOk(s.world.log, s.world.threads[i], s.frames[i])
  }

  lemma SceneFacts(n: nat, s: Scene, i: nat)
    requires Inv(n, s) && i < |s.frames|
    ensures i < |s.world.threads| && Tracing(n, s.world.log, s.world.threads[i]) && ThreadOk(s.world.log, s.world.threads[i], s.frames[i])
  {
    hide Tracing, ThreadOk;
  }

  // ---- every statement finds the rings as it needs them -----------------------------------------------

  /** The innermost run that has recorded its interruption holds its ring. */
  lemma FrameHolds(n: nat, log: seq<LogRing>, g: Grove, fs: seq<Frame>)
    requires Tracing(n, log, g) && ThreadOk(log, g, fs) && fs != [] && !Last(fs).stage.Unrecorded?
    ensures var f := Last(fs);
            f.ring < |log| && Holds(Top(g), f.ring) && NoneOpenBelow(g, f.ring) && Top(g).ring != f.ring
  {
    hide Laid, After, Bounded, Leading, Hanging, Fresh, Holds, FrameOk, NothingElse, OneOpen, NoneOpen, Ahead, Within;
    var f, root := Last(fs), g.tree.ring;
    TracedStands(n, log, g);
    TopFacts(n, log, g);
    RecordOf(log, g, fs);
    FrameIsLate(n, log, g, fs);
    FramesAreUnder(log, g, fs);
    Walked(n, log, g);
    assert WalkedAll(log, WalkEnd(log, g), f.host);
    PartIsNot(log, g, fs);
    if g.hung != [] { FreshIsLeading(Top(g)); }
    HoldsIfMet(log, f.ring, f.host, f.index, TopIntr(log, g), Top(g), TopStart(log, g));
    if g.hung != [] { LateIsUnmet(log, g, f.ring, f.host, f.index); }
    EarlierHasNone(n, log, g, f.ring);
  }

  /** The rings of the parts are not the innermost run's. */
  lemma PartIsNot(log: seq<LogRing>, g: Grove, fs: seq<Frame>)
    requires Linked(log, g, fs) && OwnRings(g.tree.ring, fs) && fs != [] && !Last(fs).stage.Unrecorded?
    ensures var f := Last(fs);
            Top(g).ring != f.ring && g.tree.ring != f.ring && forall i | 0 <= i < |g.hung| :: g.hung[i].ring != f.ring
  {
    hide FrameOk;
    LowerIsOwn(g.tree.ring, fs);
    forall i | 0 <= i < |g.hung|
      ensures g.hung[i].ring != Last(fs).ring
    {
      var j := HungAreFrames(log, g, Others(fs), i);
    }
  }

  lemma LogsEnabled(n: nat, log: seq<LogRing>, g: Grove, fs: seq<Frame>, k: nat)
    requires Tracing(n, log, g) && ThreadOk(log, g, fs) && (fs == [] || Last(fs).stage.Running?)
    requires RoomFor(n, log, Current(g.tree.ring, fs), k)
    ensures Enabled(n, log, g, Put(Current(g.tree.ring, fs), k))
  {
    hide Laid, After, Bounded, Leading, Hanging, Fresh, FrameOk, NothingElse, NoneOpen, OwnRings;
    TracedStands(n, log, g);
    if fs == [] { TopFacts(n, log, g); } else { FrameHolds(n, log, g, fs); }
  }

  lemma TailOf(n: nat, log: seq<LogRing>, g: Grove, fs: seq<Frame>)
    requires Tracing(n, log, g) && ThreadOk(log, g, fs)
    ensures AtTail(Top(g), Current(g.tree.ring, fs))
  {
    hide Laid, After, Bounded, Leading, Hanging, FrameOk, NothingElse, AtTail, OwnRings, Standing;
    TracedStands(n, log, g);
    LinkIsBelow(log, g, fs);
    Walked(n, log, g);
    if Links(fs) != [] { assert WalkedAll(log, WalkEnd(log, g), Links(fs)[|Links(fs)| - 1].host); }
    CurrentIsAtTail(n, log, g, fs);
  }

  lemma {:induction false} LinkIsBelow(log: seq<LogRing>, g: Grove, fs: seq<Frame>)
    requires Linked(log, g, fs) && g.tree.ring < |log|
    ensures Links(fs) != [] ==> var l := Links(fs)[|Links(fs)| - 1]; l.host < |log| && Below(log, g.tree.ring, l.host)
    decreases |fs|
  {
    hide FrameOk;
    if Links(fs) != [] {
      if Last(fs).stage.Running? { FramesAreUnder(log, g, fs); } else { LinkIsBelow(log, g, Others(fs)); }
    }
  }

  /** Before the bracket that hangs last, everything is in place for its interruption to be recorded, but that it
      may touch another. */
  lemma RecordsReady(n: nat, log: seq<LogRing>, g: Grove, fs: seq<Frame>)
    requires Tracing(n, log, g) && ThreadOk(log, g, fs) && fs != [] && Last(fs).stage.Unrecorded?
    ensures var h, q := Last(fs).host, Last(fs).ring;
            h < |log| && q < |log| && Under(log, h, q) && g.hung != [] && Top(g).ring == q &&
            AtTail(Top(Outer(g)), h) && NoneOpenBelow(Outer(g), h)
  {
    hide Laid, After, Bounded, Leading, Hanging, Fresh, NothingElse, AtTail, OwnRings, Standing, NoneOpen, EndBefore, OneOpen, NoneOpenBy, EndsBy;
    var f, lower, o, root := Last(fs), Others(fs), Outer(g), g.tree.ring;
    TracedStands(n, log, g);
    OuterStands(n, log, g);
    LowerIsOwn(root, fs);
    OuterWalked(n, log, g, fs);
    CurrentIsAtTail(n, log, o, lower);
    if o.hung != [] {
      CurrentIsLate(n, log, o, lower);
      EarlierIsElsewhere(log, o, lower);
      ElsewhereIsNotCurrent(root, lower, root);
      forall i | 0 <= i < |o.hung| - 1
        ensures o.hung[i].ring != f.host
      {
        ElsewhereIsNotCurrent(root, lower, o.hung[i].ring);
      }
    }
    EarlierHasNone(n, log, o, f.host);
  }

  lemma RecordsEnabled(n: nat, log: seq<LogRing>, g: Grove, fs: seq<Frame>)
    requires Tracing(n, log, g) && ThreadOk(log, g, fs) && fs != [] && Last(fs).stage.Unrecorded?
    requires var h := Last(fs).host; h < |log| && |log[h].pend| < log[h].pcons + 7 && Untouched(log, g.tree.ring, h)
    ensures Enabled(n, log, g, Record(Last(fs).host, Last(fs).ring))
  {
    hide Laid, After, Bounded, Leading, Hanging, Fresh, NothingElse, AtTail, OwnRings, Standing, NoneOpen, NoneOpenBelow, EndBefore, EndBeforeHung, Untouched, Linked;
    RecordsReady(n, log, g, fs);
    TracedStands(n, log, g);
    OuterStands(n, log, g);
    AllEndBefore(n, log, Outer(g), Last(fs).host);
  }

  lemma AllEndBefore(n: nat, log: seq<LogRing>, g: Grove, h: nat)
    requires Standing(n, log, g) && g.tree.ring < |log| && h < |log| && Untouched(log, g.tree.ring, h)
    ensures EndBefore(g.tree, h, log[h].prod) && EndBeforeHung(g.hung, h, log[h].prod)
  {
    hide Laid, After, Bounded, Leading, EndBefore, Untouched;
    RootStart(n, log, g);
    EndBeforeIf(log, g.tree.ring, h, RootIntr(log, g.tree.ring), g.tree, Start(log));
    HungEndBefore(log, g.tree.ring, h, g.hung, TreeEnd(log, g));
  }

  lemma {:induction false} HungEndBefore(log: seq<LogRing>, root: nat, h: nat, hung: seq<Bracket>, c: Cursor)
    requires Fits(log, c) && root < |log| && h < |log| && Hanging(log, root, hung, c) && Untouched(log, root, h) && Ahead(log, c) && Within(log, c)
    ensures EndBeforeHung(hung, h, log[h].prod)
    decreases |hung|
  {
    hide Laid, After, EndBefore, Untouched;
    if hung != [] {
      HungEndBefore(log, root, h, Others(hung), c);
      HungMoves(log, root, Others(hung), c);
      EndBeforeIf(log, root, h, HungIntr(Last(hung)), Last(hung), AfterHung(Others(hung), c));
    }
  }

  /** The bracket that hangs last is deeper than what it interrupts. */
  lemma OuterWalked(n: nat, log: seq<LogRing>, g: Grove, fs: seq<Frame>)
    requires Tracing(n, log, g) && ThreadOk(log, g, fs) && fs != [] && Last(fs).stage.Unrecorded?
    ensures g.hung != [] && Linked(log, Outer(g), Others(fs)) && FrameOk(log, g.tree, Others(fs), Last(fs)) && Top(g).ring == Last(fs).ring
    ensures var o, links := Outer(g), Links(Others(fs));
            links != [] ==> var h := links[|links| - 1].host; h < |log| && WalkEnd(log, o).p[h] == |log[h].pend|
  {
    hide Laid, After, Bounded, Leading, Hanging, NothingElse, OwnRings, Standing, OneOpen, NoneOpenBy, EndsBy, WordsAfter;
    var o, lower := Outer(g), Others(fs);
    HangingIsUnnamed(log, g, fs);
    TracedStands(n, log, g);
    OuterStands(n, log, g);
    TopFacts(n, log, g);
    LinksAreChained(log, o, lower);
    LinkIsBelow(log, o, lower);
    var links := Links(lower);
    if links != [] {
      var l := links[|links| - 1];
      ChainIsDeep(log, Top(o).ring, links);
      LinkIsUnder(log, Top(o).ring, links);
      Walked(n, log, g);
      assert WalkedAll(log, WalkEnd(log, g), l.host);
      AfterMoves(log, TopIntr(log, g), Top(g), TopStart(log, g));
      assert !Below(log, Last(fs).ring, l.host);
    }
  }

  lemma LinkIsUnder(log: seq<LogRing>, r: nat, links: seq<Link>)
    requires Chain(log, r, links) && links != []
    ensures var l := links[|links| - 1]; l.host < |log| && l.ring < |log| && Under(log, l.host, l.ring)
  {
    hide OneOpen;
  }

  lemma {:induction false} FrameAt(log: seq<LogRing>, g: Grove, fs: seq<Frame>, j: nat)
    requires Linked(log, g, fs) && j < |fs|
    ensures FrameOk(log, g.tree, fs[..j], fs[j])
    decreases |fs|
  {
    hide FrameOk;
    if j == |fs| - 1 {
    } else {
      assert Others(fs)[..j] == fs[..j] && Others(fs)[j] == fs[j];
      if Last(fs).stage.Unrecorded? { FrameAt(log, Outer(g), Others(fs), j); } else { FrameAt(log, g, Others(fs), j); }
    }
  }

  /** A run's host is not the ring of a later run. */
  lemma HostIsEarlier(log: seq<LogRing>, g: Grove, fs: seq<Frame>, j: nat, m: nat)
    requires Linked(log, g, fs) && OwnRings(g.tree.ring, fs) && j <= m < |fs|
    ensures fs[j].host != fs[m].ring
  {
    hide EndsBy, OneOpen, NoneOpenBy, WordsAfter, Front;
    FrameAt(log, g, fs, j);
    var x := CurrentIs(g.tree.ring, fs[..j]);
  }

  /** Nobody who has not finished has interrupted a run that is not active. */
  lemma NoneHosted(n: nat, s: Scene, i: nat)
    requires Inv(n, s) && i < |s.frames| && s.frames[i] != [] && !IsActive(Last(s.frames[i]))
    ensures var log, f := s.world.log, Last(s.frames[i]);
            f.ring < |log| && forall k | log[f.ring].pcons <= k < |log[f.ring].pend| :: !log[f.ring].pend[k].open
  {
    hide Tracing, FrameOk, OwnRings;
    var log, fs := s.world.log, s.frames[i];
    var f, g := Last(fs), s.world.threads[i];
    SceneFacts(n, s, i);
    FramesAreUnder(log, g, fs);
    forall k | log[f.ring].pcons <= k < |log[f.ring].pend|
      ensures !log[f.ring].pend[k].open
    {
      if log[f.ring].pend[k].open {
        var r := log[f.ring].pend[k].ring;
        assert Owned(s.frames, r);
        var i', j' :| 0 <= i' < |s.frames| && 0 <= j' < |s.frames[i']| && !s.frames[i'][j'].stage.Unrecorded? && s.frames[i'][j'].ring == r;
        HostOf(n, s, i', j', f.ring, k);
        if i' == i {
          HostIsEarlier(log, g, fs, j', |fs| - 1);
        } else {
          OthersAreOthers(n, s, i, i', |fs| - 1, j');
        }
      }
    }
  }

  lemma HostOf(n: nat, s: Scene, i: nat, j: nat, x: nat, k: nat)
    requires Inv(n, s) && i < |s.frames| && j < |s.frames[i]| && !s.frames[i][j].stage.Unrecorded?
    requires x < |s.world.log| && s.world.log[x].pcons <= k < |s.world.log[x].pend| && s.world.log[x].pend[k].open && s.world.log[x].pend[k].ring == s.frames[i][j].ring
    ensures x == s.frames[i][j].host && k == s.frames[i][j].index
  {
    hide Tracing, OneOpen, EndsBy, WordsAfter, Front;
    SceneFacts(n, s, i);
    FrameAt(s.world.log, s.world.threads[i], s.frames[i], j);
    OneIsOnly(s.world.log, s.frames[i][j].ring, s.frames[i][j].host, s.frames[i][j].index, x, k);
  }

  /** The rings of one thread's runs are not those of another's. */
  lemma OthersAreOthers(n: nat, s: Scene, i: nat, i': nat, j: nat, j': nat)
    requires Inv(n, s) && i < |s.frames| && i' < |s.frames| && i != i' && j < |s.frames[i]| && j' < |s.frames[i']|
    ensures var f, f' := s.frames[i][j], s.frames[i'][j'];
            f.ring != f'.ring && f.ring != f'.host && f.host != f'.ring && f.host != f'.host
    ensures s.world.threads[i].tree.ring != s.frames[i'][j'].ring && s.world.threads[i].tree.ring != s.frames[i'][j'].host
  {
    hide Tracing, FrameOk, OwnRings;
    SceneFacts(n, s, i);
    SceneFacts(n, s, i');
    FramesAreUnder(s.world.log, s.world.threads[i], s.frames[i]);
    FramesAreUnder(s.world.log, s.world.threads[i'], s.frames[i']);
    TidsDiffer(s.world.log, s.world.threads, i, i');
  }

  lemma TidsDiffer(log: seq<LogRing>, threads: seq<Grove>, i: nat, j: nat)
    requires Distinct(log, threads) && i < |threads| && j < |threads| && i != j
    ensures threads[i].tree.ring < |log| && threads[j].tree.ring < |log| && log[threads[i].tree.ring].tid != log[threads[j].tree.ring].tid
  {
  }

  /** A run that has logged its return may close its interruption. */
  lemma ClosesEnabled(n: nat, s: Scene, i: nat)
    requires Inv(n, s) && i < |s.frames| && s.frames[i] != [] && Last(s.frames[i]).stage.Closing?
    ensures var f := Last(s.frames[i]); Enabled(n, s.world.log, s.world.threads[i], Leave(f.host, f.index))
  {
    hide Tracing, OwnRings, Linked, FrameOk, Holds, NoneOpenBelow, Leading, Fresh, MayLeave, LeaveOn, AllTraced, AllOwned, AllEnd, OnlyOpen;
    var log, g, fs := s.world.log, s.world.threads[i], s.frames[i];
    var f := Last(fs);
    SceneFacts(n, s, i);
    RecordOf(log, g, fs);
    FramesAreUnder(log, g, fs);
    assert fs[|fs| - 1] == f;
    FrameHolds(n, log, g, fs);
    NoneHosted(n, s, i);
    ClosingMayLeave(n, log, g, fs);
    ClosingLeaves(n, log, g, fs);
    ClosingIsOnly(log, g, fs);
  }

  lemma ClosingIsOnly(log: seq<LogRing>, g: Grove, fs: seq<Frame>)
    requires ThreadOk(log, g, fs) && fs != [] && Last(fs).stage.Closing?
    ensures var f := Last(fs); OnlyOpen(log, f.host, f.index) && log[f.host].pend[f.index].ring == f.ring
  {
    RecordOf(log, g, fs);
  }

  lemma ClosingMayLeave(n: nat, log: seq<LogRing>, g: Grove, fs: seq<Frame>)
    requires Tracing(n, log, g) && ThreadOk(log, g, fs) && fs != [] && Last(fs).stage.Closing? && Holds(Top(g), Last(fs).ring)
    requires var r := Last(fs).ring; r < |log| && forall k | log[r].pcons <= k < |log[r].pend| :: !log[r].pend[k].open
    ensures MayLeave(Top(g), Last(fs).ring) && TipOf(Top(g), Last(fs).ring) == log[Last(fs).ring].prod
  {
    hide Laid, After, Bounded, Leading, Hanging, NothingElse, OwnRings, Holds, Fresh, MayLeave, OneOpen, Within;
    TracedStands(n, log, g);
    TopFacts(n, log, g);
    OpenIsToTheEnd(n, log, g);
    RecordOf(log, g, fs);
    MayLeaveIfEnded(log, Last(fs).ring, TopIntr(log, g), Top(g), TopStart(log, g));
    PutIsLaid(n, log, Last(fs).ring, 0, TopIntr(log, g), Top(g), TopStart(log, g));
  }

  /** What is left of it is fresh, or at the front. */
  lemma ClosingLeaves(n: nat, log: seq<LogRing>, g: Grove, fs: seq<Frame>)
    requires Tracing(n, log, g) && ThreadOk(log, g, fs) && fs != [] && Last(fs).stage.Closing?
    requires var r := Last(fs).ring; r < |log| && Holds(Top(g), r) && NoneOpenBelow(g, r) && MayLeave(Top(g), r) && TipOf(Top(g), r) == log[r].prod
    ensures var b := LeaveOn(Top(g), Last(fs).ring); if g.hung == [] then Leading(b) else Fresh(b)
  {
    hide Laid, After, Bounded, Leading, Hanging, NothingElse, OwnRings, Holds, Fresh, MayLeave, OneOpen, Within, NoneOpen, Front, TipOf, LeaveOn;
    var f := Last(fs);
    var r := f.ring;
    TracedStands(n, log, g);
    TopFacts(n, log, g);
    RecordOf(log, g, fs);
    PartIsNot(log, g, fs) by { hide Tracing, Standing; }
    if g.hung != [] && Front(g.tree, r) { FrontIsOpen(g.tree, r); }
    if log[f.host].pend[f.index].sidx == f.start {
      OneStarts(log, r, f.host, f.index);
      LaidStarts(log, r, f.start, TopIntr(log, g), Top(g), TopStart(log, g));
    }
    if g.hung == [] { LeaveIsLeading(Top(g), r, f.start); } else { HungFresh(log, g.tree.ring, Top(g), TopStart(log, g)) by { hide Front; } LeaveIsFresh(Top(g), r, f.start); }
  }

  lemma OneStarts(log: seq<LogRing>, r: nat, h: nat, k: nat)
    requires OneOpen(log, r, h, k)
    ensures forall x, y | 0 <= x < |log| && log[x].pcons <= y < |log[x].pend| ::
              log[x].pend[y].open && log[x].pend[y].ring == r ==> log[x].pend[y].sidx == log[h].pend[k].sidx
  {
  }

  /** Whatever a statement of the wrapper does to the rings, they are as it needs them. */
  lemma DeedIsEnabled(n: nat, s: Scene, i: nat, d: Deed)
    requires Inv(n, s) && May(n, s, i, d) && !d.HandsBack?
    ensures i < |s.frames| && (d.Records? || d.LogsExit? || d.Closes? ==> s.frames[i] != [])
    ensures Enabled(n, s.world.log, s.world.threads[i], ActOf(s, i, d)) && Foreign(s.world.log, s.world.threads, ActOf(s, i, d))
  {
    hide Tracing, Linked, OwnRings, Relabels, Untouched, AtTail, Holds, NoneOpenBelow, MayLeave, Leading, Fresh, OnlyOpen, EndBefore, Clean, NotRooted;
    hide AllOwned, AllEnd, AllTraced, LeaveOn;
    var log, g, fs := s.world.log, s.world.threads[i], s.frames[i];
    SceneFacts(n, s, i);
    match d {
      case Logs(k) => LogsEnabled(n, log, g, fs, k);
      case Signals(q) => TailOf(n, log, g, fs);
      case Records => RecordsEnabled(n, log, g, fs);
      case LogsExit(k) => FrameHolds(n, log, g, fs);
      case Closes => ClosesEnabled(n, s, i);
      case TakesOver(q, depth) =>
        forall j | 0 <= j < |s.world.threads|
          ensures NotRooted(s.world.threads[j], q)
        {
          FreeIsNotRooted(n, s, j, q);
        }
    }
  }

  lemma FreeIsNotRooted(n: nat, s: Scene, j: nat, q: nat)
    requires Inv(n, s) && j < |s.frames| && Free(s, q)
    ensures j < |s.world.threads| && NotRooted(s.world.threads[j], q)
  {
    hide Tracing, FrameOk, OwnRings;
    SceneFacts(n, s, j);
    var g := s.world.threads[j];
    forall i | 0 <= i < |g.hung|
      ensures g.hung[i].ring != q
    {
      var m := HungAreFrames(s.world.log, g, s.frames[j], i);
    }
  }

  // ---- what a statement leaves ------------------------------------------------------------------------

  function FramesAfter(s: Scene, i: nat, d: Deed): seq<Frame>
    requires i < |s.world.threads| == |s.frames|
    requires d.Records? || d.HandsBack? || d.LogsExit? || d.Closes? ==> s.frames[i] != []
  {
    var log, g, fs := s.world.log, s.world.threads[i], s.frames[i];
    match d
    case Logs(_) => fs
    case Signals(q) => fs + [Frame(Unrecorded, q, Current(g.tree.ring, fs), 0, if q < |log| then log[q].prod else 0)]
    case Records => Others(fs) + [RecordedFrame(log, Last(fs))]
    case HandsBack => Others(fs) + [Last(fs).(stage := Returning)]
    case LogsExit(_) => Others(fs) + [Last(fs).(stage := Closing)]
    case Closes => Others(fs)
    case TakesOver(_, _) => fs
  }

  function RecordedFrame(log: seq<LogRing>, f: Frame): Frame
  {
    f.(stage := Running, index := if f.host < |log| then |log[f.host].pend| else 0)
  }

  /** A statement of thread `i`. */
  ghost predicate Does(n: nat, s: Scene, i: nat, d: Deed, s': Scene)
    requires 0 < n
  {
    May(n, s, i, d) && s'.frames == s.frames[i := FramesAfter(s, i, d)] &&
    if d.HandsBack? then s'.world == s.world else Moves(n, s.world, Step(i, ActOf(s, i, d)), s'.world)
  }

  /** What matters to a run of the wrapper is the same. */
  predicate SameFor(log: seq<LogRing>, log': seq<LogRing>, f: Frame)
  {
    |log'| == |log| && f.ring < |log| && f.host < |log| &&
    log'[f.ring].tid == log[f.ring].tid && log'[f.ring].depth == log[f.ring].depth && log'[f.ring].prod == log[f.ring].prod &&
    log'[f.host].tid == log[f.host].tid && log'[f.host].depth == log[f.host].depth && log'[f.host].pcons == log[f.host].pcons &&
    (forall x, y | 0 <= x < |log| && log'[x].pcons <= y < |log'[x].pend| && log'[x].pend[y].ring == f.ring ::
       log[x].pcons <= y < |log[x].pend| && log'[x].pend[y] == log[x].pend[y]) &&
    (!f.stage.Unrecorded? ==> f.index < |log[f.host].pend| <= |log'[f.host].pend| && log'[f.host].pend[f.index] == log[f.host].pend[f.index]) &&
    (f.stage.Running? ==> |log'[f.host].pend| == |log[f.host].pend| && log'[f.host].prod == log[f.host].prod) &&
    (f.stage.Closing? ==> log'[f.ring].pend == log[f.ring].pend && log'[f.ring].pcons == log[f.ring].pcons)
  }

  lemma FrameStays(log: seq<LogRing>, log': seq<LogRing>, tree: Bracket, tree': Bracket, lower: seq<Frame>, f: Frame)
    requires FrameOk(log, tree, lower, f) && SameFor(log, log', f) && tree'.ring == tree.ring && (Front(tree, f.ring) ==> Front(tree', f.ring))
    ensures FrameOk(log', tree', lower, f)
  {
    hide Front;
  }

  /** The runs are as they should be, one by one, and the parts are on the same rings as before. */
  lemma {:induction false} Relink(log: seq<LogRing>, g: Grove, log': seq<LogRing>, g': Grove, fs: seq<Frame>)
    requires Linked(log, g, fs) && SameRings(g, g')
    requires forall j | 0 <= j < |fs| :: FrameOk(log', g'.tree, fs[..j], fs[j])
    ensures Linked(log', g', fs)
    decreases |fs|
  {
    hide FrameOk;
    if fs != [] {
      var lower := Others(fs);
      assert fs[..|fs| - 1] == lower;
      forall j | 0 <= j < |lower|
        ensures FrameOk(log', g'.tree, lower[..j], lower[j])
      {
        assert lower[..j] == fs[..j] && lower[j] == fs[j];
      }
      if Last(fs).stage.Unrecorded? {
        assert g'.hung[|g'.hung| - 1].ring == g.hung[|g.hung| - 1].ring;
        Relink(log, Outer(g), log', Outer(g'), lower);
      } else {
        Relink(log, g, log', g', lower);
      }
    }
  }

  /** All runs of a thread stay as they were. */
  lemma Stays(log: seq<LogRing>, g: Grove, log': seq<LogRing>, g': Grove, fs: seq<Frame>)
    requires ThreadOk(log, g, fs) && SameRings(g, g') && |log'| == |log|
    requires forall j | 0 <= j < |fs| :: SameFor(log, log', fs[j]) && (Front(g.tree, fs[j].ring) ==> Front(g'.tree, fs[j].ring))
    ensures ThreadOk(log', g', fs)
  {
    hide FrameOk, SameFor, Front;
    forall j | 0 <= j < |fs|
      ensures FrameOk(log', g'.tree, fs[..j], fs[j])
    {
      FrameAt(log, g, fs, j);
      FrameStays(log, log', g.tree, g'.tree, fs[..j], fs[j]);
    }
    Relink(log, g, log', g', fs);
  }

  lemma SameRingsSelf(g: Grove)
    ensures SameRings(g, g)
  {
  }

  lemma PutIsSame(log: seq<LogRing>, r: nat, k: nat, f: Frame)
    requires r < |log| && f.ring < |log| && f.host < |log| && f.ring != r && (f.stage.Running? ==> f.host != r)
    requires !f.stage.Unrecorded? ==> f.index < |log[f.host].pend|
    ensures SameFor(log, PutLog(log, r, k), f)
  {
  }

  lemma EnterIsSame(log: seq<LogRing>, h: nat, q: nat, f: Frame)
    requires h < |log| && q < |log| && f.ring < |log| && f.host < |log| && f.ring != q && (f.stage.Running? ==> f.host != h) && (f.stage.Closing? ==> f.ring != h)
    requires !f.stage.Unrecorded? ==> f.index < |log[f.host].pend|
    ensures SameFor(log, EnterLog(log, h, q), f)
  {
  }

  lemma LeaveIsSame(log: seq<LogRing>, h: nat, j: nat, f: Frame)
    requires h < |log| && j < |log[h].pend| && log[h].pend[j].ring < |log| && f.ring < |log| && f.host < |log| && f.ring != log[h].pend[j].ring
    requires !f.stage.Unrecorded? ==> f.index < |log[f.host].pend| && log[f.host].pend[f.index].ring == f.ring
    requires f.stage.Closing? ==> f.ring != h
    ensures SameFor(log, LeaveLog(log, h, j), f)
  {
  }

  lemma AcquireIsSame(log: seq<LogRing>, q: nat, tid: nat, depth: nat, f: Frame)
    requires q < |log| && f.ring < |log| && f.host < |log| && f.ring != q && f.host != q
    requires !f.stage.Unrecorded? ==> f.index < |log[f.host].pend|
    ensures SameFor(log, AcquireLog(log, q, tid, depth), f)
  {
  }

  /** What a run's record is. */
  lemma FrameFacts(log: seq<LogRing>, g: Grove, fs: seq<Frame>, j: nat)
    requires ThreadOk(log, g, fs) && j < |fs|
    ensures fs[j].ring < |log| && fs[j].host < |log| && FrameOk(log, g.tree, fs[..j], fs[j])
    ensures !fs[j].stage.Unrecorded? ==> fs[j].index < |log[fs[j].host].pend| && log[fs[j].host].pend[fs[j].index].ring == fs[j].ring
  {
    hide Front, EndsBy, NoneOpenBy, WordsAfter;
    FrameAt(log, g, fs, j);
    if !fs[j].stage.Unrecorded? { OneIs(log, fs[j].ring, fs[j].host, fs[j].index); }
  }

  /** The current ring is no ring of a run that is not active, and not what an active run has
      interrupted. */
  lemma CurrentIsNobodyElses(log: seq<LogRing>, g: Grove, fs: seq<Frame>, j: nat)
    requires ThreadOk(log, g, fs) && j < |fs|
    ensures !IsActive(fs[j]) ==> fs[j].ring != Current(g.tree.ring, fs)
    ensures IsActive(fs[j]) ==> fs[j].host != Current(g.tree.ring, fs)
  {
    hide Linked;
    var m := CurrentIs(g.tree.ring, fs);
    if IsActive(fs[j]) { HostIsEarlier(log, g, fs, j, m); }
  }

  /** The runs below the innermost. */
  lemma LowerOk(log: seq<LogRing>, g: Grove, fs: seq<Frame>)
    requires ThreadOk(log, g, fs) && fs != []
    ensures FrameOk(log, g.tree, Others(fs), Last(fs))
    ensures if Last(fs).stage.Unrecorded? then g.hung != [] && Last(g.hung).ring == Last(fs).ring && ThreadOk(log, Outer(g), Others(fs))
            else ThreadOk(log, g, Others(fs))
    ensures Others(fs) + [Last(fs)] == fs
  {
    hide FrameOk;
    LowerIsOwn(g.tree.ring, fs);
  }

  /** The innermost run goes on to its next stage. */
  lemma NextStage(log: seq<LogRing>, g: Grove, lower: seq<Frame>, f: Frame)
    requires ThreadOk(log, g, lower) && FrameOk(log, g.tree, lower, f) && !f.stage.Unrecorded?
    requires f.ring != g.tree.ring && forall j | 0 <= j < |lower| :: lower[j].ring != f.ring
    ensures ThreadOk(log, g, lower + [f])
  {
    hide FrameOk;
    assert Others(lower + [f]) == lower;
  }

  lemma LogsKeeps(n: nat, log: seq<LogRing>, g: Grove, fs: seq<Frame>, k: nat)
    requires ThreadOk(log, g, fs) && (fs == [] || Last(fs).stage.Running?)
    requires var r := Current(g.tree.ring, fs); r < |log| && Holds(Top(g), r)
    ensures var r := Current(g.tree.ring, fs); ThreadOk(PutLog(log, r, k), WithTop(g, PutOn(Top(g), r, k)), fs)
  {
    hide FrameOk, Holds, PutOn, Linked, OwnRings, SameFor, Front;
    var r := Current(g.tree.ring, fs);
    var log', g' := PutLog(log, r, k), WithTop(g, PutOn(Top(g), r, k));
    PutFront(g, r, k);
    if fs == [] {
      Stays(log, g, log', g', fs);
    } else {
      var f, lower := Last(fs), Others(fs);
      LowerOk(log, g, fs);
      forall j | 0 <= j < |lower|
        ensures SameFor(log, log', lower[j]) && (Front(g.tree, lower[j].ring) ==> Front(g'.tree, lower[j].ring))
      {
        PutFrame(log, g, fs, k, j);
        PutFrontOf(g, r, k, lower[j].ring);
      }
      Stays(log, g, log', g', lower);
      PutFrontOf(g, r, k, f.ring);
      LogsFrame(log, k, g.tree, g'.tree, lower, f);
      LowerIsOwn(g.tree.ring, fs);
      NextStage(log', g', lower, f);
    }
  }

  lemma PutFrame(log: seq<LogRing>, g: Grove, fs: seq<Frame>, k: nat, j: nat)
    requires ThreadOk(log, g, fs) && j < |fs| - 1
    ensures Last(fs).ring < |log| && SameFor(log, PutLog(log, Last(fs).ring, k), fs[j])
  {
    hide FrameOk, Linked, SameFor;
    FrameFacts(log, g, fs, j);
    FrameFacts(log, g, fs, |fs| - 1);
    HostIsEarlier(log, g, fs, j, |fs| - 1);
    PutIsSame(log, Last(fs).ring, k, fs[j]);
  }

  lemma PutFront(g: Grove, r: nat, k: nat)
    requires Holds(Top(g), r)
    ensures SameRings(g, WithTop(g, PutOn(Top(g), r, k)))
  {
  }

  lemma PutFrontOf(g: Grove, r: nat, k: nat, x: nat)
    requires Holds(Top(g), r)
    ensures Front(g.tree, x) ==> Front(WithTop(g, PutOn(Top(g), r, k)).tree, x)
  {
    hide Front;
    if g.hung == [] { PutKeepsFront(g.tree, r, k, x); }
  }

  lemma LogsFrame(log: seq<LogRing>, k: nat, tree: Bracket, tree': Bracket, lower: seq<Frame>, f: Frame)
    requires FrameOk(log, tree, lower, f) && (f.stage.Running? || f.stage.Returning?) && tree'.ring == tree.ring && (Front(tree, f.ring) ==> Front(tree', f.ring))
    ensures f.ring < |log| && FrameOk(PutLog(log, f.ring, k), tree', lower, f)
  {
    hide Front;
  }

  lemma SignalsKeeps(log: seq<LogRing>, g: Grove, fs: seq<Frame>, q: nat)
    requires ThreadOk(log, g, fs) && q < |log| && q != g.tree.ring && (forall j | 0 <= j < |fs| :: fs[j].ring != q)
    requires Current(g.tree.ring, fs) < |log| && Under(log, Current(g.tree.ring, fs), q) && NoneOpenBy(log, q) && EndsBy(log, q, log[q].prod)
    ensures ThreadOk(log, g.(hung := g.hung + [Starting(log, q)]), fs + [Frame(Unrecorded, q, Current(g.tree.ring, fs), 0, log[q].prod)])
  {
    hide FrameOk, Linked, OwnRings;
    var f := Frame(Unrecorded, q, Current(g.tree.ring, fs), 0, log[q].prod);
    StartsFrame(log, g.tree, fs, q);
    Pushed(g.hung, Starting(log, q), Start(log));
    HangsToo(log, g, g.(hung := g.hung + [Starting(log, q)]), fs, f);
  }

  lemma StartsFrame(log: seq<LogRing>, tree: Bracket, fs: seq<Frame>, q: nat)
    requires q < |log| && Current(tree.ring, fs) < |log| && Under(log, Current(tree.ring, fs), q) && NoneOpenBy(log, q) && EndsBy(log, q, log[q].prod)
    ensures FrameOk(log, tree, fs, Frame(Unrecorded, q, Current(tree.ring, fs), 0, log[q].prod))
  {
  }

  lemma HangsToo(log: seq<LogRing>, g: Grove, g': Grove, fs: seq<Frame>, f: Frame)
    requires ThreadOk(log, g, fs) && FrameOk(log, g.tree, fs, f) && f.stage.Unrecorded? && f.ring != g.tree.ring
    requires forall j | 0 <= j < |fs| :: fs[j].ring != f.ring
    requires g'.hung != [] && g'.tree == g.tree && Others(g'.hung) == g.hung && Last(g'.hung).ring == f.ring
    ensures ThreadOk(log, g', fs + [f])
  {
    hide FrameOk;
    assert Others(fs + [f]) == fs;
    assert Outer(g') == g;
  }

  lemma RecordsKeeps(log: seq<LogRing>, g: Grove, fs: seq<Frame>)
    requires ThreadOk(log, g, fs) && fs != [] && Last(fs).stage.Unrecorded? && g.hung != [] && AtTail(Top(Outer(g)), Last(fs).host)
    requires var h := Last(fs).host; h < |log| && log[h].pcons <= |log[h].pend|
    ensures var f := Last(fs);
            f.host < |log| && f.ring < |log| &&
            ThreadOk(EnterLog(log, f.host, f.ring), Marked(Outer(g), f.host, EnterOn(Top(Outer(g)), f.host, Top(g))), Others(fs) + [RecordedFrame(log, f)])
  {
    hide FrameOk, AtTail, EnterOn, Mark, Linked, OwnRings, SameFor, Front, Marked;
    var f, lower, o := Last(fs), Others(fs), Outer(g);
    LowerOk(log, g, fs);
    FrameFacts(log, g, fs, |fs| - 1);
    var log', g' := EnterLog(log, f.host, f.ring), Marked(o, f.host, EnterOn(Top(o), f.host, Top(g)));
    RecordRings(o, f.host, Top(g));
    LowerIsOwn(g.tree.ring, fs);
    forall j | 0 <= j < |lower|
      ensures SameFor(log, log', lower[j]) && (Front(o.tree, lower[j].ring) ==> Front(g'.tree, lower[j].ring))
    {
      EnterFrame(log, g, fs, j);
      RecordFrontOf(o, f.host, Top(g), lower[j].ring);
    }
    Stays(log, o, log', g', lower);
    RecordsFrame(log, g.tree, g'.tree, lower, f);
    NextStage(log', g', lower, RecordedFrame(log, f));
  }

  lemma EnterFrame(log: seq<LogRing>, g: Grove, fs: seq<Frame>, j: nat)
    requires ThreadOk(log, g, fs) && j < |fs| - 1 && Last(fs).stage.Unrecorded?
    ensures var f := Last(fs); f.ring < |log| && f.host < |log| && SameFor(log, EnterLog(log, f.host, f.ring), fs[j])
  {
    hide Linked, SameFor, EndsBy, NoneOpenBy, OneOpen, WordsAfter, Front;
    var f := Last(fs);
    LowerOk(log, g, fs);
    FrameFacts(log, g, fs, j);
    FrameFacts(log, g, fs, |fs| - 1);
    assert Others(fs)[j] == fs[j];
    CurrentIsNobodyElses(log, Outer(g), Others(fs), j);
    EnterIsSame(log, f.host, f.ring, fs[j]);
  }

  lemma RecordRings(o: Grove, h: nat, d: Bracket)
    requires AtTail(Top(o), h)
    ensures SameRings(o, Marked(o, h, EnterOn(Top(o), h, d)))
  {
    hide AtTail, EnterOn, Mark;
    EnterRing(Top(o), h, d);
    if o.hung != [] {
      MarkedRings(Others(o.hung), h);
    }
  }

  lemma {:induction false} MarkedRings(hung: seq<Bracket>, h: nat)
    ensures forall i | 0 <= i < |hung| :: MarkHung(hung, h)[i].ring == hung[i].ring
    decreases |hung|
  {
    hide Mark;
    if hung != [] { MarkedRings(Others(hung), h); }
  }

  lemma RecordFrontOf(o: Grove, h: nat, d: Bracket, x: nat)
    requires AtTail(Top(o), h)
    ensures Front(o.tree, x) ==> Front(Marked(o, h, EnterOn(Top(o), h, d)).tree, x)
  {
    hide Front, AtTail, EnterOn, Mark;
    if o.hung == [] { EnterKeepsFront(o.tree, h, d, x); } else { MarkKeepsFront(o.tree, h, x); }
  }

  lemma RecordsFrame(log: seq<LogRing>, tree: Bracket, tree': Bracket, lower: seq<Frame>, f: Frame)
    requires FrameOk(log, tree, lower, f) && f.stage.Unrecorded? && tree'.ring == tree.ring
    requires f.host < |log| && log[f.host].pcons <= |log[f.host].pend|
    ensures f.host < |log| && f.ring < |log| && FrameOk(EnterLog(log, f.host, f.ring), tree', lower, RecordedFrame(log, f))
  {
    hide Front;
    var log', k: nat := EnterLog(log, f.host, f.ring), |log[f.host].pend|;
    assert log'[f.host].pend[k] == Recorded(log, f.host, f.ring);
    assert OneOpen(log', f.ring, f.host, k);
  }

  lemma HandsBackKeeps(log: seq<LogRing>, g: Grove, fs: seq<Frame>)
    requires ThreadOk(log, g, fs) && fs != [] && Last(fs).stage.Running?
    ensures ThreadOk(log, g, Others(fs) + [Last(fs).(stage := Returning)])
  {
    hide OneOpen, Front, EndsBy, WordsAfter;
    LowerOk(log, g, fs);
    LowerIsOwn(g.tree.ring, fs);
    NextStage(log, g, Others(fs), Last(fs).(stage := Returning));
  }

  lemma LogsExitKeeps(n: nat, log: seq<LogRing>, g: Grove, fs: seq<Frame>, k: nat)
    requires ThreadOk(log, g, fs) && fs != [] && Last(fs).stage.Returning? && 0 < k && Bounded(n, log) && Holds(Top(g), Last(fs).ring)
    ensures var r := Last(fs).ring;
            r < |log| && ThreadOk(PutLog(log, r, k), WithTop(g, PutOn(Top(g), r, k)), Others(fs) + [Last(fs).(stage := Closing)])
  {
    hide FrameOk, Holds, PutOn, Linked, OwnRings, SameFor, Front, Bounded;
    var f, lower := Last(fs), Others(fs);
    LowerOk(log, g, fs);
    FrameFacts(log, g, fs, |fs| - 1);
    var log', g' := PutLog(log, f.ring, k), WithTop(g, PutOn(Top(g), f.ring, k));
    PutFront(g, f.ring, k);
    forall j | 0 <= j < |lower|
      ensures SameFor(log, log', lower[j]) && (Front(g.tree, lower[j].ring) ==> Front(g'.tree, lower[j].ring))
    {
      PutFrame(log, g, fs, k, j);
      PutFrontOf(g, f.ring, k, lower[j].ring);
    }
    Stays(log, g, log', g', lower);
    PutFrontOf(g, f.ring, k, f.ring);
    ExitFrame(n, log, k, g.tree, g'.tree, lower, f);
    LowerIsOwn(g.tree.ring, fs);
    NextStage(log', g', lower, f.(stage := Closing));
  }

  lemma ExitFrame(n: nat, log: seq<LogRing>, k: nat, tree: Bracket, tree': Bracket, lower: seq<Frame>, f: Frame)
    requires FrameOk(log, tree, lower, f) && f.stage.Returning? && tree'.ring == tree.ring && (Front(tree, f.ring) ==> Front(tree', f.ring))
    requires 0 < k && Bounded(n, log)
    ensures f.ring < |log| && FrameOk(PutLog(log, f.ring, k), tree', lower, f.(stage := Closing))
  {
    hide Front;
    LogsFrame(log, k, tree, tree', lower, f);
    assert BoundedRing(n, |log|, log[f.ring]);
  }

  lemma ClosesKeeps(log: seq<LogRing>, g: Grove, fs: seq<Frame>)
    requires ThreadOk(log, g, fs) && fs != [] && Last(fs).stage.Closing? && Holds(Top(g), Last(fs).ring) && Last(fs).ring != Top(g).ring
    ensures var f := Last(fs);
            f.host < |log| && f.index < |log[f.host].pend| && log[f.host].pend[f.index].ring == f.ring < |log| &&
            ThreadOk(LeaveLog(log, f.host, f.index), WithTop(g, LeaveOn(Top(g), f.ring)), Others(fs))
  {
    hide FrameOk, Holds, LeaveOn, Linked, OwnRings, SameFor, Front;
    var f, lower := Last(fs), Others(fs);
    LowerOk(log, g, fs);
    FrameFacts(log, g, fs, |fs| - 1);
    LowerIsOwn(g.tree.ring, fs);
    var log', g' := LeaveLog(log, f.host, f.index), WithTop(g, LeaveOn(Top(g), f.ring));
    forall j | 0 <= j < |lower|
      ensures SameFor(log, log', lower[j]) && (Front(g.tree, lower[j].ring) ==> Front(g'.tree, lower[j].ring))
    {
      LeaveFrame(log, g, fs, j);
      if g.hung == [] { LeaveKeepsFront(g.tree, f.ring, lower[j].ring); }
    }
    Stays(log, g, log', g', lower);
  }

  lemma LeaveFrame(log: seq<LogRing>, g: Grove, fs: seq<Frame>, j: nat)
    requires ThreadOk(log, g, fs) && j < |fs| - 1 && Last(fs).stage.Closing?
    ensures var f := Last(fs);
            f.host < |log| && f.index < |log[f.host].pend| && log[f.host].pend[f.index].ring == f.ring < |log| &&
            SameFor(log, LeaveLog(log, f.host, f.index), fs[j])
  {
    hide Linked, SameFor, EndsBy, NoneOpenBy, OneOpen, WordsAfter, Front;
    var f := Last(fs);
    LowerOk(log, g, fs);
    FrameFacts(log, g, fs, j);
    FrameFacts(log, g, fs, |fs| - 1);
    assert Others(fs)[j] == fs[j];
    CurrentIsNobodyElses(log, g, Others(fs), j);
    LeaveIsSame(log, f.host, f.index, fs[j]);
  }

  lemma TakesOverKeeps(log: seq<LogRing>, g: Grove, fs: seq<Frame>, q: nat, tid: nat, depth: nat)
    requires ThreadOk(log, g, fs) && q < |log| && q != g.tree.ring && forall j | 0 <= j < |fs| :: fs[j].ring != q
    ensures ThreadOk(AcquireLog(log, q, tid, depth), Relabelled(g, q, depth), fs)
    ensures ThreadOk(AcquireLog(log, q, tid, depth), g, fs)
  {
    hide FrameOk, Linked, OwnRings, SameFor, Front, Relabel;
    var log', g' := AcquireLog(log, q, tid, depth), Relabelled(g, q, depth);
    RelabelledRings(g, q, depth);
    SameRingsSelf(g);
    forall j | 0 <= j < |fs|
      ensures SameFor(log, log', fs[j]) && (Front(g.tree, fs[j].ring) ==> Front(g'.tree, fs[j].ring))
    {
      FrameFacts(log, g, fs, j);
      HostIsSomebody(log, g, fs, j);
      AcquireIsSame(log, q, tid, depth, fs[j]);
      RelabelKeepsFront(g.tree, q, depth, fs[j].ring);
    }
    Stays(log, g, log', g', fs);
    Stays(log, g, log', g, fs);
  }

  lemma HostIsSomebody(log: seq<LogRing>, g: Grove, fs: seq<Frame>, j: nat)
    requires ThreadOk(log, g, fs) && j < |fs|
    ensures fs[j].host == g.tree.ring || exists m :: 0 <= m < j && fs[m].ring == fs[j].host
  {
    hide Front, EndsBy, NoneOpenBy, WordsAfter, OneOpen;
    FrameAt(log, g, fs, j);
    var m := CurrentIs(g.tree.ring, fs[..j]);
    if m >= 0 { assert fs[m].ring == fs[j].host; }
  }

  /** A statement on another thread. */
  lemma OtherThreadStays(n: nat, s: Scene, i: nat, d: Deed, j: nat)
    requires Inv(n, s) && May(n, s, i, d) && !d.HandsBack? && j < |s.frames| && j != i
    requires i < |s.frames| && (d.Records? || d.LogsExit? || d.Closes? ==> s.frames[i] != [])
    requires Enabled(n, s.world.log, s.world.threads[i], ActOf(s, i, d))
    ensures ThreadOk(ActLog(n, s.world.log, s.world.threads[i], ActOf(s, i, d)), s.world.threads[j], s.frames[j])
  {
    hide FrameOk, Linked, OwnRings, SameFor, Front, Tracing, Holds, AtTail, MayLeave, Leading, Fresh, EndBefore, EndBeforeHung, Relabels, Untouched;
    hide AllOwned, AllEnd, AllTraced, NoneOpenBelow, LeaveOn, Inv;
    var log, g, fs := s.world.log, s.world.threads[j], s.frames[j];
    SceneFacts(n, s, j);
    SceneFacts(n, s, i);
    SameRingsSelf(g);
    if d.TakesOver? {
      TakesOverKeeps(log, g, fs, d.q, log[s.world.threads[i].tree.ring].tid, d.depth);
    } else {
      forall m | 0 <= m < |fs|
        ensures SameFor(log, ActLog(n, log, s.world.threads[i], ActOf(s, i, d)), fs[m])
      {
        OtherFrameStays(n, s, i, d, j, m);
      }
      Stays(log, g, ActLog(n, log, s.world.threads[i], ActOf(s, i, d)), g, fs);
    }
  }

  lemma OtherFrameStays(n: nat, s: Scene, i: nat, d: Deed, j: nat, m: nat)
    requires Inv(n, s) && May(n, s, i, d) && !d.HandsBack? && !d.TakesOver? && j < |s.frames| && j != i && m < |s.frames[j]|
    requires i < |s.frames| && (d.Records? || d.LogsExit? || d.Closes? ==> s.frames[i] != [])
    requires Enabled(n, s.world.log, s.world.threads[i], ActOf(s, i, d))
    ensures SameFor(s.world.log, ActLog(n, s.world.log, s.world.threads[i], ActOf(s, i, d)), s.frames[j][m])
  {
    hide FrameOk, Linked, OwnRings, SameFor, Front, Tracing, Holds, AtTail, MayLeave, Leading, Fresh, EndBefore, EndBeforeHung, Untouched;
    hide AllOwned, AllEnd, AllTraced, NoneOpenBelow, LeaveOn, Inv;
    var log, f := s.world.log, s.frames[j][m];
    SceneFacts(n, s, j);
    SceneFacts(n, s, i);
    FrameFacts(log, s.world.threads[j], s.frames[j], m);
    var x := CurrentIs(s.world.threads[i].tree.ring, s.frames[i]);
    if s.frames[i] != [] {
      OthersAreOthers(n, s, i, j, |s.frames[i]| - 1, m);
      if x >= 0 { OthersAreOthers(n, s, i, j, x, m); }
    }
    RootIsAnother(n, s, i, j, m);
    match d {
      case Logs(k) => PutIsSame(log, Current(s.world.threads[i].tree.ring, s.frames[i]), k, f);
      case Signals(q) => SameAsItself(log, f);
      case Records => EnterIsSame(log, Last(s.frames[i]).host, Last(s.frames[i]).ring, f);
      case LogsExit(k) => PutIsSame(log, Last(s.frames[i]).ring, k, f);
      case Closes =>
        FrameFacts(log, s.world.threads[i], s.frames[i], |s.frames[i]| - 1);
        LeaveIsSame(log, Last(s.frames[i]).host, Last(s.frames[i]).index, f);
    }
  }

  lemma SameAsItself(log: seq<LogRing>, f: Frame)
    requires f.ring < |log| && f.host < |log| && (!f.stage.Unrecorded? ==> f.index < |log[f.host].pend|)
    ensures SameFor(log, log, f)
  {
  }

  /** A thread's ring is not the ring of another thread's run, nor what that has interrupted. */
  lemma RootIsAnother(n: nat, s: Scene, i: nat, j: nat, m: nat)
    requires Inv(n, s) && i < |s.frames| && j < |s.frames| && i != j && m < |s.frames[j]|
    ensures s.world.threads[i].tree.ring != s.frames[j][m].ring && s.world.threads[i].tree.ring != s.frames[j][m].host
  {
    hide Tracing, FrameOk, OwnRings;
    SceneFacts(n, s, i);
    SceneFacts(n, s, j);
    FramesAreUnder(s.world.log, s.world.threads[j], s.frames[j]);
    TidsDiffer(s.world.log, s.world.threads, i, j);
  }

  /** The thread itself. */
  lemma OwnThreadKeeps(n: nat, s: Scene, i: nat, d: Deed)
    requires Inv(n, s) && May(n, s, i, d) && !d.HandsBack? && i < |s.frames| && (d.Records? || d.LogsExit? || d.Closes? ==> s.frames[i] != [])
    requires Enabled(n, s.world.log, s.world.threads[i], ActOf(s, i, d))
    ensures var log, g, a := s.world.log, s.world.threads[i], ActOf(s, i, d);
            ThreadOk(ActLog(n, log, g, a), ActGrove(n, log, g, a), FramesAfter(s, i, d))
  {
    hide FrameOk, Linked, OwnRings, Tracing, Holds, AtTail, MayLeave, Leading, Fresh, EndBefore, EndBeforeHung, Relabels, Untouched, Bounded;
    hide AllOwned, AllEnd, AllTraced, NoneOpenBelow, LeaveOn, PutOn, EnterOn, Marked, Relabelled, Inv, WithTop, PutLog, EnterLog, LeaveLog, AcquireLog;
    var log, g, fs := s.world.log, s.world.threads[i], s.frames[i];
    SceneFacts(n, s, i);
    IsBounded(n, log, g);
    match d {
      case Logs(k) => LogsKeeps(n, log, g, fs, k);
      case Signals(q) =>
        FreeIsUnnamed(n, s, q);
        SignalsKeeps(log, g, fs, q);
      case Records =>
        assert BoundedRing(n, |log|, log[Last(fs).host]) by { BoundedAt(n, log, Last(fs).host); }
        RecordsKeeps(log, g, fs);
      case LogsExit(k) => LogsExitKeeps(n, log, g, fs, k);
      case Closes =>
        FrameHolds(n, log, g, fs);
        FrameFacts(log, g, fs, |fs| - 1);
        ClosesKeeps(log, g, fs);
      case TakesOver(q, depth) => TakesOverKeeps(log, g, fs, q, log[g.tree.ring].tid, depth);
    }
  }

  lemma IsBounded(n: nat, log: seq<LogRing>, g: Grove)
    requires Tracing(n, log, g)
    ensures Bounded(n, log) && g.tree.ring < |log|
  {
    hide Bounded, Laid, Leading, Hanging, NothingElse;
  }

  lemma BoundedAt(n: nat, log: seq<LogRing>, r: nat)
    requires Bounded(n, log) && r < |log|
    ensures BoundedRing(n, |log|, log[r])
  {
  }

  /** Of a ring that nobody has, all interruptions are finished, and ended where its words end or
      before. */
  lemma FreeIsUnnamed(n: nat, s: Scene, q: nat)
    requires Inv(n, s) && q < |s.world.log| && Free(s, q)
    ensures NoneOpenBy(s.world.log, q) && EndsBy(s.world.log, q, s.world.log[q].prod)
  {
    hide AllTraced, ThreadOk;
    var log := s.world.log;
    forall x, y | 0 <= x < |log| && log[x].pcons <= y < |log[x].pend|
      ensures log[x].pend[y].open ==> log[x].pend[y].ring != q
    {
      if log[x].pend[y].open {
        assert Owned(s.frames, log[x].pend[y].ring);
      }
    }
  }

  // ---- who owns the unfinished interruptions ----------------------------------------------------------

  lemma OwnedAfter(n: nat, s: Scene, i: nat, d: Deed, r: nat)
    requires Inv(n, s) && May(n, s, i, d) && i < |s.frames| && (d.Records? || d.HandsBack? || d.LogsExit? || d.Closes? ==> s.frames[i] != [])
    requires Owned(s.frames, r) && (d.Closes? ==> r != Last(s.frames[i]).ring)
    ensures Owned(s.frames[i := FramesAfter(s, i, d)], r)
  {
    hide AllTraced, ThreadOk, AllOwned, AllEnd, Relabels, Untouched;
    var a, j :| 0 <= a < |s.frames| && 0 <= j < |s.frames[a]| && !s.frames[a][j].stage.Unrecorded? && s.frames[a][j].ring == r;
    var after: seq<seq<Frame>> := s.frames[i := FramesAfter(s, i, d)];
    assert j < |after[a]| && !after[a][j].stage.Unrecorded? && after[a][j].ring == r;
  }

  lemma AllOwnedAfter(n: nat, s: Scene, i: nat, d: Deed)
    requires Inv(n, s) && May(n, s, i, d) && !d.HandsBack? && i < |s.frames| && (d.Records? || d.LogsExit? || d.Closes? ==> s.frames[i] != [])
    requires Enabled(n, s.world.log, s.world.threads[i], ActOf(s, i, d))
    ensures AllOwned(ActLog(n, s.world.log, s.world.threads[i], ActOf(s, i, d)), s.frames[i := FramesAfter(s, i, d)])
    ensures AllEnd(ActLog(n, s.world.log, s.world.threads[i], ActOf(s, i, d)))
  {
    hide Tracing, Holds, AtTail, MayLeave, Leading, Fresh, EndBefore, EndBeforeHung, Relabels, Untouched, Bounded, AllTraced, NoneOpenBelow, LeaveOn, ThreadOk;
    hide Owned, May;
    DeedSize(n, s, i, d);
    var log, log' := s.world.log, ActLog(n, s.world.log, s.world.threads[i], ActOf(s, i, d));
    var after: seq<seq<Frame>> := s.frames[i := FramesAfter(s, i, d)];
    forall x, y | 0 <= x < |log'| && log'[x].pcons <= y < |log'[x].pend| && log'[x].pend[y].open
      ensures Owned(after, log'[x].pend[y].ring)
    {
      if d.Records? && x == Last(s.frames[i]).host && y == |log[x].pend| {
        RecordedIsOwned(s, i);
      } else {
        assert y < |log[x].pend| && log[x].pend[y].open && log[x].pend[y].ring == log'[x].pend[y].ring;
        if d.Closes? && log[x].pend[y].ring == Last(s.frames[i]).ring {
          ClosedIsOther(n, s, i, x, y);
          assert false;
        }
        OwnedAfter(n, s, i, d, log[x].pend[y].ring);
      }
    }
  }

  lemma RecordedIsOwned(s: Scene, i: nat)
    requires i < |s.world.threads| == |s.frames| && s.frames[i] != []
    ensures Owned(s.frames[i := FramesAfter(s, i, Records)], Last(s.frames[i]).ring)
  {
    var after: seq<seq<Frame>> := s.frames[i := FramesAfter(s, i, Records)];
    var j := |after[i]| - 1;
    assert !after[i][j].stage.Unrecorded? && after[i][j].ring == Last(s.frames[i]).ring;
  }

  lemma ClosedIsOther(n: nat, s: Scene, i: nat, x: nat, y: nat)
    requires Inv(n, s) && i < |s.frames| && s.frames[i] != [] && Last(s.frames[i]).stage.Closing?
    requires x < |s.world.log| && s.world.log[x].pcons <= y < |s.world.log[x].pend| && s.world.log[x].pend[y].open
    requires s.world.log[x].pend[y].ring == Last(s.frames[i]).ring
    ensures x == Last(s.frames[i]).host && y == Last(s.frames[i]).index
  {
    hide AllTraced, ThreadOk, AllOwned, AllEnd;
    HostOf(n, s, i, |s.frames[i]| - 1, x, y);
  }

  /** Every statement that may be executed can be, and keeps everything as it should be. */
  lemma DeedKeeps(n: nat, s: Scene, i: nat, d: Deed) returns (s': Scene)
    requires Inv(n, s) && May(n, s, i, d)
    ensures Does(n, s, i, d, s') && Inv(n, s')
  {
    hide AllTraced, ThreadOk, AllOwned, AllEnd, Enabled, Foreign, Moves, FramesAfter, ActOf, May;
    DeedSize(n, s, i, d);
    var after: seq<seq<Frame>> := s.frames[i := FramesAfter(s, i, d)];
    if d.HandsBack? {
      s' := Scene(s.world, after);
      HandsBackIsOk(n, s, i);
    } else {
      DeedIsEnabled(n, s, i, d);
      var a := ActOf(s, i, d);
      var w' := World(ActLog(n, s.world.log, s.world.threads[i], a), s.world.threads[i := ActGrove(n, s.world.log, s.world.threads[i], a)]);
      MovesSo(n, s.world, i, a, w');
      MoveKeeps(n, s.world, Step(i, a), w');
      AllOwnedAfter(n, s, i, d);
      forall j | 0 <= j < |s.frames|
        ensures ThreadOk(w'.log, w'.threads[j], after[j])
      {
        if j == i { OwnThreadKeeps(n, s, i, d); } else { OtherThreadStays(n, s, i, d, j); }
      }
      s' := Scene(w', after);
    }
  }

  lemma DeedSize(n: nat, s: Scene, i: nat, d: Deed)
    requires May(n, s, i, d)
    ensures i < |s.world.threads| == |s.frames| && (d.Records? || d.HandsBack? || d.LogsExit? || d.Closes? ==> s.frames[i] != [])
    ensures d.HandsBack? ==> Last(s.frames[i]).stage.Running?
    ensures d.Closes? ==> Last(s.frames[i]).stage.Closing?
  {
    hide Relabels, Untouched, Free;
  }

  lemma MovesSo(n: nat, w: World, i: nat, a: Act, w': World)
    requires 0 < n && i < |w.threads| && Enabled(n, w.log, w.threads[i], a) && Foreign(w.log, w.threads, a)
    requires w' == World(ActLog(n, w.log, w.threads[i], a), w.threads[i := ActGrove(n, w.log, w.threads[i], a)])
    ensures Moves(n, w, Step(i, a), w')
  {
    hide Enabled, Foreign, ActLog, ActGrove;
  }

  lemma HandsBackIsOk(n: nat, s: Scene, i: nat)
    requires Inv(n, s) && May(n, s, i, HandsBack) && i < |s.frames| && s.frames[i] != []
    ensures Inv(n, Scene(s.world, s.frames[i := FramesAfter(s, i, HandsBack)]))
  {
    hide AllTraced, AllEnd, Linked, OwnRings, Owned;
    var after: seq<seq<Frame>> := s.frames[i := FramesAfter(s, i, HandsBack)];
    SceneFacts(n, s, i);
    HandsBackKeeps(s.world.log, s.world.threads[i], s.frames[i]);
    forall x, y | 0 <= x < |s.world.log| && s.world.log[x].pcons <= y < |s.world.log[x].pend| && s.world.log[x].pend[y].open
      ensures Owned(after, s.world.log[x].pend[y].ring)
    {
      OwnedAfter(n, s, i, HandsBack, s.world.log[x].pend[y].ring);
    }
  }

  /** So does every statement that is executed. */
  lemma DoesKeeps(n: nat, s: Scene, i: nat, d: Deed, s': Scene)
    requires Inv(n, s) && Does(n, s, i, d, s')
    ensures Inv(n, s')
  {
    hide Inv, May, Enabled, Foreign, ActLog, ActGrove, FramesAfter, ActOf;
    var s'' := DeedKeeps(n, s, i, d);
    assert s''.world == s'.world;
  }

  // ---- what the serializer leaves -----------------------------------------------------------------------

  /** The tree that a pass leaves has the same unfinished brackets; one that has been read in part is at
      the front. */
  predicate PassLeaves(t: Bracket, l: Bracket, x: nat, pos: nat)
  {
    (Front(t, x) ==> Front(l, x)) && (StartsAt(t, x, pos) ==> Front(l, x) || StartsAt(l, x, pos)) && (NoneOpen(l, x) ==> NoneOpen(t, x))
  }

  /** The records that a pass leaves are the ones that were there, but for where they start. */
  predicate SameRecords(log: seq<LogRing>, log': seq<LogRing>)
  {
    |log'| == |log| &&
    (forall q | 0 <= q < |log| ::
       log'[q].tid == log[q].tid && log'[q].depth == log[q].depth && log'[q].prod == log[q].prod && |log'[q].pend| == |log[q].pend| &&
       log[q].pcons <= log'[q].pcons) &&
    forall x, y | 0 <= x < |log| && log'[x].pcons <= y < |log'[x].pend| :: SameButStart(log[x].pend[y], log'[x].pend[y])
  }

  lemma PassRecords(log: seq<LogRing>, log': seq<LogRing>, t: Bracket, s: Span)
    requires t.ring < |log| && Reached(log, log', None, RootIntr(log, t.ring), t, s)
    ensures SameRecords(log, log')
    ensures forall q | 0 <= q < |log| && !Below(log, t.ring, q) :: log'[q] == log[q]
    ensures forall q, k | 0 <= q < |log| && Below(log, t.ring, q) && After(t, Start(log)).p[q] <= k < |log[q].pend| :: log'[q].pend[k] == log[q].pend[k]
    ensures SameBelow(log, t.ring, After(t, Start(log)), AfterSpan(t.ring, s, Start(log')))
  {
    hide LaidSpan, After, AfterSpan, Reached;
    var a := After(t, Start(log));
    ReachedFacts(log, log', None, RootIntr(log, t.ring), t, s);
    ShrunkBelow(log, log', None, t.ring, a);
    forall x | 0 <= x < |log|
      ensures log[x].pcons <= log'[x].pcons && forall y | log'[x].pcons <= y < |log'[x].pend| :: SameButStart(log[x].pend[y], log'[x].pend[y])
    {
      if Below(log, t.ring, x) { assert ShrunkRing(log[x], log'[x], a.p[x]); }
    }
    forall q, k | 0 <= q < |log| && Below(log, t.ring, q) && a.p[q] <= k < |log[q].pend|
      ensures log'[q].pend[k] == log[q].pend[k]
    {
      assert ShrunkRing(log[q], log'[q], a.p[q]);
    }
  }

  lemma OneOpenStays(log: seq<LogRing>, log': seq<LogRing>, r: nat, h: nat, k: nat)
    requires OneOpen(log, r, h, k) && SameRecords(log, log')
    ensures log'[h].pcons <= k ==> OneOpen(log', r, h, k)
    ensures k < log'[h].pcons ==> NoneOpenBy(log', r)
  {
    if log'[h].pcons <= k { assert SameButStart(log[h].pend[k], log'[h].pend[k]); }
    forall x, y | 0 <= x < |log'| && log'[x].pcons <= y < |log'[x].pend| && log'[x].pend[y].open && log'[x].pend[y].ring == r
      ensures x == h && y == k
    {
      assert SameButStart(log[x].pend[y], log'[x].pend[y]);
    }
  }

  lemma NamesStay(log: seq<LogRing>, log': seq<LogRing>, r: nat, pos: nat)
    requires SameRecords(log, log')
    ensures EndsBy(log, r, pos) ==> EndsBy(log', r, pos)
    ensures NoneOpenBy(log, r) ==> NoneOpenBy(log', r)
    ensures r < |log| && WordsAfter(log, r) ==> WordsAfter(log', r)
  {
    forall x, y | 0 <= x < |log'| && log'[x].pcons <= y < |log'[x].pend|
      ensures log'[x].pend[y].open == log[x].pend[y].open && log'[x].pend[y].ring == log[x].pend[y].ring &&
              log'[x].pend[y].eidx == log[x].pend[y].eidx && log'[x].pend[y].at == log[x].pend[y].at
    {
      assert SameButStart(log[x].pend[y], log'[x].pend[y]);
    }
  }

  /** An unfinished interruption is not dropped. */
  lemma NotDropped(n: nat, log: seq<LogRing>, log': seq<LogRing>, g: Grove, l: Bracket, r: nat, h: nat, k: nat)
    requires Tracing(n, log, g) && g.tree.ring < |log| && l.ring == g.tree.ring && l == g.tree.(body := l.body)
    requires Reached(log, log', None, RootIntr(log, g.tree.ring), g.tree, l.body) && Tracing(n, log', g.(tree := l))
    requires r < |log| && r != g.tree.ring && OneOpen(log, r, h, k) && log[h].pcons <= k && Below(log, g.tree.ring, h)
    requires NoneOpen(l, r) ==> NoneOpen(g.tree, r)
    ensures |log'| == |log| && h < |log| && log'[h].pcons <= k && OneOpen(log', r, h, k)
  {
    hide Laid, LaidSpan, After, AfterSpan, Reached, OneOpen, NoneOpen, Leading, Bounded, Hanging, NothingElse, Holds, SameRecords;
    var root, g' := g.tree.ring, g.(tree := l);
    OneIs(log, r, h, k);
    RootStart(n, log, g);
    RootStart(n, log', g');
    PassRecords(log, log', g.tree, l.body);
    SizesStay(log, log');
    AfterBody(l, Start(log'));
    AfterMoves(log', RootIntr(log', root), l, Start(log'));
    OneOpenStays(log, log', r, h, k);
    if k < log'[h].pcons {
      HoldsIfMet(log, r, h, k, RootIntr(log, root), g.tree, Start(log));
      HolderIsOpen(g.tree, r);
      UnmetIsNone(log', Start(log'), After(l, Start(log')), r, 0, 0);
      NoneOpenOnWay(log', r, RootIntr(log', root), l, Start(log'));
      NoneOpenToo(l, r);
    }
  }

  lemma SizesStay(log: seq<LogRing>, log': seq<LogRing>)
    requires SameRecords(log, log')
    ensures |log'| == |log| && forall q | 0 <= q < |log| :: |log'[q].pend| == |log[q].pend| && log'[q].prod == log[q].prod && log[q].pcons <= log'[q].pcons
  {
  }

  /** Where a run's words start is as it was, or all before them has been read. */
  lemma StartStays(n: nat, log: seq<LogRing>, log': seq<LogRing>, g: Grove, l: Bracket, r: nat, h: nat, k: nat, pos: nat)
    requires Tracing(n, log, g) && g.tree.ring < |log| && l.ring == g.tree.ring && l == g.tree.(body := l.body)
    requires Reached(log, log', None, RootIntr(log, g.tree.ring), g.tree, l.body) && Tracing(n, log', g.(tree := l))
    requires r < |log| && r != g.tree.ring && OneOpen(log, r, h, k) && log[h].pcons <= k && Below(log, g.tree.ring, h) && log[h].pend[k].sidx == pos
    requires PassLeaves(g.tree, l, r, pos) && |log'| == |log| && log'[h].pcons <= k && OneOpen(log', r, h, k)
    ensures Front(l, r) || log'[h].pend[k].sidx == pos
  {
    hide Laid, LaidSpan, After, AfterSpan, Reached, OneOpen, NoneOpen, Leading, Bounded, Hanging, NothingElse, Front, SameRecords;
    var root, g' := g.tree.ring, g.(tree := l);
    OneIs(log, r, h, k);
    OneIs(log', r, h, k);
    RootStart(n, log, g);
    RootStart(n, log', g');
    PassRecords(log, log', g.tree, l.body);
    AfterBody(l, Start(log'));
    if k < After(g.tree, Start(log)).p[h] {
      OneStarts(log, r, h, k);
      LaidStarts(log, r, pos, RootIntr(log, root), g.tree, Start(log));
      if !Front(l, r) {
        StartsInside(g.tree, l, r, pos);
        StartsAreLaid(log', r, pos, RootIntr(log', root), l, Start(log'), h, k);
      }
    }
  }

  lemma StartsInside(t: Bracket, l: Bracket, r: nat, pos: nat)
    requires PassLeaves(t, l, r, pos) && StartsSpanAt(t.body, r, pos) && t.ring != r && !Front(l, r)
    ensures StartsSpanAt(l.body, r, pos)
  {
    hide Front;
  }

  lemma PassFrame(n: nat, log: seq<LogRing>, log': seq<LogRing>, g: Grove, l: Bracket, fs: seq<Frame>, j: nat)
    requires Tracing(n, log, g) && ThreadOk(log, g, fs) && j < |fs| && l.ring == g.tree.ring && l == g.tree.(body := l.body)
    requires Reached(log, log', None, RootIntr(log, g.tree.ring), g.tree, l.body) && Tracing(n, log', g.(tree := l))
    requires PassLeaves(g.tree, l, fs[j].ring, fs[j].start)
    ensures FrameOk(log', l, fs[..j], fs[j])
  {
    hide Reached, OneOpen, NoneOpen, Front, StartsAt, EndsBy, NoneOpenBy, WordsAfter, Tracing, Linked;
    var f := fs[j];
    FrameFacts(log, g, fs, j);
    FramesAreUnder(log, g, fs);
    PassRecords(log, log', g.tree, l.body);
    NamesStay(log, log', f.ring, f.start);
    assert f.ring != g.tree.ring;
    if !f.stage.Unrecorded? {
      NotDropped(n, log, log', g, l, f.ring, f.host, f.index);
      assert SameButStart(log[f.host].pend[f.index], log'[f.host].pend[f.index]);
      if !Front(g.tree, f.ring) { StartStays(n, log, log', g, l, f.ring, f.host, f.index, f.start); }
    }
  }

  lemma PassThread(n: nat, log: seq<LogRing>, log': seq<LogRing>, g: Grove, l: Bracket, fs: seq<Frame>)
    requires Tracing(n, log, g) && ThreadOk(log, g, fs) && l.ring == g.tree.ring && l == g.tree.(body := l.body)
    requires Reached(log, log', None, RootIntr(log, g.tree.ring), g.tree, l.body) && Tracing(n, log', g.(tree := l))
    requires forall j | 0 <= j < |fs| :: PassLeaves(g.tree, l, fs[j].ring, fs[j].start)
    ensures ThreadOk(log', g.(tree := l), fs)
  {
    hide FrameOk, Linked, OwnRings, Tracing, Reached, PassLeaves, RootIntr;
    forall j | 0 <= j < |fs|
      ensures FrameOk(log', l, fs[..j], fs[j])
    {
      PassFrame(n, log, log', g, l, fs, j);
    }
    IsBounded(n, log', g.(tree := l));
    Relink(log, g, log', g.(tree := l), fs);
  }

  /** Another thread's pass. */
  lemma PassOther(n: nat, log: seq<LogRing>, log': seq<LogRing>, t: Bracket, s: Span, g: Grove, fs: seq<Frame>)
    requires ThreadOk(log, g, fs) && t.ring < |log| && log[t.ring].tid != log[g.tree.ring].tid
    requires Reached(log, log', None, RootIntr(log, t.ring), t, s)
    ensures ThreadOk(log', g, fs)
  {
    hide Reached, Linked, OwnRings, Front, EndsBy, NoneOpenBy, WordsAfter, OneOpen;
    FramesAreUnder(log, g, fs);
    PassRecords(log, log', t, s);
    SameRingsSelf(g);
    forall j | 0 <= j < |fs|
      ensures FrameOk(log', g.tree, fs[..j], fs[j])
    {
      FrameFacts(log, g, fs, j);
      NamesStay(log, log', fs[j].ring, fs[j].start);
      assert log'[fs[j].host] == log[fs[j].host] && log'[fs[j].ring] == log[fs[j].ring];
      if !fs[j].stage.Unrecorded? { OneOpenStays(log, log', fs[j].ring, fs[j].host, fs[j].index); }
    }
    Relink(log, g, log', g, fs);
  }

  lemma RecordsOwned(log: seq<LogRing>, log': seq<LogRing>, frames: seq<seq<Frame>>)
    requires SameRecords(log, log') && AllOwned(log, frames) && AllEnd(log)
    ensures AllOwned(log', frames) && AllEnd(log')
  {
    hide Owned;
    forall x, y | 0 <= x < |log'| && log'[x].pcons <= y < |log'[x].pend|
      ensures SameButStart(log[x].pend[y], log'[x].pend[y])
    {
    }
  }

  /** A pass over thread `i` leaves everything as it should be. */
  lemma ReachKeeps(n: nat, s: Scene, i: nat, l: Bracket, w': World)
    requires Inv(n, s) && i < |s.frames| && AllTraced(n, w') && w'.threads == s.world.threads[i := s.world.threads[i].(tree := l)]
    requires s.world.threads[i].tree.ring < |s.world.log| && l.ring == s.world.threads[i].tree.ring && l == s.world.threads[i].tree.(body := l.body)
    requires Reached(s.world.log, w'.log, None, RootIntr(s.world.log, s.world.threads[i].tree.ring), s.world.threads[i].tree, l.body)
    requires forall j | 0 <= j < |s.frames[i]| :: PassLeaves(s.world.threads[i].tree, l, s.frames[i][j].ring, s.frames[i][j].start)
    ensures Inv(n, Scene(w', s.frames))
  {
    hide Tracing, Reached, Linked, OwnRings, PassLeaves, AllOwned, AllEnd, RootIntr, SameRecords, Distinct, ThreadOk;
    var g := s.world.threads[i];
    PassRecords(s.world.log, w'.log, g.tree, l.body);
    RecordsOwned(s.world.log, w'.log, s.frames);
    forall j | 0 <= j < |s.frames|
      ensures ThreadOk(w'.log, w'.threads[j], s.frames[j])
    {
      SceneFacts(n, s, i);
      SceneFacts(n, s, j);
      if j == i {
        TracedOne(n, w', i);
        PassThread(n, s.world.log, w'.log, g, l, s.frames[i]);
      } else {
        TidsDiffer(s.world.log, s.world.threads, i, j);
        PassOther(n, s.world.log, w'.log, g.tree, l.body, s.world.threads[j], s.frames[j]);
      }
    }
  }

  /** And so does a flush. */
  lemma FlushKeeps(n: nat, s: Scene, m: Move, w': World)
    requires Inv(n, s) && m.Pass? && Moves(n, s.world, m, w')
    ensures Inv(n, Scene(w', s.frames))
  {
    hide Tracing, Reached, Linked, OwnRings, AllOwned, AllEnd, RootIntr, Distinct, ThreadOk, Drop, Left, Grown, Leading, Ordered, Bounded, Front, StartsAt, NoneOpen, LaidRoot;
    var g := s.world.threads[m.thread];
    var d, i := Drop(g.tree).0, m.thread;
    TracedFacts(n, s.world.log, g);
    DropKeeps(n, g.tree);
    var w1 := World(m.dropped, s.world.threads[i := g.(tree := d)]);
    PassTraced(n, s.world, i, d, w1);
    forall j | 0 <= j < |s.frames[i]|
      ensures PassLeaves(g.tree, d, s.frames[i][j].ring, s.frames[i][j].start)
    {
      DropStarts(g.tree, s.frames[i][j].ring, s.frames[i][j].start);
    }
    ReachKeeps(n, s, i, d, w1);
    var l := Left(n, d, d, m.room, d.depth);
    LeftKeeps(n, d, d, m.room, d.depth);
    PassTraced(n, w1, i, l, w');
    forall j | 0 <= j < |s.frames[i]|
      ensures PassLeaves(d, l, s.frames[i][j].ring, s.frames[i][j].start)
    {
      LeftStarts(n, d, d, m.room, d.depth, s.frames[i][j].ring, s.frames[i][j].start);
    }
    ReachKeeps(n, Scene(w1, s.frames), i, l, w');
  }

  // ---- whole runs -----------------------------------------------------------------------------------------

  /** A statement of the wrapper, or of the code that it runs, on some thread; or a flush of some thread. */
  datatype Event = Statement(i: nat, d: Deed) | Serve(m: Move)

  ghost predicate Happens(n: nat, s: Scene, e: Event, s': Scene)
    requires 0 < n
  {
    match e
    case Statement(i, d) => Does(n, s, i, d, s')
    case Serve(m) => m.Pass? && Moves(n, s.world, m, s'.world) && s'.frames == s.frames
  }

  ghost predicate Happened(n: nat, s: Scene, es: seq<Event>, s': Scene)
    requires 0 < n
    decreases |es|
  {
    if es == [] then s' == s
    else exists mid :: Happened(n, s, Others(es), mid) && Happens(n, mid, Last(es), s')
  }

  /** The threads have just begun, and no handler has run. */
  ghost predicate JustBegun(n: nat, s: Scene)
  {
    0 < n && AllTraced(n, s.world) && |s.frames| == |s.world.threads| &&
    (forall i | 0 <= i < |s.frames| :: s.frames[i] == [] && s.world.threads[i].hung == []) &&
    forall q | 0 <= q < |s.world.log| :: s.world.log[q].pcons == |s.world.log[q].pend|
  }

  lemma FreshIsOk(n: nat, s: Scene)
    requires JustBegun(n, s)
    ensures Inv(n, s)
  {
    hide Tracing;
    assert Distinct(s.world.log, s.world.threads);
  }

  lemma EventKeeps(n: nat, s: Scene, e: Event, s': Scene) returns (m: seq<Move>)
    requires Inv(n, s) && Happens(n, s, e, s')
    ensures Inv(n, s') && |m| <= 1 && (if m == [] then s'.world == s.world else Moves(n, s.world, m[0], s'.world))
  {
    hide Inv, Moves, May, FramesAfter, ActOf;
    match e {
      case Statement(i, d) =>
        DoesKeeps(n, s, i, d, s');
        DeedSize(n, s, i, d);
        m := if d.HandsBack? then [] else [Step(i, ActOf(s, i, d))];
      case Serve(p) =>
        FlushKeeps(n, s, p, s'.world);
        assert s' == Scene(s'.world, s.frames);
        m := [p];
    }
  }

  /** Whatever signals arrive, on whatever threads and between whatever statements, however deeply their
      handlers nest, and whenever the serializer flushes what thread's ring: as long as no ring is taken over
      with a false label and no record touches a finished span of its ring, what a run of the wrapper relies on
      holds, and what has happened to the rings is a run of steps that were all enabled. */
  lemma {:induction false} EverythingHolds(n: nat, s: Scene, es: seq<Event>, s': Scene) returns (moves: seq<Move>)
    requires 0 < n && JustBegun(n, s) && Happened(n, s, es, s')
    ensures Inv(n, s') && Runs.Runs(n, s.world, moves, s'.world)
    decreases |es|
  {
    hide Inv, JustBegun, Happens, Moves, Runs.Runs;
    FreshIsOk(n, s);
    if es == [] {
      moves := [];
      RunsNone(n, s.world);
    } else {
      var mid :| Happened(n, s, Others(es), mid) && Happens(n, mid, Last(es), s');
      moves := EverythingHolds(n, s, Others(es), mid);
      var m := EventKeeps(n, mid, Last(es), s');
      if m != [] {
        RunsOn(n, s.world, moves, mid.world, m[0], s'.world);
        moves := moves + [m[0]];
      }
    }
  }

  /** And every statement whose turn it is can be executed then, with the same two conditions. */
  lemma NothingIsInTheWay(n: nat, s: Scene, es: seq<Event>, s': Scene, i: nat, d: Deed) returns (s'': Scene)
    requires 0 < n && JustBegun(n, s) && Happened(n, s, es, s') && May(n, s', i, d)
    ensures Does(n, s', i, d, s'')
  {
    hide Inv, JustBegun, Happened, Does, May, Runs.Runs;
    var moves := EverythingHolds(n, s, es, s');
    s'' := DeedKeeps(n, s', i, d);
  }

  // ---- when an interruption touches none ------------------------------------------------------------------

  /** A run that has logged anything on its ring may be interrupted: nothing touches an interruption by
      the ring then. */
  lemma LoggedIsUntouched(n: nat, s: Scene, i: nat, m: nat)
    requires Inv(n, s) && i < |s.frames| && m < |s.frames[i]| && s.frames[i][m].ring < |s.world.log|
    requires s.frames[i][m].start < s.world.log[s.frames[i][m].ring].prod
    ensures s.world.threads[i].tree.ring < |s.world.log| && Untouched(s.world.log, s.world.threads[i].tree.ring, s.frames[i][m].ring)
  {
    hide Tracing, Front, OneOpen, NoneOpenBy, WordsAfter;
    SceneFacts(n, s, i);
    FrameAt(s.world.log, s.world.threads[i], s.frames[i], m);
  }

  /** So may a thread, at any time. */
  lemma RootIsUntouched(n: nat, log: seq<LogRing>, g: Grove)
    requires Tracing(n, log, g)
    ensures g.tree.ring < |log| && Untouched(log, g.tree.ring, g.tree.ring)
  {
    hide Laid, After, Bounded, Leading, Hanging, NothingElse;
    var root := g.tree.ring;
    TracedStands(n, log, g);
    RootStart(n, log, g);
    Walked(n, log, g);
    forall x, k | 0 <= x < |log| && Below(log, root, x) && log[x].pcons <= k < |log[x].pend|
      ensures log[x].pend[k].ring != root
    {
      assert WalkedAll(log, WalkEnd(log, g), x);
      if k < TreeEnd(log, g).p[x] {
        OwnRing(log, root, x, k, RootIntr(log, root), g.tree, Start(log));
      } else {
        HungNamesDeeper(log, root, g.hung, TreeEnd(log, g), x, k);
      }
    }
  }

  lemma {:induction false} HungNamesDeeper(log: seq<LogRing>, root: nat, hung: seq<Bracket>, c: Cursor, x: nat, k: nat)
    requires Fits(log, c) && root < |log| && Hanging(log, root, hung, c) && Ahead(log, c) && Within(log, c) && Met(log, c, AfterHung(hung, c), x, k)
    ensures log[x].pend[k].ring != root
    decreases |hung|
  {
    hide Laid, After;
    if hung != [] {
      var c1, d := AfterHung(Others(hung), c), Last(hung);
      HungMoves(log, root, Others(hung), c);
      if k < c1.p[x] {
        HungNamesDeeper(log, root, Others(hung), c, x, k);
      } else {
        SubIs(log, HungIntr(d), d, c1);
        AfterBody(d, c1);
        OwnRingSpan(log, root, x, k, d.ring, End(log, HungIntr(d)), d.open, d.body, c1);
      }
    }
  }

  /** The runs of the wrapper have rings of their own. */
  lemma FramesAreOneEach(n: nat, s: Scene, i: nat)
    requires Inv(n, s) && i < |s.frames|
    ensures i < |s.world.threads| && OneEach(s.world.log, s.world.threads[i])
  {
    hide Tracing, EndsBy, WordsAfter, Front;
    var log, g, fs := s.world.log, s.world.threads[i], s.frames[i];
    SceneFacts(n, s, i);
    forall x, j | 0 <= x < |log| && log[x].pcons <= j < |log[x].pend| && log[x].pend[j].open
      ensures OneOpen(log, log[x].pend[j].ring, x, j)
    {
      var r := log[x].pend[j].ring;
      assert Owned(s.frames, r);
      var i', j' :| 0 <= i' < |s.frames| && 0 <= j' < |s.frames[i']| && !s.frames[i'][j'].stage.Unrecorded? && s.frames[i'][j'].ring == r;
      HostOf(n, s, i', j', x, j);
      SceneFacts(n, s, i');
      FrameAt(log, s.world.threads[i'], s.frames[i'], j');
    }
    forall m | 0 <= m < |g.hung|
      ensures NoneOpenBy(log, g.hung[m].ring) && g.hung[m].ring != g.tree.ring
    {
      var j := HungAreFrames(log, g, fs, m);
      FrameAt(log, g, fs, j);
    }
    HungDiffer(log, g, fs);
  }

  lemma {:induction false} HungDiffer(log: seq<LogRing>, g: Grove, fs: seq<Frame>)
    requires Linked(log, g, fs) && OwnRings(g.tree.ring, fs)
    ensures forall i, j | 0 <= i < j < |g.hung| :: g.hung[i].ring != g.hung[j].ring
    decreases |fs|
  {
    hide FrameOk;
    if fs != [] {
      LowerIsOwn(g.tree.ring, fs);
      if Last(fs).stage.Unrecorded? {
        HungDiffer(log, Outer(g), Others(fs));
        forall i | 0 <= i < |Outer(g).hung|
          ensures g.hung[i].ring != Last(g.hung).ring
        {
          var j := HungAreFrames(log, Outer(g), Others(fs), i);
        }
      } else {
        HungDiffer(log, g, Others(fs));
      }
    }
  }

  /** A run that is about to record its interruption, in any state that the wrapper gets into. Once it has done so and
      has logged, the thread's rings hold a tree of it in program order if and only if no finished span of the
      interrupted ring ends there, or nothing that the thread has logged since such a span is left on the rings. And
      they hold a tree at all if and only if no handler since then has had a ring that the new one has, or one
      that has interrupted it. */
  lemma RecordInOrder(n: nat, s: Scene, i: nat, k: nat)
    requires Inv(n, s) && i < |s.frames| && s.frames[i] != [] && Last(s.frames[i]).stage.Unrecorded? && 0 < k
    requires var log, f := s.world.log, Last(s.frames[i]);
             f.host < |log| && |log[f.host].pend| < log[f.host].pcons + 7 && RoomFor(n, log, f.ring, k)
    ensures i < |s.world.threads| && s.world.threads[i].tree.ring < |s.world.log| && MayRecord(s.world.log, s.world.threads[i], Last(s.frames[i]).host)
    ensures var log, g, h := s.world.log, s.world.threads[i], Last(s.frames[i]).host;
            Top(g).ring == Last(s.frames[i]).ring &&
            (KeepsOrder(log, g, h, k) <==> Untouched(log, g.tree.ring, h) || LoggedSince(log, g, h) == []) &&
            (StillHeld(log, g, h, k) <==> NotUsedSince(log, g, h))
  {
    hide Tracing, Linked, OwnRings, AllTraced, AllOwned, AllEnd, OneEach, AtTail, NoneOpenBelow, KeepsOrder, StillHeld, NotUsedSince, Untouched, LoggedSince;
    var log, g, fs := s.world.log, s.world.threads[i], s.frames[i];
    SceneFacts(n, s, i);
    RecordsReady(n, log, g, fs);
    FramesAreOneEach(n, s, i);
    InOrderExactly(n, log, g, Last(fs).host, k);
    HeldExactly(n, log, g, Last(fs).host, k);
  }

  // ---- when no handler runs ---------------------------------------------------------------------------------

  /** No interruption that a walk below ring `root` may meet is unfinished. */
  predicate AllClosed(log: seq<LogRing>, root: nat)
    requires root < |log|
  {
    forall x, y | 0 <= x < |log| && log[x].pcons <= y < |log[x].pend| && log[x].pend[y].ring < |log| && Under(log, root, log[x].pend[y].ring) ::
      !log[x].pend[y].open
  }

  lemma {:induction false} ClosedIsQuiet(log: seq<LogRing>, root: nat, it: LogIntr, b: Bracket, c: Cursor)
    requires Fits(log, c) && it.ring < |log| && Laid(log, it, b, c) && Ahead(log, c)
    requires root < |log| && Below(log, root, it.ring) && AllClosed(log, root)
    ensures Quiet(b.body)
    decreases b, 1
  {
    ClosedSpanIsQuiet(log, root, b.ring, End(log, it), b.open, b.body, c);
  }

  lemma {:induction false} ClosedSpanIsQuiet(log: seq<LogRing>, root: nat, r: nat, last: nat, open: bool, s: Span, c: Cursor)
    requires Fits(log, c) && r < |log| && LaidSpan(log, r, last, open, s, c) && Ahead(log, c)
    requires root < |log| && Below(log, root, r) && AllClosed(log, root)
    ensures Quiet(s)
    decreases s, 0
  {
    hide Laid, After;
    if s.Cut? {
      var it := log[r].pend[c.p[r]];
      var c1 := PassIntr(c, r, s.at);
      assert Under(log, root, it.ring);
      SubIsOpen(log, it, s.sub, c1);
      AfterMoves(log, it, s.sub, c1);
      ClosedIsQuiet(log, root, it, s.sub, c1);
      ClosedSpanIsQuiet(log, root, r, last, open, s.rest, After(s.sub, c1));
    }
  }

  lemma SubIsOpen(log: seq<LogRing>, it: LogIntr, b: Bracket, c: Cursor)
    requires Fits(log, c) && it.ring < |log| && Laid(log, it, b, c)
    ensures b.open == it.open
  {
  }

  /** While no run of the wrapper is on a thread, its tree has no unfinished interruption, and nothing hangs. */
  lemma NoHandlerIsQuiet(n: nat, s: Scene, i: nat)
    requires Inv(n, s) && i < |s.frames| && s.frames[i] == []
    ensures i < |s.world.threads| && Quiet(s.world.threads[i].tree.body) && s.world.threads[i].hung == []
  {
    hide Laid, Tracing, FrameOk, Owned;
    var log, g := s.world.log, s.world.threads[i];
    SceneFacts(n, s, i);
    TracedFacts(n, log, g);
    RootStart(n, log, g) by { TracedStands(n, log, g); }
    var root := g.tree.ring;
    forall x, y | 0 <= x < |log| && log[x].pcons <= y < |log[x].pend| && log[x].pend[y].ring < |log| && Under(log, root, log[x].pend[y].ring)
      ensures !log[x].pend[y].open
    {
      if log[x].pend[y].open { OwnerIsHere(n, s, i, log[x].pend[y].ring); }
    }
    ClosedIsQuiet(log, root, RootIntr(log, root), g.tree, Start(log));
  }

  /** A ring of the thread that a run of the wrapper has is one of a run on this thread. */
  lemma OwnerIsHere(n: nat, s: Scene, i: nat, r: nat)
    requires Inv(n, s) && i < |s.frames| && Owned(s.frames, r) && s.world.threads[i].tree.ring < |s.world.log|
    requires r < |s.world.log| && Under(s.world.log, s.world.threads[i].tree.ring, r)
    ensures s.frames[i] != []
  {
    hide Tracing, Linked, OwnRings;
    var k, j :| 0 <= k < |s.frames| && 0 <= j < |s.frames[k]| && !s.frames[k][j].stage.Unrecorded? && s.frames[k][j].ring == r;
    SceneFacts(n, s, k);
    FramesAreUnder(s.world.log, s.world.threads[k], s.frames[k]);
    OneThread(n, s.world, i, k);
  }

  lemma OneThread(n: nat, w: World, i: nat, k: nat)
    requires AllTraced(n, w) && i < |w.threads| && k < |w.threads|
    requires w.threads[i].tree.ring < |w.log| && w.threads[k].tree.ring < |w.log| && w.log[w.threads[i].tree.ring].tid == w.log[w.threads[k].tree.ring].tid
    ensures i == k
  {
    hide Tracing;
  }

  // ---- one handler from its signal to its return ---------------------------------------------------------------

  /** What a statement other than a take-over does to the rings, and to the runs of the wrapper on its thread. */
  lemma Effects(n: nat, s: Scene, i: nat, d: Deed, s': Scene)
    requires 0 < n && Inv(n, s) && Does(n, s, i, d, s') && !d.TakesOver?
    ensures i < |s.frames| == |s'.frames| == |s.world.threads| == |s'.world.threads|
    ensures s'.frames == s.frames[i := FramesAfter(s, i, d)] && s'.world.threads[i].tree.ring == s.world.threads[i].tree.ring
    ensures var log, root, fs := s.world.log, s.world.threads[i].tree.ring, s.frames[i];
            match d
            case Logs(k) => Current(root, fs) < |log| && s'.world.log == PutLog(log, Current(root, fs), k)
            case Records => fs != [] && Last(fs).host < |log| && Last(fs).ring < |log| && s'.world.log == EnterLog(log, Last(fs).host, Last(fs).ring)
            case LogsExit(k) => fs != [] && Last(fs).ring < |log| && s'.world.log == PutLog(log, Last(fs).ring, k)
            case Closes =>
              fs != [] && Last(fs).host < |log| && Last(fs).index < |log[Last(fs).host].pend| && log[Last(fs).host].pend[Last(fs).index].ring < |log| &&
              s'.world.log == LeaveLog(log, Last(fs).host, Last(fs).index)
            case _ => s'.world.log == log
  {
    hide Inv, FramesAfter, Foreign, Untouched, Relabels, Free;
    DeedSize(n, s, i, d);
    if !d.HandsBack? {
      ActRings(n, s.world.log, s.world.threads[i], ActOf(s, i, d));
    }
  }

  lemma ActRings(n: nat, log: seq<LogRing>, g: Grove, a: Act)
    requires Enabled(n, log, g, a)
    ensures match a
            case Put(r, k) => r < |log|
            case Record(h, q) => h < |log| && q < |log|
            case Leave(h, j) => h < |log| && j < |log[h].pend| && log[h].pend[j].ring < |log|
            case _ => true
  {
  }

  /** The signal, and the record of the interruption. */
  lemma SignalToRecord(n: nat, s: Scene, i: nat, q: nat) returns (s1: Scene, s2: Scene)
    requires 0 < n && Inv(n, s) && May(n, s, i, Signals(q))
    requires var log, root, h := s.world.log, s.world.threads[i].tree.ring, Current(s.world.threads[i].tree.ring, s.frames[i]);
             root < |log| && |log[h].pend| < log[h].pcons + 7 && Untouched(log, root, h)
    ensures Happens(n, s, Statement(i, Signals(q)), s1) && Happens(n, s1, Statement(i, Records), s2) && Inv(n, s2)
    ensures var log, h := s.world.log, Current(s.world.threads[i].tree.ring, s.frames[i]);
            q != h && s2.world.log == log[h := log[h].(pend := log[h].pend + [LogIntr(q, log[h].prod, log[q].prod, 0, true)])] &&
            i < |s.frames| == |s2.world.threads| && s2.world.threads[i].tree.ring == s.world.threads[i].tree.ring &&
            s2.frames == s.frames[i := s.frames[i] + [Frame(Running, q, h, |log[h].pend|, log[q].prod)]]
  {
    hide Inv, Does, Untouched, Free, Tracing;
    var log, fs := s.world.log, s.frames[i];
    var h := Current(s.world.threads[i].tree.ring, fs);
    s1 := DeedKeeps(n, s, i, Signals(q));
    Effects(n, s, i, Signals(q), s1);
    var f := Frame(Unrecorded, q, h, 0, log[q].prod);
    assert s1.frames[i] == fs + [f] && Others(fs + [f]) == fs;
    s2 := DeedKeeps(n, s1, i, Records);
    Effects(n, s1, i, Records, s2);
  }

  /** What the handler logs, and its return. */
  lemma RecordToReturn(n: nat, s: Scene, i: nat, fs: seq<Frame>, f: Frame, k: nat, x: nat) returns (s1: Scene, s2: Scene, s3: Scene, s4: Scene)
    requires 0 < n && Inv(n, s) && i < |s.frames| == |s.world.threads| && s.frames[i] == fs + [f] && f.stage.Running? && f.ring != f.host
    requires RoomFor(n, s.world.log, f.ring, k + x) && 0 < x
    requires f.host < |s.world.log| && f.index < |s.world.log[f.host].pend| && s.world.log[f.host].pend[f.index].ring == f.ring
    ensures Happens(n, s, Statement(i, Logs(k)), s1) && Happens(n, s1, Statement(i, HandsBack), s2)
    ensures Happens(n, s2, Statement(i, LogsExit(x)), s3) && Happens(n, s3, Statement(i, Closes), s4) && Inv(n, s4)
    ensures s4.frames == s.frames[i := fs]
    ensures var log, it := s.world.log, s.world.log[f.host].pend[f.index];
            s4.world.log == log[f.ring := log[f.ring].(prod := log[f.ring].prod + k + x)]
                               [f.host := log[f.host].(pend := log[f.host].pend[f.index := it.(eidx := log[f.ring].prod + k + x, open := false)])]
  {
    hide Inv, Does, Free, Tracing;
    var root := s.world.threads[i].tree.ring;
    assert Others(fs + [f]) == fs;
    s1 := DeedKeeps(n, s, i, Logs(k));
    Effects(n, s, i, Logs(k), s1);
    s2 := DeedKeeps(n, s1, i, HandsBack);
    Effects(n, s1, i, HandsBack, s2);
    assert Others(fs + [f.(stage := Returning)]) == fs;
    s3 := DeedKeeps(n, s2, i, LogsExit(x));
    Effects(n, s2, i, LogsExit(x), s3);
    assert Others(fs + [f.(stage := Closing)]) == fs;
    s4 := DeedKeeps(n, s3, i, Closes);
    Effects(n, s3, i, Closes, s4);
  }

  /** A handler that interrupts nothing that it touches, has room, and is not itself interrupted or flushed, goes through
      its six steps: what is left of it is the words on its ring, and one finished interruption, where its host was
      interrupted, of exactly these. No other ring changes, and nothing of any run of the wrapper. */
  lemma SignalToReturn(n: nat, s: Scene, i: nat, q: nat, k: nat, x: nat) returns (s': Scene)
    requires 0 < n && Inv(n, s) && May(n, s, i, Signals(q)) && 0 < x && RoomFor(n, s.world.log, q, k + x)
    requires var log, root, h := s.world.log, s.world.threads[i].tree.ring, Current(s.world.threads[i].tree.ring, s.frames[i]);
             root < |log| && |log[h].pend| < log[h].pcons + 7 && Untouched(log, root, h)
    ensures Inv(n, s') && s'.frames == s.frames
    ensures Happened(n, s, [Statement(i, Signals(q)), Statement(i, Records), Statement(i, Logs(k)), Statement(i, HandsBack), Statement(i, LogsExit(x)), Statement(i, Closes)], s')
    ensures var log, log', h := s.world.log, s'.world.log, Current(s.world.threads[i].tree.ring, s.frames[i]);
            |log'| == |log| && q != h && (forall r | 0 <= r < |log| && r != q && r != h :: log'[r] == log[r]) &&
            log'[q] == log[q].(prod := log[q].prod + k + x) &&
            log'[h] == log[h].(pend := log[h].pend + [LogIntr(q, log[h].prod, log[q].prod, log[q].prod + k + x, false)])
  {
    hide Inv, Happens, Happened, Untouched, Free;
    var log, fs := s.world.log, s.frames[i];
    var h := Current(s.world.threads[i].tree.ring, fs);
    var s1, s2 := SignalToRecord(n, s, i, q);
    var f := Frame(Running, q, h, |log[h].pend|, log[q].prod);
    var s3, s4, s5, s6 := RecordToReturn(n, s2, i, fs, f, k, x);
    s' := s6;
    assert s.frames[i := fs] == s.frames;
    SixHappened(n, s, s1, s2, s3, s4, s5, s', Statement(i, Signals(q)), Statement(i, Records), Statement(i, Logs(k)), Statement(i, HandsBack),
                Statement(i, LogsExit(x)), Statement(i, Closes));
  }

  lemma HappenedOn(n: nat, s: Scene, es: seq<Event>, mid: Scene, e: Event, s': Scene)
    requires 0 < n && Happened(n, s, es, mid) && Happens(n, mid, e, s')
    ensures Happened(n, s, es + [e], s')
  {
    hide Happens;
    assert Others(es + [e]) == es;
  }

  lemma SixHappened(n: nat, s: Scene, s1: Scene, s2: Scene, s3: Scene, s4: Scene, s5: Scene, s6: Scene,
                    e1: Event, e2: Event, e3: Event, e4: Event, e5: Event, e6: Event)
    requires 0 < n && Happens(n, s, e1, s1) && Happens(n, s1, e2, s2) && Happens(n, s2, e3, s3) && Happens(n, s3, e4, s4)
    requires Happens(n, s4, e5, s5) && Happens(n, s5, e6, s6)
    ensures Happened(n, s, [e1, e2, e3, e4, e5, e6], s6)
  {
    hide Happens, Happened;
    NothingHappened(n, s);
    HappenedOn(n, s, [], s, e1, s1);
    assert [] + [e1] == [e1] && [e1] + [e2] == [e1, e2] && [e1, e2] + [e3] == [e1, e2, e3];
    assert [e1, e2, e3] + [e4] == [e1, e2, e3, e4] && [e1, e2, e3, e4] + [e5] == [e1, e2, e3, e4, e5];
    assert [e1, e2, e3, e4, e5] + [e6] == [e1, e2, e3, e4, e5, e6];
    HappenedOn(n, s, [e1], s1, e2, s2);
    HappenedOn(n, s, [e1, e2], s2, e3, s3);
    HappenedOn(n, s, [e1, e2, e3], s3, e4, s4);
    HappenedOn(n, s, [e1, e2, e3, e4], s4, e5, s5);
    HappenedOn(n, s, [e1, e2, e3, e4, e5], s5, e6, s6);
  }

  lemma NothingHappened(n: nat, s: Scene)
    requires 0 < n
    ensures Happened(n, s, [], s)
  {
  }
}
