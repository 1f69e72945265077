/** The steps of one thread and of its handlers, and what the thread's rings hold at any moment
    (the handler wrapper of llvm/ngrt/rvpsignal.c over llvm/ngrt/ring.h and llvm/ngrt/ring.c).

    A handler first makes the ring it has acquired the thread's current ring and only then records
    its interruption. A signal that arrives in between interrupts the new ring, whose handler is not
    in the thread's tree yet; so besides its tree a thread may have brackets that hang. */
module Threads {
  import opened Basics
  import opened EventTree
  import opened EventLog
  import opened Producers

  /** A thread's tree, and the brackets of handlers whose interruptions have not been recorded yet,
      the outermost first. */
  datatype Grove = Grove(tree: Bracket, hung: seq<Bracket>)

  /** The part that the innermost handler works on. */
  function Top(g: Grove): Bracket
  {
    if g.hung == [] then g.tree else Last(g.hung)
  }

  function WithTop(g: Grove, b: Bracket): Grove
  {
    if g.hung == [] then g.(tree := b) else g.(hung := Others(g.hung) + [b])
  }

  /** All words of a thread that have not been discarded, in program order. */
  function FlattenHung(hung: seq<Bracket>): seq<Slot>
  {
    if hung == [] then [] else FlattenHung(Others(hung)) + Flatten(Last(hung))
  }

  function FlattenAll(g: Grove): seq<Slot>
  {
    Flatten(g.tree) + FlattenHung(g.hung)
  }

  /** The cursor after a walk of brackets that hang. */
  function AfterHung(hung: seq<Bracket>, c: Cursor): (c': Cursor)
    ensures |c'.w| == |c.w| && |c'.p| == |c.p|
  {
    if hung == [] then c else After(Last(hung), AfterHung(Others(hung), c))
  }

  function TreeEnd(log: seq<LogRing>, g: Grove): (c: Cursor)
    ensures Fits(log, c)
  {
    After(g.tree, Start(log))
  }

  function WalkEnd(log: seq<LogRing>, g: Grove): (c: Cursor)
    ensures Fits(log, c)
  {
    AfterHung(g.hung, TreeEnd(log, g))
  }

  /** The interruption that a bracket that hangs will be recorded as. */
  function HungIntr(d: Bracket): LogIntr
  {
    LogIntr(d.ring, 0, d.body.from, 0, true)
  }

  /** The handler has logged nothing yet, but others may have interrupted it. */
  predicate HangsAt(log: seq<LogRing>, root: nat, d: Bracket, c: Cursor)
    requires Fits(log, c) && root < |log|
  {
    d.ring < |log| && Under(log, root, d.ring) && Laid(log, HungIntr(d), d, c) && Fresh(d) && EndOf(d.body) == d.body.from
  }

  /** After the walk of the tree, the walk goes on over the brackets that hang. */
  predicate Hanging(log: seq<LogRing>, root: nat, hung: seq<Bracket>, c: Cursor)
    requires Fits(log, c) && root < |log|
  {
    hung != [] ==> Hanging(log, root, Others(hung), c) && HangsAt(log, root, Last(hung), AfterHung(Others(hung), c))
  }

  /** Every unserialized word and interruption on the rings of the thread is in its tree or hangs. */
  predicate NothingElse(log: seq<LogRing>, g: Grove)
    requires g.tree.ring < |log|
  {
    forall q | 0 <= q < |log| && Below(log, g.tree.ring, q) :: WalkedAll(log, WalkEnd(log, g), q)
  }

  /** The rings are within bounds, and hold the thread's tree and what hangs. */
  ghost predicate Standing(n: nat, log: seq<LogRing>, g: Grove)
  {
    0 < n && Bounded(n, log) && LaidRoot(log, g.tree) && Leading(g.tree) &&
    Hanging(log, g.tree.ring, g.hung, TreeEnd(log, g))
  }

  /** What producers and serializer keep between them: the thread's tree and what hangs are laid on
      the thread's rings, and are all that these hold. */
  ghost predicate Tracing(n: nat, log: seq<LogRing>, g: Grove)
  {
    Standing(n, log, g) && NothingElse(log, g)
  }

  // ---- the steps ---------------------------------------------------------------------------

  /** One atomic step of a thread or of a handler that runs on it: words are put; a handler makes
      its ring the current one, interrupting ring `host`; it records its interruption; it returns; a
      clean ring gets the label of a new holder. */
  datatype Act =
    | Put(ring: nat, count: nat)
    | Take(host: nat, ring: nat)
    | Record(host: nat, ring: nat)
    | Leave(host: nat, index: nat)
    | Acquire(ring: nat, tid: nat, depth: nat)

  predicate NoneOpenHung(hung: seq<Bracket>, r: nat)
  {
    hung != [] ==> NoneOpenHung(Others(hung), r) && NoneOpen(Last(hung), r)
  }

  /** No unfinished bracket on ring `r`, but perhaps in the innermost part. */
  predicate NoneOpenBelow(g: Grove, r: nat)
  {
    g.hung != [] ==> NoneOpen(g.tree, r) && NoneOpenHung(Others(g.hung), r)
  }

  predicate EndBeforeHung(hung: seq<Bracket>, h: nat, pos: nat)
  {
    hung != [] ==> EndBeforeHung(Others(hung), h, pos) && EndBefore(Last(hung), h, pos)
  }

  /** The thread without the bracket that hangs last. */
  function Outer(g: Grove): Grove
    requires g.hung != []
  {
    g.(hung := Others(g.hung))
  }

  /** Ring `q` is not the thread's own, and no handler that hangs has it. */
  predicate NotRooted(g: Grove, q: nat)
  {
    g.tree.ring != q && forall i | 0 <= i < |g.hung| :: g.hung[i].ring != q
  }

  /** What a step waits for, or is sure of: room on the ring; that the innermost handler logs on a
      ring it holds; and that a handler has logged something after the last interruption it suffered,
      and before it returns. Besides, two things that the code does not see to (module `Runs` has what
      becomes of it): that a handler has logged something before it is interrupted if its ring holds an
      earlier handler's words, and that a clean ring is taken over with a label that leaves true what
      still refers to it. */
  predicate Enabled(n: nat, log: seq<LogRing>, g: Grove, a: Act)
  {
    var root := g.tree.ring;
    match a
    case Put(r, k) =>
      r < |log| && Holds(Top(g), r) && NoneOpenBelow(g, r) && (g.hung != [] ==> r != Top(g).ring) &&
      log[r].prod + k < log[r].cons + n
    case Take(h, q) =>
      h < |log| && q < |log| && AtTail(Top(g), h) && Under(log, h, q)
    case Record(h, q) =>
      h < |log| && g.hung != [] && q == Top(g).ring && var o := Outer(g);
      AtTail(Top(o), h) && NoneOpenBelow(o, h) && EndBefore(o.tree, h, log[h].prod) && EndBeforeHung(o.hung, h, log[h].prod) &&
      q < |log| && Under(log, h, q) && |log[h].pend| < log[h].pcons + 7
    case Leave(h, j) =>
      OnlyOpen(log, h, j) && root < |log| && Below(log, root, h) &&
      var r := log[h].pend[j].ring;
      r != Top(g).ring && Holds(Top(g), r) && NoneOpenBelow(g, r) && MayLeave(Top(g), r) &&
      if g.hung == [] then Leading(LeaveOn(Top(g), r)) else Fresh(LeaveOn(Top(g), r))
    case Acquire(q, tid, depth) =>
      Clean(log, q) && NotRooted(g, q) && root < |log| && tid == log[root].tid && Relabels(log, root, q, tid, depth)
  }

  function ActLog(n: nat, log: seq<LogRing>, g: Grove, a: Act): (log': seq<LogRing>)
    requires Enabled(n, log, g, a)
    ensures |log'| == |log|
  {
    match a
    case Put(r, k) => PutLog(log, r, k)
    case Take(_, _) => log
    case Record(h, q) => EnterLog(log, h, q)
    case Leave(h, j) => LeaveLog(log, h, j)
    case Acquire(q, tid, depth) => AcquireLog(log, q, tid, depth)
  }

  function MarkHung(hung: seq<Bracket>, h: nat): (r: seq<Bracket>)
    ensures |r| == |hung|
  {
    if hung == [] then [] else MarkHung(Others(hung), h) + [Mark(Last(hung), h)]
  }

  /** The innermost part has become `b`, and ring `h` has a further interruption. */
  function Marked(g: Grove, h: nat, b: Bracket): Grove
  {
    if g.hung == [] then g.(tree := b) else Grove(Mark(g.tree, h), MarkHung(Others(g.hung), h) + [b])
  }

  function RelabelHung(hung: seq<Bracket>, q: nat, depth: nat): (r: seq<Bracket>)
    ensures |r| == |hung|
  {
    if hung == [] then [] else RelabelHung(Others(hung), q, depth) + [Relabel(Last(hung), q, depth)]
  }

  function Relabelled(g: Grove, q: nat, depth: nat): Grove
  {
    Grove(Relabel(g.tree, q, depth), RelabelHung(g.hung, q, depth))
  }

  /** What has become of a tree that was read before a step: a ring that is taken over gets its new
      label there too. */
  function ActSeen(b: Bracket, a: Act): Bracket
  {
    if a.Acquire? then Relabel(b, a.ring, a.depth) else b
  }

  function ActGrove(n: nat, log: seq<LogRing>, g: Grove, a: Act): (g': Grove)
    requires Enabled(n, log, g, a)
    ensures g'.tree.ring == g.tree.ring
  {
    match a
    case Put(r, k) => WithTop(g, PutOn(Top(g), r, k))
    case Take(_, q) => g.(hung := g.hung + [Starting(log, q)])
    case Record(h, _) => Marked(Outer(g), h, EnterOn(Top(Outer(g)), h, Top(g)))
    case Leave(h, j) => WithTop(g, LeaveOn(Top(g), log[h].pend[j].ring))
    case Acquire(q, _, depth) => Relabelled(g, q, depth)
  }

  /** The words that a step logs. */
  function ActWords(n: nat, log: seq<LogRing>, g: Grove, a: Act): seq<Slot>
    requires Enabled(n, log, g, a)
  {
    if a.Put? then Run(a.ring, log[a.ring].depth, log[a.ring].prod, log[a.ring].prod + a.count) else []
  }

  /** The words that the step's words go before. */
  function ActBeyond(n: nat, log: seq<LogRing>, g: Grove, a: Act): seq<Slot>
    requires Enabled(n, log, g, a)
  {
    if a.Put? then Beyond(Top(g), a.ring) else []
  }

  // ---- what hangs stays where it is ------------------------------------------------------------

  /** The walk over what hangs stays within bounds, and on the thread's own rings. */
  lemma {:induction false} HungMoves(log: seq<LogRing>, root: nat, hung: seq<Bracket>, c: Cursor)
    requires Fits(log, c) && root < |log| && Hanging(log, root, hung, c) && Within(log, c) && Ahead(log, c)
    ensures MovedBelow(log, root, c, AfterHung(hung, c)) && Within(log, AfterHung(hung, c)) && Ahead(log, AfterHung(hung, c))
    decreases |hung|
  {
    hide Laid, After;
    if hung != [] {
      var c1, d := AfterHung(Others(hung), c), Last(hung);
      HungMoves(log, root, Others(hung), c);
      AfterMoves(log, HungIntr(d), d, c1);
      StaysWithin(log, HungIntr(d), d, c1);
      BelowIsBelow(log, root, d.ring);
    }
  }

  lemma {:induction false} HungFrame(log: seq<LogRing>, log': seq<LogRing>, root: nat, hung: seq<Bracket>, c: Cursor, c': Cursor)
    requires Fits(log, c) && Fits(log', c') && root < |log| == |log'| && Agree(log, log', c, c', root)
    requires Hanging(log, root, hung, c)
    ensures Hanging(log', root, hung, c') && Agree(log, log', AfterHung(hung, c), AfterHung(hung, c'), root)
    decreases |hung|
  {
    hide Laid, After, Agree;
    if hung != [] {
      HungFrame(log, log', root, Others(hung), c, c');
      OneFrame(log, log', root, Last(hung), AfterHung(Others(hung), c), AfterHung(Others(hung), c'));
    }
  }

  lemma OneFrame(log: seq<LogRing>, log': seq<LogRing>, root: nat, d: Bracket, c: Cursor, c': Cursor)
    requires Fits(log, c) && Fits(log', c') && root < |log| == |log'| && Agree(log, log', c, c', root)
    requires HangsAt(log, root, d, c)
    ensures HangsAt(log', root, d, c') && Agree(log, log', After(d, c), After(d, c'), root)
  {
    hide Laid, After;
    BelowIsBelow(log, root, d.ring);
    LaidFrame(log, log', HungIntr(d), d, c, c');
    AfterMoves(log, HungIntr(d), d, c);
    AfterMoves(log', HungIntr(d), d, c');
    forall x | 0 <= x < |log| && Below(log, root, x)
      ensures After(d, c).w[x] == After(d, c').w[x] && After(d, c).p[x] == After(d, c').p[x]
    {
      assert Below(log, d.ring, x) <==> Below(log', d.ring, x);
    }
  }

  lemma Pushed(hung: seq<Bracket>, d: Bracket, c: Cursor)
    ensures Last(hung + [d]) == d && Others(hung + [d]) == hung
    ensures AfterHung(hung + [d], c) == After(d, AfterHung(hung, c))
    ensures FlattenHung(hung + [d]) == FlattenHung(hung) + Flatten(d)
  {
    hide Flatten, After;
    assert Others(hung + [d]) == hung;
  }

  lemma {:induction false} HungPut(log: seq<LogRing>, r: nat, k: nat, root: nat, hung: seq<Bracket>, c: Cursor)
    requires Fits(log, c) && root < |log| && r < |log| && Hanging(log, root, hung, c) && NoneOpenHung(hung, r)
    ensures Hanging(PutLog(log, r, k), root, hung, c)
    decreases |hung|
  {
    hide Laid, After, NoneOpen;
    if hung != [] {
      HungPut(log, r, k, root, Others(hung), c);
      FinishedStays(log, r, k, HungIntr(Last(hung)), Last(hung), AfterHung(Others(hung), c));
    }
  }

  lemma {:induction false} HungLeave(log: seq<LogRing>, h: nat, j: nat, root: nat, hung: seq<Bracket>, c: Cursor)
    requires Fits(log, c) && root < |log| && OnlyOpen(log, h, j) && Hanging(log, root, hung, c)
    requires NoneOpenHung(hung, log[h].pend[j].ring)
    ensures Hanging(LeaveLog(log, h, j), root, hung, c)
    decreases |hung|
  {
    hide Laid, After, NoneOpen, OnlyOpen;
    if hung != [] {
      HungLeave(log, h, j, root, Others(hung), c);
      OthersStay(log, h, j, HungIntr(Last(hung)), Last(hung), AfterHung(Others(hung), c));
      LeaveLabels(log, h, j);
    }
  }

  lemma LeaveLabels(log: seq<LogRing>, h: nat, j: nat)
    requires OnlyOpen(log, h, j)
    ensures h < |log| && j < |log[h].pend| && log[h].pend[j].ring < |log|
    ensures forall q | 0 <= q < |log| ::
              LeaveLog(log, h, j)[q].depth == log[q].depth && LeaveLog(log, h, j)[q].tid == log[q].tid && LeaveLog(log, h, j)[q].prod == log[q].prod
  {
  }

  lemma {:induction false} HungMark(n: nat, log: seq<LogRing>, h: nat, q: nat, root: nat, hung: seq<Bracket>, c: Cursor)
    requires Fits(log, c) && root < |log| && h < |log| && q < |log| && Hanging(log, root, hung, c)
    requires Bounded(n, log) && Within(log, c) && Ahead(log, c)
    requires NoneOpenHung(hung, h) && EndBeforeHung(hung, h, log[h].prod)
    ensures Hanging(EnterLog(log, h, q), root, MarkHung(hung, h), c) && AfterHung(MarkHung(hung, h), c) == AfterHung(hung, c)
    ensures FlattenHung(MarkHung(hung, h)) == FlattenHung(hung)
    decreases |hung|
  {
    hide Laid, After, NoneOpen, EndBefore, Bounded, Fresh, Mark, Within, Ahead, Flatten, Hanging;
    if hung != [] {
      var d, c1 := Last(hung), AfterHung(Others(hung), c);
      HungIs(log, root, hung, c);
      HungMark(n, log, h, q, root, Others(hung), c);
      HungMoves(log, root, Others(hung), c);
      OneMark(n, log, h, q, root, d, c1);
      Pushed(MarkHung(Others(hung), h), Mark(d, h), c);
      HungIsToo(EnterLog(log, h, q), root, MarkHung(Others(hung), h), Mark(d, h), c);
    } else {
      NoneHangs(EnterLog(log, h, q), root, c);
    }
  }

  lemma NoneHangs(log: seq<LogRing>, root: nat, c: Cursor)
    requires Fits(log, c) && root < |log|
    ensures Hanging(log, root, [], c)
  {
  }

  lemma HungIs(log: seq<LogRing>, root: nat, hung: seq<Bracket>, c: Cursor)
    requires Fits(log, c) && root < |log| && Hanging(log, root, hung, c) && hung != []
    ensures Hanging(log, root, Others(hung), c) && HangsAt(log, root, Last(hung), AfterHung(Others(hung), c))
  {
    hide HangsAt;
  }

  lemma HungIsToo(log: seq<LogRing>, root: nat, hung: seq<Bracket>, d: Bracket, c: Cursor)
    requires Fits(log, c) && root < |log| && Hanging(log, root, hung, c) && HangsAt(log, root, d, AfterHung(hung, c))
    ensures Hanging(log, root, hung + [d], c)
  {
    hide HangsAt, After;
    assert Others(hung + [d]) == hung;
  }

  lemma OneMark(n: nat, log: seq<LogRing>, h: nat, q: nat, root: nat, d: Bracket, c: Cursor)
    requires Fits(log, c) && root < |log| && h < |log| && q < |log| && HangsAt(log, root, d, c)
    requires Bounded(n, log) && Within(log, c) && Ahead(log, c) && NoneOpen(d, h) && EndBefore(d, h, log[h].prod)
    ensures HangsAt(EnterLog(log, h, q), root, Mark(d, h), c) && After(Mark(d, h), c) == After(d, c) && Flatten(Mark(d, h)) == Flatten(d)
  {
    hide Laid, After, NoneOpen, EndBefore, Bounded, Fresh, Flatten;
    LaidIsOrdered(n, log, HungIntr(d), d, c);
    MarkIsLaid(log, h, q, HungIntr(d), d, c);
    MarkGrows(n, d, h);
    MarkEnds(d.body, h);
  }

  lemma {:induction false} MarkEnds(s: Span, h: nat)
    ensures EndOf(MarkEnd(s)) == EndOf(s) && EndOf(MarkSpan(s, h)) == EndOf(s)
    decreases s
  {
    hide Mark;
    if s.Cut? { MarkEnds(s.rest, h); }
  }

  lemma {:induction false} HungRelabels(log: seq<LogRing>, q: nat, tid: nat, depth: nat, root: nat, hung: seq<Bracket>, c: Cursor)
    requires Fits(log, c) && root < |log| && Clean(log, q) && q != root && Hanging(log, root, hung, c) && Ahead(log, c) && Within(log, c)
    requires Relabels(log, root, q, tid, depth) && forall i | 0 <= i < |hung| :: hung[i].ring != q
    ensures Hanging(AcquireLog(log, q, tid, depth), root, RelabelHung(hung, q, depth), c)
    ensures AfterHung(RelabelHung(hung, q, depth), c) == AfterHung(hung, c) && FlattenHung(RelabelHung(hung, q, depth)) == FlattenHung(hung)
    decreases |hung|
  {
    hide Laid, After, Relabels, Within, Ahead, Fresh, Relabel, Flatten;
    var log', hung' := AcquireLog(log, q, tid, depth), RelabelHung(hung, q, depth);
    if hung != [] {
      var d, c1 := Last(hung), AfterHung(Others(hung), c);
      HungRelabels(log, q, tid, depth, root, Others(hung), c);
      HungMoves(log, root, Others(hung), c);
      assert d.ring != q;
      RelabelIsLaid(log, q, tid, depth, root, HungIntr(d), d, c1);
      CleanIsHollow(log, q, HungIntr(d), d, c1);
      HollowFlattens(d, q, depth);
      RelabelIsFresh(d, q, depth);
      RelabelEnds(d, q, depth);
      Pushed(RelabelHung(Others(hung), q, depth), Relabel(d, q, depth), c);
      HungIsToo(log', root, RelabelHung(Others(hung), q, depth), Relabel(d, q, depth), c);
    }
  }

  lemma RelabelEnds(b: Bracket, q: nat, depth: nat)
    ensures EndOf(Relabel(b, q, depth).body) == EndOf(b.body)
  {
    RelabelSpanIsFresh(b.open, b.body, q, depth);
  }

  // ---- what each step keeps ----------------------------------------------------------------------

  /** Where the innermost part is laid. */
  function TopIntr(log: seq<LogRing>, g: Grove): LogIntr
    requires g.tree.ring < |log|
  {
    if g.hung == [] then RootIntr(log, g.tree.ring) else HungIntr(Last(g.hung))
  }

  function TopStart(log: seq<LogRing>, g: Grove): (c: Cursor)
    ensures Fits(log, c)
  {
    if g.hung == [] then Start(log) else AfterHung(Others(g.hung), TreeEnd(log, g))
  }

  lemma RootStart(n: nat, log: seq<LogRing>, g: Grove)
    requires Standing(n, log, g)
    ensures var it := RootIntr(log, g.tree.ring);
            g.tree.ring < |log| && Laid(log, it, g.tree, Start(log)) && Ahead(log, Start(log)) && Within(log, Start(log)) &&
            Bounded(n, log) && Ordered(n, g.tree) && g.tree.open && End(log, it) == log[g.tree.ring].prod &&
            Ahead(log, TreeEnd(log, g)) && Within(log, TreeEnd(log, g)) &&
            Hanging(log, g.tree.ring, g.hung, TreeEnd(log, g))
  {
    hide Hanging;
    forall q | 0 <= q < |log|
      ensures Start(log).p[q] <= |log[q].pend|
    {
      assert BoundedRing(n, |log|, log[q]);
    }
    var it := RootIntr(log, g.tree.ring);
    LaidIsOrdered(n, log, it, g.tree, Start(log));
    AfterMoves(log, it, g.tree, Start(log));
    StaysWithin(log, it, g.tree, Start(log));
  }

  lemma TracedStands(n: nat, log: seq<LogRing>, g: Grove)
    requires Tracing(n, log, g)
    ensures Standing(n, log, g)
  {
  }

  lemma TopFacts(n: nat, log: seq<LogRing>, g: Grove)
    requires Standing(n, log, g)
    ensures g.tree.ring < |log| && Bounded(n, log)
    ensures var it, c := TopIntr(log, g), TopStart(log, g);
            it.ring == Top(g).ring < |log| && Laid(log, it, Top(g), c) && Ahead(log, c) && Within(log, c) &&
            Ordered(n, Top(g)) && Top(g).open && After(Top(g), c) == WalkEnd(log, g) && Below(log, g.tree.ring, Top(g).ring)
    ensures g.hung == [] ==> Leading(Top(g))
    ensures g.hung != [] ==> HangsAt(log, g.tree.ring, Top(g), TopStart(log, g)) &&
                             Hanging(log, g.tree.ring, Others(g.hung), TreeEnd(log, g))
  {
    hide Laid, After, Bounded, Leading, Fresh, Ordered, Ahead, Within, NothingElse;
    RootStart(n, log, g);
    if g.hung != [] {
      HungMoves(log, g.tree.ring, Others(g.hung), TreeEnd(log, g));
      LaidIsOrdered(n, log, TopIntr(log, g), Top(g), TopStart(log, g));
      OpenToo(log, TopIntr(log, g), Top(g), TopStart(log, g));
    } else {
      OpenToo(log, TopIntr(log, g), Top(g), TopStart(log, g));
    }
  }

  lemma OpenToo(log: seq<LogRing>, it: LogIntr, b: Bracket, c: Cursor)
    requires Fits(log, c) && it.ring < |log| && Laid(log, it, b, c)
    ensures b.ring == it.ring && b.open == it.open
  {
    hide LaidSpan;
  }

  /** The innermost part becomes `b`, and the others stay. */
  lemma TopChanges(n: nat, log: seq<LogRing>, log': seq<LogRing>, g: Grove, b: Bracket)
    requires Tracing(n, log, g) && Bounded(n, log') && |log'| == |log| && Start(log') == Start(log)
    requires g.tree.ring < |log| && b.ring == Top(g).ring && b.ring < |log|
    requires forall q | 0 <= q < |log| :: log'[q].depth == log[q].depth && log'[q].tid == log[q].tid
    requires g.hung == [] ==> Laid(log', RootIntr(log', b.ring), b, Start(log)) && Leading(b)
    requires g.hung != [] ==> LaidRoot(log', g.tree) && Hanging(log', g.tree.ring, Others(g.hung), TreeEnd(log, g)) &&
                              HangsAt(log', g.tree.ring, b, TopStart(log, g))
    requires forall q | 0 <= q < |log| && Below(log, g.tree.ring, q) :: WalkedAll(log', After(b, TopStart(log, g)), q)
    ensures Tracing(n, log', WithTop(g, b))
  {
    hide Laid, After, Bounded, Leading, HangsAt;
    if g.hung == [] {
      NoneHangs(log', b.ring, After(b, Start(log)));
    } else {
      Pushed(Others(g.hung), b, TreeEnd(log, g));
      HungIsToo(log', g.tree.ring, Others(g.hung), b, TreeEnd(log, g));
    }
    var g' := WithTop(g, b);
    assert WalkEnd(log', g') == After(b, TopStart(log, g));
    forall q | 0 <= q < |log'| && Below(log', g'.tree.ring, q)
      ensures WalkedAll(log', WalkEnd(log', g'), q)
    {
      assert Below(log, g.tree.ring, q);
    }
  }

  lemma PutKeeps(n: nat, log: seq<LogRing>, g: Grove, r: nat, k: nat)
    requires Tracing(n, log, g) && Enabled(n, log, g, Put(r, k))
    ensures Tracing(n, PutLog(log, r, k), WithTop(g, PutOn(Top(g), r, k)))
    ensures Grown(g.tree, WithTop(g, PutOn(Top(g), r, k)).tree)
    ensures TipOf(Top(g), r) == log[r].prod && DepthOf(Top(g), r) == log[r].depth
  {
    hide Bounded, Laid, After, Leading, Grown, Ordered, Holds, PutOn, Hanging, NothingElse, Fresh, Within, Ahead, NoneOpen, NoneOpenHung;
    var log', b := PutLog(log, r, k), PutOn(Top(g), r, k);
    RootStart(n, log, g);
    TopFacts(n, log, g);
    PutIsLaid(n, log, r, k, TopIntr(log, g), Top(g), TopStart(log, g));
    PutGrows(n, Top(g), r, k);
    PutBounded(n, log, r, k);
    assert Start(log') == Start(log) && RootIntr(log', g.tree.ring) == RootIntr(log, g.tree.ring);
    Walked(n, log, g);
    if g.hung != [] {
      FinishedStays(log, r, k, RootIntr(log, g.tree.ring), g.tree, Start(log));
      HungPut(log, r, k, g.tree.ring, Others(g.hung), TreeEnd(log, g));
      PutElsewhere(Top(g), r, k);
      GrownSelf(g.tree, n);
    }
    TopChanges(n, log, log', g, b);
  }

  lemma Walked(n: nat, log: seq<LogRing>, g: Grove)
    requires Tracing(n, log, g)
    ensures g.tree.ring < |log| && forall q | 0 <= q < |log| && Below(log, g.tree.ring, q) :: WalkedAll(log, WalkEnd(log, g), q)
  {
    hide WalkEnd, Hanging, Laid, Bounded, Leading;
  }

  lemma PutElsewhere(b: Bracket, r: nat, k: nat)
    requires Holds(b, r) && b.ring != r
    ensures EndOf(PutOn(b, r, k).body) == EndOf(b.body) && PutOn(b, r, k).body.from == b.body.from
  {
    PutSpanElsewhere(b.body, r, k);
  }

  lemma {:induction false} PutSpanElsewhere(s: Span, r: nat, k: nat)
    requires HoldsSpan(s, r)
    ensures EndOf(PutOnSpan(s, r, k)) == EndOf(s) && EndOf(LeaveOnSpan(s, r)) == EndOf(s)
    decreases s
  {
    hide PutOn, LeaveOn, Holds;
    if !AwaySpan(s.rest, r) { PutSpanElsewhere(s.rest, r, k); }
  }

  lemma LeaveKeeps(n: nat, log: seq<LogRing>, g: Grove, h: nat, j: nat)
    requires Tracing(n, log, g) && Enabled(n, log, g, Leave(h, j))
    ensures var g' := WithTop(g, LeaveOn(Top(g), log[h].pend[j].ring));
            Tracing(n, LeaveLog(log, h, j), g') && Grown(g.tree, g'.tree) && FlattenAll(g') == FlattenAll(g)
  {
    hide Bounded, Laid, After, Leading, Grown, Ordered, Holds, LeaveOn, MayLeave, Hanging, NothingElse, Fresh, Within, Ahead, NoneOpen, NoneOpenHung, OnlyOpen, Flatten;
    LeaveLabels(log, h, j);
    var r := log[h].pend[j].ring;
    var log', b := LeaveLog(log, h, j), LeaveOn(Top(g), r);
    RootStart(n, log, g);
    TopFacts(n, log, g);
    LeaveIsLaid(log, h, j, r, TopIntr(log, g), Top(g), TopStart(log, g));
    LeaveGrows(n, Top(g), r);
    LeaveBounded(n, log, h, j);
    LeaveStarts(log, h, j);
    Walked(n, log, g);
    if g.hung != [] {
      OthersStay(log, h, j, RootIntr(log, g.tree.ring), g.tree, Start(log));
      HungLeave(log, h, j, g.tree.ring, Others(g.hung), TreeEnd(log, g));
      LeaveElsewhere(Top(g), r);
      GrownSelf(g.tree, n);
      Pushed(Others(g.hung), b, Start(log));
    }
    TopChanges(n, log, log', g, b);
  }

  lemma LeaveElsewhere(b: Bracket, r: nat)
    requires Holds(b, r) && b.ring != r
    ensures EndOf(LeaveOn(b, r).body) == EndOf(b.body)
  {
    PutSpanElsewhere(b.body, r, 0);
  }

  lemma LeaveStarts(log: seq<LogRing>, h: nat, j: nat)
    requires OnlyOpen(log, h, j)
    ensures var log' := LeaveLog(log, h, j);
            Start(log') == Start(log) &&
            (forall q | 0 <= q < |log| :: RootIntr(log', q) == RootIntr(log, q) && |log'[q].pend| == |log[q].pend|)
  {
    var log' := LeaveLog(log, h, j);
    assert Start(log').w == Start(log).w && Start(log').p == Start(log).p;
  }

  /** A handler makes a ring of its own the current one. */
  lemma TakeKeeps(n: nat, log: seq<LogRing>, g: Grove, h: nat, q: nat)
    requires Tracing(n, log, g) && Enabled(n, log, g, Take(h, q))
    ensures var g' := g.(hung := g.hung + [Starting(log, q)]);
            Tracing(n, log, g') && Grown(g.tree, g'.tree) && FlattenAll(g') == FlattenAll(g)
  {
    hide Bounded, Laid, After, Leading, Grown, Ordered, AtTail, Hanging, Within, Ahead, Flatten;
    var d, g' := Starting(log, q), g.(hung := g.hung + [Starting(log, q)]);
    RootStart(n, log, g);
    TopFacts(n, log, g);
    TailIsDeep(log, h, TopIntr(log, g), Top(g), TopStart(log, g));
    assert Under(log, g.tree.ring, q);
    Walked(n, log, g);
    assert WalkedAll(log, WalkEnd(log, g), q);
    StartingIsLaid(log, q, WalkEnd(log, g));
    Pushed(g.hung, d, TreeEnd(log, g));
    HungIsToo(log, g.tree.ring, g.hung, d, TreeEnd(log, g));
    GrownSelf(g.tree, n);
    StartingIsEmpty(log, q);
    assert FlattenHung(g.hung) + [] == FlattenHung(g.hung);
    assert WalkEnd(log, g') == WalkEnd(log, g);
  }

  lemma StartingIsEmpty(log: seq<LogRing>, q: nat)
    requires q < |log|
    ensures Flatten(Starting(log, q)) == []
  {
  }

  lemma StartingIsLaid(log: seq<LogRing>, q: nat, c: Cursor)
    requires Fits(log, c) && q < |log| && WalkedAll(log, c, q)
    ensures var d := Starting(log, q);
            Laid(log, HungIntr(d), d, c) && After(d, c) == c && Fresh(d) && EndOf(d.body) == d.body.from
  {
    assert c.w[q := c.w[q]] == c.w;
  }

  lemma OuterStands(n: nat, log: seq<LogRing>, g: Grove)
    requires Standing(n, log, g) && g.hung != []
    ensures Standing(n, log, Outer(g)) && WalkEnd(log, Outer(g)) == TopStart(log, g)
  {
    hide HangsAt, Laid, After, Bounded, Leading;
  }

  lemma RecordedSame(log: seq<LogRing>, root: nat, h: nat, d: Bracket, c: Cursor)
    requires Fits(log, c) && h < |log| && root < |log| && HangsAt(log, root, d, c)
    ensures Laid(log, Recorded(log, h, d.ring), d, c)
  {
    hide LaidSpan;
    EndIs(log, d.ring, End(log, HungIntr(d)), d.open, d.body, c);
  }

  lemma EnterElsewhere(b: Bracket, h: nat, sub: Bracket)
    requires AtTail(b, h)
    ensures EndOf(EnterOn(b, h, sub).body) == EndOf(b.body) && EnterOn(b, h, sub).body.from == b.body.from
  {
    CutElsewhere(b.body, h, sub);
    if b.ring != h { EnterSpanElsewhere(b.body, h, sub); }
  }

  lemma {:induction false} CutElsewhere(s: Span, h: nat, sub: Bracket)
    ensures EndOf(Interrupted(s, sub)) == EndOf(s)
    decreases s
  {
    if s.Cut? { CutElsewhere(s.rest, h, sub); }
  }

  lemma {:induction false} EnterSpanElsewhere(s: Span, h: nat, sub: Bracket)
    requires AtTailSpan(s, h)
    ensures EndOf(EnterOnSpan(s, h, sub)) == EndOf(s)
    decreases s
  {
    hide AtTail, EnterOn, Mark;
    if !s.rest.Done? { EnterSpanElsewhere(s.rest, h, sub); }
  }

  /** The parts around the one that is interrupted. */
  lemma AroundKeeps(n: nat, log: seq<LogRing>, o: Grove, h: nat, q: nat)
    requires Standing(n, log, o) && o.hung != [] && h < |log| && q < |log|
    requires NoneOpenBelow(o, h) && EndBefore(o.tree, h, log[h].prod) && EndBeforeHung(o.hung, h, log[h].prod)
    ensures var log', tree', hung' := EnterLog(log, h, q), Mark(o.tree, h), MarkHung(Others(o.hung), h);
            LaidRoot(log', tree') && Leading(tree') && Grown(o.tree, tree') && Flatten(tree') == Flatten(o.tree) &&
            After(tree', Start(log')) == TreeEnd(log, o) && Hanging(log', o.tree.ring, hung', TreeEnd(log, o)) &&
            AfterHung(hung', TreeEnd(log, o)) == TopStart(log, o) && FlattenHung(hung') == FlattenHung(Others(o.hung))
  {
    hide Bounded, Laid, After, Leading, Grown, Ordered, Within, Ahead, Flatten, NoneOpen, NoneOpenHung, EndBefore, Fresh, Mark, MarkHung, HangsAt;
    var root, log' := o.tree.ring, EnterLog(log, h, q);
    RootStart(n, log, o);
    MarkIsLaid(log, h, q, RootIntr(log, root), o.tree, Start(log));
    MarkGrows(n, o.tree, h);
    assert Start(log') == Start(log) && RootIntr(log', root) == RootIntr(log, root);
    HungMark(n, log, h, q, root, Others(o.hung), TreeEnd(log, o));
  }

  /** The bracket that hung last is recorded. */
  lemma RecordKeeps(n: nat, log: seq<LogRing>, g: Grove, h: nat)
    requires Tracing(n, log, g) && Enabled(n, log, g, Record(h, Top(g).ring))
    ensures var g' := Marked(Outer(g), h, EnterOn(Top(Outer(g)), h, Top(g)));
            Tracing(n, EnterLog(log, h, Top(g).ring), g') && Grown(g.tree, g'.tree) && FlattenAll(g') == FlattenAll(g)
  {
    hide Bounded, Laid, After, Leading, Grown, Ordered, AtTail, Hanging, Within, Ahead, Flatten, NoneOpen, NoneOpenHung, EndBefore;
    hide EndBeforeHung, Fresh, EnterOn, Mark, MarkHung, NothingElse, HangsAt, AfterHung, FlattenHung, Marked, Standing;
    var d, o, q := Top(g), Outer(g), Top(g).ring;
    TopFacts(n, log, g);
    OuterStands(n, log, g);
    TopFacts(n, log, o);
    RecordedSame(log, g.tree.ring, h, d, TopStart(log, g));
    TopEndsBefore(o, h, log[h].prod);
    EnterIsLaid(n, log, h, TopIntr(log, o), Top(o), TopStart(log, o), d);
    HungFresh(log, g.tree.ring, d, TopStart(log, g));
    EnterGrows(n, Top(o), h, d);
    EnterBounded(n, log, h, q);
    JoinStands(n, log, o, h, d);
    JoinedAll(n, log, g, h);
  }

  lemma TopEndsBefore(g: Grove, h: nat, pos: nat)
    requires EndBefore(g.tree, h, pos) && EndBeforeHung(g.hung, h, pos)
    ensures EndBefore(Top(g), h, pos)
  {
    hide EndBefore;
  }

  lemma HungFresh(log: seq<LogRing>, root: nat, d: Bracket, c: Cursor)
    requires Fits(log, c) && root < |log| && HangsAt(log, root, d, c)
    ensures Fresh(d)
  {
  }

  lemma JoinStands(n: nat, log: seq<LogRing>, o: Grove, h: nat, d: Bracket)
    requires Standing(n, log, o) && h < |log| && d.ring < |log| && Bounded(n, EnterLog(log, h, d.ring)) && AtTail(Top(o), h)
    requires NoneOpenBelow(o, h) && EndBefore(o.tree, h, log[h].prod) && EndBeforeHung(o.hung, h, log[h].prod)
    requires var b := EnterOn(Top(o), h, d);
             Laid(EnterLog(log, h, d.ring), TopIntr(log, o), b, TopStart(log, o)) &&
             After(b, TopStart(log, o)) == OneMore(After(d, After(Top(o), TopStart(log, o))), h) &&
             Grown(Top(o), b) && Flatten(b) == Flatten(Top(o)) + Flatten(d) &&
             (Fresh(Top(o)) ==> Fresh(b)) && (Leading(Top(o)) ==> Leading(b))
    ensures var log', g' := EnterLog(log, h, d.ring), Marked(o, h, EnterOn(Top(o), h, d));
            Standing(n, log', g') && Grown(o.tree, g'.tree) && g'.tree.ring == o.tree.ring &&
            WalkEnd(log', g') == OneMore(After(d, WalkEnd(log, o)), h) &&
            FlattenAll(g') == FlattenAll(o) + Flatten(d)
  {
    hide Bounded, Laid, After, Leading, Grown, Ordered, AtTail, Hanging, Within, Ahead, Flatten, NoneOpen, NoneOpenHung, EndBefore, Fresh, EnterOn, Mark, MarkHung;
    var log', b := EnterLog(log, h, d.ring), EnterOn(Top(o), h, d);
    TopFacts(n, log, o);
    assert Start(log') == Start(log) && RootIntr(log', o.tree.ring) == RootIntr(log, o.tree.ring);
    if o.hung == [] {
      NoneHangs(log', o.tree.ring, After(b, Start(log)));
      assert Flatten(b) + [] == Flatten(b) && Flatten(o.tree) + [] == Flatten(o.tree);
    } else {
      var hung' := MarkHung(Others(o.hung), h);
      AroundKeeps(n, log, o, h, d.ring);
      EnterElsewhere(Top(o), h, d);
      HungIsToo(log', o.tree.ring, hung', b, TreeEnd(log, o));
      Pushed(hung', b, TreeEnd(log, o));
      var w, x, y, z := Flatten(o.tree), FlattenHung(Others(o.hung)), Flatten(Top(o)), Flatten(d);
      assert w + (x + (y + z)) == w + (x + y) + z;
    }
  }

  lemma JoinedAll(n: nat, log: seq<LogRing>, g: Grove, h: nat)
    requires Tracing(n, log, g) && g.hung != [] && h < |log| && Top(g).ring < |log| && AtTail(Top(Outer(g)), h)
    requires var log', g' := EnterLog(log, h, Top(g).ring), Marked(Outer(g), h, EnterOn(Top(Outer(g)), h, Top(g)));
             Standing(n, log', g') && g'.tree.ring == g.tree.ring &&
             WalkEnd(log', g') == OneMore(After(Top(g), WalkEnd(log, Outer(g))), h) &&
             FlattenAll(g') == FlattenAll(Outer(g)) + Flatten(Top(g))
    ensures var log', g' := EnterLog(log, h, Top(g).ring), Marked(Outer(g), h, EnterOn(Top(Outer(g)), h, Top(g)));
            Tracing(n, log', g') && FlattenAll(g') == FlattenAll(g)
  {
    hide Laid, After, Leading, Hanging, Flatten, Standing, EnterOn, Marked, AtTail;
    TopFacts(n, log, g);
    OuterStands(n, log, g);
    Walked(n, log, g);
    var log', g' := EnterLog(log, h, Top(g).ring), Marked(Outer(g), h, EnterOn(Top(Outer(g)), h, Top(g)));
    forall x | 0 <= x < |log'| && Below(log', g'.tree.ring, x)
      ensures WalkedAll(log', WalkEnd(log', g'), x)
    {
      assert Below(log, g.tree.ring, x);
    }
    Pushed(Others(g.hung), Top(g), TreeEnd(log, g));
    assert Others(g.hung) + [Top(g)] == g.hung;
    assert Flatten(g.tree) + (FlattenHung(Others(g.hung)) + Flatten(Top(g))) == Flatten(g.tree) + FlattenHung(Others(g.hung)) + Flatten(Top(g));
  }

  /** A clean ring gets the label of a new holder. */
  lemma AcquireKeeps(n: nat, log: seq<LogRing>, g: Grove, q: nat, tid: nat, depth: nat)
    requires Tracing(n, log, g) && Clean(log, q) && NotRooted(g, q) && g.tree.ring < |log| && Relabels(log, g.tree.ring, q, tid, depth)
    ensures var g' := Relabelled(g, q, depth);
            Tracing(n, AcquireLog(log, q, tid, depth), g') && Grown(Relabel(g.tree, q, depth), g'.tree) && FlattenAll(g') == FlattenAll(g) &&
            Hollow(g.tree, q) && Ordered(n, g'.tree)
  {
    hide Bounded, Laid, After, Leading, Grown, Ordered, Hanging, Within, Ahead, Relabels, NothingElse, Hollow, Flatten, Relabel;
    var log', g', root := AcquireLog(log, q, tid, depth), Relabelled(g, q, depth), g.tree.ring;
    RootStart(n, log, g);
    assert Below(log, root, root);
    RelabelIsLaid(log, q, tid, depth, root, RootIntr(log, root), g.tree, Start(log));
    CleanIsHollow(log, q, RootIntr(log, root), g.tree, Start(log));
    HollowFlattens(g.tree, q, depth);
    RelabelIsFresh(g.tree, q, depth);
    HungRelabels(log, q, tid, depth, root, g.hung, TreeEnd(log, g));
    AcquireBounded(n, log, q, tid, depth);
    assert Start(log') == Start(log) && RootIntr(log', root) == RootIntr(log, root);
    RootStart(n, log', g');
    GrownSelf(g'.tree, n);
    RelabelledAll(n, log, g, q, tid, depth);
  }

  lemma RelabelledAll(n: nat, log: seq<LogRing>, g: Grove, q: nat, tid: nat, depth: nat)
    requires Tracing(n, log, g) && Clean(log, q) && NotRooted(g, q) && g.tree.ring < |log|
    requires WalkEnd(AcquireLog(log, q, tid, depth), Relabelled(g, q, depth)) == WalkEnd(log, g)
    ensures NothingElse(AcquireLog(log, q, tid, depth), Relabelled(g, q, depth))
  {
    hide Bounded, Laid, After, Leading, Hanging, Relabel;
    var log', g', root := AcquireLog(log, q, tid, depth), Relabelled(g, q, depth), g.tree.ring;
    Walked(n, log, g);
    TopFacts(n, log, g);
    CleanIsPassed(n, log, g, q);
    forall x | 0 <= x < |log'| && Below(log', root, x)
      ensures WalkedAll(log', WalkEnd(log', g'), x)
    {
      assert x != q ==> Below(log, root, x);
    }
  }

  /** The walk ends where a clean ring ends, whether it goes there or not. */
  lemma CleanIsPassed(n: nat, log: seq<LogRing>, g: Grove, q: nat)
    requires Tracing(n, log, g) && Clean(log, q)
    ensures WalkedAll(log, WalkEnd(log, g), q)
  {
    hide Bounded, Laid, After, Leading, Hanging;
    RootStart(n, log, g);
    Walked(n, log, g);
    AfterMoves(log, RootIntr(log, g.tree.ring), g.tree, Start(log));
    HungMoves(log, g.tree.ring, g.hung, TreeEnd(log, g));
  }

  /** No unserialized interruption of the rings below `root` is by ring `q`. */
  predicate Unnamed(log: seq<LogRing>, root: nat, q: nat)
    requires root < |log|
  {
    forall x, k | 0 <= x < |log| && Below(log, root, x) && log[x].pcons <= k < |log[x].pend| :: log[x].pend[k].ring != q
  }

  lemma {:induction false} UnnamedIsSame(log: seq<LogRing>, q: nat, depth: nat, root: nat, it: LogIntr, b: Bracket, c: Cursor)
    requires Fits(log, c) && it.ring < |log| && Laid(log, it, b, c) && Ahead(log, c) && b.ring != q
    requires root < |log| && Below(log, root, it.ring) && Unnamed(log, root, q)
    ensures Relabel(b, q, depth) == b
    decreases b, 1
  {
    UnnamedSpanIsSame(log, q, depth, root, b.ring, End(log, it), b.open, b.body, c);
  }

  lemma {:induction false} UnnamedSpanIsSame(log: seq<LogRing>, q: nat, depth: nat, root: nat, r: nat, last: nat, open: bool, s: Span, c: Cursor)
    requires Fits(log, c) && r < |log| && LaidSpan(log, r, last, open, s, c) && Ahead(log, c)
    requires root < |log| && Below(log, root, r) && Unnamed(log, root, q)
    ensures RelabelSpan(s, q, depth) == s
    decreases s, 0
  {
    if s.Cut? {
      var it := log[r].pend[c.p[r]];
      var c1 := PassIntr(c, r, s.at);
      BelowIsBelow(log, r, it.ring);
      UnnamedIsSame(log, q, depth, root, it, s.sub, c1);
      AfterMoves(log, it, s.sub, c1);
      UnnamedSpanIsSame(log, q, depth, root, r, last, open, s.rest, After(s.sub, c1));
    }
  }

  lemma {:induction false} UnnamedHungIsSame(log: seq<LogRing>, q: nat, depth: nat, root: nat, hung: seq<Bracket>, c: Cursor)
    requires Fits(log, c) && root < |log| && Hanging(log, root, hung, c) && Ahead(log, c) && Within(log, c)
    requires Unnamed(log, root, q) && forall i | 0 <= i < |hung| :: hung[i].ring != q
    ensures RelabelHung(hung, q, depth) == hung
    decreases |hung|
  {
    hide Laid, After, Unnamed, Within, Ahead, Fresh, Relabel;
    if hung != [] {
      var d, c1 := Last(hung), AfterHung(Others(hung), c);
      UnnamedHungIsSame(log, q, depth, root, Others(hung), c);
      HungMoves(log, root, Others(hung), c);
      assert d.ring != q;
      UnnamedIsSame(log, q, depth, root, HungIntr(d), d, c1);
    }
  }

  /** A thread that refers to a ring nowhere does not notice that it is taken over. */
  lemma UnnamedStays(n: nat, log: seq<LogRing>, g: Grove, q: nat, tid: nat, depth: nat)
    requires Tracing(n, log, g) && Clean(log, q) && NotRooted(g, q) && g.tree.ring < |log| && Unnamed(log, g.tree.ring, q)
    ensures Tracing(n, AcquireLog(log, q, tid, depth), g)
  {
    hide Tracing, Relabel, RelabelHung, Laid, After, Bounded, Leading, Ordered, Hanging, Ahead, Within, Grown, Flatten, FlattenHung, Hollow;
    AcquireKeeps(n, log, g, q, tid, depth);
    TracedStands(n, log, g);
    RootStart(n, log, g);
    UnnamedIsSame(log, q, depth, g.tree.ring, RootIntr(log, g.tree.ring), g.tree, Start(log));
    UnnamedHungIsSame(log, q, depth, g.tree.ring, g.hung, TreeEnd(log, g));
  }

  /** Whatever the producers do next, the tree and what hangs are still all that the thread's rings
      hold, the tree has only grown (but for a label), and the step's words have gone where program order puts them. */
  lemma StepKeeps(n: nat, log: seq<LogRing>, g: Grove, a: Act) returns (front: seq<Slot>)
    requires Tracing(n, log, g) && Enabled(n, log, g, a)
    ensures Tracing(n, ActLog(n, log, g, a), ActGrove(n, log, g, a)) && Grown(ActSeen(g.tree, a), ActGrove(n, log, g, a).tree)
    ensures FlattenAll(g) == front + ActBeyond(n, log, g, a)
    ensures FlattenAll(ActGrove(n, log, g, a)) == front + ActWords(n, log, g, a) + ActBeyond(n, log, g, a)
  {
    hide Tracing, Grown, Holds, AtTail, PutOn, EnterOn, LeaveOn, Beyond, FlattenAll, PutLog, EnterLog, LeaveLog, AcquireLog;
    hide Leading, MayLeave, EndBefore, EndBeforeHung, OnlyOpen, Starting, Run, Fresh, Relabels, Clean, Relabelled, Relabel, NoneOpen, NoneOpenBelow, Marked;
    front := FlattenAll(g);
    assert front + [] == front && front + [] + [] == front;
    match a {
      case Put(r, k) =>
        PutKeeps(n, log, g, r, k);
        front := PutAppends(n, log, g, r, k);
      case Take(h, q) => TakeKeeps(n, log, g, h, q);
      case Record(h, _) => RecordKeeps(n, log, g, h);
      case Leave(h, j) => LeaveKeeps(n, log, g, h, j);
      case Acquire(q, tid, depth) => AcquireKeeps(n, log, g, q, tid, depth);
    }
  }

  lemma PutAppends(n: nat, log: seq<LogRing>, g: Grove, r: nat, k: nat) returns (front: seq<Slot>)
    requires Tracing(n, log, g) && r < |log| && Holds(Top(g), r) && TipOf(Top(g), r) == log[r].prod && DepthOf(Top(g), r) == log[r].depth
    ensures FlattenAll(g) == front + Beyond(Top(g), r)
    ensures FlattenAll(WithTop(g, PutOn(Top(g), r, k))) ==
            front + Run(r, log[r].depth, log[r].prod, log[r].prod + k) + Beyond(Top(g), r)
  {
    hide Standing, NothingElse, Holds, PutOn, Beyond, Flatten, Run, TipOf, DepthOf, Ordered, Laid, After;
    TopFacts(n, log, g);
    var a := PutFlattens(n, Top(g), r, k);
    var words, beyond := Run(r, log[r].depth, log[r].prod, log[r].prod + k), Beyond(Top(g), r);
    if g.hung == [] {
      front := a;
      assert Flatten(g.tree) + [] == Flatten(g.tree);
      assert a + words + beyond + [] == a + words + beyond;
    } else {
      var x, y := Flatten(g.tree), FlattenHung(Others(g.hung));
      front := x + y + a;
      Pushed(Others(g.hung), PutOn(Top(g), r, k), Start(log));
      assert x + (y + (a + beyond)) == x + y + a + beyond;
      assert x + (y + (a + words + beyond)) == x + y + a + words + beyond;
    }
  }

  /** At the tail, that is at the end: what a thread logs, and what its handlers log until they
      hand its ring back, is read in the order in which it is logged. */
  lemma TailAppends(n: nat, log: seq<LogRing>, g: Grove, r: nat, k: nat)
    requires Tracing(n, log, g) && Enabled(n, log, g, Put(r, k)) && AtTail(Top(g), r)
    ensures FlattenAll(ActGrove(n, log, g, Put(r, k))) == FlattenAll(g) + ActWords(n, log, g, Put(r, k))
  {
    hide Tracing, Grown, Holds, AtTail, PutOn, Beyond, FlattenAll, PutLog, Run, NoneOpenBelow, ActGrove;
    var front := StepKeeps(n, log, g, Put(r, k));
    NothingBeyondTail(Top(g), r);
    assert front + [] == front;
    assert front + ActWords(n, log, g, Put(r, k)) + [] == front + ActWords(n, log, g, Put(r, k));
  }

  /** A thread that has just begun: words on its own ring at most, and nothing on any ring that its
      handlers may have. */
  lemma BeginsTraced(n: nat, log: seq<LogRing>, r: nat)
    requires 0 < n && Bounded(n, log) && r < |log|
    requires log[r].pcons == |log[r].pend|
    requires forall q | 0 <= q < |log| && Under(log, r, q) :: log[q].cons == log[q].prod && log[q].pcons == |log[q].pend|
    ensures Tracing(n, log, Beginning(log, r))
  {
    var t := Beginning(log, r).tree;
    assert BoundedRing(n, |log|, log[r]);
    assert LaidSpan(log, r, log[r].prod, true, t.body, Start(log));
    assert After(t, Start(log)) == MoveTo(Start(log), r, log[r].prod);
    NoneHangs(log, r, After(t, Start(log)));
  }

  function Beginning(log: seq<LogRing>, r: nat): Grove
    requires r < |log|
  {
    Grove(Bracket(r, log[r].depth, true, Done(log[r].cons, if log[r].cons <= log[r].prod then log[r].prod else log[r].cons, false)), [])
  }

  /** When nothing hangs, the tree is all that the thread's rings hold. */
  lemma TracedIsAllWalked(n: nat, log: seq<LogRing>, g: Grove)
    requires Tracing(n, log, g) && g.hung == []
    ensures g.tree.ring < |log| && AllWalked(log, g.tree)
  {
    hide Laid, After, Leading, Bounded;
    Walked(n, log, g);
    assert WalkEnd(log, g) == After(g.tree, Start(log));
  }

  /** When nothing is left of a thread's tree and nothing hangs, its rings and its handlers' rings
      are empty. */
  lemma DrainedIsEmpty(n: nat, log: seq<LogRing>, g: Grove)
    requires Tracing(n, log, g) && g.tree.body.Done? && g.tree.body.from == g.tree.body.to && g.hung == []
    ensures forall q | 0 <= q < |log| && Below(log, g.tree.ring, q) :: Clean(log, q)
  {
    var c := Start(log);
    RootStart(n, log, g);
    assert After(g.tree, c) == MoveTo(c, g.tree.ring, c.w[g.tree.ring]);
    forall q | 0 <= q < |log| && Below(log, g.tree.ring, q)
      ensures Clean(log, q)
    {
      assert WalkedAll(log, After(g.tree, c), q);
    }
  }

  // ---- a handler's run ----------------------------------------------------------------------

  /** While a handler that started on ring `q` is at the tail, its steps change its own bracket;
      what it interrupted is at the tail again afterwards. */
  lemma {:induction false} HandlerAtTail(b: Bracket, h: nat, sub: Bracket, k: nat)
    requires AtTail(b, h) && NoneOpen(b, sub.ring) && h != sub.ring && sub.open
    ensures var b' := EnterOn(b, h, sub);
            AtTail(b', h) && AtTail(b', sub.ring) && Holds(b', sub.ring) &&
            PutOn(b', sub.ring, k) == EnterOn(b, h, sub.(body := Longer(sub.body, k))) &&
            LeaveOn(b', sub.ring) == EnterOn(b, h, sub.(open := false)) &&
            (MayLeave(b', sub.ring) <==> Closable(sub.body))
    decreases b, 1
  {
    if b.ring == h { HandlerCuts(b.body, h, sub, k); } else { HandlerAtTailSpan(b.body, h, sub, k); }
  }

  lemma {:induction false} HandlerCuts(s: Span, h: nat, sub: Bracket, k: nat)
    requires NoneOpenSpan(s, sub.ring) && sub.open
    ensures var s' := Interrupted(s, sub);
            AtTailSpan(s', sub.ring) && HoldsSpan(s', sub.ring) && !AwaySpan(s', sub.ring) &&
            PutOnSpan(s', sub.ring, k) == Interrupted(s, sub.(body := Longer(sub.body, k))) &&
            LeaveOnSpan(s', sub.ring) == Interrupted(s, sub.(open := false)) &&
            (MayLeaveSpan(s', sub.ring) <==> Closable(sub.body))
    decreases s
  {
    if s.Cut? { HandlerCuts(s.rest, h, sub, k); }
  }

  lemma {:induction false} HandlerAtTailSpan(s: Span, h: nat, sub: Bracket, k: nat)
    requires AtTailSpan(s, h) && NoneOpenSpan(s, sub.ring) && h != sub.ring && sub.open
    ensures var s' := EnterOnSpan(s, h, sub);
            AtTailSpan(s', h) && AtTailSpan(s', sub.ring) && HoldsSpan(s', sub.ring) && !AwaySpan(s', sub.ring) &&
            PutOnSpan(s', sub.ring, k) == EnterOnSpan(s, h, sub.(body := Longer(sub.body, k))) &&
            LeaveOnSpan(s', sub.ring) == EnterOnSpan(s, h, sub.(open := false)) &&
            (MayLeaveSpan(s', sub.ring) <==> Closable(sub.body))
    decreases s, 0
  {
    hide AtTail, EnterOn, PutOn, LeaveOn, MayLeave, Holds, NoneOpen, Away, Mark;
    if s.rest.Done? {
      SubIsOpen(s.sub, h, sub.ring);
      HandlerAtTail(s.sub, h, sub, k);
      HolderIsNotAway(EnterOn(s.sub, h, sub), sub.ring);
    } else {
      MarkedNoneOpen(s.sub, h, h);
      MarkedNoneOpen(s.sub, h, sub.ring);
      HandlerAtTailSpan(s.rest, h, sub, k);
    }
  }

  lemma SubIsOpen(b: Bracket, h: nat, q: nat)
    requires AtTail(b, h) && NoneOpen(b, q)
    ensures b.ring != q
  {
  }

  lemma {:induction false} MarkedNoneOpen(b: Bracket, h: nat, q: nat)
    requires NoneOpen(b, q)
    ensures NoneOpen(Mark(b, h), q)
    decreases b, 1
  {
    if b.ring == h { MarkedEndNoneOpen(b.body, q); } else { MarkedSpanNoneOpen(b.body, h, q); }
  }

  lemma {:induction false} MarkedEndNoneOpen(s: Span, q: nat)
    requires NoneOpenSpan(s, q)
    ensures NoneOpenSpan(MarkEnd(s), q)
    decreases s
  {
    if s.Cut? { MarkedEndNoneOpen(s.rest, q); }
  }

  lemma {:induction false} MarkedSpanNoneOpen(s: Span, h: nat, q: nat)
    requires NoneOpenSpan(s, q)
    ensures NoneOpenSpan(MarkSpan(s, h), q)
    decreases s, 0
  {
    if s.Cut? {
      MarkedNoneOpen(s.sub, h, q);
      MarkedSpanNoneOpen(s.rest, h, q);
    }
  }

  /** The run of a handler on ring `q`, with `k` words logged in all. */
  function Handled(log: seq<LogRing>, q: nat, k: nat, open: bool): Bracket
    requires q < |log|
  {
    Bracket(q, log[q].depth, open, Done(log[q].prod, log[q].prod + k, false))
  }

  /** The log while it runs, and at its end. */
  function HandlerLog(log: seq<LogRing>, h: nat, q: nat, k: nat, open: bool): seq<LogRing>
    requires h < |log| && q < |log|
  {
    var log1 := PutLog(EnterLog(log, h, q), q, k);
    if open then log1 else LeaveLog(log1, h, |log[h].pend|)
  }

  lemma {:induction false} MarkedHungNoneOpen(hung: seq<Bracket>, h: nat, q: nat)
    requires NoneOpenHung(hung, q)
    ensures NoneOpenHung(MarkHung(hung, h), q)
    decreases |hung|
  {
    hide Mark, NoneOpen;
    if hung != [] {
      MarkedHungNoneOpen(Others(hung), h, q);
      MarkedNoneOpen(Last(hung), h, q);
      Pushed(MarkHung(Others(hung), h), Mark(Last(hung), h), Cursor([], []));
    }
  }

  lemma MarkedTop(g: Grove, h: nat, b: Bracket, b': Bracket)
    ensures Top(Marked(g, h, b)) == b && WithTop(Marked(g, h, b), b') == Marked(g, h, b')
  {
    hide Mark, MarkHung;
    if g.hung != [] { Pushed(MarkHung(Others(g.hung), h), b, Cursor([], [])); }
  }

  lemma MarkedBelow(g: Grove, h: nat, b: Bracket, q: nat)
    requires NoneOpenBelow(g, q)
    ensures NoneOpenBelow(Marked(g, h, b), q)
  {
    hide Mark, MarkHung, NoneOpen, NoneOpenHung;
    if g.hung != [] {
      MarkedNoneOpen(g.tree, h, q);
      MarkedHungNoneOpen(Others(g.hung), h, q);
      Pushed(MarkHung(Others(g.hung), h), b, Cursor([], []));
    }
  }

  /** A handler may start on ring `q`, interrupting ring `h`. */
  predicate MayStart(n: nat, log: seq<LogRing>, g: Grove, h: nat, q: nat)
  {
    Enabled(n, log, g, Take(h, q)) && NoneOpenBelow(g, h) && NoneOpenBelow(g, q) && NoneOpen(Top(g), q) &&
    EndBefore(g.tree, h, log[h].prod) && EndBeforeHung(g.hung, h, log[h].prod) && |log[h].pend| < log[h].pcons + 7 &&
    forall x, y | 0 <= x < |log| && log[x].pcons <= y < |log[x].pend| :: log[x].pend[y].ring == q ==> !log[x].pend[y].open
  }

  /** The thread while the handler runs, having logged `k` words, and at its end. */
  function Handling(log: seq<LogRing>, g: Grove, h: nat, q: nat, k: nat, open: bool): Grove
    requires q < |log| && AtTail(Top(g), h)
  {
    Marked(g, h, EnterOn(Top(g), h, Handled(log, q, k, open)))
  }

  /** The handler has made ring `q` the current one, and may record its interruption. */
  lemma HandlerStarts(n: nat, log: seq<LogRing>, g: Grove, h: nat, q: nat)
    requires Tracing(n, log, g) && MayStart(n, log, g, h, q)
    ensures var g1 := ActGrove(n, log, g, Take(h, q));
            Tracing(n, log, g1) && Enabled(n, log, g1, Record(h, q)) &&
            ActLog(n, log, g1, Record(h, q)) == EnterLog(log, h, q) &&
            ActGrove(n, log, g1, Record(h, q)) == Handling(log, g, h, q, 0, true)
    ensures Tracing(n, EnterLog(log, h, q), Handling(log, g, h, q, 0, true)) && FlattenAll(Handling(log, g, h, q, 0, true)) == FlattenAll(g)
  {
    hide Tracing, AtTail, EnterOn, NoneOpen, EndBefore, EndBeforeHung, FlattenAll, NoneOpenBelow, Marked, Grown;
    var d := Starting(log, q);
    assert d == Handled(log, q, 0, true);
    Pushed(g.hung, d, Start(log));
    TakeKeeps(n, log, g, h, q);
    var g1 := g.(hung := g.hung + [d]);
    assert Outer(g1) == g && Top(g1) == d;
    RecordKeeps(n, log, g1, h);
  }

  /** It has recorded its interruption and logged `k` words. */
  lemma HandlerLogs(n: nat, log: seq<LogRing>, g: Grove, h: nat, q: nat, k: nat)
    requires Tracing(n, log, g) && MayStart(n, log, g, h, q) && log[q].prod + k < log[q].cons + n
    ensures var g' := Handling(log, g, h, q, k, true);
            Tracing(n, HandlerLog(log, h, q, k, true), g') && AtTail(Top(g'), q) && Holds(Top(g'), q) &&
            FlattenAll(g') == FlattenAll(g) + Run(q, log[q].depth, log[q].prod, log[q].prod + k)
  {
    hide Tracing, AtTail, Holds, EnterOn, PutOn, LeaveOn, MayLeave, NoneOpen, NoneOpenBelow, EndBefore, EndBeforeHung, FlattenAll, Run, Marked, Grown, Beyond;
    HandlerStarts(n, log, g, h, q);
    var log0, g0, sub := EnterLog(log, h, q), Handling(log, g, h, q, 0, true), Handled(log, q, 0, true);
    HandlerAtTail(Top(g), h, sub, k);
    assert sub.(body := Longer(sub.body, k)) == Handled(log, q, k, true);
    MarkedTop(g, h, EnterOn(Top(g), h, sub), EnterOn(Top(g), h, Handled(log, q, k, true)));
    MarkedTop(g, h, EnterOn(Top(g), h, Handled(log, q, k, true)), g.tree);
    MarkedBelow(g, h, EnterOn(Top(g), h, sub), q);
    MarkedRoot(g, h, sub);
    NotItsRoot(n, log, g, h, q);
    assert log0[q].prod == log[q].prod && log0[q].cons == log[q].cons && log0[q].depth == log[q].depth;
    assert Enabled(n, log0, g0, Put(q, k));
    PutKeeps(n, log0, g0, q, k);
    TailAppends(n, log0, g0, q, k);
    HandlerAtTail(Top(g), h, Handled(log, q, k, true), 0);
  }

  lemma MarkedRoot(g: Grove, h: nat, sub: Bracket)
    requires AtTail(Top(g), h)
    ensures var g' := Marked(g, h, EnterOn(Top(g), h, sub));
            g'.tree.ring == g.tree.ring && Top(g').ring == Top(g).ring && (g'.hung == [] <==> g.hung == [])
  {
    hide AtTail, EnterOn, MarkHung;
    EnterRing(Top(g), h, sub);
    MarkedTop(g, h, EnterOn(Top(g), h, sub), g.tree);
  }

  lemma EnterRing(b: Bracket, h: nat, sub: Bracket)
    requires AtTail(b, h)
    ensures EnterOn(b, h, sub).ring == b.ring && Mark(b, h).ring == b.ring
  {
  }

  /** A ring deeper than the one at the tail is no part's own. */
  lemma NotItsRoot(n: nat, log: seq<LogRing>, g: Grove, h: nat, q: nat)
    requires Tracing(n, log, g) && MayStart(n, log, g, h, q)
    ensures q != Top(g).ring && q != g.tree.ring && h != q && Below(log, g.tree.ring, h)
  {
    hide Laid, After, AtTail, Leading, Hanging, EnterOn, Mark;
    TopFacts(n, log, g);
    TailIsDeep(log, h, TopIntr(log, g), Top(g), TopStart(log, g));
  }

  lemma HandlerIsOnlyOpen(n: nat, log: seq<LogRing>, g: Grove, h: nat, q: nat, k: nat)
    requires Tracing(n, log, g) && MayStart(n, log, g, h, q)
    ensures var log1 := HandlerLog(log, h, q, k, true);
            OnlyOpen(log1, h, |log[h].pend|) && log1[h].pend[|log[h].pend|].ring == q &&
            g.tree.ring < |log1| && Below(log1, g.tree.ring, h)
  {
    hide Laid, AtTail, EndBefore, EndBeforeHung, After, Leading, Hanging, NoneOpen, NoneOpenBelow;
    NotItsRoot(n, log, g, h, q);
    assert BoundedRing(n, |log|, log[h]);
  }

  /** It may then go on logging, or, if it has logged at all, return. */
  lemma HandlerGoesOn(n: nat, log: seq<LogRing>, g: Grove, h: nat, q: nat, j: nat, k: nat)
    requires Tracing(n, log, g) && MayStart(n, log, g, h, q) && j <= k && log[q].prod + k < log[q].cons + n
    ensures var log1, g1 := HandlerLog(log, h, q, j, true), Handling(log, g, h, q, j, true);
            Enabled(n, log1, g1, Put(q, k - j)) && ActGrove(n, log1, g1, Put(q, k - j)) == Handling(log, g, h, q, k, true) &&
            (0 < j ==> Enabled(n, log1, g1, Leave(h, |log[h].pend|)) &&
                       ActGrove(n, log1, g1, Leave(h, |log[h].pend|)) == Handling(log, g, h, q, j, false))
  {
    hide Tracing, AtTail, Holds, EnterOn, PutOn, LeaveOn, MayLeave, NoneOpen, NoneOpenBelow, EndBefore, EndBeforeHung, Leading, FlattenAll, Run, Grown, OnlyOpen, Marked;
    var log1, sub := HandlerLog(log, h, q, j, true), Handled(log, q, j, true);
    var b := EnterOn(Top(g), h, sub);
    HandlerLogs(n, log, g, h, q, j);
    HandlerAtTail(Top(g), h, sub, k - j);
    assert sub.(body := Longer(sub.body, k - j)) == Handled(log, q, k, true);
    MarkedTop(g, h, b, EnterOn(Top(g), h, Handled(log, q, k, true)));
    MarkedTop(g, h, b, EnterOn(Top(g), h, Handled(log, q, j, false)));
    MarkedBelow(g, h, b, q);
    MarkedRoot(g, h, sub);
    NotItsRoot(n, log, g, h, q);
    if 0 < j {
      assert sub.(open := false) == Handled(log, q, j, false);
      TopLeads(n, log, g);
      EnterGrows(n, Top(g), h, Handled(log, q, j, false));
      HandlerIsOnlyOpen(n, log, g, h, q, j);
    }
  }

  lemma TopLeads(n: nat, log: seq<LogRing>, g: Grove)
    requires Tracing(n, log, g)
    ensures Ordered(n, Top(g)) && (if g.hung == [] then Leading(Top(g)) else Fresh(Top(g)))
  {
    hide Laid, After, Leading, Hanging, Fresh, Ordered;
    TopFacts(n, log, g);
  }

  /** A handler finds every step of its own enabled, as long as there is room for its words: it makes
      its ring the current one, records its interruption, logs as often as it likes, and returns.
      Then what it interrupted is at the tail again, and what it logged has been appended. */
  lemma HandlerRuns(n: nat, log: seq<LogRing>, g: Grove, h: nat, q: nat, k: nat)
    requires Tracing(n, log, g) && MayStart(n, log, g, h, q) && 0 < k && log[q].prod + k < log[q].cons + n
    ensures var g' := Handling(log, g, h, q, k, false);
            Tracing(n, HandlerLog(log, h, q, k, false), g') && AtTail(Top(g'), h) &&
            FlattenAll(g') == FlattenAll(g) + Run(q, log[q].depth, log[q].prod, log[q].prod + k)
  {
    hide Tracing, AtTail, Holds, EnterOn, PutOn, LeaveOn, MayLeave, NoneOpen, NoneOpenBelow, EndBefore, EndBeforeHung, Leading, FlattenAll, Run, Grown, OnlyOpen, Marked;
    var log1, g1, j := HandlerLog(log, h, q, k, true), Handling(log, g, h, q, k, true), |log[h].pend|;
    HandlerLogs(n, log, g, h, q, k);
    HandlerGoesOn(n, log, g, h, q, k, k);
    HandlerIsOnlyOpen(n, log, g, h, q, k);
    LeaveKeeps(n, log1, g1, h, j);
    FinishedAtTail(Top(g), h, Handled(log, q, k, false));
    MarkedTop(g, h, EnterOn(Top(g), h, Handled(log, q, k, false)), g.tree);
  }

  lemma {:induction false} FinishedAtTail(b: Bracket, h: nat, sub: Bracket)
    requires AtTail(b, h) && !sub.open && NoneOpenSpan(sub.body, h)
    ensures AtTail(EnterOn(b, h, sub), h)
    decreases b, 1
  {
    if b.ring != h { FinishedSpanAtTail(b.body, h, sub); }
  }

  lemma {:induction false} FinishedSpanAtTail(s: Span, h: nat, sub: Bracket)
    requires AtTailSpan(s, h) && !sub.open && NoneOpenSpan(sub.body, h)
    ensures AtTailSpan(EnterOnSpan(s, h, sub), h)
    decreases s, 0
  {
    if s.rest.Done? {
      FinishedAtTail(s.sub, h, sub);
    } else {
      MarkedNoneOpen(s.sub, h, h);
      FinishedSpanAtTail(s.rest, h, sub);
    }
  }
}
