/** How handlers nest (__rvpredict_handler_wrapper of llvm/ngrt/rvpsignal.c), on all threads at once,
    with the signal rings that they share and the interruptions that the serializer has not dropped.
    A signal may arrive between any two statements of the wrapper; the new handler runs to its end
    before the interrupted one goes on. */
module Nesting {
  import opened Basics

  /** The next statement of a run of the wrapper. */
  datatype Phase =
    | Count        // idepth = fetch_add(&t->t_idepth, 1)
    | Acquire      // r = rvp_signal_ring_acquire(t, idepth + 1)
    | Exchange     // oldr = exchange(&t->t_intr_ring, r)
    | Record       // rvp_ring_put_interruption(oldr, r, ...)
    | Body         // the handler itself
    | Restore      // t->t_intr_ring = oldr
    | Close        // log `exitsig`, close the interruption
    | Put          // rvp_signal_ring_put(t, r)
    | Uncount      // t->t_idepth = idepth
    | Return

  /** One run of the wrapper, with its local variables. */
  datatype Frame = Frame(phase: Phase, idepth: nat, r: nat, oldr: nat)

  /** t_idepth, t_intr_ring, and the runs of the wrapper from the outermost to the innermost. */
  datatype Thread = Thread(idepth: nat, intrRing: nat, stack: seq<Frame>)

  /** r_tid, r_idepth, and the interruptors of the interruptions that are recorded on the ring and
      have not been dropped. */
  datatype Ring = Ring(tid: nat, depth: nat, intrs: seq<nat>)

  /** Thread `i` has id `i`, and ring `i` is its own; the signal rings come after the threads' rings. */
  datatype State = State(threads: seq<Thread>, rings: seq<Ring>)

  /** A signal arrives on a thread; the innermost run of the wrapper on a thread executes its next
      statement, in which it may acquire ring `free`; the serializer drops the first interruption of a
      ring. */
  datatype Step = Arrive(i: nat) | Advance(i: nat, free: nat) | Drop(r: nat)

  predicate HasRing(f: Frame)
  {
    f.phase in {Exchange, Record, Body, Restore, Close, Put}
  }

  /** The rings that runs of the wrapper on a thread have acquired. */
  function Held(stack: seq<Frame>): set<nat>
  {
    if stack == [] then {} else Held(Others(stack)) + if HasRing(Last(stack)) then {Last(stack).r} else {}
  }

  /** A signal ring that nobody has, and that has the label wanted or else is clean: then it has no
      interruptions. */
  predicate MayTake(s: State, i: nat, free: nat, depth: nat)
  {
    |s.threads| <= free < |s.rings| && (forall j | 0 <= j < |s.threads| :: free !in Held(s.threads[j].stack)) &&
    ((s.rings[free].tid == i && s.rings[free].depth == depth) || s.rings[free].intrs == [])
  }

  function Do(s: State, step: Step): State
  {
    match step
    case Arrive(i) =>
      if i < |s.threads| then s.(threads := s.threads[i := s.threads[i].(stack := s.threads[i].stack + [Frame(Count, 0, 0, 0)])]) else s
    case Advance(i, free) =>
      if i < |s.threads| && s.threads[i].stack != [] then Statement(s, i, free) else s
    case Drop(r) =>
      if r < |s.rings| && s.rings[r].intrs != [] then s.(rings := s.rings[r := s.rings[r].(intrs := s.rings[r].intrs[1..])]) else s
  }

  /** The rings after the next statement of thread `i`. */
  function RingsAfter(s: State, i: nat, free: nat): seq<Ring>
    requires i < |s.threads| && s.threads[i].stack != []
  {
    var f := Last(s.threads[i].stack);
    if f.phase.Acquire? && MayTake(s, i, free, f.idepth + 1) then s.rings[free := s.rings[free].(tid := i, depth := f.idepth + 1)]
    else if f.phase.Record? && f.oldr < |s.rings| then s.rings[f.oldr := s.rings[f.oldr].(intrs := s.rings[f.oldr].intrs + [f.r])]
    else s.rings
  }

  /** The thread after it. */
  function ThreadAfter(s: State, i: nat, free: nat): Thread
    requires i < |s.threads| && s.threads[i].stack != []
  {
    var t := s.threads[i];
    var f, below := Last(t.stack), Others(t.stack);
    match f.phase
    case Count => t.(idepth := t.idepth + 1, stack := below + [f.(phase := Acquire, idepth := t.idepth)])
    case Acquire => if MayTake(s, i, free, f.idepth + 1) then t.(stack := below + [f.(phase := Exchange, r := free)]) else t
    case Exchange => t.(intrRing := f.r, stack := below + [f.(phase := Record, oldr := t.intrRing)])
    case Record => t.(stack := below + [f.(phase := Body)])
    case Body => t.(stack := below + [f.(phase := Restore)])
    case Restore => t.(intrRing := f.oldr, stack := below + [f.(phase := Close)])
    case Close => t.(stack := below + [f.(phase := Put)])
    case Put => t.(stack := below + [f.(phase := Uncount)])
    case Uncount => t.(idepth := f.idepth, stack := below + [f.(phase := Return)])
    case Return => t.(stack := below)
  }

  function Statement(s: State, i: nat, free: nat): State
    requires i < |s.threads| && s.threads[i].stack != []
  {
    State(s.threads[i := ThreadAfter(s, i, free)], RingsAfter(s, i, free))
  }

  function Run(s: State, steps: seq<Step>): State
    decreases |steps|
  {
    if steps == [] then s else Run(Do(s, steps[0]), steps[1..])
  }

  // ---- what every step keeps ---------------------------------------------------------

  /** What a run of the wrapper leaves the thread's depth and current ring at, if they were
      `at` when it started. */
  function Within(at: (nat, nat), f: Frame): (nat, nat)
  {
    match f.phase
    case Count => at
    case Return => at
    case Record => (at.0 + 1, f.r)
    case Body => (at.0 + 1, f.r)
    case Restore => (at.0 + 1, f.r)
    case _ => (at.0 + 1, at.1)
  }

  /** The depth and the ring that thread `i`'s variables must hold, given how far each run of the
      wrapper has got. */
  function Expected(i: nat, stack: seq<Frame>): (nat, nat)
  {
    if stack == [] then (0, i) else Within(Expected(i, Others(stack)), Last(stack))
  }

  /** The local variables of one run of the wrapper, with `n` threads. */
  predicate FrameOk(rings: seq<Ring>, n: nat, i: nat, below: seq<Frame>, f: Frame)
  {
    var (d, r) := Expected(i, below);
    (f.phase !in {Count, Return} ==> f.idepth == d) &&
    (HasRing(f) ==> n <= f.r < |rings| && f.r !in Held(below) && rings[f.r].tid == i && rings[f.r].depth == d + 1) &&
    (f.phase in {Record, Body, Restore, Close, Put} ==> f.oldr == r)
  }

  predicate Locals(rings: seq<Ring>, n: nat, i: nat, stack: seq<Frame>)
  {
    stack != [] ==> Locals(rings, n, i, Others(stack)) && FrameOk(rings, n, i, Others(stack), Last(stack))
  }

  predicate GoodThread(rings: seq<Ring>, n: nat, i: nat, t: Thread)
  {
    i < n <= |rings| && rings[i].tid == i && rings[i].depth == 0 && (t.idepth, t.intrRing) == Expected(i, t.stack) && Locals(rings, n, i, t.stack)
  }

  predicate Inv(s: State)
  {
    forall i | 0 <= i < |s.threads| :: GoodThread(s.rings, |s.threads|, i, s.threads[i])
  }

  /** Every interruption that has not been dropped is by a deeper ring of the same thread, as the
      rings are labelled now. */
  predicate AllDeeper(rings: seq<Ring>)
  {
    forall r, k | 0 <= r < |rings| && 0 <= k < |rings[r].intrs| :: Deeper(rings, r, rings[r].intrs[k])
  }

  predicate Deeper(rings: seq<Ring>, r: nat, q: nat)
    requires r < |rings|
  {
    q < |rings| && rings[q].tid == rings[r].tid && rings[r].depth < rings[q].depth
  }

  /** The current ring is the thread's or one that is held, and no deeper than the count. */
  lemma {:induction false} ExpectedRing(rings: seq<Ring>, n: nat, i: nat, stack: seq<Frame>)
    requires i < n <= |rings| && rings[i].tid == i && rings[i].depth == 0 && Locals(rings, n, i, stack)
    ensures var (d, r) := Expected(i, stack); r < |rings| && rings[r].tid == i && rings[r].depth <= d
    ensures var (_, r) := Expected(i, stack); r == i || r in Held(stack)
    decreases |stack|
  {
    if stack != [] { ExpectedRing(rings, n, i, Others(stack)); }
  }

  /** What becomes of rings that are not held changes nothing for those that are. */
  lemma {:induction false} LocalsKeep(rings: seq<Ring>, rings': seq<Ring>, n: nat, i: nat, stack: seq<Frame>)
    requires Locals(rings, n, i, stack) && |rings'| == |rings|
    requires forall q | q in Held(stack) && q < |rings| :: rings'[q].tid == rings[q].tid && rings'[q].depth == rings[q].depth
    ensures Locals(rings', n, i, stack)
    decreases |stack|
  {
    if stack != [] { LocalsKeep(rings, rings', n, i, Others(stack)); }
  }

  lemma PushedBack(rings: seq<Ring>, n: nat, i: nat, stack: seq<Frame>, f: Frame)
    ensures Last(stack + [f]) == f && Others(stack + [f]) == stack
    ensures Expected(i, stack + [f]) == Within(Expected(i, stack), f)
    ensures Locals(rings, n, i, stack + [f]) <==> Locals(rings, n, i, stack) && FrameOk(rings, n, i, stack, f)
    ensures Held(stack + [f]) == Held(stack) + if HasRing(f) then {f.r} else {}
  {
    assert Others(stack + [f]) == stack;
  }

  lemma TopFacts(rings: seq<Ring>, n: nat, i: nat, t: Thread)
    requires GoodThread(rings, n, i, t) && t.stack != []
    ensures var f, below := Last(t.stack), Others(t.stack);
            t.stack == below + [f] && FrameOk(rings, n, i, below, f) && Locals(rings, n, i, below) &&
            (t.idepth, t.intrRing) == Within(Expected(i, below), f) && Held(t.stack) == Held(below) + if HasRing(f) then {f.r} else {}
  {
    hide Expected, Locals, Held, FrameOk, Within;
    var f, below := Last(t.stack), Others(t.stack);
    assert t.stack == below + [f];
    PushedBack(rings, n, i, below, f);
  }

  lemma TopKeeps(rings: seq<Ring>, n: nat, i: nat, t: Thread, below: seq<Frame>, f: Frame)
    requires i < n <= |rings| && rings[i].tid == i && rings[i].depth == 0
    requires t.stack == below + [f] && FrameOk(rings, n, i, below, f) && Locals(rings, n, i, below)
    requires (t.idepth, t.intrRing) == Within(Expected(i, below), f)
    ensures GoodThread(rings, n, i, t)
  {
    hide Expected, Locals, Held, FrameOk, Within;
    PushedBack(rings, n, i, below, f);
  }

  /** The labels of rings that are held, and of the threads' rings, stay as they are. */
  predicate LabelsStay(s: State, rings: seq<Ring>, free: nat)
  {
    |rings| == |s.rings| && (forall q | 0 <= q < |rings| && q != free :: rings[q].tid == s.rings[q].tid && rings[q].depth == s.rings[q].depth) &&
    |s.threads| <= free && forall j | 0 <= j < |s.threads| :: free !in Held(s.threads[j].stack)
  }

  lemma OtherThread(s: State, rings: seq<Ring>, free: nat, j: nat)
    requires Inv(s) && j < |s.threads| && LabelsStay(s, rings, free)
    ensures GoodThread(rings, |s.threads|, j, s.threads[j])
  {
    hide Expected, Locals, Held;
    assert GoodThread(s.rings, |s.threads|, j, s.threads[j]);
    LocalsKeep(s.rings, rings, |s.threads|, j, s.threads[j].stack);
  }

  /** A ring that nobody has: one past the last if there is no other. */
  lemma NobodysRing(s: State)
    requires Inv(s)
    ensures |s.threads| <= |s.rings| + |s.threads| && LabelsStay(s, s.rings, |s.rings| + |s.threads|)
  {
    forall j | 0 <= j < |s.threads|
      ensures |s.rings| + |s.threads| !in Held(s.threads[j].stack)
    {
      assert GoodThread(s.rings, |s.threads|, j, s.threads[j]);
      HeldAreRings(s.rings, |s.threads|, j, s.threads[j].stack);
    }
  }

  lemma {:induction false} HeldAreRings(rings: seq<Ring>, n: nat, i: nat, stack: seq<Frame>)
    requires Locals(rings, n, i, stack)
    ensures forall q | q in Held(stack) :: q < |rings|
    decreases |stack|
  {
    if stack != [] { HeldAreRings(rings, n, i, Others(stack)); }
  }

  lemma StatementKeeps(s: State, i: nat, free: nat)
    requires Inv(s) && i < |s.threads| && s.threads[i].stack != []
    ensures Inv(Statement(s, i, free))
  {
    hide Expected, Locals, Held, FrameOk, Within, HasRing, GoodThread, MayTake;
    var t, n := s.threads[i], |s.threads|;
    var f, rings' := Last(t.stack), RingsAfter(s, i, free);
    NobodysRing(s);
    LabelsKept(s, i, free);
    forall j | 0 <= j < n && j != i
      ensures GoodThread(rings', n, j, s.threads[j])
    {
      OtherThread(s, rings', if f.phase.Acquire? && MayTake(s, i, free, f.idepth + 1) then free else |s.rings| + n, j);
    }
    OwnStatement(s, i, free);
  }

  lemma LabelsKept(s: State, i: nat, free: nat)
    requires Inv(s) && i < |s.threads| && s.threads[i].stack != [] && LabelsStay(s, s.rings, |s.rings| + |s.threads|)
    ensures var f := Last(s.threads[i].stack);
            LabelsStay(s, RingsAfter(s, i, free), if f.phase.Acquire? && MayTake(s, i, free, f.idepth + 1) then free else |s.rings| + |s.threads|)
  {
    hide Expected, Locals, Held;
  }

  lemma OwnStatement(s: State, i: nat, free: nat)
    requires Inv(s) && i < |s.threads| && s.threads[i].stack != []
    ensures GoodThread(RingsAfter(s, i, free), |s.threads|, i, ThreadAfter(s, i, free))
  {
    hide Expected, Locals, Held;
    var t, n := s.threads[i], |s.threads|;
    var f, below := Last(t.stack), Others(t.stack);
    var rings', t' := RingsAfter(s, i, free), ThreadAfter(s, i, free);
    assert GoodThread(s.rings, n, i, t);
    TopFacts(s.rings, n, i, t);
    NobodysRing(s);
    LabelsKept(s, i, free);
    LocalsKeep(s.rings, rings', n, i, below);
    if !f.phase.Return? && t' != t { TopKeeps(rings', n, i, t', below, Last(t'.stack)); }
    if t' == t { LocalsKeep(s.rings, rings', n, i, t.stack); }
  }

  lemma StepKeeps(s: State, step: Step)
    requires Inv(s)
    ensures Inv(Do(s, step)) && |Do(s, step).threads| == |s.threads|
  {
    hide Expected, Locals, Held, Statement, FrameOk;
    match step {
      case Arrive(i) =>
        if i < |s.threads| {
          assert GoodThread(s.rings, |s.threads|, i, s.threads[i]);
          PushedBack(s.rings, |s.threads|, i, s.threads[i].stack, Frame(Count, 0, 0, 0));
          Arrives(s.rings, |s.threads|, i, s.threads[i].stack);
        }
      case Advance(i, free) =>
        if i < |s.threads| && s.threads[i].stack != [] { StatementKeeps(s, i, free); }
        assert |Do(s, step).threads| == |s.threads| by { StatementSize(s, i, free); }
      case Drop(r) =>
        NobodysRing(s);
        forall j | 0 <= j < |s.threads|
          ensures GoodThread(Do(s, step).rings, |s.threads|, j, s.threads[j])
        {
          OtherThread(s, Do(s, step).rings, |s.rings| + |s.threads|, j);
        }
    }
  }

  lemma Arrives(rings: seq<Ring>, n: nat, i: nat, below: seq<Frame>)
    ensures FrameOk(rings, n, i, below, Frame(Count, 0, 0, 0))
  {
  }

  lemma StatementSize(s: State, i: nat, free: nat)
    ensures |Do(s, Advance(i, free)).threads| == |s.threads|
  {
  }

  lemma {:induction false} RunKeeps(s: State, steps: seq<Step>)
    requires Inv(s)
    ensures Inv(Run(s, steps)) && |Run(s, steps).threads| == |s.threads|
    decreases |steps|
  {
    hide Inv, Do;
    if steps != [] {
      StepKeeps(s, steps[0]);
      RunKeeps(Do(s, steps[0]), steps[1..]);
    }
  }

  /** `n` threads that no signal has reached, and `k` signal rings. */
  function Init(n: nat, k: nat): State
  {
    State(seq(n, i requires 0 <= i => Thread(0, i, [])), seq(n + k, r requires 0 <= r => if r < n then Ring(r, 0, []) else Ring(0, 0, [])))
  }

  /** Whenever the runs of the wrapper on a thread are back where they were, as when handlers have
      returned, so are the thread's depth and current ring. */
  lemma RestoredOnReturn(n: nat, k: nat, before: seq<Step>, more: seq<Step>, i: nat)
    requires i < n
    ensures var s := Run(Init(n, k), before);
            var s' := Run(s, more);
            i < |s.threads| == |s'.threads| &&
            (s'.threads[i].stack == s.threads[i].stack ==> s'.threads[i].idepth == s.threads[i].idepth && s'.threads[i].intrRing == s.threads[i].intrRing)
  {
    var s := Run(Init(n, k), before);
    RunKeeps(Init(n, k), before);
    RunKeeps(s, more);
    assert GoodThread(s.rings, n, i, s.threads[i]) && GoodThread(Run(s, more).rings, n, i, Run(s, more).threads[i]);
  }

  // ---- one handler from its signal to its return ----------------------------------------------------

  /** A signal on thread `i`, and the first `k` statements of its handler, which may acquire ring `free`. */
  function FirstOf(i: nat, free: nat, k: nat): (steps: seq<Step>)
    ensures |steps| == k + 1
  {
    [Arrive(i)] + seq(k, _ => Advance(i, free))
  }

  /** The statements of a handler, in their order. */
  function PhaseOf(k: nat): Phase
  {
    match k
    case 0 => Count
    case 1 => Acquire
    case 2 => Exchange
    case 3 => Record
    case 4 => Body
    case 5 => Restore
    case 6 => Close
    case 7 => Put
    case 8 => Uncount
    case _ => Return
  }

  /** Where everything is when the first `k` statements of the handler have been executed. */
  function Staged(s: State, i: nat, free: nat, k: nat): State
    requires i < |s.threads| && free < |s.rings| && s.threads[i].intrRing < |s.rings| && k <= 10
  {
    var t := s.threads[i];
    var frame := Frame(PhaseOf(k), if k > 0 then t.idepth else 0, if k > 1 then free else 0, if k > 2 then t.intrRing else 0);
    var labelled := if k > 1 then s.rings[free := s.rings[free].(tid := i, depth := t.idepth + 1)] else s.rings;
    State(s.threads[i := Thread(if 0 < k < 9 then t.idepth + 1 else t.idepth, if 2 < k < 6 then free else t.intrRing,
                                if k < 10 then t.stack + [frame] else t.stack)],
          if k > 3 then labelled[t.intrRing := labelled[t.intrRing].(intrs := labelled[t.intrRing].intrs + [free])] else labelled)
  }

  lemma NextStage(s: State, i: nat, free: nat, k: nat)
    requires i < |s.threads| && s.threads[i].intrRing < |s.rings| && k < 10 && free < |s.rings| && MayTake(s, i, free, s.threads[i].idepth + 1)
    ensures Do(Staged(s, i, free, k), Advance(i, free)) == Staged(s, i, free, k + 1)
  {
    hide MayTake;
    var t, u := s.threads[i], Staged(s, i, free, k).threads[i];
    assert u.stack == t.stack + [Last(u.stack)] && Others(u.stack) == t.stack;
    if k == 1 { FreeStill(s, i, free); }
  }

  /** The ring may still be taken when the handler comes to that. */
  lemma FreeStill(s: State, i: nat, free: nat)
    requires i < |s.threads| && s.threads[i].intrRing < |s.rings| && MayTake(s, i, free, s.threads[i].idepth + 1)
    ensures MayTake(Staged(s, i, free, 1), i, free, s.threads[i].idepth + 1)
  {
    hide Held;
    var s', t := Staged(s, i, free, 1), s.threads[i];
    PushedBack(s.rings, |s.threads|, i, t.stack, Last(s'.threads[i].stack));
    forall j | 0 <= j < |s'.threads|
      ensures free !in Held(s'.threads[j].stack)
    {
      assert free !in Held(s.threads[j].stack);
    }
  }

  lemma {:induction false} StagesRun(s: State, i: nat, free: nat, k: nat)
    requires i < |s.threads| && s.threads[i].intrRing < |s.rings| && k <= 10 && MayTake(s, i, free, s.threads[i].idepth + 1)
    ensures Run(s, FirstOf(i, free, k)) == Staged(s, i, free, k)
    decreases k
  {
    hide Do, MayTake, Staged;
    MayTakeIs(s, i, free, s.threads[i].idepth + 1);
    if k == 0 {
      assert FirstOf(i, free, 0) == [Arrive(i)];
      RunOne(s, Arrive(i));
      Arrival(s, i, free);
    } else {
      StagesRun(s, i, free, k - 1);
      assert FirstOf(i, free, k) == FirstOf(i, free, k - 1) + [Advance(i, free)];
      RunConcat(s, FirstOf(i, free, k - 1), [Advance(i, free)]);
      RunOne(Staged(s, i, free, k - 1), Advance(i, free));
      NextStage(s, i, free, k - 1);
    }
  }

  lemma MayTakeIs(s: State, i: nat, free: nat, depth: nat)
    requires MayTake(s, i, free, depth)
    ensures |s.threads| <= free < |s.rings|
  {
  }

  lemma Arrival(s: State, i: nat, free: nat)
    requires i < |s.threads| && s.threads[i].intrRing < |s.rings| && free < |s.rings|
    ensures Do(s, Arrive(i)) == Staged(s, i, free, 0)
  {
  }

  lemma RunOne(s: State, step: Step)
    ensures Run(s, [step]) == Do(s, step)
  {
    hide Do;
    assert [step][1..] == [];
  }

  lemma {:induction false} RunConcat(s: State, a: seq<Step>, b: seq<Step>)
    ensures Run(s, a + b) == Run(Run(s, a), b)
    decreases |a|
  {
    hide Do;
    if a == [] {
      assert a + b == b;
    } else {
      assert (a + b)[1..] == a[1..] + b;
      RunConcat(Do(s, a[0]), a[1..], b);
    }
  }

  /** A handler that finds a ring and is not interrupted itself: it counts as nested from its first statement to its
      last but one; its ring, which carries its thread and depth, is the current one while it runs; its interruption
      is on the ring that it interrupted from before its body on; and in ten statements it has returned, and nothing
      else is left of it. */
  lemma HandlerFromEndToEnd(s: State, i: nat, free: nat, k: nat)
    requires Inv(s) && i < |s.threads| && k <= 10 && MayTake(s, i, free, s.threads[i].idepth + 1)
    ensures s.threads[i].intrRing < |s.rings| && free < |s.rings| && free != s.threads[i].intrRing
    ensures var t, s' := s.threads[i], Run(s, FirstOf(i, free, k));
            |s'.threads| == |s.threads| && |s'.rings| == |s.rings| &&
            (forall j | 0 <= j < |s.threads| && j != i :: s'.threads[j] == s.threads[j]) &&
            (forall q | 0 <= q < |s.rings| && q != free && q != t.intrRing :: s'.rings[q] == s.rings[q]) &&
            s'.threads[i].idepth == (if 1 <= k <= 8 then t.idepth + 1 else t.idepth) &&
            s'.threads[i].intrRing == (if 3 <= k <= 5 then free else t.intrRing) &&
            s'.rings[free] == (if k >= 2 then Ring(i, t.idepth + 1, s.rings[free].intrs) else s.rings[free]) &&
            s'.rings[t.intrRing] == s.rings[t.intrRing].(intrs := if k >= 4 then s.rings[t.intrRing].intrs + [free] else s.rings[t.intrRing].intrs) &&
            (k == 4 ==> s'.threads[i].stack == t.stack + [Frame(Body, t.idepth, free, t.intrRing)]) &&
            (k == 10 ==> s'.threads[i] == t)
  {
    CurrentIsNotFree(s, i, free);
    StagesRun(s, i, free, k);
    hide Run, FirstOf, Inv, MayTake;
  }

  lemma CurrentIsNotFree(s: State, i: nat, free: nat)
    requires Inv(s) && i < |s.threads| && MayTake(s, i, free, s.threads[i].idepth + 1)
    ensures s.threads[i].intrRing < |s.rings| && free < |s.rings| && free != s.threads[i].intrRing
  {
    hide Expected, Locals, Held;
    assert GoodThread(s.rings, |s.threads|, i, s.threads[i]);
    ExpectedRing(s.rings, |s.threads|, i, s.threads[i].stack);
  }

  // ---- interruptors are deeper, as long as rings are taken over with care ----------------------

  /** The label that ring `free` gets is true of every interruption by it that has not been dropped. */
  predicate Truthful(rings: seq<Ring>, free: nat, i: nat, depth: nat)
  {
    forall r, k | 0 <= r < |rings| && 0 <= k < |rings[r].intrs| && rings[r].intrs[k] == free ::
      rings[r].tid == i && rings[r].depth < depth
  }

  /** The step takes over no ring, or one with a label that is true. */
  predicate CarefulStep(s: State, step: Step)
  {
    step.Advance? && step.i < |s.threads| && s.threads[step.i].stack != [] ==>
      var f := Last(s.threads[step.i].stack);
      f.phase.Acquire? && MayTake(s, step.i, step.free, f.idepth + 1) ==> Truthful(s.rings, step.free, step.i, f.idepth + 1)
  }

  predicate Careful(s: State, steps: seq<Step>)
    decreases |steps|
  {
    steps != [] ==> CarefulStep(s, steps[0]) && Careful(Do(s, steps[0]), steps[1..])
  }

  /** A take-over keeps every interruptor deeper if and only if it is careful; every other step keeps
      it. */
  lemma StepIsDeeper(s: State, step: Step)
    requires Inv(s) && AllDeeper(s.rings)
    ensures AllDeeper(Do(s, step).rings) <==> CarefulStep(s, step)
  {
    hide Expected, Locals, Held, FrameOk, Within, GoodThread;
    match step {
      case Arrive(i) =>
      case Advance(i, free) =>
        if i < |s.threads| && s.threads[i].stack != [] {
          var f := Last(s.threads[i].stack);
          if f.phase.Acquire? && MayTake(s, i, free, f.idepth + 1) {
            AcquireIsDeeper(s.rings, free, i, f.idepth + 1);
          } else if f.phase.Record? {
            RecordIsDeeper(s, i, free);
          }
        }
      case Drop(r) => if r < |s.rings| && s.rings[r].intrs != [] { DropIsDeeper(s.rings, r); }
    }
  }

  lemma AcquireIsDeeper(rings: seq<Ring>, free: nat, i: nat, depth: nat)
    requires AllDeeper(rings) && free < |rings| && ((rings[free].tid == i && rings[free].depth == depth) || rings[free].intrs == [])
    ensures AllDeeper(rings[free := rings[free].(tid := i, depth := depth)]) <==> Truthful(rings, free, i, depth)
  {
    var rings' := rings[free := rings[free].(tid := i, depth := depth)];
    if Truthful(rings, free, i, depth) {
      forall r, k | 0 <= r < |rings'| && 0 <= k < |rings'[r].intrs|
        ensures Deeper(rings', r, rings'[r].intrs[k])
      {
        assert Deeper(rings, r, rings[r].intrs[k]);
      }
    }
    if AllDeeper(rings') {
      forall r, k | 0 <= r < |rings| && 0 <= k < |rings[r].intrs| && rings[r].intrs[k] == free
        ensures rings[r].tid == i && rings[r].depth < depth
      {
        assert Deeper(rings, r, rings[r].intrs[k]) && Deeper(rings', r, rings'[r].intrs[k]);
      }
    }
  }

  lemma RecordIsDeeper(s: State, i: nat, free: nat)
    requires Inv(s) && AllDeeper(s.rings) && i < |s.threads| && s.threads[i].stack != [] && Last(s.threads[i].stack).phase.Record?
    ensures AllDeeper(RingsAfter(s, i, free))
  {
    hide Expected, Locals, Held, Within;
    var t, n := s.threads[i], |s.threads|;
    var f, rings' := Last(t.stack), RingsAfter(s, i, free);
    assert GoodThread(s.rings, n, i, t);
    TopFacts(s.rings, n, i, t);
    ExpectedRing(s.rings, n, i, Others(t.stack));
    forall r, k | 0 <= r < |rings'| && 0 <= k < |rings'[r].intrs|
      ensures Deeper(rings', r, rings'[r].intrs[k])
    {
      if k < |s.rings[r].intrs| { assert Deeper(s.rings, r, s.rings[r].intrs[k]); }
    }
  }

  lemma DropIsDeeper(rings: seq<Ring>, r: nat)
    requires AllDeeper(rings) && r < |rings| && rings[r].intrs != []
    ensures AllDeeper(rings[r := rings[r].(intrs := rings[r].intrs[1..])])
  {
    var rings' := rings[r := rings[r].(intrs := rings[r].intrs[1..])];
    forall x, k | 0 <= x < |rings'| && 0 <= k < |rings'[x].intrs|
      ensures Deeper(rings', x, rings'[x].intrs[k])
    {
      var j: nat := if x == r then k + 1 else k;
      assert Deeper(rings, x, rings[x].intrs[j]);
    }
  }

  /** Whatever signals arrive on whatever threads, in any run: as the rings are labelled now, every
      interruption that has not been dropped is by a deeper ring of the same thread, in this state and
      in all before it, if and only if every ring that was taken over got a label that was true of the
      interruptions by it that were left. */
  lemma {:induction false} DeeperIfCareful(s: State, steps: seq<Step>)
    requires Inv(s) && AllDeeper(s.rings)
    ensures Careful(s, steps) <==> forall m | 0 <= m <= |steps| :: AllDeeper(Run(s, steps[..m]).rings)
    decreases |steps|
  {
    hide Inv, Do, AllDeeper, CarefulStep;
    if steps != [] {
      var s', rest := Do(s, steps[0]), steps[1..];
      StepKeeps(s, steps[0]);
      StepIsDeeper(s, steps[0]);
      forall m | 1 <= m <= |steps|
        ensures Run(s, steps[..m]) == Run(s', rest[..m - 1])
      {
        assert steps[..m][1..] == rest[..m - 1] && steps[..m][0] == steps[0];
      }
      if AllDeeper(s'.rings) {
        DeeperIfCareful(s', rest);
        if Careful(s, steps) {
          forall m | 0 <= m <= |steps|
            ensures AllDeeper(Run(s, steps[..m]).rings)
          {
            if m > 0 { assert AllDeeper(Run(s', rest[..m - 1]).rings); }
          }
        }
        if forall m | 0 <= m <= |steps| :: AllDeeper(Run(s, steps[..m]).rings) {
          forall m | 0 <= m <= |rest|
            ensures AllDeeper(Run(s', rest[..m]).rings)
          {
            assert AllDeeper(Run(s, steps[..m + 1]).rings);
          }
        }
      } else {
        assert Run(s, steps[..1]) == Run(s', rest[..0]) == s';
      }
    }
  }

  lemma InterruptorsAreDeeper(n: nat, k: nat, steps: seq<Step>)
    ensures Careful(Init(n, k), steps) <==> forall m | 0 <= m <= |steps| :: AllDeeper(Run(Init(n, k), steps[..m]).rings)
  {
    DeeperIfCareful(Init(n, k), steps);
  }

  // ---- no cycles -----------------------------------------------------------------------

  /** Each ring of the path interrupts the one before. */
  predicate Path(rings: seq<Ring>, path: seq<nat>)
  {
    (forall i | 0 <= i < |path| :: path[i] < |rings|) &&
    forall i | 0 < i < |path| :: path[i] in rings[path[i - 1]].intrs
  }

  /** If every interruptor is deeper, then a path of interruptions never comes back to a ring, stays
      with one thread, and is no longer than its last ring is deep. */
  lemma {:induction false} DeeperAlong(rings: seq<Ring>, path: seq<nat>)
    requires AllDeeper(rings) && Path(rings, path) && path != []
    ensures path[0] < |rings| && path[|path| - 1] < |rings|
    ensures rings[path[|path| - 1]].depth >= rings[path[0]].depth + |path| - 1 && rings[path[|path| - 1]].tid == rings[path[0]].tid
    decreases |path|
  {
    if |path| > 1 {
      var shorter := path[..|path| - 1];
      assert Path(rings, shorter);
      DeeperAlong(rings, shorter);
      var r := path[|path| - 2];
      assert path[|path| - 1] in rings[r].intrs;
      var k :| 0 <= k < |rings[r].intrs| && rings[r].intrs[k] == path[|path| - 1];
      assert Deeper(rings, r, rings[r].intrs[k]);
    }
  }

  /** In every state that a careful run reaches, the recursion of the serializer ends: the interruptions
      that are left never lead back to a ring, and lead no further than a ring is deep. */
  lemma NoCycle(n: nat, k: nat, steps: seq<Step>, path: seq<nat>)
    requires Careful(Init(n, k), steps) && Path(Run(Init(n, k), steps).rings, path) && |path| > 1
    ensures var rings := Run(Init(n, k), steps).rings;
            path[0] != path[|path| - 1] && path[0] < |rings| && path[|path| - 1] < |rings| && |path| <= rings[path[|path| - 1]].depth + 1
  {
    hide AllDeeper, Careful, Run, Path;
    InterruptorsAreDeeper(n, k, steps);
    assert steps[..|steps|] == steps;
    DeeperAlong(Run(Init(n, k), steps).rings, path);
  }
}
