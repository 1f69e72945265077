/** One event ring under its producer and its consumer, whose steps interleave in any way
    (llvm/ngrt/ring.h, rvp_ring_put_multiple). Memory is sequentially consistent. The
    producer copies a put word by word before it publishes it; the consumer reads words
    one by one before it gives their slots back. */
module RingFifo {
  import opened Basics
  import opened EventTree
  import opened Arcs

  /** The producer is between puts; or waits for room; or has copied `done` words. */
  datatype Producer =
    | Idle
    | Waiting(item: seq<Word>, prev: nat, next: nat)
    | Copying(item: seq<Word>, prev: nat, next: nat, done: nat)

  /** The consumer is between reads; or has read the producer pointer and then words, of
      which the next is at index `at`. */
  datatype Consumer = Resting | Reading(producer: nat, at: nat, taken: seq<Word>)

  /** A ring, both program counters, and the history: the words of all finished puts, and the
      words consumed. */
  datatype State = State(
    items: seq<Word>, producer: nat, consumer: nat, p: Producer, c: Consumer, put: seq<Word>, got: seq<Word>)

  datatype Step = Begin(item: seq<Word>) | Check | Copy | Publish | Look | Take | Commit

  // ---- index expressions of the code ---------------------------------------------

  function NextProducer(n: nat, prev: nat, nitems: nat): int
  {
    if prev + nitems <= n - 1 then prev + nitems else prev + (nitems - n)
  }

  function Nfull(n: nat, producer: nat, consumer: nat): int
  {
    if producer >= consumer then producer - consumer else n - (consumer - producer)
  }

  function Nempty(n: nat, producer: nat, consumer: nat): int
  {
    (n - 1) - Nfull(n, producer, consumer)
  }

  /** Where the one memcpy, or the two, put word `k`. */
  function Target(n: nat, prev: nat, next: nat, k: nat): int
  {
    if prev < next then prev + k
    else
      var nfirst := n - prev;
      if k < nfirst then prev + k else k - nfirst
  }

  // ---- the steps ---------------------------------------------------------------------

  /** What the assertion of rvp_ring_put_multiple demands, and that there is something to put. */
  predicate Fitting(n: nat, item: seq<Word>)
  {
    0 < |item| < n
  }

  function Do(n: nat, s: State, step: Step): State
    requires 0 < n && |s.items| == n
  {
    match step
    case Begin(item) =>
      if s.p.Idle? && Fitting(n, item) && NextProducer(n, s.producer, |item|) >= 0
      then s.(p := Waiting(item, s.producer, NextProducer(n, s.producer, |item|))) else s
    case Check =>
      if s.p.Waiting? && Nempty(n, s.producer, s.consumer) >= |s.p.item|
      then s.(p := Copying(s.p.item, s.p.prev, s.p.next, 0)) else s
    case Copy =>
      if s.p.Copying? && s.p.done < |s.p.item| && 0 <= Target(n, s.p.prev, s.p.next, s.p.done) < n
      then s.(items := s.items[Target(n, s.p.prev, s.p.next, s.p.done) := s.p.item[s.p.done]], p := s.p.(done := s.p.done + 1))
      else s
    case Publish =>
      if s.p.Copying? && s.p.done == |s.p.item|
      then s.(producer := s.p.next, p := Idle, put := s.put + s.p.item) else s
    case Look =>
      if s.c.Resting? then s.(c := Reading(s.producer, s.consumer, [])) else s
    case Take =>
      if s.c.Reading? && s.c.at != s.c.producer && s.c.at < n
      then s.(c := Reading(s.c.producer, if s.c.at == n - 1 then 0 else s.c.at + 1, s.c.taken + [s.items[s.c.at]])) else s
    case Commit =>
      if s.c.Reading? then s.(consumer := s.c.at, c := Resting, got := s.got + s.c.taken) else s
  }

  function Run(n: nat, s: State, steps: seq<Step>): State
    requires 0 < n && |s.items| == n
    decreases |steps|
  {
    if steps == [] then s else Run(n, Do(n, s, steps[0]), steps[1..])
  }

  /** rvp_ring_init, with whatever the slots hold. */
  function Init(items: seq<Word>): State
  {
    State(items, 0, 0, Idle, Resting, [], [])
  }

  // ---- what every step keeps ----------------------------------------------------------------

  ghost predicate Inv(n: nat, s: State)
  {
    0 < n && |s.items| == n && |s.got| <= |s.put| < |s.got| + n &&
    s.producer == Idx(n, |s.put|) && s.consumer == Idx(n, |s.got|) &&
    s.got == s.put[..|s.got|] &&
    Kept(n, s.items, s.put, |s.got|) &&
    InvProducer(n, s) && InvConsumer(n, s)
  }

  predicate InvProducer(n: nat, s: State)
    requires 0 < n && |s.items| == n
  {
    match s.p
    case Idle => true
    case Waiting(item, prev, next) =>
      Fitting(n, item) && prev == s.producer && next == Idx(n, |s.put| + |item|)
    case Copying(item, prev, next, done) =>
      Fitting(n, item) && prev == s.producer && next == Idx(n, |s.put| + |item|) &&
      |s.put| + |item| < |s.got| + n && done <= |item| && Copied(n, s.items, |s.put|, item, done)
  }

  /** The words of `put` from `lo` on are in their slots. */
  predicate Kept(n: nat, items: seq<Word>, put: seq<Word>, lo: nat)
    requires 0 < n && |items| == n
  {
    forall j | lo <= j < |put| :: items[Idx(n, j)] == put[j]
  }

  /** So are the first `done` words of `item`, which is to follow `base` words. */
  predicate Copied(n: nat, items: seq<Word>, base: nat, item: seq<Word>, done: nat)
    requires 0 < n && |items| == n && done <= |item|
  {
    forall k | 0 <= k < done :: items[Idx(n, base + k)] == item[k]
  }

  ghost predicate InvConsumer(n: nat, s: State)
    requires 0 < n
  {
    match s.c
    case Resting => true
    case Reading(producer, at, taken) =>
      exists seen: nat :: LookedAt(n, s, seen)
  }

  /** The consumer has seen the producer pointer when `seen` words had been put. */
  predicate LookedAt(n: nat, s: State, seen: nat)
    requires 0 < n
  {
    s.c.Reading? && |s.got| + |s.c.taken| <= seen <= |s.put| && s.c.producer == Idx(n, seen) &&
    s.c.at == Idx(n, |s.got| + |s.c.taken|) && s.c.taken == s.put[|s.got|..|s.got| + |s.c.taken|]
  }

  // ---- index arithmetic ------------------------------------------------------------------------

  lemma Distance(n: nat, cons: nat, prod: nat)
    requires 0 < n && cons <= prod < cons + n
    ensures Nfull(n, Idx(n, prod), Idx(n, cons)) == prod - cons
  {
    Wrap(n, cons, prod);
  }

  lemma NextIs(n: nat, pos: nat, k: nat)
    requires 0 < n && k < n
    ensures NextProducer(n, Idx(n, pos), k) == Idx(n, pos + k)
  {
    Wrap(n, pos, pos + k);
    if Idx(n, pos) + k <= n - 1 {
      ModUnique(n, pos + k, pos / n, pos % n + k);
    } else {
      assert n * (pos / n + 1) == n * (pos / n) + n;
      ModUnique(n, pos + k, pos / n + 1, pos % n + k - n);
    }
  }

  lemma TargetIs(n: nat, pos: nat, len: nat, k: nat)
    requires 0 < n && 0 < len < n && k < len
    ensures Target(n, Idx(n, pos), Idx(n, pos + len), k) == Idx(n, pos + k)
  {
    hide Idx;
    NextIs(n, pos, len);
    NextIs(n, pos, k);
  }

  lemma Distinct(n: nat, i: nat, j: nat)
    requires 0 < n && i < j < i + n
    ensures Idx(n, i) != Idx(n, j)
  {
    Wrap(n, i, j);
  }

  // ---- the theorems ----------------------------------------------------------------------------

  lemma StepKeeps(n: nat, s: State, step: Step)
    requires Inv(n, s)
    ensures Inv(n, Do(n, s, step))
    ensures forall j | |s.got| <= j < |s.put| :: Do(n, s, step).items[Idx(n, j)] == s.items[Idx(n, j)]
  {
    match step
    case Begin(item) => BeginKeeps(n, s, item);
    case Check => CheckKeeps(n, s);
    case Copy => CopyKeeps(n, s);
    case Publish => PublishKeeps(n, s);
    case Look => LookKeeps(n, s);
    case Take => TakeKeeps(n, s);
    case Commit => CommitKeeps(n, s);
  }

  lemma BeginKeeps(n: nat, s: State, item: seq<Word>)
    requires Inv(n, s)
    ensures Inv(n, Do(n, s, Begin(item))) && Do(n, s, Begin(item)).items == s.items
  {
    hide Idx, NextProducer;
    if Fitting(n, item) { NextIs(n, |s.put|, |item|); }
    var s' := Do(n, s, Begin(item));
    assert forall seen: nat | LookedAt(n, s, seen) :: LookedAt(n, s', seen);
  }

  lemma CheckKeeps(n: nat, s: State)
    requires Inv(n, s)
    ensures Inv(n, Do(n, s, Check)) && Do(n, s, Check).items == s.items
  {
    hide Idx, NextProducer, Nfull;
    Distance(n, |s.got|, |s.put|);
    var s' := Do(n, s, Check);
    assert forall seen: nat | LookedAt(n, s, seen) :: LookedAt(n, s', seen);
  }

  lemma CopyKeeps(n: nat, s: State)
    requires Inv(n, s)
    ensures Inv(n, Do(n, s, Copy))
    ensures forall j | |s.got| <= j < |s.put| :: Do(n, s, Copy).items[Idx(n, j)] == s.items[Idx(n, j)]
  {
    hide Idx, Target, NextProducer, Nfull;
    var s' := Do(n, s, Copy);
    if s.p.Copying? && s.p.done < |s.p.item| {
      var at := |s.put| + s.p.done;
      TargetIs(n, |s.put|, |s.p.item|, s.p.done);
      forall j | |s.got| <= j < at
        ensures Idx(n, j) != Idx(n, at)
      {
        Distinct(n, j, at);
      }
    }
    assert forall seen: nat | LookedAt(n, s, seen) :: LookedAt(n, s', seen);
  }

  lemma Longer<T>(a: seq<T>, b: seq<T>, i: nat, j: nat)
    requires i <= j <= |a|
    ensures (a + b)[i..j] == a[i..j]
  {
  }

  lemma Appended(n: nat, items: seq<Word>, put: seq<Word>, item: seq<Word>, lo: nat)
    requires 0 < n && |items| == n && lo <= |put|
    requires Kept(n, items, put, lo) && Copied(n, items, |put|, item, |item|)
    ensures Kept(n, items, put + item, lo)
  {
    hide Idx;
    forall j | lo <= j < |put + item|
      ensures items[Idx(n, j)] == (put + item)[j]
    {
      if j >= |put| {
        var k := j - |put|;
        assert items[Idx(n, |put| + k)] == item[k];
      }
    }
  }

  lemma PublishKeeps(n: nat, s: State)
    requires Inv(n, s)
    ensures Inv(n, Do(n, s, Publish)) && Do(n, s, Publish).items == s.items
  {
    hide Idx, NextProducer, Nfull, Nempty, Target, InvConsumer, LookedAt, Kept, Copied;
    if s.p.Copying? && s.p.done == |s.p.item| {
      var s' := s.(producer := s.p.next, p := Idle, put := s.put + s.p.item);
      PublishLooked(n, s);
      Longer(s.put, s.p.item, 0, |s.got|);
      assert s'.put[..|s.got|] == s.got;
      Appended(n, s.items, s.put, s.p.item, |s.got|);
      assert Do(n, s, Publish) == s';
    }
  }

  lemma PublishLooked(n: nat, s: State)
    requires Inv(n, s) && s.p.Copying?
    ensures InvConsumer(n, s.(producer := s.p.next, p := Idle, put := s.put + s.p.item))
  {
    hide Idx;
    var s' := s.(producer := s.p.next, p := Idle, put := s.put + s.p.item);
    if s.c.Reading? {
      var seen: nat :| LookedAt(n, s, seen);
      Longer(s.put, s.p.item, |s.got|, |s.got| + |s.c.taken|);
      assert LookedAt(n, s', seen);
    }
  }

  lemma LookKeeps(n: nat, s: State)
    requires Inv(n, s)
    ensures Inv(n, Do(n, s, Look)) && Do(n, s, Look).items == s.items
  {
    hide Idx, NextProducer, Nfull;
    if s.c.Resting? { assert LookedAt(n, Do(n, s, Look), |s.put|); }
  }

  lemma TakeKeeps(n: nat, s: State)
    requires Inv(n, s)
    ensures Inv(n, Do(n, s, Take)) && Do(n, s, Take).items == s.items
  {
    hide Idx, Nfull;
    var s' := Do(n, s, Take);
    if s.c.Reading? && s.c.at != s.c.producer && s.c.at < n {
      var seen: nat :| LookedAt(n, s, seen);
      var at := |s.got| + |s.c.taken|;
      assert at < seen;
      NextIs(n, at, 1);
      assert LookedAt(n, s', seen);
    }
  }

  lemma CommitKeeps(n: nat, s: State)
    requires Inv(n, s)
    ensures Inv(n, Do(n, s, Commit)) && Do(n, s, Commit).items == s.items
  {
    hide Idx, NextProducer, Nfull;
    if s.c.Reading? {
      var seen: nat :| LookedAt(n, s, seen);
      assert s.got + s.c.taken == s.put[..|s.got| + |s.c.taken|];
    }
  }

  lemma {:induction false} RunKeeps(n: nat, s: State, steps: seq<Step>)
    requires Inv(n, s)
    ensures Inv(n, Run(n, s, steps))
    decreases |steps|
  {
    hide Inv, Do;
    if steps != [] {
      StepKeeps(n, s, steps[0]);
      Size(n, s);
      RunKeeps(n, Do(n, s, steps[0]), steps[1..]);
    }
  }

  lemma Size(n: nat, s: State)
    requires Inv(n, s)
    ensures 0 < n && |s.items| == n
  {
  }

  /** However the steps interleave, what has been consumed is a prefix of what has been put;
      the pointers tell how many words lie between, which never exceeds the capacity; and
      those words are all still in their slots. */
  lemma Fifo(n: nat, items: seq<Word>, steps: seq<Step>)
    requires 0 < n && |items| == n
    ensures var s := Run(n, Init(items), steps);
            s.got <= s.put &&
            Nfull(n, s.producer, s.consumer) == |s.put| - |s.got| <= n - 1 &&
            |s.items| == n && forall j | |s.got| <= j < |s.put| :: s.items[Idx(n, j)] == s.put[j]
  {
    InitInv(n, items);
    RunKeeps(n, Init(items), steps);
    var s := Run(n, Init(items), steps);
    Distance(n, |s.got|, |s.put|);
    hide Idx;
  }

  lemma InitInv(n: nat, items: seq<Word>)
    requires 0 < n && |items| == n
    ensures Inv(n, Init(items))
  {
  }

  // ---- each side goes through with what it does --------------------------------------------------

  /** A put waits exactly as long as there is too little room for it. */
  lemma RoomExactly(n: nat, s: State)
    requires Inv(n, s) && s.p.Waiting?
    ensures Do(n, s, Check).p.Copying? <==> |s.put| + |s.p.item| < |s.got| + n
  {
    Distance(n, |s.got|, |s.put|);
    hide Idx;
  }

  /** A put never waits for ever for a consumer that keeps up: once everything that has been
      put is consumed, there is room for it. */
  lemma RoomAtLast(n: nat, s: State)
    requires Inv(n, s) && s.p.Waiting? && |s.got| == |s.put|
    ensures Do(n, s, Check).p.Copying?
  {
    Distance(n, |s.got|, |s.put|);
    hide Idx;
  }

  function Times(step: Step, k: nat): (steps: seq<Step>)
    ensures |steps| == k
  {
    seq(k, _ => step)
  }

  lemma RunOne(n: nat, s: State, step: Step)
    requires 0 < n && |s.items| == n
    ensures |Do(n, s, step).items| == n && Run(n, s, [step]) == Do(n, s, step)
  {
    SameSlots(n, s, step);
    hide Do;
    assert [step][1..] == [];
  }

  lemma SameSlots(n: nat, s: State, step: Step)
    requires 0 < n && |s.items| == n
    ensures |Do(n, s, step).items| == n
  {
  }

  lemma {:induction false} RunConcat(n: nat, s: State, a: seq<Step>, b: seq<Step>)
    requires 0 < n && |s.items| == n
    ensures |Run(n, s, a).items| == n && Run(n, s, a + b) == Run(n, Run(n, s, a), b)
    decreases |a|
  {
    if a == [] {
      assert a + b == b;
    } else {
      assert (a + b)[1..] == a[1..] + b;
      RunOne(n, s, a[0]);
      RunConcat(n, Do(n, s, a[0]), a[1..], b);
    }
  }

  lemma RunFirst(n: nat, s: State, step: Step, k: nat)
    requires 0 < n && |s.items| == n && k > 0
    ensures |Do(n, s, step).items| == n && Run(n, s, Times(step, k)) == Run(n, Do(n, s, step), Times(step, k - 1))
  {
    assert Times(step, k)[1..] == Times(step, k - 1);
  }

  /** All words that are left to copy are copied. */
  lemma {:induction false} CopiesAll(n: nat, s: State, k: nat)
    requires Inv(n, s) && s.p.Copying? && s.p.done + k == |s.p.item|
    ensures |s.items| == n && Inv(n, Run(n, s, Times(Copy, k)))
    ensures var s' := Run(n, s, Times(Copy, k)); s' == s.(items := s'.items, p := s.p.(done := |s.p.item|))
    decreases k
  {
    hide Inv, Run;
    Size(n, s);
    if k == 0 {
      assert Times(Copy, 0) == [];
      RunNone(n, s);
    } else {
      RunFirst(n, s, Copy, k);
      StepKeeps(n, s, Copy);
      CopyMoves(n, s);
      CopiesAll(n, Do(n, s, Copy), k - 1);
    }
  }

  lemma RunNone(n: nat, s: State)
    requires 0 < n && |s.items| == n
    ensures Run(n, s, []) == s
  {
  }

  lemma CopyMoves(n: nat, s: State)
    requires Inv(n, s) && s.p.Copying? && s.p.done < |s.p.item|
    ensures |s.items| == n
    ensures var s' := Do(n, s, Copy); s' == s.(items := s'.items, p := s.p.(done := s.p.done + 1))
  {
    hide Idx, Target, NextProducer, Nfull;
    TargetIs(n, |s.put|, |s.p.item|, s.p.done);
  }

  /** A put for which there is room is published whole, whatever the consumer is doing. */
  lemma PutGoesThrough(n: nat, s: State, item: seq<Word>) returns (steps: seq<Step>)
    requires Inv(n, s) && s.p.Idle? && Fitting(n, item) && |s.put| + |item| < |s.got| + n
    ensures |s.items| == n
    ensures var s' := Run(n, s, steps); s' == s.(items := s'.items, producer := s'.producer, put := s.put + item)
    ensures forall x | x in steps :: x.Begin? || x.Check? || x.Copy? || x.Publish?
  {
    hide Inv, Run, Do, Times;
    Size(n, s);
    var s1 := Do(n, s, Begin(item));
    StepKeeps(n, s, Begin(item));
    Begins(n, s, item);
    var s2 := Do(n, s1, Check);
    Size(n, s1);
    RoomExactly(n, s1);
    StepKeeps(n, s1, Check);
    Checks(n, s1);
    Size(n, s2);
    CopiesAll(n, s2, |item|);
    var s3 := Run(n, s2, Times(Copy, |item|));
    Size(n, s3);
    Publishes(n, s3);
    RunOne(n, s, Begin(item));
    RunOne(n, s1, Check);
    RunOne(n, s3, Publish);
    RunConcat(n, s, [Begin(item)], [Check]);
    RunConcat(n, s, [Begin(item)] + [Check], Times(Copy, |item|));
    RunConcat(n, s, [Begin(item)] + [Check] + Times(Copy, |item|), [Publish]);
    AllSame(Copy, |item|);
    steps := [Begin(item)] + [Check] + Times(Copy, |item|) + [Publish];
  }

  lemma AllSame(step: Step, k: nat)
    ensures forall x | x in Times(step, k) :: x == step
  {
  }

  lemma Begins(n: nat, s: State, item: seq<Word>)
    requires Inv(n, s) && s.p.Idle? && Fitting(n, item)
    ensures |s.items| == n && var s' := Do(n, s, Begin(item)); s'.p.Waiting? && s'.p.item == item && s' == s.(p := s'.p)
  {
    hide Idx, NextProducer;
    NextIs(n, |s.put|, |item|);
  }

  lemma Checks(n: nat, s: State)
    requires Inv(n, s) && s.p.Waiting? && |s.items| == n && Do(n, s, Check).p.Copying?
    ensures var s' := Do(n, s, Check); s'.p.item == s.p.item && s'.p.done == 0 && s' == s.(p := s'.p)
  {
    hide Inv;
  }

  lemma Publishes(n: nat, s: State)
    requires 0 < n && |s.items| == n && s.p.Copying? && s.p.done == |s.p.item|
    ensures var s' := Do(n, s, Publish); s' == s.(producer := s'.producer, p := Idle, put := s.put + s.p.item)
  {
  }

  /** A consumer that starts to read, and is not disturbed, reads and gives back all that has been put. */
  lemma CatchesUp(n: nat, s: State) returns (steps: seq<Step>)
    requires Inv(n, s) && s.c.Resting?
    ensures |s.items| == n
    ensures var s' := Run(n, s, steps); s' == s.(consumer := s.producer, got := s.put)
    ensures forall x | x in steps :: x.Look? || x.Take? || x.Commit?
  {
    hide Inv, Run, Do, Times, Idx;
    Size(n, s);
    Lengths(n, s);
    var k := |s.put| - |s.got|;
    var s1 := Do(n, s, Look);
    StepKeeps(n, s, Look);
    Looks(n, s);
    Size(n, s1);
    TakesAll(n, s1, k);
    var s2 := Run(n, s1, Times(Take, k));
    Size(n, s2);
    Commits(n, s2);
    AllRead(n, s, s2, k);
    RunOne(n, s, Look);
    RunOne(n, s2, Commit);
    RunConcat(n, s, [Look], Times(Take, k));
    RunConcat(n, s, [Look] + Times(Take, k), [Commit]);
    AllSame(Take, k);
    steps := [Look] + Times(Take, k) + [Commit];
  }

  lemma Lengths(n: nat, s: State)
    requires Inv(n, s)
    ensures |s.got| <= |s.put| && s.got == s.put[..|s.got|] && s.producer == Idx(n, |s.put|)
  {
  }

  lemma Looks(n: nat, s: State)
    requires 0 < n && |s.items| == n && s.c.Resting?
    ensures Do(n, s, Look) == s.(c := Reading(s.producer, s.consumer, []))
  {
  }

  lemma Commits(n: nat, s: State)
    requires 0 < n && |s.items| == n && s.c.Reading?
    ensures Do(n, s, Commit) == s.(consumer := s.c.at, c := Resting, got := s.got + s.c.taken)
  {
  }

  /** The reader has read up to the producer pointer that it saw. */
  lemma AllRead(n: nat, s: State, s2: State, k: nat)
    requires Inv(n, s2) && s2.c.Reading? && s2.put == s.put && s2.got == s.got && s2.c.producer == s.producer == Idx(n, |s.put|)
    requires |s.got| + k == |s.put| && |s2.c.taken| == k && s.got == s.put[..|s.got|]
    ensures s2.c.at == s.producer && s2.got + s2.c.taken == s.put
  {
    hide Idx;
    var seen: nat :| LookedAt(n, s2, seen);
    assert s.put[|s.got|..|s.got| + k] == s.put[|s.got|..];
    assert s.put == s.put[..|s.got|] + s.put[|s.got|..];
  }

  lemma {:induction false} TakesAll(n: nat, s: State, k: nat)
    requires Inv(n, s) && s.c.Reading? && s.c.producer == Idx(n, |s.put|) && |s.got| + |s.c.taken| + k == |s.put|
    ensures |s.items| == n && Inv(n, Run(n, s, Times(Take, k)))
    ensures var s' := Run(n, s, Times(Take, k));
            s'.c.Reading? && s'.c.producer == s.c.producer && |s'.c.taken| == |s.c.taken| + k && s' == s.(c := s'.c)
    decreases k
  {
    hide Inv, Run, Idx;
    Size(n, s);
    if k == 0 {
      assert Times(Take, 0) == [];
      RunNone(n, s);
    } else {
      RunFirst(n, s, Take, k);
      StepKeeps(n, s, Take);
      Takes(n, s);
      TakesAll(n, Do(n, s, Take), k - 1);
    }
  }

  lemma Takes(n: nat, s: State)
    requires Inv(n, s) && s.c.Reading? && s.c.producer == Idx(n, |s.put|) && |s.got| + |s.c.taken| < |s.put|
    ensures |s.items| == n
    ensures var s' := Do(n, s, Take);
            s'.c.Reading? && s'.c.producer == s.c.producer && |s'.c.taken| == |s.c.taken| + 1 && s' == s.(c := s'.c)
  {
    var seen: nat :| LookedAt(n, s, seen);
    Distinct(n, |s.got| + |s.c.taken|, |s.put|);
    hide Idx, Nfull;
  }
}
