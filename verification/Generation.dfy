/** The generation clock (llvm/ngrt/ring.h, access.h, lock.c): one global number that is
    sampled before a store or the release of a mutex, and after a load or the acquisition
    of a mutex, and a local number per sequence, which handlers hand down and back.
    Every access to shared memory is one step, and memory is sequentially consistent. */
module Generation {
  import opened Basics

  /** A store or a release, which samples first; or a load or an acquisition, which samples
      last. */
  datatype Kind = Before | After

  /** Where a sequence (a thread or one run of a handler) is. `seen` counts the stores that had
      executed when a load executed; `under` is the local generation a record is logged in, and `handed`
      the sequence's own `handed` when it read that. */
  datatype Phase =
    | Between
    | Loaded(seen: nat)
    | Sampled(kind: Kind, gen: nat, seen: nat)
    | Setting(kind: Kind, gen: nat, seen: nat, under: nat, handed: Option<nat>)   // has found that lgen < gen
    | Publishing(kind: Kind, cog: Option<nat>, seen: nat, under: nat, handed: Option<nat>)
    | Storing(under: nat, shown: nat)                        // logged, about to execute

  /** What a sequence's ring holds: of a store or load, only that it is there. What it is annotated with is
      history: the local generation `under` which it was logged, and what a handler had `handed` back. */
  datatype Entry = Cog(gen: nat) | Store(under: nat, handed: Option<nat>) | Load(seen: nat, under: nat, handed: Option<nat>)

  /** A sequence: it is running when `on`; `parent` is whom it interrupted, `above` who
      interrupts it now, and `base` the generation it started in; `began` counts the stores that had executed when
      the thread began. `handed` is the generation that the last
      handler handed back to it, if one has since the sequence last changed its own. */
  datatype Sequence = Sequence(
    on: bool, lgen: nat, base: nat, began: nat, handed: Option<nat>, phase: Phase, parent: Option<nat>, above: Option<nat>, log: seq<Entry>)

  /** A store that has executed: the local generation that it was logged in, and the one that its ring shows. */
  datatype Executed = Executed(under: nat, shown: nat)

  /** `stores` are the stores that have executed, in order. */
  datatype State = State(consistent: bool, ggen: nat, seqs: seq<Sequence>, stores: seq<Executed>)

  datatype Step =
    | Start(a: nat)                 // a thread begins
    | Enter(a: nat, h: nat)         // handler h interrupts a
    | Leave(h: nat)
    | Act(a: nat, kind: Kind)       // the next access of a, or its next operation
    | Increase                      // rvp_increase_ggen

  /** The generation that a ring shows after `log`: the last change of generation on it, or else the one that
      the sequence began in, which its first record tells. */
  function Shown(base: nat, log: seq<Entry>): nat
  {
    if log == [] then base
    else if log[|log| - 1].Cog? then log[|log| - 1].gen
    else Shown(base, log[..|log| - 1])
  }

  // ---- the steps -----------------------------------------------------------------------

  /** What sampling leaves in the global generation: rvp_ggen_before_store and
      rvp_ggen_after_load. */
  function AfterSample(s: State): nat
  {
    if s.consistent then s.ggen + 1 else s.ggen
  }

  function With(s: State, a: nat, q: Sequence): State
    requires a < |s.seqs|
  {
    s.(seqs := s.seqs[a := q])
  }

  predicate Runs(s: State, a: nat)
  {
    a < |s.seqs| && s.seqs[a].on && s.seqs[a].above.None?
  }

  function Do(s: State, step: Step): State
  {
    match step
    case Start(a) =>
      if a < |s.seqs| && !s.seqs[a].on
      then With(s, a, Sequence(true, s.ggen, s.ggen, |s.stores|, None, Between, None, None, [])).(ggen := AfterSample(s)) else s
    case Enter(a, h) =>
      if Runs(s, a) && h < |s.seqs| && !s.seqs[h].on then
        With(With(s, a, s.seqs[a].(above := Some(h))), h,
             Sequence(true, s.seqs[a].lgen, s.seqs[a].lgen, s.seqs[a].began, None, Between, Some(a), None, []))
      else s
    case Leave(h) =>
      if Runs(s, h) && s.seqs[h].phase.Between? && s.seqs[h].parent.Some? && s.seqs[h].parent.value < |s.seqs| then
        var a := s.seqs[h].parent.value;
        With(With(s, a, s.seqs[a].(above := None, lgen := s.seqs[h].lgen, handed := Some(s.seqs[h].lgen))), h, s.seqs[h].(on := false))
      else s
    case Act(a, kind) => if Runs(s, a) then Access(s, a, kind) else s
    case Increase => s.(ggen := s.ggen + 1)
  }

  /** One access of trace_store, trace_load or trace_mutex_op, or of the program itself. */
  function Access(s: State, a: nat, kind: Kind): State
    requires a < |s.seqs|
  {
    var q := s.seqs[a];
    match q.phase
    case Between =>
      if kind == Before then With(s, a, q.(phase := Sampled(Before, s.ggen, 0))).(ggen := AfterSample(s))
      else With(s, a, q.(phase := Loaded(|s.stores|)))
    case Loaded(seen) => With(s, a, q.(phase := Sampled(After, s.ggen, seen))).(ggen := AfterSample(s))
    case Sampled(k, gen, seen) =>
      With(s, a, q.(phase := if q.lgen < gen then Setting(k, gen, seen, q.lgen, q.handed) else Publishing(k, None, seen, q.lgen, q.handed)))
    case Setting(k, gen, seen, under, handed) =>
      With(s, a, q.(lgen := gen, handed := None,
                    phase := if k == Before then Publishing(k, Some(gen), seen, under, handed) else Publishing(k, Some(gen), seen, gen, None)))
    case Publishing(k, cog, seen, under, handed) =>
      var cogs := if cog.Some? then [Cog(cog.value)] else [];
      if k == Before then With(s, a, q.(log := q.log + [Store(under, handed)] + cogs, phase := Storing(under, Shown(q.base, q.log))))
      else With(s, a, q.(log := q.log + cogs + [Load(seen, under, handed)], phase := Between))
    case Storing(under, shown) => With(s, a, q.(phase := Between)).(stores := s.stores + [Executed(under, shown)])
  }

  function Run(s: State, steps: seq<Step>): State
    decreases |steps|
  {
    if steps == [] then s else Run(Do(s, steps[0]), steps[1..])
  }

  // ---- what every step keeps -------------------------------------------------------------

  /** A generation that was sampled some time ago. */
  predicate Past(s: State, gen: nat)
  {
    if s.consistent then gen < s.ggen else gen <= s.ggen
  }

  /** Every store that had executed then was logged in an earlier generation than `gen`, or,
      if generations are not kept apart, in the same one. */
  predicate Follows(s: State, seen: nat, gen: nat)
  {
    seen <= |s.stores| && forall i | 0 <= i < seen :: if s.consistent then s.stores[i].under < gen else s.stores[i].under <= gen
  }

  /** Every change of generation on a ring is to a later one than the ring shows before it. */
  predicate Rising(base: nat, log: seq<Entry>)
  {
    forall k | 0 <= k < |log| && log[k].Cog? :: Shown(base, log[..k]) < log[k].gen
  }

  /** A local generation: what a handler has handed back, or else what the ring shows. */
  predicate Local(under: nat, handed: Option<nat>, shown: nat)
  {
    under == (if handed.Some? then handed.value else shown) && shown <= under
  }

  predicate GoodEntry(base: nat, log: seq<Entry>, k: nat)
    requires k < |log|
  {
    log[k].Cog? || Local(log[k].under, log[k].handed, Shown(base, log[..k]))
  }

  /** What the ring will show once the record under way is on it. */
  function Told(q: Sequence): nat
  {
    if q.phase.Publishing? && q.phase.cog.Some? then q.phase.cog.value else Shown(q.base, q.log)
  }

  predicate GoodPhase(s: State, q: Sequence)
  {
    match q.phase
    case Between => true
    case Loaded(seen) => seen <= |s.stores|
    case Sampled(k, gen, seen) => Past(s, gen) && (k == After ==> Follows(s, seen, gen))
    case Setting(k, gen, seen, under, handed) =>
      Past(s, gen) && Past(s, under) && (k == After ==> Follows(s, seen, gen)) && q.base <= under < gen &&
      Local(under, handed, Shown(q.base, q.log))
    case Publishing(k, cog, seen, under, handed) =>
      (if k == After then Follows(s, seen, under) && Local(under, handed, Told(q)) else Past(s, under) && Local(under, handed, Shown(q.base, q.log))) &&
      (cog.Some? ==> Shown(q.base, q.log) < cog.value)
    case Storing(under, shown) => Past(s, under) && shown <= under
  }

  predicate GoodLoads(s: State, log: seq<Entry>)
  {
    forall k | 0 <= k < |log| && log[k].Load? :: Follows(s, log[k].seen, log[k].under)
  }

  predicate GoodSeq(s: State, q: Sequence)
  {
    Follows(s, q.began, q.base) && Rising(q.base, q.log) && GoodLoads(s, q.log) && (forall k | 0 <= k < |q.log| :: GoodEntry(q.base, q.log, k)) &&
    (q.on ==> Past(s, q.lgen) && q.base <= q.lgen && Local(q.lgen, q.handed, Told(q)) && GoodPhase(s, q))
  }

  /** A handler and whom it interrupted know each other, and whom it interrupted is still in
      the generation that the handler started in. */
  predicate Linked(s: State, a: nat, h: nat)
  {
    a < |s.seqs| && h < |s.seqs| && s.seqs[a].on && s.seqs[h].on &&
    s.seqs[a].above == Some(h) && s.seqs[h].parent == Some(a) && s.seqs[a].lgen == s.seqs[h].base
  }

  predicate GoodStore(s: State, x: Executed)
  {
    Past(s, x.under) && x.shown <= x.under
  }

  ghost predicate Inv(s: State)
  {
    (forall a | 0 <= a < |s.seqs| :: GoodSeq(s, s.seqs[a])) &&
    (forall i | 0 <= i < |s.stores| :: GoodStore(s, s.stores[i])) &&
    (forall a | 0 <= a < |s.seqs| && s.seqs[a].on && s.seqs[a].above.Some? :: Linked(s, a, s.seqs[a].above.value)) &&
    (forall h | 0 <= h < |s.seqs| && s.seqs[h].on && s.seqs[h].parent.Some? :: Linked(s, s.seqs[h].parent.value, h))
  }

  /** Time passes: the clock goes on, and more stores execute. */
  predicate Later(s: State, s': State)
  {
    s'.consistent == s.consistent && s.ggen <= s'.ggen && s.stores <= s'.stores
  }

  lemma LaterKeeps(s: State, s': State, q: Sequence)
    requires Later(s, s') && GoodSeq(s, q)
    ensures GoodSeq(s', q)
  {
    hide Rising, Shown;
    forall k | 0 <= k < |q.log| && q.log[k].Load?
      ensures Follows(s', q.log[k].seen, q.log[k].under)
    {
      assert Follows(s, q.log[k].seen, q.log[k].under);
    }
  }

  /** One sequence that is not interrupted takes a step on its own. */
  lemma OneKeeps(s: State, s': State, a: nat)
    requires Inv(s) && Runs(s, a) && Later(s, s') && a < |s'.seqs| && s'.seqs == s.seqs[a := s'.seqs[a]]
    requires var q, q' := s.seqs[a], s'.seqs[a];
             q'.on && q'.base == q.base && q'.began == q.began && q'.parent == q.parent && q'.above == q.above
    requires GoodSeq(s', s'.seqs[a])
    requires forall i | |s.stores| <= i < |s'.stores| :: GoodStore(s', s'.stores[i])
    ensures Inv(s')
  {
    hide GoodSeq;
    forall b | 0 <= b < |s'.seqs|
      ensures GoodSeq(s', s'.seqs[b])
    {
      if b != a { LaterKeeps(s, s', s.seqs[b]); }
    }
    forall i | 0 <= i < |s'.stores|
      ensures GoodStore(s', s'.stores[i])
    {
      assert i < |s.stores| ==> GoodStore(s, s.stores[i]) && s'.stores[i] == s.stores[i];
    }
    forall h | 0 <= h < |s'.seqs| && s'.seqs[h].on && s'.seqs[h].parent.Some?
      ensures Linked(s', s'.seqs[h].parent.value, h)
    {
      assert Linked(s, s.seqs[h].parent.value, h);
    }
    forall b | 0 <= b < |s'.seqs| && s'.seqs[b].on && s'.seqs[b].above.Some?
      ensures Linked(s', b, s'.seqs[b].above.value)
    {
      assert Linked(s, b, s.seqs[b].above.value);
    }
  }

  lemma AppendLog(base: nat, log: seq<Entry>, e: Entry)
    ensures Shown(base, log + [e]) == if e.Cog? then e.gen else Shown(base, log)
    ensures Rising(base, log + [e]) <==> Rising(base, log) && (e.Cog? ==> Shown(base, log) < e.gen)
    ensures forall k | 0 <= k < |log| :: GoodEntry(base, log + [e], k) <==> GoodEntry(base, log, k)
    ensures GoodEntry(base, log + [e], |log|) <==> e.Cog? || Local(e.under, e.handed, Shown(base, log))
  {
    hide Shown, Local;
    var log' := log + [e];
    assert log'[..|log|] == log;
    forall k | 0 <= k < |log|
      ensures log'[k] == log[k] && log'[..k] == log[..k]
    {
    }
    if Rising(base, log') {
      forall k | 0 <= k < |log| && log[k].Cog?
        ensures Shown(base, log[..k]) < log[k].gen
      {
        assert log'[k].Cog?;
      }
      assert log'[|log|] == e;
    }
    ShownLast(base, log, e);
  }

  lemma ShownLast(base: nat, log: seq<Entry>, e: Entry)
    ensures Shown(base, log + [e]) == if e.Cog? then e.gen else Shown(base, log)
  {
    assert (log + [e])[..|log|] == log;
  }

  lemma AccessKeeps(s: State, a: nat, kind: Kind)
    requires Inv(s) && Runs(s, a)
    ensures Inv(Access(s, a, kind))
  {
    hide Inv, Rising, Shown;
    Facts(s, a);
    var q, s' := s.seqs[a], Access(s, a, kind);
    LaterKeeps(s, s', q);
    if q.phase.Publishing? {
      PublishKeeps(s', q, q.phase.kind, q.phase.cog, q.phase.seen, q.phase.under, q.phase.handed);
    }
    OneKeeps(s, s', a);
  }

  lemma PublishKeeps(s: State, q: Sequence, k: Kind, cog: Option<nat>, seen: nat, under: nat, handed: Option<nat>)
    requires GoodSeq(s, q) && q.on && q.phase == Publishing(k, cog, seen, under, handed)
    ensures var cogs := if cog.Some? then [Cog(cog.value)] else [];
            if k == Before then GoodSeq(s, q.(log := q.log + [Store(under, handed)] + cogs, phase := Storing(under, Shown(q.base, q.log))))
            else GoodSeq(s, q.(log := q.log + cogs + [Load(seen, under, handed)], phase := Between))
  {
    hide Rising, Shown, GoodEntry;
    var record := if k == Before then Store(under, handed) else Load(seen, under, handed);
    var first := if k == Before || cog.None? then record else Cog(cog.value);
    AppendLog(q.base, q.log, first);
    if cog.Some? {
      AppendLog(q.base, q.log + [first], if k == Before then Cog(cog.value) else record);
    } else {
      assert q.log + [] == q.log && q.log + [record] + [] == q.log + [record];
    }
  }

  lemma Facts(s: State, a: nat)
    requires Inv(s) && a < |s.seqs|
    ensures GoodSeq(s, s.seqs[a])
    ensures forall i | 0 <= i < |s.stores| :: GoodStore(s, s.stores[i])
  {
  }

  lemma StepKeeps(s: State, step: Step)
    requires Inv(s)
    ensures Inv(Do(s, step))
  {
    hide Access, GoodSeq;
    var s' := Do(s, step);
    match step
    case Act(a, kind) => if Runs(s, a) { AccessKeeps(s, a, kind); }
    case Increase => OthersKeep(s, s', {});
    case Start(a) => if s' != s { StartKeeps(s, a); }
    case Enter(a, h) => if s' != s { EnterKeeps(s, a, h); }
    case Leave(h) => if s' != s { LeaveKeeps(s, h); }
  }

  /** All sequences but those of `but` are as they were. */
  lemma OthersKeep(s: State, s': State, but: set<nat>)
    requires Inv(s) && Later(s, s') && s'.stores == s.stores && |s'.seqs| == |s.seqs|
    requires forall a | 0 <= a < |s.seqs| && a !in but :: s'.seqs[a] == s.seqs[a]
    ensures forall a | 0 <= a < |s.seqs| && a !in but :: GoodSeq(s', s'.seqs[a])
    ensures forall i | 0 <= i < |s'.stores| :: GoodStore(s', s'.stores[i])
    ensures but == {} ==> Inv(s')
  {
    hide GoodSeq;
    forall a | 0 <= a < |s.seqs| && a !in but
      ensures GoodSeq(s', s'.seqs[a])
    {
      LaterKeeps(s, s', s.seqs[a]);
    }
    if but == {} { assert s'.seqs == s.seqs; LinksStay(s, s'); }
  }

  lemma LinksStay(s: State, s': State)
    requires Inv(s) && s'.seqs == s.seqs
    ensures forall a | 0 <= a < |s'.seqs| && s'.seqs[a].on && s'.seqs[a].above.Some? :: Linked(s', a, s'.seqs[a].above.value)
    ensures forall h | 0 <= h < |s'.seqs| && s'.seqs[h].on && s'.seqs[h].parent.Some? :: Linked(s', s'.seqs[h].parent.value, h)
  {
    hide GoodSeq;
    forall a | 0 <= a < |s'.seqs| && s'.seqs[a].on && s'.seqs[a].above.Some?
      ensures Linked(s', a, s'.seqs[a].above.value)
    {
      assert Linked(s, a, s.seqs[a].above.value);
    }
    forall h | 0 <= h < |s'.seqs| && s'.seqs[h].on && s'.seqs[h].parent.Some?
      ensures Linked(s', s'.seqs[h].parent.value, h)
    {
      assert Linked(s, s.seqs[h].parent.value, h);
    }
  }

  lemma StartKeeps(s: State, a: nat)
    requires Inv(s) && a < |s.seqs| && !s.seqs[a].on
    ensures Inv(Do(s, Start(a)))
  {
    hide GoodSeq;
    var s' := Do(s, Start(a));
    OthersKeep(s, s', {a});
    NewIsGood(s', s'.seqs[a]);
    forall b | 0 <= b < |s'.seqs| && s'.seqs[b].on && s'.seqs[b].above.Some?
      ensures Linked(s', b, s'.seqs[b].above.value)
    {
      assert Linked(s, b, s.seqs[b].above.value);
    }
    forall h | 0 <= h < |s'.seqs| && s'.seqs[h].on && s'.seqs[h].parent.Some?
      ensures Linked(s', s'.seqs[h].parent.value, h)
    {
      assert Linked(s, s.seqs[h].parent.value, h);
    }
  }

  lemma NewIsGood(s: State, q: Sequence)
    requires Past(s, q.lgen) && q.base == q.lgen && q.phase.Between? && q.log == [] && q.handed.None? && Follows(s, q.began, q.base)
    ensures GoodSeq(s, q)
  {
  }

  lemma EnterKeeps(s: State, a: nat, h: nat)
    requires Inv(s) && Runs(s, a) && h < |s.seqs| && !s.seqs[h].on
    ensures Inv(Do(s, Enter(a, h)))
  {
    var s' := Do(s, Enter(a, h));
    OthersKeep(s, s', {a, h});
    Facts(s, a);
    NewIsGood(s', s'.seqs[h]);
    assert GoodSeq(s', s'.seqs[a]);
    hide GoodSeq;
    forall b | 0 <= b < |s'.seqs| && s'.seqs[b].on && s'.seqs[b].above.Some?
      ensures Linked(s', b, s'.seqs[b].above.value)
    {
      if b != a && b != h { assert Linked(s, b, s.seqs[b].above.value); }
    }
    forall g | 0 <= g < |s'.seqs| && s'.seqs[g].on && s'.seqs[g].parent.Some?
      ensures Linked(s', s'.seqs[g].parent.value, g)
    {
      if g != h { assert Linked(s, s.seqs[g].parent.value, g); }
    }
  }

  lemma LeaveKeeps(s: State, h: nat)
    requires Inv(s) && Runs(s, h) && s.seqs[h].phase.Between? && s.seqs[h].parent.Some? && s.seqs[h].parent.value < |s.seqs|
    ensures Inv(Do(s, Leave(h)))
  {
    hide GoodSeq;
    var a := s.seqs[h].parent.value;
    var s' := Do(s, Leave(h));
    assert Linked(s, a, h);
    OthersKeep(s, s', {a, h});
    Facts(s, a);
    Facts(s, h);
    HandedIsGood(s, s', s.seqs[a], s.seqs[h].lgen) by { HandlerIsLater(s, a, h); }
    OffIsStillGood(s, s', s.seqs[h]);
    forall b | 0 <= b < |s'.seqs| && s'.seqs[b].on && s'.seqs[b].above.Some?
      ensures Linked(s', b, s'.seqs[b].above.value)
    {
      assert Linked(s, b, s.seqs[b].above.value);
    }
    forall g | 0 <= g < |s'.seqs| && s'.seqs[g].on && s'.seqs[g].parent.Some?
      ensures Linked(s', s'.seqs[g].parent.value, g)
    {
      assert Linked(s, s.seqs[g].parent.value, g);
    }
  }

  /** What a handler hands back is no earlier than what it was handed. */
  lemma HandlerIsLater(s: State, a: nat, h: nat)
    requires Inv(s) && Linked(s, a, h)
    ensures s.seqs[a].lgen <= s.seqs[h].lgen && Past(s, s.seqs[h].lgen)
  {
    Facts(s, h);
  }

  lemma HandedIsGood(s: State, s': State, q: Sequence, gen: nat)
    requires GoodSeq(s, q) && s'.consistent == s.consistent && s'.ggen == s.ggen && s'.stores == s.stores && q.lgen <= gen && Past(s, gen)
    ensures q.on ==> GoodSeq(s', q.(above := None, lgen := gen, handed := Some(gen)))
  {
    hide Shown, Rising, GoodEntry;
    assert q.on ==> Told(q.(above := None, lgen := gen, handed := Some(gen))) == Told(q);
  }

  lemma OffIsStillGood(s: State, s': State, q: Sequence)
    requires GoodSeq(s, q) && s'.consistent == s.consistent && s'.stores == s.stores
    ensures GoodSeq(s', q.(on := false))
  {
    hide Shown, Rising, GoodEntry;
  }

  lemma {:induction false} RunKeeps(s: State, steps: seq<Step>)
    requires Inv(s)
    ensures Inv(Run(s, steps)) && Run(s, steps).consistent == s.consistent
    decreases |steps|
  {
    hide Inv, Do;
    if steps != [] {
      StepKeeps(s, steps[0]);
      SameClock(s, steps[0]);
      RunKeeps(Do(s, steps[0]), steps[1..]);
    }
  }

  lemma SameClock(s: State, step: Step)
    ensures Do(s, step).consistent == s.consistent
  {
  }

  function Off(): Sequence
  {
    Sequence(false, 0, 0, 0, None, Between, None, None, [])
  }

  function Init(consistent: bool, n: nat): State
  {
    State(consistent, 0, seq(n, _ => Off()), [])
  }

  /** A load's or acquisition's ring shows it in no earlier a generation than any store or release that had
      executed when it did is shown in on its own, and in a later one when `rvp_consistent` is set. */
  predicate ShownInOrder(s: State, a: nat, k: nat)
    requires a < |s.seqs| && k < |s.seqs[a].log| && s.seqs[a].log[k].Load?
  {
    var q := s.seqs[a];
    q.log[k].seen <= |s.stores| &&
    forall i | 0 <= i < q.log[k].seen ::
      if s.consistent then s.stores[i].shown < Shown(q.base, q.log[..k]) else s.stores[i].shown <= Shown(q.base, q.log[..k])
  }

  /** In every run: a thread begins in a generation that follows all stores and releases that had executed by then, and a
      handler in none earlier than the interrupted sequence's ring shows. Every change of generation on a ring is to a later one than the ring shows before it. A record
      is shown in the local generation that it was logged in if and only if no handler has returned since the
      sequence last changed that, or the last that has handed back the generation shown. A load or acquisition
      follows, in the local generations, all stores and releases that had executed when it did; and
      it does in the generations that the rings show, if its ring shows its own. */
  lemma GenerationOrder(consistent: bool, n: nat, steps: seq<Step>)
    ensures var s := Run(Init(consistent, n), steps);
            s.consistent == consistent &&
            forall a | 0 <= a < |s.seqs| ::
              var q := s.seqs[a];
              Follows(s, q.began, q.base) && Rising(q.base, q.log) &&
              (q.on && q.parent.Some? ==> q.parent.value < |s.seqs| && Shown(s.seqs[q.parent.value].base, s.seqs[q.parent.value].log) <= q.base) &&
              forall k | 0 <= k < |q.log| && !q.log[k].Cog? ::
                var e := q.log[k];
                (Shown(q.base, q.log[..k]) == e.under <==> e.handed.None? || e.handed.value == Shown(q.base, q.log[..k])) &&
                (e.Load? ==> Follows(s, e.seen, e.under)) &&
                (e.Load? && Shown(q.base, q.log[..k]) == e.under ==> ShownInOrder(s, a, k))
  {
    hide Rising, Do, Run, Shown;
    assert Inv(Init(consistent, n)) by { OffIsGood(Init(consistent, n)); }
    RunKeeps(Init(consistent, n), steps);
    var s := Run(Init(consistent, n), steps);
    forall a | 0 <= a < |s.seqs|
      ensures GoodSeq(s, s.seqs[a])
    {
      Facts(s, a);
    }
    forall h | 0 <= h < |s.seqs| && s.seqs[h].on && s.seqs[h].parent.Some?
      ensures s.seqs[h].parent.value < |s.seqs| && Shown(s.seqs[s.seqs[h].parent.value].base, s.seqs[s.seqs[h].parent.value].log) <= s.seqs[h].base
    {
      assert Linked(s, s.seqs[h].parent.value, h);
    }
    forall a, k | 0 <= a < |s.seqs| && 0 <= k < |s.seqs[a].log| && !s.seqs[a].log[k].Cog?
      ensures var q, e := s.seqs[a], s.seqs[a].log[k];
              (Shown(q.base, q.log[..k]) == e.under <==> e.handed.None? || e.handed.value == Shown(q.base, q.log[..k])) &&
              (e.Load? ==> Follows(s, e.seen, e.under)) &&
              (e.Load? && Shown(q.base, q.log[..k]) == e.under ==> ShownInOrder(s, a, k))
    {
      assert GoodEntry(s.seqs[a].base, s.seqs[a].log, k);
      assert forall i | 0 <= i < |s.stores| :: GoodStore(s, s.stores[i]);
    }
  }

  // ---- an operation that nothing disturbs -----------------------------------------------------

  function Acts(a: nat, kind: Kind, n: nat): (steps: seq<Step>)
    ensures |steps| == n
  {
    seq(n, _ => Act(a, kind))
  }

  lemma RunsOn(s: State, a: nat, kind: Kind, n: nat)
    requires Runs(s, a) && n > 0
    ensures Run(s, Acts(a, kind, n)) == Run(Access(s, a, kind), Acts(a, kind, n - 1))
  {
    assert Acts(a, kind, n)[1..] == Acts(a, kind, n - 1);
  }

  lemma RunsOut(s: State, a: nat, kind: Kind)
    ensures Run(s, Acts(a, kind, 0)) == s
  {
  }

  /** A store or release: its record in the generation that the sequence is in, the change of generation after it,
      if the clock has gone on since the last, and then the store itself. */
  lemma StoreAlone(s: State, a: nat)
    requires Runs(s, a) && s.seqs[a].phase.Between?
    ensures var q, late := s.seqs[a], s.seqs[a].lgen < s.ggen;
            var s' := Run(s, Acts(a, Before, if late then 5 else 4));
            s'.seqs == s.seqs[a := q.(
              lgen := if late then s.ggen else q.lgen, handed := if late then None else q.handed,
              log := q.log + [Store(q.lgen, q.handed)] + if late then [Cog(s.ggen)] else [])] &&
            s'.stores == s.stores + [Executed(q.lgen, Shown(q.base, q.log))] &&
            s'.ggen == (if s.consistent then s.ggen + 1 else s.ggen) && s'.consistent == s.consistent
  {
    hide Run, Acts, Shown;
    var n := if s.seqs[a].lgen < s.ggen then 5 else 4;
    RunsOn(s, a, Before, n);
    var s1 := Access(s, a, Before);
    RunsOn(s1, a, Before, n - 1);
    var s2 := Access(s1, a, Before);
    RunsOn(s2, a, Before, n - 2);
    var s3 := Access(s2, a, Before);
    RunsOn(s3, a, Before, n - 3);
    var s4 := Access(s3, a, Before);
    if n == 5 {
      RunsOn(s4, a, Before, 1);
      RunsOut(Access(s4, a, Before), a, Before);
    } else {
      RunsOut(s4, a, Before);
    }
  }

  /** A load or acquisition: the load itself, then the change of generation, if the clock has gone on since the last,
      and after that the record. */
  lemma LoadAlone(s: State, a: nat)
    requires Runs(s, a) && s.seqs[a].phase.Between?
    ensures var q, late := s.seqs[a], s.seqs[a].lgen < s.ggen;
            var s' := Run(s, Acts(a, After, if late then 5 else 4));
            s'.seqs == s.seqs[a := q.(
              lgen := if late then s.ggen else q.lgen, handed := if late then None else q.handed,
              log := q.log + (if late then [Cog(s.ggen)] else []) +
                     [if late then Load(|s.stores|, s.ggen, None) else Load(|s.stores|, q.lgen, q.handed)])] &&
            s'.stores == s.stores &&
            s'.ggen == (if s.consistent then s.ggen + 1 else s.ggen) && s'.consistent == s.consistent
  {
    hide Run, Acts, Shown;
    var n := if s.seqs[a].lgen < s.ggen then 5 else 4;
    RunsOn(s, a, After, n);
    var s1 := Access(s, a, After);
    RunsOn(s1, a, After, n - 1);
    var s2 := Access(s1, a, After);
    RunsOn(s2, a, After, n - 2);
    var s3 := Access(s2, a, After);
    RunsOn(s3, a, After, n - 3);
    var s4 := Access(s3, a, After);
    if n == 5 {
      RunsOn(s4, a, After, 1);
      RunsOut(Access(s4, a, After), a, After);
    } else {
      RunsOut(s4, a, After);
    }
  }

  // ---- what a handler hands back ----------------------------------------------------------------

  /** A run in which a load's ring shows it in an earlier generation than a store that had executed: the clock goes
      on, thread 2 stores twice, handler 1 interrupts thread 0, loads, and hands the new generation back, and then
      thread 0 loads. Its local generation is the new one, so that it logs no change of it. */
  lemma HandedBackHides()
    ensures exists steps: seq<Step> :: HidesOne(Run(Init(false, 3), steps))
  {
    hide Run, Acts;
    var s0 := Init(false, 3);
    var s3 := s0.(ggen := 1, seqs := [Begun(0), Off(), Begun(0)]);
    assert Do(Do(Do(s0, Start(0)), Start(2)), Increase) == s3;
    StoreAlone(s3, 2);
    var s4 := Run(s3, Acts(2, Before, 5));
    StoreAlone(s4, 2);
    var s5 := Run(s4, Acts(2, Before, 4));
    var s6 := Do(s5, Enter(0, 1));
    LoadAlone(s6, 1);
    var s7 := Run(s6, Acts(1, After, 5));
    var s8 := Do(s7, Leave(1));
    LoadAlone(s8, 0);
    var s9 := Run(s8, Acts(0, After, 4));
    var q := s9.seqs[0];
    assert q.log == [Load(2, 1, Some(1))] && q.base == 0;
    assert Shown(q.base, q.log[..0]) == 0;
    assert s9.stores[1].shown == Shown(0, [Store(0, None), Cog(1)]) == 1;
    assert HidesOne(s9);
    var three := [Start(0), Start(2), Increase];
    RunThree(s0, Start(0), Start(2), Increase);
    RunConcat(s0, three, Acts(2, Before, 5));
    RunConcat(s0, three + Acts(2, Before, 5), Acts(2, Before, 4));
    var five := three + Acts(2, Before, 5) + Acts(2, Before, 4);
    RunOne(s5, Enter(0, 1));
    RunConcat(s0, five, [Enter(0, 1)]);
    RunConcat(s0, five + [Enter(0, 1)], Acts(1, After, 5));
    var seven := five + [Enter(0, 1)] + Acts(1, After, 5);
    RunOne(s7, Leave(1));
    RunConcat(s0, seven, [Leave(1)]);
    RunConcat(s0, seven + [Leave(1)], Acts(0, After, 4));
  }

  function Begun(gen: nat): Sequence
  {
    Sequence(true, gen, gen, 0, None, Between, None, None, [])
  }

  predicate HidesOne(s: State)
  {
    0 < |s.seqs| && 0 < |s.seqs[0].log| && s.seqs[0].log[0].Load? && !ShownInOrder(s, 0, 0)
  }

  lemma RunOne(s: State, step: Step)
    ensures Run(s, [step]) == Do(s, step)
  {
    assert [step][1..] == [];
  }

  lemma RunThree(s: State, x: Step, y: Step, z: Step)
    ensures Run(s, [x, y, z]) == Do(Do(Do(s, x), y), z)
  {
    hide Do;
    assert [x, y, z][1..] == [y, z] && [y, z][1..] == [z];
    RunOne(Do(Do(s, x), y), z);
  }

  lemma {:induction false} RunConcat(s: State, a: seq<Step>, b: seq<Step>)
    ensures Run(s, a + b) == Run(Run(s, a), b)
    decreases |a|
  {
    hide Do;
    if a == [] {
      assert a + b == b;
    } else {
      assert (a + b)[1..] == a[1..] + b;
      RunConcat(Do(s, a[0]), a[1..], b);
    }
  }

  lemma OffIsGood(s: State)
    ensures GoodSeq(s, Off())
  {
  }
}
