/** Who owns a signal ring (llvm/ngrt/rvpsignal.c): handlers acquire rings by
    compare-and-set while they scan the list, log to them, and give them back; the
    serializer drains them and adds new ones. Every access to shared memory is one step. */
module SignalRings {
  import opened Basics

  datatype RingState = InUse | Clean | Dirty

  /** The thread and depth that a word is logged at, or that a ring is tagged with. */
  datatype Tag = Tag(tid: nat, depth: nat)

  /** A signal ring. Of each unserialized word only who logged it matters here. */
  datatype Ring = Ring(state: RingState, tag: Tag, words: seq<Tag>, intrs: nat)

  /** Where one run of a handler is in acquiring, using and releasing a ring. The list is
      linked from its newest ring to its oldest: after ring `at` comes ring `at - 1`. */
  datatype Pc =
    | Resting
    | DirtyScan(next: int)              // about to compare-and-set a dirty ring
    | Peeking(at: nat)                // took a dirty ring, about to compare its tag
    | CleanScan(next: int)              // about to compare-and-set a clean ring
    | SettingTid(at: nat)             // took a clean ring
    | SettingDepth(at: nat)
    | Holding(at: nat)
    | Releasing(at: nat, to: RingState)  // has looked whether the ring is dirty
    | Aborted                         // the ring was not in use when it was released

  datatype Agent = Agent(tag: Tag, pc: Pc)

  datatype State = State(rings: seq<Ring>, agents: seq<Agent>)

  datatype Step =
    | Enter(a: nat, tag: Tag)     // a handler starts to scan
    | Advance(a: nat)                 // its next access
    | Log(a: nat)                     // it logs a word
    | Interrupted(a: nat)             // another handler interrupts it
    | Release(a: nat)                 // it looks whether its ring is dirty
    | Drain(r: nat, k: nat)           // the serializer takes words
    | DropIntr(r: nat)                // and interruptions
    | Push                            // and adds a ring

  function SetRing(s: State, r: nat, ring: Ring): State
    requires r < |s.rings|
  {
    s.(rings := s.rings[r := ring])
  }

  function SetPc(s: State, a: nat, pc: Pc): State
    requires a < |s.agents|
  {
    s.(agents := s.agents[a := s.agents[a].(pc := pc)])
  }

  /** rvp_ring_is_dirty */
  predicate IsDirty(r: Ring)
  {
    |r.words| != 0 || r.intrs != 0
  }

  function Do(s: State, step: Step): State
  {
    match step
    case Enter(a, tag) =>
      if a < |s.agents| && s.agents[a].pc.Resting? && tag.depth > 0
      then s.(agents := s.agents[a := Agent(tag, DirtyScan(|s.rings| - 1))]) else s
    case Advance(a) => if a < |s.agents| then Access(s, a) else s
    case Log(a) =>
      if a < |s.agents| && s.agents[a].pc.Holding? && s.agents[a].pc.at < |s.rings| then
        var r := s.agents[a].pc.at;
        SetRing(s, r, s.rings[r].(words := s.rings[r].words + [s.agents[a].tag]))
      else s
    case Interrupted(a) =>
      if a < |s.agents| && s.agents[a].pc.Holding? && s.agents[a].pc.at < |s.rings| then
        var r := s.agents[a].pc.at;
        SetRing(s, r, s.rings[r].(intrs := s.rings[r].intrs + 1))
      else s
    case Release(a) =>
      if a < |s.agents| && s.agents[a].pc.Holding? && s.agents[a].pc.at < |s.rings| then
        var r := s.agents[a].pc.at;
        SetPc(s, a, Releasing(r, if IsDirty(s.rings[r]) then Dirty else Clean))
      else s
    case Drain(r, k) =>
      if r < |s.rings| && k <= |s.rings[r].words| then SetRing(s, r, s.rings[r].(words := s.rings[r].words[k..])) else s
    case DropIntr(r) =>
      if r < |s.rings| && s.rings[r].intrs > 0 then SetRing(s, r, s.rings[r].(intrs := s.rings[r].intrs - 1)) else s
    case Push => s.(rings := s.rings + [Ring(Clean, Tag(0, 0), [], 0)])
  }

  /** One access of rvp_signal_ring_acquire_scan or rvp_signal_ring_put. A scan that finds no
      ring starts again. */
  function Access(s: State, a: nat): State
    requires a < |s.agents|
  {
    var me := s.agents[a];
    match me.pc
    case DirtyScan(at) =>
      if at < 0 then SetPc(s, a, CleanScan(|s.rings| - 1))
      else if at < |s.rings| && s.rings[at].state == Dirty
      then SetPc(SetRing(s, at, s.rings[at].(state := InUse)), a, Peeking(at))
      else SetPc(s, a, DirtyScan(at - 1))
    case Peeking(at) =>
      if at >= |s.rings| then s
      else if s.rings[at].tag == me.tag then SetPc(s, a, Holding(at))
      else SetPc(SetRing(s, at, s.rings[at].(state := Dirty)), a, DirtyScan(at - 1))
    case CleanScan(at) =>
      if at < 0 then SetPc(s, a, DirtyScan(|s.rings| - 1))
      else if at < |s.rings| && s.rings[at].state == Clean
      then SetPc(SetRing(s, at, s.rings[at].(state := InUse)), a, SettingTid(at))
      else SetPc(s, a, CleanScan(at - 1))
    case SettingTid(at) =>
      if at >= |s.rings| then s
      else SetPc(SetRing(s, at, s.rings[at].(tag := Tag(me.tag.tid, s.rings[at].tag.depth))), a, SettingDepth(at))
    case SettingDepth(at) =>
      if at >= |s.rings| then s
      else SetPc(SetRing(s, at, s.rings[at].(tag := Tag(s.rings[at].tag.tid, me.tag.depth))), a, Holding(at))
    case Releasing(at, next) =>
      if at >= |s.rings| then s
      else if s.rings[at].state == InUse then SetPc(SetRing(s, at, s.rings[at].(state := next)), a, Resting)
      else SetPc(s, a, Aborted)
    case _ => s
  }

  function Run(s: State, steps: seq<Step>): State
    decreases |steps|
  {
    if steps == [] then s else Run(Do(s, steps[0]), steps[1..])
  }

  // ---- what every step keeps ---------------------------------------------------------

  /** The agent has taken the ring: it scans its tag, sets it, uses it or releases it. */
  predicate Has(pc: Pc, r: nat)
  {
    (pc.Peeking? || pc.SettingTid? || pc.SettingDepth? || pc.Holding? || pc.Releasing?) && pc.at == r
  }

  predicate GoodRing(r: Ring)
  {
    (r.state == Clean ==> !IsDirty(r)) &&
    forall k | 0 <= k < |r.words| :: r.words[k] == r.tag
  }

  predicate GoodAgent(s: State, me: Agent)
  {
    match me.pc
    case DirtyScan(at) => at < |s.rings|
    case CleanScan(at) => at < |s.rings|
    case Peeking(at) => at < |s.rings| && s.rings[at].state == InUse
    case SettingTid(at) => at < |s.rings| && s.rings[at].state == InUse && !IsDirty(s.rings[at])
    case SettingDepth(at) =>
      at < |s.rings| && s.rings[at].state == InUse && !IsDirty(s.rings[at]) && s.rings[at].tag.tid == me.tag.tid
    case Holding(at) => at < |s.rings| && s.rings[at].state == InUse && s.rings[at].tag == me.tag
    case Releasing(at, next) =>
      at < |s.rings| && s.rings[at].state == InUse && s.rings[at].tag == me.tag &&
      next != InUse && (next == Clean ==> !IsDirty(s.rings[at]))
    case Resting => true
    case Aborted => false
  }

  ghost predicate Inv(s: State)
  {
    (forall r | 0 <= r < |s.rings| :: GoodRing(s.rings[r])) &&
    (forall a | 0 <= a < |s.agents| :: GoodAgent(s, s.agents[a])) &&
    (forall r | 0 <= r < |s.rings| && s.rings[r].state == InUse :: exists a :: 0 <= a < |s.agents| && Has(s.agents[a].pc, r)) &&
    (forall r, a, b | 0 <= a < |s.agents| && 0 <= b < |s.agents| && Has(s.agents[a].pc, r) && Has(s.agents[b].pc, r) :: a == b)
  }

  lemma OneHolder(s: State, a: nat, b: nat, r: nat)
    requires Inv(s) && a < |s.agents| && b < |s.agents| && Has(s.agents[a].pc, r) && Has(s.agents[b].pc, r)
    ensures a == b
  {
  }

  /** Agent `a`, which has ring `r` or finds it free, changes the ring and moves to `pc`. */
  lemma ChangeKeeps(s: State, a: nat, r: nat, ring: Ring, pc: Pc)
    requires Inv(s) && a < |s.agents| && r < |s.rings| && GoodRing(ring)
    requires Has(s.agents[a].pc, r) || (s.rings[r].state != InUse && forall q :: !Has(s.agents[a].pc, q))
    requires (ring.state == InUse <==> Has(pc, r)) && forall q | Has(pc, q) :: q == r
    requires GoodAgent(SetPc(SetRing(s, r, ring), a, pc), s.agents[a].(pc := pc))
    ensures Inv(SetPc(SetRing(s, r, ring), a, pc))
  {
    var s' := SetPc(SetRing(s, r, ring), a, pc);
    forall b | 0 <= b < |s'.agents|
      ensures GoodAgent(s', s'.agents[b]) && (b != a ==> !Has(s'.agents[b].pc, r))
    {
      if b != a {
        assert GoodAgent(s, s.agents[b]);
      }
    }
    forall q | 0 <= q < |s'.rings| && s'.rings[q].state == InUse
      ensures exists b :: 0 <= b < |s'.agents| && Has(s'.agents[b].pc, q)
    {
      if q == r {
        assert Has(s'.agents[a].pc, r);
      } else {
        var b :| 0 <= b < |s.agents| && Has(s.agents[b].pc, q);
        assert Has(s'.agents[b].pc, q);
      }
    }
    forall q, b, c | 0 <= b < |s'.agents| && 0 <= c < |s'.agents| && Has(s'.agents[b].pc, q) && Has(s'.agents[c].pc, q)
      ensures b == c
    {
      if b != a && c != a { OneHolder(s, b, c, q); }
    }
  }

  /** An agent that has no ring moves without one. */
  lemma MoveKeeps(s: State, a: nat, me: Agent)
    requires Inv(s) && a < |s.agents| && (forall q :: !Has(s.agents[a].pc, q) && !Has(me.pc, q)) && GoodAgent(s, me)
    ensures Inv(s.(agents := s.agents[a := me]))
  {
    var s' := s.(agents := s.agents[a := me]);
    forall b | 0 <= b < |s'.agents|
      ensures GoodAgent(s', s'.agents[b])
    {
      if b != a { assert GoodAgent(s, s.agents[b]); }
    }
    forall q | 0 <= q < |s'.rings| && s'.rings[q].state == InUse
      ensures exists b :: 0 <= b < |s'.agents| && Has(s'.agents[b].pc, q)
    {
      var b :| 0 <= b < |s.agents| && Has(s.agents[b].pc, q);
      assert Has(s'.agents[b].pc, q);
    }
    forall q, b, c | 0 <= b < |s'.agents| && 0 <= c < |s'.agents| && Has(s'.agents[b].pc, q) && Has(s'.agents[c].pc, q)
      ensures b == c
    {
      OneHolder(s, b, c, q);
    }
  }

  /** The serializer makes a ring no dirtier. */
  lemma DrainKeeps(s: State, r: nat, ring: Ring)
    requires Inv(s) && r < |s.rings| && ring.state == s.rings[r].state && ring.tag == s.rings[r].tag
    requires GoodRing(ring) && (!IsDirty(s.rings[r]) ==> !IsDirty(ring))
    ensures Inv(SetRing(s, r, ring))
  {
    var s' := SetRing(s, r, ring);
    forall b | 0 <= b < |s'.agents|
      ensures GoodAgent(s', s'.agents[b])
    {
      assert GoodAgent(s, s.agents[b]);
    }
    forall q | 0 <= q < |s'.rings| && s'.rings[q].state == InUse
      ensures exists b :: 0 <= b < |s'.agents| && Has(s'.agents[b].pc, q)
    {
      assert s.rings[q].state == InUse;
    }
  }

  lemma PushKeeps(s: State)
    requires Inv(s)
    ensures Inv(Do(s, Push))
  {
    var s' := Do(s, Push);
    forall b | 0 <= b < |s'.agents|
      ensures GoodAgent(s', s'.agents[b])
    {
      assert GoodAgent(s, s.agents[b]);
    }
    forall q | 0 <= q < |s'.rings| && s'.rings[q].state == InUse
      ensures exists b :: 0 <= b < |s'.agents| && Has(s'.agents[b].pc, q)
    {
      assert s.rings[q].state == InUse;
    }
  }

  lemma AccessKeeps(s: State, a: nat)
    requires Inv(s) && a < |s.agents|
    ensures Inv(Access(s, a))
  {
    hide Inv;
    Facts(s, a);
    var me := s.agents[a];
    match me.pc
    case DirtyScan(at) =>
      if 0 <= at && s.rings[at].state == Dirty {
        RingFacts(s, at);
        ChangeKeeps(s, a, at, s.rings[at].(state := InUse), Peeking(at));
      } else {
        MoveKeeps(s, a, me.(pc := if at < 0 then CleanScan(|s.rings| - 1) else DirtyScan(at - 1)));
      }
    case CleanScan(at) =>
      if 0 <= at && s.rings[at].state == Clean {
        RingFacts(s, at);
        ChangeKeeps(s, a, at, s.rings[at].(state := InUse), SettingTid(at));
      } else {
        MoveKeeps(s, a, me.(pc := if at < 0 then DirtyScan(|s.rings| - 1) else CleanScan(at - 1)));
      }
    case Peeking(at) =>
      RingFacts(s, at);
      if s.rings[at].tag == me.tag {
        assert SetRing(s, at, s.rings[at]) == s;
        ChangeKeeps(s, a, at, s.rings[at], Holding(at));
      } else {
        ChangeKeeps(s, a, at, s.rings[at].(state := Dirty), DirtyScan(at - 1));
      }
    case SettingTid(at) =>
      ChangeKeeps(s, a, at, s.rings[at].(tag := Tag(me.tag.tid, s.rings[at].tag.depth)), SettingDepth(at));
    case SettingDepth(at) =>
      ChangeKeeps(s, a, at, s.rings[at].(tag := Tag(s.rings[at].tag.tid, me.tag.depth)), Holding(at));
    case Releasing(at, to) =>
      RingFacts(s, at);
      ChangeKeeps(s, a, at, s.rings[at].(state := to), Resting);
    case _ =>
  }

  lemma Facts(s: State, a: nat)
    requires Inv(s) && a < |s.agents|
    ensures GoodAgent(s, s.agents[a])
  {
  }

  lemma RingFacts(s: State, r: nat)
    requires Inv(s) && r < |s.rings|
    ensures GoodRing(s.rings[r])
  {
  }

  /** An agent that holds a ring changes it and goes on holding it. */
  lemma HolderKeeps(s: State, a: nat, ring: Ring)
    requires Inv(s) && a < |s.agents| && s.agents[a].pc.Holding? && s.agents[a].pc.at < |s.rings|
    requires GoodRing(ring) && ring.state == InUse && ring.tag == s.agents[a].tag
    ensures Inv(SetRing(s, s.agents[a].pc.at, ring))
  {
    hide Inv, GoodRing;
    var r := s.agents[a].pc.at;
    ChangeKeeps(s, a, r, ring, s.agents[a].pc);
    assert SetPc(SetRing(s, r, ring), a, s.agents[a].pc) == SetRing(s, r, ring);
  }

  lemma ReleaseKeeps(s: State, a: nat)
    requires Inv(s) && a < |s.agents|
    ensures Inv(Do(s, Release(a)))
  {
    hide Inv;
    if s.agents[a].pc.Holding? {
      Facts(s, a);
      var r := s.agents[a].pc.at;
      RingFacts(s, r);
      assert SetRing(s, r, s.rings[r]) == s;
      ChangeKeeps(s, a, r, s.rings[r], Releasing(r, if IsDirty(s.rings[r]) then Dirty else Clean));
    }
  }

  lemma StepKeeps(s: State, step: Step)
    requires Inv(s)
    ensures Inv(Do(s, step))
  {
    hide Inv, Access;
    match step
    case Enter(a, tag) =>
      if a < |s.agents| && s.agents[a].pc.Resting? && tag.depth > 0 {
        MoveKeeps(s, a, Agent(tag, DirtyScan(|s.rings| - 1)));
      }
    case Advance(a) => if a < |s.agents| { AccessKeeps(s, a); }
    case Log(a) =>
      if a < |s.agents| && s.agents[a].pc.Holding? {
        Facts(s, a);
        var ring := s.rings[s.agents[a].pc.at];
        RingFacts(s, s.agents[a].pc.at);
        HolderKeeps(s, a, ring.(words := ring.words + [s.agents[a].tag]));
      }
    case Interrupted(a) =>
      if a < |s.agents| && s.agents[a].pc.Holding? {
        Facts(s, a);
        var ring := s.rings[s.agents[a].pc.at];
        RingFacts(s, s.agents[a].pc.at);
        HolderKeeps(s, a, ring.(intrs := ring.intrs + 1));
      }
    case Release(a) => if a < |s.agents| { ReleaseKeeps(s, a); }
    case Drain(r, k) =>
      if r < |s.rings| && k <= |s.rings[r].words| {
        RingFacts(s, r);
        DrainKeeps(s, r, s.rings[r].(words := s.rings[r].words[k..]));
      }
    case DropIntr(r) =>
      if r < |s.rings| && s.rings[r].intrs > 0 {
        RingFacts(s, r);
        DrainKeeps(s, r, s.rings[r].(intrs := s.rings[r].intrs - 1));
      }
    case Push => PushKeeps(s);
  }

  lemma {:induction false} RunKeeps(s: State, steps: seq<Step>)
    requires Inv(s)
    ensures Inv(Run(s, steps))
    decreases |steps|
  {
    hide Inv, Do;
    if steps != [] {
      StepKeeps(s, steps[0]);
      RunKeeps(Do(s, steps[0]), steps[1..]);
    }
  }

  /** In every run from a state without rings, in which every handler is at rest: a ring is
      in use exactly when some run of a handler has it, and then just one has it; a clean
      ring holds nothing unserialized; all that a ring holds was logged under the label it
      carries; and releasing a ring never fails. */
  lemma Ownership(agents: seq<Agent>, steps: seq<Step>)
    requires forall a | 0 <= a < |agents| :: agents[a].pc.Resting?
    ensures var s := Run(State([], agents), steps);
            (forall r | 0 <= r < |s.rings| ::
               (s.rings[r].state == InUse <==> exists a :: 0 <= a < |s.agents| && Has(s.agents[a].pc, r)) &&
               (s.rings[r].state == Clean ==> s.rings[r].words == [] && s.rings[r].intrs == 0) &&
               (forall k | 0 <= k < |s.rings[r].words| :: s.rings[r].words[k] == s.rings[r].tag)) &&
            (forall r, a, b | 0 <= a < |s.agents| && 0 <= b < |s.agents| && Has(s.agents[a].pc, r) && Has(s.agents[b].pc, r) :: a == b) &&
            (forall a | 0 <= a < |s.agents| :: !s.agents[a].pc.Aborted?)
  {
    assert Inv(State([], agents));
    RunKeeps(State([], agents), steps);
    var s := Run(State([], agents), steps);
    assert forall r | 0 <= r < |s.rings| :: GoodRing(s.rings[r]);
    assert forall a | 0 <= a < |s.agents| :: GoodAgent(s, s.agents[a]);
  }

  /** Only the release of a ring by its holder makes it clean; draining a dirty ring does not,
      so a ring whose thread never comes back to its depth stays dirty. */
  lemma OnlyReleaseCleans(s: State, step: Step, r: nat)
    requires r < |s.rings| && s.rings[r].state != Clean && r < |Do(s, step).rings| && Do(s, step).rings[r].state == Clean
    ensures step.Advance? && step.a < |s.agents| && s.agents[step.a].pc == Releasing(r, Clean)
  {
    if step.Advance? {
      var me := s.agents[step.a];
      assert Access(s, step.a) != s;
    }
  }

  // ---- a scan that nothing disturbs ----------------------------------------------------------

  function Advances(a: nat, n: nat): (steps: seq<Step>)
    ensures |steps| == n
  {
    seq(n, _ => Advance(a))
  }

  lemma RunsOn(s: State, a: nat, n: nat)
    requires a < |s.agents|
    ensures Run(s, Advances(a, n + 1)) == Run(Access(s, a), Advances(a, n))
  {
    assert Advances(a, n + 1)[1..] == Advances(a, n);
  }

  lemma RunsOut(s: State, a: nat)
    ensures Run(s, Advances(a, 0)) == s
  {
  }

  /** The ring is dirty, and carries the tag. */
  predicate Mine(ring: Ring, tag: Tag)
  {
    ring.state == Dirty && ring.tag == tag
  }

  /** Ring `r` is the newest of those up to `at` that are the agent's. */
  predicate NewestMine(rings: seq<Ring>, tag: Tag, at: int, r: nat)
    requires at < |rings|
  {
    r <= at && Mine(rings[r], tag) && forall q | r < q <= at :: !Mine(rings[q], tag)
  }

  predicate NewestClean(rings: seq<Ring>, at: int, r: nat)
    requires at < |rings|
  {
    r <= at && rings[r].state == Clean && forall q | r < q <= at :: rings[q].state != Clean
  }

  /** The first half of a scan: the newest dirty ring of the same tag, or none and nothing changed. */
  lemma {:induction false} ScanDirty(s: State, a: nat, at: int) returns (n: nat, r: Option<nat>)
    requires a < |s.agents| && s.agents[a].pc == DirtyScan(at) && at < |s.rings|
    ensures var s' := Run(s, Advances(a, n));
            match r
            case Some(q) => NewestMine(s.rings, s.agents[a].tag, at, q) && s' == SetPc(SetRing(s, q, s.rings[q].(state := InUse)), a, Holding(q))
            case None => (forall q | 0 <= q <= at :: !Mine(s.rings[q], s.agents[a].tag)) && s' == SetPc(s, a, CleanScan(|s.rings| - 1))
    decreases at + 1
  {
    hide Run, Advances;
    var me, s1 := s.agents[a], Access(s, a);
    if at < 0 {
      n, r := 1, None;
      RunsOn(s, a, 0);
      RunsOut(s1, a);
    } else if Mine(s.rings[at], me.tag) {
      n, r := 2, Some(at);
      RunsOn(s, a, 1);
      RunsOn(s1, a, 0);
      RunsOut(Access(s1, a), a);
      assert Access(s1, a) == SetPc(SetRing(s, at, s.rings[at].(state := InUse)), a, Holding(at));
    } else {
      var next := SetPc(s, a, DirtyScan(at - 1));
      var k;
      k, r := ScanDirty(next, a, at - 1);
      if s.rings[at].state != Dirty {
        n := k + 1;
        RunsOn(s, a, k);
      } else {
        n := k + 2;
        PutsBack(s, a, at);
        RunsOn(s, a, k + 1);
        RunsOn(s1, a, k);
      }
      if r.Some? { SamePc(s, a, r.value, s.rings[r.value].(state := InUse), DirtyScan(at - 1), Holding(r.value)); }
    }
  }

  /** A dirty ring of another tag is taken and put back. */
  lemma PutsBack(s: State, a: nat, at: nat)
    requires a < |s.agents| && s.agents[a].pc == DirtyScan(at) && at < |s.rings| && s.rings[at].state == Dirty && s.rings[at].tag != s.agents[a].tag
    ensures Access(Access(s, a), a) == SetPc(s, a, DirtyScan(at - 1))
  {
    assert Access(Access(s, a), a).rings == s.rings;
  }

  lemma SamePc(s: State, a: nat, q: nat, ring: Ring, pc: Pc, pc': Pc)
    requires a < |s.agents| && q < |s.rings|
    ensures SetPc(SetRing(SetPc(s, a, pc), q, ring), a, pc') == SetPc(SetRing(s, q, ring), a, pc')
    ensures SetPc(SetPc(s, a, pc), a, pc') == SetPc(s, a, pc')
  {
  }

  /** The second half: the newest clean ring gets the tag, or there is none and the scan starts again. */
  lemma {:induction false} ScanClean(s: State, a: nat, at: int) returns (n: nat, r: Option<nat>)
    requires a < |s.agents| && s.agents[a].pc == CleanScan(at) && at < |s.rings|
    ensures var s' := Run(s, Advances(a, n));
            match r
            case Some(q) => NewestClean(s.rings, at, q) && s' == SetPc(SetRing(s, q, s.rings[q].(state := InUse, tag := s.agents[a].tag)), a, Holding(q))
            case None => (forall q | 0 <= q <= at :: s.rings[q].state != Clean) && s' == SetPc(s, a, DirtyScan(|s.rings| - 1))
    decreases at + 1
  {
    hide Run, Advances;
    var s1 := Access(s, a);
    if at < 0 {
      n, r := 1, None;
      RunsOn(s, a, 0);
      RunsOut(s1, a);
    } else if s.rings[at].state == Clean {
      n, r := 3, Some(at);
      Tags(s, a, at);
      RunsOn(s, a, 2);
      RunsOn(s1, a, 1);
      RunsOn(Access(s1, a), a, 0);
      RunsOut(Access(Access(s1, a), a), a);
    } else {
      var next := SetPc(s, a, CleanScan(at - 1));
      var k;
      k, r := ScanClean(next, a, at - 1);
      n := k + 1;
      RunsOn(s, a, k);
      if r.Some? { SamePc(s, a, r.value, s.rings[r.value].(state := InUse, tag := s.agents[a].tag), CleanScan(at - 1), Holding(r.value)); }
    }
  }

  /** A clean ring is taken, and gets first the thread and then the depth. */
  lemma Tags(s: State, a: nat, at: nat)
    requires a < |s.agents| && s.agents[a].pc == CleanScan(at) && at < |s.rings| && s.rings[at].state == Clean
    ensures var s1 := Access(s, a);
            Access(Access(s1, a), a) == SetPc(SetRing(s, at, s.rings[at].(state := InUse, tag := s.agents[a].tag)), a, Holding(at))
  {
  }

  lemma {:induction false} RunConcat(s: State, x: seq<Step>, y: seq<Step>)
    ensures Run(s, x + y) == Run(Run(s, x), y)
    decreases |x|
  {
    hide Do;
    if x == [] {
      assert x + y == y;
    } else {
      assert (x + y)[1..] == x[1..] + y;
      RunConcat(Do(s, x[0]), x[1..], y);
    }
  }

  /** A scan that nothing disturbs takes the newest dirty ring that carries the handler's thread and depth; or else the
      newest clean ring, which then carries them; or else it changes nothing. */
  lemma ScanTakes(s: State, a: nat) returns (steps: seq<Step>)
    requires a < |s.agents| && s.agents[a].pc == DirtyScan(|s.rings| - 1)
    ensures forall x | x in steps :: x == Advance(a)
    ensures var s', tag, last := Run(s, steps), s.agents[a].tag, |s.rings| - 1;
            (forall r: nat | NewestMine(s.rings, tag, last, r) ::
               s' == SetPc(SetRing(s, r, s.rings[r].(state := InUse)), a, Holding(r))) &&
            (forall r: nat | NewestClean(s.rings, last, r) && (forall q | 0 <= q <= last :: !Mine(s.rings[q], tag)) ::
               s' == SetPc(SetRing(s, r, s.rings[r].(state := InUse, tag := tag)), a, Holding(r))) &&
            ((forall q | 0 <= q <= last :: !Mine(s.rings[q], tag) && s.rings[q].state != Clean) ==> s' == s)
  {
    hide Run, Advances, Mine;
    var tag, last := s.agents[a].tag, |s.rings| - 1;
    var n, mine := ScanDirty(s, a, last);
    steps := Advances(a, n);
    AllAdvance(a, n);
    if mine.None? {
      var s1 := SetPc(s, a, CleanScan(last));
      var k, clean := ScanClean(s1, a, last);
      steps := Advances(a, n) + Advances(a, k);
      AllAdvance(a, k);
      RunConcat(s, Advances(a, n), Advances(a, k));
      if clean.Some? {
        SamePc(s, a, clean.value, s.rings[clean.value].(state := InUse, tag := tag), CleanScan(last), Holding(clean.value));
      } else {
        assert s.agents[a := s.agents[a].(pc := DirtyScan(last))] == s.agents;
      }
    }
  }

  lemma AllAdvance(a: nat, n: nat)
    ensures forall x | x in Advances(a, n) :: x == Advance(a)
  {
  }

  /** A handler that gives its ring back leaves it clean if everything on it has been serialized by then, and else
      dirty, and changes nothing else. */
  lemma PutBack(s: State, a: nat)
    requires Inv(s) && a < |s.agents| && s.agents[a].pc.Holding?
    ensures var r := s.agents[a].pc.at;
            r < |s.rings| &&
            Run(s, [Release(a), Advance(a)]) ==
            SetPc(SetRing(s, r, s.rings[r].(state := if s.rings[r].words == [] && s.rings[r].intrs == 0 then Clean else Dirty)), a, Resting)
  {
    hide Inv, Run, GoodAgent, Do;
    HolderUses(s, a);
    RunTwo(s, Release(a), Advance(a));
    Releases(s, a);
  }

  lemma HolderUses(s: State, a: nat)
    requires Inv(s) && a < |s.agents| && s.agents[a].pc.Holding?
    ensures s.agents[a].pc.at < |s.rings| && s.rings[s.agents[a].pc.at].state == InUse
  {
    Facts(s, a);
  }

  lemma Releases(s: State, a: nat)
    requires a < |s.agents| && s.agents[a].pc.Holding? && s.agents[a].pc.at < |s.rings| && s.rings[s.agents[a].pc.at].state == InUse
    ensures var r := s.agents[a].pc.at;
            Do(Do(s, Release(a)), Advance(a)) ==
            SetPc(SetRing(s, r, s.rings[r].(state := if s.rings[r].words == [] && s.rings[r].intrs == 0 then Clean else Dirty)), a, Resting)
  {
  }

  lemma RunTwo(s: State, x: Step, y: Step)
    ensures Run(s, [x, y]) == Do(Do(s, x), y)
  {
    hide Do;
    assert [x, y][1..] == [y] && [y][1..] == [];
    assert Run(Do(s, x), [y]) == Do(Do(s, x), y);
  }

  function CleanCount(states: seq<RingState>): nat
  {
    if states == [] then 0 else (if states[0] == Clean then 1 else 0) + CleanCount(states[1..])
  }

  /** rvp_signal_rings_replenish: how many rings it adds. When no other thread takes any in
      the meantime, one more than were needed are clean afterwards, and no ring is added
      without need. */
  method Replenish(states: seq<RingState>, needed: nat) returns (rings: seq<RingState>)
    ensures needed == 0 ==> rings == states
    ensures needed != 0 ==> CleanCount(rings) == if CleanCount(states) > needed then CleanCount(states) else needed + 1
    ensures |rings| >= |states| && rings[|rings| - |states|..] == states
  {
    rings := states;
    if needed == 0 { return; }
    var nclean := 0;
    var r := 0;
    while nclean <= needed && r < |states|
      invariant r <= |states| && nclean + CleanCount(states[r..]) == CleanCount(states) && nclean <= needed + 1
    {
      if states[r] == Clean { nclean := nclean + 1; }
      assert states[r..][1..] == states[r + 1..];
      r := r + 1;
    }
    assert nclean > needed || states[r..] == [];
    var nallocated := nclean;
    while nallocated <= needed
      invariant nclean <= nallocated && (nclean <= needed ==> nallocated <= needed + 1)
      invariant nclean > needed ==> nallocated == nclean
      invariant |rings| >= |states| && rings[|rings| - |states|..] == states
      invariant CleanCount(rings) == CleanCount(states) + (nallocated - nclean)
    {
      assert ([Clean] + rings)[1..] == rings;
      rings := [Clean] + rings;
      nallocated := nallocated + 1;
    }
  }
}
