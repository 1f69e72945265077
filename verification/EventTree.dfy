/** The tree of events that the serializer reads (llvm/ngrt/serialize.c).

    A thread, or one run of a signal handler, is a `Bracket`: a stretch of one
    ring, interleaved with the brackets of the handlers that interrupted it.
    Positions are absolute (they count the words ever put on a ring); the module
    `Serializer` relates them to the indices, modulo the ring size, that the
    program keeps.

    `Emit` and `Left` say, on trees, what `rvp_ring_get_iovs` and
    `rvp_ring_discard_iovs` do; the theorems here are about them. */
module EventTree {
  import opened Basics

  /** `Done(from, to, more)`: the words in `from..to` end the bracket; `more` tells
      whether the ring already has an interruption recorded after them.
      `Cut(from, at, sub, rest)`: the words in `from..at`, then the interruption
      `sub`, then `rest`. */
  datatype Span =
    | Done(from: nat, to: nat, more: bool)
    | Cut(from: nat, at: nat, sub: Bracket, rest: Span)

  /** `open` means unfinished: the handler has not closed its interruption. A
      thread's own bracket is always open. */
  datatype Bracket = Bracket(ring: nat, depth: nat, open: bool, body: Span)

  /** One word of one ring, with the signal depth under which it was logged. */
  datatype Slot = Slot(ring: nat, depth: nat, pos: nat)

  /** An I/O vector: a change of signal depth, or `len` words of a ring. */
  datatype Vec = Depth(ring: nat, depth: nat) | Words(ring: nat, from: nat, len: nat)

  /** The words of a ring that one call of `rvp_ring_get_iovs_between` covers. */
  datatype Chunk = Chunk(ring: nat, depth: nat, from: nat, to: nat)

  /** What a get pass returns: the vectors filled, the number of vectors that
      remain or -1, and the signal depth after the vectors. */
  datatype Out = Out(vecs: seq<Vec>, residue: int, depth: nat)

  // ---- program order -------------------------------------------------------

  function Run(ring: nat, depth: nat, from: nat, to: nat): seq<Slot>
    decreases to - from
  {
    if from < to then [Slot(ring, depth, from)] + Run(ring, depth, from + 1, to) else []
  }

  /** The words of a bracket in program order. */
  function Flatten(b: Bracket): seq<Slot>
    decreases b, 1
  {
    FlattenSpan(b.ring, b.depth, b.body)
  }

  function FlattenSpan(ring: nat, depth: nat, s: Span): seq<Slot>
    decreases s, 0
  {
    match s
    case Done(from, to, _) => Run(ring, depth, from, to)
    case Cut(from, at, sub, rest) =>
      Run(ring, depth, from, at) + Flatten(sub) + FlattenSpan(ring, depth, rest)
  }

  /** The non-empty chunks of a bracket in program order. */
  function Chunks(b: Bracket): seq<Chunk>
    decreases b, 1
  {
    ChunksSpan(b.ring, b.depth, b.body)
  }

  function ChunkOf(ring: nat, depth: nat, from: nat, to: nat): seq<Chunk>
  {
    if from < to then [Chunk(ring, depth, from, to)] else []
  }

  function ChunksSpan(ring: nat, depth: nat, s: Span): seq<Chunk>
    decreases s, 0
  {
    match s
    case Done(from, to, _) => ChunkOf(ring, depth, from, to)
    case Cut(from, at, sub, rest) =>
      ChunkOf(ring, depth, from, at) + Chunks(sub) + ChunksSpan(ring, depth, rest)
  }

  /** Positions along a bracket do not decrease, no chunk fills the ring, and every
      interruption is deeper than what it interrupts. */
  predicate Ordered(n: nat, b: Bracket)
    decreases b, 1
  {
    OrderedSpan(n, b.depth, b.body)
  }

  predicate OrderedSpan(n: nat, depth: nat, s: Span)
    decreases s, 0
  {
    match s
    case Done(from, to, _) => from <= to < from + n
    case Cut(from, at, sub, rest) =>
      from <= at < from + n && rest.from == at && depth < sub.depth &&
      Ordered(n, sub) && OrderedSpan(n, depth, rest)
  }

  /** The handlers that interrupted a finished handler have finished too, and it logged
      something after the last of them (at least its `exitsig` event). */
  predicate Fresh(b: Bracket)
    decreases b, 1
  {
    FreshSpan(b.open, b.body)
  }

  predicate FreshSpan(open: bool, s: Span)
    decreases s, 0
  {
    match s
    case Done(from, to, _) => open || from < to
    case Cut(_, _, sub, rest) => (open || !sub.open) && Fresh(sub) && FreshSpan(open, rest)
  }

  /** A finished bracket, with everything in it finished, and words after its last
      interruption. */
  predicate Whole(b: Bracket)
    decreases b, 1
  {
    !b.open && WholeSpan(b.body)
  }

  predicate WholeSpan(s: Span)
    decreases s, 0
  {
    match s
    case Done(from, to, _) => from < to
    case Cut(_, _, sub, rest) => Whole(sub) && WholeSpan(rest)
  }

  // ---- the get pass --------------------------------------------------------

  /** The vectors for one chunk: a change of depth if one is needed, and one or, if
      the chunk wraps, two vectors of words. */
  function Pieces(n: nat, ring: nat, depth: nat, from: nat, to: nat, d: nat): seq<Vec>
    requires 0 < n
  {
    if to <= from then [] else
    (if depth != d then [Depth(ring, depth)] else []) +
    if from % n < to % n
    then [Words(ring, from, to - from)]
    else [Words(ring, from, n - from % n), Words(ring, from + (n - from % n), to % n)]
  }

  /** rvp_ring_get_iovs_between: None stands for -1. */
  function Between(n: nat, ring: nat, depth: nat, from: nat, to: nat, room: nat, d: nat): Option<seq<Vec>>
    requires 0 < n
  {
    if from < to && |Pieces(n, ring, depth, from, to, d)| <= room
    then Some(Pieces(n, ring, depth, from, to, d))
    else None
  }

  /** The vectors for the words that precede an interruption, if there are any. */
  function Lead(n: nat, ring: nat, depth: nat, from: nat, at: nat, room: nat, d: nat): (r: Option<seq<Vec>>)
    requires 0 < n
    ensures r.Some? ==> |r.value| <= room
  {
    if from < at then Between(n, ring, depth, from, at, room, d) else Some([])
  }

  function LeadDepth(depth: nat, from: nat, at: nat, d: nat): nat
  {
    if from < at then depth else d
  }

  function Prefixed(p: seq<Vec>, o: Out): Out
  {
    Out(p + o.vecs, o.residue, o.depth)
  }

  /** rvp_ring_get_iovs on a bracket, with `room` vectors left. */
  function Emit(n: nat, b: Bracket, room: nat, d: nat): (o: Out)
    requires 0 < n
    ensures |o.vecs| <= room
    ensures o.residue == -1 || o.residue == room - |o.vecs|
    decreases b, 1
  {
    var o := EmitSpan(n, b.ring, b.depth, b.body, room, d);
    if b.open then Out(o.vecs, -1, o.depth) else o
  }

  function EmitSpan(n: nat, ring: nat, depth: nat, s: Span, room: nat, d: nat): (o: Out)
    requires 0 < n
    ensures |o.vecs| <= room
    ensures o.residue == -1 || o.residue == room - |o.vecs|
    decreases s, 0
  {
    if room == 0 then Out([], 0, d) else
    match s
    case Done(from, to, _) =>
      (match Between(n, ring, depth, from, to, room, d)
       case None => Out([], -1, d)
       case Some(p) => Out(p, room - |p|, depth))
    case Cut(from, at, sub, rest) =>
      (match Lead(n, ring, depth, from, at, room, d)
       case None => Out([], -1, d)
       case Some(vs) =>
         var e := Emit(n, sub, room - |vs|, LeadDepth(depth, from, at, d));
         Prefixed(vs, if e.residue < 0 then e
                      else Prefixed(e.vecs, EmitSpan(n, ring, depth, rest, e.residue, e.depth))))
  }

  /** The words that the vectors carry, each under the depth the reader is at. */
  function Read(vecs: seq<Vec>, d: nat): seq<Slot>
  {
    if vecs == [] then [] else
    match vecs[0]
    case Depth(_, depth) => Read(vecs[1..], depth)
    case Words(ring, from, len) => Run(ring, d, from, from + len) + Read(vecs[1..], d)
  }

  function EndDepth(vecs: seq<Vec>, d: nat): nat
  {
    if vecs == [] then d else
    match vecs[0]
    case Depth(_, depth) => EndDepth(vecs[1..], depth)
    case Words(_, _, _) => EndDepth(vecs[1..], d)
  }

  // ---- the producers, between a get pass and its discard pass ---------------

  /** `t` is what `s` has become after producers logged more: a bracket that was
      open may have gained words and interruptions and may have been closed. */
  predicate Grown(s: Bracket, t: Bracket)
    decreases s, 1
  {
    s.ring == t.ring && s.depth == t.depth && (t.open ==> s.open) &&
    GrownSpan(s.open, s.body, t.body)
  }

  predicate GrownSpan(open: bool, s: Span, t: Span)
    decreases s, 0
  {
    match s
    case Done(from, to, _) =>
      (match t
       case Done(from', to', _) => from' == from && (if open then to <= to' else to == to')
       case Cut(from', at', _, _) => open && from' == from && to <= at')
    case Cut(from, at, sub, rest) =>
      t.Cut? && t.from == from && t.at == at && Grown(sub, t.sub) && GrownSpan(open, rest, t.rest)
  }

  // ---- the discard pass ----------------------------------------------------

  /** Nothing is left of a bracket that will not grow. */
  predicate Spent(b: Bracket)
  {
    !b.open && b.body.Done? && b.body.from == b.body.to
  }

  function Advanced(t: Span, pos: nat): Span
  {
    t.(from := pos)
  }

  /** rvp_ring_discard_iovs run on exactly the vectors that a get pass filled when the
      bracket was `b`; the bracket has become `t` since. The result is what is left
      of `t`. */
  function Left(n: nat, b: Bracket, t: Bracket, room: nat, d: nat): (l: Bracket)
    requires 0 < n && Grown(b, t)
    ensures l.ring == t.ring && l.depth == t.depth && l.open == t.open
    decreases b, 1
  {
    t.(body := LeftSpan(n, b.ring, b.depth, b.open, b.body, t.body, room, d))
  }

  function LeftSpan(n: nat, ring: nat, depth: nat, open: bool, s: Span, t: Span, room: nat, d: nat): Span
    requires 0 < n && GrownSpan(open, s, t)
    decreases s, 0
  {
    if room == 0 then t else
    match s
    case Done(from, to, _) =>
      if Between(n, ring, depth, from, to, room, d).None? then t else Advanced(t, to)
    case Cut(from, at, sub, rest) =>
      (match Lead(n, ring, depth, from, at, room, d)
       case None => t
       case Some(vs) =>
         var e := Emit(n, sub, room - |vs|, LeadDepth(depth, from, at, d));
         var l := Left(n, sub, t.sub, room - |vs|, LeadDepth(depth, from, at, d));
         if !Spent(l) then Cut(at, at, l, t.rest)
         else if e.residue < 0 then t.rest
         else LeftSpan(n, ring, depth, open, rest, t.rest, e.residue, e.depth))
  }

  // ---- arithmetic of a ring of n slots --------------------------------------

  lemma ModUnique(n: nat, x: int, q: int, r: int)
    requires 0 < n && x == n * q + r && 0 <= r < n
    ensures x % n == r
  {
    var q' := x / n;
    assert x == n * q' + x % n;
    if q < q' {
      assert n * q' >= n * (q + 1) by { MulLe(n, q + 1, q'); }
    } else if q' < q {
      assert n * q >= n * (q' + 1) by { MulLe(n, q' + 1, q); }
    }
  }

  lemma MulLe(n: nat, a: int, b: int)
    requires a <= b
    ensures n * a <= n * b
  {
    assert 0 <= n * (b - a);
  }

  /** How far apart two positions are, from their indices, when less than a ring's
      size separates them. */
  lemma Wrap(n: nat, a: nat, b: nat)
    requires 0 < n && a <= b < a + n
    ensures a % n <= b % n ==> b - a == b % n - a % n
    ensures b % n < a % n ==> b - a == n - a % n + b % n
  {
    var q, k := a / n, b - a;
    assert a == n * q + a % n;
    if a % n + k < n {
      ModUnique(n, b, q, a % n + k);
    } else {
      assert n * (q + 1) == n * q + n;
      ModUnique(n, b, q + 1, a % n + k - n);
    }
  }

  // ---- conservation and context --------------------------------------------

  lemma {:induction false} RunSplit(ring: nat, depth: nat, from: nat, mid: nat, to: nat)
    requires from <= mid <= to
    ensures Run(ring, depth, from, to) == Run(ring, depth, from, mid) + Run(ring, depth, mid, to)
    decreases mid - from
  {
    if from < mid { RunSplit(ring, depth, from + 1, mid, to); }
  }

  lemma {:induction false} ReadConcat(a: seq<Vec>, b: seq<Vec>, d: nat)
    ensures Read(a + b, d) == Read(a, d) + Read(b, EndDepth(a, d))
    ensures EndDepth(a + b, d) == EndDepth(b, EndDepth(a, d))
  {
    if a == [] {
      assert a + b == b;
    } else {
      assert (a + b)[1..] == a[1..] + b;
      ReadConcat(a[1..], b, if a[0].Depth? then a[0].depth else d);
    }
  }

  lemma ReadPieces(n: nat, ring: nat, depth: nat, from: nat, to: nat, d: nat)
    requires 0 < n && from < to < from + n
    ensures Read(Pieces(n, ring, depth, from, to, d), d) == Run(ring, depth, from, to)
    ensures EndDepth(Pieces(n, ring, depth, from, to, d), d) == depth
  {
    var words := if from % n < to % n
                 then [Words(ring, from, to - from)]
                 else [Words(ring, from, n - from % n), Words(ring, from + (n - from % n), to % n)];
    Wrap(n, from, to);
    if from % n < to % n {
      assert words[1..] == [];
    } else {
      var mid := from + (n - from % n);
      RunSplit(ring, depth, from, mid, to);
      assert words[1..] == [Words(ring, mid, to % n)];
      assert words[1..][1..] == [];
      assert Read(words[1..], depth) == Run(ring, depth, mid, to);
    }
    assert Read(words, depth) == Run(ring, depth, from, to);
    assert EndDepth(words, depth) == EndDepth(words[1..], depth) == depth;
    ReadConcat([Depth(ring, depth)], words, d);
    assert [Depth(ring, depth)][1..] == [];
    assert [] + words == words;
  }

  /** When a get pass has vectors left after a bracket, a discard pass finishes it. */
  lemma {:induction false} WholeIsSpent(n: nat, b: Bracket, t: Bracket, room: nat, d: nat)
    requires 0 < n && Grown(b, t) && Emit(n, b, room, d).residue > 0
    ensures Spent(Left(n, b, t, room, d))
    decreases b, 1
  {
    WholeSpanIsSpent(n, b.ring, b.depth, b.body, t.body, room, d);
  }

  lemma {:induction false} WholeSpanIsSpent(n: nat, ring: nat, depth: nat, s: Span, t: Span, room: nat, d: nat)
    requires 0 < n && GrownSpan(false, s, t) && EmitSpan(n, ring, depth, s, room, d).residue > 0
    ensures var l := LeftSpan(n, ring, depth, false, s, t, room, d); l.Done? && l.from == l.to
    decreases s, 0
  {
    hide Pieces;
    if s.Cut? {
      var vs := Lead(n, ring, depth, s.from, s.at, room, d).value;
      var e := Emit(n, s.sub, room - |vs|, LeadDepth(depth, s.from, s.at, d));
      WholeIsSpent(n, s.sub, t.sub, room - |vs|, LeadDepth(depth, s.from, s.at, d));
      WholeSpanIsSpent(n, ring, depth, s.rest, t.rest, e.residue, e.depth);
    }
  }

  /** And the bracket has finished, and goes on after its interruptions: the get pass does not
      come past any other. */
  lemma {:induction false} PassedIsWhole(n: nat, b: Bracket, room: nat, d: nat)
    requires 0 < n && Emit(n, b, room, d).residue > 0
    ensures Whole(b)
    decreases b, 1
  {
    PassedSpanIsWhole(n, b.ring, b.depth, b.body, room, d);
  }

  lemma {:induction false} PassedSpanIsWhole(n: nat, ring: nat, depth: nat, s: Span, room: nat, d: nat)
    requires 0 < n && EmitSpan(n, ring, depth, s, room, d).residue > 0
    ensures WholeSpan(s)
    decreases s, 0
  {
    hide Pieces;
    if s.Cut? {
      var vs := Lead(n, ring, depth, s.from, s.at, room, d).value;
      var e := Emit(n, s.sub, room - |vs|, LeadDepth(depth, s.from, s.at, d));
      PassedIsWhole(n, s.sub, room - |vs|, LeadDepth(depth, s.from, s.at, d));
      PassedSpanIsWhole(n, ring, depth, s.rest, e.residue, e.depth);
    }
  }

  /** What the vectors of a get pass carry, read back, followed by what a later discard
      pass leaves, is exactly the bracket as the discard pass found it: no word is
      lost, repeated, reordered, or read under another depth than its ring's. */
  lemma {:induction false} Conservation(n: nat, b: Bracket, t: Bracket, room: nat, d: nat)
    requires 0 < n && Grown(b, t) && Ordered(n, b) && Ordered(n, t)
    ensures var o := Emit(n, b, room, d);
            Flatten(t) == Read(o.vecs, d) + Flatten(Left(n, b, t, room, d)) &&
            EndDepth(o.vecs, d) == o.depth
    decreases b, 1
  {
    ConservationSpan(n, b.ring, b.depth, b.open, b.body, t.body, room, d);
  }

  lemma {:induction false} ConservationSpan(n: nat, ring: nat, depth: nat, open: bool, s: Span, t: Span, room: nat, d: nat)
    requires 0 < n && GrownSpan(open, s, t) && OrderedSpan(n, depth, s) && OrderedSpan(n, depth, t)
    ensures var o := EmitSpan(n, ring, depth, s, room, d);
            FlattenSpan(ring, depth, t) ==
            Read(o.vecs, d) + FlattenSpan(ring, depth, LeftSpan(n, ring, depth, open, s, t, room, d)) &&
            EndDepth(o.vecs, d) == o.depth
    decreases s, 0
  {
    hide Between, Lead, Pieces, Emit, EmitSpan, Left, LeftSpan;
    var lead := if s.Cut? then Lead(n, ring, depth, s.from, s.at, room, d) else None;
    if room == 0 || lead.None? {
      ConservationShort(n, ring, depth, open, s, t, room, d);
    } else {
      var vs, d1 := lead.value, LeadDepth(depth, s.from, s.at, d);
      var e := Emit(n, s.sub, room - |vs|, d1);
      var l := Left(n, s.sub, t.sub, room - |vs|, d1);
      var r, left := Out([], e.residue, e.depth), t.rest;
      var after := FlattenSpan(ring, depth, t.rest);
      if e.residue > 0 {
        r := EmitSpan(n, ring, depth, s.rest, e.residue, e.depth);
        left := LeftSpan(n, ring, depth, open, s.rest, t.rest, e.residue, e.depth);
        ConservationSpan(n, ring, depth, open, s.rest, t.rest, e.residue, e.depth);
        WholeIsSpent(n, s.sub, t.sub, room - |vs|, d1);
      } else {
        ReadNil(e.depth);
        assert Read(r.vecs, e.depth) + after == after;
        assert vs + e.vecs + r.vecs == vs + e.vecs;
      }
      ReadLead(n, ring, depth, s.from, s.at, room, d);
      Conservation(n, s.sub, t.sub, room - |vs|, d1);
      EmitCut(n, ring, depth, s, room, d, vs, e, r);
      LeftCut(n, ring, depth, open, s, t, room, d, vs, e, l, left);
      ConservationCut(ring, depth, t, vs, e, l, r, left, d, d1);
      assert EmitSpan(n, ring, depth, s, room, d).vecs == vs + e.vecs + r.vecs;
    }
  }

  lemma ReadNil(d: nat)
    ensures Read([], d) == [] && EndDepth([], d) == d
  {
  }

  lemma LeftCut(n: nat, ring: nat, depth: nat, open: bool, s: Span, t: Span, room: nat, d: nat,
                vs: seq<Vec>, e: Out, l: Bracket, left: Span)
    requires 0 < n && 0 < room && s.Cut? && GrownSpan(open, s, t)
    requires Lead(n, ring, depth, s.from, s.at, room, d) == Some(vs)
    requires e == Emit(n, s.sub, room - |vs|, LeadDepth(depth, s.from, s.at, d))
    requires l == Left(n, s.sub, t.sub, room - |vs|, LeadDepth(depth, s.from, s.at, d))
    requires left == if e.residue > 0 then LeftSpan(n, ring, depth, open, s.rest, t.rest, e.residue, e.depth) else t.rest
    ensures LeftSpan(n, ring, depth, open, s, t, room, d) == if Spent(l) then left else Cut(s.at, s.at, l, t.rest)
  {
  }

  lemma ConservationShort(n: nat, ring: nat, depth: nat, open: bool, s: Span, t: Span, room: nat, d: nat)
    requires 0 < n && GrownSpan(open, s, t) && OrderedSpan(n, depth, s) && OrderedSpan(n, depth, t)
    requires room == 0 || s.Done? || Lead(n, ring, depth, s.from, s.at, room, d).None?
    ensures var o := EmitSpan(n, ring, depth, s, room, d);
            FlattenSpan(ring, depth, t) ==
            Read(o.vecs, d) + FlattenSpan(ring, depth, LeftSpan(n, ring, depth, open, s, t, room, d)) &&
            EndDepth(o.vecs, d) == o.depth
  {
    if room > 0 && s.Done? && Between(n, ring, depth, s.from, s.to, room, d).Some? {
      ReadPieces(n, ring, depth, s.from, s.to, d);
      RunSplit(ring, depth, s.from, s.to, if t.Done? then t.to else t.at);
    }
  }

  /** The inductive step of ConservationSpan at an interruption: `e` and `l` are what the
      get and discard passes make of the interruption, `r` and `left` what they make
      of the rest. */
  lemma ConservationCut(ring: nat, depth: nat, t: Span, vs: seq<Vec>, e: Out, l: Bracket, r: Out, left: Span, d: nat, d1: nat)
    requires t.Cut? && l.ring == t.sub.ring && l.depth == t.sub.depth
    requires Read(vs, d) == Run(ring, depth, t.from, t.at) && EndDepth(vs, d) == d1
    requires Flatten(t.sub) == Read(e.vecs, d1) + Flatten(l) && EndDepth(e.vecs, d1) == e.depth
    requires FlattenSpan(ring, depth, t.rest) == Read(r.vecs, e.depth) + FlattenSpan(ring, depth, left)
    requires EndDepth(r.vecs, e.depth) == r.depth
    ensures Spent(l) ==> FlattenSpan(ring, depth, t) == Read(vs + e.vecs + r.vecs, d) + FlattenSpan(ring, depth, left)
    ensures FlattenSpan(ring, depth, t) == Read(vs + e.vecs, d) + FlattenSpan(ring, depth, Cut(t.at, t.at, l, t.rest))
    ensures EndDepth(vs + e.vecs + r.vecs, d) == r.depth && EndDepth(vs + e.vecs, d) == e.depth
  {
    ReadConcat(vs, e.vecs, d);
    ReadConcat(vs + e.vecs, r.vecs, d);
    FlattenCut(ring, depth, t, l);
    FlattenSpent(l);
    hide FlattenSpan, Flatten, Read, EndDepth, Spent, Run;
    Splice(Run(ring, depth, t.from, t.at), Read(e.vecs, d1), Flatten(l), FlattenSpan(ring, depth, t.rest),
           Read(r.vecs, e.depth), FlattenSpan(ring, depth, left));
  }

  lemma FlattenSpent(b: Bracket)
    ensures Spent(b) ==> Flatten(b) == []
  {
  }

  lemma FlattenCut(ring: nat, depth: nat, t: Span, l: Bracket)
    requires t.Cut?
    ensures FlattenSpan(ring, depth, t) == Run(ring, depth, t.from, t.at) + Flatten(t.sub) + FlattenSpan(ring, depth, t.rest)
    ensures FlattenSpan(ring, depth, Cut(t.at, t.at, l, t.rest)) == Flatten(l) + FlattenSpan(ring, depth, t.rest)
  {
    assert Run(ring, depth, t.at, t.at) == [];
    assert [] + Flatten(l) == Flatten(l);
  }

  lemma Splice(here: seq<Slot>, inner: seq<Slot>, kept: seq<Slot>, after: seq<Slot>, out: seq<Slot>, left: seq<Slot>)
    ensures here + (inner + kept) + after == (here + inner) + (kept + after)
    ensures kept == [] && after == out + left ==> here + (inner + kept) + after == (here + inner + out) + left
  {
  }

  lemma ReadLead(n: nat, ring: nat, depth: nat, from: nat, at: nat, room: nat, d: nat)
    requires 0 < n && from <= at < from + n && Lead(n, ring, depth, from, at, room, d).Some?
    ensures var vs := Lead(n, ring, depth, from, at, room, d).value;
            Read(vs, d) == Run(ring, depth, from, at) && EndDepth(vs, d) == LeadDepth(depth, from, at, d)
  {
    if from < at { ReadPieces(n, ring, depth, from, at, d); }
  }

  // ---- chunks ----------------------------------------------------------------

  /** The vectors for a list of chunks, one after the other. */
  function PiecesAll(n: nat, cs: seq<Chunk>, d: nat): seq<Vec>
    requires 0 < n
  {
    if cs == [] then [] else
    Pieces(n, cs[0].ring, cs[0].depth, cs[0].from, cs[0].to, d) + PiecesAll(n, cs[1..], cs[0].depth)
  }

  function LastDepth(cs: seq<Chunk>, d: nat): nat
  {
    if cs == [] then d else cs[|cs| - 1].depth
  }

  lemma {:induction false} PiecesAllConcat(n: nat, a: seq<Chunk>, b: seq<Chunk>, d: nat)
    requires 0 < n
    ensures PiecesAll(n, a + b, d) == PiecesAll(n, a, d) + PiecesAll(n, b, LastDepth(a, d))
  {
    hide Pieces;
    if a == [] {
      assert a + b == b;
    } else {
      assert (a + b)[1..] == a[1..] + b;
      PiecesAllConcat(n, a[1..], b, a[0].depth);
    }
  }

  /** A get pass covers the first `k` chunks of the bracket and covers each of them
      whole: no vector ends inside a chunk. With vectors left over, it covers all. */
  lemma {:induction false} WholeChunks(n: nat, b: Bracket, room: nat, d: nat) returns (k: nat)
    requires 0 < n
    ensures k <= |Chunks(b)|
    ensures Emit(n, b, room, d).vecs == PiecesAll(n, Chunks(b)[..k], d)
    ensures Emit(n, b, room, d).depth == LastDepth(Chunks(b)[..k], d)
    ensures Emit(n, b, room, d).residue > 0 ==> k == |Chunks(b)|
    decreases b, 1
  {
    k := WholeChunksSpan(n, b.ring, b.depth, b.body, room, d);
  }

  lemma {:induction false} WholeChunksSpan(n: nat, ring: nat, depth: nat, s: Span, room: nat, d: nat) returns (k: nat)
    requires 0 < n
    ensures k <= |ChunksSpan(ring, depth, s)|
    ensures EmitSpan(n, ring, depth, s, room, d).vecs == PiecesAll(n, ChunksSpan(ring, depth, s)[..k], d)
    ensures EmitSpan(n, ring, depth, s, room, d).depth == LastDepth(ChunksSpan(ring, depth, s)[..k], d)
    ensures EmitSpan(n, ring, depth, s, room, d).residue > 0 ==> k == |ChunksSpan(ring, depth, s)|
    decreases s, 0
  {
    hide Between, Lead, Pieces, Emit, EmitSpan, PiecesAll;
    var lead := if s.Cut? then Lead(n, ring, depth, s.from, s.at, room, d) else None;
    if room == 0 || lead.None? {
      k := WholeChunksShort(n, ring, depth, s, room, d);
    } else {
      var vs, d1 := lead.value, LeadDepth(depth, s.from, s.at, d);
      PiecesOne(n, ring, depth, s.from, s.at, room, d);
      var e := Emit(n, s.sub, room - |vs|, d1);
      var k1 := WholeChunks(n, s.sub, room - |vs|, d1);
      var k2 := 0;
      var r := Out([], e.residue, e.depth);
      if e.residue > 0 {
        r := EmitSpan(n, ring, depth, s.rest, e.residue, e.depth);
        k2 := WholeChunksSpan(n, ring, depth, s.rest, e.residue, e.depth);
      } else {
        NoChunks(n, ChunksSpan(ring, depth, s.rest), e.depth);
      }
      k := |ChunkOf(ring, depth, s.from, s.at)| + k1 + k2;
      EmitCut(n, ring, depth, s, room, d, vs, e, r);
      WholeChunksCut(n, ring, depth, s, d, vs, d1, e, k1, r, k2);
    }
  }

  lemma NoChunks(n: nat, cs: seq<Chunk>, d: nat)
    requires 0 < n
    ensures PiecesAll(n, cs[..0], d) == [] && LastDepth(cs[..0], d) == d
  {
    assert cs[..0] == [];
  }

  lemma WholeChunksShort(n: nat, ring: nat, depth: nat, s: Span, room: nat, d: nat) returns (k: nat)
    requires 0 < n
    requires room == 0 || s.Done? || Lead(n, ring, depth, s.from, s.at, room, d).None?
    ensures k <= |ChunksSpan(ring, depth, s)|
    ensures EmitSpan(n, ring, depth, s, room, d).vecs == PiecesAll(n, ChunksSpan(ring, depth, s)[..k], d)
    ensures EmitSpan(n, ring, depth, s, room, d).depth == LastDepth(ChunksSpan(ring, depth, s)[..k], d)
    ensures EmitSpan(n, ring, depth, s, room, d).residue > 0 ==> k == |ChunksSpan(ring, depth, s)|
  {
    k := 0;
    if room > 0 && s.Done? && Between(n, ring, depth, s.from, s.to, room, d).Some? {
      k := 1;
      var cs := ChunksSpan(ring, depth, s);
      assert cs[..1] == cs && cs[1..] == [];
    }
  }

  lemma EmitCut(n: nat, ring: nat, depth: nat, s: Span, room: nat, d: nat, vs: seq<Vec>, e: Out, r: Out)
    requires 0 < n && 0 < room && s.Cut?
    requires Lead(n, ring, depth, s.from, s.at, room, d) == Some(vs)
    requires e == Emit(n, s.sub, room - |vs|, LeadDepth(depth, s.from, s.at, d))
    requires r == if e.residue > 0 then EmitSpan(n, ring, depth, s.rest, e.residue, e.depth)
                  else Out([], e.residue, e.depth)
    ensures EmitSpan(n, ring, depth, s, room, d) == Out(vs + e.vecs + r.vecs, r.residue, r.depth)
  {
    hide Between, Pieces, Lead, Emit;
    if e.residue < 0 {
      assert EmitSpan(n, ring, depth, s, room, d) == Prefixed(vs, e);
      assert vs + e.vecs + [] == vs + e.vecs;
    } else {
      var q := EmitSpan(n, ring, depth, s.rest, e.residue, e.depth);
      assert EmitSpan(n, ring, depth, s, room, d) == Prefixed(vs, Prefixed(e.vecs, q));
      assert q == r by {
        if e.residue == 0 { assert q == Out([], 0, e.depth); }
      }
      assert vs + (e.vecs + q.vecs) == vs + e.vecs + q.vecs;
    }
  }

  lemma WholeChunksCut(n: nat, ring: nat, depth: nat, s: Span, d: nat, vs: seq<Vec>, d1: nat, e: Out, k1: nat, r: Out, k2: nat)
    requires 0 < n && s.Cut? && k1 <= |Chunks(s.sub)| && k2 <= |ChunksSpan(ring, depth, s.rest)|
    requires k2 > 0 ==> k1 == |Chunks(s.sub)|
    requires vs == PiecesAll(n, ChunkOf(ring, depth, s.from, s.at), d) && d1 == LeadDepth(depth, s.from, s.at, d)
    requires e.vecs == PiecesAll(n, Chunks(s.sub)[..k1], d1) && e.depth == LastDepth(Chunks(s.sub)[..k1], d1)
    requires r.vecs == PiecesAll(n, ChunksSpan(ring, depth, s.rest)[..k2], e.depth)
    requires r.depth == LastDepth(ChunksSpan(ring, depth, s.rest)[..k2], e.depth)
    ensures var k := |ChunkOf(ring, depth, s.from, s.at)| + k1 + k2;
            k <= |ChunksSpan(ring, depth, s)| &&
            vs + e.vecs + r.vecs == PiecesAll(n, ChunksSpan(ring, depth, s)[..k], d) &&
            r.depth == LastDepth(ChunksSpan(ring, depth, s)[..k], d)
  {
    hide Pieces, PiecesAll;
    CoverSplit(n, ChunkOf(ring, depth, s.from, s.at), Chunks(s.sub), ChunksSpan(ring, depth, s.rest), k1, k2, d);
  }

  lemma PiecesOne(n: nat, ring: nat, depth: nat, from: nat, at: nat, room: nat, d: nat)
    requires 0 < n && Lead(n, ring, depth, from, at, room, d).Some?
    ensures Lead(n, ring, depth, from, at, room, d).value == PiecesAll(n, ChunkOf(ring, depth, from, at), d)
  {
    var first := ChunkOf(ring, depth, from, at);
    assert first != [] ==> first[1..] == [];
  }

  lemma CoverSplit(n: nat, first: seq<Chunk>, inner: seq<Chunk>, after: seq<Chunk>, k1: nat, k2: nat, d: nat)
    requires 0 < n && k1 <= |inner| && k2 <= |after| && (k2 > 0 ==> k1 == |inner|)
    ensures var cover := (first + inner + after)[..|first| + k1 + k2];
            var d1 := LastDepth(first, d);
            var d2 := LastDepth(inner[..k1], d1);
            PiecesAll(n, cover, d) ==
            PiecesAll(n, first, d) + PiecesAll(n, inner[..k1], d1) + PiecesAll(n, after[..k2], d2) &&
            LastDepth(cover, d) == LastDepth(after[..k2], d2)
  {
    hide Pieces, PiecesAll;
    var a, b, c := first, inner[..k1], after[..k2];
    assert (first + inner + after)[..|first| + k1 + k2] == a + b + c;
    PiecesAllConcat(n, a, b, d);
    PiecesAllConcat(n, a + b, c, d);
  }

  // ---- what a discard pass keeps ---------------------------------------------

  /** A bracket from whose front the serializer may have taken words: every bracket
      that it has not reached yet is fresh. */
  predicate Leading(b: Bracket)
    decreases b, 1
  {
    LeadingSpan(b.open, b.body)
  }

  predicate LeadingSpan(open: bool, s: Span)
    decreases s, 0
  {
    match s
    case Done(_, _, _) => true
    case Cut(from, at, sub, rest) =>
      (open || !sub.open) && (if from < at then Fresh(sub) else Leading(sub)) && FreshSpan(open, rest)
  }

  lemma {:induction false} FreshIsLeading(b: Bracket)
    requires Fresh(b)
    ensures Leading(b)
    decreases b, 1
  {
    FreshSpanIsLeading(b.open, b.body);
  }

  lemma {:induction false} FreshSpanIsLeading(open: bool, s: Span)
    requires FreshSpan(open, s)
    ensures LeadingSpan(open, s)
    decreases s, 0
  {
    if s.Cut? { FreshIsLeading(s.sub); }
  }

  /** Of the bracket, and of every interruption in it, there is something to be read, or may be yet. */
  predicate Ripe(b: Bracket)
    decreases b, 1
  {
    (b.body.Done? ==> b.open || b.body.from < b.body.to) && RipeSpan(b.body)
  }

  predicate RipeSpan(s: Span)
    decreases s, 0
  {
    s.Cut? ==> Ripe(s.sub) && RipeSpan(s.rest)
  }

  /** A bracket from whose front the serializer may have taken words: every bracket that it has
      not reached yet is ripe. This is all that the discard pass relies on. */
  predicate Coming(b: Bracket)
    decreases b, 1
  {
    ComingSpan(b.body)
  }

  predicate ComingSpan(s: Span)
    decreases s, 0
  {
    s.Cut? ==> (if s.from < s.at then Ripe(s.sub) else Coming(s.sub)) && RipeSpan(s.rest)
  }

  lemma {:induction false} RipeIsComing(b: Bracket)
    requires Ripe(b)
    ensures Coming(b)
    decreases b, 1
  {
    RipeSpanIsComing(b.body);
  }

  lemma {:induction false} RipeSpanIsComing(s: Span)
    requires RipeSpan(s)
    ensures ComingSpan(s)
    decreases s, 0
  {
    if s.Cut? { RipeIsComing(s.sub); }
  }

  lemma {:induction false} FreshIsRipe(b: Bracket)
    requires Fresh(b)
    ensures Ripe(b)
    decreases b, 1
  {
    FreshSpanIsRipe(b.open, b.body);
  }

  lemma {:induction false} FreshSpanIsRipe(open: bool, s: Span)
    requires FreshSpan(open, s)
    ensures RipeSpan(s)
    decreases s, 0
  {
    if s.Cut? {
      FreshIsRipe(s.sub);
      FreshSpanIsRipe(open, s.rest);
    }
  }

  lemma {:induction false} LeadingIsComing(b: Bracket)
    requires Leading(b)
    ensures Coming(b)
    decreases b, 1
  {
    if b.body.Cut? {
      if b.body.from < b.body.at { FreshIsRipe(b.body.sub); } else { LeadingIsComing(b.body.sub); }
      FreshSpanIsRipe(b.open, b.body.rest);
    }
  }

  /** Every bracket interrupted inside this one is finished. */
  predicate Quiet(s: Span)
  {
    s.Cut? ==> !s.sub.open && Quiet(s.sub.body) && Quiet(s.rest)
  }

  lemma {:induction false} GrownSelf(b: Bracket, n: nat)
    requires Ordered(n, b)
    ensures Grown(b, b)
    decreases b, 1
  {
    GrownSpanSelf(b.open, b.body, n, b.depth);
  }

  lemma {:induction false} GrownSpanSelf(open: bool, s: Span, n: nat, depth: nat)
    requires OrderedSpan(n, depth, s)
    ensures GrownSpan(open, s, s)
    decreases s, 0
  {
    if s.Cut? {
      GrownSelf(s.sub, n);
      GrownSpanSelf(open, s.rest, n, depth);
    }
  }

  /** What a discard pass leaves is again a well-formed bracket. */
  lemma {:induction false} LeftKeeps(n: nat, b: Bracket, t: Bracket, room: nat, d: nat)
    requires 0 < n && Grown(b, t) && Ordered(n, t)
    ensures var l := Left(n, b, t, room, d);
            Ordered(n, l) && (Leading(t) ==> Leading(l)) && (Coming(t) ==> Coming(l)) && (Quiet(t.body) ==> Quiet(l.body))
    decreases b, 1
  {
    LeftSpanKeeps(n, b.ring, b.depth, b.open, t.open, b.body, t.body, room, d);
  }

  lemma {:induction false} LeftSpanKeeps(n: nat, ring: nat, depth: nat, open: bool, open': bool, s: Span, t: Span, room: nat, d: nat)
    requires 0 < n && GrownSpan(open, s, t) && OrderedSpan(n, depth, t)
    ensures var l := LeftSpan(n, ring, depth, open, s, t, room, d);
            OrderedSpan(n, depth, l) && (LeadingSpan(open', t) ==> LeadingSpan(open', l)) &&
            (ComingSpan(t) ==> ComingSpan(l)) && (Quiet(t) ==> Quiet(l))
    decreases s, 0
  {
    hide Pieces, Emit, EmitSpan;
    if t.Cut? {
      if LeadingSpan(open', t) {
        if t.from < t.at { FreshIsLeading(t.sub); }
        FreshSpanIsLeading(open', t.rest);
      }
      if ComingSpan(t) {
        if t.from < t.at { RipeIsComing(t.sub); }
        RipeSpanIsComing(t.rest);
      }
    }
    if room > 0 && s.Cut? {
      var lead := Lead(n, ring, depth, s.from, s.at, room, d);
      if lead.Some? {
        var d1 := LeadDepth(depth, s.from, s.at, d);
        var e := Emit(n, s.sub, room - |lead.value|, d1);
        LeftKeeps(n, s.sub, t.sub, room - |lead.value|, d1);
        if e.residue >= 0 {
          LeftSpanKeeps(n, ring, depth, open, open', s.rest, t.rest, e.residue, e.depth);
        }
      }
    }
  }

  // ---- dropping drained brackets, and draining the tree ----------------------

  /** rvp_ring_drop_empties on a bracket: what remains of it, and whether the pass
      found it to be empty. */
  function Drop(b: Bracket): (r: (Bracket, bool))
    ensures r.0.ring == b.ring && r.0.depth == b.depth && r.0.open == b.open
    decreases b, 1
  {
    var r := DropSpan(b.open, b.body);
    (b.(body := r.0), r.1)
  }

  function DropSpan(open: bool, s: Span): (Span, bool)
    decreases s, 0
  {
    match s
    case Done(from, to, more) => (s, !more && from == to && !open)
    case Cut(from, at, sub, rest) =>
      if from < at then (s, false) else
      var r := Drop(sub);
      if r.1 then DropSpan(open, rest) else (Cut(from, at, r.0, rest), false)
  }

  /** The pass meets, before any word, a finished bracket of which nothing is left but
      whose ring already has an interruption recorded after it.
      rvp_ring_drop_empties takes that later interruption for a reason to stop. */
  predicate Stuck(s: Span)
  {
    s.Cut? && s.from == s.at && ((Spent(s.sub) && s.sub.body.more) || Stuck(s.sub.body))
  }

  lemma {:induction false} FreshIsNotStuck(open: bool, s: Span)
    requires FreshSpan(open, s)
    ensures !Stuck(s)
    decreases s
  {
    if s.Cut? { FreshIsNotStuck(s.sub.open, s.sub.body); }
  }

  lemma {:induction false} DropKeeps(n: nat, b: Bracket)
    requires Ordered(n, b)
    ensures Ordered(n, Drop(b).0) && Flatten(Drop(b).0) == Flatten(b)
    ensures (Leading(b) ==> Leading(Drop(b).0)) && (Coming(b) ==> Coming(Drop(b).0))
    ensures Drop(b).1 ==> !b.open && Flatten(b) == [] && Spent(Drop(b).0)
    ensures Quiet(b.body) ==> Quiet(Drop(b).0.body)
    decreases b, 1
  {
    DropSpanKeeps(n, b.ring, b.depth, b.open, b.body);
  }

  lemma {:induction false} DropSpanKeeps(n: nat, ring: nat, depth: nat, open: bool, s: Span)
    requires OrderedSpan(n, depth, s)
    ensures var r := DropSpan(open, s);
            OrderedSpan(n, depth, r.0) && r.0.from == s.from &&
            (LeadingSpan(open, s) ==> LeadingSpan(open, r.0)) && (ComingSpan(s) ==> ComingSpan(r.0)) &&
            FlattenSpan(ring, depth, r.0) == FlattenSpan(ring, depth, s) &&
            (r.1 ==> !open && FlattenSpan(ring, depth, s) == [] && r.0.Done? && r.0.from == r.0.to) &&
            (Quiet(s) ==> Quiet(r.0))
    decreases s, 0
  {
    if s.Cut? && s.from == s.at {
      DropKeeps(n, s.sub);
      FlattenCut(ring, depth, s, s.sub);
      FlattenCut(ring, depth, s, Drop(s.sub).0);
      if Drop(s.sub).1 {
        if LeadingSpan(open, s) { FreshSpanIsLeading(open, s.rest); }
        if ComingSpan(s) { RipeSpanIsComing(s.rest); }
        DropSpanKeeps(n, ring, depth, open, s.rest);
      }
    }
  }

  /** With room for a change of depth and a wrapped chunk, a get pass that follows a
      drop pass takes something from every quiet bracket that is not stuck and that
      holds anything at all. */
  lemma {:induction false} FrontMoves(n: nat, ring: nat, depth: nat, open: bool, s: Span, room: nat, d: nat)
    requires 0 < n && 3 <= room
    requires OrderedSpan(n, depth, s) && LeadingSpan(open, s) && Quiet(s) && !Stuck(s)
    ensures var s' := DropSpan(open, s).0;
            !Stuck(s') && ((s'.Done? && s'.from == s'.to) || EmitSpan(n, ring, depth, s', room, d).vecs != [])
    decreases s
  {
    if s.Cut? && s.from == s.at {
      var sub := s.sub;
      FrontMoves(n, sub.ring, sub.depth, sub.open, sub.body, room, d);
      if Drop(sub).1 {
        FreshSpanIsLeading(open, s.rest);
        FreshIsNotStuck(open, s.rest);
        FrontMoves(n, ring, depth, open, s.rest, room, d);
      } else if !sub.open && sub.body.Cut? {
        DropFreshTail(sub.open, sub.body);
      }
    }
  }

  /** A finished bracket that a drop pass does not find empty is not spent after it,
      unless it was already. */
  lemma {:induction false} DropFreshTail(open: bool, s: Span)
    requires LeadingSpan(open, s) && !open && s.Cut?
    ensures var s' := DropSpan(open, s).0; !(s'.Done? && s'.from == s'.to)
    decreases s
  {
    if s.from >= s.at && Drop(s.sub).1 {
      assert DropSpan(open, s).0 == DropSpan(open, s.rest).0;
      if s.rest.Cut? {
        FreshSpanIsLeading(open, s.rest);
        DropFreshTail(open, s.rest);
      } else {
        assert FreshSpan(open, s.rest);
        assert DropSpan(open, s.rest).0 == s.rest;
      }
    }
  }

  lemma {:induction false} StuckStays(n: nat, ring: nat, depth: nat, open: bool, s: Span, room: nat, d: nat)
    requires 0 < n && Stuck(s)
    ensures !DropSpan(open, s).1 && Stuck(DropSpan(open, s).0)
    ensures EmitSpan(n, ring, depth, DropSpan(open, s).0, room, d).vecs == []
    decreases s
  {
    hide Pieces;
    var sub := s.sub;
    if Spent(sub) && sub.body.more {
      assert Drop(sub) == (sub, false);
    } else {
      StuckStays(n, sub.ring, sub.depth, sub.open, sub.body, room, d);
    }
    assert DropSpan(open, s) == (Cut(s.from, s.at, Drop(sub).0, s.rest), false);
    EmitStuck(n, ring, depth, DropSpan(open, s).0, room, d);
  }

  lemma {:induction false} EmitStuck(n: nat, ring: nat, depth: nat, s: Span, room: nat, d: nat)
    requires 0 < n && Stuck(s)
    ensures EmitSpan(n, ring, depth, s, room, d).vecs == []
    ensures room > 0 ==> EmitSpan(n, ring, depth, s, room, d).residue == -1
    decreases s
  {
    hide Pieces;
    if Stuck(s.sub.body) {
      EmitStuck(n, s.sub.ring, s.sub.depth, s.sub.body, room, d);
    }
  }

  lemma {:induction false} LeftIsNotStuck(n: nat, ring: nat, depth: nat, open: bool, open': bool, s: Span, t: Span, room: nat, d: nat)
    requires 0 < n && GrownSpan(open, s, t) && OrderedSpan(n, depth, t) && LeadingSpan(open', t) && !Stuck(t)
    ensures !Stuck(LeftSpan(n, ring, depth, open, s, t, room, d))
    decreases s
  {
    hide Between, Pieces, Lead, Emit, EmitSpan, Left, LeftSpan;
    if t.Cut? {
      if t.from < t.at { FreshIsNotStuck(t.sub.open, t.sub.body); FreshIsLeading(t.sub); }
      FreshIsNotStuck(open', t.rest);
      FreshSpanIsLeading(open', t.rest);
    }
    var lead := if s.Cut? then Lead(n, ring, depth, s.from, s.at, room, d) else None;
    if room == 0 || lead.None? {
      LeftShort(n, ring, depth, open, s, t, room, d);
    } else {
      var vs, d1 := lead.value, LeadDepth(depth, s.from, s.at, d);
      var e, l := Emit(n, s.sub, room - |vs|, d1), Left(n, s.sub, t.sub, room - |vs|, d1);
      var left := t.rest;
      LeftIsNotStuck(n, s.sub.ring, s.sub.depth, s.sub.open, t.sub.open, s.sub.body, t.sub.body, room - |vs|, d1);
      LeftBody(n, s.sub, t.sub, room - |vs|, d1);
      if e.residue > 0 {
        left := LeftSpan(n, ring, depth, open, s.rest, t.rest, e.residue, e.depth);
        LeftIsNotStuck(n, ring, depth, open, open', s.rest, t.rest, e.residue, e.depth);
      }
      LeftCut(n, ring, depth, open, s, t, room, d, vs, e, l, left);
    }
  }

  lemma LeftShort(n: nat, ring: nat, depth: nat, open: bool, s: Span, t: Span, room: nat, d: nat)
    requires 0 < n && GrownSpan(open, s, t)
    requires room == 0 || s.Done? || Lead(n, ring, depth, s.from, s.at, room, d).None?
    ensures var l := LeftSpan(n, ring, depth, open, s, t, room, d);
            l == t || (s.Done? && s.from < s.to && l == Advanced(t, s.to))
  {
    hide Pieces;
  }

  lemma LeftBody(n: nat, b: Bracket, t: Bracket, room: nat, d: nat)
    requires 0 < n && Grown(b, t)
    ensures Left(n, b, t, room, d).body == LeftSpan(n, b.ring, b.depth, b.open, b.body, t.body, room, d)
  {
    hide LeftSpan;
  }

  /** A get pass that fills any vector takes at least one word. */
  lemma {:induction false} EmitMoves(n: nat, ring: nat, depth: nat, s: Span, room: nat, d: nat)
    requires 0 < n && OrderedSpan(n, depth, s)
    ensures var vecs := EmitSpan(n, ring, depth, s, room, d).vecs; vecs != [] ==> Read(vecs, d) != []
    decreases s
  {
    hide Between, Pieces, Lead, Emit, EmitSpan;
    var lead := if s.Cut? then Lead(n, ring, depth, s.from, s.at, room, d) else None;
    if room == 0 || lead.None? {
      EmitMovesShort(n, ring, depth, s, room, d);
    } else {
      var vs, d1 := lead.value, LeadDepth(depth, s.from, s.at, d);
      var e := Emit(n, s.sub, room - |vs|, d1);
      var r := if e.residue > 0 then EmitSpan(n, ring, depth, s.rest, e.residue, e.depth) else Out([], e.residue, e.depth);
      EmitMoves(n, s.sub.ring, s.sub.depth, s.sub.body, room - |vs|, d1);
      EmitMoves(n, ring, depth, s.rest, if e.residue > 0 then e.residue else 0, e.depth);
      EmitCut(n, ring, depth, s, room, d, vs, e, r);
      ReadLead(n, ring, depth, s.from, s.at, room, d);
      LeadEmpty(n, ring, depth, s.from, s.at, room, d);
      EmitBody(n, s.sub, room - |vs|, d1);
      Conserved(n, s.sub, room - |vs|, d1);
      MovesJoin(vs, e.vecs, r.vecs, d, d1, e.depth);
    }
  }

  lemma MovesJoin(a: seq<Vec>, b: seq<Vec>, c: seq<Vec>, d: nat, d1: nat, d2: nat)
    requires EndDepth(a, d) == d1 && EndDepth(b, d1) == d2
    requires (a != [] ==> Read(a, d) != []) && (b != [] ==> Read(b, d1) != []) && (c != [] ==> Read(c, d2) != [])
    ensures a + b + c != [] ==> Read(a + b + c, d) != []
  {
    hide Read, EndDepth;
    ReadConcat(a, b, d);
    ReadConcat(a + b, c, d);
  }

  lemma EmitBody(n: nat, b: Bracket, room: nat, d: nat)
    requires 0 < n
    ensures Emit(n, b, room, d).vecs == EmitSpan(n, b.ring, b.depth, b.body, room, d).vecs
  {
    hide EmitSpan;
  }

  lemma Conserved(n: nat, b: Bracket, room: nat, d: nat)
    requires 0 < n && Ordered(n, b)
    ensures EndDepth(Emit(n, b, room, d).vecs, d) == Emit(n, b, room, d).depth
  {
    GrownSelf(b, n);
    Conservation(n, b, b, room, d);
  }

  lemma LeadEmpty(n: nat, ring: nat, depth: nat, from: nat, at: nat, room: nat, d: nat)
    requires 0 < n
    ensures var r := Lead(n, ring, depth, from, at, room, d);
            r.Some? && r.value != [] ==> Run(ring, depth, from, at) != []
  {
  }

  lemma EmitMovesShort(n: nat, ring: nat, depth: nat, s: Span, room: nat, d: nat)
    requires 0 < n && OrderedSpan(n, depth, s)
    requires room == 0 || s.Done? || Lead(n, ring, depth, s.from, s.at, room, d).None?
    ensures var vecs := EmitSpan(n, ring, depth, s, room, d).vecs; vecs != [] ==> Read(vecs, d) != []
  {
    if room > 0 && s.Done? && Between(n, ring, depth, s.from, s.to, room, d).Some? {
      ReadPieces(n, ring, depth, s.from, s.to, d);
    }
  }

  // ---- single steps of the get loop, for the module Serializer -----------------

  lemma EmitStep(n: nat, ring: nat, depth: nat, s: Span, room: nat, d: nat, vs: seq<Vec>, e: Out)
    requires 0 < n && 0 < room && s.Cut? && Lead(n, ring, depth, s.from, s.at, room, d) == Some(vs)
    requires e == Emit(n, s.sub, room - |vs|, LeadDepth(depth, s.from, s.at, d))
    ensures e.residue < 0 ==> EmitSpan(n, ring, depth, s, room, d) == Out(vs + e.vecs, -1, e.depth)
    ensures e.residue >= 0 ==>
              var r := EmitSpan(n, ring, depth, s.rest, e.residue, e.depth);
              EmitSpan(n, ring, depth, s, room, d) == Out(vs + e.vecs + r.vecs, r.residue, r.depth)
  {
    hide Pieces;
    if e.residue >= 0 {
      var r := EmitSpan(n, ring, depth, s.rest, e.residue, e.depth);
      assert vs + (e.vecs + r.vecs) == vs + e.vecs + r.vecs;
    }
  }

  lemma EmitNoLead(n: nat, ring: nat, depth: nat, s: Span, room: nat, d: nat)
    requires 0 < n && 0 < room && s.Cut? && Lead(n, ring, depth, s.from, s.at, room, d).None?
    ensures EmitSpan(n, ring, depth, s, room, d) == Out([], -1, d)
  {
    hide Pieces;
  }

  lemma EmitLast(n: nat, ring: nat, depth: nat, s: Span, room: nat, d: nat)
    requires 0 < n && (room == 0 || s.Done?)
    ensures EmitSpan(n, ring, depth, s, room, d) ==
            if room == 0 then Out([], 0, d) else
            match Between(n, ring, depth, s.from, s.to, room, d)
            case None => Out([], -1, d)
            case Some(p) => Out(p, room - |p|, depth)
  {
    hide Pieces, Between;
  }
}
