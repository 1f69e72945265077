/** How far a get pass gets (rvp_ring_get_iovs of llvm/ngrt/serialize.c), said without the pass: what it can see of the
    tree, and that it takes as much of that as there are vectors for, without an idle record. */
module Plans {
  import opened Basics
  import opened EventTree

  // ---- whether a pass takes anything ------------------------------------------------------

  /** The first thing on the way through a bracket is a word. */
  predicate FirstIsWord(s: Span)
  {
    match s
    case Done(from, to, _) => from < to
    case Cut(from, at, sub, _) => from < at || FirstIsWord(sub.body)
  }

  lemma {:induction false} WholeFirst(s: Span)
    requires WholeSpan(s)
    ensures FirstIsWord(s)
    decreases s
  {
    if s.Cut? && s.from >= s.at { WholeFirst(s.sub.body); }
  }

  /** With room for a change of depth and a wrapped chunk, a get pass fills a vector if and only if the first thing on its
      way is a word. */
  lemma {:induction false} PlanBegins(n: nat, ring: nat, depth: nat, s: Span, room: nat, d: nat)
    requires 0 < n && 3 <= room && OrderedSpan(n, depth, s)
    ensures EmitSpan(n, ring, depth, s, room, d).vecs != [] <==> FirstIsWord(s)
    decreases s
  {
    hide Emit, EmitSpan, Lead, Between, Pieces;
    if s.Done? {
      EmitLast(n, ring, depth, s, room, d);
      PiecesAreFew(n, ring, depth, s.from, s.to, room, d);
    } else if s.from < s.at {
      PiecesAreFew(n, ring, depth, s.from, s.at, room, d);
      LeadBegins(n, ring, depth, s, room, d);
    } else {
      var sub := s.sub;
      NoLead(n, ring, depth, s.from, s.at, room, d);
      PlanBegins(n, sub.ring, sub.depth, sub.body, room, d);
      EmitBody(n, sub, room, d);
      var e := Emit(n, sub, room, d);
      EmitStep(n, ring, depth, s, room, d, [], e);
      if !FirstIsWord(sub.body) && e.residue >= 0 {
        PassedIsWhole(n, sub, room, d);
        WholeFirst(sub.body);
        assert false;
      }
    }
  }

  lemma PiecesAreFew(n: nat, ring: nat, depth: nat, from: nat, to: nat, room: nat, d: nat)
    requires 0 < n && 3 <= room
    ensures Between(n, ring, depth, from, to, room, d).Some? <==> from < to
    ensures from < to ==> Between(n, ring, depth, from, to, room, d).value != []
  {
  }

  lemma NoLead(n: nat, ring: nat, depth: nat, from: nat, at: nat, room: nat, d: nat)
    requires 0 < n && from >= at
    ensures Lead(n, ring, depth, from, at, room, d) == Some([]) && LeadDepth(depth, from, at, d) == d
  {
  }

  lemma LeadBegins(n: nat, ring: nat, depth: nat, s: Span, room: nat, d: nat)
    requires 0 < n && 0 < room && s.Cut? && s.from < s.at
    requires Between(n, ring, depth, s.from, s.at, room, d).Some? && Between(n, ring, depth, s.from, s.at, room, d).value != []
    ensures EmitSpan(n, ring, depth, s, room, d).vecs != []
  {
    hide Between, Pieces, Emit, EmitSpan;
    var vs := Lead(n, ring, depth, s.from, s.at, room, d).value;
    var e := Emit(n, s.sub, room - |vs|, LeadDepth(depth, s.from, s.at, d));
    EmitStep(n, ring, depth, s, room, d, vs, e);
  }

  // ---- how much it takes ---------------------------------------------------------------------

  /** What a pass can see: the chunks on its way up to the first bracket that is unfinished, or has no words after its last
      interruption; `stops` if there is such a bracket. */
  datatype View = View(chunks: seq<Chunk>, stops: bool)

  function Met(b: Bracket): View
    decreases b, 1
  {
    var v := MetSpan(b.ring, b.depth, b.body);
    View(v.chunks, b.open || v.stops)
  }

  function MetSpan(ring: nat, depth: nat, s: Span): View
    decreases s, 0
  {
    match s
    case Done(from, to, _) => View(ChunkOf(ring, depth, from, to), from >= to)
    case Cut(from, at, sub, rest) =>
      var v := Met(sub);
      if v.stops then View(ChunkOf(ring, depth, from, at) + v.chunks, true)
      else
        var w := MetSpan(ring, depth, rest);
        View(ChunkOf(ring, depth, from, at) + v.chunks + w.chunks, w.stops)
  }

  /** `vecs` are the vectors for the first `k` chunks; there are no more chunks, or too few vectors for the next. */
  predicate TakesUpTo(n: nat, cs: seq<Chunk>, k: nat, room: nat, d: nat, vecs: seq<Vec>)
    requires 0 < n
  {
    k <= |cs| && vecs == PiecesAll(n, cs[..k], d) && |vecs| <= room &&
    (k < |cs| ==> |vecs| + |Pieces(n, cs[k].ring, cs[k].depth, cs[k].from, cs[k].to, LastDepth(cs[..k], d))| > room)
  }

  /** A get pass takes as many of the chunks that it can see as it has vectors for, and goes on behind the bracket if there
      was no reason to stop in it. */
  lemma {:induction false} PlanIsGreedy(n: nat, b: Bracket, room: nat, d: nat) returns (k: nat)
    requires 0 < n
    ensures TakesUpTo(n, Met(b).chunks, k, room, d, Emit(n, b, room, d).vecs)
    ensures Emit(n, b, room, d).depth == LastDepth(Met(b).chunks[..k], d)
    ensures Emit(n, b, room, d).residue > 0 <==> k == |Met(b).chunks| && |Emit(n, b, room, d).vecs| < room && !Met(b).stops
    decreases b, 1
  {
    k := SpanIsGreedy(n, b.ring, b.depth, b.body, room, d);
  }

  lemma {:induction false} SpanIsGreedy(n: nat, ring: nat, depth: nat, s: Span, room: nat, d: nat) returns (k: nat)
    requires 0 < n
    ensures TakesUpTo(n, MetSpan(ring, depth, s).chunks, k, room, d, EmitSpan(n, ring, depth, s, room, d).vecs)
    ensures EmitSpan(n, ring, depth, s, room, d).depth == LastDepth(MetSpan(ring, depth, s).chunks[..k], d)
    ensures var o := EmitSpan(n, ring, depth, s, room, d);
            o.residue > 0 <==> k == |MetSpan(ring, depth, s).chunks| && |o.vecs| < room && !MetSpan(ring, depth, s).stops
    decreases s, 0
  {
    hide Between, Lead, Pieces, Emit, EmitSpan, PiecesAll, TakesUpTo;
    if room == 0 {
      k := NoneTaken(n, ring, depth, s, d);
    } else if s.Done? {
      k := DoneTaken(n, ring, depth, s, room, d);
    } else if Lead(n, ring, depth, s.from, s.at, room, d).None? {
      k := LeadRefused(n, ring, depth, s, room, d);
    } else {
      var vs, d1 := Lead(n, ring, depth, s.from, s.at, room, d).value, LeadDepth(depth, s.from, s.at, d);
      var e := Emit(n, s.sub, room - |vs|, d1);
      var first, v := ChunkOf(ring, depth, s.from, s.at), Met(s.sub);
      PiecesOne(n, ring, depth, s.from, s.at, room, d);
      var k1 := PlanIsGreedy(n, s.sub, room - |vs|, d1);
      TakesMore(n, first, v.chunks, k1, room, d, vs, e.vecs);
      LastDepths(first, v.chunks, k1, d);
      if e.residue > 0 {
        var k2 := SpanIsGreedy(n, ring, depth, s.rest, e.residue, e.depth);
        k := |first| + k1 + k2;
        GoesOn(n, ring, depth, s, room, d, vs, e, k2);
      } else {
        k := |first| + k1;
        Stops(n, ring, depth, s, room, d, vs, e, k);
      }
    }
  }

  /** The pass goes on behind an interruption that it has taken wholly. */
  lemma GoesOn(n: nat, ring: nat, depth: nat, s: Span, room: nat, d: nat, vs: seq<Vec>, e: Out, k2: nat)
    requires 0 < n && 0 < room && s.Cut? && Lead(n, ring, depth, s.from, s.at, room, d) == Some(vs)
    requires e == Emit(n, s.sub, room - |vs|, LeadDepth(depth, s.from, s.at, d)) && e.residue > 0 && !Met(s.sub).stops
    requires var first := ChunkOf(ring, depth, s.from, s.at) + Met(s.sub).chunks;
             TakesUpTo(n, first, |first|, room, d, vs + e.vecs) && e.depth == LastDepth(first, d)
    requires var r, w := EmitSpan(n, ring, depth, s.rest, e.residue, e.depth), MetSpan(ring, depth, s.rest);
             TakesUpTo(n, w.chunks, k2, e.residue, e.depth, r.vecs) && r.depth == LastDepth(w.chunks[..k2], e.depth) &&
             (r.residue > 0 <==> k2 == |w.chunks| && |r.vecs| < e.residue && !w.stops)
    ensures var o, w := EmitSpan(n, ring, depth, s, room, d), MetSpan(ring, depth, s);
            var k := |ChunkOf(ring, depth, s.from, s.at) + Met(s.sub).chunks| + k2;
            TakesUpTo(n, w.chunks, k, room, d, o.vecs) && o.depth == LastDepth(w.chunks[..k], d) &&
            (o.residue > 0 <==> k == |w.chunks| && |o.vecs| < room && !w.stops)
  {
    hide Between, Lead, Pieces, Emit, EmitSpan, PiecesAll, TakesUpTo, LastDepth, Met, ChunkOf;
    var first, r, w := ChunkOf(ring, depth, s.from, s.at) + Met(s.sub).chunks, EmitSpan(n, ring, depth, s.rest, e.residue, e.depth), MetSpan(ring, depth, s.rest);
    EmitCut(n, ring, depth, s, room, d, vs, e, r);
    TakesAfter(n, first, w.chunks, k2, room, d, vs + e.vecs, r.vecs);
    TakenAre(n, w.chunks, k2, e.residue, e.depth, r.vecs);
    LastDepths(first, w.chunks, k2, d);
  }

  /** Or stops there. */
  lemma Stops(n: nat, ring: nat, depth: nat, s: Span, room: nat, d: nat, vs: seq<Vec>, e: Out, k: nat)
    requires 0 < n && 0 < room && s.Cut? && Lead(n, ring, depth, s.from, s.at, room, d) == Some(vs)
    requires e == Emit(n, s.sub, room - |vs|, LeadDepth(depth, s.from, s.at, d)) && e.residue <= 0
    requires var first := ChunkOf(ring, depth, s.from, s.at) + Met(s.sub).chunks;
             TakesUpTo(n, first, k, room, d, vs + e.vecs) && e.depth == LastDepth(first[..k], d) &&
             (k == |first| && !Met(s.sub).stops ==> |vs + e.vecs| == room)
    ensures var o, w := EmitSpan(n, ring, depth, s, room, d), MetSpan(ring, depth, s);
            TakesUpTo(n, w.chunks, k, room, d, o.vecs) && o.depth == LastDepth(w.chunks[..k], d) &&
            o.residue <= 0 && !(k == |w.chunks| && |o.vecs| < room && !w.stops)
  {
    hide Between, Lead, Pieces, Emit, EmitSpan, PiecesAll, TakesUpTo, LastDepth, Met, ChunkOf;
    var first, w := ChunkOf(ring, depth, s.from, s.at) + Met(s.sub).chunks, MetSpan(ring, depth, s.rest);
    EmitCut(n, ring, depth, s, room, d, vs, e, Out([], e.residue, e.depth));
    assert vs + e.vecs + [] == vs + e.vecs;
    TakenAre(n, first, k, room, d, vs + e.vecs);
    if !Met(s.sub).stops {
      MetAreChunks(ring, depth, s.rest);
      TakesNoMore(n, first, w.chunks, k, room, d, vs + e.vecs);
      LastDepthsPrefix(first, w.chunks, k, d);
    }
  }

  lemma TakenAre(n: nat, cs: seq<Chunk>, k: nat, room: nat, d: nat, vecs: seq<Vec>)
    requires 0 < n && TakesUpTo(n, cs, k, room, d, vecs)
    ensures k <= |cs| && |vecs| <= room
  {
  }

  lemma NoneTaken(n: nat, ring: nat, depth: nat, s: Span, d: nat) returns (k: nat)
    requires 0 < n
    ensures TakesUpTo(n, MetSpan(ring, depth, s).chunks, k, 0, d, EmitSpan(n, ring, depth, s, 0, d).vecs)
    ensures EmitSpan(n, ring, depth, s, 0, d) == Out([], 0, d) && LastDepth(MetSpan(ring, depth, s).chunks[..k], d) == d
  {
    hide MetSpan;
    k := 0;
    var cs := MetSpan(ring, depth, s).chunks;
    assert cs[..0] == [];
    MetAreChunks(ring, depth, s);
    if cs != [] { assert cs[0].from < cs[0].to; }
  }

  /** No chunk is empty. */
  lemma {:induction false} MetAreChunks(ring: nat, depth: nat, s: Span)
    ensures forall c | c in MetSpan(ring, depth, s).chunks :: c.from < c.to
    decreases s
  {
    if s.Cut? {
      MetAreChunks(s.sub.ring, s.sub.depth, s.sub.body);
      MetAreChunks(ring, depth, s.rest);
    }
  }

  lemma DoneTaken(n: nat, ring: nat, depth: nat, s: Span, room: nat, d: nat) returns (k: nat)
    requires 0 < n && 0 < room && s.Done?
    ensures TakesUpTo(n, MetSpan(ring, depth, s).chunks, k, room, d, EmitSpan(n, ring, depth, s, room, d).vecs)
    ensures EmitSpan(n, ring, depth, s, room, d).depth == LastDepth(MetSpan(ring, depth, s).chunks[..k], d)
    ensures var o := EmitSpan(n, ring, depth, s, room, d);
            o.residue > 0 <==> k == |MetSpan(ring, depth, s).chunks| && |o.vecs| < room && !MetSpan(ring, depth, s).stops
  {
    hide Pieces;
    EmitLast(n, ring, depth, s, room, d);
    var cs := MetSpan(ring, depth, s).chunks;
    assert cs[..0] == [] && cs[..|cs|] == cs;
    if cs != [] {
      assert cs[1..] == [] && cs[..1] == cs;
      assert PiecesAll(n, cs, d) == Pieces(n, ring, depth, s.from, s.to, d) + PiecesAll(n, cs[1..], depth);
    }
    k := if Between(n, ring, depth, s.from, s.to, room, d).Some? then 1 else 0;
  }

  lemma LeadRefused(n: nat, ring: nat, depth: nat, s: Span, room: nat, d: nat) returns (k: nat)
    requires 0 < n && 0 < room && s.Cut? && Lead(n, ring, depth, s.from, s.at, room, d).None?
    ensures TakesUpTo(n, MetSpan(ring, depth, s).chunks, k, room, d, EmitSpan(n, ring, depth, s, room, d).vecs)
    ensures EmitSpan(n, ring, depth, s, room, d).depth == LastDepth(MetSpan(ring, depth, s).chunks[..k], d)
    ensures k < |MetSpan(ring, depth, s).chunks| && EmitSpan(n, ring, depth, s, room, d).residue <= 0
  {
    hide Pieces;
    EmitNoLead(n, ring, depth, s, room, d);
    k := 0;
    var cs := MetSpan(ring, depth, s).chunks;
    assert cs[..0] == [] && cs[0] == Chunk(ring, depth, s.from, s.at);
  }

  /** All of the first chunks are taken, and some of those after them. */
  lemma TakesMore(n: nat, first: seq<Chunk>, cs: seq<Chunk>, k: nat, room: nat, d: nat, vs: seq<Vec>, vecs: seq<Vec>)
    requires 0 < n && vs == PiecesAll(n, first, d) && |vs| <= room && TakesUpTo(n, cs, k, room - |vs|, LastDepth(first, d), vecs)
    ensures TakesUpTo(n, first + cs, |first| + k, room, d, vs + vecs)
  {
    hide Pieces, PiecesAll;
    assert (first + cs)[..|first| + k] == first + cs[..k];
    PiecesAllConcat(n, first, cs[..k], d);
    LastDepths(first, cs, k, d);
  }

  lemma TakesAfter(n: nat, first: seq<Chunk>, cs: seq<Chunk>, k: nat, room: nat, d: nat, vs: seq<Vec>, vecs: seq<Vec>)
    requires 0 < n && TakesUpTo(n, first, |first|, room, d, vs) && TakesUpTo(n, cs, k, room - |vs|, LastDepth(first, d), vecs)
    ensures TakesUpTo(n, first + cs, |first| + k, room, d, vs + vecs)
  {
    hide Pieces, PiecesAll;
    assert first[..|first|] == first;
    TakesMore(n, first, cs, k, room, d, vs, vecs);
  }

  /** Nothing is taken of the chunks after those that were not all taken, or filled all vectors. */
  lemma TakesNoMore(n: nat, first: seq<Chunk>, cs: seq<Chunk>, k: nat, room: nat, d: nat, vecs: seq<Vec>)
    requires 0 < n && TakesUpTo(n, first, k, room, d, vecs) && (k == |first| ==> |vecs| == room)
    requires forall c | c in cs :: c.from < c.to
    ensures TakesUpTo(n, first + cs, k, room, d, vecs)
  {
    hide PiecesAll;
    assert (first + cs)[..k] == first[..k];
    if k == |first| && cs != [] {
      assert (first + cs)[k] == cs[0];
      assert cs[0] in cs;
    }
  }

  lemma LastDepths(first: seq<Chunk>, cs: seq<Chunk>, k: nat, d: nat)
    requires k <= |cs|
    ensures LastDepth((first + cs)[..|first| + k], d) == LastDepth(cs[..k], LastDepth(first, d))
  {
    assert (first + cs)[..|first| + k] == first + cs[..k];
  }

  lemma LastDepthsPrefix(first: seq<Chunk>, cs: seq<Chunk>, k: nat, d: nat)
    requires k <= |first|
    ensures LastDepth((first + cs)[..k], d) == LastDepth(first[..k], d)
  {
    assert (first + cs)[..k] == first[..k];
  }

  // ---- no idle record ----------------------------------------------------------------------------

  /** Every vector for a change of depth changes it. */
  predicate TightVecs(vecs: seq<Vec>, d: nat)
  {
    vecs == [] ||
    match vecs[0]
    case Depth(_, depth) => depth != d && TightVecs(vecs[1..], depth)
    case Words(_, _, _) => TightVecs(vecs[1..], d)
  }

  lemma {:induction false} VecsConcat(a: seq<Vec>, b: seq<Vec>, d: nat)
    requires TightVecs(a, d) && TightVecs(b, EndDepth(a, d))
    ensures TightVecs(a + b, d)
  {
    if a == [] {
      assert a + b == b;
    } else {
      assert (a + b)[1..] == a[1..] + b;
      VecsConcat(a[1..], b, if a[0].Depth? then a[0].depth else d);
    }
  }

  lemma PiecesAreTight(n: nat, ring: nat, depth: nat, from: nat, to: nat, d: nat)
    requires 0 < n && from < to
    ensures TightVecs(Pieces(n, ring, depth, from, to, d), d) && EndDepth(Pieces(n, ring, depth, from, to, d), d) == depth
  {
    var words := if from % n < to % n
                 then [Words(ring, from, to - from)]
                 else [Words(ring, from, n - from % n), Words(ring, from + (n - from % n), to % n)];
    assert words[1..] == [] || words[1..][1..] == [];
    assert TightVecs(words[1..], depth) && EndDepth(words[1..], depth) == depth;
    assert TightVecs(words, depth) && EndDepth(words, depth) == depth;
    assert [Depth(ring, depth)][1..] == [] && ([Depth(ring, depth)] + words)[1..] == words;
    assert [] + words == words;
  }

  lemma {:induction false} AllAreTight(n: nat, cs: seq<Chunk>, d: nat)
    requires 0 < n && forall c | c in cs :: c.from < c.to
    ensures TightVecs(PiecesAll(n, cs, d), d)
  {
    hide Pieces;
    if cs != [] {
      assert cs[0] in cs;
      PiecesAreTight(n, cs[0].ring, cs[0].depth, cs[0].from, cs[0].to, d);
      AllAreTight(n, cs[1..], cs[0].depth);
      VecsConcat(Pieces(n, cs[0].ring, cs[0].depth, cs[0].from, cs[0].to, d), PiecesAll(n, cs[1..], cs[0].depth), d);
    }
  }

  /** A get pass fills no vector with a depth that the reader is at already. */
  lemma PlanIsTight(n: nat, b: Bracket, room: nat, d: nat)
    requires 0 < n
    ensures TightVecs(Emit(n, b, room, d).vecs, d)
  {
    hide Pieces, PiecesAll, Emit;
    var k := PlanIsGreedy(n, b, room, d);
    MetAreChunks(b.ring, b.depth, b.body);
    var cs := Met(b).chunks;
    assert forall c | c in cs[..k] :: c in cs;
    AllAreTight(n, cs[..k], d);
  }

  /** The vectors for one chunk: its words in one piece, unless they reach the end of the ring's array; then those up to
      there, and the rest. */
  lemma PiecesFill(n: nat, ring: nat, depth: nat, from: nat, to: nat, d: nat)
    requires 0 < n && from < to < from + n
    ensures var vs := Pieces(n, ring, depth, from, to, d);
            var words := if depth == d then vs else vs[1..];
            var k := to - from;
            (depth != d ==> vs[0] == Depth(ring, depth)) &&
            if from % n + k < n then words == [Words(ring, from, k)]
            else words == [Words(ring, from, n - from % n), Words(ring, from + (n - from % n), k - (n - from % n))]
  {
    Wrap(n, from, to);
    WrapsIf(n, from, to);
    var words := if from % n < to % n
                 then [Words(ring, from, to - from)]
                 else [Words(ring, from, n - from % n), Words(ring, from + (n - from % n), to % n)];
    assert [] + words == words && ([Depth(ring, depth)] + words)[1..] == words;
  }

  lemma WrapsIf(n: nat, from: nat, to: nat)
    requires 0 < n && from < to < from + n
    ensures from % n < to % n <==> from % n + (to - from) < n
  {
    Wrap(n, from, to);
  }
}
