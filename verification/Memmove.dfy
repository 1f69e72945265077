/** The traced copy and fill of llvm/ngrt/str.c, which use the widest accesses that the
    alignment allows, and the plain copy of llvm/ngrt/istr.c that they must agree with. */
module Memmove {
  import opened Basics

  /** A traced access and the bytes it carries; its width is their number. */
  datatype Access = Load(at: nat, bytes: seq<Byte>) | Store(at: nat, bytes: seq<Byte>)

  /** A load followed by a store of the same bytes. */
  datatype Copy = Copy(from: nat, to: nat, bytes: seq<Byte>)

  // ---- memory --------------------------------------------------------------------

  /** Memory with `bytes` written at `at`. */
  function Patch(m: seq<Byte>, at: nat, bytes: seq<Byte>): (r: seq<Byte>)
    requires at + |bytes| <= |m|
    ensures |r| == |m|
  {
    m[..at] + bytes + m[at + |bytes|..]
  }

  /** What a copy must do, whatever the overlap. */
  function Moved(m: seq<Byte>, dst: nat, src: nat, n: nat): (r: seq<Byte>)
    requires dst + n <= |m| && src + n <= |m|
    ensures |r| == |m|
  {
    Patch(m, dst, m[src..src + n])
  }

  lemma PatchUp(m: seq<Byte>, at: nat, a: seq<Byte>, b: seq<Byte>)
    requires at + |a| + |b| <= |m|
    ensures Patch(Patch(m, at, a), at + |a|, b) == Patch(m, at, a + b)
  {
  }

  lemma PatchDown(m: seq<Byte>, at: nat, a: seq<Byte>, b: seq<Byte>)
    requires |b| <= at && at + |a| <= |m|
    ensures Patch(Patch(m, at, a), at - |b|, b) == Patch(m, at - |b|, b + a)
  {
  }

  lemma PatchNothing(m: seq<Byte>, at: nat)
    requires at <= |m|
    ensures Patch(m, at, []) == m
  {
  }

  /** Bytes outside what was written are as before. */
  lemma PatchElsewhere(m: seq<Byte>, at: nat, bytes: seq<Byte>, lo: nat, hi: nat)
    requires at + |bytes| <= |m| && lo <= hi <= |m| && (hi <= at || at + |bytes| <= lo)
    ensures Patch(m, at, bytes)[lo..hi] == m[lo..hi]
  {
  }

  lemma ByteElsewhere(m: seq<Byte>, at: nat, bytes: seq<Byte>, x: nat)
    requires at + |bytes| <= |m| && x < |m| && (x < at || at + |bytes| <= x)
    ensures Patch(m, at, bytes)[x] == m[x]
  {
  }

  lemma MovedInPlace(m: seq<Byte>, at: nat, n: nat)
    requires at + n <= |m|
    ensures Moved(m, at, at, n) == m
  {
  }

  // ---- alignment ---------------------------------------------------------------------

  predicate Aligned(a: int, width: nat)
  {
    width in {1, 2, 4, 8} && a % width == 0
  }

  function RoundDown(n: nat, width: nat): (r: nat)
    requires width in {1, 2, 4, 8}
    ensures r <= n && n - r < width && Aligned(r, width)
  {
    RoundedDown(n, width);
    n - n % width
  }

  lemma RoundedDown(n: nat, width: nat)
    requires width in {1, 2, 4, 8}
    ensures Aligned(n - n % width, width) && 0 <= n % width < width && n % width <= n
  {
    if width == 1 {
    } else if width == 2 {
    } else if width == 4 {
    } else {
      assert width == 8;
    }
  }

  /** Below a multiple of the width there is room for one more. */
  lemma NextWord(a: nat, b: nat, width: nat)
    requires Aligned(a, width) && Aligned(b, width) && a < b
    ensures a + width <= b && Aligned(a + width, width)
  {
    if width == 1 {
    } else if width == 2 {
    } else if width == 4 {
    } else {
      assert width == 8;
    }
  }

  lemma ZeroAligned(width: nat)
    requires width in {1, 2, 4, 8}
    ensures Aligned(0, width)
  {
  }

  lemma StepAligned(a: int, step: int, width: nat)
    requires Aligned(a, width) && (step == width || step == 0 - width)
    ensures Aligned(a + step, width)
  {
    if width == 1 {
    } else if width == 2 {
    } else if width == 4 {
    } else {
      assert width == 8;
    }
  }

  // ---- traces ----------------------------------------------------------------------

  function Expand(cs: seq<Copy>): seq<Access>
  {
    if cs == [] then [] else [Load(cs[0].from, cs[0].bytes), Store(cs[0].to, cs[0].bytes)] + Expand(cs[1..])
  }

  lemma ExpandOne(c: Copy)
    ensures Expand([c]) == [Load(c.from, c.bytes), Store(c.to, c.bytes)]
  {
    assert [c][1..] == [];
  }

  lemma {:induction false} ExpandConcat(a: seq<Copy>, b: seq<Copy>)
    ensures Expand(a + b) == Expand(a) + Expand(b)
  {
    if a == [] {
      assert a + b == b;
    } else {
      assert (a + b)[1..] == a[1..] + b;
      ExpandConcat(a[1..], b);
    }
  }

  /** How many of the stores write address `x`. */
  function Times(cs: seq<Copy>, x: nat): nat
  {
    if cs == [] then 0 else (if cs[0].to <= x < cs[0].to + |cs[0].bytes| then 1 else 0) + Times(cs[1..], x)
  }

  lemma {:induction false} TimesConcat(a: seq<Copy>, b: seq<Copy>, x: nat)
    ensures Times(a + b, x) == Times(a, x) + Times(b, x)
  {
    if a == [] {
      assert a + b == b;
    } else {
      assert (a + b)[1..] == a[1..] + b;
      TimesConcat(a[1..], b, x);
    }
  }

  /** One copy of `width` bytes that belongs to the copy of `n` bytes from `src` to `dst`: it is
      aligned, and it carries what was in memory before anything was copied. */
  predicate GoodCopy(m: seq<Byte>, dst: nat, src: nat, n: nat, c: Copy)
  {
    Aligned(c.from, |c.bytes|) && Aligned(c.to, |c.bytes|) &&
    src <= c.from && c.from + |c.bytes| <= src + n && c.to - dst == c.from - src &&
    c.from + |c.bytes| <= |m| && c.bytes == m[c.from..c.from + |c.bytes|]
  }

  /** The copies are good, and every byte of the destination is written exactly once, and
      nothing else. */
  ghost predicate Covers(m: seq<Byte>, dst: nat, src: nat, n: nat, cs: seq<Copy>)
  {
    (forall i | 0 <= i < |cs| :: GoodCopy(m, dst, src, n, cs[i])) &&
    forall x: nat :: Times(cs, x) == if dst <= x < dst + n then 1 else 0
  }

  lemma CoversNone(m: seq<Byte>, dst: nat, src: nat)
    ensures Covers(m, dst, src, 0, [])
  {
  }

  lemma CoversOne(m: seq<Byte>, dst: nat, src: nat, w: nat)
    requires Aligned(src, w) && Aligned(dst, w) && src + w <= |m|
    ensures Covers(m, dst, src, w, [Copy(src, dst, m[src..src + w])])
  {
    var c := Copy(src, dst, m[src..src + w]);
    assert [c][1..] == [];
    assert forall x: nat :: Times([c], x) == if dst <= x < dst + w then 1 else 0;
  }

  /** Two copies side by side make one; the bytes of each are judged by the memory at hand
      when it began, which for its own source was still the original. */
  lemma CoversBoth(m: seq<Byte>, m': seq<Byte>, dst: nat, src: nat, n: nat, off: nat, len: nat, off': nat, len': nat, a: seq<Copy>, b: seq<Copy>)
    requires Covers(m, dst + off, src + off, len, a) && Covers(m', dst + off', src + off', len', b)
    requires len + len' == n && ((off == 0 && off' == len) || (off' == 0 && off == len'))
    requires src + n <= |m| == |m'| && m'[src + off'..src + off' + len'] == m[src + off'..src + off' + len']
    ensures Covers(m, dst, src, n, a + b)
  {
    forall i | 0 <= i < |a + b|
      ensures GoodCopy(m, dst, src, n, (a + b)[i])
    {
      if i < |a| {
        assert GoodCopy(m, dst + off, src + off, len, a[i]);
      } else {
        var c := b[i - |a|];
        assert GoodCopy(m', dst + off', src + off', len', c);
        SubSlice(m, m', src + off', src + off' + len', c.from, c.from + |c.bytes|);
      }
    }
    forall x: nat
      ensures Times(a + b, x) == if dst <= x < dst + n then 1 else 0
    {
      TimesConcat(a, b, x);
    }
  }

  lemma SubSlice(m: seq<Byte>, m': seq<Byte>, lo: nat, hi: nat, x: nat, y: nat)
    requires lo <= x <= y <= hi <= |m| == |m'| && m[lo..hi] == m'[lo..hi]
    ensures m[x..y] == m'[x..y]
  {
    forall k | x <= k < y
      ensures m[k] == m'[k]
    {
      assert m[k] == m[lo..hi][k - lo] == m'[lo..hi][k - lo];
    }
  }

  // ---- the copy loop's ghost state

  /** Where the part of the copy that is done starts. */
  function Low(n: nat, backwards: bool, ncopied: nat): nat
    requires ncopied <= n
  {
    if backwards then n - ncopied else 0
  }

  /** `ncopied` bytes have been copied, from the top or from the bottom. */
  ghost predicate Copying(m: seq<Byte>, dst: nat, src: nat, n: nat, backwards: bool, ncopied: nat, mem: seq<Byte>, cs: seq<Copy>)
    requires dst + n <= |m| && src + n <= |m| && ncopied <= n
  {
    var lo := Low(n, backwards, ncopied);
    mem == Patch(m, dst + lo, m[src + lo..src + lo + ncopied]) && Covers(m, dst + lo, src + lo, ncopied, cs)
  }

  lemma CopyStarts(m: seq<Byte>, dst: nat, src: nat, n: nat, backwards: bool)
    requires dst + n <= |m| && src + n <= |m|
    ensures Copying(m, dst, src, n, backwards, 0, m, []) && Expand([]) == []
  {
    hide Covers, Patch;
    var lo := Low(n, backwards, 0);
    CoversNone(m, dst + lo, src + lo);
    PatchNothing(m, dst + lo);
    assert m[src + lo..src + lo] == [];
  }

  lemma ExpandMore(cs: seq<Copy>, c: Copy)
    ensures Expand(cs + [c]) == Expand(cs) + [Load(c.from, c.bytes)] + [Store(c.to, c.bytes)]
  {
    hide Expand;
    ExpandConcat(cs, [c]);
    ExpandOne(c);
  }

  lemma StepUp(m: seq<Byte>, dst: nat, src: nat, n: nat, ncopied: nat, cs: seq<Copy>, w: nat, val: seq<Byte>)
    requires dst + n <= |m| && src + n <= |m| && ncopied + w <= n && Aligned(src + ncopied, w) && Aligned(dst + ncopied, w)
    requires Covers(m, dst, src, ncopied, cs) && val == m[src + ncopied..src + ncopied + w]
    ensures Covers(m, dst, src, ncopied + w, cs + [Copy(src + ncopied, dst + ncopied, val)])
    ensures Patch(Patch(m, dst, m[src..src + ncopied]), dst + ncopied, val) == Patch(m, dst, m[src..src + ncopied + w])
  {
    hide Covers, Patch, Aligned;
    CoversOne(m, dst + ncopied, src + ncopied, w);
    CoversBoth(m, m, dst, src, ncopied + w, 0, ncopied, ncopied, w, cs, [Copy(src + ncopied, dst + ncopied, val)]);
    PatchUp(m, dst, m[src..src + ncopied], val);
    assert m[src..src + ncopied] + val == m[src..src + ncopied + w];
  }

  lemma StepDown(m: seq<Byte>, dst: nat, src: nat, n: nat, ncopied: nat, cs: seq<Copy>, w: nat, at: nat, val: seq<Byte>)
    requires dst + n <= |m| && src + n <= |m| && at + w + ncopied == n && Aligned(src + at, w) && Aligned(dst + at, w)
    requires Covers(m, dst + at + w, src + at + w, ncopied, cs) && val == m[src + at..src + at + w]
    ensures Covers(m, dst + at, src + at, ncopied + w, cs + [Copy(src + at, dst + at, val)])
    ensures Patch(Patch(m, dst + at + w, m[src + at + w..src + n]), dst + at, val) == Patch(m, dst + at, m[src + at..src + n])
  {
    hide Covers, Patch, Aligned;
    CoversOne(m, dst + at, src + at, w);
    CoversBoth(m, m, dst + at, src + at, ncopied + w, w, ncopied, 0, w, cs, [Copy(src + at, dst + at, val)]);
    PatchDown(m, dst + at + w, m[src + at + w..src + n], val);
    assert val + m[src + at + w..src + n] == m[src + at..src + n];
  }

  /** One more word, which still holds the original bytes. */
  lemma CopyStep(m: seq<Byte>, dst: nat, src: nat, n: nat, backwards: bool, ncopied: nat, mem: seq<Byte>, cs: seq<Copy>, w: nat, at: nat)
    requires dst + n <= |m| && src + n <= |m| && w in {1, 2, 4, 8} && ncopied + w <= n
    requires Copying(m, dst, src, n, backwards, ncopied, mem, cs)
    requires backwards <==> src < dst && src + n > dst
    requires at == if backwards then n - ncopied - w else ncopied
    requires Aligned(src + at, w) && Aligned(dst + at, w)
    ensures |mem| == |m|
    ensures var val := mem[src + at..src + at + w];
            var c := Copy(src + at, dst + at, val);
            Copying(m, dst, src, n, backwards, ncopied + w, Patch(mem, dst + at, val), cs + [c]) &&
            Expand(cs + [c]) == Expand(cs) + [Load(src + at, val)] + [Store(dst + at, val)]
  {
    hide Covers, Patch, Expand, Aligned;
    var lo := Low(n, backwards, ncopied);
    PatchElsewhere(m, dst + lo, m[src + lo..src + lo + ncopied], src + at, src + at + w);
    var val := mem[src + at..src + at + w];
    ExpandMore(cs, Copy(src + at, dst + at, val));
    if backwards {
      StepDown(m, dst, src, n, ncopied, cs, w, at, val);
    } else {
      StepUp(m, dst, src, n, ncopied, cs, w, val);
    }
  }

  /** The rest is copied by a call of its own, which finds the original bytes too. */
  lemma CopyRest(m: seq<Byte>, dst: nat, src: nat, n: nat, backwards: bool, ncopied: nat, mem: seq<Byte>, cs: seq<Copy>, rest: seq<Copy>)
    requires dst + n <= |m| && src + n <= |m| && ncopied <= n && |mem| == |m|
    requires Copying(m, dst, src, n, backwards, ncopied, mem, cs)
    requires backwards <==> src < dst && src + n > dst
    requires var at := if backwards then 0 else ncopied;
             Covers(mem, dst + at, src + at, n - ncopied, rest)
    ensures var at := if backwards then 0 else ncopied;
            Moved(mem, dst + at, src + at, n - ncopied) == Moved(m, dst, src, n)
    ensures Covers(m, dst, src, n, cs + rest) && Expand(cs + rest) == Expand(cs) + Expand(rest)
  {
    hide Covers, Patch, Expand;
    var lo, at := Low(n, backwards, ncopied), if backwards then 0 else ncopied;
    var done, left := m[src + lo..src + lo + ncopied], m[src + at..src + at + (n - ncopied)];
    ExpandConcat(cs, rest);
    PatchElsewhere(m, dst + lo, done, src + at, src + at + (n - ncopied));
    if backwards {
      CoversBoth(m, mem, dst, src, n, n - ncopied, ncopied, 0, n - ncopied, cs, rest);
      PatchDown(m, dst + lo, done, left);
      assert left + done == m[src..src + n];
    } else {
      CoversBoth(m, mem, dst, src, n, 0, ncopied, ncopied, n - ncopied, cs, rest);
      PatchUp(m, dst, done, left);
      assert done + left == m[src..src + n];
    }
  }

  lemma CopyEnds(m: seq<Byte>, dst: nat, src: nat, n: nat, backwards: bool, mem: seq<Byte>, cs: seq<Copy>)
    requires dst + n <= |m| && src + n <= |m| && Copying(m, dst, src, n, backwards, n, mem, cs)
    ensures mem == Moved(m, dst, src, n) && Covers(m, dst, src, n, cs)
  {
    hide Covers, Patch;
  }

  // ---- filling

  function Filled(m: seq<Byte>, dst: nat, c: Byte, n: nat): (r: seq<Byte>)
    requires dst + n <= |m|
    ensures |r| == |m|
  {
    Patch(m, dst, Repeat(c, n))
  }

  function Repeat(c: Byte, n: nat): (r: seq<Byte>)
    ensures |r| == n && forall k | 0 <= k < n :: r[k] == c
  {
    seq(n, _ => c)
  }

  /** The stores alone, of copies that read what they write. */
  function StoresOf(cs: seq<Copy>): seq<Access>
  {
    if cs == [] then [] else [Store(cs[0].to, cs[0].bytes)] + StoresOf(cs[1..])
  }

  lemma {:induction false} StoresOfConcat(a: seq<Copy>, b: seq<Copy>)
    ensures StoresOf(a + b) == StoresOf(a) + StoresOf(b)
  {
    if a == [] {
      assert a + b == b;
    } else {
      assert (a + b)[1..] == a[1..] + b;
      StoresOfConcat(a[1..], b);
    }
  }

  /** `ncopied` bytes have been filled; the stores so far are judged by the memory `goal` that
      the fill is to leave. */
  ghost predicate Filling(m: seq<Byte>, goal: seq<Byte>, dst: nat, c: Byte, n: nat, ncopied: nat, mem: seq<Byte>, cs: seq<Copy>)
    requires dst + n <= |m| && ncopied <= n
  {
    goal == Filled(m, dst, c, n) && mem == Patch(m, dst, Repeat(c, ncopied)) && Covers(goal, dst, dst, ncopied, cs)
  }

  lemma FillStep(m: seq<Byte>, goal: seq<Byte>, dst: nat, c: Byte, n: nat, ncopied: nat, mem: seq<Byte>, cs: seq<Copy>, w: nat)
    requires dst + n <= |m| && w in {1, 2, 4, 8} && ncopied + w <= n && Aligned(dst + ncopied, w)
    requires Filling(m, goal, dst, c, n, ncopied, mem, cs)
    ensures |mem| == |m|
    ensures var one := Copy(dst + ncopied, dst + ncopied, Repeat(c, w));
            Filling(m, goal, dst, c, n, ncopied + w, Patch(mem, dst + ncopied, Repeat(c, w)), cs + [one]) &&
            StoresOf(cs + [one]) == StoresOf(cs) + [Store(dst + ncopied, Repeat(c, w))]
  {
    hide Covers;
    assert goal[dst + ncopied..dst + ncopied + w] == Repeat(c, w);
    CoversOne(goal, dst + ncopied, dst + ncopied, w);
    var one := Copy(dst + ncopied, dst + ncopied, Repeat(c, w));
    CoversBoth(goal, goal, dst, dst, ncopied + w, 0, ncopied, ncopied, w, cs, [one]);
    PatchUp(m, dst, Repeat(c, ncopied), Repeat(c, w));
    assert Repeat(c, ncopied) + Repeat(c, w) == Repeat(c, ncopied + w);
    StoresOfConcat(cs, [one]);
    assert [one][1..] == [];
  }

  lemma FillRest(m: seq<Byte>, goal: seq<Byte>, dst: nat, c: Byte, n: nat, ncopied: nat, mem: seq<Byte>, cs: seq<Copy>, rest: seq<Copy>)
    requires dst + n <= |m| && ncopied <= n && |mem| == |m| && Filling(m, goal, dst, c, n, ncopied, mem, cs)
    requires Covers(Filled(mem, dst + ncopied, c, n - ncopied), dst + ncopied, dst + ncopied, n - ncopied, rest)
    ensures Filled(mem, dst + ncopied, c, n - ncopied) == goal && Covers(goal, dst, dst, n, cs + rest)
    ensures StoresOf(cs + rest) == StoresOf(cs) + StoresOf(rest)
  {
    hide Covers, Patch;
    PatchUp(m, dst, Repeat(c, ncopied), Repeat(c, n - ncopied));
    assert Repeat(c, ncopied) + Repeat(c, n - ncopied) == Repeat(c, n);
    CoversBoth(goal, goal, dst, dst, n, 0, ncopied, ncopied, n - ncopied, cs, rest);
    StoresOfConcat(cs, rest);
  }

  lemma FillEnds(m: seq<Byte>, goal: seq<Byte>, dst: nat, c: Byte, n: nat, mem: seq<Byte>, cs: seq<Copy>)
    requires dst + n <= |m| && Filling(m, goal, dst, c, n, n, mem, cs)
    ensures mem == goal && Covers(mem, dst, dst, n, cs)
  {
    hide Covers, Patch;
  }

  lemma FillStarts(m: seq<Byte>, dst: nat, c: Byte, n: nat)
    requires dst + n <= |m|
    ensures Filling(m, Filled(m, dst, c, n), dst, c, n, 0, m, []) && StoresOf([]) == []
  {
    hide Covers;
    CoversNone(Filled(m, dst, c, n), dst, dst);
  }

  // ---- the widths ---------------------------------------------------------------------

  /** The widest access for which there is room in `n` bytes, and to which both addresses are aligned. */
  predicate Widest(w: nat, n: nat, a: nat, b: nat)
  {
    w in {1, 2, 4, 8} && w <= n && a % w == 0 && b % w == 0 &&
    forall v | v in {1, 2, 4, 8} && v <= n && a % v == 0 && b % v == 0 :: v <= w
  }

  /** The first `q` copies carry `w` bytes each, side by side: from the bottom up, or from the top down. */
  predicate Strided(dst: nat, src: nat, n: nat, backwards: bool, w: nat, q: nat, cs: seq<Copy>)
  {
    q <= |cs| && q * w <= n &&
    forall k | 0 <= k < q ::
      |cs[k].bytes| == w &&
      cs[k].from == src + (if backwards then n - (k + 1) * w else k * w) &&
      cs[k].to == dst + (if backwards then n - (k + 1) * w else k * w)
  }

  /** The copies of one call: as many as fit of the widest accesses, downwards if the destination starts
      inside the source. */
  predicate OneCall(dst: nat, src: nat, n: nat, w: nat, q: nat, cs: seq<Copy>)
  {
    var backwards := src < dst < src + n;
    Widest(w, n, if backwards then src + n else src, if backwards then dst + n else dst) &&
    0 < q && q * w <= n < q * w + w && Strided(dst, src, n, backwards, w, q, cs)
  }

  /** Every call copies as much as it can with the widest access that it can use, and leaves the rest to
      the next. */
  ghost predicate Greedy(dst: nat, src: nat, n: nat, cs: seq<Copy>)
    decreases n
  {
    if n == 0 then cs == [] else
    exists w: nat, q: nat :: OneCall(dst, src, n, w, q, cs) && q <= |cs| && 0 < q * w <= n && GreedyRest(dst, src, n, q * w, cs[q..])
  }

  /** What is left after `done` bytes are below what is done, or above it. */
  ghost predicate GreedyRest(dst: nat, src: nat, n: nat, done: nat, cs: seq<Copy>)
    requires 0 < done <= n
    decreases n, 0
  {
    var off := if src < dst < src + n then 0 else done;
    Greedy(dst + off, src + off, n - done, cs)
  }

  /** `done` bytes of a call have been copied so far. */
  ghost predicate Striding(dst: nat, src: nat, n: nat, backwards: bool, w: nat, done: nat, cs: seq<Copy>)
  {
    |cs| * w == done && Strided(dst, src, n, backwards, w, |cs|, cs)
  }

  lemma StridesStart(dst: nat, src: nat, n: nat, backwards: bool, w: nat)
    ensures Striding(dst, src, n, backwards, w, 0, [])
  {
  }

  lemma StridesOn(dst: nat, src: nat, n: nat, backwards: bool, w: nat, done: nat, cs: seq<Copy>, c: Copy)
    requires Striding(dst, src, n, backwards, w, done, cs) && done + w <= n && |c.bytes| == w
    requires var off := if backwards then n - done - w else done; c.from == src + off && c.to == dst + off
    ensures Striding(dst, src, n, backwards, w, done + w, cs + [c])
  {
    assert (|cs| + 1) * w == |cs| * w + w;
  }

  /** Below the whole number of words there is less than a word. */
  lemma WholeWords(n: nat, w: nat, q: nat)
    requires w in {1, 2, 4, 8} && n > 0 && w <= n && q * w <= n && n - q * w < w
    ensures 0 < q && n < q * w + w
  {
  }

  lemma GreedyJoins(dst: nat, src: nat, n: nat, w: nat, cs: seq<Copy>, rest: seq<Copy>)
    requires n > 0 && OneCall(dst, src, n, w, |cs|, cs) && 0 < |cs| * w <= n && GreedyRest(dst, src, n, |cs| * w, rest)
    ensures Greedy(dst, src, n, cs + rest)
  {
    hide Widest;
    assert (cs + rest)[|cs|..] == rest;
    assert OneCall(dst, src, n, w, |cs|, cs + rest);
  }

  /** What holds of a call's loop: memory, the trace and the widths. */
  ghost predicate Doing(m: seq<Byte>, log: seq<Access>, dst: nat, src: nat, n: nat, w: nat, done: nat,
                        mem: seq<Byte>, log': seq<Access>, cs: seq<Copy>)
    requires dst + n <= |m| && src + n <= |m| && done <= n
  {
    var backwards := src < dst && src + n > dst;
    |mem| == |m| && Copying(m, dst, src, n, backwards, done, mem, cs) && log' == log + Expand(cs) &&
    Striding(dst, src, n, backwards, w, done, cs)
  }

  lemma DoingStarts(m: seq<Byte>, log: seq<Access>, dst: nat, src: nat, n: nat, w: nat)
    requires dst + n <= |m| && src + n <= |m|
    ensures Doing(m, log, dst, src, n, w, 0, m, log, [])
  {
    hide Copying, Striding;
    var backwards := src < dst && src + n > dst;
    CopyStarts(m, dst, src, n, backwards);
    StridesStart(dst, src, n, backwards, w);
  }

  lemma DoingMore(m: seq<Byte>, log: seq<Access>, dst: nat, src: nat, n: nat, w: nat, done: nat,
                  mem: seq<Byte>, log': seq<Access>, cs: seq<Copy>, at: nat)
    requires dst + n <= |m| && src + n <= |m| && w in {1, 2, 4, 8} && done + w <= n
    requires Doing(m, log, dst, src, n, w, done, mem, log', cs)
    requires at == if src < dst && src + n > dst then n - done - w else done
    requires Aligned(src + at, w) && Aligned(dst + at, w)
    ensures |mem| == |m|
    ensures var val := mem[src + at..src + at + w];
            Doing(m, log, dst, src, n, w, done + w, Patch(mem, dst + at, val),
                  log' + [Load(src + at, val)] + [Store(dst + at, val)], cs + [Copy(src + at, dst + at, val)])
  {
    hide Copying, Striding, Expand, Patch, Aligned;
    var backwards := src < dst && src + n > dst;
    CopyStep(m, dst, src, n, backwards, done, mem, cs, w, at);
    StridesOn(dst, src, n, backwards, w, done, cs, Copy(src + at, dst + at, mem[src + at..src + at + w]));
  }

  lemma DoingEnds(m: seq<Byte>, log: seq<Access>, dst: nat, src: nat, n: nat, w: nat, done: nat,
                  mem: seq<Byte>, log': seq<Access>, cs: seq<Copy>)
    requires dst + n <= |m| && src + n <= |m| && done <= n && Doing(m, log, dst, src, n, w, done, mem, log', cs)
    requires var backwards := src < dst && src + n > dst;
             n > 0 ==> Widest(w, n, if backwards then src + n else src, if backwards then dst + n else dst)
    requires w in {1, 2, 4, 8} && n - done < w
    ensures |mem| == |m| && (n > 0 ==> done > 0)
    ensures done == n ==> mem == Moved(m, dst, src, n) && Covers(m, dst, src, n, cs) && log' == log + Expand(cs) && Greedy(dst, src, n, cs)
  {
    hide Copying, Striding, Expand, Widest, Covers, Greedy, OneCall, Moved;
    OneCallIs(dst, src, n, w, done, cs);
    if done == n {
      CopyEnds(m, dst, src, n, src < dst && src + n > dst, mem, cs);
      GreedyEnds(dst, src, n, w, cs);
    }
  }

  lemma DoingRest(m: seq<Byte>, log: seq<Access>, dst: nat, src: nat, n: nat, w: nat, done: nat,
                  mem: seq<Byte>, log': seq<Access>, cs: seq<Copy>, rest: seq<Copy>)
    requires dst + n <= |m| && src + n <= |m| && 0 < done < n && Doing(m, log, dst, src, n, w, done, mem, log', cs)
    requires var backwards := src < dst && src + n > dst;
             Widest(w, n, if backwards then src + n else src, if backwards then dst + n else dst)
    requires w in {1, 2, 4, 8} && n - done < w
    requires var at := if src < dst && src + n > dst then 0 else done;
             |mem| == |m| && Covers(mem, dst + at, src + at, n - done, rest) && Greedy(dst + at, src + at, n - done, rest)
    ensures var at := if src < dst && src + n > dst then 0 else done;
            Moved(mem, dst + at, src + at, n - done) == Moved(m, dst, src, n)
    ensures Covers(m, dst, src, n, cs + rest) && log' + Expand(rest) == log + Expand(cs + rest) && Greedy(dst, src, n, cs + rest)
  {
    hide Copying, Striding, Expand, Widest, Covers, Greedy, OneCall, Moved;
    OneCallIs(dst, src, n, w, done, cs);
    CopyRest(m, dst, src, n, src < dst && src + n > dst, done, mem, cs, rest);
    GreedyIs(dst, src, n, w, done, cs, rest);
    assert log + Expand(cs) + Expand(rest) == log + (Expand(cs) + Expand(rest));
  }

  /** The call's loop is over. */
  lemma OneCallIs(dst: nat, src: nat, n: nat, w: nat, done: nat, cs: seq<Copy>)
    requires var backwards := src < dst && src + n > dst;
             (n > 0 ==> Widest(w, n, if backwards then src + n else src, if backwards then dst + n else dst)) &&
             Striding(dst, src, n, backwards, w, done, cs)
    requires w in {1, 2, 4, 8} && done <= n && n - done < w
    ensures n > 0 ==> OneCall(dst, src, n, w, |cs|, cs) && 0 < |cs| * w == done <= n
    ensures n == 0 ==> cs == []
  {
    hide Widest;
    if n > 0 {
      assert w <= n by { WidestFits(w, n, if src < dst < src + n then src + n else src, if src < dst < src + n then dst + n else dst); }
      WholeWords(n, w, |cs|);
    }
  }

  lemma WidestFits(w: nat, n: nat, a: nat, b: nat)
    requires Widest(w, n, a, b)
    ensures w <= n
  {
  }

  lemma GreedyEnds(dst: nat, src: nat, n: nat, w: nat, cs: seq<Copy>)
    requires n > 0 ==> OneCall(dst, src, n, w, |cs|, cs) && |cs| * w == n
    requires n == 0 ==> cs == []
    ensures Greedy(dst, src, n, cs)
  {
    hide OneCall;
    if n > 0 {
      GreedyNothing(dst + n, src + n);
      GreedyNothing(dst, src);
      GreedyJoins(dst, src, n, w, cs, []);
      assert cs + [] == cs;
    }
  }

  lemma GreedyIs(dst: nat, src: nat, n: nat, w: nat, done: nat, cs: seq<Copy>, rest: seq<Copy>)
    requires n > 0 && OneCall(dst, src, n, w, |cs|, cs) && 0 < |cs| * w == done <= n
    requires var off := if src < dst && src + n > dst then 0 else done; Greedy(dst + off, src + off, n - done, rest)
    ensures Greedy(dst, src, n, cs + rest)
  {
    hide OneCall, Greedy;
    GreedyJoins(dst, src, n, w, cs, rest);
  }

  lemma MovesEnd(log: seq<Access>, dst: nat, src: nat, n: nat, cs: seq<Copy>)
    requires Greedy(dst, src, n, cs)
    ensures LoadsAndStores(log, log + Expand(cs), cs)
    ensures EightsOnly(dst, src, n, cs)
  {
    hide Greedy, LoadsAndStores, Expand;
    ExpandIsTraced(log, cs);
    if dst % 8 == 0 && src % 8 == 0 && n % 8 == 0 { OnlyEights(dst, src, n, cs); }
  }

  lemma FillsEnd(log: seq<Access>, dst: nat, n: nat, cs: seq<Copy>)
    requires Greedy(dst, dst, n, cs)
    ensures Stores(log, log + StoresOf(cs), cs)
    ensures EightsOnly(dst, dst, n, cs)
  {
    hide Greedy, Stores, StoresOf;
    StoresAreTraced(log, cs);
    if dst % 8 == 0 && n % 8 == 0 { OnlyEights(dst, dst, n, cs); }
  }

  lemma GreedyNothing(dst: nat, src: nat)
    ensures Greedy(dst, src, 0, [])
  {
  }

  /** Between addresses that eight divides, a multiple of eight bytes is copied eight at a time. */
  predicate EightsOnly(dst: nat, src: nat, n: nat, cs: seq<Copy>)
  {
    dst % 8 == 0 && src % 8 == 0 && n % 8 == 0 ==> 8 * |cs| == n && forall k | 0 <= k < |cs| :: |cs[k].bytes| == 8
  }

  lemma OnlyEights(dst: nat, src: nat, n: nat, cs: seq<Copy>)
    requires Greedy(dst, src, n, cs) && dst % 8 == 0 && src % 8 == 0 && n % 8 == 0
    ensures 8 * |cs| == n && forall k | 0 <= k < |cs| :: |cs[k].bytes| == 8
  {
    hide OneCall;
    if n > 0 {
      var w: nat, q: nat :| OneCall(dst, src, n, w, q, cs) && q <= |cs| && 0 < q * w <= n && GreedyRest(dst, src, n, q * w, cs[q..]);
      OneEights(dst, src, n, w, q, cs);
      assert n - q * w == 0;
      assert Greedy(dst + (if src < dst < src + n then 0 else n), src + (if src < dst < src + n then 0 else n), 0, cs[q..]);
      assert cs[q..] == [];
    }
  }

  lemma OneEights(dst: nat, src: nat, n: nat, w: nat, q: nat, cs: seq<Copy>)
    requires n > 0 && OneCall(dst, src, n, w, q, cs) && dst % 8 == 0 && src % 8 == 0 && n % 8 == 0
    ensures q <= |cs| && q * w == n && w == 8 && q * 8 == n && forall k | 0 <= k < q :: |cs[k].bytes| == 8
  {
    hide Widest, Strided;
    var backwards := src < dst < src + n;
    SumOfEights(src, n);
    SumOfEights(dst, n);
    EightIsWidest(w, n, if backwards then src + n else src, if backwards then dst + n else dst);
    StridesAre(dst, src, n, backwards, w, q, cs);
    EightsFit(n, q);
  }

  lemma SumOfEights(a: nat, b: nat)
    requires a % 8 == 0 && b % 8 == 0
    ensures (a + b) % 8 == 0
  {
  }

  lemma EightsFit(n: nat, q: nat)
    requires n % 8 == 0 && q * 8 <= n < q * 8 + 8
    ensures q * 8 == n
  {
  }

  lemma StridesAre(dst: nat, src: nat, n: nat, backwards: bool, w: nat, q: nat, cs: seq<Copy>)
    requires Strided(dst, src, n, backwards, w, q, cs)
    ensures q <= |cs| && forall k | 0 <= k < q :: |cs[k].bytes| == w
  {
  }

  lemma EightIsWidest(w: nat, n: nat, a: nat, b: nat)
    requires Widest(w, n, a, b) && n >= 8 && a % 8 == 0 && b % 8 == 0
    ensures w == 8
  {
    assert 8 in {1, 2, 4, 8};
  }

  /** The trace, access for access. */
  lemma {:induction false} ExpandAt(cs: seq<Copy>)
    ensures |Expand(cs)| == 2 * |cs|
    ensures forall k | 0 <= k < |cs| ::
              Expand(cs)[2 * k] == Load(cs[k].from, cs[k].bytes) && Expand(cs)[2 * k + 1] == Store(cs[k].to, cs[k].bytes)
  {
    if cs != [] {
      ExpandAt(cs[1..]);
      var first := [Load(cs[0].from, cs[0].bytes), Store(cs[0].to, cs[0].bytes)];
      forall k | 0 <= k < |cs|
        ensures Expand(cs)[2 * k] == Load(cs[k].from, cs[k].bytes) && Expand(cs)[2 * k + 1] == Store(cs[k].to, cs[k].bytes)
      {
        if k > 0 {
          assert cs[k] == cs[1..][k - 1];
          assert (first + Expand(cs[1..]))[2 * k] == Expand(cs[1..])[2 * (k - 1)];
          assert (first + Expand(cs[1..]))[2 * k + 1] == Expand(cs[1..])[2 * (k - 1) + 1];
        }
      }
    }
  }

  /** What has been traced: each copy's load, and its store after it. */
  predicate LoadsAndStores(log: seq<Access>, log': seq<Access>, cs: seq<Copy>)
  {
    var at := |log|;
    |log'| == at + 2 * |cs| && log'[..at] == log &&
    forall k | 0 <= k < |cs| ::
      log'[at + 2 * k] == Load(cs[k].from, cs[k].bytes) && log'[at + 2 * k + 1] == Store(cs[k].to, cs[k].bytes)
  }

  lemma ExpandIsTraced(log: seq<Access>, cs: seq<Copy>)
    ensures LoadsAndStores(log, log + Expand(cs), cs)
  {
    ExpandAt(cs);
  }

  /** Or each store. */
  predicate Stores(log: seq<Access>, log': seq<Access>, cs: seq<Copy>)
  {
    var at := |log|;
    |log'| == at + |cs| && log'[..at] == log && forall k | 0 <= k < |cs| :: log'[at + k] == Store(cs[k].to, cs[k].bytes)
  }

  lemma StoresAreTraced(log: seq<Access>, cs: seq<Copy>)
    ensures Stores(log, log + StoresOf(cs), cs)
  {
    StoresAt(cs);
  }

  lemma {:induction false} StoresAt(cs: seq<Copy>)
    ensures |StoresOf(cs)| == |cs| && forall k | 0 <= k < |cs| :: StoresOf(cs)[k] == Store(cs[k].to, cs[k].bytes)
  {
    if cs != [] {
      StoresAt(cs[1..]);
    }
  }

  /** Memory after a move, byte for byte. */
  predicate MovedBytes(m: seq<Byte>, m': seq<Byte>, dst: nat, src: nat, n: nat)
    requires dst + n <= |m| && src + n <= |m|
  {
    |m'| == |m| && forall x | 0 <= x < |m| :: m'[x] == if dst <= x < dst + n then m[src + (x - dst)] else m[x]
  }

  lemma FilledAt(m: seq<Byte>, dst: nat, c: Byte, n: nat)
    requires dst + n <= |m|
    ensures FilledBytes(m, Filled(m, dst, c, n), dst, c, n)
  {
  }

  predicate FilledBytes(m: seq<Byte>, m': seq<Byte>, dst: nat, c: Byte, n: nat)
  {
    |m'| == |m| && forall x | 0 <= x < |m| :: m'[x] == if dst <= x < dst + n then c else m[x]
  }

  lemma MovedAt(m: seq<Byte>, dst: nat, src: nat, n: nat)
    requires dst + n <= |m| && src + n <= |m|
    ensures MovedBytes(m, Moved(m, dst, src, n), dst, src, n)
  {
  }

  class Memory {
    var mem: seq<Byte>
    /** What has been traced. */
    var log: seq<Access>

    /** __rvpredict_internal_memmove */
    method InternalMemmove(d: nat, s: nat, n: nat)
      requires d + n <= |mem| && s + n <= |mem|
      modifies this`mem
      ensures mem == Moved(old(mem), d, s, n) && MovedBytes(old(mem), mem, d, s, n)
    {
      hide Patch, MovedBytes;
      ghost var m := mem;
      MovedAt(m, d, s, n);
      PatchNothing(m, d);
      PatchNothing(m, d + n);
      assert m[s..s] == [] && m[s + n..s + n] == [];
      if d < s {
        var i := 0;
        while i < n
          invariant i <= n && mem == Patch(m, d, m[s..s + i])
        {
          ByteElsewhere(m, d, m[s..s + i], s + i);
          PatchUp(m, d, m[s..s + i], [m[s + i]]);
          assert m[s..s + i] + [m[s + i]] == m[s..s + i + 1];
          mem := Patch(mem, d + i, [mem[s + i]]);
          i := i + 1;
        }
      } else if d > s {
        var i := 0;
        while i < n
          invariant i <= n && mem == Patch(m, d + n - i, m[s + n - i..s + n])
        {
          var k := n - 1 - i;
          ByteElsewhere(m, d + n - i, m[s + n - i..s + n], s + k);
          PatchDown(m, d + n - i, m[s + n - i..s + n], [m[s + k]]);
          assert [m[s + k]] + m[s + n - i..s + n] == m[s + k..s + n];
          mem := Patch(mem, d + k, [mem[s + k]]);
          i := i + 1;
        }
      } else {
        MovedInPlace(m, d, n);
      }
    }

    /** The widest access that fits and is aligned at both ends. */
    method WidestAligned(n: nat, to: nat, from: nat) returns (width: nat)
      ensures Aligned(to, width) && Aligned(from, width) && (n > 0 ==> width <= n) && width in {1, 2, 4, 8}
      ensures forall w | w in {2, 4, 8} && w <= n && to % w == 0 && from % w == 0 :: w <= width
      ensures n > 0 ==> Widest(width, n, from, to)
    {
      width := 8;
      while width > 1
        invariant width in {1, 2, 4, 8}
        invariant forall w | w in {2, 4, 8} && width < w :: w > n || to % w != 0 || from % w != 0
      {
        if n >= width && to % width == 0 && from % width == 0 {
          break;
        }
        width := width / 2;
      }
    }

    /** __rvpredict_memmove1: the recursion takes what is left when the widest aligned access
        does not divide `n`. */
    method Memmove1(dst: nat, src: nat, n: nat) returns (ghost cs: seq<Copy>)
      requires dst + n <= |mem| && src + n <= |mem|
      modifies this
      ensures mem == Moved(old(mem), dst, src, n) && MovedBytes(old(mem), mem, dst, src, n)
      ensures log == old(log) + Expand(cs) && LoadsAndStores(old(log), log, cs)
      ensures Covers(old(mem), dst, src, n, cs) && Greedy(dst, src, n, cs)
      ensures EightsOnly(dst, src, n, cs)
      decreases n
    {
      hide EightsOnly, LoadsAndStores, Covers, Patch, Expand, Doing, Moved, Aligned, RoundDown, MovedBytes, Greedy, Widest;
      ghost var m := mem;
      MovedAt(m, dst, src, n);
      var backwards := src < dst && src + n > dst;
      var from: int, to: int := src, dst;
      if backwards {
        from, to := src + n, dst + n;
      }
      var width: int := WidestAligned(n, to, from);
      var nwhole := RoundDown(n, width);
      var astep: int := width;
      if backwards {
        astep := 0 - width;
        StepAligned(from, astep, width);
        StepAligned(to, astep, width);
        from, to := from - width, to - width;
      }
      var ncopied := 0;
      ZeroAligned(width);
      cs := [];
      DoingStarts(m, log, dst, src, n, width);
      while ncopied < nwhole
        invariant 0 <= ncopied <= nwhole && Aligned(ncopied, width)
        invariant from - src == to - dst == if backwards then n - ncopied - width else ncopied
        invariant Aligned(from, width) && Aligned(to, width)
        invariant |mem| == |m| && Doing(m, old(log), dst, src, n, width, ncopied, mem, log, cs)
      {
        NextWord(ncopied, nwhole, width);
        DoingMore(m, old(log), dst, src, n, width, ncopied, mem, log, cs, from - src);
        var val := mem[from..from + width];
        log := log + [Load(from, val)];
        log := log + [Store(to, val)];
        mem := Patch(mem, to, val);
        cs := cs + [Copy(from, to, val)];
        StepAligned(from, astep, width);
        StepAligned(to, astep, width);
        ncopied, from, to := ncopied + width, from + astep, to + astep;
      }
      DoingEnds(m, old(log), dst, src, n, width, ncopied, mem, log, cs);
      ghost var rest, m1, log1 := [], mem, log;
      if ncopied == n {
        MovesEnd(old(log), dst, src, n, cs);
        return;
      } else if astep < 0 {
        rest := Memmove1(dst, src, n - ncopied);
      } else {
        rest := Memmove1(to, from, n - ncopied);
      }
      DoingRest(m, old(log), dst, src, n, width, ncopied, m1, log1, cs, rest);
      cs := cs + rest;
      MovesEnd(old(log), dst, src, n, cs);
    }

    /** __rvpredict_memset1 */
    method Memset1(dst: nat, c: Byte, n: nat) returns (ghost cs: seq<Copy>)
      requires dst + n <= |mem|
      modifies this
      ensures mem == Filled(old(mem), dst, c, n) && FilledBytes(old(mem), mem, dst, c, n)
      ensures log == old(log) + StoresOf(cs) && Stores(old(log), log, cs)
      ensures Covers(mem, dst, dst, n, cs) && Greedy(dst, dst, n, cs)
      ensures EightsOnly(dst, dst, n, cs)
      decreases n
    {
      hide EightsOnly, Covers, Patch, StoresOf, Stores, Filled, FilledBytes, Aligned, RoundDown, Greedy, GreedyRest, OneCall, Striding, Widest;
      ghost var m := mem;
      FilledAt(m, dst, c, n);
      ghost var goal := Filled(m, dst, c, n);
      var to := dst;
      var width := WidestAligned(n, to, to);
      var nwhole := RoundDown(n, width);
      var ncopied := 0;
      ZeroAligned(width);
      cs := [];
      FillStarts(m, dst, c, n);
      StridesStart(dst, dst, n, false, width);
      while ncopied < nwhole
        invariant 0 <= ncopied <= nwhole && Aligned(ncopied, width) && to == dst + ncopied && Aligned(to, width)
        invariant |mem| == |m| && Filling(m, goal, dst, c, n, ncopied, mem, cs)
        invariant log == old(log) + StoresOf(cs)
        invariant Striding(dst, dst, n, false, width, ncopied, cs)
      {
        NextWord(ncopied, nwhole, width);
        FillStep(m, goal, dst, c, n, ncopied, mem, cs, width);
        log := log + [Store(to, Repeat(c, width))];
        mem := Patch(mem, to, Repeat(c, width));
        StridesOn(dst, dst, n, false, width, ncopied, cs, Copy(to, to, Repeat(c, width)));
        cs := cs + [Copy(to, to, Repeat(c, width))];
        StepAligned(to, width, width);
        ncopied, to := ncopied + width, to + width;
      }
      OneCallIs(dst, dst, n, width, ncopied, cs);
      if ncopied == n {
        FillEnds(m, goal, dst, c, n, mem, cs);
        GreedyEnds(dst, dst, n, width, cs);
        FillsEnd(old(log), dst, n, cs);
        return;
      }
      ghost var m1 := mem;
      ghost var rest := Memset1(to, c, n - ncopied);
      FillRest(m, goal, dst, c, n, ncopied, m1, cs, rest);
      GreedyIs(dst, dst, n, width, ncopied, cs, rest);
      cs := cs + rest;
      FillsEnd(old(log), dst, n, cs);
    }
  }
}
