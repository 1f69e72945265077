/** The line printer of nbtools/col/col.c: characters of a line arrive in any order of
    columns; the line is printed in column order, with a stable counting sort, shifts of
    character set, backspaces and, possibly, tabs. */
module Col {
  import opened Basics

  const BS: Byte := 8
  const TAB: Byte := 9
  const SO: Byte := 14
  const SI: Byte := 15
  const SPACE: Byte := 32

  datatype CSet = Normal | Alternate

  /** CHAR */
  datatype Char = Char(column: nat, cset: CSet, ch: Byte)

  /** isgraph */
  predicate Graphic(b: Byte)
  {
    32 < b < 127
  }

  predicate AllGraphic(s: seq<Char>)
  {
    forall k | 0 <= k < |s| :: Graphic(s[k].ch)
  }

  // ---- reading: the column and character set rules of main -----------------------------

  /** The current column and character set, and the characters put so far. */
  datatype Head = Head(col: nat, cset: CSet, line: seq<Char>)

  function Step(h: Head, b: Byte): Head
  {
    if b == BS then (if h.col == 0 then h else h.(col := h.col - 1))
    else if b == SPACE then h.(col := h.col + 1)
    else if b == SI then h.(cset := Normal)
    else if b == SO then h.(cset := Alternate)
    else if b == TAB then h.(col := h.col / 8 * 8 + 8)
    else if Graphic(b) then Head(h.col + 1, h.cset, h.line + [Char(h.col, h.cset, b)])
    else h
  }

  function Play(h: Head, out: seq<Byte>): Head
    decreases |out|
  {
    if out == [] then h else Play(Step(h, out[0]), out[1..])
  }

  lemma {:induction false} PlayConcat(h: Head, a: seq<Byte>, b: seq<Byte>)
    ensures Play(h, a + b) == Play(Play(h, a), b)
    decreases |a|
  {
    if a == [] {
      assert a + b == b;
    } else {
      assert (a + b)[1..] == a[1..] + b;
      PlayConcat(Step(h, a[0]), a[1..], b);
    }
  }

  lemma PlayOne(h: Head, out: seq<Byte>, b: Byte)
    ensures Play(h, out + [b]) == Step(Play(h, out), b)
  {
    hide Step;
    PlayConcat(h, out, [b]);
    assert Play(Play(h, out), [b]) == Play(Step(Play(h, out), b), []) by { assert [b][1..] == []; }
  }

  // ---- order ---------------------------------------------------------------------------

  /** The characters of one column, in the order in which they came. */
  function InColumn(s: seq<Char>, c: int): seq<Char>
  {
    if s == [] then [] else InColumn(s[..|s| - 1], c) + if s[|s| - 1].column == c then [s[|s| - 1]] else []
  }

  /** The characters of columns below `c`, column by column. */
  function Columns(s: seq<Char>, c: nat): seq<Char>
  {
    if c == 0 then [] else Columns(s, c - 1) + InColumn(s, c - 1)
  }

  predicate Ordered(s: seq<Char>)
  {
    forall i, j | 0 <= i < j < |s| :: s[i].column <= s[j].column
  }

  /** `t` is `s` stably sorted: in order, and in each column the same characters in the same
      order. */
  ghost predicate StablySorted(s: seq<Char>, t: seq<Char>)
  {
    Ordered(t) && forall c :: InColumn(t, c) == InColumn(s, c)
  }

  lemma {:induction false} InColumnIsThere(s: seq<Char>, c: int)
    ensures |InColumn(s, c)| <= |s| && forall k | 0 <= k < |InColumn(s, c)| :: InColumn(s, c)[k].column == c
  {
    if s != [] { InColumnIsThere(s[..|s| - 1], c); }
  }

  lemma {:induction false} InColumnConcat(a: seq<Char>, b: seq<Char>, c: int)
    ensures InColumn(a + b, c) == InColumn(a, c) + InColumn(b, c)
    decreases |b|
  {
    if b == [] {
      assert a + b == a;
    } else {
      assert (a + b)[..|a + b| - 1] == a + b[..|b| - 1];
      InColumnConcat(a, b[..|b| - 1], c);
    }
  }

  lemma {:induction false} InColumnOfColumn(s: seq<Char>, c: int, d: int)
    requires forall k | 0 <= k < |s| :: s[k].column == d
    ensures InColumn(s, c) == if c == d then s else []
  {
    if s != [] {
      InColumnOfColumn(s[..|s| - 1], c, d);
      assert s == s[..|s| - 1] + [s[|s| - 1]];
    }
  }

  lemma {:induction false} ColumnsOrdered(s: seq<Char>, c: nat)
    ensures Ordered(Columns(s, c)) && forall k | 0 <= k < |Columns(s, c)| :: Columns(s, c)[k].column < c
    decreases c
  {
    hide InColumn;
    if c > 0 {
      ColumnsOrdered(s, c - 1);
      InColumnIsThere(s, c - 1);
    }
  }

  lemma InColumnOfNone(d: int)
    ensures InColumn([], d) == []
  {
  }

  /** In each column, the same characters in the same order. */
  lemma {:induction false} ColumnsHold(s: seq<Char>, c: nat, d: int)
    ensures InColumn(Columns(s, c), d) == if 0 <= d < c then InColumn(s, d) else []
    decreases c
  {
    hide InColumn;
    InColumnOfNone(d);
    if c > 0 {
      ColumnsHold(s, c - 1, d);
      InColumnIsThere(s, c - 1);
      InColumnConcat(Columns(s, c - 1), InColumn(s, c - 1), d);
      InColumnOfColumn(InColumn(s, c - 1), d, c - 1);
    }
  }

  lemma {:induction false} NoneBeyond(s: seq<Char>, c: int)
    requires forall k | 0 <= k < |s| :: s[k].column != c
    ensures InColumn(s, c) == []
  {
    if s != [] { NoneBeyond(s[..|s| - 1], c); }
  }

  lemma AllColumns(s: seq<Char>, max: nat)
    requires forall k | 0 <= k < |s| :: s[k].column <= max
    ensures StablySorted(s, Columns(s, max + 1))
  {
    hide InColumn;
    ColumnsOrdered(s, max + 1);
    forall c: int
      ensures InColumn(Columns(s, max + 1), c) == InColumn(s, c)
    {
      ColumnsHold(s, max + 1, c);
      if !(0 <= c < max + 1) { NoneBeyond(s, c); }
    }
  }

  lemma OrderedIsSorted(s: seq<Char>)
    requires Ordered(s)
    ensures StablySorted(s, s)
  {
  }

  /** How many characters lie in columns below `c`. */
  function Below(s: seq<Char>, c: nat): nat
  {
    |Columns(s, c)|
  }

  lemma {:induction false} BelowGrows(s: seq<Char>, c: nat, d: nat)
    requires c <= d
    ensures Below(s, c) <= Below(s, d) && Columns(s, d)[..Below(s, c)] == Columns(s, c)
    decreases d
  {
    if c < d { BelowGrows(s, c, d - 1); }
  }

  lemma {:induction false} BelowAll(s: seq<Char>, max: nat)
    requires forall k | 0 <= k < |s| :: s[k].column <= max
    ensures Below(s, max + 1) == |s|
    decreases |s|
  {
    if s == [] {
      BelowNone(max + 1);
    } else {
      BelowAll(s[..|s| - 1], max);
      BelowOneMore(s[..|s| - 1], s[|s| - 1], max + 1);
      assert s == s[..|s| - 1] + [s[|s| - 1]];
    }
  }

  lemma {:induction false} BelowNone(c: nat)
    ensures Columns([], c) == []
  {
    if c > 0 { BelowNone(c - 1); }
  }

  lemma {:induction false} BelowOneMore(s: seq<Char>, x: Char, c: nat)
    ensures Below(s + [x], c) == Below(s, c) + if x.column < c then 1 else 0
    decreases c
  {
    if c > 0 {
      BelowOneMore(s, x, c - 1);
      assert (s + [x])[..|s|] == s;
    }
  }

  // ---- the counting sort -------------------------------------------------------------

  function Num(s: seq<Char>, c: int): nat
  {
    |InColumn(s, c)|
  }

  lemma NumMore(s: seq<Char>, k: nat, c: int)
    requires k < |s|
    ensures InColumn(s[..k + 1], c) == InColumn(s[..k], c) + if s[k].column == c then [s[k]] else []
  {
    assert s[..k + 1][..k] == s[..k];
  }

  lemma {:induction false} NumGrows(s: seq<Char>, k: nat, c: int)
    requires k <= |s|
    ensures Num(s[..k], c) <= Num(s, c)
    decreases |s| - k
  {
    if k < |s| {
      NumMore(s, k, c);
      NumGrows(s, k + 1, c);
    } else {
      assert s[..k] == s;
    }
  }

  /** `count` holds, for each column, where its next character goes; those placed so far are
      in their places. */
  ghost predicate Placed(line: seq<Char>, k: nat, max: nat, count: seq<int>, sorted: seq<Char>)
    requires k <= |line| && |count| > max
  {
    |sorted| == |line| == Below(line, max + 1) &&
    forall c | 0 <= c <= max :: PlacedColumn(line, k, c, count[c], sorted)
  }

  predicate PlacedColumn(line: seq<Char>, k: nat, c: nat, at: int, sorted: seq<Char>)
    requires k <= |line|
  {
    at == Below(line, c) + Num(line[..k], c) && Below(line, c) <= at <= Below(line, c + 1) <= |sorted| &&
    sorted[Below(line, c)..at] == InColumn(line[..k], c)
  }

  lemma PlaceOne(line: seq<Char>, k: nat, max: nat, count: seq<int>, sorted: seq<Char>)
    requires k < |line| && |count| > max && line[k].column <= max && Placed(line, k, max, count, sorted)
    ensures var c := line[k].column;
            0 <= count[c] < |sorted| && Placed(line, k + 1, max, count[c := count[c] + 1], sorted[count[c] := line[k]])
  {
    hide Below, Num, InColumn;
    var c := line[k].column;
    assert PlacedColumn(line, k, c, count[c], sorted);
    NumRoom(line, k);
    var sorted', count' := sorted[count[c] := line[k]], count[c := count[c] + 1];
    forall d | 0 <= d <= max
      ensures PlacedColumn(line, k + 1, d, count'[d], sorted')
    {
      assert PlacedColumn(line, k, d, count[d], sorted);
      NumMore(line, k, d);
      NumIs(line, k, d);
      if d < c { BelowGrows2(line, d + 1, c); }
      if c < d { BelowGrows2(line, c + 1, d); }
      assert d != c ==> sorted'[Below(line, d)..count[d]] == sorted[Below(line, d)..count[d]];
      assert d == c ==> sorted'[Below(line, d)..count[d] + 1] == sorted[Below(line, d)..count[d]] + [line[k]];
    }
  }

  lemma NumIs(line: seq<Char>, k: nat, d: nat)
    requires k < |line|
    ensures Num(line[..k], d) == |InColumn(line[..k], d)| && Num(line[..k + 1], d) == |InColumn(line[..k + 1], d)|
  {
  }

  lemma BelowGrows2(line: seq<Char>, c: nat, d: nat)
    requires c <= d
    ensures Below(line, c) <= Below(line, d)
  {
    BelowGrows(line, c, d);
  }

  /** The column of the next character is not full. */
  lemma NumRoom(line: seq<Char>, k: nat)
    requires k < |line|
    ensures var c := line[k].column; Below(line, c) + Num(line[..k], c) < Below(line, c + 1)
  {
    var c := line[k].column;
    NumMore(line, k, c);
    NumGrows(line, k + 1, c);
  }

  lemma PlaceNone(line: seq<Char>, max: nat, count: seq<int>, sorted: seq<Char>)
    requires |count| > max && |sorted| == |line| && (forall k | 0 <= k < |line| :: line[k].column <= max)
    requires forall c | 0 <= c <= max :: count[c] == Below(line, c)
    ensures Placed(line, 0, max, count, sorted)
  {
    hide Below, Num, InColumn, PlacedColumn;
    BelowAll(line, max);
    forall c | 0 <= c <= max
      ensures PlacedColumn(line, 0, c, count[c], sorted)
    {
      BelowGrows2(line, c, c + 1);
      BelowGrows2(line, c + 1, max + 1);
      PlaceNoneIn(line, c, count[c], sorted);
    }
  }

  lemma PlaceNoneIn(line: seq<Char>, c: nat, at: int, sorted: seq<Char>)
    requires at == Below(line, c) <= Below(line, c + 1) <= |sorted|
    ensures PlacedColumn(line, 0, c, at, sorted)
  {
    hide Below;
    assert line[..0] == [];
    InColumnOfNone(c);
  }

  lemma {:induction false} PlacedAll(line: seq<Char>, max: nat, count: seq<int>, sorted: seq<Char>, c: nat)
    requires |count| > max && Placed(line, |line|, max, count, sorted) && c <= max + 1
    ensures Below(line, c) <= |sorted| && sorted[..Below(line, c)] == Columns(line, c)
    decreases c
  {
    hide InColumn, Num, Below, Columns, PlacedColumn;
    if c == 0 {
      BelowZero(line);
      assert sorted[..0] == Columns(line, 0);
    } else {
      PlacedAll(line, max, count, sorted, c - 1);
      assert PlacedColumn(line, |line|, c - 1, count[c - 1], sorted);
      PlacedNext(line, c, count[c - 1], sorted);
    }
  }

  lemma PlacedNext(line: seq<Char>, c: nat, at: int, sorted: seq<Char>)
    requires c > 0 && PlacedColumn(line, |line|, c - 1, at, sorted)
    requires Below(line, c - 1) <= |sorted| && sorted[..Below(line, c - 1)] == Columns(line, c - 1)
    ensures Below(line, c) <= |sorted| && sorted[..Below(line, c)] == Columns(line, c)
  {
    hide InColumn;
    assert line[..|line|] == line;
    assert sorted[..Below(line, c)] == sorted[..Below(line, c - 1)] + sorted[Below(line, c - 1)..Below(line, c)];
  }

  /** The sort of flush_line. The clearing of `count` stops short of its last element, of which
      it clears only the low byte; the result does not depend on it. */
  method CountingSort(line: seq<Char>, max: nat, count: array<int>, sorted: array<Char>)
    requires count.Length > max && sorted.Length == |line| && forall k | 0 <= k < |line| :: line[k].column <= max
    modifies count, sorted
    ensures sorted[..] == Columns(line, max + 1)
  {
    hide Below, Num, InColumn, Columns, Placed;
    var i := 0;
    while i < max
      invariant 0 <= i <= max && forall c | 0 <= c < i :: count[c] == 0
    {
      count[i] := 0;
      i := i + 1;
    }
    count[max] := count[max] - count[max] % 256;
    ghost var left := count[max];
    Tally(line, max, count, left);
    var tot := 0;
    i := 0;
    BelowZero(line);
    while i <= max
      invariant 0 <= i <= max + 1 && (i <= max ==> tot == Below(line, i))
      invariant forall c | 0 <= c < i :: count[c] == Below(line, c)
      invariant forall c | i <= c < max :: count[c] == Num(line, c)
    {
      var save := count[i];
      count[i] := tot;
      tot := tot + save;
      BelowNext(line, i);
      i := i + 1;
    }
    PlaceNone(line, max, count[..], sorted[..]);
    var k := 0;
    while k < |line|
      invariant 0 <= k <= |line| && Placed(line, k, max, count[..], sorted[..])
    {
      PlaceOne(line, k, max, count[..], sorted[..]);
      var c := line[k].column;
      ghost var count0, sorted0 := count[..], sorted[..];
      sorted[count[c]] := line[k];
      count[c] := count[c] + 1;
      assert count[..] == count0[c := count0[c] + 1] && sorted[..] == sorted0[count0[c] := line[k]];
      k := k + 1;
    }
    PlacedAll(line, max, count[..], sorted[..], max + 1);
    BelowAll(line, max);
    assert sorted[..Below(line, max + 1)] == sorted[..];
  }

  lemma BelowZero(line: seq<Char>)
    ensures Below(line, 0) == 0 && Columns(line, 0) == []
  {
  }

  lemma BelowNext(line: seq<Char>, c: nat)
    ensures Below(line, c + 1) == Below(line, c) + Num(line, c)
  {
  }

  /** How many characters each column holds, on top of what `count` held. */
  method Tally(line: seq<Char>, max: nat, count: array<int>, ghost left: int)
    requires count.Length > max && forall k | 0 <= k < |line| :: line[k].column <= max
    requires (forall c | 0 <= c < max :: count[c] == 0) && count[max] == left
    modifies count
    ensures forall c | 0 <= c < max :: count[c] == Num(line, c)
  {
    hide InColumn, Num;
    var k := 0;
    NumNone(line);
    while k < |line|
      invariant 0 <= k <= |line| && forall c | 0 <= c < max :: count[c] == Num(line[..k], c)
    {
      var at := line[k].column;
      forall c | 0 <= c < max
        ensures Num(line[..k + 1], c) == Num(line[..k], c) + if c == at then 1 else 0
      {
        NumMore(line, k, c);
        NumIs(line, k, c);
      }
      count[at] := count[at] + 1;
      k := k + 1;
    }
    assert line[..k] == line;
  }

  lemma NumNone(line: seq<Char>)
    ensures forall c: int :: Num(line[..0], c) == 0
  {
    assert line[..0] == [];
  }

  // ---- printing ------------------------------------------------------------------------

  /** What must be printed: everything, or, with -b, the last character of each column. */
  function Printed(s: seq<Char>, noBackspaces: bool): seq<Char>
  {
    if noBackspaces then Tops(s) else s
  }

  function Tops(s: seq<Char>): seq<Char>
  {
    if |s| < 2 then s
    else (if s[0].column == s[1].column then [] else [s[0]]) + Tops(s[1..])
  }

  /** The characters `i..e` are all of one column. */
  predicate Group(s: seq<Char>, i: nat, e: nat)
  {
    i < e <= |s| && (forall k | i <= k < e :: s[k].column == s[i].column) && (e < |s| ==> s[e].column != s[i].column)
  }

  lemma {:induction false} TopsGroup(s: seq<Char>, i: nat, e: nat)
    requires Group(s, i, e)
    ensures Tops(s[i..]) == [s[e - 1]] + Tops(s[e..])
    decreases e - i
  {
    assert s[i..][1..] == s[i + 1..];
    if i + 1 < e {
      TopsGroup(s, i + 1, e);
    } else if e == |s| {
      assert s[i..] == [s[i]];
    }
  }

  /** Blanks only move the column. */
  ghost predicate Moves(pad: seq<Byte>, from: nat, to: nat)
  {
    forall h: Head | h.col == from :: Play(h, pad) == h.(col := to)
  }

  lemma NoMove(at: nat)
    ensures Moves([], at, at)
  {
  }

  lemma MovesMore(pad: seq<Byte>, from: nat, mid: nat, b: Byte, to: nat)
    requires Moves(pad, from, mid) && b in {TAB, SPACE}
    requires to == if b == TAB then mid / 8 * 8 + 8 else mid + 1
    ensures Moves(pad + [b], from, to)
  {
    forall h: Head | h.col == from
      ensures Play(h, pad + [b]) == h.(col := to)
    {
      PlayOne(h, pad, b);
    }
  }

  function Copies(b: Byte, n: nat): (r: seq<Byte>)
    ensures |r| == n && forall k | 0 <= k < n :: r[k] == b
  {
    seq(n, _ => b)
  }

  /** How many tabs the blanks begin with. */
  function Tabs(last: nat, to: nat, compress: bool): nat
    requires last < to
  {
    if compress && to - last > 1 then to / 8 - last / 8 else 0
  }

  /** Tabs to every tab stop on the way, and spaces for the rest; or, if spaces are not to be compressed, spaces. */
  predicate ExactBlanks(last: nat, to: nat, compress: bool, pad: seq<Byte>)
    requires last < to
  {
    var tabs := Tabs(last, to, compress);
    pad == Copies(9, tabs) + Copies(32, if tabs > 0 then to % 8 else to - last)
  }

  lemma CopiesMore(b: Byte, n: nat)
    ensures Copies(b, n) + [b] == Copies(b, n + 1) && Copies(b, 0) == []
  {
  }

  lemma TabsAre(last: nat, to: nat)
    requires last < to
    ensures (last % 8 + (to - last)) / 8 == to / 8 - last / 8
    ensures to - last - ((to / 8 - last / 8) * 8 - last % 8) == to % 8
  {
  }

  lemma TabStops(last: nat, n: nat)
    ensures (last / 8 + n) * 8 == last - last % 8 + n * 8
    ensures ((last / 8 + n) * 8) / 8 == last / 8 + n
  {
  }

  /** From column `last` to column `to`. */
  method Blanks(last: nat, to: nat, compress: bool) returns (pad: seq<Byte>)
    requires last < to
    ensures Moves(pad, last, to) && ExactBlanks(last, to, compress, pad)
  {
    hide Moves;
    NoMove(last);
    TabsAre(last, to);
    pad := [];
    CopiesMore(TAB, 0);
    CopiesMore(SPACE, 0);
    ghost var tabs := Tabs(last, to, compress);
    var nspace := to - last;
    ghost var at: nat := last;
    if compress && nspace > 1 {
      var ntabs := (last % 8 + nspace) / 8;
      if ntabs > 0 {
        nspace := nspace - (ntabs * 8 - last % 8);
        var n := 0;
        while n < ntabs
          invariant 0 <= n <= ntabs && Moves(pad, last, at)
          invariant at == (if n == 0 then last else (last / 8 + n) * 8) && pad == Copies(TAB, n)
        {
          CopiesMore(TAB, n);
          TabStops(last, n);
          TabStops(last, n + 1);
          MovesMore(pad, last, at, TAB, at / 8 * 8 + 8);
          pad := pad + [TAB];
          at := at / 8 * 8 + 8;
          n := n + 1;
        }
        TabStops(last, ntabs);
      }
    }
    ghost var spaces := 0;
    assert Copies(TAB, tabs) + [] == Copies(TAB, tabs);
    while nspace > 0
      invariant 0 <= nspace && at + nspace == to && Moves(pad, last, at)
      invariant pad == Copies(TAB, tabs) + Copies(SPACE, spaces) && spaces + nspace == if tabs > 0 then to % 8 else to - last
    {
      CopiesMore(SPACE, spaces);
      Associate(Copies(TAB, tabs), Copies(SPACE, spaces), [SPACE]);
      spaces := spaces + 1;
      MovesMore(pad, last, at, SPACE, at + 1);
      pad := pad + [SPACE];
      at := at + 1;
      nspace := nspace - 1;
    }
  }

  /** A shift is to the other character set, and a backspace goes back. */
  predicate Needed(h: Head, b: Byte)
  {
    (b == 15 ==> h.cset == Alternate) && (b == 14 ==> h.cset == Normal) && (b == 8 ==> h.col > 0)
  }

  /** There is no idle shift or backspace in the output. */
  predicate Tight(h: Head, out: seq<Byte>)
    decreases |out|
  {
    out == [] || (Needed(h, out[0]) && Tight(Step(h, out[0]), out[1..]))
  }

  lemma {:induction false} TightConcat(h: Head, a: seq<Byte>, b: seq<Byte>)
    requires Tight(h, a) && Tight(Play(h, a), b)
    ensures Tight(h, a + b)
    decreases |a|
  {
    if a == [] {
      assert a + b == b;
    } else {
      assert (a + b)[1..] == a[1..] + b;
      TightConcat(Step(h, a[0]), a[1..], b);
    }
  }

  lemma TightOne(h: Head, out: seq<Byte>, b: Byte)
    requires Tight(h, out) && Needed(Play(h, out), b)
    ensures Tight(h, out + [b])
  {
    hide Step, Needed;
    assert [b][1..] == [];
    TightConcat(h, out, [b]);
  }

  lemma {:induction false} BlanksAreTight(h: Head, pad: seq<Byte>)
    requires forall k | 0 <= k < |pad| :: pad[k] in {9, 32}
    ensures Tight(h, pad)
    decreases |pad|
  {
    if pad != [] {
      hide Step;
      assert pad[0] in {9, 32};
      BlanksAreTight(Step(h, pad[0]), pad[1..]);
    }
  }

  /** What the control characters do: backspace, shifts out and in, and space; and a tab, which goes to the next multiple
      of eight. */
  lemma ControlCharacters(h: Head)
    ensures Play(h, [8]) == Head(if h.col > 0 then h.col - 1 else 0, h.cset, h.line)
    ensures Play(h, [14]) == Head(h.col, Alternate, h.line) && Play(h, [15]) == Head(h.col, Normal, h.line)
    ensures Play(h, [32]) == Head(h.col + 1, h.cset, h.line)
  {
    hide Play;
    PlayByte(h, 8);
    PlayByte(h, 14);
    PlayByte(h, 15);
    PlayByte(h, 32);
  }

  lemma TabCharacter(h: Head)
    ensures var h' := Play(h, [9]); h'.col % 8 == 0 && h.col < h'.col <= h.col + 8 && h'.cset == h.cset && h'.line == h.line
  {
    hide Play;
    PlayByte(h, 9);
  }

  lemma PlayByte(h: Head, b: Byte)
    ensures Play(h, [b]) == Step(h, b)
  {
    hide Step;
    assert [b][1..] == [];
  }

  /** Reading `out` back puts `done`, and leaves column `col` and character set `cset`; nothing in it is idle. */
  predicate Replays(out: seq<Byte>, cset0: CSet, col: nat, cset: CSet, done: seq<Char>)
  {
    Play(Head(0, cset0, []), out) == Head(col, cset, done) && Tight(Head(0, cset0, []), out)
  }

  lemma ReplaysMore(out: seq<Byte>, cset0: CSet, col: nat, cset: CSet, done: seq<Char>, b: Byte)
    requires Replays(out, cset0, col, cset, done)
    ensures b == SI && cset == Alternate ==> Replays(out + [b], cset0, col, Normal, done)
    ensures b == SO && cset == Normal ==> Replays(out + [b], cset0, col, Alternate, done)
    ensures b == BS && col > 0 ==> Replays(out + [b], cset0, col - 1, cset, done)
    ensures Graphic(b) ==> Replays(out + [b], cset0, col + 1, cset, done + [Char(col, cset, b)])
  {
    hide Tight;
    PlayOne(Head(0, cset0, []), out, b);
    if Needed(Head(col, cset, done), b) { TightOne(Head(0, cset0, []), out, b); }
  }

  lemma ReplaysPad(out: seq<Byte>, cset0: CSet, col: nat, cset: CSet, done: seq<Char>, pad: seq<Byte>, to: nat)
    requires Replays(out, cset0, col, cset, done) && Moves(pad, col, to) && forall k | 0 <= k < |pad| :: pad[k] in {9, 32}
    ensures Replays(out + pad, cset0, to, cset, done)
  {
    hide Tight;
    PlayConcat(Head(0, cset0, []), out, pad);
    BlanksAreTight(Head(col, cset, done), pad);
    TightConcat(Head(0, cset0, []), out, pad);
  }

  // ---- the output, character by character --------------------------------------------------

  /** What takes the printer from column `pos` to a character's: a backspace over the one before it, or blanks. */
  function Gap(pos: nat, to: nat, compress: bool): seq<Byte>
  {
    if to < pos then [8]
    else if to == pos then []
    else
      var tabs := Tabs(pos, to, compress);
      Copies(9, tabs) + Copies(32, if tabs > 0 then to % 8 else to - pos)
  }

  /** One character, with what must come before it. */
  function OneRendered(x: Char, pos: nat, cset: CSet, compress: bool): seq<Byte>
  {
    Gap(pos, x.column, compress) + (if x.cset == cset then [] else if x.cset == Normal then [15] else [14]) + [x.ch]
  }

  /** All of them, if the printer is at column `pos` and in character set `cset` before. */
  function Rendered(t: seq<Char>, pos: nat, cset: CSet, compress: bool): seq<Byte>
  {
    if t == [] then [] else
    OneRendered(t[0], pos, cset, compress) + Rendered(t[1..], t[0].column + 1, t[0].cset, compress)
  }

  /** What comes of `u` after `t`. */
  function RenderedAfter(t: seq<Char>, u: seq<Char>, pos: nat, cset: CSet, compress: bool): seq<Byte>
  {
    if t == [] then Rendered(u, pos, cset, compress) else Rendered(u, t[|t| - 1].column + 1, t[|t| - 1].cset, compress)
  }

  lemma AfterFirst(t: seq<Char>, u: seq<Char>, pos: nat, cset: CSet, compress: bool)
    requires t != []
    ensures RenderedAfter(t, u, pos, cset, compress) == RenderedAfter(t[1..], u, t[0].column + 1, t[0].cset, compress)
  {
    hide Rendered;
  }

  lemma RenderedFirst(t: seq<Char>, pos: nat, cset: CSet, compress: bool)
    requires t != []
    ensures Rendered(t, pos, cset, compress) == OneRendered(t[0], pos, cset, compress) + Rendered(t[1..], t[0].column + 1, t[0].cset, compress)
  {
    hide OneRendered;
  }

  lemma RenderedBoth(t: seq<Char>, u: seq<Char>, pos: nat, cset: CSet, compress: bool)
    requires t != []
    ensures Rendered(t + u, pos, cset, compress) ==
            OneRendered(t[0], pos, cset, compress) + Rendered(t[1..] + u, t[0].column + 1, t[0].cset, compress)
  {
    hide *;
    assert (t + u)[1..] == t[1..] + u;
    RenderedFirst(t + u, pos, cset, compress);
  }

  lemma {:induction false} RenderedConcat(t: seq<Char>, u: seq<Char>, pos: nat, cset: CSet, compress: bool)
    ensures Rendered(t + u, pos, cset, compress) == Rendered(t, pos, cset, compress) + RenderedAfter(t, u, pos, cset, compress)
    decreases |t|
  {
    if t == [] {
      assert t + u == u;
    } else {
      hide *;
      RenderedFirst(t, pos, cset, compress);
      RenderedBoth(t, u, pos, cset, compress);
      RenderedConcat(t[1..], u, t[0].column + 1, t[0].cset, compress);
      AfterFirst(t, u, pos, cset, compress);
      Associate(OneRendered(t[0], pos, cset, compress), Rendered(t[1..], t[0].column + 1, t[0].cset, compress),
                RenderedAfter(t, u, pos, cset, compress));
    }
  }

  lemma RenderedOne(t: seq<Char>, x: Char, pos: nat, cset: CSet, compress: bool)
    ensures Rendered(t + [x], pos, cset, compress) ==
            Rendered(t, pos, cset, compress) +
            if t == [] then OneRendered(x, pos, cset, compress) else OneRendered(x, t[|t| - 1].column + 1, t[|t| - 1].cset, compress)
  {
    hide OneRendered;
    RenderedConcat(t, [x], pos, cset, compress);
    assert [x][1..] == [];
    assert forall p: nat, c: CSet :: Rendered([x], p, c, compress) == OneRendered(x, p, c, compress) + [];
  }

  /** The gap before the first character may be printed ahead. */
  lemma GapAhead(t: seq<Char>, pos: nat, cset: CSet, compress: bool)
    requires t != [] && pos <= t[0].column
    ensures Rendered(t, pos, cset, compress) == Gap(pos, t[0].column, compress) + Rendered(t, t[0].column, cset, compress)
  {
    hide Gap;
    GapNone(t[0].column, compress);
    var shift := if t[0].cset == cset then [] else if t[0].cset == Normal then [15] else [14];
    var rest := Rendered(t[1..], t[0].column + 1, t[0].cset, compress);
    assert Gap(pos, t[0].column, compress) + shift + [t[0].ch] + rest == Gap(pos, t[0].column, compress) + ([] + shift + [t[0].ch] + rest);
  }

  lemma GapNone(to: nat, compress: bool)
    ensures Gap(to, to, compress) == []
  {
  }

  /** `out` prints `done`, and leaves the printer at column `col` and in character set `cset`. */
  predicate PrintedTo(done: seq<Char>, out: seq<Byte>, col: nat, cset: CSet, cset0: CSet, compress: bool)
  {
    out == Rendered(done, 0, cset0, compress) &&
    if done == [] then col == 0 && cset == cset0 else col == done[|done| - 1].column + 1 && cset == done[|done| - 1].cset
  }

  lemma PrintedNone(cset0: CSet, compress: bool)
    ensures PrintedTo([], [], 0, cset0, cset0, compress)
  {
  }

  lemma PrintedAll(done: seq<Char>, out: seq<Byte>, col: nat, cset: CSet, cset0: CSet, compress: bool)
    requires PrintedTo(done, out, col, cset, cset0, compress)
    ensures out == Rendered(done, 0, cset0, compress)
  {
  }

  /** The characters of one more column. */
  lemma GroupRendered(done: seq<Char>, group: seq<Char>, out: seq<Byte>, col: nat, cset: CSet, cset0: CSet, compress: bool)
    requires PrintedTo(done, out, col, cset, cset0, compress) && group != [] && col <= group[0].column == group[|group| - 1].column
    ensures PrintedTo(done + group, out + Gap(col, group[0].column, compress) + Rendered(group, group[0].column, cset, compress),
                      group[0].column + 1, group[|group| - 1].cset, cset0, compress)
  {
    hide Rendered, Gap;
    GapAhead(group, col, cset, compress);
    RenderedConcat(done, group, 0, cset0, compress);
    Associate(out, Gap(col, group[0].column, compress), Rendered(group, group[0].column, cset, compress));
    var all := done + group;
    assert all[|all| - 1] == group[|group| - 1];
  }

  /** One more character of the same column. */
  lemma OnePrinted(s: seq<Char>, c0: nat, c: nat, lastSet: CSet, lastSet0: CSet, compress: bool)
    requires c0 <= c < |s| && (forall k | c0 <= k <= c :: s[k].column == s[c0].column)
    requires lastSet == if c == c0 then lastSet0 else s[c - 1].cset
    ensures var col, x := s[c0].column, s[c];
            Rendered(s[c0..c + 1], col, lastSet0, compress) ==
            Rendered(s[c0..c], col, lastSet0, compress) + (if c == c0 then [] else [8]) +
            (if x.cset == lastSet then [] else if x.cset == Normal then [15] else [14]) + [x.ch]
  {
    hide Rendered;
    var t, x, col := s[c0..c], s[c], s[c0].column;
    assert t + [x] == s[c0..c + 1];
    RenderedOne(t, x, col, lastSet0, compress);
    assert c > c0 ==> t[|t| - 1] == s[c - 1];
    GapNone(col, compress);
    var shift := if x.cset == lastSet then [] else if x.cset == Normal then [15] else [14];
    var back: seq<Byte> := if c == c0 then [] else [8];
    assert OneRendered(x, if c == c0 then col else col + 1, lastSet, compress) == back + shift + [x.ch];
    var r := Rendered(t, col, lastSet0, compress);
    assert r + (back + shift + [x.ch]) == r + back + shift + [x.ch];
  }

  lemma JoinsRendered(out: seq<Byte>, r: seq<Byte>, back: seq<Byte>, shift: seq<Byte>, ch: seq<Byte>)
    ensures out + r + back + shift + ch == out + (r + back + shift + ch)
  {
  }

  /** One column: its characters, with a backspace between each two. */
  method PrintColumn(s: seq<Char>, c0: nat, endc: nat, lastSet0: CSet, out0: seq<Byte>, ghost cset0: CSet, ghost done0: seq<Char>,
                     ghost compress: bool)
    returns (out: seq<Byte>, lastSet: CSet)
    requires c0 < endc <= |s| && AllGraphic(s) && forall k | c0 <= k < endc :: s[k].column == s[c0].column
    requires Replays(out0, cset0, s[c0].column, lastSet0, done0)
    ensures Replays(out, cset0, s[c0].column + 1, lastSet, done0 + s[c0..endc])
    ensures lastSet == s[endc - 1].cset && out == out0 + Rendered(s[c0..endc], s[c0].column, lastSet0, compress)
  {
    hide Replays, Rendered, Graphic;
    RenderedNone(s[c0..c0], s[c0].column, lastSet0, compress);
    out, lastSet := out0, lastSet0;
    var c := c0;
    ghost var col := s[c0].column;
    assert done0 + s[c0..c0] == done0;
    while true
      invariant c0 <= c < endc && Replays(out, cset0, col, lastSet, done0 + s[c0..c])
      invariant out == out0 + Rendered(s[c0..c], col, lastSet0, compress) + (if c == c0 then [] else [8])
      invariant lastSet == if c == c0 then lastSet0 else s[c - 1].cset
      decreases endc - c
    {
      ghost var out1, lastSet1 := out, lastSet;
      OnePrinted(s, c0, c, lastSet, lastSet0, compress);
      if s[c].cset != lastSet {
        var shift := if s[c].cset == Normal then SI else SO;
        ReplaysMore(out, cset0, col, lastSet, done0 + s[c0..c], shift);
        out := out + [shift];
        lastSet := s[c].cset;
      }
      ReplaysMore(out, cset0, col, lastSet, done0 + s[c0..c], s[c].ch);
      out := out + [s[c].ch];
      assert done0 + s[c0..c] + [s[c]] == done0 + s[c0..c + 1];
      assert out == out1 + (if s[c].cset == lastSet1 then [] else if s[c].cset == Normal then [15] else [14]) + [s[c].ch];
      JoinsRendered(out0, Rendered(s[c0..c], col, lastSet0, compress), if c == c0 then [] else [8],
                    if s[c].cset == lastSet1 then [] else if s[c].cset == Normal then [15] else [14], [s[c].ch]);
      c := c + 1;
      if c >= endc {
        break;
      }
      ReplaysMore(out, cset0, col + 1, lastSet, done0 + s[c0..c], BS);
      out := out + [BS];
    }
  }

  /** The printing loop of flush_line, on characters in order. Read back by the rules of main,
      its output gives the same characters again. */
  method Print(s: seq<Char>, lastSet0: CSet, compress: bool, noBackspaces: bool) returns (out: seq<Byte>, lastSet: CSet)
    requires Ordered(s) && AllGraphic(s)
    ensures exists col :: Replays(out, lastSet0, col, lastSet, Printed(s, noBackspaces))
    ensures out == Rendered(Printed(s, noBackspaces), 0, lastSet0, compress)
  {
    hide Replays, Printed, Moves, Rendered, ExactBlanks, PrintedTo, Gap, Graphic;
    PrintedNone(lastSet0, compress);
    out, lastSet := [], lastSet0;
    var lastCol := 0;
    var c := 0;
    ghost var done: seq<Char> := [];
    assert Replays([], lastSet0, 0, lastSet0, []) by { NothingReplayed(lastSet0); }
    assert s[0..] == s;
    while c < |s|
      invariant 0 <= c <= |s| && Replays(out, lastSet0, lastCol, lastSet, done)
      invariant done + Printed(s[c..], noBackspaces) == Printed(s, noBackspaces)
      invariant c < |s| ==> lastCol <= s[c].column
      invariant PrintedTo(done, out, lastCol, lastSet, lastSet0, compress)
    {
      ghost var out1, col1, set1 := out, lastCol, lastSet;
      var thisCol := s[c].column;
      var endc := c + 1;
      while endc < |s| && thisCol == s[endc].column
        invariant c < endc <= |s| && forall k | c <= k < endc :: s[k].column == thisCol
      {
        endc := endc + 1;
      }
      var first := if noBackspaces then endc - 1 else c;
      PrintedGroup(s, c, endc, noBackspaces, done);
      if thisCol > lastCol {
        var pad := Blanks(lastCol, thisCol, compress);
        GapIs(lastCol, thisCol, compress, pad);
        ReplaysPad(out, lastSet0, lastCol, lastSet, done, pad, thisCol);
        out := out + pad;
        lastCol := thisCol;
      } else {
        GapNone(thisCol, compress);
      }
      assert out == out1 + Gap(col1, thisCol, compress);
      out, lastSet := PrintColumn(s, first, endc, lastSet, out, lastSet0, done, compress);
      lastCol := lastCol + 1;
      GroupRendered(done, s[first..endc], out1, col1, set1, lastSet0, compress);
      done := done + s[first..endc];
      c := endc;
    }
    NothingPrinted(s[c..], noBackspaces);
    assert done + [] == done;
    PrintedAll(done, out, lastCol, lastSet, lastSet0, compress);
  }

  lemma GapIs(last: nat, to: nat, compress: bool, pad: seq<Byte>)
    requires last < to && ExactBlanks(last, to, compress, pad)
    ensures pad == Gap(last, to, compress) && forall k | 0 <= k < |pad| :: pad[k] in {9, 32}
  {
  }

  lemma PrintedGroup(s: seq<Char>, c: nat, endc: nat, noBackspaces: bool, done: seq<Char>)
    requires Group(s, c, endc)
    ensures var first := if noBackspaces then endc - 1 else c;
            done + Printed(s[c..], noBackspaces) == done + s[first..endc] + Printed(s[endc..], noBackspaces)
  {
    hide Tops;
    TopsGroup(s, c, endc);
    assert s[c..] == s[c..endc] + s[endc..];
    assert s[endc - 1..endc] == [s[endc - 1]];
  }

  lemma RenderedNone(t: seq<Char>, pos: nat, cset: CSet, compress: bool)
    requires t == []
    ensures Rendered(t, pos, cset, compress) == []
  {
  }

  lemma NothingReplayed(cset: CSet)
    ensures Replays([], cset, 0, cset, [])
  {
  }

  lemma NothingPrinted(s: seq<Char>, noBackspaces: bool)
    requires s == []
    ensures Printed(s, noBackspaces) == []
  {
  }

  /** LINE, for the characters on it */
  class Line {
    var chars: seq<Char>
    var needsSort: bool
    var maxCol: nat

    ghost predicate Valid()
      reads this
    {
      AllGraphic(chars) && (forall k | 0 <= k < |chars| :: chars[k].column <= maxCol) && (!needsSort ==> Ordered(chars))
    }

    constructor ()
      ensures Valid() && chars == []
    {
      chars, needsSort, maxCol := [], false, 0;
    }

    /** What main does with a graphic character. */
    method Stuff(ch: Byte, curSet: CSet, curCol: nat)
      requires Valid() && Graphic(ch)
      modifies this
      ensures Valid() && chars == old(chars) + [Char(curCol, curSet, ch)]
    {
      chars := chars + [Char(curCol, curSet, ch)];
      if curCol < maxCol {
        needsSort := true;
      } else {
        maxCol := curCol;
      }
    }

    /** flush_line: the output, read back by the rules of main from column 0 and the character
        set that was last printed, is this line's characters, stably sorted by column. */
    method Flush(lastSet0: CSet, compress: bool, noBackspaces: bool) returns (out: seq<Byte>, lastSet: CSet, ghost sorted: seq<Char>)
      requires Valid()
      ensures StablySorted(chars, sorted)
      ensures exists col :: Replays(out, lastSet0, col, lastSet, Printed(sorted, noBackspaces))
      ensures out == Rendered(Printed(sorted, noBackspaces), 0, lastSet0, compress)
    {
      hide Replays, Printed, Rendered;
      var s := chars;
      if needsSort {
        var count := new int[maxCol + 1];
        var inOrder := new Char[|chars|](_ => Char(0, Normal, 0));
        CountingSort(chars, maxCol, count, inOrder);
        s := inOrder[..];
        AllColumns(chars, maxCol);
        GraphicColumns(chars, maxCol + 1);
      } else {
        OrderedIsSorted(chars);
      }
      sorted := s;
      out, lastSet := Print(s, lastSet0, compress, noBackspaces);
    }
  }

  lemma {:induction false} GraphicColumn(s: seq<Char>, c: int)
    requires AllGraphic(s)
    ensures AllGraphic(InColumn(s, c))
  {
    if s != [] { GraphicColumn(s[..|s| - 1], c); }
  }

  lemma {:induction false} GraphicColumns(s: seq<Char>, c: nat)
    requires AllGraphic(s)
    ensures AllGraphic(Columns(s, c))
    decreases c
  {
    if c > 0 {
      GraphicColumns(s, c - 1);
      GraphicColumn(s, c - 1);
    }
  }

  lemma {:induction false} InColumnSome(s: seq<Char>, c: int)
    requires InColumn(s, c) != []
    ensures exists k :: 0 <= k < |s| && s[k].column == c
  {
    if s[|s| - 1].column != c {
      InColumnSome(s[..|s| - 1], c);
      var k :| 0 <= k < |s| - 1 && s[..|s| - 1][k].column == c;
      assert s[k].column == c;
    }
  }

  /** The last character of an ordered line is that of its last column. */
  lemma LastColumn(t: seq<Char>, u: seq<Char>)
    requires Ordered(u) && t != [] && forall c :: InColumn(t, c) == InColumn(u, c)
    ensures u != [] && t[|t| - 1].column <= u[|u| - 1].column
  {
    var c := t[|t| - 1].column;
    assert InColumn(t, c) != [];
    InColumnSome(u, c);
  }

  /** Stably sorting leaves no choice: two results are the same. */
  lemma {:induction false} SortedOnce(t: seq<Char>, u: seq<Char>)
    requires Ordered(t) && Ordered(u) && forall c :: InColumn(t, c) == InColumn(u, c)
    ensures t == u
    decreases |t|
  {
    hide InColumn;
    if t != [] {
      LastColumn(t, u);
      LastColumn(u, t);
      var t', u', x, y := t[..|t| - 1], u[..|u| - 1], t[|t| - 1], u[|u| - 1];
      LastIn(t);
      LastIn(u);
      assert InColumn(t, x.column)[|InColumn(t, x.column)| - 1] == x;
      forall c
        ensures InColumn(t', c) == InColumn(u', c)
      {
        WithoutLast(t, c);
        WithoutLast(u, c);
      }
      SortedOnce(t', u');
      assert t == t' + [x] && u == u' + [y];
    } else if u != [] {
      LastColumn(u, t);
    }
  }

  lemma LastIn(s: seq<Char>)
    requires s != []
    ensures var x := s[|s| - 1]; InColumn(s, x.column) != [] && InColumn(s, x.column)[|InColumn(s, x.column)| - 1] == x
  {
  }

  lemma WithoutLast(s: seq<Char>, c: int)
    requires s != []
    ensures var col := InColumn(s, c);
            if s[|s| - 1].column == c then col != [] && InColumn(s[..|s| - 1], c) == col[..|col| - 1]
            else InColumn(s[..|s| - 1], c) == col
  {
  }
}
