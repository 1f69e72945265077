/** The walk over debugging information of rvsyms/rvsyms.c, with its explicit stack and its
    deferred save of the state that a die's visit leaves to the die's children, and the
    stack of strings of rvsyms/strstk.c. */
module TreeWalk {
  import opened Basics

  /** A debugging information entry. */
  datatype Die = Die(id: nat, children: seq<Die>)

  /** dwarf_recursion_state_t */
  datatype RState = RState(lopc: nat, hipc: nat, cfaOffset: int, haveCfaOffset: bool, strstkDepth: nat)

  /** What a visit finds and may change: the recursion state and the stack of strings. */
  datatype Ctx = Ctx(rstate: RState, symstk: seq<string>)

  /** A visit and what it found. */
  datatype Visit = Visit(id: nat, found: Ctx)

  /** What a visit does to what it finds. */
  type Visitor = (nat, Ctx) -> Ctx

  datatype Next = End | Overflow | At(die: Die)

  const HEIGHT := 16

  function Zero(): RState
  {
    RState(0, 0, 0, false, 0)
  }

  function Empty(): Ctx
  {
    Ctx(Zero(), [])
  }

  /** A visit pushes strings, and pops none but its own. */
  ghost predicate OnlyPushes(visit: Visitor)
  {
    forall id: nat, c: Ctx :: c.symstk <= visit(id, c).symstk
  }

  /** What a visit leaves to the children. */
  function Left(visit: Visitor, d: Die, c: Ctx): Ctx
  {
    Saved(visit(d.id, c))
  }

  function Saved(c: Ctx): Ctx
  {
    c.(rstate := c.rstate.(strstkDepth := |c.symstk|))
  }

  // ---- the recursion that the walk stands for ---------------------------------------------

  /** Every die once, before its children, and finding what its parent's visit left. */
  function Tree(visit: Visitor, d: Die, c: Ctx): seq<Visit>
    decreases d, 1
  {
    [Visit(d.id, c)] + Forest(visit, d.children, Left(visit, d, c))
  }

  function Forest(visit: Visitor, ds: seq<Die>, c: Ctx): seq<Visit>
    decreases ds, 0
  {
    if ds == [] then [] else Tree(visit, ds[0], c) + Forest(visit, ds[1..], c)
  }

  /** Compilation units are visited from an empty state. */
  function Units(visit: Visitor, cus: seq<Die>): seq<Visit>
  {
    if cus == [] then [] else Tree(visit, cus[0], Empty()) + Units(visit, cus[1..])
  }

  /** The tree is at most `room` deep. */
  predicate Within(d: Die, room: int)
    decreases d
  {
    room > 0 && forall i | 0 <= i < |d.children| :: Within(d.children[i], room - 1)
  }

  predicate AllWithin(ds: seq<Die>, room: int)
  {
    forall i | 0 <= i < |ds| :: Within(ds[i], room)
  }

  // ---- the walk, place by place -------------------------------------------------------------

  function Size(d: Die): nat
    decreases d, 1
  {
    1 + Sizes(d.children)
  }

  function Sizes(ds: seq<Die>): nat
    decreases ds, 0
  {
    if ds == [] then 0 else Size(ds[0]) + Sizes(ds[1..])
  }

  /** Each die is visited exactly once. */
  lemma {:induction false} ForestSize(visit: Visitor, ds: seq<Die>, c: Ctx)
    ensures |Forest(visit, ds, c)| == Sizes(ds)
    decreases ds
  {
    if ds != [] {
      ForestSize(visit, ds[0].children, Left(visit, ds[0], c));
      ForestSize(visit, ds[1..], c);
    }
  }

  /** Where a die stands in the walk: the place of its parent, or -1 for a unit, and the how-manieth child, or
      unit, it is. */
  datatype Place = Place(die: Die, parent: int, nth: nat)

  /** A child finds the stack of strings as its parent's visit left it, knows how deep that was, and has all
      else of the state from there. */
  predicate Inherits(left: Ctx, found: Ctx)
  {
    found.symstk == left.symstk && found.rstate.strstkDepth == |left.symstk| &&
    found.rstate.lopc == left.rstate.lopc && found.rstate.hipc == left.rstate.hipc &&
    found.rstate.cfaOffset == left.rstate.cfaOffset && found.rstate.haveCfaOffset == left.rstate.haveCfaOffset
  }

  /** Place `i` is a unit's, which finds nothing. */
  predicate UnitAt(cus: seq<Die>, ps: seq<Place>, vs: seq<Visit>, i: nat)
    requires i < |ps| == |vs|
  {
    ps[i].nth < |cus| && ps[i].die == cus[ps[i].nth] && i == Sizes(cus[..ps[i].nth]) &&
    vs[i].found == Ctx(RState(0, 0, 0, false, 0), [])
  }

  /** Place `i` is a child's, which comes after its parent and its parent's earlier children with all that
      is below these, and finds what its parent's visit left. */
  predicate ChildAt(visit: Visitor, ps: seq<Place>, vs: seq<Visit>, i: nat)
    requires i < |ps| == |vs|
  {
    var k, j := ps[i].parent, ps[i].nth;
    0 <= k < i && j < |ps[k].die.children| && ps[i].die == ps[k].die.children[j] &&
    i == k + 1 + Sizes(ps[k].die.children[..j]) && Inherits(visit(vs[k].id, vs[k].found), vs[i].found)
  }

  /** Child `j` of the die at place `k` has a place. */
  predicate HasPlace(ps: seq<Place>, k: nat, j: nat)
    requires k < |ps| && j < |ps[k].die.children|
  {
    var i := k + 1 + Sizes(ps[k].die.children[..j]);
    i < |ps| && ps[i] == Place(ps[k].die.children[j], k, j)
  }

  predicate UnitHasPlace(cus: seq<Die>, ps: seq<Place>, j: nat)
    requires j < |cus|
  {
    var i := Sizes(cus[..j]);
    i < |ps| && ps[i] == Place(cus[j], -1, j)
  }

  /** The visits are of the dies at these places, each once and in preorder, and each finds what it should. */
  ghost predicate Preorder(visit: Visitor, cus: seq<Die>, ps: seq<Place>, vs: seq<Visit>)
  {
    |ps| == |vs| == Sizes(cus) &&
    (forall i | 0 <= i < |vs| :: vs[i].id == ps[i].die.id && if ps[i].parent == -1 then UnitAt(cus, ps, vs, i) else ChildAt(visit, ps, vs, i)) &&
    (forall j | 0 <= j < |cus| :: UnitHasPlace(cus, ps, j)) &&
    (forall k, j | 0 <= k < |ps| && 0 <= j < |ps[k].die.children| :: HasPlace(ps, k, j))
  }

  /** The places of dies that are children of place `parent` from number `nth` on, the first at `at`. */
  function Places(ds: seq<Die>, parent: int, nth: nat, at: nat): (ps: seq<Place>)
    ensures |ps| == Sizes(ds)
    decreases ds
  {
    if ds == [] then [] else
    [Place(ds[0], parent, nth)] + Places(ds[0].children, at, 0, at + 1) + Places(ds[1..], parent, nth + 1, at + Size(ds[0]))
  }

  /** Places from `at` on are those of `ds`, of which each finds `c`. */
  predicate Block(visit: Visitor, ds: seq<Die>, c: Ctx, parent: int, nth: nat, at: nat, ps: seq<Place>, vs: seq<Visit>)
  {
    parent < at && at + Sizes(ds) <= |ps| == |vs| && ps[at..at + Sizes(ds)] == Places(ds, parent, nth, at) &&
    vs[at..at + Sizes(ds)] == Forest(visit, ds, c)
  }

  /** Place `i` is that of one of `ds` itself. */
  predicate TopAt(ds: seq<Die>, c: Ctx, nth: nat, at: nat, ps: seq<Place>, vs: seq<Visit>, i: nat)
    requires i < |ps| == |vs|
  {
    nth <= ps[i].nth < nth + |ds| && ps[i].die == ds[ps[i].nth - nth] && i == at + Sizes(ds[..ps[i].nth - nth]) && vs[i].found == c
  }

  predicate TopHasPlace(ds: seq<Die>, parent: int, nth: nat, at: nat, ps: seq<Place>, j: nat)
    requires j < |ds|
  {
    var i := at + Sizes(ds[..j]);
    i < |ps| && ps[i] == Place(ds[j], parent, nth + j)
  }

  lemma ForestFirst(visit: Visitor, ds: seq<Die>, c: Ctx)
    requires ds != []
    ensures Forest(visit, ds, c) == [Visit(ds[0].id, c)] + Forest(visit, ds[0].children, Left(visit, ds[0], c)) + Forest(visit, ds[1..], c)
  {
    hide Left;
  }

  lemma PlacesFirst(ds: seq<Die>, parent: int, nth: nat, at: nat)
    requires ds != []
    ensures Places(ds, parent, nth, at) ==
            [Place(ds[0], parent, nth)] + Places(ds[0].children, at, 0, at + 1) + Places(ds[1..], parent, nth + 1, at + Size(ds[0]))
    ensures Sizes(ds) == 1 + Sizes(ds[0].children) + Sizes(ds[1..]) && Size(ds[0]) == 1 + Sizes(ds[0].children)
  {
  }

  lemma BlockParts(visit: Visitor, ds: seq<Die>, c: Ctx, parent: int, nth: nat, at: nat, ps: seq<Place>, vs: seq<Visit>)
    requires ds != [] && Block(visit, ds, c, parent, nth, at, ps, vs)
    ensures at < |ps| && ps[at] == Place(ds[0], parent, nth) && vs[at] == Visit(ds[0].id, c)
    ensures Block(visit, ds[0].children, Left(visit, ds[0], c), at, 0, at + 1, ps, vs)
    ensures Block(visit, ds[1..], c, parent, nth + 1, at + Size(ds[0]), ps, vs)
  {
    hide Left, Forest, Places, Size, Sizes;
    ForestSize(visit, ds[0].children, Left(visit, ds[0], c));
    ForestSize(visit, ds[1..], c);
    ForestFirst(visit, ds, c);
    PlacesFirst(ds, parent, nth, at);
    Parts(ps, at, [Place(ds[0], parent, nth)], Places(ds[0].children, at, 0, at + 1), Places(ds[1..], parent, nth + 1, at + Size(ds[0])));
    Parts(vs, at, [Visit(ds[0].id, c)], Forest(visit, ds[0].children, Left(visit, ds[0], c)), Forest(visit, ds[1..], c));
  }

  lemma Parts<T>(s: seq<T>, at: nat, a: seq<T>, b: seq<T>, c: seq<T>)
    requires at + |a| + |b| + |c| <= |s| && s[at..at + |a| + |b| + |c|] == a + b + c
    ensures s[at..at + |a|] == a && s[at + |a|..at + |a| + |b|] == b && s[at + |a| + |b|..at + |a| + |b| + |c|] == c
  {
    var hi := at + |a| + |b| + |c|;
    var t := s[at..hi];
    assert t[..|a|] == a && t[|a|..|a| + |b|] == b && t[|a| + |b|..] == c;
    SliceOfSlice(s, at, hi, 0, |a|);
    SliceOfSlice(s, at, hi, |a|, |a| + |b|);
    SliceOfSlice(s, at, hi, |a| + |b|, |t|);
  }

  lemma SliceOfSlice<T>(s: seq<T>, lo: nat, hi: nat, i: nat, j: nat)
    requires lo <= hi <= |s| && i <= j <= hi - lo
    ensures s[lo..hi][i..j] == s[lo + i..lo + j]
  {
    var t := s[lo..hi];
    assert |t[i..j]| == |s[lo + i..lo + j]|;
    assert forall k | 0 <= k < j - i :: t[i..j][k] == t[i + k] == s[lo + i + k] == s[lo + i..lo + j][k];
  }

  lemma SizesFirst(ds: seq<Die>, j: nat)
    requires 0 < j <= |ds|
    ensures Sizes(ds[..j]) == Size(ds[0]) + Sizes(ds[1..][..j - 1])
  {
    assert ds[..j][1..] == ds[1..][..j - 1];
  }

  /** One visit of such a block. */
  predicate VisitGood(visit: Visitor, ds: seq<Die>, c: Ctx, parent: int, nth: nat, at: nat, ps: seq<Place>, vs: seq<Visit>, i: nat)
    requires i < |ps| == |vs|
  {
    vs[i].id == ps[i].die.id &&
    if ps[i].parent == parent then TopAt(ds, c, nth, at, ps, vs, i) else at <= ps[i].parent && ChildAt(visit, ps, vs, i)
  }

  ghost predicate VisitsGood(visit: Visitor, ds: seq<Die>, c: Ctx, parent: int, nth: nat, at: nat, ps: seq<Place>, vs: seq<Visit>)
  {
    at + Sizes(ds) <= |ps| == |vs| && forall i | at <= i < at + Sizes(ds) :: VisitGood(visit, ds, c, parent, nth, at, ps, vs, i)
  }

  ghost predicate TopsHavePlaces(ds: seq<Die>, parent: int, nth: nat, at: nat, ps: seq<Place>)
  {
    forall j | 0 <= j < |ds| :: TopHasPlace(ds, parent, nth, at, ps, j)
  }

  ghost predicate AllHavePlaces(lo: nat, hi: nat, ps: seq<Place>)
  {
    hi <= |ps| && forall k, j | lo <= k < hi && 0 <= j < |ps[k].die.children| :: HasPlace(ps, k, j)
  }

  lemma {:induction false} BlockIsGood(visit: Visitor, ds: seq<Die>, c: Ctx, parent: int, nth: nat, at: nat, ps: seq<Place>, vs: seq<Visit>)
    requires Block(visit, ds, c, parent, nth, at, ps, vs)
    ensures VisitsGood(visit, ds, c, parent, nth, at, ps, vs)
    ensures TopsHavePlaces(ds, parent, nth, at, ps) && AllHavePlaces(at, at + Sizes(ds), ps)
    decreases ds
  {
    hide Block, VisitsGood, TopsHavePlaces, AllHavePlaces, Left, Sizes, Size, Forest, Places;
    if ds == [] {
      NoBlock(visit, ds, c, parent, nth, at, ps, vs);
    } else {
      PlacesFirst(ds, parent, nth, at);
      BlockParts(visit, ds, c, parent, nth, at, ps, vs);
      BlockIsGood(visit, ds[0].children, Left(visit, ds[0], c), at, 0, at + 1, ps, vs);
      BlockIsGood(visit, ds[1..], c, parent, nth + 1, at + Size(ds[0]), ps, vs);
      BlockSize(visit, ds, c, parent, nth, at, ps, vs);
      VisitsJoin(visit, ds, c, parent, nth, at, ps, vs);
      TopsJoin(ds, parent, nth, at, ps);
      AllJoin(ds, at, ps);
    }
  }

  lemma NoBlock(visit: Visitor, ds: seq<Die>, c: Ctx, parent: int, nth: nat, at: nat, ps: seq<Place>, vs: seq<Visit>)
    requires ds == [] && Block(visit, ds, c, parent, nth, at, ps, vs)
    ensures VisitsGood(visit, ds, c, parent, nth, at, ps, vs)
    ensures TopsHavePlaces(ds, parent, nth, at, ps) && AllHavePlaces(at, at + Sizes(ds), ps)
  {
  }

  lemma BlockSize(visit: Visitor, ds: seq<Die>, c: Ctx, parent: int, nth: nat, at: nat, ps: seq<Place>, vs: seq<Visit>)
    requires Block(visit, ds, c, parent, nth, at, ps, vs)
    ensures parent < at && at + Sizes(ds) <= |ps| == |vs|
  {
  }

  lemma VisitsJoin(visit: Visitor, ds: seq<Die>, c: Ctx, parent: int, nth: nat, at: nat, ps: seq<Place>, vs: seq<Visit>)
    requires ds != [] && parent < at < |ps| && at + Sizes(ds) <= |ps| == |vs|
    requires ps[at] == Place(ds[0], parent, nth) && vs[at] == Visit(ds[0].id, c)
    requires VisitsGood(visit, ds[0].children, Left(visit, ds[0], c), at, 0, at + 1, ps, vs)
    requires VisitsGood(visit, ds[1..], c, parent, nth + 1, at + Size(ds[0]), ps, vs)
    ensures VisitsGood(visit, ds, c, parent, nth, at, ps, vs)
  {
    hide TopAt, ChildAt;
    forall i | at <= i < at + Sizes(ds)
      ensures VisitGood(visit, ds, c, parent, nth, at, ps, vs, i)
    {
      if i == at {
        TopFirst(ds, c, parent, nth, at, ps, vs);
      } else if i < at + Size(ds[0]) {
        assert VisitGood(visit, ds[0].children, Left(visit, ds[0], c), at, 0, at + 1, ps, vs, i);
        BelowFirst(visit, ds[0], c, parent, at, ps, vs, i);
      } else {
        assert VisitGood(visit, ds[1..], c, parent, nth + 1, at + Size(ds[0]), ps, vs, i);
        if ps[i].parent == parent { TopLater(ds, c, nth, at, ps, vs, i); }
      }
    }
  }

  lemma TopFirst(ds: seq<Die>, c: Ctx, parent: int, nth: nat, at: nat, ps: seq<Place>, vs: seq<Visit>)
    requires ds != [] && at < |ps| == |vs| && ps[at] == Place(ds[0], parent, nth) && vs[at] == Visit(ds[0].id, c)
    ensures TopAt(ds, c, nth, at, ps, vs, at)
  {
    assert ds[..0] == [];
  }

  /** What is below the first die has it, or something below it, for its parent. */
  lemma BelowFirst(visit: Visitor, d: Die, c: Ctx, parent: int, at: nat, ps: seq<Place>, vs: seq<Visit>, i: nat)
    requires parent < at < i < |ps| == |vs| && ps[at].die == d && vs[at] == Visit(d.id, c)
    requires VisitGood(visit, d.children, Left(visit, d, c), at, 0, at + 1, ps, vs, i)
    ensures ps[i].parent != parent && at <= ps[i].parent && ChildAt(visit, ps, vs, i)
  {
    hide Sizes;
  }

  lemma TopLater(ds: seq<Die>, c: Ctx, nth: nat, at: nat, ps: seq<Place>, vs: seq<Visit>, i: nat)
    requires ds != [] && i < |ps| == |vs| && TopAt(ds[1..], c, nth + 1, at + Size(ds[0]), ps, vs, i)
    ensures TopAt(ds, c, nth, at, ps, vs, i)
  {
    SizesFirst(ds, ps[i].nth - nth);
    hide Sizes, Size;
  }

  lemma TopsJoin(ds: seq<Die>, parent: int, nth: nat, at: nat, ps: seq<Place>)
    requires ds != [] && at < |ps| && ps[at] == Place(ds[0], parent, nth)
    requires TopsHavePlaces(ds[1..], parent, nth + 1, at + Size(ds[0]), ps)
    ensures TopsHavePlaces(ds, parent, nth, at, ps)
  {
    forall j | 0 <= j < |ds|
      ensures TopHasPlace(ds, parent, nth, at, ps, j)
    {
      if j == 0 {
        assert ds[..0] == [];
      } else {
        SizesFirst(ds, j);
        assert TopHasPlace(ds[1..], parent, nth + 1, at + Size(ds[0]), ps, j - 1);
      }
    }
  }

  lemma AllJoin(ds: seq<Die>, at: nat, ps: seq<Place>)
    requires ds != [] && at < |ps| && ps[at].die == ds[0] && TopsHavePlaces(ds[0].children, at, 0, at + 1, ps)
    requires AllHavePlaces(at + 1, at + 1 + Sizes(ds[0].children), ps)
    requires AllHavePlaces(at + Size(ds[0]), at + Size(ds[0]) + Sizes(ds[1..]), ps)
    ensures AllHavePlaces(at, at + Sizes(ds), ps)
  {
    forall k, j | at <= k < at + Sizes(ds) && 0 <= j < |ps[k].die.children|
      ensures HasPlace(ps, k, j)
    {
      if k == at { assert TopHasPlace(ds[0].children, at, 0, at + 1, ps, j); }
    }
  }

  lemma {:induction false} UnitsAreForest(visit: Visitor, cus: seq<Die>)
    ensures Units(visit, cus) == Forest(visit, cus, Empty())
  {
    if cus != [] { UnitsAreForest(visit, cus[1..]); }
  }

  /** The recursion that the walk stands for visits every die once, in preorder, and lets it find what it should. */
  lemma UnitsInOrder(visit: Visitor, cus: seq<Die>)
    ensures Preorder(visit, cus, Places(cus, -1, 0, 0), Units(visit, cus))
  {
    hide Forest, Places, Units, VisitsGood, TopsHavePlaces, AllHavePlaces, Preorder, Sizes;
    var ps, vs := Places(cus, -1, 0, 0), Units(visit, cus);
    UnitsAreForest(visit, cus);
    ForestSize(visit, cus, Empty());
    assert ps[0..0 + Sizes(cus)] == ps && vs[0..0 + Sizes(cus)] == vs;
    BlockIsGood(visit, cus, Empty(), -1, 0, 0, ps, vs);
    WholeBlock(visit, cus, ps, vs);
  }

  lemma WholeBlock(visit: Visitor, cus: seq<Die>, ps: seq<Place>, vs: seq<Visit>)
    requires |ps| == |vs| == Sizes(cus) && VisitsGood(visit, cus, Empty(), -1, 0, 0, ps, vs)
    requires TopsHavePlaces(cus, -1, 0, 0, ps) && AllHavePlaces(0, |ps|, ps)
    ensures Preorder(visit, cus, ps, vs)
  {
    hide Sizes, ChildAt, HasPlace;
    forall i | 0 <= i < |vs|
      ensures vs[i].id == ps[i].die.id && if ps[i].parent == -1 then UnitAt(cus, ps, vs, i) else ChildAt(visit, ps, vs, i)
    {
      assert VisitGood(visit, cus, Empty(), -1, 0, 0, ps, vs, i);
    }
    forall j | 0 <= j < |cus|
      ensures UnitHasPlace(cus, ps, j)
    {
      assert TopHasPlace(cus, -1, 0, 0, ps, j);
    }
  }

  // ---- what the stack stands for ---------------------------------------------------------

  /** An entry of the walk's stack: dies yet to visit, and what they are to find. */
  datatype Level = Level(dies: seq<Die>, ctx: Ctx)

  function Pending(visit: Visitor, levels: seq<Level>): seq<Visit>
  {
    if levels == [] then [] else
    var top := levels[|levels| - 1];
    Forest(visit, top.dies, top.ctx) + Pending(visit, levels[..|levels| - 1])
  }

  predicate LevelsWithin(levels: seq<Level>)
  {
    forall i | 0 <= i < |levels| :: AllWithin(levels[i].dies, HEIGHT - i)
  }

  /** Each level finds a prefix of what the next finds; the compilation unit's own level has
      no dies, and what its entry holds does not matter. */
  predicate Nested(levels: seq<Level>, symstk: seq<string>)
  {
    (levels != [] ==> levels[0].dies == []) &&
    (forall i | 1 <= i < |levels| ::
       levels[i].ctx.symstk <= symstk && levels[i].ctx.rstate.strstkDepth == |levels[i].ctx.symstk|) &&
    (forall i, j | 1 <= i < j < |levels| :: levels[i].ctx.symstk <= levels[j].ctx.symstk)
  }

  lemma PendingTop(visit: Visitor, levels: seq<Level>, top: Level)
    ensures Pending(visit, levels + [top]) == Forest(visit, top.dies, top.ctx) + Pending(visit, levels)
  {
    assert (levels + [top])[..|levels|] == levels;
  }

  /** dwarf_walk_t. A pointer to a die is the list of the die and its later siblings; the null
      pointer is the empty list. */
  class Walk {
    var height: nat
    var die: array<seq<Die>>
    var rstate: array<RState>
    var ctx: Ctx
    /** The entry that is still to be given the state that the last visit leaves. */
    var push: int
    /** The compilation units to come. */
    var cus: seq<Die>
    ghost var levels: seq<Level>

    ghost predicate Shape()
      reads this, die, rstate
    {
      die.Length == HEIGHT && rstate.Length == HEIGHT && height <= HEIGHT && |levels| == height &&
      -1 <= push < height && (push >= 0 ==> push == height - 1) &&
      forall i | 0 <= i < height :: die[i] == levels[i].dies
    }

    /** The entries hold what the levels say; the last may still have to be given its state. */
    ghost predicate Holds()
      reads this, die, rstate
      requires Shape()
    {
      forall i | 1 <= i < height && i != push :: rstate[i] == levels[i].ctx.rstate
    }

    /** Before a step: the visit is over, and what it left is the last level's. */
    ghost predicate Ready(visit: Visitor)
      reads this, die, rstate
    {
      Shape() && Holds() && Nested(levels, ctx.symstk) && (height == 0 ==> ctx == Empty()) &&
      (push >= 1 ==> levels[push].ctx == Saved(ctx))
    }

    constructor (forest: seq<Die>)
      ensures height == 0 && levels == [] && push == -1 && ctx == Empty() && cus == forest
      ensures fresh(die) && fresh(rstate) && Shape() && Holds() && Nested(levels, ctx.symstk)
    {
      height, push, ctx, cus, levels := 0, -1, Empty(), forest, [];
      die := new seq<Die>[HEIGHT](_ => []);
      rstate := new RState[HEIGHT](_ => Zero());
    }

    /** strstack_popto */
    method PopTo(nfull: nat)
      modifies this`ctx
      ensures ctx == old(ctx).(symstk := if |old(ctx).symstk| <= nfull then old(ctx).symstk else old(ctx).symstk[..nfull])
    {
      while |ctx.symstk| > nfull
        invariant ctx == old(ctx).(symstk := ctx.symstk) && ctx.symstk <= old(ctx).symstk
        invariant |ctx.symstk| >= nfull || ctx.symstk == old(ctx).symstk
      {
        ctx := ctx.(symstk := ctx.symstk[..|ctx.symstk| - 1]);
      }
    }

    /** The state of the last visit is saved for its children. */
    method SavePush(ghost visit: Visitor)
      requires Ready(visit)
      modifies this`push, rstate
      ensures Ready(visit) && push == -1
    {
      if push >= 0 {
        rstate[push] := ctx.rstate.(strstkDepth := |ctx.symstk|);
        push := -1;
      }
    }

    /** One exhausted entry is dropped. */
    method Drop(ghost visit: Visitor)
      requires Ready(visit) && push == -1 && height > 0 && die[height - 1] == []
      modifies this`height, this`ctx, this`levels
      ensures Ready(visit) && height == old(height) - 1 && levels == old(levels)[..height]
    {
      hide Pending, LevelsWithin, Within;
      ghost var all := levels;
      height := height - 1;
      levels := all[..height];
      if height > 0 {
        ctx := ctx.(rstate := rstate[height - 1]);
        PopTo(ctx.rstate.strstkDepth);
      } else {
        ctx := ctx.(rstate := Zero());
        PopTo(0);
      }
      if height > 1 {
        assert all[height - 1].ctx.symstk <= old(ctx.symstk);
        assert ctx.symstk == all[height - 1].ctx.symstk;
      }
    }

    /** Exhausted entries are dropped, and the state of the entry below is taken up. */
    method PopExhausted(ghost visit: Visitor)
      requires Ready(visit) && push == -1
      modifies this`height, this`ctx, this`levels
      ensures Ready(visit) && push == -1 && (height > 0 ==> levels[height - 1].dies != [])
      ensures Pending(visit, levels) == old(Pending(visit, levels))
      ensures LevelsWithin(levels) == old(LevelsWithin(levels))
    {
      hide Pending, LevelsWithin, Within, Nested;
      while height > 0 && die[height - 1] == []
        invariant Ready(visit) && push == -1
        invariant Pending(visit, levels) == old(Pending(visit, levels))
        invariant LevelsWithin(levels) == old(LevelsWithin(levels))
        decreases height
      {
        ghost var before := levels;
        Drop(visit);
        Exhausted(visit, before);
      }
    }

    /** A die has been returned; the caller is about to visit it. */
    ghost predicate Visiting(visit: Visitor, d: Die)
      reads this, die, rstate
    {
      Shape() && Holds() && height > 0 && Nested(levels, visit(d.id, ctx).symstk) &&
      (push >= 1 ==> levels[push].ctx == Left(visit, d, ctx))
    }

    /** The children of a die, if it has any, get an entry of their own, which is to be given
        the state that the visit leaves. */
    method PushChildren(ghost visit: Visitor, d: Die) returns (ok: bool)
      requires Shape() && Holds() && 0 < height && Nested(levels, visit(d.id, ctx).symstk) && push < 1
      modifies this`height, this`push, this`levels, die
      ensures ok <==> d.children == [] || old(height) < HEIGHT
      ensures ok ==> Visiting(visit, d) && levels == if d.children == [] then old(levels) else old(levels) + [Level(d.children, Left(visit, d, ctx))]
    {
      hide Within;
      if d.children == [] {
        return true;
      }
      if height == HEIGHT {
        return false;
      }
      die[height] := d.children;
      levels := levels + [Level(d.children, Left(visit, d, ctx))];
      push := height;
      height := height + 1;
      ok := true;
    }

    /** Die `d` has been taken off its entry, and the context is what it is to find. */
    ghost predicate Took(d: Die)
      reads this, die, rstate
    {
      Shape() && Holds() && push < 1 && height > 0 && Nested(levels, ctx.symstk)
    }

    /** The next compilation unit starts a stack. */
    method TakeUnit(ghost visit: Visitor) returns (last: Die)
      requires Ready(visit) && push == -1 && height == 0 && cus != []
      modifies this, die
      ensures die == old(die) && rstate == old(rstate) && Took(last)
      ensures Units(visit, old(cus)) == [Visit(last.id, ctx)] + Following(visit, last, ctx, levels, cus)
      ensures AllWithin(old(cus), HEIGHT) <==> Within(last, HEIGHT - (|levels| - 1)) && LevelsWithin(levels) && AllWithin(cus, HEIGHT)
    {
      hide Pending, Within, Units, Forest, Tree, AllWithin, LevelsWithin, Following;
      ghost var cus0 := cus;
      last := cus[0];
      cus := cus[1..];
      ctx := ctx.(rstate := ctx.rstate.(lopc := 0, hipc := 0));
      height, push := 1, 0;
      die[0] := [];
      levels := [Level([], ctx)];
      FirstUnit(visit, cus0, ctx, levels);
    }

    /** The next die of the last entry. */
    method TakeDie(ghost visit: Visitor) returns (last: Die)
      requires Ready(visit) && push == -1 && height > 0 && die[height - 1] != []
      modifies this`ctx, this`levels, die
      ensures Took(last)
      ensures old(Pending(visit, levels)) + Units(visit, cus) == [Visit(last.id, ctx)] + Following(visit, last, ctx, levels, cus)
      ensures old(LevelsWithin(levels)) <==> Within(last, HEIGHT - (|levels| - 1)) && LevelsWithin(levels)
    {
      hide Pending, Within, Units, Forest, Tree, AllWithin, LevelsWithin, Following;
      ghost var levels0 := levels;
      last := die[height - 1][0];
      ctx := ctx.(rstate := rstate[height - 1]);
      PopTo(ctx.rstate.strstkDepth);
      assert ctx == levels[height - 1].ctx;
      die[height - 1] := die[height - 1][1..];
      levels := levels[height - 1 := Level(levels[height - 1].dies[1..], ctx)];
      FirstDie(visit, levels0, cus, ctx);
    }

    /** dwarf_walk_next_in_tree */
    method NextInTree(ghost visit: Visitor) returns (next: Next)
      requires Ready(visit) && OnlyPushes(visit)
      modifies this, die, rstate
      ensures die == old(die) && rstate == old(rstate)
      ensures next.End? ==> old(Pending(visit, levels)) + Units(visit, old(cus)) == [] && old(LevelsWithin(levels)) && old(cus) == []
      ensures next.Overflow? ==> !(old(LevelsWithin(levels)) && AllWithin(old(cus), HEIGHT))
      ensures next.At? ==>
                Visiting(visit, next.die) &&
                old(Pending(visit, levels)) + Units(visit, old(cus)) ==
                [Visit(next.die.id, ctx)] + (Pending(visit, levels) + Units(visit, cus)) &&
                (LevelsWithin(levels) && AllWithin(cus, HEIGHT) <==> old(LevelsWithin(levels)) && AllWithin(old(cus), HEIGHT))
    {
      hide Pending, LevelsWithin, Within, Units, Forest, Tree, AllWithin, Following, Nested, OnlyPushes;
      SavePush(visit);
      PopExhausted(visit);
      var last;
      if height == 0 {
        NothingPending(visit, levels);
        if cus == [] {
          NoUnits(visit, cus);
          return End;
        }
        last := TakeUnit(visit);
      } else {
        last := TakeDie(visit);
      }
      NestedMore(visit, levels, last, ctx);
      ghost var levels1 := levels;
      var ok := PushChildren(visit, last);
      if !ok {
        TooDeep(last);
        return Overflow;
      }
      Deeper(visit, levels1, cus, last, ctx, levels);
      next := At(last);
    }

    /** The walk of a whole file, with a visit of every die that it returns. */
    method WalkAll(visit: Visitor) returns (visits: seq<Visit>, ok: bool, ghost places: seq<Place>)
      requires Ready(visit) && OnlyPushes(visit) && height == 0
      modifies this, die, rstate
      ensures ok <==> AllWithin(old(cus), 16)
      ensures ok ==> visits == Units(visit, old(cus)) && Preorder(visit, old(cus), places, visits)
      ensures !ok ==> visits <= Units(visit, old(cus))
    {
      hide Preorder, Places, Pending, LevelsWithin, Within, Units, AllWithin, Nested, OnlyPushes;
      visits, places := [], Places(cus, -1, 0, 0);
      ghost var whole := Units(visit, cus);
      UnitsInOrder(visit, cus);
      NothingPending(visit, levels);
      assert [] + ([] + whole) == whole;
      while true
        invariant Ready(visit) && die == old(die) && rstate == old(rstate)
        invariant visits + (Pending(visit, levels) + Units(visit, cus)) == whole
        invariant LevelsWithin(levels) && AllWithin(cus, HEIGHT) <==> AllWithin(old(cus), HEIGHT)
        decreases |whole| - |visits|
      {
        ghost var before, rest := visits, Pending(visit, levels) + Units(visit, cus);
        var next := NextInTree(visit);
        match next {
          case End =>
            assert visits + [] == visits;
            NoneWithin();
            return visits, true, places;
          case Overflow =>
            return visits, false, places;
          case At(d) =>
            visits := visits + [Visit(d.id, ctx)];
            assert before + ([Visit(d.id, ctx)] + (Pending(visit, levels) + Units(visit, cus))) == visits + (Pending(visit, levels) + Units(visit, cus));
            ctx := visit(d.id, ctx);
        }
      }
    }
  }

  /** An exhausted entry stands for nothing. */
  lemma Exhausted(visit: Visitor, levels: seq<Level>)
    requires levels != [] && levels[|levels| - 1].dies == []
    ensures var below := levels[..|levels| - 1];
            Pending(visit, levels) == Pending(visit, below) && (LevelsWithin(levels) <==> LevelsWithin(below))
  {
    hide Within;
    var below := levels[..|levels| - 1];
    assert [] + Pending(visit, below) == Pending(visit, below);
    assert forall i | 0 <= i < |below| :: below[i] == levels[i];
  }

  lemma NothingPending(visit: Visitor, levels: seq<Level>)
    requires levels == []
    ensures Pending(visit, levels) == [] && LevelsWithin(levels)
  {
  }

  lemma NoUnits(visit: Visitor, cus: seq<Die>)
    requires cus == []
    ensures Units(visit, cus) == []
  {
  }

  /** What a die and all that follows stand for, once it has been taken off its level. */
  function Following(visit: Visitor, d: Die, c: Ctx, levels: seq<Level>, cus: seq<Die>): seq<Visit>
  {
    Forest(visit, d.children, Left(visit, d, c)) + (Pending(visit, levels) + Units(visit, cus))
  }

  lemma FirstUnit(visit: Visitor, cus: seq<Die>, c: Ctx, levels: seq<Level>)
    requires cus != [] && c == Empty() && levels == [Level([], c)]
    ensures Units(visit, cus) == [Visit(cus[0].id, c)] + Following(visit, cus[0], c, levels, cus[1..])
    ensures AllWithin(cus, HEIGHT) <==> Within(cus[0], HEIGHT) && LevelsWithin(levels) && AllWithin(cus[1..], HEIGHT)
  {
    hide Within, Forest, Left;
    Exhausted(visit, levels);
    NothingPending(visit, []);
    assert levels[..0] == [];
    var kids, rest := Forest(visit, cus[0].children, Left(visit, cus[0], c)), Units(visit, cus[1..]);
    assert Units(visit, cus) == [Visit(cus[0].id, c)] + kids + rest;
    Associate([Visit(cus[0].id, c)], kids, rest);
    assert [] + rest == rest;
    AllWithinFirst(cus, HEIGHT);
  }

  lemma AllWithinFirst(ds: seq<Die>, room: int)
    requires ds != []
    ensures AllWithin(ds, room) <==> Within(ds[0], room) && AllWithin(ds[1..], room)
  {
    hide Within;
    assert forall i | 0 < i < |ds| :: ds[i] == ds[1..][i - 1];
  }

  lemma FirstDie(visit: Visitor, levels: seq<Level>, cus: seq<Die>, c: Ctx)
    requires levels != [] && levels[|levels| - 1].dies != [] && levels[|levels| - 1].ctx == c
    ensures var top := levels[|levels| - 1];
            var d, levels' := top.dies[0], levels[|levels| - 1 := Level(top.dies[1..], c)];
            Pending(visit, levels) + Units(visit, cus) == [Visit(d.id, c)] + Following(visit, d, c, levels', cus) &&
            (LevelsWithin(levels) <==> Within(d, HEIGHT - (|levels| - 1)) && LevelsWithin(levels'))
  {
    hide Within, Units, Left;
    var top, below := levels[|levels| - 1], levels[..|levels| - 1];
    var d, top' := top.dies[0], Level(top.dies[1..], c);
    var levels' := levels[|levels| - 1 := top'];
    assert levels == below + [top] && levels' == below + [top'];
    PendingTop(visit, below, top);
    PendingTop(visit, below, top');
    var kids, rest := Forest(visit, d.children, Left(visit, d, c)), Forest(visit, top'.dies, c);
    assert Forest(visit, top.dies, c) == [Visit(d.id, c)] + kids + rest;
    FourParts([Visit(d.id, c)], kids, rest, Pending(visit, below), Units(visit, cus));
    AllWithinFirst(top.dies, HEIGHT - (|levels| - 1));
    forall i | 0 <= i < |below| ensures levels[i] == levels'[i] {
    }
    WithinTop(below, top);
    WithinTop(below, top');
  }

  lemma WithinTop(below: seq<Level>, top: Level)
    ensures LevelsWithin(below + [top]) <==> LevelsWithin(below) && AllWithin(top.dies, HEIGHT - |below|)
  {
    hide AllWithin;
    assert forall i | 0 <= i < |below| :: (below + [top])[i] == below[i];
    assert (below + [top])[|below|] == top;
  }

  lemma FourParts<T>(a: seq<T>, b: seq<T>, c: seq<T>, d: seq<T>, e: seq<T>)
    ensures a + b + c + d + e == a + (b + (c + d + e))
  {
  }

  /** A die's children are what its own entry stands for. */
  lemma Deeper(visit: Visitor, levels: seq<Level>, cus: seq<Die>, d: Die, c: Ctx, levels': seq<Level>)
    requires 0 < |levels| <= HEIGHT && (d.children == [] || |levels| < HEIGHT)
    requires levels' == if d.children == [] then levels else levels + [Level(d.children, Left(visit, d, c))]
    ensures Following(visit, d, c, levels, cus) == Pending(visit, levels') + Units(visit, cus)
    ensures Within(d, HEIGHT - (|levels| - 1)) && LevelsWithin(levels) <==> LevelsWithin(levels')
  {
    hide Left, Units, Pending;
    var kids := Forest(visit, d.children, Left(visit, d, c));
    Associate(kids, Pending(visit, levels), Units(visit, cus));
    if d.children == [] {
      assert kids == [] && [] + Pending(visit, levels) == Pending(visit, levels);
    } else {
      var top := Level(d.children, Left(visit, d, c));
      PendingTop(visit, levels, top);
      WithinTop(levels, top);
    }
  }

  lemma TooDeep(d: Die)
    requires d.children != []
    ensures !Within(d, 1)
  {
    assert !Within(d.children[0], 0);
  }

  lemma NestedMore(visit: Visitor, levels: seq<Level>, d: Die, c: Ctx)
    requires OnlyPushes(visit) && Nested(levels, c.symstk)
    ensures Nested(levels, visit(d.id, c).symstk)
  {
    assert c.symstk <= visit(d.id, c).symstk;
  }

  lemma NoneWithin()
    ensures AllWithin([], HEIGHT)
  {
  }
}
