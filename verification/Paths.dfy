/** From an offset into a variable to the member or element that lies there: walk_members and
    walk_elements of rvsyms/rvsyms.c. */
module Paths {
  import opened Basics

  /** A type, once typedefs and qualifiers have been followed. An array has its dimensions in
      row-major order. The program does not look into a `Leaf`, and cannot size `Unsized`. */
  datatype Type =
    | Leaf(size: nat)
    | Struct(size: nat, members: seq<Member>)
    | Array(dims: seq<nat>, elem: Type)
    | Unsized

  /** A child of a structure: `isMember` if its tag is DW_TAG_member. */
  datatype Member = Member(isMember: bool, location: Option<nat>, name: Option<string>, t: Type)

  /** What is pushed on the stack of strings: ".name" or "[index]". The member's number and the
      stride are not printed; they say what the step means. */
  datatype Step = Field(k: nat, name: string) | Index(i: nat)

  function Product(dims: seq<nat>): nat
  {
    if dims == [] then 1 else dims[0] * Product(dims[1..])
  }

  /** dwarf_type_size, and dwarf_array_type_size */
  function Size(t: Type): int
  {
    match t
    case Leaf(size) => size
    case Struct(size, _) => size
    case Array(dims, elem) => if Size(elem) < 0 then -1 else Product(dims) * Size(elem)
    case Unsized => -1
  }

  /** The member holds the byte at `residue`, and the program can tell. */
  predicate Contains(m: Member, residue: nat)
  {
    m.isMember && m.location.Some? && m.name.Some? && Size(m.t) >= 0 &&
    m.location.value <= residue < m.location.value + Size(m.t)
  }

  /** Arrays have at most ten dimensions, and indices are ints. */
  predicate Fits(t: Type)
    decreases t
  {
    match t
    case Leaf(_) => true
    case Unsized => true
    case Array(dims, elem) => |dims| <= 10 && (forall i | 0 <= i < |dims| :: dims[i] <= 0x8000_0000) && Fits(elem)
    case Struct(_, members) => forall i | 0 <= i < |members| :: Fits(members[i].t)
  }

  // ---- what a path means -----------------------------------------------------------

  /** An array without dimensions left is its element. */
  function Strip(t: Type): Type
  {
    if t.Array? && t.dims == [] then Strip(t.elem) else t
  }

  /** Where a path leads: the offset of its end, and the type there. */
  function Locate(t: Type, path: seq<Step>): Option<(nat, Type)>
    decreases |path|
  {
    if path == [] then Some((0, t)) else
    match path[0]
    case Field(k, name) =>
      if t.Struct? && k < |t.members| && t.members[k].location.Some? && t.members[k].name == Some(name) then
        Shifted(t.members[k].location.value, Locate(Strip(t.members[k].t), path[1..]))
      else None
    case Index(i) =>
      if t.Array? && t.dims != [] && i < t.dims[0] && Size(t.elem) >= 0 then
        Shifted(i * (Product(t.dims[1..]) * Size(t.elem)), Locate(Strip(Array(t.dims[1..], t.elem)), path[1..]))
      else None
  }

  function Shifted(ofs: nat, r: Option<(nat, Type)>): Option<(nat, Type)>
  {
    match r
    case None => None
    case Some(p) => Some((ofs + p.0, p.1))
  }

  lemma {:induction false} LocateConcat(t: Type, p: seq<Step>, q: seq<Step>)
    requires Locate(t, p).Some?
    ensures Locate(t, p + q) == Shifted(Locate(t, p).value.0, Locate(Locate(t, p).value.1, q))
    decreases |p|
  {
    if p == [] {
      assert p + q == q;
    } else {
      assert (p + q)[1..] == p[1..] + q;
      match p[0]
      case Field(k, _) => LocateConcat(Strip(t.members[k].t), p[1..], q);
      case Index(_) => LocateConcat(Strip(Array(t.dims[1..], t.elem)), p[1..], q);
    }
  }

  /** Nothing further can be told about the byte at `residue` of this type. */
  predicate Resolved(t: Type, residue: nat)
  {
    match t
    case Struct(_, members) => forall k | 0 <= k < |members| :: !Contains(members[k], residue)
    case Array(_, _) => false
    case _ => true
  }

  /** The byte at `r` lies in what one step leads to. */
  predicate Reaches(t: Type, s: Step, r: nat)
  {
    var l := Locate(t, [s]);
    l.Some? && l.value.0 <= r < l.value.0 + Size(l.value.1)
  }

  /** No member before number `k` is, or holds, the byte at `r`. */
  ghost predicate NoneBefore(t: Type, k: nat, r: nat)
    requires t.Struct?
  {
    forall j, name | 0 <= j < k && j < |t.members| && t.members[j].isMember :: !Reaches(t, Field(j, name), r)
  }

  /** Each step of `p` leads to where the byte at `r` lies; among members, to the first that does. */
  ghost predicate Steps(t: Type, p: seq<Step>, r: nat)
    decreases |p|
  {
    p == [] ||
    (Reaches(t, p[0], r) &&
     (p[0].Field? ==> t.Struct? && p[0].k < |t.members| && t.members[p[0].k].isMember && NoneBefore(t, p[0].k, r)) &&
     var l := Locate(t, [p[0]]).value;
     Steps(l.1, p[1..], r - l.0))
  }

  /** No step leads on to the byte at `r`. */
  ghost predicate Final(t: Type, r: nat)
  {
    !t.Array? && (t.Struct? ==> NoneBefore(t, |t.members|, r))
  }

  /** A member that holds the byte is one to which a step leads there. */
  lemma ContainsIsReaches(t: Type, k: nat, r: nat, name: string)
    requires t.Struct? && k < |t.members|
    ensures t.members[k].isMember && Reaches(t, Field(k, name), r) ==> Contains(t.members[k], r) && t.members[k].name == Some(name)
    ensures Contains(t.members[k], r) && t.members[k].name == Some(name) ==> Reaches(t, Field(k, name), r)
  {
    assert [Field(k, name)][1..] == [];
    StripSize(t.members[k].t);
  }

  lemma NoneContains(t: Type, k: nat, r: nat)
    requires t.Struct? && k <= |t.members| && forall j | 0 <= j < k :: !Contains(t.members[j], r)
    ensures NoneBefore(t, k, r)
  {
    hide Reaches, Contains;
    forall j, name | 0 <= j < k && t.members[j].isMember
      ensures !Reaches(t, Field(j, name), r)
    {
      ContainsIsReaches(t, j, r, name);
    }
  }

  lemma ResolvedIsFinal(t: Type, r: nat)
    requires Resolved(t, r)
    ensures Final(t, r)
  {
    if t.Struct? { NoneContains(t, |t.members|, r); }
  }

  lemma {:induction false} StepsOn(t: Type, p: seq<Step>, r: nat, mid: Type, r1: nat, q: seq<Step>)
    requires Leads(t, p, r, mid, r1) && Steps(t, p, r) && Steps(mid, q, r1)
    ensures Steps(t, p + q, r)
    decreases |p|
  {
    if p == [] {
      assert p + q == q;
    } else {
      hide Reaches, NoneBefore;
      assert (p + q)[1..] == p[1..] + q;
      LocateConcat(t, [p[0]], p[1..]);
      assert [p[0]] + p[1..] == p;
      var l := Locate(t, [p[0]]).value;
      StepsOn(l.1, p[1..], r - l.0, mid, r1, q);
    }
  }

  /** Elements lie row by row. */
  lemma RowMajor(rows: nat, columns: nat, elem: Type, i: nat, j: nat)
    requires Size(elem) >= 0 && i < rows && j < columns
    ensures Locate(Array([rows, columns], elem), [Index(i), Index(j)]) == Some(((i * columns + j) * Size(elem), Strip(elem)))
  {
    assert [Index(i), Index(j)][1..] == [Index(j)] && [Index(j)][1..] == [];
    assert [rows, columns][1..] == [columns] && [columns][1..] == [];
    var size: nat := Size(elem);
    assert Product([columns]) == columns * Product([]) == columns;
    assert Locate(Array([columns], elem), [Index(j)]) == Some((j * size, Strip(elem)));
    MulAssociates(i, columns, size);
    MulDistributes(i * columns, j, size);
  }

  lemma MulDistributes(a: nat, b: nat, c: nat)
    ensures (a + b) * c == a * c + b * c
  {
  }

  lemma ProductSplit(dims: seq<nat>, i: nat)
    requires i < |dims|
    ensures Product(dims[i..]) == dims[i] * Product(dims[i + 1..])
  {
    assert dims[i..][1..] == dims[i + 1..];
  }

  /** Dividing by the stride gives an index below the dimension. */
  lemma Division(residue: nat, stride: nat, dim: nat)
    requires residue < dim * stride
    ensures stride > 0 && residue / stride < dim && residue - residue / stride * stride < stride
    ensures 0 <= residue - residue / stride * stride
  {
    var q := residue / stride;
    assert residue == q * stride + residue % stride;
    if q >= dim { MulLe(dim, q, stride); }
  }

  lemma MulLe(a: nat, b: nat, c: nat)
    requires a <= b
    ensures a * c <= b * c
  {
  }

  /** The part of the walk's context that the path uses: the stack of strings and the residue. */
  class Ctx {
    var symstk: seq<Step>
    var residue: nat

    constructor (residue: nat)
      ensures this.residue == residue && symstk == []
    {
      this.residue, symstk := residue, [];
    }

    /** What the two walks promise about the steps `p` that they push: they lead to a type `end`
        in which what is left of the residue is the rest of the offset; each leads to where the byte lies,
        to the first member that holds it; and no further step does. */
    twostate predicate Walked(t: Type, p: seq<Step>, end: Type)
      reads this
    {
      symstk == old(symstk) + p && Leads(t, p, old(residue), end, residue) && Steps(t, p, old(residue)) && Final(end, residue)
    }

    /** walk_members */
    method WalkMembers(t: Type) returns (found: bool, ghost p: seq<Step>, ghost end: Type)
      requires t.Struct? && Fits(t)
      modifies this
      ensures found ==> Walked(t, p, end)
      ensures !found ==> symstk == old(symstk) && residue == old(residue) && Final(t, residue)
      decreases t, 0
    {
      hide Leads, Resolved, Final, Steps, Reaches, NoneBefore, Locate, Strip;
      p, end := [], t;
      var k := 0;
      while k < |t.members|
        invariant 0 <= k <= |t.members| && symstk == old(symstk) && residue == old(residue)
        invariant forall j | 0 <= j < k :: !Contains(t.members[j], residue)
      {
        var m := t.members[k];
        if !m.isMember || m.location.None? || m.name.None? || Size(m.t) < 0 ||
           residue < m.location.value || m.location.value + Size(m.t) <= residue {
          k := k + 1;
          continue;
        }
        OneField(t, k, residue);
        NoneContains(t, k, residue);
        symstk := symstk + [Field(k, m.name.value)];
        residue := residue - m.location.value;
        ghost var r1, q := residue, [];
        StripSize(m.t);
        q, end := WalkInto(m.t);
        p := [Field(k, m.name.value)] + q;
        LeadsOn(t, [Field(k, m.name.value)], old(residue), Strip(m.t), r1, q, end, residue);
        FieldSteps(t, k, old(residue));
        StepsOn(t, [Field(k, m.name.value)], old(residue), Strip(m.t), r1, q);
        assert symstk == old(symstk) + p;
        return true, p, end;
      }
      NoMember(t, residue);
      ResolvedIsFinal(t, residue);
      found := false;
    }

    /** What both walks do with the type that they have come to. */
    method WalkInto(t: Type) returns (ghost p: seq<Step>, ghost end: Type)
      requires Fits(t) && residue < Size(t)
      modifies this
      ensures Walked(Strip(t), p, end)
      decreases t, 1
    {
      hide Leads, Resolved, Final, Steps, Reaches, NoneBefore, Locate, Strip;
      StripSize(t);
      StripOther(t);
      p, end := [], t;
      LeadsNowhere(t, residue);
      StepsNowhere(t, residue);
      assert symstk + [] == symstk;
      var inner;
      match t {
        case Struct(_, _) =>
          inner, p, end := WalkMembers(t);
          if !inner { p, end := [], t; }
        case Array(_, _) =>
          inner, p, end := WalkElements(t);
        case _ =>
          LeafResolved(t, residue);
          ResolvedIsFinal(t, residue);
      }
    }

    /** walk_elements */
    method WalkElements(t: Type) returns (found: bool, ghost p: seq<Step>, ghost end: Type)
      requires t.Array? && Fits(t) && Size(t) >= 0 && (t.dims == [] ==> residue < Size(t))
      modifies this
      ensures found <==> old(residue) < Size(t)
      ensures found ==> Walked(Strip(t), p, end)
      ensures !found ==> symstk == old(symstk) && residue == old(residue)
      decreases t, 0
    {
      hide Leads, Resolved, Final, Steps, Reaches, NoneBefore, Locate, Strip, Product, Stride;
      p, end := [], t;
      var elementSize := Size(t.elem);
      var ndims := |t.dims|;
      var dim := Strides(t.dims, elementSize);
      ArrayStarts(t, residue);
      StepsNowhere(Strip(t), residue);
      ghost var within := residue < Size(t);
      var i := 0;
      while i < ndims
        invariant 0 <= i <= ndims && symstk == old(symstk) + p
        invariant forall j | 0 <= j < ndims :: dim[j] == Stride(t.dims, j, elementSize)
        invariant i == 0 ==> residue == old(residue) && p == []
        invariant i > 0 ==> within
        invariant within ==> Leads(Strip(t), p, old(residue), Strip(Array(t.dims[i..], t.elem)), residue) && Steps(Strip(t), p, old(residue))
        invariant within ==> residue < Stride(t.dims, i, elementSize)
      {
        var sz := if i < ndims - 1 then dim[i + 1] else elementSize;
        LastStride(t.dims, elementSize);
        if residue >= dim[i] {
          assert i == 0;
          return false, p, end;
        }
        OneIndex(t.dims, i, t.elem, residue);
        ghost var r0 := residue;
        var idx := residue / sz;
        assert idx < 0x8000_0000;
        residue := residue - idx * sz;
        symstk := symstk + [Index(idx)];
        LeadsOn(Strip(t), p, old(residue), Strip(Array(t.dims[i..], t.elem)), r0, [Index(idx)], Strip(Array(t.dims[i + 1..], t.elem)), residue);
        IndexSteps(Strip(Array(t.dims[i..], t.elem)), idx, r0, Strip(Array(t.dims[i + 1..], t.elem)), residue);
        StepsOn(Strip(t), p, old(residue), Strip(Array(t.dims[i..], t.elem)), r0, [Index(idx)]);
        p := p + [Index(idx)];
        i := i + 1;
      }
      assert t.dims[i..] == [];
      LastStride(t.dims, elementSize);
      StripNone(t.elem);
      ghost var q, r1 := [], residue;
      q, end := WalkInto(t.elem);
      LeadsOn(Strip(t), p, old(residue), Strip(t.elem), r1, q, end, residue);
      StepsOn(Strip(t), p, old(residue), Strip(t.elem), r1, q);
      p := p + q;
      found := true;
    }
  }

  /** The size of an array's part from dimension `i` on. */
  function Stride(dims: seq<nat>, i: nat, elementSize: nat): nat
    requires i <= |dims|
  {
    Product(dims[i..]) * elementSize
  }

  /** The array `dim` of walk_elements, once it has been multiplied out in place. */
  method Strides(dims: seq<nat>, elementSize: nat) returns (dim: array<nat>)
    requires |dims| <= 10
    ensures fresh(dim) && dim.Length == 10 && forall i | 0 <= i < |dims| :: dim[i] == Stride(dims, i, elementSize)
  {
    hide Product, Stride;
    dim := new nat[10](_ => 0);
    var ndims := |dims|;
    for i := 0 to ndims
      invariant forall j | 0 <= j < i :: dim[j] == dims[j]
    {
      dim[i] := dims[i];
    }
    Products(dims, dim);
    for k := 0 to ndims
      invariant forall j | 0 <= j < k :: dim[j] == Stride(dims, j, elementSize)
      invariant forall j | k <= j < ndims :: dim[j] == Product(dims[j..])
    {
      StrideIs(dims, k, elementSize);
      dim[k] := dim[k] * elementSize;
    }
  }

  lemma StrideIs(dims: seq<nat>, i: nat, elementSize: nat)
    requires i <= |dims|
    ensures Stride(dims, i, elementSize) == Product(dims[i..]) * elementSize
  {
  }

  method Products(dims: seq<nat>, dim: array<nat>)
    requires dim.Length == 10 && |dims| <= 10 && forall j | 0 <= j < |dims| :: dim[j] == dims[j]
    modifies dim
    ensures forall j | 0 <= j < |dims| :: dim[j] == Product(dims[j..])
  {
    hide Product;
    var ndims := |dims|;
    if ndims > 0 { LastProduct(dims); }
    var i := ndims - 2;
    while i >= 0
      invariant -2 <= i < ndims && (ndims > 0 ==> -1 <= i < ndims - 1)
      invariant forall j | 0 <= j <= i :: dim[j] == dims[j]
      invariant forall j | i < j < ndims && 0 <= j :: dim[j] == Product(dims[j..])
    {
      ProductSplit(dims, i);
      dim[i] := dim[i] * dim[i + 1];
      i := i - 1;
    }
  }

  lemma LastProduct(dims: seq<nat>)
    requires dims != []
    ensures Product(dims[|dims| - 1..]) == dims[|dims| - 1]
  {
    assert dims[|dims| - 1..][1..] == [];
  }

  lemma LastStride(dims: seq<nat>, elementSize: nat)
    ensures Stride(dims, |dims|, elementSize) == elementSize
  {
    assert dims[|dims|..] == [];
  }

  lemma ArrayStarts(t: Type, r: nat)
    requires t.Array? && Size(t.elem) >= 0
    ensures Stride(t.dims, 0, Size(t.elem)) == Size(t)
    ensures r < Size(t) ==> Leads(Strip(t), [], r, Strip(Array(t.dims[0..], t.elem)), r)
  {
    hide Locate, Strip, Product;
    assert t.dims[0..] == t.dims;
    SizeIs(t);
    StripSize(t);
    if r < Size(t) { LeadsNowhere(Strip(t), r); }
  }

  lemma SizeIs(t: Type)
    requires t.Array? && Size(t.elem) >= 0
    ensures Size(t) == Product(t.dims) * Size(t.elem)
  {
  }

  lemma StripOther(t: Type)
    ensures !t.Array? ==> Strip(t) == t
  {
  }

  lemma StripDims(dims: seq<nat>, elem: Type)
    requires dims != []
    ensures Strip(Array(dims, elem)) == Array(dims, elem)
  {
  }

  lemma StripNone(elem: Type)
    ensures Strip(Array([], elem)) == Strip(elem) && Product([]) * Size(elem) == Size(elem)
  {
  }

  /** Path `p` leads from the byte at `r` of type `t` to the byte at `r'` of type `end`. */
  predicate Leads(t: Type, p: seq<Step>, r: nat, end: Type, r': nat)
  {
    Locate(t, p).Some? && Locate(t, p).value.0 + r' == r && Locate(t, p).value.1 == end && r' < Size(end)
  }

  lemma LeadsNowhere(t: Type, r: nat)
    requires r < Size(t)
    ensures Leads(t, [], r, t, r)
  {
  }

  lemma LeadsOn(t: Type, p: seq<Step>, r: nat, mid: Type, r1: nat, q: seq<Step>, end: Type, r2: nat)
    requires Leads(t, p, r, mid, r1) && Leads(mid, q, r1, end, r2)
    ensures Leads(t, p + q, r, end, r2)
  {
    hide Locate;
    LocateConcat(t, p, q);
  }

  lemma OneField(t: Type, k: nat, r: nat)
    requires t.Struct? && k < |t.members| && Contains(t.members[k], r)
    ensures Leads(t, [Field(k, t.members[k].name.value)], r, Strip(t.members[k].t), r - t.members[k].location.value)
  {
    assert [Field(k, t.members[k].name.value)][1..] == [];
    StripSize(t.members[k].t);
  }

  lemma StepsNowhere(t: Type, r: nat)
    ensures Steps(t, [], r)
  {
  }

  lemma FieldSteps(t: Type, k: nat, r: nat)
    requires t.Struct? && k < |t.members| && Contains(t.members[k], r) && NoneBefore(t, k, r)
    ensures Steps(t, [Field(k, t.members[k].name.value)], r)
  {
    hide NoneBefore;
    var p := [Field(k, t.members[k].name.value)];
    ContainsIsReaches(t, k, r, t.members[k].name.value);
    assert p[1..] == [];
  }

  lemma IndexSteps(t: Type, i: nat, r: nat, end: Type, r': nat)
    requires Leads(t, [Index(i)], r, end, r')
    ensures Steps(t, [Index(i)], r)
  {
    assert [Index(i)][1..] == [];
  }

  lemma LocateIndex(dims: seq<nat>, elem: Type, i: nat)
    requires dims != [] && Size(elem) >= 0 && i < dims[0]
    ensures Locate(Array(dims, elem), [Index(i)]) ==
            Some((i * (Product(dims[1..]) * Size(elem)), Strip(Array(dims[1..], elem))))
  {
    assert [Index(i)][1..] == [];
  }

  lemma IndexArithmetic(r: nat, dim: nat, product: nat, size: nat)
    requires r < dim * product * size
    ensures var stride := product * size;
            stride > 0 && r / stride < dim && 0 <= r - r / stride * stride < stride
  {
    MulAssociates(dim, product, size);
    Division(r, product * size, dim);
  }

  lemma ProductFirst(dims: seq<nat>)
    requires dims != []
    ensures Product(dims) == dims[0] * Product(dims[1..])
  {
  }

  lemma OneIndex(dims: seq<nat>, i: nat, elem: Type, r: nat)
    requires i < |dims| && Size(elem) >= 0 && r < Stride(dims, i, Size(elem))
    ensures var sz := Stride(dims, i + 1, Size(elem));
            sz > 0 && 0 <= r - r / sz * sz < sz && r / sz < dims[i] &&
            Leads(Strip(Array(dims[i..], elem)), [Index(r / sz)], r, Strip(Array(dims[i + 1..], elem)), r - r / sz * sz)
  {
    hide Locate, Strip, Product, Size;
    var left := dims[i..];
    assert left[1..] == dims[i + 1..];
    ProductFirst(left);
    IndexArithmetic(r, left[0], Product(left[1..]), Size(elem));
    var sz := Product(left[1..]) * Size(elem);
    LocateIndex(left, elem, r / sz);
    StripDims(left, elem);
    StripSize(Array(left[1..], elem));
    SizeIs(Array(left[1..], elem));
  }

  lemma MulAssociates(a: nat, b: nat, c: nat)
    ensures a * b * c == a * (b * c)
  {
  }

  lemma {:induction false} StripSize(t: Type)
    ensures Size(Strip(t)) == Size(t)
  {
    if t.Array? && t.dims == [] { StripSize(t.elem); }
  }

  lemma LeafResolved(t: Type, r: nat)
    requires t.Leaf? || t.Unsized?
    ensures Resolved(t, r)
  {
  }

  lemma NoMember(t: Type, r: nat)
    requires t.Struct? && forall j | 0 <= j < |t.members| :: !Contains(t.members[j], r)
    ensures Resolved(t, r)
  {
  }
}
