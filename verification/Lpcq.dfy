/** The intrusive queue of examples/c11/lpcq.c. Items are linked through a pointer inside
    them; the queue keeps a pointer to its first item and a pointer to the pointer where the
    next item goes. */
module Lpcq {
  import opened Basics

  /** A pointer to an item, and a pointer to a pointer: the queue's head or an item's link. */
  datatype Ptr = Null | To(item: nat)
  datatype Link = HeadOf | NextOf(item: nat)

  /** lpcq_iter_t */
  datatype Iter = Iter(item: Ptr, lastnextp: Option<Link>)

  datatype Op = Put(item: nat) | Get | GetAll | Next(iter: nat)

  // ---- what a queue and its iterators are for --------------------------------------------

  /** First in, first out; getall takes a snapshot and leaves the queue empty. */
  datatype Abstract = Abstract(queue: seq<nat>, snaps: seq<seq<nat>>)

  function Effect(a: Abstract, op: Op): (Abstract, Ptr)
  {
    match op
    case Put(x) => (a.(queue := a.queue + [x]), Null)
    case Get => if a.queue == [] then (a, Null) else (a.(queue := a.queue[1..]), To(a.queue[0]))
    case GetAll => (Abstract([], a.snaps + [a.queue]), Null)
    case Next(k) =>
      if k >= |a.snaps| || a.snaps[k] == [] then (a, Null)
      else (a.(snaps := a.snaps[k := a.snaps[k][1..]]), To(a.snaps[k][0]))
  }

  /** An item is on the queue, or an iterator has still to yield it. */
  predicate Pending(a: Abstract, x: nat)
  {
    x in a.queue || exists k :: 0 <= k < |a.snaps| && x in a.snaps[k]
  }

  /** An item is not put again while it is pending. */
  predicate Legal(a: Abstract, op: Op)
  {
    op.Put? ==> !Pending(a, op.item)
  }

  predicate AllLegal(a: Abstract, ops: seq<Op>)
    decreases |ops|
  {
    ops == [] || (Legal(a, ops[0]) && AllLegal(Effect(a, ops[0]).0, ops[1..]))
  }

  function Outputs(a: Abstract, ops: seq<Op>): seq<Ptr>
    decreases |ops|
  {
    if ops == [] then [] else [Effect(a, ops[0]).1] + Outputs(Effect(a, ops[0]).0, ops[1..])
  }

  function Final(a: Abstract, ops: seq<Op>): Abstract
    decreases |ops|
  {
    if ops == [] then a else Final(Effect(a, ops[0]).0, ops[1..])
  }

  // ---- how pointers hold it -----------------------------------------------------------------

  function Last(s: seq<nat>): nat
    requires s != []
  {
    s[|s| - 1]
  }

  predicate Linked(next: map<nat, Ptr>, s: seq<nat>)
  {
    (forall i | 0 <= i < |s| :: s[i] in next) &&
    (forall i | 0 <= i < |s| - 1 :: next[s[i]] == To(s[i + 1]))
  }

  predicate QueueOk(head: Ptr, tailp: Link, next: map<nat, Ptr>, queue: seq<nat>)
  {
    if queue == [] then tailp == HeadOf
    else head == To(queue[0]) && tailp == NextOf(Last(queue)) && Linked(next, queue) && next[Last(queue)] == Null
  }

  predicate IterOk(it: Iter, next: map<nat, Ptr>, snap: seq<nat>)
  {
    if snap == [] then it.item == Null
    else it.item == To(snap[0]) && it.lastnextp == Some(NextOf(Last(snap))) && Linked(next, snap)
  }

  predicate NoDup(s: seq<nat>)
  {
    forall i, j | 0 <= i < j < |s| :: s[i] != s[j]
  }

  predicate Apart(a: seq<nat>, b: seq<nat>)
  {
    forall x | x in a :: x !in b
  }

  predicate Separate(a: Abstract)
  {
    NoDup(a.queue) && (forall k | 0 <= k < |a.snaps| :: NoDup(a.snaps[k]) && Apart(a.queue, a.snaps[k])) &&
    forall j, k | 0 <= j < |a.snaps| && 0 <= k < |a.snaps| && j != k :: Apart(a.snaps[j], a.snaps[k])
  }

  /** A change of links outside `s` leaves it linked. */
  lemma LinkedKeeps(next: map<nat, Ptr>, next': map<nat, Ptr>, s: seq<nat>)
    requires Linked(next, s) && forall x | x in s :: x in next' && next'[x] == next[x]
    ensures Linked(next', s)
  {
  }

  class Queue {
    var head: Ptr
    var tailp: Link
    /** The link inside each item. */
    var next: map<nat, Ptr>
    var iters: seq<Iter>
    ghost var abs: Abstract

    ghost predicate Valid()
      reads this
    {
      Separate(abs) && QueueOk(head, tailp, next, abs.queue) && |iters| == |abs.snaps| &&
      forall k | 0 <= k < |iters| :: IterOk(iters[k], next, abs.snaps[k])
    }

    /** lpcq_init */
    constructor ()
      ensures Valid() && abs == Abstract([], [])
    {
      head, tailp, next, iters := Null, HeadOf, map[], [];
      abs := Abstract([], []);
    }

    /** lpcq_get */
    method Get() returns (r: Ptr)
      requires Valid()
      modifies this
      ensures Valid() && (abs, r) == Effect(old(abs), Op.Get)
    {
      r := head;
      if r == Null {
        return;
      }
      if tailp == HeadOf {
        return Null;
      }
      var nextp := NextOf(r.item);
      head := next[r.item];
      if tailp == nextp {
        tailp := HeadOf;
      }
      abs := abs.(queue := abs.queue[1..]);
    }

    /** lpcq_put; an item that has been yielded may be put again. */
    method Put(item: nat)
      requires Valid() && Legal(abs, Op.Put(item))
      modifies this
      ensures Valid() && abs == Effect(old(abs), Op.Put(item)).0
    {
      ghost var next0, queue := next, abs.queue;
      next := next[item := Null];
      var otailp := tailp;
      tailp := NextOf(item);
      match otailp {
        case HeadOf => head := To(item);
        case NextOf(x) => next := next[x := To(item)];
      }
      abs := abs.(queue := queue + [item]);
      forall k | 0 <= k < |iters|
        ensures IterOk(iters[k], next, abs.snaps[k])
      {
        LinkedKeeps(next0, next, abs.snaps[k]);
      }
    }

    /** lpcq_getall: the head pointer is left as it is. */
    method GetAll()
      requires Valid()
      modifies this
      ensures Valid() && abs == Effect(old(abs), Op.GetAll).0
    {
      if tailp == HeadOf {
        iters := iters + [Iter(Null, None)];
      } else {
        var item := head;
        var otailp := tailp;
        tailp := HeadOf;
        iters := iters + [Iter(item, Some(otailp))];
      }
      abs := Abstract([], abs.snaps + [abs.queue]);
    }

    /** lpcq_next on the iterator number `k` */
    method Next(k: nat) returns (r: Ptr)
      requires Valid()
      modifies this
      ensures Valid() && (abs, r) == Effect(old(abs), Op.Next(k))
    {
      if k >= |iters| {
        return Null;
      }
      var i := iters[k];
      r := i.item;
      if r == Null {
        return;
      }
      var nextp := NextOf(r.item);
      ghost var rest := abs.snaps[k][1..];
      if i.lastnextp == Some(nextp) {
        iters := iters[k := i.(item := Null)];
      } else {
        iters := iters[k := i.(item := next[r.item])];
      }
      abs := abs.(snaps := abs.snaps[k := rest]);
    }

    method Perform(op: Op) returns (r: Ptr)
      requires Valid() && Legal(abs, op)
      modifies this
      ensures Valid() && (abs, r) == Effect(old(abs), op)
    {
      r := Null;
      match op {
        case Put(x) => Put(x);
        case Get => r := Get();
        case GetAll => GetAll();
        case Next(k) => r := Next(k);
      }
    }

    /** Any sequence of operations, on any iterators, behaves as the abstract queue. */
    method Run(ops: seq<Op>) returns (outs: seq<Ptr>)
      requires Valid() && AllLegal(abs, ops)
      modifies this
      ensures Valid() && outs == Outputs(old(abs), ops) && abs == Final(old(abs), ops)
    {
      hide Effect, Legal, AllLegal, Outputs, Final;
      outs := [];
      var i := 0;
      assert ops[0..] == ops;
      while i < |ops|
        invariant i <= |ops| && Valid() && AllLegal(abs, ops[i..])
        invariant outs + Outputs(abs, ops[i..]) == Outputs(old(abs), ops)
        invariant Final(abs, ops[i..]) == Final(old(abs), ops)
      {
        ghost var before, rest := outs, ops[i..];
        FirstOp(abs, rest);
        assert rest[1..] == ops[i + 1..];
        var r := Perform(ops[i]);
        outs := outs + [r];
        assert outs + Outputs(abs, ops[i + 1..]) == before + ([r] + Outputs(abs, ops[i + 1..]));
        i := i + 1;
      }
      NoOps(abs, ops[i..]);
    }
  }

  lemma FirstOp(a: Abstract, ops: seq<Op>)
    requires ops != [] && AllLegal(a, ops)
    ensures Legal(a, ops[0]) && AllLegal(Effect(a, ops[0]).0, ops[1..])
    ensures Outputs(a, ops) == [Effect(a, ops[0]).1] + Outputs(Effect(a, ops[0]).0, ops[1..])
    ensures Final(a, ops) == Final(Effect(a, ops[0]).0, ops[1..])
  {
  }

  lemma NoOps(a: Abstract, ops: seq<Op>)
    requires ops == []
    ensures Outputs(a, ops) == [] && Final(a, ops) == a
  {
  }

  /** An iterator yields its snapshot, in order, whatever is put, got and yielded between:
      `j` items of it have gone when it has been asked `j` times, for `j` up to its length. */
  lemma {:induction false} SnapshotInOrder(a: Abstract, ops: seq<Op>, k: nat)
    requires k < |a.snaps|
    ensures var b, j := Final(a, ops), Asked(ops, k);
            k < |b.snaps| && b.snaps[k] == if j <= |a.snaps[k]| then a.snaps[k][j..] else []
    decreases |ops|
  {
    hide AllLegal;
    if ops != [] {
      SnapshotInOrder(Effect(a, ops[0]).0, ops[1..], k);
    }
  }

  function Asked(ops: seq<Op>, k: nat): nat
  {
    if ops == [] then 0 else (if ops[0] == Next(k) then 1 else 0) + Asked(ops[1..], k)
  }

  // ---- first in, first out, said of the operations alone ------------------------------------

  /** The items put, in order. */
  function Puts(ops: seq<Op>): seq<nat>
  {
    if ops == [] then [] else (if ops[0].Put? then [ops[0].item] else []) + Puts(ops[1..])
  }

  /** What a pointer points to. */
  function Pointed(p: Ptr): seq<nat>
  {
    match p
    case Null => []
    case To(x) => [x]
  }

  /** The items that leave the queue, in order: each that a get yields, and each snapshot whole. */
  function Leaves(a: Abstract, ops: seq<Op>): seq<nat>
    decreases |ops|
  {
    if ops == [] then [] else
    var (b, r) := Effect(a, ops[0]);
    (if ops[0].Get? then Pointed(r) else if ops[0].GetAll? && b.snaps != [] then b.snaps[|b.snaps| - 1] else []) + Leaves(b, ops[1..])
  }

  /** The items that iterator `k` yields, in order. */
  function Yields(a: Abstract, ops: seq<Op>, k: nat): seq<nat>
    decreases |ops|
  {
    if ops == [] then [] else
    var (b, r) := Effect(a, ops[0]);
    (if ops[0] == Next(k) then Pointed(r) else []) + Yields(b, ops[1..], k)
  }

  /** Items leave the queue in the order in which they were put, none is lost, and none comes twice. */
  lemma {:induction false} FirstInFirstOut(a: Abstract, ops: seq<Op>)
    ensures a.queue + Puts(ops) == Leaves(a, ops) + Final(a, ops).queue
    decreases |ops|
  {
    if ops == [] {
      assert a.queue + [] == [] + a.queue;
    } else {
      var (b, r) := Effect(a, ops[0]);
      FirstInFirstOut(b, ops[1..]);
      var now := if ops[0].Get? then Pointed(r) else if ops[0].GetAll? && b.snaps != [] then b.snaps[|b.snaps| - 1] else [];
      assert a.queue + (if ops[0].Put? then [ops[0].item] else []) == now + b.queue;
      Associate(a.queue, if ops[0].Put? then [ops[0].item] else [], Puts(ops[1..]));
      Associate(now, b.queue, Puts(ops[1..]));
      Associate(now, Leaves(b, ops[1..]), Final(a, ops).queue);
    }
  }

  /** So do the items of a snapshot its iterator. */
  lemma {:induction false} SnapshotYields(a: Abstract, ops: seq<Op>, k: nat)
    requires k < |a.snaps|
    ensures k < |Final(a, ops).snaps| && a.snaps[k] == Yields(a, ops, k) + Final(a, ops).snaps[k]
    decreases |ops|
  {
    if ops == [] {
      assert [] + a.snaps[k] == a.snaps[k];
    } else {
      var (b, r) := Effect(a, ops[0]);
      SnapshotYields(b, ops[1..], k);
      var now := if ops[0] == Next(k) then Pointed(r) else [];
      assert a.snaps[k] == now + b.snaps[k];
      Associate(now, Yields(b, ops[1..], k), Final(a, ops).snaps[k]);
    }
  }

  /** A get, or a step of an iterator, comes away with nothing only if there is nothing; and a snapshot is of everything. */
  lemma NothingOnlyFromEmpty(a: Abstract, k: nat)
    ensures Effect(a, Get).1 == Null <==> a.queue == []
    ensures k < |a.snaps| ==> (Effect(a, Next(k)).1 == Null <==> a.snaps[k] == [])
    ensures Effect(a, GetAll).0.queue == []
  {
  }
}
