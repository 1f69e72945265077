/** The trace file as its reader sees it: llvm/librvread/reader.c keeps a current thread
    and signal depth, which `switch` and `sigdepth` records change, and takes every other
    word to belong to the current thread and depth. */
module TraceFile {
  import opened Basics

  /** A record that changes the reader's context, or a word of some event. */
  datatype Item = ISwitch(tid: nat) | IDepth(depth: nat) | IWord(word: Word)

  /** rvp_lastctx_t: the thread and depth that the reader is at. */
  datatype LastCtx = LastCtx(tid: nat, idepth: nat)

  /** A word of an event, under the thread and depth it is read at. */
  datatype Tagged = Tagged(tid: nat, depth: nat, word: Word)

  function Step(c: LastCtx, i: Item): LastCtx
  {
    match i
    case ISwitch(tid) => LastCtx(tid, 0)
    case IDepth(depth) => c.(idepth := depth)
    case IWord(_) => c
  }

  function Final(items: seq<Item>, c: LastCtx): LastCtx
  {
    if items == [] then c else Final(items[1..], Step(c, items[0]))
  }

  function Decode(items: seq<Item>, c: LastCtx): seq<Tagged>
  {
    if items == [] then [] else
    (if items[0].IWord? then [Tagged(c.tid, c.idepth, items[0].word)] else []) +
    Decode(items[1..], Step(c, items[0]))
  }

  lemma {:induction false} DecodeConcat(a: seq<Item>, b: seq<Item>, c: LastCtx)
    ensures Final(a + b, c) == Final(b, Final(a, c))
    ensures Decode(a + b, c) == Decode(a, c) + Decode(b, Final(a, c))
  {
    if a == [] {
      assert a + b == b;
    } else {
      assert (a + b)[1..] == a[1..] + b;
      DecodeConcat(a[1..], b, Step(c, a[0]));
      Associate(if a[0].IWord? then [Tagged(c.tid, c.idepth, a[0].word)] else [], Decode(a[1..], Step(c, a[0])),
                Decode(b, Final(a[1..], Step(c, a[0]))));
    }
  }

  /** A change of thread is to another, and a change of depth to another. */
  predicate Needed(i: Item, c: LastCtx)
  {
    match i
    case ISwitch(tid) => tid != c.tid
    case IDepth(depth) => depth != c.idepth
    case IWord(_) => true
  }

  /** There is no idle record among the items, for a reader that is at `c`. */
  predicate Tight(items: seq<Item>, c: LastCtx)
  {
    items == [] || (Needed(items[0], c) && Tight(items[1..], Step(c, items[0])))
  }

  lemma {:induction false} TightConcat(a: seq<Item>, b: seq<Item>, c: LastCtx)
    requires Tight(a, c) && Tight(b, Final(a, c))
    ensures Tight(a + b, c)
  {
    if a == [] {
      assert a + b == b;
    } else {
      assert (a + b)[1..] == a[1..] + b;
      TightConcat(a[1..], b, Step(c, a[0]));
    }
  }

  /** The words of one thread. */
  function OfThread(ts: seq<Tagged>, tid: nat): seq<Tagged>
  {
    if ts == [] then [] else
    (if ts[0].tid == tid then [ts[0]] else []) + OfThread(ts[1..], tid)
  }

  lemma {:induction false} OfThreadConcat(a: seq<Tagged>, b: seq<Tagged>, tid: nat)
    ensures OfThread(a + b, tid) == OfThread(a, tid) + OfThread(b, tid)
  {
    if a == [] {
      assert a + b == b;
    } else {
      assert (a + b)[1..] == a[1..] + b;
      OfThreadConcat(a[1..], b, tid);
      Associate(if a[0].tid == tid then [a[0]] else [], OfThread(a[1..], tid), OfThread(b, tid));
    }
  }

  lemma {:induction false} OfThreadSame(ts: seq<Tagged>, tid: nat, of: nat)
    requires forall k | 0 <= k < |ts| :: ts[k].tid == of
    ensures OfThread(ts, tid) == if tid == of then ts else []
  {
    if ts != [] {
      OfThreadSame(ts[1..], tid, of);
    }
  }
}
