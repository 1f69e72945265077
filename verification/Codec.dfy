/** The records of a trace: how an event is written (llvm/ngrt/trace.c, deltops.c, buf.h)
    and how the reader takes it apart again (llvm/librvread/reader.c).

    A jump of the program counter and an operation are fused into the address of a cell
    of a matrix of characters, the "deltop"; a jump that does not fit is preceded by the
    program counter itself. The reader keeps the last program counter per thread and
    signal depth; a writer keeps it per ring. */
module Codec {
  import opened Basics

  type Addr = a: int | 0 <= a < 0x1_0000_0000_0000_0000

  const NJMPS := 256
  const NOPS := 46
  const CELLS := 11776 // NJMPS * NOPS
  const CENTER := 5888 // the offset of matrix[NJMPS / 2][BEGIN]
  const DEPTHS := 16

  const BEGIN := 0
  const END := 1
  const SWITCH := 18
  const ENTERSIG := 36
  const SIGDEPTH := 41

  // ---- machine arithmetic ------------------------------------------------------

  /** An address computation wraps at 64 bits. */
  function Wrap64(x: int): Addr
  {
    x % 0x1_0000_0000_0000_0000
  }

  /** A difference of addresses, as a signed 64-bit number. */
  function Diff(a: Addr, b: Addr): int
  {
    var d := Wrap64(a - b);
    if d < 0x8000_0000_0000_0000 then d else d - 0x1_0000_0000_0000_0000
  }

  /** Conversion to a 32-bit int. */
  function ToInt(x: int): (r: int)
    ensures -0x8000_0000 <= r < 0x8000_0000
  {
    (x + 0x8000_0000) % 0x1_0000_0000 - 0x8000_0000
  }

  function AddrWords(a: Addr): (ws: seq<Word>)
    ensures |ws| == 2
  {
    [a % 0x1_0000_0000, a / 0x1_0000_0000]
  }

  function WordsAddr(lo: Word, hi: Word): Addr
  {
    lo + 0x1_0000_0000 * hi
  }

  lemma AddrRoundTrip(a: Addr)
    ensures WordsAddr(AddrWords(a)[0], AddrWords(a)[1]) == a
    ensures (AddrWords(a)[0] as int) + 0x1_0000_0000 * (AddrWords(a)[1] as int) == a
  {
  }

  // ---- deltops -------------------------------------------------------------------

  /** Where the matrix of deltops lies: it does not wrap around the address space. */
  predicate Placed(first: Addr)
  {
    first + CELLS <= 0x1_0000_0000_0000_0000
  }

  predicate InMatrix(first: Addr, a: Addr)
  {
    first <= a <= first + CELLS - 1
  }

  function Center(first: Addr): Addr
    requires Placed(first)
  {
    first + CENTER
  }

  /** rvp_vec_and_op_to_deltop: None stands for NULL. */
  function VecAndOpToDeltop(first: Addr, jmpvec: int, op: nat): Option<Addr>
  {
    var deltop := Wrap64(first + (NJMPS / 2 + jmpvec) * NOPS + op);
    if deltop < first || first + CELLS - 1 < deltop then None else Some(deltop)
  }

  /** extract_jmpvec_and_op_from_deltop */
  function ExtractJmpvecAndOp(first: Addr, pc: Addr): (int, int)
    requires InMatrix(first, pc)
  {
    var row := (pc - first) / NOPS;
    (row - NJMPS / 2, (pc - first) - row * NOPS)
  }

  predicate Short(jmpvec: int)
  {
    -128 <= jmpvec <= 127
  }

  /** There is a deltop for exactly the short jumps, and it tells the jump and the
      operation apart again. */
  lemma DeltopRoundTrip(first: Addr, jmpvec: int, op: nat)
    requires Placed(first) && -0x8000_0000 <= jmpvec < 0x8000_0000 && op < NOPS
    ensures VecAndOpToDeltop(first, jmpvec, op).Some? <==> Short(jmpvec)
    ensures Short(jmpvec) ==>
              var d := VecAndOpToDeltop(first, jmpvec, op).value;
              InMatrix(first, d) && ExtractJmpvecAndOp(first, d) == (jmpvec, op) && d == first + 46 * (128 + jmpvec) + op
  {
    var offset := (NJMPS / 2 + jmpvec) * NOPS + op;
    if Short(jmpvec) {
      assert 0 <= offset < CELLS;
      assert offset / NOPS == NJMPS / 2 + jmpvec;
    } else if jmpvec < -128 {
      assert offset < 0;
    } else {
      assert CELLS <= offset;
    }
  }

  /** The deltop of `begin` without a jump, which a trace starts with, is the center that the reader counts from. */
  lemma CenterIsBegin(first: Addr)
    requires Placed(first)
    ensures VecAndOpToDeltop(first, 0, BEGIN) == Some(Center(first)) && Center(first) == first + 46 * 128
  {
    DeltopRoundTrip(first, 0, BEGIN);
  }

  // ---- records --------------------------------------------------------------------

  /** The words that follow a deltop, by the sizes of the structures of
      llvm/ngrt/tracefmt.h; None for operations that the reader does not know. */
  function PayloadWords(op: nat): (r: Option<nat>)
    ensures r.Some? ==> op < NOPS && (op in {BEGIN, SWITCH, SIGDEPTH} ==> r.value > 0)
  {
    if op in {1, 17, 37} then Some(0)
    else if op in {12, 13, 18, 38, 40, 41, 42, 43, 45} then Some(1)
    else if op in {14, 15, 34, 44} then Some(2)
    else if op in {0, 2, 3, 4, 7, 8, 9, 19, 20, 24, 25, 26, 29, 30, 31} then Some(3)
    else if op in {5, 10, 16, 21, 27, 32, 35, 39} then Some(4)
    else if op == 36 then Some(5)
    else if op == 22 then Some(6)
    else None
  }

  /** A field of a record: a 32-bit number, or an address or another 64-bit number. */
  datatype Field = U32 | U64

  /** The structure of a record, after its deltop. */
  function Fields(op: nat): Option<seq<Field>>
  {
    match op
    case 0 => Some([U32, U64])                 // begin: tid, generation
    case 1 | 17 | 37 => Some([])               // end, exit of a function, exit of a signal handler
    case 2 | 3 | 4 | 7 | 8 | 9 => Some([U64, U32])                // loads and stores of up to 4 bytes: address, data
    case 24 | 25 | 26 | 29 | 30 | 31 => Some([U64, U32])          // the same, atomic
    case 5 | 10 | 27 | 32 => Some([U64, U64])  // of 8 bytes
    case 12 | 13 | 18 => Some([U32])           // fork, join, switch: tid
    case 14 | 15 => Some([U64])                // acquire, release: address
    case 16 => Some([U64, U64])                // entry of a function: frame address, call site
    case 19 | 20 => Some([U64, U32])           // read-modify-write of up to 2 bytes: address, both values
    case 21 => Some([U64, U32, U32])           // of 4 bytes: address, old value, new value
    case 22 => Some([U64, U64, U64])           // of 8 bytes
    case 34 => Some([U64])                     // change of generation
    case 35 => Some([U64, U32, U32])           // signal established: handler, signal, mask
    case 36 => Some([U64, U64, U32])           // entry of a signal handler: handler, generation, signal
    case 38 => Some([U32])                     // signal disestablished
    case 39 => Some([U64, U32, U32])           // mask memoized: mask, origin, number
    case 40 | 42 | 43 | 45 => Some([U32])      // mask set, blocked, unblocked, read: number
    case 41 => Some([U32])                     // signal depth
    case 44 => Some([U32, U32])                // mask read and set: both numbers
    case _ => None                             // accesses of 16 bytes, and no operation
  }

  function FieldWords(field: Field): nat
  {
    if field == U32 then 1 else 2
  }

  function TotalWords(fields: seq<Field>): nat
  {
    if fields == [] then 0 else FieldWords(fields[0]) + TotalWords(fields[1..])
  }

  lemma UpToThree(fields: seq<Field>)
    ensures fields == [] ==> TotalWords(fields) == 0
    ensures |fields| == 1 ==> TotalWords(fields) == FieldWords(fields[0])
    ensures |fields| == 2 ==> TotalWords(fields) == FieldWords(fields[0]) + FieldWords(fields[1])
    ensures |fields| == 3 ==> TotalWords(fields) == FieldWords(fields[0]) + FieldWords(fields[1]) + FieldWords(fields[2])
  {
    if |fields| > 1 {
      assert TotalWords(fields[1..]) == FieldWords(fields[1]) + TotalWords(fields[1..][1..]);
      if |fields| > 2 {
        assert fields[1..][1..] == fields[2..];
        assert TotalWords(fields[2..]) == FieldWords(fields[2]) + TotalWords(fields[2..][1..]);
      }
    }
  }

  /** The sizes are those of the structures. */
  lemma PayloadIsStructure(op: nat)
    ensures PayloadWords(op) == match Fields(op) case None => None case Some(fields) => Some(TotalWords(fields))
  {
    hide TotalWords;
    if Fields(op).Some? { UpToThree(Fields(op).value); }
  }

  /** rvp_buf_put_pc_and_op: what it appends. */
  function PcAndOpWords(first: Addr, lastpc: Addr, pc: Addr, op: nat): seq<Word>
    requires Placed(first) && op < NOPS
  {
    DeltopRoundTrip(first, 0, op);
    match VecAndOpToDeltop(first, ToInt(Diff(pc, lastpc)), op)
    case None => AddrWords(pc) + AddrWords(VecAndOpToDeltop(first, 0, op).value)
    case Some(deltop) => AddrWords(deltop)
  }

  // ---- the reader -------------------------------------------------------------------

  /** rvp_thread_pstate_t: the last program counter at each signal depth. */
  datatype Thread = Thread(present: bool, lastpc: seq<Addr>)

  /** rvp_pstate_t */
  datatype PState = PState(tid: nat, depth: nat, threads: seq<Thread>)

  /** A record as the reader shows it. */
  datatype Seen = Seen(tid: nat, depth: nat, pc: Addr, op: nat, payload: seq<Word>)

  /** What becomes of the words at the front: a bare program counter, an operation, too few
      words, or a failed assertion. */
  datatype Taken = Nop(ps: PState) | Op(ps: PState, seen: Seen) | Starved(need: nat) | Fault

  /** The number of threads there is room for after rvp_pstate_extend_threads_over. */
  function Doubled(n: nat, tid: nat): (m: nat)
    requires 0 < n
    ensures tid < m && n <= m
    decreases tid - n
  {
    if n <= tid then Doubled(2 * n, tid) else n
  }

  function NoThread(): Thread
  {
    Thread(false, seq(DEPTHS, _ => 0))
  }

  function Extended(threads: seq<Thread>, tid: nat): (r: seq<Thread>)
    ensures tid < |r| && |threads| <= |r|
    ensures forall t | 0 <= t < |r| :: r[t] == if t < |threads| && (tid < |threads| || threads[t].present) then threads[t] else NoThread()
  {
    if tid < |threads| then threads
    else seq(Doubled(if |threads| < 8 then 8 else |threads|, tid),
             t requires 0 <= t => if t < |threads| && threads[t].present then threads[t] else NoThread())
  }

  /** rvp_pstate_begin_thread: None if its assertion fails, or if there can be no room for
      the thread (the doubled number of threads wraps around). */
  function BeginThread(first: Addr, ps: PState, tid: nat): Option<PState>
    requires Placed(first)
  {
    if tid >= 0x8000_0000 then None else
    var threads := Extended(ps.threads, tid);
    if threads[tid].present then None
    else Some(PState(tid, 0, threads[tid := Thread(true, seq(DEPTHS, _ => Center(first)))]))
  }

  predicate InRange(ps: PState)
  {
    ps.tid < |ps.threads| && ps.depth < |ps.threads[ps.tid].lastpc|
  }

  function WithLastpc(ps: PState, pc: Addr): PState
    requires InRange(ps)
  {
    var ts := ps.threads[ps.tid];
    ps.(threads := ps.threads[ps.tid := ts.(lastpc := ts.lastpc[ps.depth := pc])])
  }

  /** consume_and_print_trace */
  function Consume(first: Addr, ps: PState, ws: seq<Word>): Taken
    requires Placed(first)
  {
    if |ws| < 2 then Starved(2 - |ws|) else
    var pc := WordsAddr(ws[0], ws[1]);
    if !InMatrix(first, pc) then
      if InRange(ps) then Nop(WithLastpc(ps, pc)) else Fault
    else
      var (jmpvec, op) := ExtractJmpvecAndOp(first, pc);
      match PayloadWords(op)
      case None => Fault
      case Some(n) =>
        if |ws| < 2 + n then Starved(2 + n - |ws|) else Perform(first, ps, jmpvec, op, ws[2..2 + n])
  }

  /** The effect of a whole record. */
  function Perform(first: Addr, ps: PState, jmpvec: int, op: nat, payload: seq<Word>): Taken
    requires Placed(first) && PayloadWords(op) == Some(|payload|)
  {
    var begun := if op == BEGIN then BeginThread(first, ps, payload[0]) else Some(ps);
    if begun.None? || !InRange(begun.value) || (op in {ENTERSIG, 37} && begun.value.depth == 0) then Fault else
    var ps1 := begun.value;
    var pc := Wrap64(ps1.threads[ps1.tid].lastpc[ps1.depth] + jmpvec);
    match Finish(WithLastpc(ps1, pc), op, payload)
    case None => Fault
    case Some(ps2) => Op(ps2, Seen(ps1.tid, ps1.depth, pc, op, payload))
  }

  /** What a record does to the state once it has been shown. */
  function Finish(ps: PState, op: nat, payload: seq<Word>): Option<PState>
    requires InRange(ps) && (op in {SWITCH, SIGDEPTH} ==> payload != [])
  {
    if op == END then Some(ps.(threads := ps.threads[ps.tid := ps.threads[ps.tid].(present := false)]))
    else if op == SWITCH then Some(ps.(tid := payload[0], depth := 0))
    else if op == SIGDEPTH then (if payload[0] < DEPTHS then Some(ps.(depth := payload[0])) else None)
    else Some(ps)
  }

  /** How many words a record takes. */
  function Length(first: Addr, ws: seq<Word>): (n: nat)
    requires 2 <= |ws|
    ensures 2 <= n
  {
    var pc := WordsAddr(ws[0], ws[1]);
    if !InMatrix(first, pc) then 2 else
    match PayloadWords(ExtractJmpvecAndOp(first, pc).1)
    case None => 2
    case Some(n) => 2 + n
  }

  /** A reading of a complete trace: what is shown, the state at the end, and the words that
      could not be read. */
  datatype Reading = Reading(seen: seq<Seen>, ps: PState, rest: seq<Word>)

  function ReadAll(first: Addr, ps: PState, ws: seq<Word>): Reading
    requires Placed(first)
    decreases |ws|
  {
    match Consume(first, ps, ws)
    case Starved(_) => Reading([], ps, ws)
    case Fault => Reading([], ps, ws)
    case Nop(ps') => ReadAll(first, ps', ws[2..])
    case Op(ps', seen) =>
      var r := ReadAll(first, ps', ws[Length(first, ws)..]);
      Reading([seen] + r.seen, r.ps, r.rest)
  }

  // ---- the writers --------------------------------------------------------------------

  /** What is logged: an operation at a program counter, or a jumpless operation. */
  datatype Record = At(pc: Addr, op: nat, payload: seq<Word>) | Jumpless(op: nat, payload: seq<Word>)

  /** The writers of a trace, as the serializer interleaves them: the thread and depth that
      it is at; the last program counter of the ring that logs at each thread and depth,
      for those that have logged anything; and the threads that have begun. */
  datatype Writers = Writers(tid: nat, depth: nat, lastpc: map<(nat, nat), Addr>, begun: set<nat>)

  predicate Jumps(op: nat)
  {
    op !in {BEGIN, SWITCH, 34, ENTERSIG, 37, SIGDEPTH}
  }

  function Forget(lastpc: map<(nat, nat), Addr>, tid: nat): map<(nat, nat), Addr>
  {
    map k | k in lastpc && k.0 != tid :: lastpc[k]
  }

  predicate WellFormed(rec: Record)
  {
    PayloadWords(rec.op) == Some(|rec.payload|)
  }

  /** The writers after a record. A thread begins, and a signal handler is entered, with the
      ring's last program counter reset to the deltop that stands for `begin`. */
  function Next(first: Addr, w: Writers, rec: Record): Writers
    requires Placed(first) && WellFormed(rec)
  {
    match rec
    case At(pc, op, _) =>
      w.(lastpc := if op == END then Forget(w.lastpc, w.tid) else w.lastpc[(w.tid, w.depth) := pc])
    case Jumpless(op, payload) =>
      if op == BEGIN then
        Writers(payload[0], 0, Forget(w.lastpc, payload[0])[(payload[0], 0) := Center(first)], w.begun + {payload[0]})
      else if op == ENTERSIG then w.(lastpc := w.lastpc[(w.tid, w.depth) := Center(first)])
      else if op == SWITCH then w.(tid := payload[0], depth := 0)
      else if op == SIGDEPTH then w.(depth := payload[0])
      else w
  }

  /** The words of a record. */
  function Written(first: Addr, w: Writers, rec: Record): seq<Word>
    requires Placed(first) && WellFormed(rec)
  {
    DeltopRoundTrip(first, 0, rec.op);
    match rec
    case At(pc, op, payload) =>
      var here := (w.tid, w.depth);
      var lastpc := if here in w.lastpc then w.lastpc[here] else Center(first);
      PcAndOpWords(first, lastpc, pc, op) + payload
    case Jumpless(op, payload) => AddrWords(VecAndOpToDeltop(first, 0, op).value) + payload
  }

  /** The jump survives the conversion to int, or is not mistaken for a short one. */
  predicate NotAliased(lastpc: Addr, pc: Addr)
  {
    Short(ToInt(Diff(pc, lastpc))) ==> Short(Diff(pc, lastpc))
  }

  /** What the program logs. */
  predicate Legal(first: Addr, w: Writers, rec: Record)
  {
    WellFormed(rec) &&
    var here := (w.tid, w.depth);
    match rec
    case At(pc, op, _) =>
      Jumps(op) && here in w.lastpc && !InMatrix(first, pc) && NotAliased(w.lastpc[here], pc)
    case Jumpless(op, payload) =>
      !Jumps(op) && match op
      case 0 => payload[0] < 0x8000_0000 && (payload[0], 0) !in w.lastpc
      case 18 => w.tid in w.begun
      case 36 => w.depth > 0 && (w.tid, 0) in w.lastpc
      case 41 => payload[0] < DEPTHS && w.tid in w.begun
      case _ => here in w.lastpc && (op == 37 ==> w.depth > 0)
  }

  predicate AllLegal(first: Addr, w: Writers, recs: seq<Record>)
    requires Placed(first)
    decreases |recs|
  {
    recs == [] || (Legal(first, w, recs[0]) && AllLegal(first, Next(first, w, recs[0]), recs[1..]))
  }

  /** The trace of a sequence of records. */
  function Encode(first: Addr, w: Writers, recs: seq<Record>): seq<Word>
    requires Placed(first) && AllLegal(first, w, recs)
    decreases |recs|
  {
    if recs == [] then [] else Written(first, w, recs[0]) + Encode(first, Next(first, w, recs[0]), recs[1..])
  }

  function NextAll(first: Addr, w: Writers, recs: seq<Record>): Writers
    requires Placed(first) && AllLegal(first, w, recs)
    decreases |recs|
  {
    if recs == [] then w else NextAll(first, Next(first, w, recs[0]), recs[1..])
  }

  /** The reader and the writers are at one place, and agree on every last program counter,
      except where a writer has just reset its own. */
  predicate InSync(first: Addr, w: Writers, ps: PState)
    requires Placed(first)
  {
    w.tid == ps.tid && w.depth == ps.depth < DEPTHS &&
    (forall t | 0 <= t < |ps.threads| :: |ps.threads[t].lastpc| == DEPTHS && (ps.threads[t].present <==> (t, 0) in w.lastpc)) &&
    (forall t | t in w.begun :: t < |ps.threads|) &&
    (forall k | k in w.lastpc :: Agrees(first, w, ps, k))
  }

  predicate Agrees(first: Addr, w: Writers, ps: PState, k: (nat, nat))
    requires Placed(first) && k in w.lastpc
  {
    k.0 in w.begun && k.0 < |ps.threads| && (k.0, 0) in w.lastpc && k.1 < |ps.threads[k.0].lastpc| &&
    (w.lastpc[k] == ps.threads[k.0].lastpc[k.1] || w.lastpc[k] == Center(first))
  }

  /** What the reader must show for a record. */
  predicate Shows(w: Writers, rec: Record, seen: Seen)
  {
    seen.op == rec.op && seen.payload == rec.payload &&
    (if rec.op == BEGIN then rec.payload != [] && seen.tid == rec.payload[0] && seen.depth == 0
     else seen.tid == w.tid && seen.depth == w.depth) &&
    (rec.At? ==> seen.pc == rec.pc)
  }

  predicate AllShown(first: Addr, w: Writers, recs: seq<Record>, seen: seq<Seen>)
    requires Placed(first) && AllLegal(first, w, recs)
    decreases |recs|
  {
    if recs == [] then seen == [] else
    seen != [] && Shows(w, recs[0], seen[0]) && AllShown(first, Next(first, w, recs[0]), recs[1..], seen[1..])
  }

  /** The thread and depth that the records tell: those of the last `begin` or `switch`, which start at depth 0,
      and of the last change of depth since. */
  function WhereAt(recs: seq<Record>): (nat, nat)
  {
    if recs == [] then (0, 0) else
    var rec, before := Last(recs), WhereAt(Others(recs));
    if rec.At? || rec.payload == [] then before
    else if rec.op == 0 || rec.op == 18 then (rec.payload[0], 0)
    else if rec.op == 41 then (before.0, rec.payload[0])
    else before
  }

  /** What the reader shows for record `k`. */
  predicate OneShown(recs: seq<Record>, k: nat, seen: Seen)
    requires k < |recs|
  {
    seen.op == recs[k].op && seen.payload == recs[k].payload && (recs[k].At? ==> seen.pc == recs[k].pc) &&
    (seen.tid, seen.depth) == WhereAt(if recs[k].op == 0 then recs[..k + 1] else recs[..k])
  }

  predicate EachShown(recs: seq<Record>, seen: seq<Seen>)
  {
    |seen| == |recs| && forall k | 0 <= k < |recs| :: OneShown(recs, k, seen[k])
  }

  lemma WhereNext(first: Addr, w: Writers, recs: seq<Record>, k: nat)
    requires Placed(first) && k < |recs| && (w.tid, w.depth) == WhereAt(recs[..k]) && Legal(first, w, recs[k])
    ensures var w' := Next(first, w, recs[k]); (w'.tid, w'.depth) == WhereAt(recs[..k + 1])
  {
    assert Others(recs[..k + 1]) == recs[..k];
  }

  lemma ShownFirst(first: Addr, w: Writers, recs: seq<Record>, k: nat, seen: Seen)
    requires Placed(first) && k < |recs| && Legal(first, w, recs[k]) && Shows(w, recs[k], seen) && (w.tid, w.depth) == WhereAt(recs[..k])
    ensures OneShown(recs, k, seen)
  {
    assert Others(recs[..k + 1]) == recs[..k];
  }

  lemma {:induction false} ShownEach(first: Addr, w: Writers, recs: seq<Record>, at: nat, seen: seq<Seen>)
    requires at <= |recs| && at <= |seen| && (w.tid, w.depth) == WhereAt(recs[..at])
    requires Placed(first) && AllLegal(first, w, recs[at..]) && AllShown(first, w, recs[at..], seen[at..])
    ensures |seen| == |recs| && forall k | at <= k < |recs| :: OneShown(recs, k, seen[k])
    decreases |recs| - at
  {
    if at < |recs| {
      hide Next, Legal, WhereAt, Shows, OneShown;
      assert recs[at..][1..] == recs[at + 1..] && seen[at..][1..] == seen[at + 1..];
      WhereNext(first, w, recs, at);
      ShownFirst(first, w, recs, at, seen[at]);
      ShownEach(first, Next(first, w, recs[at]), recs, at + 1, seen);
    }
  }

  lemma ShownWholly(first: Addr, recs: seq<Record>, seen: seq<Seen>)
    requires Placed(first) && AllLegal(first, NoWriters(), recs) && AllShown(first, NoWriters(), recs, seen)
    ensures EachShown(recs, seen)
  {
    hide AllLegal, AllShown, OneShown;
    assert recs[0..] == recs && recs[..0] == [] && seen[0..] == seen;
    ShownEach(first, NoWriters(), recs, 0, seen);
  }

  // ---- the round trip -------------------------------------------------------------------

  lemma DiffBack(a: Addr, b: Addr)
    ensures Wrap64(b + Diff(a, b)) == a
  {
  }

  lemma ShortIsExact(x: int)
    ensures Short(x) ==> ToInt(x) == x
  {
  }

  /** A short jump from the center lands in the matrix. */
  lemma CenterJumps(first: Addr, pc: Addr)
    requires Placed(first) && Short(Diff(pc, Center(first)))
    ensures InMatrix(first, pc)
  {
    DiffBack(pc, Center(first));
  }

  lemma WholeRecord(first: Addr, ps: PState, jmpvec: int, op: nat, payload: seq<Word>, rest: seq<Word>)
    requires Placed(first) && Short(jmpvec) && PayloadWords(op) == Some(|payload|)
    ensures VecAndOpToDeltop(first, jmpvec, op).Some?
    ensures var ws := AddrWords(VecAndOpToDeltop(first, jmpvec, op).value) + payload + rest;
            Consume(first, ps, ws) == Perform(first, ps, jmpvec, op, payload) &&
            Length(first, ws) == 2 + |payload| && ws[2 + |payload|..] == rest
  {
    DeltopRoundTrip(first, jmpvec, op);
    var d := VecAndOpToDeltop(first, jmpvec, op).value;
    AddrRoundTrip(d);
    var ws := AddrWords(d) + payload + rest;
    assert ws[0] == AddrWords(d)[0] && ws[1] == AddrWords(d)[1];
    assert ws[2..2 + |payload|] == payload;
    assert ws[2 + |payload|..] == rest;
  }

  lemma Escape(first: Addr, ps: PState, pc: Addr, rest: seq<Word>)
    requires Placed(first) && InRange(ps) && !InMatrix(first, pc)
    ensures var ws := AddrWords(pc) + rest; Consume(first, ps, ws) == Nop(WithLastpc(ps, pc)) && ws[2..] == rest
  {
    AddrRoundTrip(pc);
  }

  // ---- the state of the reader follows the writers

  lemma MovedSync(first: Addr, w: Writers, ps: PState, pc: Addr)
    requires Placed(first) && InSync(first, w, ps) && InRange(ps) && (w.tid, w.depth) in w.lastpc
    ensures InSync(first, w.(lastpc := w.lastpc[(w.tid, w.depth) := pc]), WithLastpc(ps, pc))
  {
    hide Center;
    var w', ps' := w.(lastpc := w.lastpc[(w.tid, w.depth) := pc]), WithLastpc(ps, pc);
    assert Agrees(first, w, ps, (w.tid, w.depth));
    forall k | k in w'.lastpc
      ensures Agrees(first, w', ps', k)
    {
      assert k in w.lastpc ==> Agrees(first, w, ps, k);
    }
  }

  lemma EndedSync(first: Addr, w: Writers, ps: PState)
    requires Placed(first) && InSync(first, w, ps) && InRange(ps)
    ensures InSync(first, w.(lastpc := Forget(w.lastpc, w.tid)), Finish(ps, END, []).value)
  {
    hide Center;
    var w', ps' := w.(lastpc := Forget(w.lastpc, w.tid)), Finish(ps, END, []).value;
    forall k | k in w'.lastpc
      ensures Agrees(first, w', ps', k)
    {
      assert Agrees(first, w, ps, k);
    }
  }

  lemma WithLastpcTwice(ps: PState, pc: Addr)
    requires InRange(ps)
    ensures InRange(WithLastpc(ps, pc)) && WithLastpc(WithLastpc(ps, pc), pc) == WithLastpc(ps, pc)
  {
    var ps' := WithLastpc(ps, pc);
    assert ps'.threads[ps.tid].lastpc[ps.depth := pc] == ps'.threads[ps.tid].lastpc;
    assert ps'.threads[ps.tid := ps'.threads[ps.tid]] == ps'.threads;
  }

  lemma SameLastpc(ps: PState)
    requires InRange(ps)
    ensures WithLastpc(ps, ps.threads[ps.tid].lastpc[ps.depth]) == ps
  {
    var ts := ps.threads[ps.tid];
    assert ts.lastpc[ps.depth := ts.lastpc[ps.depth]] == ts.lastpc;
    assert ps.threads[ps.tid := ts] == ps.threads;
  }

  lemma BegunSync(first: Addr, w: Writers, ps: PState, rec: Record)
    requires Placed(first) && rec.Jumpless? && rec.op == BEGIN && Legal(first, w, rec) && InSync(first, w, ps)
    ensures var ps' := BeginThread(first, ps, rec.payload[0]);
            ps'.Some? && InRange(ps'.value) && InSync(first, Next(first, w, rec), ps'.value) &&
            ps'.value.tid == rec.payload[0] && ps'.value.depth == 0
  {
    hide Center, Doubled, PayloadWords;
    var tid := rec.payload[0];
    var w' := Next(first, w, rec);
    var threads := Extended(ps.threads, tid);
    assert !threads[tid].present;
    var ps' := BeginThread(first, ps, tid).value;
    forall k | k in w'.lastpc
      ensures Agrees(first, w', ps', k)
    {
      assert k in w.lastpc && k.0 != tid ==> Agrees(first, w, ps, k);
    }
    forall t | 0 <= t < |ps'.threads|
      ensures |ps'.threads[t].lastpc| == DEPTHS && (ps'.threads[t].present <==> (t, 0) in w'.lastpc)
    {
      assert threads[t] == if t < |ps.threads| && (tid < |ps.threads| || ps.threads[t].present) then ps.threads[t] else NoThread();
      if (t, 0) in w.lastpc { assert Agrees(first, w, ps, (t, 0)); }
    }
  }

  lemma PerformsAt(first: Addr, w: Writers, ps: PState, ps0: PState, rec: Record, jmpvec: int)
    requires Placed(first) && rec.At? && Legal(first, w, rec) && InSync(first, w, ps0) && InRange(ps0)
    requires ps == ps0 || ps == WithLastpc(ps0, rec.pc)
    requires InRange(ps) && Wrap64(ps.threads[ps.tid].lastpc[ps.depth] + jmpvec) == rec.pc
    ensures var r := Perform(first, ps, jmpvec, rec.op, rec.payload);
            r.Op? && Shows(w, rec, r.seen) && InSync(first, Next(first, w, rec), r.ps)
  {
    hide Wrap64, InMatrix, NotAliased, Center, PayloadWords, InSync, Forget;
    WithLastpcTwice(ps0, rec.pc);
    MovedSync(first, w, ps0, rec.pc);
    InSyncFacts(first, w, ps0);
    if rec.op == END {
      var w1 := w.(lastpc := w.lastpc[(w.tid, w.depth) := rec.pc]);
      EndedSync(first, w1, WithLastpc(ps0, rec.pc));
      ForgetHere(w.lastpc, w.tid, w.depth, rec.pc);
    }
  }

  lemma InSyncFacts(first: Addr, w: Writers, ps: PState)
    requires Placed(first) && InSync(first, w, ps)
    ensures w.tid == ps.tid && w.depth == ps.depth && (w.tid in w.begun ==> InRange(ps))
  {
  }

  lemma ForgetHere(lastpc: map<(nat, nat), Addr>, tid: nat, depth: nat, pc: Addr)
    ensures Forget(lastpc[(tid, depth) := pc], tid) == Forget(lastpc, tid)
  {
  }

  lemma JumplessSync(first: Addr, w: Writers, ps: PState, rec: Record, ps': PState)
    requires Placed(first) && rec.Jumpless? && rec.op != BEGIN && Legal(first, w, rec) && InSync(first, w, ps)
    requires ps'.threads == ps.threads && ps'.tid == Next(first, w, rec).tid && ps'.depth == Next(first, w, rec).depth < DEPTHS
    ensures InSync(first, Next(first, w, rec), ps')
  {
    hide InMatrix, NotAliased, Center, PayloadWords;
    var w' := Next(first, w, rec);
    forall k | k in w'.lastpc
      ensures Agrees(first, w', ps', k)
    {
      assert k in w.lastpc ==> Agrees(first, w, ps, k);
      if rec.op == ENTERSIG { assert Agrees(first, w, ps, (w.tid, 0)); }
    }
  }

  lemma JumplessHere(first: Addr, w: Writers, ps: PState, rec: Record)
    requires Placed(first) && rec.Jumpless? && rec.op != BEGIN && Legal(first, w, rec) && InSync(first, w, ps)
    ensures InRange(ps) && w.tid == ps.tid && w.depth == ps.depth < DEPTHS
  {
    var here := (w.tid, w.depth);
    assert here in w.lastpc ==> Agrees(first, w, ps, here);
    assert (w.tid, 0) in w.lastpc ==> Agrees(first, w, ps, (w.tid, 0));
  }

  lemma PerformsJumpless(first: Addr, w: Writers, ps: PState, rec: Record)
    requires Placed(first) && rec.Jumpless? && Legal(first, w, rec) && InSync(first, w, ps)
    ensures var r := Perform(first, ps, 0, rec.op, rec.payload);
            r.Op? && Shows(w, rec, r.seen) && InSync(first, Next(first, w, rec), r.ps)
  {
    hide InMatrix, NotAliased, Center, PayloadWords, Extended, BeginThread, InSync;
    if rec.op == BEGIN {
      BegunSync(first, w, ps, rec);
      SameLastpc(BeginThread(first, ps, rec.payload[0]).value);
    } else {
      JumplessHere(first, w, ps, rec);
      SameLastpc(ps);
      JumplessSync(first, w, ps, rec, Perform(first, ps, 0, rec.op, rec.payload).ps);
    }
  }

  // ---- the round trip of one record, and of a trace

  /** One record is read back, whatever follows it. */
  lemma {:induction false} RecordRoundTrip(first: Addr, w: Writers, ps: PState, rec: Record, rest: seq<Word>)
    returns (seen: Seen, ps': PState)
    requires Placed(first) && Legal(first, w, rec) && InSync(first, w, ps)
    ensures Shows(w, rec, seen) && InSync(first, Next(first, w, rec), ps')
    ensures ReadAll(first, ps, Written(first, w, rec) + rest) ==
            var r := ReadAll(first, ps', rest); Reading([seen] + r.seen, r.ps, r.rest)
  {
    hide InMatrix, Center, PayloadWords, InSync, Perform, Consume, Length, Next, VecAndOpToDeltop, AddrWords;
    match rec
    case Jumpless(op, payload) =>
      PerformsJumpless(first, w, ps, rec);
      WholeRecord(first, ps, 0, op, payload, rest);
      var r := Perform(first, ps, 0, op, payload);
      seen, ps' := r.seen, r.ps;
    case At(pc, op, payload) =>
      var last := w.lastpc[(w.tid, w.depth)];
      var jmpvec := ToInt(Diff(pc, last));
      DeltopRoundTrip(first, jmpvec, op);
      InSyncHere(first, w, ps);
      if Short(jmpvec) {
        ShortIsExact(Diff(pc, last));
        if last == Center(first) { CenterJumps(first, pc); }
        DiffBack(pc, last);
        PerformsAt(first, w, ps, ps, rec, jmpvec);
        WholeRecord(first, ps, jmpvec, op, payload, rest);
        var r := Perform(first, ps, jmpvec, op, payload);
        seen, ps' := r.seen, r.ps;
      } else {
        DeltopRoundTrip(first, 0, op);
        var ps1 := WithLastpc(ps, pc);
        var here := AddrWords(VecAndOpToDeltop(first, 0, op).value) + payload + rest;
        Escape(first, ps, pc, here);
        PerformsAt(first, w, ps1, ps, rec, 0);
        WholeRecord(first, ps1, 0, op, payload, rest);
        var r := Perform(first, ps1, 0, op, payload);
        seen, ps' := r.seen, r.ps;
        assert Written(first, w, rec) + rest == AddrWords(pc) + here;
      }
  }

  lemma InSyncHere(first: Addr, w: Writers, ps: PState)
    requires Placed(first) && InSync(first, w, ps) && (w.tid, w.depth) in w.lastpc
    ensures InRange(ps) && w.tid == ps.tid && w.depth == ps.depth
    ensures w.lastpc[(w.tid, w.depth)] in {ps.threads[ps.tid].lastpc[ps.depth], Center(first)}
  {
    assert Agrees(first, w, ps, (w.tid, w.depth));
  }

  /** Whatever the threads and their handlers log, and however the serializer interleaves
      it, the reader shows every record with its thread, depth, operation, payload and
      program counter, and stays in step with the writers, whatever follows. */
  lemma {:induction false} TraceThen(first: Addr, w: Writers, ps: PState, recs: seq<Record>, rest: seq<Word>)
    returns (seen: seq<Seen>, ps': PState)
    requires Placed(first) && AllLegal(first, w, recs) && InSync(first, w, ps)
    ensures AllShown(first, w, recs, seen) && InSync(first, NextAll(first, w, recs), ps')
    ensures ReadAll(first, ps, Encode(first, w, recs) + rest) ==
            var r := ReadAll(first, ps', rest); Reading(seen + r.seen, r.ps, r.rest)
    decreases |recs|
  {
    hide Shows, InSync, Written, Next, Consume, InMatrix, NotAliased, ReadAll;
    if recs == [] {
      seen, ps' := [], ps;
      assert [] + rest == rest && [] + ReadAll(first, ps, rest).seen == ReadAll(first, ps, rest).seen;
    } else {
      var w1 := Next(first, w, recs[0]);
      var more := Encode(first, w1, recs[1..]);
      var s, ps1 := RecordRoundTrip(first, w, ps, recs[0], more + rest);
      var seen1, ps2 := TraceThen(first, w1, ps1, recs[1..], rest);
      seen, ps' := [s] + seen1, ps2;
      assert Encode(first, w, recs) + rest == Written(first, w, recs[0]) + (more + rest);
      assert seen[1..] == seen1;
      assert [s] + (seen1 + ReadAll(first, ps2, rest).seen) == seen + ReadAll(first, ps2, rest).seen;
    }
  }

  /** So it is when nothing follows. */
  lemma TraceRoundTrip(first: Addr, w: Writers, ps: PState, recs: seq<Record>)
    requires Placed(first) && AllLegal(first, w, recs) && InSync(first, w, ps)
    ensures var r := ReadAll(first, ps, Encode(first, w, recs));
            AllShown(first, w, recs, r.seen) && r.rest == [] && InSync(first, NextAll(first, w, recs), r.ps)
  {
    hide AllLegal, AllShown, InSync, ReadAll, Encode;
    var seen, ps' := TraceThen(first, w, ps, recs, []);
    NothingRead(first, ps');
    assert Encode(first, w, recs) + [] == Encode(first, w, recs) && seen + [] == seen;
  }

  /** No thread has begun. */
  function NoWriters(): Writers
  {
    Writers(0, 0, map[], {})
  }

  /** A whole trace, from the reader's first state: it starts with `begin`. */
  lemma WholeTrace(first: Addr, recs: seq<Record>)
    requires Placed(first) && AllLegal(first, NoWriters(), recs)
    ensures var r := ReadAll(first, PState(0, 0, []), Encode(first, NoWriters(), recs));
            AllShown(first, NoWriters(), recs, r.seen) && r.rest == []
  {
    TraceRoundTrip(first, NoWriters(), PState(0, 0, []), recs);
  }

  lemma NothingRead(first: Addr, ps: PState)
    requires Placed(first)
    ensures ReadAll(first, ps, []) == Reading([], ps, [])
  {
  }

  // ---- what the reader refuses --------------------------------------------------------------

  /** A thread begins that has begun and not ended, or has a number that there can be no room for; a handler starts or
      returns where there is none; or handlers are nested too deeply. */
  predicate Refused(w: Writers, op: nat, payload: seq<Word>)
    requires PayloadWords(op) == Some(|payload|)
  {
    if op == 0 then payload[0] >= 0x8000_0000 || (payload[0], 0) in w.lastpc
    else if op == 36 || op == 37 then w.depth == 0
    else op == 41 && payload[0] >= 16
  }

  /** An assertion of the reader fails exactly on these, on operations that it does not know, and where it is at a thread
      that it has no room for. */
  lemma RefusedExactly(first: Addr, w: Writers, ps: PState, ws: seq<Word>)
    requires Placed(first) && InSync(first, w, ps) && 2 <= |ws| && Length(first, ws) <= |ws|
    ensures var a := WordsAddr(ws[0], ws[1]);
            Consume(first, ps, ws).Fault? <==>
            if !InMatrix(first, a) then w.tid >= |ps.threads| else
            var op := ExtractJmpvecAndOp(first, a).1;
            PayloadWords(op).None? || Refused(w, op, ws[2..Length(first, ws)]) || (op != 0 && w.tid >= |ps.threads|)
  {
    hide PayloadWords, WordsAddr, Center;
    if InMatrix(first, WordsAddr(ws[0], ws[1])) {
      var (jmpvec, op) := ExtractJmpvecAndOp(first, WordsAddr(ws[0], ws[1]));
      if PayloadWords(op).Some? { PerformRefuses(first, w, ps, jmpvec, op, ws[2..2 + PayloadWords(op).value]); }
    }
  }

  lemma PerformRefuses(first: Addr, w: Writers, ps: PState, jmpvec: int, op: nat, payload: seq<Word>)
    requires Placed(first) && InSync(first, w, ps) && PayloadWords(op) == Some(|payload|)
    ensures Perform(first, ps, jmpvec, op, payload).Fault? <==> Refused(w, op, payload) || (op != 0 && w.tid >= |ps.threads|)
  {
    hide Center, Doubled, Wrap64;
    if op == 0 { BeginRefuses(first, w, ps, payload[0]); }
  }

  lemma BeginRefuses(first: Addr, w: Writers, ps: PState, tid: nat)
    requires Placed(first) && InSync(first, w, ps)
    ensures BeginThread(first, ps, tid).None? <==> tid >= 0x8000_0000 || (tid, 0) in w.lastpc
  {
    hide Center, Doubled;
    if (tid, 0) in w.lastpc { assert Agrees(first, w, ps, (tid, 0)); }
  }

  /** Words after which a trace that is read to where the writers are cannot be read on: too few for a record, or those
      of one that the reader does not know, or refuses. */
  predicate Broken(first: Addr, w: Writers, ws: seq<Word>)
    requires Placed(first)
  {
    ws != [] &&
    (|ws| < AtLeast(first, ws) ||
     (InMatrix(first, WordsAddr(ws[0], ws[1])) &&
      var op := ExtractJmpvecAndOp(first, WordsAddr(ws[0], ws[1])).1;
      PayloadWords(op).None? || Refused(w, op, ws[2..Length(first, ws)])))
  }

  /** The words of the first record, as far as they tell. */
  function AtLeast(first: Addr, ws: seq<Word>): (n: nat)
    ensures 2 <= n
  {
    if |ws| < 2 then 2 else Length(first, ws)
  }

  lemma BrokenStops(first: Addr, w: Writers, ps: PState, ws: seq<Word>)
    requires Placed(first) && InSync(first, w, ps) && Broken(first, w, ws)
    ensures ReadAll(first, ps, ws) == Reading([], ps, ws)
  {
    hide Perform, PayloadWords, InSync, Refused, InMatrix, ExtractJmpvecAndOp, WordsAddr;
    if |ws| < 2 {
      ReadShort(first, ps, ws);
    } else {
      StarvedIf(first, ps, ws);
      if Length(first, ws) <= |ws| { RefusedExactly(first, w, ps, ws); }
    }
  }

  // ---- how many words -------------------------------------------------------------------------

  /** The reader asks for exactly the words that are missing of a record: when it has got them, whatever they are, it has
      the whole of it, or, if it had not even the deltop, that. */
  lemma MissingWords(first: Addr, ps: PState, ws: seq<Word>, more: seq<Word>)
    requires Placed(first) && Consume(first, ps, ws).Starved? && |more| <= Consume(first, ps, ws).need
    ensures var need := Consume(first, ps, ws).need;
            need > 0 && (|ws| < 2 ==> |ws| + need == 2) && (|ws| >= 2 ==> |ws| + need == Length(first, ws)) &&
            (|ws| >= 2 ==> (Consume(first, ps, ws + more).Starved? <==> |more| < need))
  {
    hide Perform, PayloadWords, ExtractJmpvecAndOp, WordsAddr;
    StarvedIf(first, ps, ws);
    if |ws| >= 2 {
      var all := ws + more;
      assert all[0] == ws[0] && all[1] == ws[1];
      StarvedIf(first, ps, all);
    }
  }

  lemma StarvedIf(first: Addr, ps: PState, ws: seq<Word>)
    requires Placed(first)
    ensures |ws| < 2 ==> Consume(first, ps, ws) == Starved(2 - |ws|)
    ensures |ws| >= 2 && |ws| < Length(first, ws) ==> Consume(first, ps, ws) == Starved(Length(first, ws) - |ws|)
    ensures |ws| >= 2 && |ws| >= Length(first, ws) ==> !Consume(first, ps, ws).Starved?
  {
    hide Perform, PayloadWords;
    if |ws| >= 2 && InMatrix(first, WordsAddr(ws[0], ws[1])) {
      var (jmpvec, op) := ExtractJmpvecAndOp(first, WordsAddr(ws[0], ws[1]));
      var n := PayloadWords(op);
      if n.Some? && |ws| >= 2 + n.value { NeverStarved(first, ps, jmpvec, op, ws[2..2 + n.value]); }
    }
  }

  lemma NeverStarved(first: Addr, ps: PState, jmpvec: int, op: nat, payload: seq<Word>)
    requires Placed(first) && PayloadWords(op) == Some(|payload|)
    ensures !Perform(first, ps, jmpvec, op, payload).Starved?
  {
    hide PayloadWords, BeginThread;
  }

  /** A short jump takes two words, and any other the program counter besides. */
  lemma JumpWords(first: Addr, lastpc: Addr, pc: Addr, op: nat)
    requires Placed(first) && op < NOPS
    ensures |PcAndOpWords(first, lastpc, pc, op)| == if -128 <= ToInt(Diff(pc, lastpc)) <= 127 then 2 else 4
  {
    hide ToInt, Diff, VecAndOpToDeltop;
    DeltopRoundTrip(first, ToInt(Diff(pc, lastpc)), op);
    DeltopRoundTrip(first, 0, op);
  }

  /** The first event of a thread, or of a handler, tells its program counter in full. */
  lemma ForcedJump(first: Addr, w: Writers, start: Record, rec: Record)
    requires Placed(first) && Legal(first, w, start) && start.Jumpless? && start.op in {0, 36}
    requires rec.At? && Legal(first, Next(first, w, start), rec)
    ensures |Written(first, Next(first, w, start), rec)| == 4 + |rec.payload|
  {
    hide VecAndOpToDeltop, ToInt, Diff, InMatrix, PayloadWords, PcAndOpWords, Center;
    var w' := Next(first, w, start);
    JumpWords(first, Center(first), rec.pc, rec.op);
    if Short(Diff(rec.pc, Center(first))) { CenterJumps(first, rec.pc); }
    assert w'.lastpc[(w'.tid, w'.depth)] == Center(first);
  }

  // ---- exactly when one program counter survives -----------------------------------------

  /** Either the jump is short, and not only because the conversion to int made it so, or the
      program counter cannot be taken for a deltop. */
  predicate Faithful(first: Addr, lastpc: Addr, pc: Addr)
  {
    if Short(ToInt(Diff(pc, lastpc))) then Short(Diff(pc, lastpc)) else !InMatrix(first, pc)
  }

  /** An operation is shown at its program counter. */
  predicate ShownAt(r: Reading, pc: Addr, op: nat)
  {
    r.seen != [] && r.seen[0].pc == pc && r.seen[0].op == op
  }

  lemma ShownExactly(first: Addr, ps: PState, pc: Addr, op: nat, payload: seq<Word>)
    requires Placed(first) && InRange(ps) && Jumps(op) && PayloadWords(op) == Some(|payload|)
    ensures var lastpc := ps.threads[ps.tid].lastpc[ps.depth];
            ShownAt(ReadAll(first, ps, PcAndOpWords(first, lastpc, pc, op) + payload), pc, op) <==> Faithful(first, lastpc, pc)
  {
    hide InMatrix, PayloadWords, Consume, ReadAll, VecAndOpToDeltop, AddrWords, ToInt, Diff, Wrap64, ExtractJmpvecAndOp, Jumps;
    var lastpc := ps.threads[ps.tid].lastpc[ps.depth];
    var jmpvec := ToInt(Diff(pc, lastpc));
    DeltopRoundTrip(first, jmpvec, op);
    JumpBack(lastpc, pc);
    if Short(jmpvec) {
      ShownWhole(first, ps, jmpvec, op, payload);
    } else {
      DeltopRoundTrip(first, 0, op);
      var here := AddrWords(VecAndOpToDeltop(first, 0, op).value) + payload;
      assert PcAndOpWords(first, lastpc, pc, op) + payload == AddrWords(pc) + here;
      if InMatrix(first, pc) {
        Mistaken(first, ps, pc, here);
        JumpTo(lastpc, pc, ExtractJmpvecAndOp(first, pc).0);
        assert op != BEGIN by { NotBegin(op); }
      } else {
        EscapeRead(first, ps, pc, here);
        ShownWhole(first, WithLastpc(ps, pc), 0, op, payload);
        NoJump(pc);
      }
    }
  }

  lemma NotBegin(op: nat)
    requires Jumps(op)
    ensures op != BEGIN
  {
  }

  lemma EscapeRead(first: Addr, ps: PState, pc: Addr, rest: seq<Word>)
    requires Placed(first) && InRange(ps) && !InMatrix(first, pc)
    ensures ReadAll(first, ps, AddrWords(pc) + rest) == ReadAll(first, WithLastpc(ps, pc), rest)
  {
    hide Consume, AddrWords;
    Escape(first, ps, pc, rest);
  }

  lemma ShownWhole(first: Addr, ps: PState, jmpvec: int, op: nat, payload: seq<Word>)
    requires Placed(first) && InRange(ps) && Jumps(op) && PayloadWords(op) == Some(|payload|) && Short(jmpvec)
    ensures VecAndOpToDeltop(first, jmpvec, op).Some?
    ensures ShownAt(ReadAll(first, ps, AddrWords(VecAndOpToDeltop(first, jmpvec, op).value) + payload),
                    Wrap64(ps.threads[ps.tid].lastpc[ps.depth] + jmpvec), op)
  {
    hide InMatrix, PayloadWords, Consume, Length, VecAndOpToDeltop, AddrWords, Wrap64, ReadAll, Perform, Jumps;
    WholeRecord(first, ps, jmpvec, op, payload, []);
    var ws := AddrWords(VecAndOpToDeltop(first, jmpvec, op).value) + payload;
    assert ws + [] == ws;
    FirstRead(first, ps, ws);
    PerformShows(first, ps, jmpvec, op, payload);
    assert op != BEGIN by { NotBegin(op); }
  }

  lemma NoJump(pc: Addr)
    ensures Wrap64(pc + 0) == pc
  {
  }

  lemma JumpBack(lastpc: Addr, pc: Addr)
    ensures var j := ToInt(Diff(pc, lastpc)); Short(j) ==> (Wrap64(lastpc + j) == pc <==> Short(Diff(pc, lastpc)))
  {
    var j := ToInt(Diff(pc, lastpc));
    if Short(j) {
      DiffBack(pc, lastpc);
      ShortIsExact(Diff(pc, lastpc));
      JumpTo(lastpc, pc, j);
    }
  }

  lemma JumpTo(lastpc: Addr, pc: Addr, j: int)
    requires Short(j)
    ensures Wrap64(lastpc + j) == pc ==> Diff(pc, lastpc) == j && ToInt(Diff(pc, lastpc)) == j
  {
    var m := 0x1_0000_0000_0000_0000;
    if Wrap64(lastpc + j) == pc {
      assert lastpc + j < 0 ==> pc == lastpc + j + m;
      assert lastpc + j >= m ==> pc == lastpc + j - m;
    }
  }

  /** A program counter that lies in the matrix is read as an operation at another place. */
  lemma Mistaken(first: Addr, ps: PState, pc: Addr, here: seq<Word>)
    requires Placed(first) && InRange(ps) && InMatrix(first, pc)
    ensures var r := ReadAll(first, ps, AddrWords(pc) + here);
            var (j, op') := ExtractJmpvecAndOp(first, pc);
            Short(j) && (r.seen == [] || r.seen[0].op == op') &&
            (r.seen != [] && op' != BEGIN ==> r.seen[0].pc == Wrap64(ps.threads[ps.tid].lastpc[ps.depth] + j))
  {
    hide ReadAll, Perform, PayloadWords, AddrWords, Wrap64;
    AddrRoundTrip(pc);
    var ws := AddrWords(pc) + here;
    assert ws[0] == AddrWords(pc)[0] && ws[1] == AddrWords(pc)[1];
    var (j, op') := ExtractJmpvecAndOp(first, pc);
    FirstRead(first, ps, ws);
    if PayloadWords(op').Some? && |ws| >= 2 + PayloadWords(op').value {
      PerformShows(first, ps, j, op', ws[2..2 + PayloadWords(op').value]);
    }
  }

  lemma FirstRead(first: Addr, ps: PState, ws: seq<Word>)
    requires Placed(first)
    ensures var c := Consume(first, ps, ws);
            !c.Nop? ==> var r := ReadAll(first, ps, ws); if c.Op? then r.seen != [] && r.seen[0] == c.seen else r.seen == []
  {
    hide Consume;
  }

  lemma PerformShows(first: Addr, ps: PState, jmpvec: int, op: nat, payload: seq<Word>)
    requires Placed(first) && InRange(ps) && PayloadWords(op) == Some(|payload|)
    ensures var r := Perform(first, ps, jmpvec, op, payload);
            !r.Nop? && (Jumps(op) ==> r.Op?) &&
            (r.Op? ==> r.seen.op == op && (op != BEGIN ==> r.seen.pc == Wrap64(ps.threads[ps.tid].lastpc[ps.depth] + jmpvec)))
  {
    hide PayloadWords, BeginThread, Wrap64;
  }

  // ---- the program's buffer and the reader's state, updated in place ------------------------

  /** rvp_buf_t */
  class Buffer {
    var word: array<Word>
    var nwords: nat

    ghost predicate Valid()
      reads this, word
    {
      word.Length == 20 && nwords <= 20
    }

    ghost function Contents(): (ws: seq<Word>)
      reads this, word
      requires Valid()
    {
      word[..nwords]
    }

    constructor ()
      ensures Valid() && fresh(word) && Contents() == []
    {
      word := new Word[20];
      nwords := 0;
    }

    /** rvp_buf_put; its assertion is the precondition. */
    method Put(item: Word)
      requires Valid() && nwords < 20
      modifies this`nwords, word
      ensures Valid() && Contents() == old(Contents()) + [item]
    {
      word[nwords] := item;
      nwords := nwords + 1;
    }

    /** rvp_buf_put_addr; rvp_buf_put_u64 is the same. */
    method PutAddr(addr: Addr)
      requires Valid() && nwords + 2 <= 20
      modifies this`nwords, word
      ensures Valid() && Contents() == old(Contents()) + AddrWords(addr)
    {
      Put(addr % 0x1_0000_0000);
      Put(addr / 0x1_0000_0000);
    }

    /** rvp_buf_put_buf */
    method PutBuf(sb: Buffer)
      requires Valid() && sb.Valid() && sb.word != word && sb != this && nwords + sb.nwords <= 20
      modifies this`nwords, word
      ensures Valid() && Contents() == old(Contents()) + sb.Contents()
    {
      var i := 0;
      while i < sb.nwords
        invariant Valid() && sb.Valid() && i <= sb.nwords && nwords == old(nwords) + i
        invariant sb.Contents() == old(sb.Contents())
        invariant Contents() == old(Contents()) + sb.Contents()[..i]
      {
        assert sb.Contents()[..i] + [sb.Contents()[i]] == sb.Contents()[..i + 1];
        Put(sb.word[i]);
        i := i + 1;
      }
      assert sb.Contents()[..i] == sb.Contents();
    }

    /** rvp_buf_put_pc_and_op, with the new last program counter. */
    method PutPcAndOp(first: Addr, lastpc: Addr, pc: Addr, op: nat) returns (lastpc': Addr)
      requires Valid() && nwords + 4 <= 20 && Placed(first) && op < NOPS
      modifies this`nwords, word
      ensures Valid() && Contents() == old(Contents()) + PcAndOpWords(first, lastpc, pc, op)
      ensures lastpc' == pc
    {
      var jmpvec := ToInt(Diff(pc, lastpc));
      var deltop := VecAndOpToDeltop(first, jmpvec, op);
      lastpc' := pc;
      DeltopRoundTrip(first, 0, op);
      if deltop.None? {
        PutAddr(pc);
        deltop := VecAndOpToDeltop(first, 0, op);
      }
      PutAddr(deltop.value);
    }
  }

  /** rvp_pstate_t with the buffer of words not yet taken. */
  class Parser {
    const first: Addr
    var curthread: nat
    var idepth: nat
    var thread: seq<Thread>
    var buf: seq<Word>

    ghost predicate Valid()
    {
      Placed(first)
    }

    ghost function State(): PState
      reads this
    {
      PState(curthread, idepth, thread)
    }

    /** rvp_pstate_init: the first record of a trace is `begin`, whose deltop is the center. */
    constructor (op0: Addr, trace: seq<Word>)
      requires CENTER <= op0 && op0 + CENTER <= 0x1_0000_0000_0000_0000
      ensures Valid() && Center(first) == op0 && State() == PState(0, 0, []) && buf == trace
    {
      first := op0 - CENTER;
      curthread, idepth, thread, buf := 0, 0, [], trace;
    }

    /** rvp_pstate_begin_thread */
    method Begin(tid: nat) returns (ok: bool)
      requires Valid()
      modifies this`curthread, this`idepth, this`thread
      ensures match BeginThread(first, old(State()), tid)
              case None => !ok && State() == old(State())
              case Some(ps) => ok && State() == ps
    {
      if tid >= 0x8000_0000 { return false; }
      var larger := Extended(thread, tid);
      if larger[tid].present { return false; }
      curthread, idepth := tid, 0;
      thread := larger[tid := Thread(true, seq(DEPTHS, _ => first + CENTER))];
      ok := true;
    }

    /** consume_and_print_trace: how many words are missing, or 0; nothing is shown for a bare
        program counter; `ok` is false if an assertion failed. */
    method ConsumeTrace() returns (short: nat, seen: Option<Seen>, ok: bool)
      requires Valid() && 2 <= |buf|
      modifies this
      ensures match Consume(first, old(State()), old(buf))
              case Fault => !ok && buf == old(buf)
              case Starved(need) => ok && short == need > 0 && buf == old(buf) && State() == old(State())
              case Nop(ps) => ok && short == 0 && seen == None && State() == ps && buf == old(buf)[2..]
              case Op(ps, s) => ok && short == 0 && seen == Some(s) && State() == ps && buf == old(buf)[Length(first, old(buf))..]
    {
      hide Extended, BeginThread, PayloadWords, Wrap64;
      short, seen, ok := 0, None, false;
      var pc := WordsAddr(buf[0], buf[1]);
      if pc < first || first + CELLS - 1 < pc {
        if curthread < |thread| && idepth < |thread[curthread].lastpc| {
          thread := thread[curthread := thread[curthread].(lastpc := thread[curthread].lastpc[idepth := pc])];
          buf := buf[2..];
          ok := true;
        }
        return;
      }
      var (jmpvec, op) := ExtractJmpvecAndOp(first, pc);
      var reclen := PayloadWords(op);
      if reclen.None? { return; }
      if |buf| < 2 + reclen.value {
        return 2 + reclen.value - |buf|, None, true;
      }
      var payload := buf[2..2 + reclen.value];
      if op == BEGIN {
        var begun := Begin(payload[0]);
        if !begun { return; }
      }
      if (op == ENTERSIG && idepth == 0) || (op == 37 && idepth == 0) { return; }
      if curthread >= |thread| || idepth >= |thread[curthread].lastpc| { return; }
      var lastpc := thread[curthread].lastpc[idepth];
      pc := Wrap64(lastpc + jmpvec);
      thread := thread[curthread := thread[curthread].(lastpc := thread[curthread].lastpc[idepth := pc])];
      seen := Some(Seen(curthread, idepth, pc, op, payload));
      if op == END {
        thread := thread[curthread := thread[curthread].(present := false)];
      }
      if op == SWITCH {
        curthread, idepth := payload[0], 0;
      } else if op == SIGDEPTH {
        if payload[0] >= DEPTHS { return; }
        idepth := payload[0];
      }
      buf := buf[2 + reclen.value..];
      ok := true;
    }

    /** The loop of rvp_trace_dump_with_emitters on a trace that is all in memory. */
    method Dump() returns (shown: seq<Seen>)
      requires Valid()
      modifies this
      ensures var r := ReadAll(first, old(State()), old(buf)); shown == r.seen && buf == r.rest
      ensures var r := ReadAll(first, old(State()), old(buf)); r.rest == [] ==> State() == r.ps
    {
      hide Consume, Length;
      shown := [];
      ghost var whole := ReadAll(first, State(), buf);
      while |buf| >= 2
        invariant var r := ReadAll(first, State(), buf); whole == Reading(shown + r.seen, r.ps, r.rest)
        decreases |buf|
      {
        ghost var ps0, buf0 := State(), buf;
        ReadStep(first, ps0, buf0);
        var short, seen, ok := ConsumeTrace();
        if !ok || short != 0 {
          assert shown + [] == shown;
          return;
        }
        if seen.Some? {
          assert shown + ([seen.value] + ReadAll(first, State(), buf).seen) == shown + [seen.value] + ReadAll(first, State(), buf).seen;
          shown := shown + [seen.value];
        }
      }
      ReadShort(first, State(), buf);
      assert shown + [] == shown;
    }
  }

  /** `trace` is a whole trace: of legal records, the first of which begins thread 1. */
  ghost predicate WholeTraceOf(first: Addr, recs: seq<Record>, trace: seq<Word>)
  {
    Placed(first) && AllLegal(first, NoWriters(), recs) && trace == Encode(first, NoWriters(), recs) &&
    recs != [] && recs[0].Jumpless? && recs[0].op == 0 && recs[0].payload[0] == 1
  }

  /** `trace` breaks off after such records, in the middle of one, or at one that the reader does not know or refuses. */
  ghost predicate BrokenTraceOf(first: Addr, recs: seq<Record>, bad: seq<Word>, trace: seq<Word>)
  {
    Placed(first) && AllLegal(first, NoWriters(), recs) && WholeTraceOf(first, recs, Encode(first, NoWriters(), recs)) &&
    trace == Encode(first, NoWriters(), recs) + bad && Broken(first, NextAll(first, NoWriters(), recs), bad)
  }

  lemma TraceBegins(first: Addr, recs: seq<Record>, trace: seq<Word>)
    requires WholeTraceOf(first, recs, trace)
    ensures |trace| >= 5 && WordsAddr(trace[0], trace[1]) == Center(first) && trace[2] == 1
  {
    hide Center, WordsAddr, AddrWords, Next, VecAndOpToDeltop;
    CenterIsBegin(first);
    AddrRoundTrip(Center(first));
    var rest := Encode(first, Next(first, NoWriters(), recs[0]), recs[1..]);
    assert trace == AddrWords(Center(first)) + recs[0].payload + rest;
    assert trace[2] == recs[0].payload[0];
  }

  /** rvp_trace_dump_with_emitters, once the header has been checked: the reader sets itself up from the first two
      words and shows what follows. `ok` if there was no error and nothing is left. Whatever was traced, wherever
      the matrix of deltops was, all of it is shown; and if what follows is broken, all before that is, and then there
      is an error. */
  method DumpTrace(trace: seq<Word>) returns (shown: seq<Seen>, ok: bool)
    requires |trace| >= 5 ==> CENTER <= WordsAddr(trace[0], trace[1]) <= 0x1_0000_0000_0000_0000 - CENTER
    ensures forall first: Addr, recs: seq<Record> | WholeTraceOf(first, recs, trace) :: ok && EachShown(recs, shown)
    ensures forall first: Addr, recs: seq<Record>, bad: seq<Word> | BrokenTraceOf(first, recs, bad, trace) :: !ok && EachShown(recs, shown)
  {
    hide WholeTraceOf, BrokenTraceOf, EachShown, ReadAll, WordsAddr, Encode, AllLegal;
    shown, ok := [], false;
    forall first: Addr, recs: seq<Record> | WholeTraceOf(first, recs, trace)
      ensures Placed(first)
      ensures |trace| >= 5 && WordsAddr(trace[0], trace[1]) == Center(first) && trace[2] == 1
      ensures var r := ReadAll(first, PState(0, 0, []), trace); EachShown(recs, r.seen) && r.rest == []
    {
      WholeIsShown(first, recs, trace);
    }
    forall first: Addr, recs: seq<Record>, bad: seq<Word> | BrokenTraceOf(first, recs, bad, trace)
      ensures Placed(first)
      ensures |trace| >= 5 && WordsAddr(trace[0], trace[1]) == Center(first) && trace[2] == 1
      ensures var r := ReadAll(first, PState(0, 0, []), trace); EachShown(recs, r.seen) && r.rest != []
    {
      BrokenIsShown(first, recs, bad, trace);
    }
    if |trace| < 5 || trace[2] != 1 { return; }
    var ps := new Parser(WordsAddr(trace[0], trace[1]), trace);
    shown := ps.Dump();
    ok := ps.buf == [];
  }

  lemma WholeIsShown(first: Addr, recs: seq<Record>, trace: seq<Word>)
    requires WholeTraceOf(first, recs, trace)
    ensures Placed(first) && |trace| >= 5 && WordsAddr(trace[0], trace[1]) == Center(first) && trace[2] == 1
    ensures var r := ReadAll(first, PState(0, 0, []), trace); EachShown(recs, r.seen) && r.rest == []
  {
    TraceBegins(first, recs, trace);
    hide ReadAll, Encode, AllShown, AllLegal, EachShown, Next, Legal, Center, WordsAddr, AddrWords;
    WholeTrace(first, recs);
    ShownWholly(first, recs, ReadAll(first, PState(0, 0, []), trace).seen);
  }

  lemma BrokenIsShown(first: Addr, recs: seq<Record>, bad: seq<Word>, trace: seq<Word>)
    requires BrokenTraceOf(first, recs, bad, trace)
    ensures Placed(first) && |trace| >= 5 && WordsAddr(trace[0], trace[1]) == Center(first) && trace[2] == 1
    ensures var r := ReadAll(first, PState(0, 0, []), trace); EachShown(recs, r.seen) && r.rest == bad != []
  {
    var whole := Encode(first, NoWriters(), recs);
    TraceBegins(first, recs, whole);
    hide WholeTraceOf, ReadAll, Encode, AllShown, AllLegal, EachShown, Next, Legal, Center, WordsAddr, AddrWords, InSync, NextAll;
    assert trace[0] == whole[0] && trace[1] == whole[1] && trace[2] == whole[2];
    NothingYet(first);
    var seen, ps := TraceThen(first, NoWriters(), PState(0, 0, []), recs, bad);
    BrokenStops(first, NextAll(first, NoWriters(), recs), ps, bad);
    assert seen + [] == seen;
    ShownWholly(first, recs, seen);
  }

  lemma NothingYet(first: Addr)
    requires Placed(first)
    ensures InSync(first, NoWriters(), PState(0, 0, []))
  {
  }

  lemma ReadStep(first: Addr, ps: PState, ws: seq<Word>)
    requires Placed(first) && 2 <= |ws|
    ensures Length(first, ws) >= 2 && (Consume(first, ps, ws).Op? ==> Length(first, ws) <= |ws|)
    ensures (Consume(first, ps, ws).Starved? || Consume(first, ps, ws).Fault?) ==>
              ReadAll(first, ps, ws) == Reading([], ps, ws) && ws != []
  {
    hide Perform, PayloadWords;
    PerformsWhole(first, ps, ws);
  }

  lemma PerformsWhole(first: Addr, ps: PState, ws: seq<Word>)
    requires Placed(first) && 2 <= |ws|
    ensures Consume(first, ps, ws).Op? ==> Length(first, ws) <= |ws|
  {
    hide Perform, PayloadWords;
  }

  lemma ReadShort(first: Addr, ps: PState, ws: seq<Word>)
    requires Placed(first) && |ws| < 2
    ensures ReadAll(first, ps, ws) == Reading([], ps, ws)
  {
  }
}
