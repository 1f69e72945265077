/** Writing a vector of buffers through a kernel that may take less than it is given
    (llvm/ngrt/io.c). */
module Xfer {
  import opened Basics

  /** struct iovec: `len` bytes of memory from `base` on. */
  datatype Iovec = Iovec(base: nat, len: nat)

  predicate InMemory(mem: seq<Byte>, iov: seq<Iovec>)
  {
    forall i | 0 <= i < |iov| :: iov[i].base + iov[i].len <= |mem|
  }

  /** The bytes that the vectors stand for. */
  function Flatten(mem: seq<Byte>, iov: seq<Iovec>): seq<Byte>
    requires InMemory(mem, iov)
  {
    if iov == [] then [] else mem[iov[0].base..iov[0].base + iov[0].len] + Flatten(mem, iov[1..])
  }

  /** iovsum */
  function Sum(iov: seq<Iovec>): nat
  {
    if iov == [] then 0 else iov[0].len + Sum(iov[1..])
  }

  lemma {:induction false} SumIsLength(mem: seq<Byte>, iov: seq<Iovec>)
    requires InMemory(mem, iov)
    ensures Sum(iov) == |Flatten(mem, iov)|
  {
    if iov != [] {
      SumIsLength(mem, iov[1..]);
    }
  }

  class Channel {
    /** What the kernel will answer to each call: -1 for an error, or how much it takes at
        most. */
    const answer: nat -> int
    var calls: nat
    var written: seq<Byte>

    /** writev: it takes a prefix of what it is given. */
    method Xferv(mem: seq<Byte>, iov: seq<Iovec>) returns (n: int)
      requires InMemory(mem, iov)
      modifies this
      ensures -1 <= n <= |Flatten(mem, iov)| && calls == old(calls) + 1
      ensures written == if n == -1 then old(written) else old(written) + Flatten(mem, iov)[..n]
      ensures n == if answer(old(calls)) < 0 then -1
                   else if answer(old(calls)) < |Flatten(mem, iov)| then answer(old(calls)) else |Flatten(mem, iov)|
    {
      var bytes := Flatten(mem, iov);
      n := answer(calls);
      calls := calls + 1;
      if n < 0 {
        return -1;
      }
      if n > |bytes| {
        n := |bytes|;
      }
      written := written + bytes[..n];
    }

    /** xferallv with writev: everything, unless the kernel fails or stops taking. */
    method Xferallv(mem: seq<Byte>, errRet: int, iov0: array<Iovec>, scratch: array<Iovec>) returns (r: int, ghost sent: nat)
      requires InMemory(mem, iov0[..]) && scratch != iov0 && iov0.Length <= scratch.Length
      modifies this, scratch
      ensures iov0[..] == old(iov0[..]) && old(calls) < calls
      ensures sent <= |Flatten(mem, iov0[..])| && written == old(written) + Flatten(mem, iov0[..])[..sent]
      ensures r == -1 || r == sent
      ensures r == -1 ==> answer(calls - 1) < 0
      ensures 0 <= r < |Flatten(mem, iov0[..])| ==> answer(calls - 1) == 0 || r == errRet
    {
      hide Flatten, InMemory, Sum, Left, Sent;
      ghost var v0 := iov0[..];
      ghost var whole := Flatten(mem, v0);
      SumIsLength(mem, v0);
      var nexpected := Sum(iov0[..]);
      var nxferd := Xferv(mem, iov0[..]);
      sent := if nxferd == -1 then 0 else nxferd;
      if nxferd == -1 || nxferd == errRet || nxferd == nexpected {
        assert whole[..0] == [];
        return nxferd, sent;
      }
      Begun(mem, v0, old(written), nxferd, written);
      var iovcnt := iov0.Length;
      CopyTo(iov0, scratch);
      var at := 0;
      var ntotal := nxferd;
      assert scratch[at..iovcnt] == scratch[..iovcnt] == v0;
      while ntotal < nexpected
        invariant 0 <= nxferd <= ntotal <= nexpected == |whole| && sent == ntotal && Sent(old(written), whole, ntotal, written)
        invariant at <= iovcnt <= scratch.Length && Left(mem, scratch[at..iovcnt], whole, ntotal - nxferd)
        invariant old(calls) < calls && iov0[..] == v0
        decreases nexpected - ntotal
      {
        ghost var iov := scratch[at..iovcnt];
        LeftIs(mem, iov, whole, ntotal - nxferd);
        at := AdvanceIov(mem, scratch, at, iovcnt, nxferd);
        var rest := scratch[at..iovcnt];
        LeftDrops(mem, iov, rest, whole, ntotal - nxferd, nxferd);
        LeftIs(mem, rest, whole, ntotal);
        ghost var written0 := written;
        nxferd := Xferv(mem, rest);
        if nxferd == -1 {
          SentIs(old(written), whole, ntotal, written);
          return -1, sent;
        }
        SentMore(old(written), whole, ntotal, nxferd, written0, written);
        if nxferd == 0 {
          break;
        }
        ntotal := ntotal + nxferd;
        sent := ntotal;
      }
      r := ntotal;
      SentIs(old(written), whole, ntotal, written);
    }
  }

  method CopyTo(from: array<Iovec>, to: array<Iovec>)
    requires from != to && from.Length <= to.Length
    modifies to
    ensures to[..from.Length] == from[..] == old(from[..])
  {
    var k := 0;
    while k < from.Length
      invariant k <= from.Length && to[..k] == from[..k] && from[..] == old(from[..])
    {
      to[k] := from[k];
      k := k + 1;
    }
  }

  /** What the vectors stand for is left of `whole` after its first `k` bytes. */
  predicate Left(mem: seq<Byte>, iov: seq<Iovec>, whole: seq<Byte>, k: nat)
  {
    InMemory(mem, iov) && k <= |whole| && Flatten(mem, iov) == whole[k..]
  }

  /** The first `k` bytes of `whole` have been written after `before`. */
  predicate Sent(before: seq<Byte>, whole: seq<Byte>, k: nat, written: seq<Byte>)
  {
    k <= |whole| && written == before + whole[..k]
  }

  lemma Begun(mem: seq<Byte>, iov: seq<Iovec>, before: seq<Byte>, n: nat, written: seq<Byte>)
    requires InMemory(mem, iov) && n <= |Flatten(mem, iov)| && written == before + Flatten(mem, iov)[..n]
    ensures Left(mem, iov, Flatten(mem, iov), 0) && Sent(before, Flatten(mem, iov), n, written)
  {
    hide Flatten, InMemory;
  }

  lemma LeftIs(mem: seq<Byte>, iov: seq<Iovec>, whole: seq<Byte>, k: nat)
    requires Left(mem, iov, whole, k)
    ensures InMemory(mem, iov) && k <= |whole| && Flatten(mem, iov) == whole[k..]
  {
  }

  lemma LeftDrops(mem: seq<Byte>, iov: seq<Iovec>, iov': seq<Iovec>, whole: seq<Byte>, k: nat, n: nat)
    requires Left(mem, iov, whole, k) && InMemory(mem, iov') && n <= |Flatten(mem, iov)| && Flatten(mem, iov') == Flatten(mem, iov)[n..]
    ensures Left(mem, iov', whole, k + n)
  {
    hide Flatten, InMemory;
    Dropped(whole, k, n);
  }

  lemma SentIs(before: seq<Byte>, whole: seq<Byte>, k: nat, written: seq<Byte>)
    requires Sent(before, whole, k, written)
    ensures k <= |whole| && written == before + whole[..k]
  {
  }

  lemma SentMore(before: seq<Byte>, whole: seq<Byte>, k: nat, n: nat, written: seq<Byte>, written': seq<Byte>)
    requires Sent(before, whole, k, written) && n <= |whole| - k && written' == written + whole[k..][..n]
    ensures Sent(before, whole, k + n, written')
  {
    Taken(whole, k, n);
    assert written' == before + (whole[..k] + whole[k..][..n]);
  }

  lemma Dropped(s: seq<Byte>, i: nat, k: nat)
    requires i + k <= |s|
    ensures s[i..][k..] == s[i + k..]
  {
  }

  lemma Taken(s: seq<Byte>, i: nat, k: nat)
    requires i + k <= |s|
    ensures s[..i] + s[i..][..k] == s[..i + k]
  {
  }

  /** advance_iov drops the first `nbytes` bytes, shrinking the vectors in place. */
  method AdvanceIov(mem: seq<Byte>, scratch: array<Iovec>, at0: nat, iovcnt: nat, nbytes0: nat) returns (at: nat)
    requires at0 <= iovcnt <= scratch.Length && InMemory(mem, scratch[at0..iovcnt])
    requires nbytes0 <= |Flatten(mem, scratch[at0..iovcnt])|
    modifies scratch
    ensures at0 <= at <= iovcnt && InMemory(mem, scratch[at..iovcnt])
    ensures Flatten(mem, scratch[at..iovcnt]) == old(Flatten(mem, scratch[at0..iovcnt]))[nbytes0..]
  {
    hide Flatten, InMemory;
    at := at0;
    var nbytes: int := nbytes0;
    ghost var whole := Flatten(mem, scratch[at0..iovcnt]);
    assert whole[0..] == whole;
    while nbytes > 0 && at < iovcnt
      invariant at0 <= at <= iovcnt && 0 <= nbytes <= nbytes0 && InMemory(mem, scratch[at..iovcnt])
      invariant nbytes <= |Flatten(mem, scratch[at..iovcnt])|
      invariant Flatten(mem, scratch[at..iovcnt])[nbytes..] == whole[nbytes0..]
    {
      ghost var rest := scratch[at..iovcnt];
      FirstVector(mem, rest, nbytes);
      if scratch[at].len > nbytes {
        scratch[at] := Iovec(scratch[at].base + nbytes, scratch[at].len - nbytes);
        assert scratch[at..iovcnt] == rest[0 := Iovec(rest[0].base + nbytes, rest[0].len - nbytes)];
        nbytes := 0;
        break;
      }
      nbytes := nbytes - scratch[at].len;
      at := at + 1;
      assert scratch[at..iovcnt] == rest[1..];
    }
    FlattenNone(mem);
    assert at == iovcnt ==> scratch[at..iovcnt] == [];
    ghost var left := Flatten(mem, scratch[at..iovcnt]);
    assert left[0..] == left;
  }

  /** Taking bytes off the first vector, or dropping it. */
  lemma FirstVector(mem: seq<Byte>, iov: seq<Iovec>, nbytes: nat)
    requires iov != [] && InMemory(mem, iov) && nbytes <= |Flatten(mem, iov)|
    ensures InMemory(mem, iov[1..])
    ensures iov[0].len > nbytes ==>
              var shrunk := iov[0 := Iovec(iov[0].base + nbytes, iov[0].len - nbytes)];
              InMemory(mem, shrunk) && Flatten(mem, shrunk) == Flatten(mem, iov)[nbytes..]
    ensures iov[0].len <= nbytes ==>
              nbytes - iov[0].len <= |Flatten(mem, iov[1..])| &&
              Flatten(mem, iov[1..])[nbytes - iov[0].len..] == Flatten(mem, iov)[nbytes..]
  {
    FlattenFirst(mem, iov);
    TakenOff(mem[iov[0].base..iov[0].base + iov[0].len], Flatten(mem, iov[1..]), nbytes);
    if iov[0].len > nbytes {
      var shrunk := iov[0 := Iovec(iov[0].base + nbytes, iov[0].len - nbytes)];
      assert shrunk[1..] == iov[1..];
      FlattenFirst(mem, shrunk);
      Dropped(mem, iov[0].base, nbytes);
      hide Flatten;
      assert mem[iov[0].base..iov[0].base + iov[0].len][nbytes..] == mem[shrunk[0].base..shrunk[0].base + shrunk[0].len];
    }
  }

  lemma FlattenNone(mem: seq<Byte>)
    ensures InMemory(mem, []) && Flatten(mem, []) == []
  {
  }

  lemma FlattenFirst(mem: seq<Byte>, iov: seq<Iovec>)
    requires iov != [] && InMemory(mem, iov)
    ensures InMemory(mem, iov[1..]) && Flatten(mem, iov) == mem[iov[0].base..iov[0].base + iov[0].len] + Flatten(mem, iov[1..])
  {
  }

  lemma TakenOff(a: seq<Byte>, b: seq<Byte>, k: nat)
    requires k <= |a| + |b|
    ensures k <= |a| ==> (a + b)[k..] == a[k..] + b
    ensures |a| <= k ==> (a + b)[k..] == b[k - |a|..]
  {
  }
}
