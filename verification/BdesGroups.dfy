/** What every group of an encryption or a decryption of nbtools/bdes/bdes.c is, from the cipher, the group that it is
    made of and the text before it. */
module BdesGroups {
  import opened Bdes

  /** The register of output feedback when `at` bytes have gone by. */
  function OfbRegister(c: Cipher, k: nat, iv: Block, at: nat): Block
    requires 1 <= k <= 8
    decreases at
  {
    if at < k then iv else OfbRegister(c, k, iv[k..] + c.enc(iv)[..k], at - k)
  }

  /** Each byte with its top bit set. */
  function Marked(x: seq<bv8>): (r: seq<bv8>)
    ensures |r| == |x| && forall i | 0 <= i < |x| :: r[i] == x[i] | 0x80
  {
    seq(|x|, i requires 0 <= i < |x| => x[i] | 0x80)
  }

  lemma MarksConcat(x: seq<bv8>, y: seq<bv8>)
    ensures Marked(x + y) == Marked(x) + Marked(y)
  {
  }

  /** The register when `x` is the text in cipher so far: its last eight bytes, in the alternative mode with their top
      bits set, or what is still left of the initial vector and then those. */
  function RegisterAfter(c: Cipher, m: Mode, iv: Block, x: seq<bv8>): (r: Block)
    requires Fits(m)
  {
    match m
    case Ofb(k) => OfbRegister(c, k, iv, |x|)
    case Cfba(_) => (iv + Marked(x))[|x|..]
    case _ => (iv + x)[|x|..]
  }

  /** Group `x` of the text in cipher is what the mode makes of group `b` with register `r`. The alternative mode leaves
      its last group with the top bits. */
  predicate SealedAs(c: Cipher, m: Mode, r: Block, b: seq<bv8>, x: seq<bv8>, last: bool)
    requires Fits(m) && |b| == |x| == Width(m)
  {
    match m
    case Ecb => x == c.enc(b)
    case Cbc => x == c.enc(seq(8, i requires 0 <= i < 8 => b[i] ^ r[i]))
    case Cfba(k) => forall i | 0 <= i < k :: x[i] == if last then b[i] ^ c.enc(r)[i] else (b[i] ^ c.enc(r)[i]) & 0x7f
    case _ => forall i | 0 <= i < Width(m) :: x[i] == b[i] ^ c.enc(r)[i]
  }

  /** Group `b` in the clear is what the mode makes of group `x`. */
  predicate OpenedAs(c: Cipher, m: Mode, r: Block, x: seq<bv8>, b: seq<bv8>)
    requires Fits(m) && |b| == |x| == Width(m)
  {
    match m
    case Ecb => b == c.dec(x)
    case Cbc => forall i | 0 <= i < 8 :: b[i] == c.dec(x)[i] ^ r[i]
    case Cfba(k) => forall i | 0 <= i < k :: b[i] == (x[i] ^ c.enc(r)[i]) & 0x7f
    case _ => forall i | 0 <= i < Width(m) :: b[i] == x[i] ^ c.enc(r)[i]
  }

  lemma SealIs(c: Cipher, m: Mode, iv: Block, b: seq<bv8>)
    requires Fits(m) && |b| == Width(m)
    ensures SealedAs(c, m, iv, b, Seal(c, m, iv, b).bytes, false)
    ensures SealedAs(c, m, iv, b, SealLast(c, m, iv, b), true)
  {
    if m.Cbc? {
      assert seq(8, i requires 0 <= i < 8 => b[i] ^ iv[i]) == Xor(b, iv);
    } else if m.Cfba? {
      var x := Seal(c, m, iv, b).bytes;
      forall i | 0 <= i < |b|
        ensures x[i] == (b[i] ^ c.enc(iv)[i]) & 0x7f
      {
        MarkMasked(b[i] ^ c.enc(iv)[i]);
      }
    }
  }

  lemma MarkMasked(x: bv8)
    ensures (x | 0x80) & 0x7f == x & 0x7f
    ensures (x & 0x7f) | 0x80 == x | 0x80
  {
  }

  lemma OpenIs(c: Cipher, m: Mode, iv: Block, x: seq<bv8>)
    requires Fits(m) && |x| == Width(m)
    ensures OpenedAs(c, m, iv, x, Open(c, m, iv, x).bytes)
  {
  }

  /** The register goes on as the mode's own does. */
  lemma RegisterSteps(c: Cipher, m: Mode, iv: Block, iv': Block, x: seq<bv8>, y: seq<bv8>)
    requires Fits(m) && |x| == Width(m) && iv' == RegisterAfter(c, m, iv, x)
    ensures RegisterAfter(c, m, iv, x + y) == RegisterAfter(c, m, iv', y)
  {
    match m {
      case Ofb(k) =>
        assert OfbRegister(c, k, iv, k + |y|) == OfbRegister(c, k, iv[k..] + c.enc(iv)[..k], |y|);
        assert OfbRegister(c, k, iv, k) == OfbRegister(c, k, iv[k..] + c.enc(iv)[..k], 0);
      case Cfba(_) =>
        MarksConcat(x, y);
        ShiftTwice(iv, Marked(x), Marked(y));
      case _ => ShiftTwice(iv, x, y);
    }
  }

  lemma SealRegister(c: Cipher, m: Mode, iv: Block, b: seq<bv8>)
    requires Fits(m) && |b| == Width(m)
    ensures var s := Seal(c, m, iv, b); m.Ecb? || s.iv == RegisterAfter(c, m, iv, s.bytes)
  {
    var s := Seal(c, m, iv, b);
    match m {
      case Ofb(k) => assert OfbRegister(c, k, iv, k) == OfbRegister(c, k, iv[k..] + c.enc(iv)[..k], 0);
      case Cfba(k) =>
        var high := High(Xor(b, c.enc(iv)));
        forall i | 0 <= i < k
          ensures s.bytes[i] | 0x80 == high[i]
        {
          MarkMasked(Xor(b, c.enc(iv))[i] | 0x80);
          MarkTwice(Xor(b, c.enc(iv))[i]);
        }
        assert Marked(s.bytes) == high;
      case _ =>
    }
  }

  lemma MarkTwice(x: bv8)
    ensures x | 0x80 | 0x80 == x | 0x80
  {
  }

  lemma OpenRegister(c: Cipher, m: Mode, iv: Block, x: seq<bv8>)
    requires Fits(m) && |x| == Width(m)
    ensures m.Ecb? || Open(c, m, iv, x).iv == RegisterAfter(c, m, iv, x)
  {
    match m {
      case Ofb(k) => assert OfbRegister(c, k, iv, k) == OfbRegister(c, k, iv[k..] + c.enc(iv)[..k], 0);
      case Cfba(_) => assert Marked(x) == High(x);
      case _ =>
    }
  }

  /** The message as it is divided into groups: zeros, and in the last byte how many bytes of the last group are the
      message's, in the alternative mode as a digit with its top bit set. */
  function Padded(m: Mode, msg: seq<bv8>): (p: seq<bv8>)
    requires Fits(m)
  {
    var n := Over(|msg|, Width(m));
    msg + seq(Width(m) - 1 - n, _ => 0) + [if m.Cfba? then ((0x30 + n) as bv8) | 0x80 else n as bv8]
  }

  /** Group `at` of the message is sealed with the register that the text before it leaves. */
  predicate GroupSealed(c: Cipher, m: Mode, iv: Block, p: seq<bv8>, x: seq<bv8>, at: nat)
    requires Fits(m) && at + Width(m) <= |x| == |p|
  {
    var k := Width(m);
    SealedAs(c, m, RegisterAfter(c, m, iv, x[..at]), p[at..at + k], x[at..at + k], at + k == |x|)
  }

  ghost predicate AllSealed(c: Cipher, m: Mode, iv: Block, p: seq<bv8>, x: seq<bv8>)
    requires Fits(m)
  {
    |x| == |p| && forall at | 0 <= at && at + Width(m) <= |x| && Over(at, Width(m)) == 0 :: GroupSealed(c, m, iv, p, x, at)
  }

  /** Every group of the encryption, from the group in the clear and the text before it. */
  lemma {:induction false} GroupsSealed(c: Cipher, m: Mode, iv: Block, msg: seq<bv8>)
    requires Fits(m)
    ensures AllSealed(c, m, iv, Padded(m, msg), Encrypted(c, m, iv, msg))
    decreases |msg|
  {
    hide Seal, SealLast, SealedAs, RegisterAfter, LastGroup, AllSealed, Padded, Over;
    var k := Width(m);
    var x, p := Encrypted(c, m, iv, msg), Padded(m, msg);
    if |msg| < k {
      PaddedLast(m, msg);
      SealIs(c, m, iv, p);
      OneSealed(c, m, iv, p, x);
    } else {
      var s := Seal(c, m, iv, msg[..k]);
      GroupsSealed(c, m, s.iv, msg[k..]);
      PaddedStep(m, msg);
      Longer(c, m, s.iv, msg[k..]);
      SealIs(c, m, iv, msg[..k]);
      SealRegister(c, m, iv, msg[..k]);
      SealedOn(c, m, iv, s.iv, msg[..k], Padded(m, msg[k..]), s.bytes, Encrypted(c, m, s.iv, msg[k..]));
    }
  }

  lemma OneSealed(c: Cipher, m: Mode, iv: Block, p: seq<bv8>, x: seq<bv8>)
    requires Fits(m) && |p| == |x| == Width(m) && SealedAs(c, m, iv, p, x, true)
    ensures AllSealed(c, m, iv, p, x)
  {
    hide SealedAs, RegisterAfter;
    NoneBefore(c, m, iv);
    assert x[..0] == [] && p[0..0 + |p|] == p && x[0..0 + |p|] == x;
  }

  /** What holds of the text after the first group holds of it after that. */
  lemma SealedOn(c: Cipher, m: Mode, iv: Block, iv': Block, b: seq<bv8>, p': seq<bv8>, y: seq<bv8>, x': seq<bv8>)
    requires Fits(m) && |b| == |y| == Width(m) && SealedAs(c, m, iv, b, y, false) && |x'| >= Width(m)
    requires (m.Ecb? || iv' == RegisterAfter(c, m, iv, y)) && AllSealed(c, m, iv', p', x')
    ensures AllSealed(c, m, iv, b + p', y + x')
  {
    hide SealedAs, RegisterAfter, GroupSealed;
    var k, p, x := Width(m), b + p', y + x';
    forall at | 0 <= at && at + k <= |x| && Over(at, k) == 0
      ensures GroupSealed(c, m, iv, p, x, at)
    {
      if at == 0 {
        SealedFirst(c, m, iv, b, p', y, x');
      } else {
        assert Over(at - k, k) == 0;
        SealedLater(c, m, iv, iv', b, p', y, x', at - k);
      }
    }
  }

  lemma SealedFirst(c: Cipher, m: Mode, iv: Block, b: seq<bv8>, p': seq<bv8>, y: seq<bv8>, x': seq<bv8>)
    requires Fits(m) && |b| == |y| == Width(m) && SealedAs(c, m, iv, b, y, false) && |x'| == |p'| >= Width(m)
    ensures GroupSealed(c, m, iv, b + p', y + x', 0)
  {
    hide SealedAs, RegisterAfter;
    NoneBefore(c, m, iv);
    var k, p, x := Width(m), b + p', y + x';
    assert x[..0] == [] && p[0..0 + k] == b && x[0..0 + k] == y;
  }

  lemma LaterSlice(a: seq<bv8>, b: seq<bv8>, i: nat, j: nat)
    requires i <= j <= |b|
    ensures (a + b)[i + |a|..j + |a|] == b[i..j]
  {
    var s := (a + b)[i + |a|..j + |a|];
    assert forall l | 0 <= l < j - i :: s[l] == (a + b)[i + |a| + l] == b[i + l] == b[i..j][l];
  }

  lemma SealedLater(c: Cipher, m: Mode, iv: Block, iv': Block, b: seq<bv8>, p': seq<bv8>, y: seq<bv8>, x': seq<bv8>, at: nat)
    requires Fits(m) && |b| == |y| == Width(m) && |x'| == |p'| && at + Width(m) <= |x'|
    requires (m.Ecb? || iv' == RegisterAfter(c, m, iv, y)) && GroupSealed(c, m, iv', p', x', at)
    ensures GroupSealed(c, m, iv, b + p', y + x', at + Width(m))
  {
    hide SealedAs, RegisterAfter;
    var k, p, x := Width(m), b + p', y + x';
    assert x[..at + k] == y + x'[..at];
    LaterSlice(b, p', at, at + k);
    LaterSlice(y, x', at, at + k);
    if m.Ecb? {
      SealedByBook(c, iv, iv', y, x'[..at], p'[at..at + k], x'[at..at + k], at + k == |x'|);
    } else {
      RegisterSteps(c, m, iv, iv', y, x'[..at]);
    }
  }

  lemma PaddedStep(m: Mode, msg: seq<bv8>)
    requires Fits(m) && |msg| >= Width(m)
    ensures Padded(m, msg) == msg[..Width(m)] + Padded(m, msg[Width(m)..])
  {
  }

  lemma PaddedLast(m: Mode, msg: seq<bv8>)
    requires Fits(m) && |msg| < Width(m)
    ensures Padded(m, msg) == LastGroup(m, msg)
  {
    assert seq(Width(m) - 1 - |msg|, _ => 0 as bv8) == Zeros(Width(m) - 1 - |msg|);
  }

  lemma NoneBefore(c: Cipher, m: Mode, iv: Block)
    requires Fits(m)
    ensures RegisterAfter(c, m, iv, []) == iv
  {
    match m {
      case Ofb(_) =>
      case Cfba(_) => NothingAdded(iv, Marked([]));
      case _ => NothingAdded(iv, []);
    }
  }

  lemma NothingAdded(iv: Block, s: seq<bv8>)
    requires s == []
    ensures (iv + s)[0..] == iv
  {
    assert iv + s == iv;
  }

  /** The code book mode has no register. */
  lemma SealedByBook(c: Cipher, iv: Block, iv': Block, x: seq<bv8>, y: seq<bv8>, b: seq<bv8>, z: seq<bv8>, last: bool)
    requires |b| == |z| == 8 && SealedAs(c, Ecb, RegisterAfter(c, Ecb, iv', y), b, z, last)
    ensures SealedAs(c, Ecb, RegisterAfter(c, Ecb, iv, x + y), b, z, last)
  {
  }

  /** Group `at` of a text is opened to `b`. */
  predicate GroupOpened(c: Cipher, m: Mode, iv: Block, x: seq<bv8>, at: nat, b: seq<bv8>)
    requires Fits(m) && at + Width(m) <= |x| && |b| == Width(m)
  {
    OpenedAs(c, m, RegisterAfter(c, m, iv, x[..at]), x[at..at + Width(m)], b)
  }

  /** So are all groups of `x` but the last, and `out` is what they are opened to. */
  ghost predicate AllOpened(c: Cipher, m: Mode, iv: Block, x: seq<bv8>, out: seq<bv8>)
    requires Fits(m)
  {
    forall at | 0 <= at && at + Width(m) < |x| && Over(at, Width(m)) == 0 ::
      at + Width(m) <= |out| && GroupOpened(c, m, iv, x, at, out[at..at + Width(m)])
  }

  /** The last group is opened to `b`, whose last byte tells how many bytes of it are written, or is wrong. */
  predicate LastOpened(c: Cipher, m: Mode, iv: Block, x: seq<bv8>, b: seq<bv8>, r: Outcome)
    requires Fits(m)
  {
    var k := Width(m);
    |b| == k <= |x| && GroupOpened(c, m, iv, x, |x| - k, b) &&
    var n: int := if m.Cfba? then b[k - 1] as int - 0x30 else b[k - 1] as int;
    if 0 <= n < k then r.ending.Done? && |x| - k <= |r.out| && r.out[|x| - k..] == b[..n] else r.ending.Corrupted? && |r.out| == |x| - k
  }

  /** Every group of any text, from the group and the text before it. */
  lemma {:induction false} GroupsOpened(c: Cipher, m: Mode, iv: Block, x: seq<bv8>) returns (b: seq<bv8>)
    requires Fits(m)
    ensures AllOpened(c, m, iv, x, Decrypted(c, m, iv, x).out)
    ensures x != [] && Over(|x|, Width(m)) == 0 ==> LastOpened(c, m, iv, x, b, Decrypted(c, m, iv, x))
    decreases |x|
  {
    hide Open, OpenedAs, RegisterAfter, GroupOpened, AllOpened, LastOpened;
    var k := Width(m);
    b := [];
    if |x| < k {
      NoneOpened(c, m, iv, x);
    } else {
      var o := Open(c, m, iv, x[..k]);
      OpenRegister(c, m, iv, x[..k]);
      FirstOpened(c, m, iv, x);
      if |x| == k {
        b := o.bytes;
        OneOpened(c, m, iv, x);
      } else {
        b := GroupsOpened(c, m, o.iv, x[k..]);
        assert x == x[..k] + x[k..];
        DecryptedStep(c, m, iv, x[..k], x[k..]);
        var r' := Decrypted(c, m, o.iv, x[k..]);
        AllOpenedOn(c, m, iv, o.iv, x, o.bytes, r'.out);
        if Over(|x|, k) == 0 { LastOpenedOn(c, m, iv, o.iv, x, b, o.bytes, r'); }
      }
    }
  }

  lemma NoneOpened(c: Cipher, m: Mode, iv: Block, x: seq<bv8>)
    requires Fits(m) && |x| < Width(m)
    ensures AllOpened(c, m, iv, x, Decrypted(c, m, iv, x).out)
    ensures Over(|x|, Width(m)) == |x|
  {
  }

  lemma FirstOpened(c: Cipher, m: Mode, iv: Block, x: seq<bv8>)
    requires Fits(m) && |x| >= Width(m)
    ensures GroupOpened(c, m, iv, x, 0, Open(c, m, iv, x[..Width(m)]).bytes)
  {
    hide Open, OpenedAs, RegisterAfter;
    OpenIs(c, m, iv, x[..Width(m)]);
    NoneBefore(c, m, iv);
    assert x[..0] == [] && x[0..0 + Width(m)] == x[..Width(m)];
  }

  lemma OneOpened(c: Cipher, m: Mode, iv: Block, x: seq<bv8>)
    requires Fits(m) && |x| == Width(m) && GroupOpened(c, m, iv, x, 0, Open(c, m, iv, x[..Width(m)]).bytes)
    ensures AllOpened(c, m, iv, x, Decrypted(c, m, iv, x).out)
    ensures LastOpened(c, m, iv, x, Open(c, m, iv, x[..Width(m)]).bytes, Decrypted(c, m, iv, x))
  {
    hide Open, GroupOpened;
  }

  lemma AllOpenedOn(c: Cipher, m: Mode, iv: Block, iv': Block, x: seq<bv8>, y: seq<bv8>, out: seq<bv8>)
    requires Fits(m) && |x| > Width(m) == |y| && GroupOpened(c, m, iv, x, 0, y)
    requires (m.Ecb? || iv' == RegisterAfter(c, m, iv, x[..Width(m)])) && AllOpened(c, m, iv', x[Width(m)..], out)
    ensures AllOpened(c, m, iv, x, y + out)
  {
    hide RegisterAfter, GroupOpened;
    var k := Width(m);
    forall at | 0 <= at && at + k < |x| && Over(at, k) == 0
      ensures at + k <= |y + out| && GroupOpened(c, m, iv, x, at, (y + out)[at..at + k])
    {
      if at == 0 {
        assert (y + out)[0..0 + k] == y;
      } else {
        assert Over(at - k, k) == 0;
        assert (y + out)[at..at + k] == out[at - k..at - k + k];
        OpenedLater(c, m, iv, iv', x, at - k, out[at - k..at - k + k]);
      }
    }
  }

  lemma LastOpenedOn(c: Cipher, m: Mode, iv: Block, iv': Block, x: seq<bv8>, b: seq<bv8>, y: seq<bv8>, r: Outcome)
    requires Fits(m) && |x| > Width(m) == |y|
    requires (m.Ecb? || iv' == RegisterAfter(c, m, iv, x[..Width(m)])) && LastOpened(c, m, iv', x[Width(m)..], b, r)
    ensures LastOpened(c, m, iv, x, b, Outcome(y + r.out, r.ending))
  {
    hide RegisterAfter, GroupOpened;
    var k := Width(m);
    OpenedLater(c, m, iv, iv', x, |x| - k - k, b);
    assert |r.out| >= |x| - k - k ==> (y + r.out)[|x| - k..] == r.out[|x| - k - k..];
  }

  lemma OpenedLater(c: Cipher, m: Mode, iv: Block, iv': Block, x: seq<bv8>, at: nat, b: seq<bv8>)
    requires Fits(m) && at + 2 * Width(m) <= |x| && |b| == Width(m)
    requires m.Ecb? || iv' == RegisterAfter(c, m, iv, x[..Width(m)])
    requires GroupOpened(c, m, iv', x[Width(m)..], at, b)
    ensures GroupOpened(c, m, iv, x, at + Width(m), b)
  {
    hide RegisterAfter;
    var k := Width(m);
    assert x[k..][at..at + k] == x[at + k..at + k + k];
    assert x[..at + k] == x[..k] + x[k..][..at];
    if m.Ecb? {
    } else {
      RegisterSteps(c, m, iv, iv', x[..k], x[k..][..at]);
    }
  }

  /** What is over is the remainder. */
  lemma {:induction false} OverIsRemainder(n: nat, k: nat)
    requires 1 <= k <= 8
    ensures Over(n, k) == n % k
    decreases n
  {
    if n >= k {
      OverIsRemainder(n - k, k);
      RemainderBelow(n - k, k);
    }
  }

  lemma RemainderBelow(n: nat, k: nat)
    requires 1 <= k <= 8
    ensures (n + k) % k == n % k
  {
    if k == 1 {
    } else if k == 2 {
    } else if k == 3 {
    } else if k == 4 {
    } else if k == 5 {
    } else if k == 6 {
    } else if k == 7 {
    } else {
      assert k == 8;
    }
  }
}
