/** The file format of the encryption filter in each of its chaining modes (nbtools/bdes/bdes.c).
    The block cipher itself is any pair of functions of which the second undoes the first. */
module Bdes {

  type Block = b: seq<bv8> | |b| == 8 witness [0, 0, 0, 0, 0, 0, 0, 0]

  /** des_cipher under one key, in both directions. */
  datatype Cipher = Cipher(enc: Block -> Block, dec: Block -> Block)

  ghost predicate Undoes(c: Cipher)
  {
    forall b: Block :: c.dec(c.enc(b)) == b
  }

  /** The chaining modes; the feedback modes take `width` bytes at a time. */
  datatype Mode = Ecb | Cbc | Cfb(width: nat) | Cfba(width: nat) | Ofb(width: nat)

  /** What the command line lets through: 1 to 8 bytes of feedback. */
  predicate Fits(m: Mode)
  {
    m.Ecb? || m.Cbc? || 1 <= m.width <= 8
  }

  function Width(m: Mode): (k: nat)
    requires Fits(m)
    ensures 1 <= k <= 8
  {
    if m.Ecb? || m.Cbc? then 8 else m.width
  }

  function Flip(x: bv8, y: bv8): bv8 { x ^ y }

  /** A byte without its top bit, and with it. */
  function Mask(x: bv8): bv8 { x & 0x7f }

  function Mark(x: bv8): bv8 { x | 0x80 }

  function Xor(a: seq<bv8>, b: seq<bv8>): (r: seq<bv8>)
    requires |a| <= |b|
    ensures |r| == |a|
  {
    seq(|a|, i requires 0 <= i < |a| => Flip(a[i], b[i]))
  }

  function Low(a: seq<bv8>): (r: seq<bv8>)
    ensures |r| == |a|
  {
    seq(|a|, i requires 0 <= i < |a| => Mask(a[i]))
  }

  function High(a: seq<bv8>): (r: seq<bv8>)
    ensures |r| == |a|
  {
    seq(|a|, i requires 0 <= i < |a| => Mark(a[i]))
  }

  function Zeros(n: nat): (r: seq<bv8>)
    ensures |r| == n
  {
    seq(n, i => 0)
  }

  /** The shift register after taking in `s` at its end. */
  function Shifted(iv: Block, s: seq<bv8>): Block
    requires |s| <= 8
  {
    iv[|s|..] + s
  }

  // ---- The format ----

  datatype Chained = Chained(bytes: seq<bv8>, iv: Block)

  /** One full group of the message. */
  function Seal(c: Cipher, m: Mode, iv: Block, b: seq<bv8>): (r: Chained)
    requires Fits(m) && |b| == Width(m)
    ensures |r.bytes| == Width(m)
  {
    match m
    case Ecb => Chained(c.enc(b), iv)
    case Cbc => Chained(c.enc(Xor(b, iv)), c.enc(Xor(b, iv)))
    case Cfb(_) => Chained(Xor(b, c.enc(iv)), Shifted(iv, Xor(b, c.enc(iv))))
    case Cfba(_) => Chained(Low(High(Xor(b, c.enc(iv)))), Shifted(iv, High(Xor(b, c.enc(iv)))))
    case Ofb(k) => Chained(Xor(b, c.enc(iv)), Shifted(iv, c.enc(iv)[..k]))
  }

  /** The last group; only in the alternative mode is it sealed otherwise than the others. */
  function SealLast(c: Cipher, m: Mode, iv: Block, b: seq<bv8>): (r: seq<bv8>)
    requires Fits(m) && |b| == Width(m)
    ensures |r| == Width(m)
  {
    if m.Cfba? then Xor(b, c.enc(iv)) else Seal(c, m, iv, b).bytes
  }

  function Open(c: Cipher, m: Mode, iv: Block, x: seq<bv8>): (r: Chained)
    requires Fits(m) && |x| == Width(m)
    ensures |r.bytes| == Width(m)
  {
    match m
    case Ecb => Chained(c.dec(x), iv)
    case Cbc => Chained(Xor(c.dec(x), iv), x)
    case Cfb(_) => Chained(Xor(x, c.enc(iv)), Shifted(iv, x))
    case Cfba(_) => Chained(Low(Xor(x, c.enc(iv))), Shifted(iv, High(x)))
    case Ofb(k) => Chained(Xor(x, c.enc(iv)), Shifted(iv, c.enc(iv)[..k]))
  }

  /** The byte that tells how many bytes of the last group belong to the message. */
  function CountByte(m: Mode, n: nat): bv8
    requires n <= 7
  {
    if m.Cfba? then (0x30 + n) as bv8 | 0x80 else n as bv8
  }

  function CountOf(m: Mode, b: bv8): int
  {
    if m.Cfba? then b as int - 0x30 else b as int
  }

  /** The last group in the clear: what is left of the message, zeros, and the count. */
  function LastGroup(m: Mode, rest: seq<bv8>): (b: seq<bv8>)
    requires Fits(m) && |rest| < Width(m)
    ensures |b| == Width(m)
  {
    rest + Zeros(Width(m) - 1 - |rest|) + [CountByte(m, |rest|)]
  }

  function Encrypted(c: Cipher, m: Mode, iv: Block, msg: seq<bv8>): (r: seq<bv8>)
    requires Fits(m)
    decreases |msg|
  {
    if |msg| < Width(m) then
      SealLast(c, m, iv, LastGroup(m, msg))
    else
      var s := Seal(c, m, iv, msg[..Width(m)]);
      s.bytes + Encrypted(c, m, s.iv, msg[Width(m)..])
  }

  /** How a decryption ends; what it wrote before an error stays written. */
  datatype Ending = Done | Corrupted | Incomplete

  datatype Outcome = Outcome(out: seq<bv8>, ending: Ending)

  function Decrypted(c: Cipher, m: Mode, iv: Block, x: seq<bv8>): (r: Outcome)
    requires Fits(m)
    decreases |x|
  {
    var k := Width(m);
    if x == [] then Outcome([], Done)
    else if |x| < k then Outcome([], Incomplete)
    else
      var o := Open(c, m, iv, x[..k]);
      if |x| == k then
        var n := CountOf(m, o.bytes[k - 1]);
        if 0 <= n < k then Outcome(o.bytes[..n], Done) else Outcome([], Corrupted)
      else
        var rest := Decrypted(c, m, o.iv, x[k..]);
        Outcome(o.bytes + rest.out, rest.ending)
  }

  // ---- Decryption undoes encryption ----

  /** What a mode carries of a message: the alternative mode loses the top bits. */
  function Carried(m: Mode, msg: seq<bv8>): seq<bv8>
  {
    if m.Cfba? then Low(msg) else msg
  }

  lemma XorUndone(a: seq<bv8>, b: seq<bv8>)
    requires |a| <= |b|
    ensures Xor(Xor(a, b), b) == a
  {
    forall i | 0 <= i < |a|
      ensures Xor(Xor(a, b), b)[i] == a[i]
    {
      assert Xor(Xor(a, b), b)[i] == Flip(Flip(a[i], b[i]), b[i]);
    }
  }

  /** Reading what was written with the top bits off gives the low bits, and the same register. */
  lemma LowXorUndone(a: seq<bv8>, b: seq<bv8>)
    requires |a| <= |b|
    ensures Low(Xor(Low(High(Xor(a, b))), b)) == Low(a)
    ensures High(Low(High(Xor(a, b)))) == High(Xor(a, b))
  {
    hide Flip, Mask, Mark;
    forall i | 0 <= i < |a|
      ensures Low(Xor(Low(High(Xor(a, b))), b))[i] == Low(a)[i]
      ensures High(Low(High(Xor(a, b))))[i] == High(Xor(a, b))[i]
    {
      MaskUndone(a[i], b[i]);
    }
  }

  lemma MaskUndone(x: bv8, y: bv8)
    ensures Mask(Flip(Mask(Mark(Flip(x, y))), y)) == Mask(x)
    ensures Mark(Mask(Mark(Flip(x, y)))) == Mark(Flip(x, y))
  {
  }

  lemma OpenSealed(c: Cipher, m: Mode, iv: Block, b: seq<bv8>)
    requires Undoes(c) && Fits(m) && |b| == Width(m)
    ensures var s := Seal(c, m, iv, b);
            Open(c, m, iv, s.bytes) == Chained(Carried(m, b), s.iv)
  {
    match m {
      case Ecb =>
      case Cbc => XorUndone(b, iv);
      case Cfb(_) => XorUndone(b, c.enc(iv));
      case Cfba(_) => LowXorUndone(b, c.enc(iv));
      case Ofb(_) => XorUndone(b, c.enc(iv));
    }
  }

  lemma OpenLast(c: Cipher, m: Mode, iv: Block, b: seq<bv8>)
    requires Undoes(c) && Fits(m) && |b| == Width(m)
    ensures Open(c, m, iv, SealLast(c, m, iv, b)).bytes == Carried(m, b)
  {
    if m.Cfba? {
      XorUndone(b, c.enc(iv));
    } else {
      OpenSealed(c, m, iv, b);
    }
  }

  lemma CountRead(m: Mode, n: nat)
    requires n <= 7
    ensures CountOf(m, if m.Cfba? then CountByte(m, n) & 0x7f else CountByte(m, n)) == n
  {
    assert (0x30 + n) as bv8 & 0x7f == (0x30 + n) as bv8;
  }

  lemma LastGroupRead(m: Mode, rest: seq<bv8>)
    requires Fits(m) && |rest| < Width(m)
    ensures var b := Carried(m, LastGroup(m, rest));
            CountOf(m, b[Width(m) - 1]) == |rest| && b[..|rest|] == Carried(m, rest)
  {
    CountRead(m, |rest|);
    var b := LastGroup(m, rest);
    assert b[Width(m) - 1] == CountByte(m, |rest|);
    assert forall i | 0 <= i < |rest| :: b[i] == rest[i];
    assert Carried(m, b)[..|rest|] == Carried(m, rest);
  }

  /** Every message, key and initial vector: the filter gives back what the mode carries. */
  lemma {:induction false} RoundTrip(c: Cipher, m: Mode, iv: Block, msg: seq<bv8>)
    requires Undoes(c) && Fits(m)
    ensures Decrypted(c, m, iv, Encrypted(c, m, iv, msg)) == Outcome(Carried(m, msg), Done)
    decreases |msg|
  {
    hide Seal, SealLast, Open, LastGroup, CountOf, Carried;
    var k := Width(m);
    if |msg| < k {
      var b := LastGroup(m, msg);
      OpenLast(c, m, iv, b);
      LastGroupRead(m, msg);
      var x := SealLast(c, m, iv, b);
      assert x[..k] == x;
    } else {
      var s := Seal(c, m, iv, msg[..k]);
      var rest := Encrypted(c, m, s.iv, msg[k..]);
      OpenSealed(c, m, iv, msg[..k]);
      RoundTrip(c, m, s.iv, msg[k..]);
      Longer(c, m, s.iv, msg[k..]);
      DecryptedStep(c, m, iv, s.bytes, rest);
      CarriedConcat(m, msg[..k], msg[k..]);
      assert msg[..k] + msg[k..] == msg;
    }
  }

  lemma CarriedConcat(m: Mode, a: seq<bv8>, b: seq<bv8>)
    ensures Carried(m, a) + Carried(m, b) == Carried(m, a + b)
  {
  }

  lemma Longer(c: Cipher, m: Mode, iv: Block, msg: seq<bv8>)
    requires Fits(m)
    ensures |Encrypted(c, m, iv, msg)| >= Width(m)
  {
  }

  /** One group that is not the last. */
  lemma DecryptedStep(c: Cipher, m: Mode, iv: Block, x: seq<bv8>, y: seq<bv8>)
    requires Fits(m) && |x| == Width(m) && y != []
    ensures var o := Open(c, m, iv, x);
            var rest := Decrypted(c, m, o.iv, y);
            Decrypted(c, m, iv, x + y) == Outcome(o.bytes + rest.out, rest.ending)
  {
    hide Open, CountOf;
    assert (x + y)[..|x|] == x && (x + y)[|x|..] == y;
  }

  // ---- Lengths ----

  /** What is left of n bytes when groups of k are taken out. */
  function Over(n: nat, k: nat): (r: nat)
    requires 1 <= k
    ensures r < k
  {
    if n < k then n else Over(n - k, k)
  }

  /** There is always a last group that the message does not fill: encryption makes the text longer
      by one to eight bytes, to a whole number of groups. */
  lemma {:induction false} EncryptedLength(c: Cipher, m: Mode, iv: Block, msg: seq<bv8>)
    requires Fits(m)
    ensures |Encrypted(c, m, iv, msg)| == |msg| - Over(|msg|, Width(m)) + Width(m)
    decreases |msg|
  {
    hide Seal, SealLast, LastGroup;
    var k := Width(m);
    if |msg| >= k {
      EncryptedLength(c, m, Seal(c, m, iv, msg[..k]).iv, msg[k..]);
    }
  }

  predicate SevenBit(msg: seq<bv8>)
  {
    forall i | 0 <= i < |msg| :: msg[i] & 0x80 == 0
  }

  /** The message comes back exactly when the mode is not the alternative one or no byte of the
      message has its top bit set. */
  lemma RoundTripExactly(c: Cipher, m: Mode, iv: Block, msg: seq<bv8>)
    requires Undoes(c) && Fits(m)
    ensures Decrypted(c, m, iv, Encrypted(c, m, iv, msg)) == Outcome(msg, Done) <==> (m.Cfba? ==> SevenBit(msg))
  {
    RoundTrip(c, m, iv, msg);
    if m.Cfba? {
      forall i | 0 <= i < |msg|
        ensures Low(msg)[i] == msg[i] <==> msg[i] & 0x80 == 0
      {
        TopBit(msg[i]);
      }
      if SevenBit(msg) {
        assert Low(msg) == msg;
      } else {
        var i :| 0 <= i < |msg| && msg[i] & 0x80 != 0;
        assert Low(msg)[i] != msg[i];
      }
    }
  }

  lemma TopBit(x: bv8)
    ensures x & 0x7f == x <==> x & 0x80 == 0
  {
  }

  /** How decryption of any text at all ends: an error unless the text is whole groups, and what is
      written by then. */
  lemma {:induction false} EndingOf(c: Cipher, m: Mode, iv: Block, x: seq<bv8>)
    requires Fits(m)
    ensures var r := Decrypted(c, m, iv, x);
            && (r.ending.Incomplete? <==> Over(|x|, Width(m)) != 0)
            && (r.ending.Incomplete? ==> |r.out| == |x| - Over(|x|, Width(m)))
            && (r.ending.Corrupted? ==> |r.out| == |x| - Width(m))
            && (r.ending.Done? ==> if x == [] then r.out == [] else |x| - Width(m) <= |r.out| < |x|)
    decreases |x|
  {
    hide Open, CountOf;
    var k := Width(m);
    if |x| > k {
      assert x == x[..k] + x[k..];
      DecryptedStep(c, m, iv, x[..k], x[k..]);
      EndingOf(c, m, Open(c, m, iv, x[..k]).iv, x[k..]);
    }
  }

  // ---- Recovery after damage ----

  /** The register after reading `x`. */
  function Register(c: Cipher, m: Mode, iv: Block, x: seq<bv8>): Block
    requires Fits(m)
    decreases |x|
  {
    if |x| < Width(m) then iv else Register(c, m, Open(c, m, iv, x[..Width(m)]).iv, x[Width(m)..])
  }

  /** Decryption of whole groups followed by more text: as many bytes as the groups have, then the
      rest under the register they leave. */
  lemma {:induction false} DecryptedConcat(c: Cipher, m: Mode, iv: Block, x: seq<bv8>, y: seq<bv8>)
    requires Fits(m) && Over(|x|, Width(m)) == 0 && y != []
    ensures var r := Decrypted(c, m, iv, x + y);
            var rest := Decrypted(c, m, Register(c, m, iv, x), y);
            |r.out| >= |x| && Outcome(r.out[|x|..], r.ending) == rest
    decreases |x|
  {
    hide Open, CountOf, Decrypted;
    var k := Width(m);
    if x == [] {
      assert x + y == y;
    } else {
      var o := Open(c, m, iv, x[..k]);
      DecryptedConcat(c, m, o.iv, x[k..], y);
      DecryptedStep(c, m, iv, x[..k], x[k..] + y);
      assert x + y == x[..k] + (x[k..] + y);
      var rest := Decrypted(c, m, o.iv, x[k..] + y);
      assert (o.bytes + rest.out)[|x|..] == rest.out[|x| - k..];
    }
  }

  /** What a mode that feeds the text back puts in its register. */
  function Fed(m: Mode, x: seq<bv8>): (r: seq<bv8>)
    ensures |r| == |x|
  {
    if m.Cfba? then High(x) else x
  }

  lemma OpenFeeds(c: Cipher, m: Mode, iv: Block, x: seq<bv8>)
    requires Fits(m) && !m.Ofb? && !m.Ecb? && |x| == Width(m)
    ensures Open(c, m, iv, x).iv == iv[|x|..] + Fed(m, x)
  {
  }

  lemma FedConcat(m: Mode, a: seq<bv8>, b: seq<bv8>)
    ensures Fed(m, a + b) == Fed(m, a) + Fed(m, b)
  {
  }

  lemma ShiftTwice(iv: seq<bv8>, a: seq<bv8>, b: seq<bv8>)
    requires |a| <= |iv|
    ensures (iv + (a + b))[|a| + |b|..] == ((iv[|a|..] + a) + b)[|b|..]
  {
  }

  lemma {:induction false} RegisterHolds(c: Cipher, m: Mode, iv: Block, x: seq<bv8>)
    requires Fits(m) && !m.Ofb? && !m.Ecb? && Over(|x|, Width(m)) == 0
    ensures Register(c, m, iv, x) == (iv + Fed(m, x))[|x|..]
    decreases |x|
  {
    hide Open, Fed;
    var k := Width(m);
    if x == [] {
      assert Fed(m, x) == [];
    } else {
      RegisterHolds(c, m, Open(c, m, iv, x[..k]).iv, x[k..]);
      OpenFeeds(c, m, iv, x[..k]);
      assert x == x[..k] + x[k..];
      FedConcat(m, x[..k], x[k..]);
      ShiftTwice(iv, Fed(m, x[..k]), Fed(m, x[k..]));
    }
  }

  /** In the modes that feed the text back, eight undamaged bytes put decryption right again,
      whatever came before them and under whatever initial vector. */
  lemma Recovers(c: Cipher, m: Mode, iv: Block, iv': Block, x: seq<bv8>, x': seq<bv8>, w: seq<bv8>, y: seq<bv8>)
    requires Fits(m) && !m.Ofb? && !m.Ecb? && |w| >= 8 && y != []
    requires Over(|x + w|, Width(m)) == 0 && Over(|x' + w|, Width(m)) == 0
    ensures var r := Decrypted(c, m, iv, x + w + y);
            var r' := Decrypted(c, m, iv', x' + w + y);
            && |r.out| >= |x + w| && |r'.out| >= |x' + w|
            && r.out[|x + w|..] == r'.out[|x' + w|..] && r.ending == r'.ending
  {
    hide Over, Decrypted, Register, Fed;
    DecryptedConcat(c, m, iv, x + w, y);
    DecryptedConcat(c, m, iv', x' + w, y);
    RegisterHolds(c, m, iv, x + w);
    RegisterHolds(c, m, iv', x' + w);
    FedConcat(m, x, w);
    FedConcat(m, x', w);
    LastEight(iv, Fed(m, x), Fed(m, w));
    LastEight(iv', Fed(m, x'), Fed(m, w));
  }

  lemma LastEight(iv: Block, a: seq<bv8>, w: seq<bv8>)
    requires |w| >= 8
    ensures (iv + (a + w))[|a| + |w|..] == w[|w| - 8..]
  {
  }

  // ---- The filter ----

  /** An encryption under way: before, `out0` was written and `msg` to be read under the register
      `iv0`; now it is `out`, `rest` and `iv`. */
  ghost predicate Sealing(c: Cipher, m: Mode, iv0: Block, msg: seq<bv8>, out0: seq<bv8>,
                          iv: Block, rest: seq<bv8>, out: seq<bv8>)
    requires Fits(m)
  {
    out0 + Encrypted(c, m, iv0, msg) == out + Encrypted(c, m, iv, rest)
  }

  lemma SealingBegins(c: Cipher, m: Mode, iv: Block, msg: seq<bv8>, out: seq<bv8>)
    requires Fits(m)
    ensures Sealing(c, m, iv, msg, out, iv, msg, out)
  {
  }

  lemma SealingStep(c: Cipher, m: Mode, iv0: Block, msg: seq<bv8>, out0: seq<bv8>,
                    iv: Block, b: seq<bv8>, rest: seq<bv8>, out: seq<bv8>)
    requires Fits(m) && |b| == Width(m)
    requires Sealing(c, m, iv0, msg, out0, iv, b + rest, out)
    ensures Sealing(c, m, iv0, msg, out0, Seal(c, m, iv, b).iv, rest, out + Seal(c, m, iv, b).bytes)
  {
    hide Seal, SealLast;
    assert (b + rest)[..|b|] == b && (b + rest)[|b|..] == rest;
  }

  lemma SealingEnds(c: Cipher, m: Mode, iv0: Block, msg: seq<bv8>, out0: seq<bv8>,
                    iv: Block, rest: seq<bv8>, out: seq<bv8>)
    requires Fits(m) && |rest| < Width(m)
    requires Sealing(c, m, iv0, msg, out0, iv, rest + [], out)
    ensures out0 + Encrypted(c, m, iv0, msg) == out + SealLast(c, m, iv, LastGroup(m, rest))
  {
    hide Seal, SealLast;
    assert rest + [] == rest;
  }

  /** The same of a decryption. */
  ghost predicate Opening(c: Cipher, m: Mode, iv0: Block, text: seq<bv8>, out0: seq<bv8>,
                          iv: Block, rest: seq<bv8>, out: seq<bv8>)
    requires Fits(m)
  {
    && out0 + Decrypted(c, m, iv0, text).out == out + Decrypted(c, m, iv, rest).out
    && Decrypted(c, m, iv0, text).ending == Decrypted(c, m, iv, rest).ending
  }

  /** A decryption has ended, with `out` written in all. */
  ghost predicate Opened(c: Cipher, m: Mode, iv0: Block, text: seq<bv8>, out0: seq<bv8>, out: seq<bv8>, ending: Ending)
    requires Fits(m)
  {
    && out == out0 + Decrypted(c, m, iv0, text).out
    && ending == Decrypted(c, m, iv0, text).ending
  }

  lemma OpeningBegins(c: Cipher, m: Mode, iv: Block, text: seq<bv8>, out: seq<bv8>)
    requires Fits(m)
    ensures Opening(c, m, iv, text, out, iv, text, out)
  {
  }

  lemma OpeningStep(c: Cipher, m: Mode, iv0: Block, text: seq<bv8>, out0: seq<bv8>,
                    iv: Block, b: seq<bv8>, rest: seq<bv8>, out: seq<bv8>)
    requires Fits(m) && |b| == Width(m) && rest != []
    requires Opening(c, m, iv0, text, out0, iv, b + rest, out)
    ensures Opening(c, m, iv0, text, out0, Open(c, m, iv, b).iv, rest, out + Open(c, m, iv, b).bytes)
  {
    hide Open, CountOf, Decrypted;
    DecryptedStep(c, m, iv, b, rest);
  }

  lemma OpeningLast(c: Cipher, m: Mode, iv0: Block, text: seq<bv8>, out0: seq<bv8>,
                    iv: Block, b: seq<bv8>, rest: seq<bv8>, out: seq<bv8>)
    requires Fits(m) && |b| == Width(m) && rest == []
    requires Opening(c, m, iv0, text, out0, iv, b + rest, out)
    ensures var o := Open(c, m, iv, b);
            var n := CountOf(m, o.bytes[Width(m) - 1]);
            if 0 <= n < Width(m) then Opening(c, m, iv0, text, out0, o.iv, [], out + o.bytes[..n])
            else Opened(c, m, iv0, text, out0, out, Corrupted)
  {
    hide Open, CountOf;
    assert b + [] == b && b[..|b|] == b;
    assert Decrypted(c, m, Open(c, m, iv, b).iv, []) == Outcome([], Done);
    assert out + [] == out;
  }

  lemma OpeningEnds(c: Cipher, m: Mode, iv0: Block, text: seq<bv8>, out0: seq<bv8>,
                    iv: Block, rest: seq<bv8>, out: seq<bv8>)
    requires Fits(m) && |rest| < Width(m)
    requires Opening(c, m, iv0, text, out0, iv, rest + [], out)
    ensures Opened(c, m, iv0, text, out0, out, if |rest| > 0 then Incomplete else Done)
  {
    hide Open, CountOf;
    assert rest + [] == rest;
  }

  // ---- The loops over one group ----

  /** `dst` becomes `a` ^ `b`, without the top bits if `mask`. */
  method XorTo(dst: array<bv8>, a: array<bv8>, b: array<bv8>, k: nat, mask: bool)
    requires k <= dst.Length && k <= a.Length && k <= 8 == b.Length && dst != b
    modifies dst
    ensures dst[..k] == if mask then Low(Xor(old(a[..k]), b[..8])) else Xor(old(a[..k]), b[..8])
  {
    hide Flip, Mask;
    var n := 0;
    while n < k
      invariant n <= k
      invariant forall i | 0 <= i < n :: dst[i] == if mask then Mask(Flip(old(a[i]), b[i])) else Flip(old(a[i]), b[i])
      invariant forall i | n <= i < dst.Length :: dst[i] == old(dst[i])
    {
      dst[n] := if mask then Mask(Flip(a[n], b[n])) else Flip(a[n], b[n]);
      n := n + 1;
    }
    assert mask ==> dst[..k] == Low(Xor(old(a[..k]), b[..8]));
    assert !mask ==> dst[..k] == Xor(old(a[..k]), b[..8]);
  }

  /** MEMCPY into the front of a buffer. */
  method Copy(dst: array<bv8>, src: array<bv8>, k: nat)
    requires k <= dst.Length && k <= src.Length && dst != src
    modifies dst
    ensures dst[..k] == src[..k]
  {
    var n := 0;
    while n < k
      invariant n <= k && dst[..n] == src[..n]
    {
      dst[n] := src[n];
      n := n + 1;
    }
  }

  /** MEMZERO of what the last read left unfilled, and the count in the last byte. */
  method Finish(buf: array<bv8>, n: nat, k: nat, count: bv8)
    requires n < k <= buf.Length
    modifies buf
    ensures buf[..k] == old(buf[..n]) + Zeros(k - 1 - n) + [count]
  {
    var i := n;
    while i < k
      invariant n <= i <= k && buf[..n] == old(buf[..n])
      invariant forall j | n <= j < i :: buf[j] == 0
    {
      buf[i] := 0;
      i := i + 1;
    }
    buf[k - 1] := count;
  }

  lemma FinishIsLast(m: Mode, rest: seq<bv8>)
    requires Fits(m) && |rest| < Width(m)
    ensures rest + Zeros(Width(m) - 1 - |rest|) + [CountByte(m, |rest|)] == LastGroup(m, rest)
  {
  }

  class Filter {
    const cipher: Cipher
    const ivec: array<bv8>
    /** stdin from the reading position on, and stdout. */
    var input: seq<bv8>
    var output: seq<bv8>

    predicate Ready()
    {
      ivec.Length == 8
    }

    function Iv(): Block
      requires Ready()
      reads ivec
    {
      ivec[..8]
    }

    /** READ */
    method Read(buf: array<bv8>, k: nat) returns (n: nat)
      requires k <= buf.Length
      modifies this`input, buf
      ensures n == if |old(input)| < k then |old(input)| else k
      ensures buf[..n] + input == old(input) && (n < k ==> input == [])
    {
      n := if |input| < k then |input| else k;
      var i := 0;
      while i < n
        invariant i <= n && input == old(input) && buf[..i] == input[..i]
      {
        buf[i] := input[i];
        i := i + 1;
      }
      input := input[n..];
    }

    /** WRITE */
    method Write(buf: array<bv8>, n: nat)
      requires n <= buf.Length
      modifies this`output
      ensures output == old(output) + buf[..n]
    {
      output := output + buf[..n];
    }

    /** DES_XFORM in place; `inverse` is set by the modes that decrypt with the inverse cipher. */
    method Transform(buf: array<bv8>, inverse: bool)
      requires buf.Length == 8
      modifies buf
      ensures buf[..8] == if inverse then cipher.dec(old(buf[..8])) else cipher.enc(old(buf[..8]))
    {
      var b: Block := if inverse then cipher.dec(buf[..8]) else cipher.enc(buf[..8]);
      forall i | 0 <= i < 8 {
        buf[i] := b[i];
      }
      assert buf[..8] == b;
    }

    /** The register moves `k` bytes on; its last `k` bytes are then to be filled in. */
    method Shift(k: nat)
      requires Ready() && k <= 8
      modifies ivec
      ensures ivec[..8 - k] == old(ivec[k..])
    {
      var n := 0;
      while n < 8 - k
        invariant n <= 8 - k && ivec[..n] == old(ivec[k..k + n])
        invariant forall i | n <= i < 8 :: ivec[i] == old(ivec[i])
      {
        ivec[n] := ivec[n + k];
        n := n + 1;
      }
      assert old(ivec[k..k + n]) == old(ivec[k..]);
    }

    /** The register moves on and takes in the front of `src`, with the top bits if `mark`. */
    method Feed(src: array<bv8>, k: nat, mark: bool)
      requires Ready() && k <= 8 && k <= src.Length && src != ivec
      modifies ivec
      ensures Iv() == Shifted(old(Iv()), if mark then High(src[..k]) else src[..k])
    {
      hide Mark;
      Shift(k);
      var n := 0;
      while n < k
        invariant n <= k && ivec[..8 - k] == old(ivec[k..])
        invariant forall i | 0 <= i < n :: ivec[8 - k + i] == if mark then Mark(src[i]) else src[i]
      {
        ivec[8 - k + n] := if mark then Mark(src[n]) else src[n];
        n := n + 1;
      }
      assert ivec[..8] == ivec[..8 - k] + ivec[8 - k..];
      assert old(ivec[k..]) == old(ivec[..8])[k..];
      assert mark ==> ivec[8 - k..] == High(src[..k]);
      assert !mark ==> ivec[8 - k..] == src[..k];
    }

    /** The register moves on and takes in `a` ^ `b`, with the top bits if `mark`. */
    method FeedXor(a: array<bv8>, b: array<bv8>, k: nat, mark: bool)
      requires Ready() && k <= 8 && k <= a.Length && b.Length == 8 && a != ivec && b != ivec
      modifies ivec
      ensures ivec[8 - k..] == if mark then High(Xor(a[..k], b[..8])) else Xor(a[..k], b[..8])
      ensures Iv() == Shifted(old(Iv()), ivec[8 - k..])
    {
      hide Mark, Flip;
      Shift(k);
      var n := 0;
      while n < k
        invariant n <= k && ivec[..8 - k] == old(ivec[k..])
        invariant forall i | 0 <= i < n ::
                    ivec[8 - k + i] == if mark then Mark(Flip(a[i], b[i])) else Flip(a[i], b[i])
      {
        ivec[8 - k + n] := if mark then Mark(Flip(a[n], b[n])) else Flip(a[n], b[n]);
        n := n + 1;
      }
      assert ivec[..8] == ivec[..8 - k] + ivec[8 - k..];
      assert old(ivec[k..]) == old(ivec[..8])[k..];
      assert mark ==> ivec[8 - k..] == High(Xor(a[..k], b[..8]));
      assert !mark ==> ivec[8 - k..] == Xor(a[..k], b[..8]);
    }

    /** WRITE of the last `k` bytes of the register. */
    method WriteTail(k: nat)
      requires Ready() && k <= 8
      modifies this`output
      ensures output == old(output) + ivec[8 - k..]
    {
      output := output + ivec[8 - k..];
    }

    /** The last `k` bytes of the register, without the top bits. */
    method MaskTail(dst: array<bv8>, k: nat)
      requires Ready() && k <= 8 && k <= dst.Length && dst != ivec
      modifies dst
      ensures dst[..k] == Low(ivec[8 - k..])
    {
      hide Mask;
      var n := 0;
      while n < k
        invariant n <= k && forall i | 0 <= i < n :: dst[i] == Mask(ivec[8 - k + i])
      {
        dst[n] := Mask(ivec[8 - k + n]);
        n := n + 1;
      }
      assert dst[..k] == Low(ivec[8 - k..]);
    }

    /** Electronic code book. */
    method EcbEnc()
      requires Ready()
      modifies this
      ensures input == [] && output == old(output) + Encrypted(cipher, Ecb, old(Iv()), old(input))
    {
      hide Sealing, Encrypted, LastGroup, CountByte, Xor, Shifted, Low, High;
      ghost var iv, msg, out := Iv(), input, output;
      var msgbuf := new bv8[8];
      SealingBegins(cipher, Ecb, iv, msg, out);
      var n: nat := Read(msgbuf, 8);
      while n == 8
        invariant n <= 8 && (n < 8 ==> input == []) && Iv() == iv
        invariant Sealing(cipher, Ecb, iv, msg, out, iv, msgbuf[..n] + input, output)
        decreases |input| + n
      {
        SealingStep(cipher, Ecb, iv, msg, out, iv, msgbuf[..n], input, output);
        Transform(msgbuf, false);
        Write(msgbuf, 8);
        n := Read(msgbuf, 8);
      }
      SealingEnds(cipher, Ecb, iv, msg, out, iv, msgbuf[..n], output);
      FinishIsLast(Ecb, msgbuf[..n]);
      Finish(msgbuf, n, 8, CountByte(Ecb, n));
      Transform(msgbuf, false);
      Write(msgbuf, 8);
    }

    /** Electronic code book, back. */
    method EcbDec() returns (ending: Ending)
      requires Ready()
      modifies this, ivec
      ensures input == [] && Opened(cipher, Ecb, old(Iv()), old(input), old(output), output, ending)
    {
      hide Opening, Opened, Decrypted, CountOf, Xor, Shifted, Low, High;
      ghost var m := Ecb;
      ghost var iv, text, out := Iv(), input, output;
      var msgbuf := new bv8[8];
      OpeningBegins(cipher, m, iv, text, out);
      var n: nat := Read(msgbuf, 8);
      while n == 8
        invariant n <= 8 && (n < 8 ==> input == [])
        invariant Opening(cipher, m, iv, text, out, Iv(), msgbuf[..n] + input, output)
        decreases |input| + n
      {
        ghost var b := msgbuf[..n];
        ghost var was := Iv();
        Transform(msgbuf, true);
        assert Chained(msgbuf[..8], Iv()) == Open(cipher, m, was, b);
        if input == [] {
          OpeningLast(cipher, m, iv, text, out, was, b, input, output);
          var count := CountOf(Ecb, msgbuf[8 - 1]);
          if count < 0 || count > 8 - 1 {
            return Corrupted;
          }
          n := count;
          assert msgbuf[..n] == msgbuf[..8][..n];
        } else {
          OpeningStep(cipher, m, iv, text, out, was, b, input, output);
        }
        Write(msgbuf, n);
        n := Read(msgbuf, 8);
      }
      OpeningEnds(cipher, m, iv, text, out, Iv(), msgbuf[..n], output);
      return if n > 0 then Incomplete else Done;
    }

    /** Cipher block chaining. */
    method CbcEnc()
      requires Ready()
      modifies this, ivec
      ensures input == [] && output == old(output) + Encrypted(cipher, Cbc, old(Iv()), old(input))
    {
      hide Sealing, Encrypted, LastGroup, CountByte, Xor, Shifted, Low, High;
      ghost var m := Cbc;
      ghost var iv, msg, out := Iv(), input, output;
      var msgbuf := new bv8[8];
      SealingBegins(cipher, m, iv, msg, out);
      var n: nat := Read(msgbuf, 8);
      while n == 8
        invariant n <= 8 && (n < 8 ==> input == [])
        invariant Sealing(cipher, m, iv, msg, out, Iv(), msgbuf[..n] + input, output)
        decreases |input| + n
      {
        SealingStep(cipher, m, iv, msg, out, Iv(), msgbuf[..n], input, output);
        XorTo(msgbuf, msgbuf, ivec, 8, false);
        Transform(msgbuf, false);
        Copy(ivec, msgbuf, 8);
        Write(msgbuf, 8);
        n := Read(msgbuf, 8);
      }
      SealingEnds(cipher, m, iv, msg, out, Iv(), msgbuf[..n], output);
      FinishIsLast(m, msgbuf[..n]);
      Finish(msgbuf, n, 8, CountByte(Cbc, n));
      XorTo(msgbuf, msgbuf, ivec, 8, false);
      Transform(msgbuf, false);
      Write(msgbuf, 8);
    }

    /** Cipher block chaining, back. */
    method CbcDec() returns (ending: Ending)
      requires Ready()
      modifies this, ivec
      ensures input == [] && Opened(cipher, Cbc, old(Iv()), old(input), old(output), output, ending)
    {
      hide Opening, Opened, Decrypted, CountOf, Xor, Shifted, Low, High;
      ghost var m := Cbc;
      ghost var iv, text, out := Iv(), input, output;
      var msgbuf := new bv8[8];
      var ibuf := new bv8[8];
      OpeningBegins(cipher, m, iv, text, out);
      var n: nat := Read(msgbuf, 8);
      while n == 8
        invariant n <= 8 && (n < 8 ==> input == [])
        invariant Opening(cipher, m, iv, text, out, Iv(), msgbuf[..n] + input, output)
        decreases |input| + n
      {
        ghost var b := msgbuf[..n];
        ghost var was := Iv();
        Copy(ibuf, msgbuf, 8);
        Transform(msgbuf, true);
        XorTo(msgbuf, msgbuf, ivec, 8, false);
        Copy(ivec, ibuf, 8);
        assert Chained(msgbuf[..8], Iv()) == Open(cipher, m, was, b);
        if input == [] {
          OpeningLast(cipher, m, iv, text, out, was, b, input, output);
          var count := CountOf(Cbc, msgbuf[8 - 1]);
          if count < 0 || count > 8 - 1 {
            return Corrupted;
          }
          n := count;
          assert msgbuf[..n] == msgbuf[..8][..n];
        } else {
          OpeningStep(cipher, m, iv, text, out, was, b, input, output);
        }
        Write(msgbuf, n);
        n := Read(msgbuf, 8);
      }
      OpeningEnds(cipher, m, iv, text, out, Iv(), msgbuf[..n], output);
      return if n > 0 then Incomplete else Done;
    }

    /** Cipher feedback. */
    method CfbEnc(nbytes: nat)
      requires Ready() && 1 <= nbytes <= 8
      modifies this, ivec
      ensures input == [] && output == old(output) + Encrypted(cipher, Cfb(nbytes), old(Iv()), old(input))
    {
      hide Sealing, Encrypted, LastGroup, CountByte, Xor, Shifted, Low, High;
      ghost var m := Cfb(nbytes);
      ghost var iv, msg, out := Iv(), input, output;
      var ibuf := new bv8[8];
      var msgbuf := new bv8[8];
      SealingBegins(cipher, m, iv, msg, out);
      var n: nat := Read(ibuf, nbytes);
      while n == nbytes
        invariant n <= nbytes && (n < nbytes ==> input == [])
        invariant Sealing(cipher, m, iv, msg, out, Iv(), ibuf[..n] + input, output)
        decreases |input| + n
      {
        SealingStep(cipher, m, iv, msg, out, Iv(), ibuf[..n], input, output);
        Copy(msgbuf, ivec, 8);
        Transform(msgbuf, false);
        FeedXor(ibuf, msgbuf, nbytes, false);
        WriteTail(nbytes);
        n := Read(ibuf, nbytes);
      }
      SealingEnds(cipher, m, iv, msg, out, Iv(), ibuf[..n], output);
      FinishIsLast(m, ibuf[..n]);
      Finish(ibuf, n, nbytes, CountByte(Cfb(nbytes), n));
      Copy(msgbuf, ivec, 8);
      Transform(msgbuf, false);
      XorTo(ibuf, ibuf, msgbuf, nbytes, false);
      Write(ibuf, nbytes);
    }

    /** Cipher feedback, back. */
    method CfbDec(nbytes: nat) returns (ending: Ending)
      requires Ready() && 1 <= nbytes <= 8
      modifies this, ivec
      ensures input == [] && Opened(cipher, Cfb(nbytes), old(Iv()), old(input), old(output), output, ending)
    {
      hide Opening, Opened, Decrypted, CountOf, Xor, Shifted, Low, High;
      ghost var m := Cfb(nbytes);
      ghost var iv, text, out := Iv(), input, output;
      var ibuf := new bv8[8];
      var obuf := new bv8[8];
      var msgbuf := new bv8[8];
      OpeningBegins(cipher, m, iv, text, out);
      var n: nat := Read(ibuf, nbytes);
      while n == nbytes
        invariant n <= nbytes && (n < nbytes ==> input == [])
        invariant Opening(cipher, m, iv, text, out, Iv(), ibuf[..n] + input, output)
        decreases |input| + n
      {
        ghost var b := ibuf[..n];
        ghost var was := Iv();
        Copy(msgbuf, ivec, 8);
        Transform(msgbuf, false);
        Feed(ibuf, nbytes, false);
        XorTo(obuf, ibuf, msgbuf, nbytes, false);
        assert Chained(obuf[..nbytes], Iv()) == Open(cipher, m, was, b);
        if input == [] {
          OpeningLast(cipher, m, iv, text, out, was, b, input, output);
          var count := CountOf(Cfb(nbytes), obuf[nbytes - 1]);
          if count < 0 || count > nbytes - 1 {
            return Corrupted;
          }
          n := count;
          assert obuf[..n] == obuf[..nbytes][..n];
        } else {
          OpeningStep(cipher, m, iv, text, out, was, b, input, output);
        }
        Write(obuf, n);
        n := Read(ibuf, nbytes);
      }
      OpeningEnds(cipher, m, iv, text, out, Iv(), ibuf[..n], output);
      return if n > 0 then Incomplete else Done;
    }

    /** Alternative cipher feedback, for seven-bit text. */
    method CfbaEnc(nbytes: nat)
      requires Ready() && 1 <= nbytes <= 8
      modifies this, ivec
      ensures input == [] && output == old(output) + Encrypted(cipher, Cfba(nbytes), old(Iv()), old(input))
    {
      hide Sealing, Encrypted, LastGroup, CountByte, Xor, Shifted, Low, High;
      ghost var m := Cfba(nbytes);
      ghost var iv, msg, out := Iv(), input, output;
      var ibuf := new bv8[8];
      var obuf := new bv8[8];
      var msgbuf := new bv8[8];
      SealingBegins(cipher, m, iv, msg, out);
      var n: nat := Read(ibuf, nbytes);
      while n == nbytes
        invariant n <= nbytes && (n < nbytes ==> input == [])
        invariant Sealing(cipher, m, iv, msg, out, Iv(), ibuf[..n] + input, output)
        decreases |input| + n
      {
        SealingStep(cipher, m, iv, msg, out, Iv(), ibuf[..n], input, output);
        Copy(msgbuf, ivec, 8);
        Transform(msgbuf, false);
        FeedXor(ibuf, msgbuf, nbytes, true);
        MaskTail(obuf, nbytes);
        Write(obuf, nbytes);
        n := Read(ibuf, nbytes);
      }
      SealingEnds(cipher, m, iv, msg, out, Iv(), ibuf[..n], output);
      FinishIsLast(m, ibuf[..n]);
      Finish(ibuf, n, nbytes, CountByte(Cfba(nbytes), n));
      Copy(msgbuf, ivec, 8);
      Transform(msgbuf, false);
      XorTo(ibuf, ibuf, msgbuf, nbytes, false);
      Write(ibuf, nbytes);
    }

    /** Alternative cipher feedback, back. */
    method CfbaDec(nbytes: nat) returns (ending: Ending)
      requires Ready() && 1 <= nbytes <= 8
      modifies this, ivec
      ensures input == [] && Opened(cipher, Cfba(nbytes), old(Iv()), old(input), old(output), output, ending)
    {
      hide Opening, Opened, Decrypted, CountOf, Xor, Shifted, Low, High;
      ghost var m := Cfba(nbytes);
      ghost var iv, text, out := Iv(), input, output;
      var ibuf := new bv8[8];
      var obuf := new bv8[8];
      var msgbuf := new bv8[8];
      OpeningBegins(cipher, m, iv, text, out);
      var n: nat := Read(ibuf, nbytes);
      while n == nbytes
        invariant n <= nbytes && (n < nbytes ==> input == [])
        invariant Opening(cipher, m, iv, text, out, Iv(), ibuf[..n] + input, output)
        decreases |input| + n
      {
        ghost var b := ibuf[..n];
        ghost var was := Iv();
        Copy(msgbuf, ivec, 8);
        Transform(msgbuf, false);
        Feed(ibuf, nbytes, true);
        XorTo(obuf, ibuf, msgbuf, nbytes, true);
        assert Chained(obuf[..nbytes], Iv()) == Open(cipher, m, was, b);
        if input == [] {
          OpeningLast(cipher, m, iv, text, out, was, b, input, output);
          var count := CountOf(Cfba(nbytes), obuf[nbytes - 1]);
          if count < 0 || count > nbytes - 1 {
            return Corrupted;
          }
          n := count;
          assert obuf[..n] == obuf[..nbytes][..n];
        } else {
          OpeningStep(cipher, m, iv, text, out, was, b, input, output);
        }
        Write(obuf, n);
        n := Read(ibuf, nbytes);
      }
      OpeningEnds(cipher, m, iv, text, out, Iv(), ibuf[..n], output);
      return if n > 0 then Incomplete else Done;
    }

    /** Output feedback. */
    method OfbEnc(nbytes: nat)
      requires Ready() && 1 <= nbytes <= 8
      modifies this, ivec
      ensures input == [] && output == old(output) + Encrypted(cipher, Ofb(nbytes), old(Iv()), old(input))
    {
      hide Sealing, Encrypted, LastGroup, CountByte, Xor, Shifted, Low, High;
      ghost var m := Ofb(nbytes);
      ghost var iv, msg, out := Iv(), input, output;
      var ibuf := new bv8[8];
      var obuf := new bv8[8];
      var msgbuf := new bv8[8];
      SealingBegins(cipher, m, iv, msg, out);
      var n: nat := Read(ibuf, nbytes);
      while n == nbytes
        invariant n <= nbytes && (n < nbytes ==> input == [])
        invariant Sealing(cipher, m, iv, msg, out, Iv(), ibuf[..n] + input, output)
        decreases |input| + n
      {
        SealingStep(cipher, m, iv, msg, out, Iv(), ibuf[..n], input, output);
        Copy(msgbuf, ivec, 8);
        Transform(msgbuf, false);
        assert msgbuf[..nbytes] == msgbuf[..8][..nbytes];
        Feed(msgbuf, nbytes, false);
        XorTo(obuf, ibuf, msgbuf, nbytes, false);
        Write(obuf, nbytes);
        n := Read(ibuf, nbytes);
      }
      SealingEnds(cipher, m, iv, msg, out, Iv(), ibuf[..n], output);
      FinishIsLast(m, ibuf[..n]);
      Finish(ibuf, n, nbytes, CountByte(Ofb(nbytes), n));
      Copy(msgbuf, ivec, 8);
      Transform(msgbuf, false);
      XorTo(ibuf, ibuf, msgbuf, nbytes, false);
      Write(ibuf, nbytes);
    }

    /** Output feedback, back. */
    method OfbDec(nbytes: nat) returns (ending: Ending)
      requires Ready() && 1 <= nbytes <= 8
      modifies this, ivec
      ensures input == [] && Opened(cipher, Ofb(nbytes), old(Iv()), old(input), old(output), output, ending)
    {
      hide Opening, Opened, Decrypted, CountOf, Xor, Shifted, Low, High;
      ghost var m := Ofb(nbytes);
      ghost var iv, text, out := Iv(), input, output;
      var ibuf := new bv8[8];
      var obuf := new bv8[8];
      var msgbuf := new bv8[8];
      OpeningBegins(cipher, m, iv, text, out);
      var n: nat := Read(ibuf, nbytes);
      while n == nbytes
        invariant n <= nbytes && (n < nbytes ==> input == [])
        invariant Opening(cipher, m, iv, text, out, Iv(), ibuf[..n] + input, output)
        decreases |input| + n
      {
        ghost var b := ibuf[..n];
        ghost var was := Iv();
        Copy(msgbuf, ivec, 8);
        Transform(msgbuf, false);
        assert msgbuf[..nbytes] == msgbuf[..8][..nbytes];
        Feed(msgbuf, nbytes, false);
        XorTo(obuf, ibuf, msgbuf, nbytes, false);
        assert Chained(obuf[..nbytes], Iv()) == Open(cipher, m, was, b);
        if input == [] {
          OpeningLast(cipher, m, iv, text, out, was, b, input, output);
          var count := CountOf(Ofb(nbytes), obuf[nbytes - 1]);
          if count < 0 || count > nbytes - 1 {
            return Corrupted;
          }
          n := count;
          assert obuf[..n] == obuf[..nbytes][..n];
        } else {
          OpeningStep(cipher, m, iv, text, out, was, b, input, output);
        }
        Write(obuf, n);
        n := Read(ibuf, nbytes);
      }
      OpeningEnds(cipher, m, iv, text, out, Iv(), ibuf[..n], output);
      return if n > 0 then Incomplete else Done;
    }
  }
}
