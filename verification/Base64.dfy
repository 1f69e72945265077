/** Base 64 as nbtools/compatlib/mkc_base64.c writes and reads it (section 5.2 of RFC 1521). */
module Base64 {
  import opened Basics

  type Digit = d: int | 0 <= d < 64

  const PAD: Byte := 61

  // ---- the alphabet ---------------------------------------------------------------

  /** Base64[d] */
  function CharOf(d: Digit): (c: Byte)
    ensures c != PAD && c != 0 && !IsSpace(c)
  {
    if d < 26 then 65 + d
    else if d < 52 then 97 + (d - 26)
    else if d < 62 then 48 + (d - 52)
    else if d == 62 then 43
    else 47
  }

  /** strchr(Base64, c) - Base64, or -1 */
  function PosOf(c: Byte): (p: int)
    ensures -1 <= p < 64 && (p >= 0 ==> CharOf(p) == c)
  {
    if 65 <= c < 91 then c - 65
    else if 97 <= c < 123 then c - 97 + 26
    else if 48 <= c < 58 then c - 48 + 52
    else if c == 43 then 62
    else if c == 47 then 63
    else -1
  }

  lemma PosOfChar(d: Digit)
    ensures PosOf(CharOf(d)) == d
  {
  }

  const UPPER := "ABCDEFGHIJKLMNOPQRSTUVWXYZ"
  const LOWER := "abcdefghijklmnopqrstuvwxyz"

  /** The alphabet of section 5.2 of RFC 1521. */
  function Alphabet(d: Digit): char
  {
    if d < 26 then UPPER[d] else if d < 52 then LOWER[d - 26] else if d < 62 then "0123456789"[d - 52] else "+/"[d - 62]
  }

  lemma UpperIs(k: nat)
    requires k < 26
    ensures UPPER[k] as int == 65 + k
  {
    match k {
      case 0 | 1 | 2 | 3 | 4 | 5 | 6 | 7 | 8 | 9 | 10 | 11 | 12 =>
      case 13 | 14 | 15 | 16 | 17 | 18 | 19 | 20 | 21 | 22 | 23 | 24 =>
      case _ =>
    }
  }

  lemma LowerIs(k: nat)
    requires k < 26
    ensures LOWER[k] as int == 97 + k
  {
    match k {
      case 0 | 1 | 2 | 3 | 4 | 5 | 6 | 7 | 8 | 9 | 10 | 11 | 12 =>
      case 13 | 14 | 15 | 16 | 17 | 18 | 19 | 20 | 21 | 22 | 23 | 24 =>
      case _ =>
    }
  }

  lemma CharIsAlphabet(d: Digit)
    ensures CharOf(d) == Alphabet(d) as int
  {
    hide UPPER, LOWER;
    if d < 26 { UpperIs(d); } else if d < 52 { LowerIs(d - 26); }
  }

  predicate IsSpace(c: Byte)
  {
    c == 32 || 9 <= c <= 13
  }

  // ---- bytes and six-bit digits -------------------------------------------------------

  function Digit0(a: Byte): Digit { a / 4 }
  function Digit1(a: Byte, b: Byte): Digit { a % 4 * 16 + b / 16 }
  function Digit2(b: Byte, c: Byte): Digit { b % 16 * 4 + c / 64 }
  function Digit3(c: Byte): Digit { c % 64 }

  function Byte0(d: Digit, e: Digit): Byte { d * 4 + e / 16 }
  function Byte1(e: Digit, f: Digit): Byte { e % 16 * 16 + f / 4 }
  function Byte2(f: Digit, g: Digit): Byte { f % 4 * 64 + g }

  lemma BytesBack(a: Byte, b: Byte, c: Byte)
    ensures Byte0(Digit0(a), Digit1(a, b)) == a && Byte1(Digit1(a, b), Digit2(b, c)) == b && Byte2(Digit2(b, c), Digit3(c)) == c
    ensures Digit1(a, 0) % 16 == 0 && Digit2(b, 0) % 4 == 0
  {
  }

  lemma DigitsBack(d: Digit, e: Digit, f: Digit, g: Digit)
    ensures Digit0(Byte0(d, e)) == d && Digit1(Byte0(d, e), Byte1(e, f)) == e && Digit2(Byte1(e, f), Byte2(f, g)) == f && Digit3(Byte2(f, g)) == g
    ensures e % 16 == 0 ==> Digit1(Byte0(d, e), 0) == e
    ensures f % 4 == 0 ==> Digit2(Byte1(e, f), 0) == f
  {
  }

  /** The digits of a byte string; the last may be filled up with zero bits. */
  function Digits(x: seq<Byte>): (ds: seq<Digit>)
    ensures |ds| == |x| / 3 * 4 + (if |x| % 3 == 0 then 0 else |x| % 3 + 1)
  {
    if x == [] then []
    else if |x| == 1 then [Digit0(x[0]), Digit1(x[0], 0)]
    else if |x| == 2 then [Digit0(x[0]), Digit1(x[0], x[1]), Digit2(x[1], 0)]
    else [Digit0(x[0]), Digit1(x[0], x[1]), Digit2(x[1], x[2]), Digit3(x[2])] + Digits(x[3..])
  }

  /** The whole bytes that digits make up. */
  function Full(ds: seq<Digit>): (x: seq<Byte>)
    ensures |x| == Size(|ds|)
  {
    if |ds| < 2 then []
    else if |ds| == 2 then [Byte0(ds[0], ds[1])]
    else if |ds| == 3 then [Byte0(ds[0], ds[1]), Byte1(ds[1], ds[2])]
    else [Byte0(ds[0], ds[1]), Byte1(ds[1], ds[2]), Byte2(ds[2], ds[3])] + Full(ds[4..])
  }

  /** The bits after the last whole byte, at the top of a byte of their own. */
  function Partial(ds: seq<Digit>): Byte
  {
    if ds == [] then 0
    else if |ds| == 1 then Byte0(ds[0], 0)
    else if |ds| == 2 then Byte1(ds[1], 0)
    else if |ds| == 3 then Byte2(ds[2], 0)
    else Partial(ds[4..])
  }

  function Size(ndigits: nat): nat
  {
    ndigits / 4 * 3 + if ndigits % 4 < 2 then 0 else ndigits % 4 - 1
  }

  lemma {:induction false} FullDigits(x: seq<Byte>)
    ensures Full(Digits(x)) == x && Partial(Digits(x)) == 0
  {
    hide Digit0, Digit1, Digit2, Digit3, Byte0, Byte1, Byte2;
    if |x| >= 3 {
      FullDigits(x[3..]);
      assert Digits(x)[4..] == Digits(x[3..]);
      BytesBack(x[0], x[1], x[2]);
    } else if |x| == 2 {
      BytesBack(x[0], x[1], 0);
      NoBits(Digit1(x[0], x[1]), Digit2(x[1], 0));
    } else if |x| == 1 {
      BytesBack(x[0], 0, 0);
      NoBits(Digit1(x[0], 0), 0);
    }
  }

  lemma NoBits(e: Digit, f: Digit)
    ensures Byte1(e, 0) == 0 <==> e % 16 == 0
    ensures Byte2(f, 0) == 0 <==> f % 4 == 0
  {
  }

  lemma {:induction false} DigitsFull(ds: seq<Digit>)
    requires |ds| % 4 != 1 && Partial(ds) == 0
    ensures Digits(Full(ds)) == ds
  {
    hide Digit0, Digit1, Digit2, Digit3, Byte0, Byte1, Byte2;
    if |ds| >= 4 {
      DigitsFull(ds[4..]);
      assert Full(ds)[3..] == Full(ds[4..]);
      DigitsBack(ds[0], ds[1], ds[2], ds[3]);
    } else if |ds| == 3 {
      NoBits(0, ds[2]);
      DigitsBack(ds[0], ds[1], ds[2], 0);
    } else if |ds| == 2 {
      NoBits(ds[1], 0);
      DigitsBack(ds[0], ds[1], 0, 0);
    }
  }

  /** The byte that digit `d` completes, if it follows `n` others, and what is left of it. */
  function Completed(n: nat, partial: Byte, d: Digit): int
  {
    match n % 4
    case 0 => 0
    case 1 => partial + d / 16
    case 2 => partial + d / 4
    case _ => partial + d
  }

  function Remaining(n: nat, d: Digit): Byte
  {
    match n % 4
    case 0 => Byte0(d, 0)
    case 1 => Byte1(d, 0)
    case 2 => Byte2(d, 0)
    case _ => 0
  }

  /** The bits of a digit fall into the low bits of a partial byte, where there are none. */
  predicate Joins(ds: seq<Digit>, d: Digit)
  {
    (|ds| % 4 == 0 ==> Full(ds + [d]) == Full(ds) && Partial(ds) == 0) &&
    (|ds| % 4 != 0 ==>
       Completed(|ds|, Partial(ds), d) < 256 && Full(ds + [d]) == Full(ds) + [Completed(|ds|, Partial(ds), d)] &&
       Partial(ds) % (if |ds| % 4 == 1 then 4 else if |ds| % 4 == 2 then 16 else 64) == 0) &&
    Partial(ds + [d]) == Remaining(|ds|, d)
  }

  lemma JoinsShort(ds: seq<Digit>, d: Digit)
    requires |ds| < 4
    ensures Joins(ds, d)
  {
    hide Byte0, Byte1, Byte2;
    BitsJoin(if |ds| > 0 then ds[|ds| - 1] else 0, d);
    if |ds| == 3 {
      var more := ds + [d];
      assert more[4..] == [];
      assert Full(more) == [Byte0(ds[0], ds[1]), Byte1(ds[1], ds[2]), Byte2(ds[2], d)] + [];
      assert Partial(more) == Partial([]) == 0;
    } else if |ds| == 2 {
    } else if |ds| == 1 {
    }
  }

  lemma BitsJoin(e: Digit, d: Digit)
    ensures Byte0(e, d) == Byte0(e, 0) + d / 16 && Byte0(e, 0) % 4 == 0
    ensures Byte1(e, d) == Byte1(e, 0) + d / 4 && Byte1(e, 0) % 16 == 0
    ensures Byte2(e, d) == Byte2(e, 0) + d && Byte2(e, 0) % 64 == 0
  {
  }

  lemma SameMod(n: nat, partial: Byte, d: Digit)
    ensures (n + 4) % 4 == n % 4
    ensures Completed(n + 4, partial, d) == Completed(n, partial, d) && Remaining(n + 4, d) == Remaining(n, d)
  {
  }

  lemma {:induction false} OneMore(ds: seq<Digit>, d: Digit)
    ensures Joins(ds, d)
  {
    hide Byte0, Byte1, Byte2, Completed, Remaining;
    if |ds| >= 4 {
      OneMore(ds[4..], d);
      assert (ds + [d])[4..] == ds[4..] + [d];
      SameMod(|ds| - 4, Partial(ds), d);
      assert |ds[4..]| == |ds| - 4;
    } else {
      JoinsShort(ds, d);
    }
  }

  // ---- text --------------------------------------------------------------------------

  function Chars(ds: seq<Digit>): (s: seq<Byte>)
    ensures |s| == |ds| && forall k | 0 <= k < |ds| :: s[k] == CharOf(ds[k])
  {
    seq(|ds|, k requires 0 <= k < |ds| => CharOf(ds[k]))
  }

  /** The padding after `n` digits. */
  function Pads(n: nat): seq<Byte>
  {
    if n % 4 == 0 then [] else if n % 4 == 3 then [PAD] else [PAD, PAD]
  }

  /** The text for a byte string. */
  function Encode(x: seq<Byte>): seq<Byte>
  {
    Chars(Digits(x)) + Pads(|Digits(x)|)
  }

  lemma EncodeLength(x: seq<Byte>)
    ensures |Encode(x)| == (|x| + 2) / 3 * 4
  {
    hide CharOf, Digits, Chars;
  }

  /** Text without its white space. */
  function Strip(text: seq<Byte>): seq<Byte>
  {
    if text == [] then [] else (if IsSpace(text[0]) then [] else [text[0]]) + Strip(text[1..])
  }

  lemma CharsConcat(a: seq<Digit>, b: seq<Digit>)
    ensures Chars(a + b) == Chars(a) + Chars(b)
  {
    hide CharOf;
  }

  lemma PadsAgain(n: nat)
    ensures Pads(n + 4) == Pads(n)
  {
  }

  lemma EncodeStep(x: seq<Byte>)
    requires |x| >= 3
    ensures Encode(x) == [CharOf(Digit0(x[0])), CharOf(Digit1(x[0], x[1])), CharOf(Digit2(x[1], x[2])), CharOf(Digit3(x[2]))] + Encode(x[3..])
  {
    hide Digit0, Digit1, Digit2, Digit3, CharOf, Pads;
    var four := [Digit0(x[0]), Digit1(x[0], x[1]), Digit2(x[1], x[2]), Digit3(x[2])];
    var rest := Digits(x[3..]);
    assert Digits(x) == four + rest;
    CharsConcat(four, rest);
    assert Chars(four) == [CharOf(four[0]), CharOf(four[1]), CharOf(four[2]), CharOf(four[3])];
    PadsAgain(|rest|);
    assert Chars(four) + Chars(rest) + Pads(|rest|) == Chars(four) + (Chars(rest) + Pads(|rest|));
  }

  /** Where the digits of a text end. */
  lemma TextOf(ds: seq<Digit>)
    ensures var s := Chars(ds) + Pads(|ds|);
            (forall k | 0 <= k < |ds| :: s[k] == CharOf(ds[k]) && s[k] != PAD && PosOf(s[k]) == ds[k]) &&
            (|ds| < |s| ==> s[|ds|] == PAD && PosOf(PAD) < 0)
  {
    hide CharOf, PosOf;
    forall k | 0 <= k < |ds|
      ensures PosOf(CharOf(ds[k])) == ds[k]
    {
      PosOfChar(ds[k]);
    }
    PadIsNoDigit();
  }

  lemma PadIsNoDigit()
    ensures PosOf(PAD) < 0
  {
  }

  /** Digits that have been read begin those of any byte string with this text. */
  lemma DigitsBegin(p: seq<Digit>, q: seq<Byte>, ds: seq<Digit>)
    requires Chars(p) + q == Chars(ds) + Pads(|ds|)
    ensures |p| <= |ds| && p == ds[..|p|]
  {
    hide CharOf, PosOf, Pads;
    TextOf(ds);
    var s := Chars(p) + q;
    forall k | 0 <= k < |p|
      ensures s[k] != PAD && PosOf(s[k]) == p[k]
    {
      PosOfChar(p[k]);
    }
  }

  /** If what follows starts with no digit, or is nothing, then they are all the digits. */
  lemma SameDigits(p: seq<Digit>, q: seq<Byte>, ds: seq<Digit>)
    requires Chars(p) + q == Chars(ds) + Pads(|ds|) && (q != [] ==> PosOf(q[0]) < 0)
    ensures p == ds && q == Pads(|ds|)
  {
    hide CharOf, PosOf, Pads;
    DigitsBegin(p, q, ds);
    TextOf(ds);
    var s := Chars(p) + q;
    assert |p| < |s| ==> q != [] && q[0] == s[|p|];
    assert |p| == |ds|;
    assert s[|p|..] == q;
    assert (Chars(ds) + Pads(|ds|))[|ds|..] == Pads(|ds|);
  }

  lemma SizeGrows(a: nat, b: nat)
    requires a <= b
    ensures Size(a) <= Size(b)
    ensures a < b && a % 4 != 0 ==> Size(a) < Size(b)
    ensures a % 4 == 0 && a < b && b % 4 != 1 ==> Size(a) < Size(b)
  {
  }

  lemma DigitCount(x: seq<Byte>)
    ensures Size(|Digits(x)|) == |x| && |Digits(x)| % 4 != 1
  {
  }

  /** Two byte strings with one text are the same. */
  lemma EncodeInjective(x: seq<Byte>, y: seq<Byte>)
    requires Encode(x) == Encode(y)
    ensures x == y
  {
    hide Digits, CharOf, Pads, Full, Partial;
    DigitsBegin(Digits(x), Pads(|Digits(x)|), Digits(y));
    DigitsBegin(Digits(y), Pads(|Digits(y)|), Digits(x));
    assert Digits(y)[..|Digits(y)|] == Digits(y);
    FullDigits(x);
    FullDigits(y);
  }

  // ---- the text, group by group -----------------------------------------------------------

  /** Three bytes of a string as one number, with zeros for bytes behind its end. */
  function Group(x: seq<Byte>, i: nat): (v: nat)
    requires 3 * i < |x|
    ensures v < 0x100_0000
  {
    (x[3 * i] as int) * 0x1_0000 + (if 3 * i + 1 < |x| then x[3 * i + 1] as int else 0) * 0x100 + (if 3 * i + 2 < |x| then x[3 * i + 2] as int else 0)
  }

  /** Four characters of the text: the four six-bit digits of a group, or padding where the group has no byte. */
  predicate GroupEncoded(x: seq<Byte>, s: seq<Byte>, i: nat)
    requires 3 * i < |x|
  {
    var v := Group(x, i);
    4 * i + 4 <= |s| &&
    s[4 * i] == Alphabet(v / 0x4_0000) as int &&
    s[4 * i + 1] == Alphabet(v / 0x1000 % 64) as int &&
    s[4 * i + 2] == (if 3 * i + 1 < |x| then Alphabet(v / 64 % 64) else '=') as int &&
    s[4 * i + 3] == (if 3 * i + 2 < |x| then Alphabet(v % 64) else '=') as int
  }

  lemma GroupDigits(a: Byte, b: Byte, c: Byte)
    ensures var v := (a as int) * 0x1_0000 + (b as int) * 0x100 + (c as int);
            Digit0(a) == v / 0x4_0000 && Digit1(a, b) == v / 0x1000 % 64 && Digit2(b, c) == v / 64 % 64 && Digit3(c) == v % 64
  {
    FourDigits(Digit0(a), Digit1(a, b), Digit2(b, c), Digit3(c));
    DigitsAre(a, b, c);
  }

  lemma DigitsAre(a: Byte, b: Byte, c: Byte)
    ensures (a as int) * 0x1_0000 + (b as int) * 0x100 + (c as int) ==
            (Digit0(a) as int) * 0x4_0000 + (Digit1(a, b) as int) * 0x1000 + (Digit2(b, c) as int) * 64 + (Digit3(c) as int)
  {
  }

  lemma FourDigits(d0: int, d1: int, d2: int, d3: int)
    requires 0 <= d0 && 0 <= d1 < 64 && 0 <= d2 < 64 && 0 <= d3 < 64
    ensures var v := d0 * 0x4_0000 + d1 * 0x1000 + d2 * 64 + d3;
            v / 0x4_0000 == d0 && v / 0x1000 % 64 == d1 && v / 64 % 64 == d2 && v % 64 == d3
  {
    var v := d0 * 0x4_0000 + d1 * 0x1000 + d2 * 64 + d3;
    assert v / 0x1000 == d0 * 64 + d1;
    assert v / 64 == d0 * 0x1000 + d1 * 64 + d2;
  }

  /** The text of a byte string, as section 5.2 of RFC 1521 has it. */
  lemma {:induction false} EncodeAt(x: seq<Byte>, i: nat)
    requires 3 * i < |x|
    ensures GroupEncoded(x, Encode(x), i)
    decreases i
  {
    hide CharOf, Digit0, Digit1, Digit2, Digit3, Encode, Alphabet;
    if |x| >= 3 {
      EncodeStep(x);
      if i == 0 {
        GroupDigits(x[0], x[1], x[2]);
        CharIsAlphabet(Digit0(x[0]));
        CharIsAlphabet(Digit1(x[0], x[1]));
        CharIsAlphabet(Digit2(x[1], x[2]));
        CharIsAlphabet(Digit3(x[2]));
      } else {
        EncodeAt(x[3..], i - 1);
        assert Group(x, i) == Group(x[3..], i - 1);
      }
    } else {
      var y := if |x| == 2 then x[1] else 0;
      EncodeLast(x);
      GroupDigits(x[0], y, 0);
      CharIsAlphabet(Digit0(x[0]));
      CharIsAlphabet(Digit1(x[0], y));
      CharIsAlphabet(Digit2(y, 0));
    }
  }

  // ---- writing ---------------------------------------------------------------------------

  /** b64_ntop: it succeeds exactly if there is room for the text and a terminator. */
  method Ntop(src: seq<Byte>, target: array<Byte>) returns (r: int)
    modifies target
    ensures r == if |Encode(src)| < target.Length then |Encode(src)| else -1
    ensures r >= 0 ==> target[..r] == Encode(src) && target[r] == 0
  {
    hide CharOf, Encode, Digit0, Digit1, Digit2, Digit3;
    var k := 0;
    var datalength := 0;
    assert src[k..] == src;
    while |src| - k > 2
      invariant 0 <= k <= |src| && datalength <= target.Length && |Encode(src)| == datalength + |Encode(src[k..])|
      invariant target[..datalength] + Encode(src[k..]) == Encode(src)
    {
      var output := [Digit0(src[k]), Digit1(src[k], src[k + 1]), Digit2(src[k + 1], src[k + 2]), Digit3(src[k + 2])];
      ghost var rest := src[k..];
      EncodeStep(rest);
      assert rest[3..] == src[k + 3..];
      if datalength + 4 > target.Length {
        return -1;
      }
      ghost var before := target[..datalength];
      target[datalength] := CharOf(output[0]);
      target[datalength + 1] := CharOf(output[1]);
      target[datalength + 2] := CharOf(output[2]);
      target[datalength + 3] := CharOf(output[3]);
      assert target[..datalength + 4] == before + [CharOf(output[0]), CharOf(output[1]), CharOf(output[2]), CharOf(output[3])];
      datalength, k := datalength + 4, k + 3;
    }
    if |src| - k != 0 {
      var input0, input1 := src[k], if |src| - k > 1 then src[k + 1] else 0;
      var output := [Digit0(input0), Digit1(input0, input1), Digit2(input1, 0)];
      EncodeLast(src[k..]);
      if datalength + 4 > target.Length {
        return -1;
      }
      ghost var before := target[..datalength];
      target[datalength] := CharOf(output[0]);
      target[datalength + 1] := CharOf(output[1]);
      target[datalength + 2] := if |src| - k == 1 then PAD else CharOf(output[2]);
      target[datalength + 3] := PAD;
      assert target[..datalength + 4] == before + [target[datalength], target[datalength + 1], target[datalength + 2], PAD];
      datalength := datalength + 4;
    } else {
      EncodeNone(src[k..]);
      assert target[..datalength] + [] == target[..datalength];
    }
    assert target[..datalength] == Encode(src);
    if datalength >= target.Length {
      return -1;
    }
    ghost var text := target[..datalength];
    target[datalength] := 0;
    assert target[..datalength] == text;
    r := datalength;
  }

  lemma EncodeNone(x: seq<Byte>)
    requires x == []
    ensures Encode(x) == []
  {
  }

  lemma EncodeLast(x: seq<Byte>)
    requires |x| in {1, 2}
    ensures var y := if |x| == 2 then x[1] else 0;
            Encode(x) == [CharOf(Digit0(x[0])), CharOf(Digit1(x[0], y)), if |x| == 1 then PAD else CharOf(Digit2(y, 0)), PAD]
  {
    hide Digit0, Digit1, Digit2, Digit3, CharOf;
  }

  // ---- reading -----------------------------------------------------------------------------

  /** No byte string that fits into `n` bytes has this text. */
  ghost predicate NoText(s: seq<Byte>, n: nat)
  {
    forall x: seq<Byte> :: Encode(x) == s ==> |x| > n
  }

  /** A text whose digits are `p` is that of a byte string only if it ends as it should. */
  lemma Ending(x: seq<Byte>, p: seq<Digit>, q: seq<Byte>)
    requires q != [] ==> PosOf(q[0]) < 0
    ensures Encode(x) == Chars(p) + q ==> q == Pads(|p|) && |p| % 4 != 1 && Partial(p) == 0
  {
    hide CharOf, PosOf, Pads, Full, Partial, Digits;
    if Encode(x) == Chars(p) + q {
      SameDigits(p, q, Digits(x));
      FullDigits(x);
      DigitCount(x);
    }
  }

  lemma BadEnding(p: seq<Digit>, q: seq<Byte>, n: nat)
    requires q != [] ==> PosOf(q[0]) < 0
    requires q != Pads(|p|) || |p| % 4 == 1 || Partial(p) != 0
    ensures NoText(Chars(p) + q, n)
  {
    hide CharOf, PosOf, Pads, Partial, Encode;
    forall x: seq<Byte>
      ensures Encode(x) == Chars(p) + q ==> |x| > n
    {
      Ending(x, p, q);
    }
  }

  lemma MoreDigits(x: seq<Byte>, p: seq<Digit>, d: Digit, q: seq<Byte>)
    ensures Encode(x) == Chars(p + [d]) + q ==>
              |x| > Size(|p|) && |x| >= Size(|p| + 1) && (|p| % 4 in {1, 2} && Partial(p + [d]) != 0 ==> |x| > Size(|p| + 1))
  {
    hide CharOf, PosOf, Pads, Full, Partial, Digits, Size;
    if Encode(x) == Chars(p + [d]) + q {
      var ds := Digits(x);
      DigitsBegin(p + [d], q, ds);
      DigitCount(x);
      FullDigits(x);
      SizeGrows(|p|, |ds|);
      SizeGrows(|p| + 1, |ds|);
      if |ds| == |p| + 1 { assert ds[..|ds|] == ds; }
    }
  }

  /** The text goes on where there is no room. */
  lemma NoRoom(p: seq<Digit>, d: Digit, q: seq<Byte>, n: nat)
    requires Size(|p|) >= n || (|p| % 4 in {1, 2} && Size(|p| + 1) >= n && Partial(p + [d]) != 0)
    ensures NoText(Chars(p + [d]) + q, n)
  {
    hide CharOf, PosOf, Pads, Full, Partial, Digits, Size, Encode;
    forall x: seq<Byte>
      ensures Encode(x) == Chars(p + [d]) + q ==> |x| > n
    {
      MoreDigits(x, p, d, q);
    }
  }

  lemma GoodEnding(p: seq<Digit>)
    requires |p| % 4 != 1 && Partial(p) == 0
    ensures Encode(Full(p)) == Chars(p) + Pads(|p|) && |Full(p)| == Size(|p|)
  {
    hide CharOf, Pads, Full, Partial, Digits;
    DigitsFull(p);
  }

  lemma StripStep(src: seq<Byte>, k: nat)
    requires k < |src|
    ensures Strip(src[k..]) == (if IsSpace(src[k]) then [] else [src[k]]) + Strip(src[k + 1..])
  {
    assert src[k..][1..] == src[k + 1..];
  }

  lemma StripEnd(src: seq<Byte>)
    ensures Strip(src[|src|..]) == []
  {
    assert src[|src|..] == [];
  }

  /** `*src`, for a string that ends with a zero byte. */
  function At(src: seq<Byte>, k: nat): Byte
  {
    if k < |src| then src[k] else 0
  }

  /** for (; ch != 0; ch = *src++) if (!isspace(ch)) break; */
  method SkipSpace(src: seq<Byte>, k0: nat) returns (k: nat)
    requires 0 !in src && k0 <= |src|
    ensures k0 <= k <= |src| && Strip(src[k..]) == Strip(src[k0..]) && !IsSpace(At(src, k))
    ensures At(src, k) == 0 <==> Strip(src[k..]) == []
    ensures k < |src| ==> Strip(src[k..]) == [src[k]] + Strip(src[k + 1..])
  {
    k := k0;
    while At(src, k) != 0
      invariant k0 <= k <= |src| && Strip(src[k..]) == Strip(src[k0..])
      decreases |src| - k
    {
      StripStep(src, k);
      if !IsSpace(At(src, k)) {
        break;
      }
      k := k + 1;
    }
    StripEnd(src);
    if k < |src| { StripStep(src, k); }
  }

  /** The digits `p` have been stored: whole bytes, and what is left over if there is room. */
  ghost predicate Held(p: seq<Digit>, state: nat, tarindex: nat, target: seq<Byte>)
  {
    state == |p| % 4 && tarindex == Size(|p|) <= |target| && target[..tarindex] == Full(p) &&
    if tarindex < |target| then state != 0 ==> target[tarindex] == Partial(p) else Partial(p) == 0
  }

  /** The switch of b64_pton: one digit is stored, unless there is no room for it. */
  method PutDigit(target: array<Byte>, state: nat, tarindex: nat, pos: Digit, ghost p: seq<Digit>)
    returns (ok: bool, state': nat, tarindex': nat)
    requires Held(p, state, tarindex, target[..])
    modifies target
    ensures ok ==> Held(p + [pos], state', tarindex', target[..])
    ensures !ok ==> Size(|p|) >= target.Length || (|p| % 4 in {1, 2} && Size(|p| + 1) >= target.Length && Partial(p + [pos]) != 0)
  {
    hide Full, Partial, Byte0, Byte1, Byte2;
    OneMore(p, pos);
    ghost var bytes := target[..tarindex];
    if tarindex >= target.Length {
      return false, state, tarindex;
    }
    match state {
      case 0 =>
        target[tarindex] := Byte0(pos, 0);
        state', tarindex' := 1, tarindex;
      case 3 =>
        target[tarindex] := target[tarindex] + pos;
        state', tarindex' := 0, tarindex + 1;
      case _ =>
        var nextbyte;
        if state == 1 {
          target[tarindex] := target[tarindex] + pos / 16;
          nextbyte := Byte1(pos, 0);
        } else {
          target[tarindex] := target[tarindex] + pos / 4;
          nextbyte := Byte2(pos, 0);
        }
        if tarindex + 1 < target.Length {
          target[tarindex + 1] := nextbyte;
        } else if nextbyte != 0 {
          return false, state, tarindex;
        }
        state', tarindex' := state + 1, tarindex + 1;
    }
    assert target[..tarindex] == bytes;
    ok := true;
  }

  lemma NotPads(q: seq<Byte>, n: nat)
    ensures q != [] && q[0] != PAD ==> q != Pads(n)
    ensures n % 4 == 2 ==> Pads(n) == [PAD, PAD]
    ensures n % 4 == 3 ==> Pads(n) == [PAD]
    ensures n % 4 == 0 ==> Pads(n) == []
    ensures |q| > 1 && n % 4 == 3 ==> q != Pads(n)
  {
  }

  lemma HeldStarts(target: seq<Byte>)
    ensures Held([], 0, 0, target)
  {
  }

  lemma OneChar(d: Digit)
    ensures Chars([d]) == [CharOf(d)]
  {
  }

  lemma NextDigit(src: seq<Byte>, k: nat, p: seq<Digit>, d: Digit)
    requires k < |src| && !IsSpace(src[k]) && src[k] == CharOf(d) && Strip(src) == Chars(p) + Strip(src[k..])
    ensures Strip(src) == Chars(p + [d]) + Strip(src[k + 1..])
  {
    hide CharOf, IsSpace, Chars, Strip;
    StripStep(src, k);
    CharsConcat(p, [d]);
    OneChar(d);
    Associate(Chars(p), [CharOf(d)], Strip(src[k + 1..]));
  }

  lemma StripStarts(src: seq<Byte>)
    ensures Strip(src) == Chars([]) + Strip(src[0..])
  {
    assert src[0..] == src;
  }

  /** What is left after the digits must be nothing, or padding and white space. */
  method Padding(src: seq<Byte>, k0: nat, state: nat) returns (ok: bool)
    requires 0 !in src && k0 < |src| && src[k0] == PAD
    ensures ok <==> (state == 2 && Strip(src[k0..]) == [PAD, PAD]) || (state == 3 && Strip(src[k0..]) == [PAD])
  {
    hide Strip;
    StripStep(src, k0);
    var k := k0 + 1;
    if state != 2 && state != 3 {
      return false;
    }
    if state == 2 {
      k := SkipSpace(src, k);
      assert k < |src| ==> ([PAD] + Strip(src[k..]))[1] == src[k];
      if At(src, k) != PAD {
        return false;
      }
      k := k + 1;
    }
    k := SkipSpace(src, k);
    ok := At(src, k) == 0;
  }

  /** b64_pton into a target that holds `target.Length` bytes. It accepts exactly the texts of
      byte strings that fit, with white space anywhere, and gives back the byte string. */
  method Pton(src: seq<Byte>, target: array<Byte>) returns (r: int)
    requires 0 !in src
    modifies target
    ensures -1 <= r <= target.Length
    ensures r >= 0 ==> Encode(target[..r]) == Strip(src)
    ensures r < 0 ==> NoText(Strip(src), target.Length)
  {
    hide CharOf, PosOf, Pads, Full, Partial, Digits, Encode, NoText, Strip, Chars, Held, Size, IsSpace;
    var state: nat, tarindex: nat, k: nat := 0, 0, 0;
    ghost var p: seq<Digit> := [];
    StripStarts(src);
    HeldStarts(target[..]);
    while At(src, k) != 0
      invariant 0 <= k <= |src| && Strip(src) == Chars(p) + Strip(src[k..])
      invariant Held(p, state, tarindex, target[..])
      decreases |src| - k
    {
      var ch := src[k];
      ghost var q := Strip(src[k..]);
      StripStep(src, k);
      if IsSpace(ch) {
        k := k + 1;
        assert [] + Strip(src[k..]) == Strip(src[k..]);
        continue;
      }
      if ch == PAD {
        break;
      }
      var pos := PosOf(ch);
      NotPads(q, |p|);
      if pos < 0 {
        BadEnding(p, q, target.Length);
        return -1;
      }
      NextDigit(src, k, p, pos);
      k := k + 1;
      var ok;
      ok, state, tarindex := PutDigit(target, state, tarindex, pos, p);
      if !ok {
        NoRoom(p, pos, Strip(src[k..]), target.Length);
        return -1;
      }
      p := p + [pos];
    }
    ghost var q := Strip(src[k..]);
    HeldFacts(p, state, tarindex, target[..]);
    NotPads(q, |p|);
    PadIsNoDigit();
    StripEnd(src);
    if At(src, k) == PAD {
      StripStep(src, k);
      var padded := Padding(src, k, state);
      if !padded {
        BadEnding(p, q, target.Length);
        return -1;
      }
      if tarindex < target.Length && target[tarindex] != 0 {
        BadEnding(p, q, target.Length);
        return -1;
      }
    } else if state != 0 {
      BadEnding(p, q, target.Length);
      return -1;
    }
    GoodEnding(p);
    r := tarindex;
  }

  lemma HeldFacts(p: seq<Digit>, state: nat, tarindex: nat, target: seq<Byte>)
    requires Held(p, state, tarindex, target)
    ensures state == |p| % 4 && tarindex == Size(|p|) <= |target| && target[..tarindex] == Full(p)
    ensures if tarindex < |target| then state != 0 ==> target[tarindex] == Partial(p) else Partial(p) == 0
    ensures state == 0 ==> Partial(p) == 0
  {
    OneMore(p, 0);
  }

  /** What is written is read back, into a target that is large enough, if only just. */
  method RoundTrip(x: seq<Byte>, text: array<Byte>, back: array<Byte>) returns (n: int, r: int)
    requires text != back && text.Length > |Encode(x)| && back.Length >= |x|
    modifies text, back
    ensures r == |x| && back[..r] == x
  {
    hide Encode, Strip;
    n := Ntop(x, text);
    NoSpaces(x);
    ghost var s := text[..n];
    r := Pton(text[..n], back);
    if r >= 0 {
      EncodeInjective(x, back[..r]);
    }
  }

  lemma NoSpaces(x: seq<Byte>)
    ensures Strip(Encode(x)) == Encode(x) && 0 !in Encode(x)
  {
    hide CharOf, Digits;
    assert forall k | 0 <= k < |Encode(x)| :: !IsSpace(Encode(x)[k]) && Encode(x)[k] != 0;
    StripNothing(Encode(x));
  }

  lemma {:induction false} StripNothing(s: seq<Byte>)
    requires forall k | 0 <= k < |s| :: !IsSpace(s[k])
    ensures Strip(s) == s
  {
    if s != [] {
      StripNothing(s[1..]);
    }
  }
}
