/**
 CBOR data item heads (section 3 of RFC 8949) and the definite-length text strings built on them, as used by the
 generated code in types/cbor_gen.go through WriteMajorTypeHeader, ReadHeader and ReadString.
 */
module Cbor {
  import opened Basics

  /**
   What the CBOR and CID libraries decide and this model does not: the length limits, whether a head that is longer
   than necessary is refused, how far an unknown field is skipped, which byte strings are CIDs and how a CID is printed.
   */
  datatype Lib = Lib(
    maxLength: Limit,
    stringMax: Limit,
    canonicalOnly: bool,
    skip: Bytes -> nat,
    isCid: Bytes -> bool,
    cidText: Bytes -> Bytes)

  datatype Parsed<+T> = Done(value: T, rest: Bytes) | Fail

  /** The major type and the argument of a data item head. */
  datatype Head = Head(major: nat, arg: nat)

  const MAJ_UINT := 0
  const MAJ_NEGATIVE := 1
  const MAJ_BYTES := 2
  const MAJ_TEXT := 3
  const MAJ_ARRAY := 4
  const MAJ_MAP := 5
  const MAJ_TAG := 6

  function ToByte(n: nat): Byte
    requires n < 256
  {
    n as char
  }

  /** `n` in network byte order on `width` bytes. */
  function BigEndian(width: nat, n: nat): (b: Bytes)
    ensures |b| == width
  {
    if width == 0 then [] else BigEndian(width - 1, n / 256) + [ToByte(n % 256)]
  }

  function FromBigEndian(b: Bytes): nat {
    if b == [] then 0 else FromBigEndian(b[..|b| - 1]) * 256 + b[|b| - 1] as int
  }

  function Capacity(width: nat): nat {
    if width == 0 then 1 else 256 * Capacity(width - 1)
  }

  lemma {:induction false} BigEndianRoundTrip(width: nat, n: nat)
    requires n < Capacity(width)
    ensures FromBigEndian(BigEndian(width, n)) == n
  {
    if width > 0 {
      BigEndianRoundTrip(width - 1, n / 256);
      var b := BigEndian(width, n);
      assert b[..|b| - 1] == BigEndian(width - 1, n / 256);
    }
  }

  /** WriteMajorTypeHeader: the shortest head with the given major type and argument. */
  function WriteHead(major: nat, arg: nat): Bytes
    requires major < 8 && arg < TWO_64
  {
    if arg < 24 then [ToByte(major * 32 + arg)]
    else if arg < 0x100 then [ToByte(major * 32 + 24)] + BigEndian(1, arg)
    else if arg < 0x1_0000 then [ToByte(major * 32 + 25)] + BigEndian(2, arg)
    else if arg < 0x1_0000_0000 then [ToByte(major * 32 + 26)] + BigEndian(4, arg)
    else [ToByte(major * 32 + 27)] + BigEndian(8, arg)
  }

  /** The number of argument bytes announced by the low five bits, and the least argument that needs so many. */
  function ArgWidth(low: nat): nat
    requires 24 <= low < 28
  {
    if low == 24 then 1 else if low == 25 then 2 else if low == 26 then 4 else 8
  }

  function LeastArg(low: nat): nat
    requires 24 <= low < 28
  {
    if low == 24 then 24 else if low == 25 then 0x100 else if low == 26 then 0x1_0000 else 0x1_0000_0000
  }

  function ReadHead(lib: Lib, b: Bytes): (r: Parsed<Head>)
    ensures r.Done? ==> |r.rest| < |b|
  {
    if b == [] then Fail
    else
      var major := b[0] as int / 32;
      var low := b[0] as int % 32;
      if low < 24 then Done(Head(major, low), b[1..])
      else if low >= 28 || |b| < 1 + ArgWidth(low) then Fail
      else
        var arg := FromBigEndian(b[1..1 + ArgWidth(low)]);
        if lib.canonicalOnly && arg < LeastArg(low) then Fail
        else Done(Head(major, arg), b[1 + ArgWidth(low)..])
  }

  lemma LongHead(lib: Lib, major: nat, low: nat, arg: nat, tail: Bytes)
    requires major < 8 && 24 <= low < 28 && LeastArg(low) <= arg < Capacity(ArgWidth(low))
    ensures ReadHead(lib, [ToByte(major * 32 + low)] + BigEndian(ArgWidth(low), arg) + tail) == Done(Head(major, arg), tail)
  {
    var w := ArgWidth(low);
    var b := [ToByte(major * 32 + low)] + BigEndian(w, arg) + tail;
    BigEndianRoundTrip(w, arg);
    assert b[0] as int / 32 == major && b[0] as int % 32 == low;
    assert b[1..1 + w] == BigEndian(w, arg) && b[1 + w..] == tail;
  }

  lemma HeadRoundTrip(lib: Lib, major: nat, arg: nat, tail: Bytes)
    requires major < 8 && arg < TWO_64
    ensures ReadHead(lib, WriteHead(major, arg) + tail) == Done(Head(major, arg), tail)
  {
    if arg < 24 {
      assert (WriteHead(major, arg) + tail)[1..] == tail;
    } else {
      Capacities();
      LongHead(lib, major, if arg < 0x100 then 24 else if arg < 0x1_0000 then 25 else if arg < 0x1_0000_0000 then 26 else 27,
               arg, tail);
    }
  }

  lemma {:induction false} FromBigEndianRoundTrip(b: Bytes)
    ensures FromBigEndian(b) < Capacity(|b|) && BigEndian(|b|, FromBigEndian(b)) == b
  {
    if b != [] {
      var init, last := b[..|b| - 1], b[|b| - 1] as int;
      FromBigEndianRoundTrip(init);
      assert FromBigEndian(b) / 256 == FromBigEndian(init) && FromBigEndian(b) % 256 == last;
    }
  }

  lemma Capacities()
    ensures Capacity(1) == 0x100 && Capacity(2) == 0x1_0000 && Capacity(4) == 0x1_0000_0000 && Capacity(8) == TWO_64
  {
    assert Capacity(6) == 0x1_0000_0000_0000;
  }

  lemma LongHeadWritten(major: nat, low: nat, arg: nat)
    requires major < 8 && 24 <= low < 28 && LeastArg(low) <= arg < Capacity(ArgWidth(low))
    ensures arg < TWO_64 && WriteHead(major, arg) == [ToByte(major * 32 + low)] + BigEndian(ArgWidth(low), arg)
  {
    Capacities();
  }

  lemma SplitByte(c: Byte)
    ensures var n := c as int; 0 <= n / 32 < 8 && 0 <= n % 32 < 32 && n / 32 * 32 + n % 32 == n
  {
  }

  lemma LongHeadCanonical(b: Bytes, low: nat)
    requires b != [] && 24 <= low < 28 && low == b[0] as int % 32 && |b| >= 1 + ArgWidth(low)
    ensures var major, w := b[0] as int / 32, ArgWidth(low);
      var arg := FromBigEndian(b[1..1 + w]);
      major < 8 && arg < Capacity(w) && b == [ToByte(major * 32 + low)] + BigEndian(w, arg) + b[1 + w..]
  {
    SplitByte(b[0]);
    FromBigEndianRoundTrip(b[1..1 + ArgWidth(low)]);
  }

  /** Every head that is read is in range, and a reader that insists on shortest heads reads only what the writer writes. */
  lemma HeadCanonical(lib: Lib, b: Bytes)
    requires ReadHead(lib, b).Done?
    ensures var h, rest := ReadHead(lib, b).value, ReadHead(lib, b).rest;
      h.major < 8 && h.arg < TWO_64 && (lib.canonicalOnly ==> b == WriteHead(h.major, h.arg) + rest)
  {
    SplitByte(b[0]);
    var low := b[0] as int % 32;
    if low < 24 {
      assert b == [b[0]] + b[1..];
    } else {
      LongHeadCanonical(b, low);
      Capacities();
      var h := ReadHead(lib, b).value;
      if lib.canonicalOnly { LongHeadWritten(h.major, low, h.arg); }
    }
  }

  function WriteText(s: Bytes): Bytes
    requires |s| < TWO_64
  {
    WriteHead(MAJ_TEXT, |s|) + s
  }

  /** cbg.ReadString. */
  function ReadText(lib: Lib, b: Bytes): Parsed<Bytes> {
    match ReadHead(lib, b)
    case Fail => Fail
    case Done(h, rest) =>
      if h.major != MAJ_TEXT || h.arg > lib.stringMax || h.arg > |rest| then Fail
      else Done(rest[..h.arg], rest[h.arg..])
  }

  lemma TextRoundTrip(lib: Lib, s: Bytes, tail: Bytes)
    requires |s| < TWO_64
    ensures ReadText(lib, WriteText(s) + tail) == if |s| <= lib.stringMax then Done(s, tail) else Fail
  {
    HeadRoundTrip(lib, MAJ_TEXT, |s|, s + tail);
    assert WriteText(s) + tail == WriteHead(MAJ_TEXT, |s|) + (s + tail);
    assert (s + tail)[..|s|] == s && (s + tail)[|s|..] == tail;
  }

  /** cbg.WriteCid of a defined CID: tag 42 (section 3.4 of RFC 8949) on a byte string with a zero multibase prefix. */
  function WriteCid(raw: Bytes): Bytes
    requires |raw| + 1 < TWO_64
  {
    WriteHead(MAJ_TAG, 42) + WriteHead(MAJ_BYTES, |raw| + 1) + ([ToByte(0)] + raw)
  }

  const CID_MAX := 512

  /** cbg.ReadCid. */
  function ReadCid(lib: Lib, b: Bytes): Parsed<Bytes> {
    match ReadHead(lib, b)
    case Fail => Fail
    case Done(tag, b1) =>
      if tag != Head(MAJ_TAG, 42) then Fail
      else
        match ReadHead(lib, b1)
        case Fail => Fail
        case Done(h, b2) =>
          if h.major != MAJ_BYTES || h.arg > CID_MAX || h.arg > |b2| || h.arg < 2 || b2[0] != ToByte(0) then Fail
          else if !lib.isCid(b2[1..h.arg]) then Fail
          else Done(b2[1..h.arg], b2[h.arg..])
  }

  lemma ReadCidAfterHeads(lib: Lib, b: Bytes, b1: Bytes, raw: Bytes, tail: Bytes)
    requires raw != []
    requires ReadHead(lib, b) == Done(Head(MAJ_TAG, 42), b1)
    requires ReadHead(lib, b1) == Done(Head(MAJ_BYTES, |raw| + 1), [ToByte(0)] + raw + tail)
    ensures ReadCid(lib, b) == if |raw| < CID_MAX && lib.isCid(raw) then Done(raw, tail) else Fail
  {
    var b2 := [ToByte(0)] + raw + tail;
    assert b2[1..|raw| + 1] == raw && b2[|raw| + 1..] == tail;
  }

  lemma CidRoundTrip(lib: Lib, raw: Bytes, tail: Bytes)
    requires 0 < |raw| && |raw| + 1 < TWO_64
    ensures ReadCid(lib, WriteCid(raw) + tail)
         == if |raw| < CID_MAX && lib.isCid(raw) then Done(raw, tail) else Fail
  {
    var h1, h2, body := WriteHead(MAJ_TAG, 42), WriteHead(MAJ_BYTES, |raw| + 1), [ToByte(0)] + raw;
    assert h1 + h2 + body + tail == h1 + (h2 + (body + tail));
    HeadRoundTrip(lib, MAJ_TAG, 42, h2 + (body + tail));
    HeadRoundTrip(lib, MAJ_BYTES, |raw| + 1, body + tail);
    ReadCidAfterHeads(lib, h1 + (h2 + (body + tail)), h2 + (body + tail), raw, tail);
  }
}
