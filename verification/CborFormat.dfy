/** The CBOR data format: section 3 of RFC 8949, as far as the inspection encoders use it.

    The encoding is written down as the firmware computes it (include/solar/inspection/cbor.hpp); the
    decoder is written down from the standard and is not part of the firmware.
 */
module CborFormat {
  import opened Arithmetic
  import opened Basics

  type Word = w: nat | w < 0x1_0000_0000_0000_0000
  type Major = m: nat | m < 8

  // ---------------------------------------------------------------- big-endian numbers

  function BeBytes(value: nat, width: nat): (r: seq<Byte>)
    ensures |r| == width
  {
    if width == 0 then [] else BeBytes(value / 256, width - 1) + [value % 256]
  }

  function BeNat(bytes: seq<Byte>): nat
  {
    if bytes == [] then 0 else 256 * BeNat(bytes[..|bytes| - 1]) + bytes[|bytes| - 1]
  }

  lemma {:induction false} BeRoundTrip(value: nat, width: nat)
    requires value < Pow256(width)
    ensures BeNat(BeBytes(value, width)) == value
  {
    if width > 0 {
      BeRoundTrip(value / 256, width - 1);
      assert BeBytes(value, width)[..width - 1] == BeBytes(value / 256, width - 1);
    }
  }

  lemma {:induction false} BeInverse(bytes: seq<Byte>)
    ensures BeNat(bytes) < Pow256(|bytes|) && BeBytes(BeNat(bytes), |bytes|) == bytes
  {
    if bytes != [] {
      var n := |bytes| - 1;
      BeInverse(bytes[..n]);
      assert BeNat(bytes) / 256 == BeNat(bytes[..n]) && BeNat(bytes) % 256 == bytes[n];
      assert bytes == bytes[..n] + [bytes[n]];
    }
  }

  lemma DivideTwice(value: nat, p: nat)
    requires p > 0
    ensures (value / 256) / p == value / (256 * p)
  {
    var q, r := value / 256, value % 256;
    var a, b := q / p, q % p;
    assert value == 256 * (p * a + b) + r;
    assert 256 * (p * a + b) == (256 * p) * a + 256 * b;
    QuotientUnique(value, 256 * p, a, 256 * b + r);
  }

  /** The byte at position i, as a shift by whole bytes extracts it. */
  function ByteAt(value: nat, width: nat, i: nat): Byte
    requires i < width
  {
    value / Pow256(width - 1 - i) % 256
  }

  lemma {:induction false} BeByteAt(value: nat, width: nat, i: nat)
    requires i < width
    ensures BeBytes(value, width)[i] == ByteAt(value, width, i)
  {
    if i < width - 1 {
      BeByteAt(value / 256, width - 1, i);
      DivideTwice(value, Pow256(width - 2 - i));
    }
  }

  // ---------------------------------------------------------------- heads

  /** How many bytes hold an argument that does not fit the initial byte. */
  function ArgumentWidth(value: Word): (w: nat)
    ensures w == 1 || w == 2 || w == 4 || w == 8
  {
    if value <= 0xff then 1 else if value <= 0xffff then 2 else if value <= 0xffff_ffff then 4 else 8
  }

  function AdditionalInfo(width: nat): (info: nat)
    requires width == 1 || width == 2 || width == 4 || width == 8
    ensures 24 <= info <= 27
  {
    if width == 1 then 24 else if width == 2 then 25 else if width == 4 then 26 else 27
  }

  function Head(major: Major, value: Word): (r: seq<Byte>)
    ensures 1 <= |r| <= 9
  {
    if value < 24 then [major * 32 + value]
    else
      var width := ArgumentWidth(value);
      [major * 32 + AdditionalInfo(width)] + BeBytes(value, width)
  }

  datatype HeadRead = HeadRead(major: nat, value: nat, rest: seq<Byte>)

  /** Reads an initial byte and its argument; additional information above 27 is reserved or indefinite. */
  function DecodeHead(s: seq<Byte>): (r: Option<HeadRead>)
    ensures r.Some? ==> |r.value.rest| < |s|
  {
    if s == [] then None
    else
      var major, info := s[0] / 32, s[0] % 32;
      if info < 24 then Some(HeadRead(major, info, s[1..]))
      else if info > 27 then None
      else
        var width := if info == 24 then 1 else if info == 25 then 2 else if info == 26 then 4 else 8;
        if |s| < 1 + width then None
        else Some(HeadRead(major, BeNat(s[1..1 + width]), s[1 + width..]))
  }

  lemma Pow256Values()
    ensures Pow256(1) == 0x100 && Pow256(2) == 0x1_0000 && Pow256(4) == 0x1_0000_0000
            && Pow256(8) == 0x1_0000_0000_0000_0000
  {
    assert Pow256(0) == 1;
    assert Pow256(3) == 0x100_0000;
    assert Pow256(5) == 0x100_0000_0000;
    assert Pow256(6) == 0x1_0000_0000_0000;
    assert Pow256(7) == 0x100_0000_0000_0000;
  }

  /** A byte that announces an argument, the argument, and whatever follows. */
  lemma ReadArgument(initial: Byte, argument: seq<Byte>, rest: seq<Byte>)
    requires |argument| == 1 || |argument| == 2 || |argument| == 4 || |argument| == 8
    requires initial % 32 == AdditionalInfo(|argument|)
    ensures DecodeHead([initial] + argument + rest) == Some(HeadRead(initial / 32, BeNat(argument), rest))
  {
    var s := [initial] + argument + rest;
    assert s[1..1 + |argument|] == argument;
    assert s[1 + |argument|..] == rest;
  }

  lemma ReadDirect(initial: Byte, rest: seq<Byte>)
    requires initial % 32 < 24
    ensures DecodeHead([initial] + rest) == Some(HeadRead(initial / 32, initial % 32, rest))
  {
    assert ([initial] + rest)[1..] == rest;
  }

  lemma InitialByte(major: Major, info: nat)
    requires info < 32
    ensures (major * 32 + info) / 32 == major && (major * 32 + info) % 32 == info
  {
  }

  lemma WidthSuffices(value: Word)
    ensures value < Pow256(ArgumentWidth(value))
  {
    Pow256Values();
  }

  /** Every head reads back as the same major type and value. */
  lemma HeadRoundTrip(major: Major, value: Word, rest: seq<Byte>)
    ensures DecodeHead(Head(major, value) + rest) == Some(HeadRead(major, value, rest))
  {
    if value < 24 {
      InitialByte(major, value);
      ReadDirect(major * 32 + value, rest);
    } else {
      var width := ArgumentWidth(value);
      WidthSuffices(value);
      BeRoundTrip(value, width);
      InitialByte(major, AdditionalInfo(width));
      ReadArgument(major * 32 + AdditionalInfo(width), BeBytes(value, width), rest);
    }
  }

  /** What a head that ends with its argument looks like. */
  lemma HeadShape(s: seq<Byte>, major: nat, value: nat)
    requires DecodeHead(s) == Some(HeadRead(major, value, []))
    ensures s[0] / 32 == major
    ensures if s[0] % 32 < 24 then |s| == 1 && value == s[0] % 32
            else && (|s| == 2 || |s| == 3 || |s| == 5 || |s| == 9)
                 && s[0] % 32 == AdditionalInfo(|s| - 1) && value == BeNat(s[1..])
  {
    var info := s[0] % 32;
    if info < 24 {
      assert s[1..] == [];
    } else {
      var width := if info == 24 then 1 else if info == 25 then 2 else if info == 26 then 4 else 8;
      ExactSlice(s, width);
    }
  }

  lemma ExactSlice(s: seq<Byte>, width: nat)
    requires 1 + width <= |s| && s[1 + width..] == []
    ensures |s| == 1 + width && s[1..1 + width] == s[1..]
  {
    assert |s[1 + width..]| == 0;
  }

  /** A value that needs the bytes it is given fits no shorter argument. */
  lemma WidthIsLeast(value: Word, width: nat)
    requires width == 1 || width == 2 || width == 4 || width == 8
    requires value < Pow256(width)
    ensures ArgumentWidth(value) <= width
  {
    Pow256Values();
  }

  /** No other head for the same value is as short: the preferred serialization of section 4.1. */
  lemma HeadIsShortest(s: seq<Byte>, major: Major, value: Word)
    requires DecodeHead(s) == Some(HeadRead(major, value, []))
    ensures |Head(major, value)| <= |s|
    ensures |s| == |Head(major, value)| ==> s == Head(major, value)
  {
    HeadShape(s, major, value);
    if |s| > 1 {
      BeInverse(s[1..]);
      WidthIsLeast(value, |s| - 1);
      assert s == [s[0]] + s[1..];
    } else {
      assert s == [s[0]];
    }
  }
}
