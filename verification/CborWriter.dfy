/** The CBOR writer over a fixed buffer (CborWriter and encode_cbor in include/solar/inspection/cbor.hpp). */
module CborWriter {
  import opened Basics
  import opened CborFormat
  import opened CborRecords

  class Writer {
    const destination: array<Byte>
    var written: nat
    var failed: bool

    ghost predicate Valid()
      reads this
    {
      written <= destination.Length
    }

    /** What has been written so far. */
    ghost function Output(): seq<Byte>
      requires Valid()
      reads this, destination
    {
      destination[..written]
    }

    /** The part of the buffer nobody wrote to yet. */
    ghost function Untouched(): seq<Byte>
      requires Valid()
      reads this, destination
    {
      destination[written..]
    }

    function Remaining(): nat
      requires Valid()
      reads this
    {
      destination.Length - written
    }

    /** `after` came from `before` by writing `bytes` in full, or by running out of room on the way;
        either way the output only grew and nothing beyond it changed. */
    static ghost predicate Appended(before: seq<Byte>, room: seq<Byte>, after: seq<Byte>, left: seq<Byte>,
                                    bytes: seq<Byte>, ok: bool)
    {
      && (ok <==> |bytes| <= |room|)
      && (ok ==> after == before + bytes)
      && before <= after && |after| + |left| == |before| + |room|
      && left == room[|after| - |before|..]
    }

    constructor (destination: array<Byte>)
      ensures Valid() && this.destination == destination && written == 0 && !failed
    {
      this.destination := destination;
      written := 0;
      failed := false;
    }

    method PutByte(b: Byte) returns (ok: bool)
      requires Valid()
      modifies this, destination
      ensures Valid() && Appended(old(Output()), old(Untouched()), Output(), Untouched(), [b], ok)
      ensures failed == (old(failed) || !ok)
    {
      if Remaining() == 0 {
        failed := true;
        return false;
      }
      destination[written] := b;
      written := written + 1;
      return true;
    }

    /** The bytes of a number, most significant first, as the shifting loops write them. */
    method PutNumber(value: Word, width: nat) returns (ok: bool)
      requires Valid()
      modifies this, destination
      ensures Valid() && Appended(old(Output()), old(Untouched()), Output(), Untouched(), BeBytes(value, width), ok)
      ensures failed == (old(failed) || !ok)
    {
      ghost var before, room, bytes := Output(), Untouched(), BeBytes(value, width);
      for index := 0 to width
        invariant Valid() && Appended(before, room, Output(), Untouched(), bytes[..index], true)
        invariant failed == old(failed)
      {
        BeByteAt(value, width, index);
        ghost var output, left := Output(), Untouched();
        var put := PutByte(ByteAt(value, width, index));
        AppendedStep(before, room, output, left, Output(), Untouched(), bytes, index, put);
        if !put {
          return false;
        }
      }
      assert bytes[..width] == bytes;
      return true;
    }

    method PutHead(major: Major, value: Word) returns (ok: bool)
      requires Valid()
      modifies this, destination
      ensures Valid() && Appended(old(Output()), old(Untouched()), Output(), Untouched(), Head(major, value), ok)
      ensures failed == (old(failed) || !ok)
    {
      if value < 24 {
        ok := PutByte(major * 32 + value);
        return;
      }
      ghost var before, room := Output(), Untouched();
      var width := ArgumentWidth(value);
      ok := PutByte(major * 32 + AdditionalInfo(width));
      ghost var middle, left := Output(), Untouched();
      if !ok {
        AppendedStops(before, room, middle, left, [major * 32 + AdditionalInfo(width)], BeBytes(value, width));
        return false;
      }
      ok := PutNumber(value, width);
      AppendedTwice(before, room, middle, left, Output(), Untouched(),
                    [major * 32 + AdditionalInfo(width)], BeBytes(value, width), ok);
    }

    /** A text is refused as a whole if it does not fit after its head. */
    method PutText(text: Text) returns (ok: bool)
      requires Valid()
      modifies this, destination
      ensures Valid() && Appended(old(Output()), old(Untouched()), Output(), Untouched(), Head(3, |text|) + text, ok)
      ensures failed == (old(failed) || !ok)
    {
      ghost var before, room := Output(), Untouched();
      ok := PutHead(3, |text|);
      ghost var middle, left := Output(), Untouched();
      if !ok || Remaining() < |text| {
        failed := true;
        AppendedStops(before, room, middle, left, Head(3, |text|), text);
        return false;
      }
      PutCharacters(text);
      AppendedTwice(before, room, middle, left, Output(), Untouched(), Head(3, |text|), text, true);
    }

    /** The copying loop; there is room for all of the text. */
    method PutCharacters(text: Text)
      requires Valid() && |text| <= Remaining()
      modifies this, destination
      ensures Valid() && failed == old(failed)
      ensures Appended(old(Output()), old(Untouched()), Output(), Untouched(), text, true)
    {
      ghost var before, room := Output(), Untouched();
      for i := 0 to |text|
        invariant Valid() && failed == old(failed)
        invariant Appended(before, room, Output(), Untouched(), text[..i], true)
      {
        ghost var output, left := Output(), Untouched();
        destination[written] := text[i];
        written := written + 1;
        assert Output() == output + [text[i]] && Untouched() == left[1..];
        AppendedStep(before, room, output, left, Output(), Untouched(), text, i, true);
      }
      assert text[..|text|] == text;
    }

    method PutDouble(bits: Word) returns (ok: bool)
      requires Valid()
      modifies this, destination
      ensures Valid() && Appended(old(Output()), old(Untouched()), Output(), Untouched(), Bytes(Floating(bits)), ok)
      ensures failed == (old(failed) || !ok)
    {
      ghost var before, room := Output(), Untouched();
      ok := PutByte(0xfb);
      ghost var middle, left := Output(), Untouched();
      if !ok {
        AppendedStops(before, room, middle, left, [0xfb], BeBytes(bits, 8));
        return false;
      }
      ok := PutNumber(bits, 8);
      AppendedTwice(before, room, middle, left, Output(), Untouched(), [0xfb], BeBytes(bits, 8), ok);
    }

    method PutSigned(v: Integer) returns (ok: bool)
      requires Valid()
      modifies this, destination
      ensures Valid() && Appended(old(Output()), old(Untouched()), Output(), Untouched(), Bytes(Signed(v)), ok)
      ensures failed == (old(failed) || !ok)
    {
      if v >= 0 {
        ok := PutHead(0, v);
      } else {
        ok := PutHead(1, -1 - v);
      }
    }

    method Put(t: Token) returns (ok: bool)
      requires Valid()
      modifies this, destination
      ensures Valid() && Appended(old(Output()), old(Untouched()), Output(), Untouched(), Bytes(t), ok)
      ensures failed == (old(failed) || !ok)
    {
      match t
      case Unsigned(n) => ok := PutHead(0, n);
      case Signed(v) => ok := PutSigned(v);
      case Boolean(flag) => ok := PutByte(if flag then 0xf5 else 0xf4);
      case Floating(bits) => ok := PutDouble(bits);
      case Characters(text) => ok := PutText(text);
    }

    /** The keys and values of a record: the chain of calls stops at the first one that fails. */
    method PutPairs(pairs: seq<Pair>) returns (ok: bool)
      requires Valid()
      modifies this, destination
      ensures Valid() && Appended(old(Output()), old(Untouched()), Output(), Untouched(), PairBytes(pairs), ok)
      ensures failed == (old(failed) || !ok)
      decreases |pairs|
    {
      if pairs == [] {
        return true;
      }
      ghost var before, room := Output(), Untouched();
      ok := PutPair(pairs[0]);
      ghost var head := Head(0, pairs[0].key) + Bytes(pairs[0].value);
      ghost var middle, left := Output(), Untouched();
      Associate(Head(0, pairs[0].key), Bytes(pairs[0].value), PairBytes(pairs[1..]));
      if !ok {
        AppendedStops(before, room, middle, left, head, PairBytes(pairs[1..]));
        return false;
      }
      ok := PutPairs(pairs[1..]);
      AppendedTwice(before, room, middle, left, Output(), Untouched(), head, PairBytes(pairs[1..]), ok);
    }

    method PutPair(p: Pair) returns (ok: bool)
      requires Valid()
      modifies this, destination
      ensures Valid()
      ensures Appended(old(Output()), old(Untouched()), Output(), Untouched(), Head(0, p.key) + Bytes(p.value), ok)
      ensures failed == (old(failed) || !ok)
    {
      ghost var before, room := Output(), Untouched();
      ok := PutHead(0, p.key);
      ghost var middle, left := Output(), Untouched();
      if !ok {
        AppendedStops(before, room, middle, left, Head(0, p.key), Bytes(p.value));
        return false;
      }
      ok := Put(p.value);
      AppendedTwice(before, room, middle, left, Output(), Untouched(), Head(0, p.key), Bytes(p.value), ok);
    }

    /** A map head, and then its pairs. */
    method PutMap(size: Word, pairs: seq<Pair>) returns (ok: bool)
      requires Valid()
      modifies this, destination
      ensures Valid()
      ensures Appended(old(Output()), old(Untouched()), Output(), Untouched(), Head(5, size) + PairBytes(pairs), ok)
      ensures failed == (old(failed) || !ok)
    {
      ghost var before, room := Output(), Untouched();
      ok := PutHead(5, size);
      ghost var middle, left := Output(), Untouched();
      if !ok {
        AppendedStops(before, room, middle, left, Head(5, size), PairBytes(pairs));
        return false;
      }
      ok := PutPairs(pairs);
      AppendedTwice(before, room, middle, left, Output(), Untouched(), Head(5, size), PairBytes(pairs), ok);
    }

    /** CborEncoder<Record>::encode. */
    method PutRecord(r: Record) returns (ok: bool)
      requires Valid()
      modifies this, destination
      ensures Valid() && Appended(old(Output()), old(Untouched()), Output(), Untouched(), Encoding(r), ok)
      ensures failed == (old(failed) || !ok)
    {
      ok := PutMap(MapSize(r), Body(r));
    }
  }

  lemma AppendedStep(before: seq<Byte>, room: seq<Byte>, output: seq<Byte>, left: seq<Byte>, output': seq<Byte>,
                     left': seq<Byte>, bytes: seq<Byte>, i: nat, ok: bool)
    requires i < |bytes|
    requires Writer.Appended(before, room, output, left, bytes[..i], true)
    requires Writer.Appended(output, left, output', left', [bytes[i]], ok)
    ensures ok ==> Writer.Appended(before, room, output', left', bytes[..i + 1], true)
    ensures !ok ==> Writer.Appended(before, room, output', left', bytes, false)
  {
    assert bytes[..i + 1] == bytes[..i] + [bytes[i]];
  }

  lemma AppendedTwice(before: seq<Byte>, room: seq<Byte>, middle: seq<Byte>, left: seq<Byte>, after: seq<Byte>,
                      left': seq<Byte>, a: seq<Byte>, b: seq<Byte>, ok: bool)
    requires Writer.Appended(before, room, middle, left, a, true)
    requires Writer.Appended(middle, left, after, left', b, ok)
    ensures Writer.Appended(before, room, after, left', a + b, ok)
  {
  }

  /** Writing stopped within `a`, or there is no room left for `b`: together they do not fit. */
  lemma AppendedStops(before: seq<Byte>, room: seq<Byte>, middle: seq<Byte>, left: seq<Byte>,
                      a: seq<Byte>, b: seq<Byte>)
    requires |a| > |room| || (Writer.Appended(before, room, middle, left, a, true) && |b| > |left|)
    requires before <= middle && |middle| + |left| == |before| + |room| && left == room[|middle| - |before|..]
    ensures Writer.Appended(before, room, middle, left, a + b, false)
  {
  }

  /** encode_cbor: succeeds exactly when the whole encoding fits, and then the buffer starts with it. */
  method EncodeCbor(r: Record, destination: array<Byte>) returns (size: Option<nat>)
    modifies destination
    ensures size.Some? <==> |Encoding(r)| <= destination.Length
    ensures size.Some? ==>
              && size.value == |Encoding(r)|
              && destination[..] == Encoding(r) + old(destination[..])[size.value..]
  {
    ghost var room := destination[..];
    var writer := new Writer(destination);
    assert writer.Untouched() == room && writer.Output() == [];
    var ok := writer.PutRecord(r);
    WroteWhole(room, writer.Output(), writer.Untouched(), Encoding(r), ok);
    if !ok || writer.failed {
      return None;
    }
    assert destination[..] == writer.Output() + writer.Untouched();
    return Some(writer.written);
  }

  lemma WroteWhole(room: seq<Byte>, output: seq<Byte>, left: seq<Byte>, bytes: seq<Byte>, ok: bool)
    requires Writer.Appended([], room, output, left, bytes, ok)
    ensures ok ==> |output| == |bytes| && output + left == bytes + room[|bytes|..]
  {
  }
}
