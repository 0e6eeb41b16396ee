/** Event records and their byte image (include/solar/events/types.hpp, events/runtime.hpp).

    The firmware copies a RecordHeader into the log with memcpy, so its layout is the compiler's.
    The log is modelled over any layout of fixed size that can be read back; PackedLayout is one.
 */
module EventRecords {

  import opened Basics

  datatype Source = Source(kind: nat, component: nat)

  datatype Context = ThreadContext | IsrContext | InfrastructureContext

  datatype Flags = Flags(aggregated: bool, lostBefore: bool, critical: bool, recovery: bool)

  datatype RecordHeader = RecordHeader(
    event: nat,
    source: Source,
    sequence: nat,
    timestamp: int,
    context: Context,
    quality: nat,
    severity: nat,
    correlation: nat,
    logIntent: nat,
    occurrences: nat,
    lostBefore: nat,
    payloadSize: nat,
    schema: nat,
    flags: Flags)

  /** A record and the first `payloadSize` bytes of its payload buffer. */
  datatype StoredRecord = StoredRecord(header: RecordHeader, payload: seq<Byte>)

  // ---------------------------------------------------------------- little-endian numbers

  function LeBytes(value: nat, width: nat): (r: seq<Byte>)
    ensures |r| == width
  {
    if width == 0 then [] else [value % 256] + LeBytes(value / 256, width - 1)
  }

  function LeNat(bytes: seq<Byte>): nat
  {
    if bytes == [] then 0 else bytes[0] + 256 * LeNat(bytes[1..])
  }

  lemma {:induction false} LeRoundTrip(value: nat, width: nat)
    requires value < Pow256(width)
    ensures LeNat(LeBytes(value, width)) == value
  {
    if width > 0 {
      LeRoundTrip(value / 256, width - 1);
      assert LeBytes(value, width)[1..] == LeBytes(value / 256, width - 1);
    }
  }

  // ---------------------------------------------------------------- a run of fixed-width fields

  function Total(widths: seq<nat>): nat
  {
    if widths == [] then 0 else widths[0] + Total(widths[1..])
  }

  ghost predicate FieldsFit(values: seq<nat>, widths: seq<nat>)
  {
    && |values| == |widths|
    && forall i :: 0 <= i < |values| ==> values[i] < Pow256(widths[i])
  }

  function EncodeFields(values: seq<nat>, widths: seq<nat>): (r: seq<Byte>)
    requires |values| == |widths|
    ensures |r| == Total(widths)
  {
    if values == [] then []
    else LeBytes(values[0], widths[0]) + EncodeFields(values[1..], widths[1..])
  }

  function DecodeFields(bytes: seq<Byte>, widths: seq<nat>): (r: seq<nat>)
    requires |bytes| == Total(widths)
    ensures |r| == |widths|
  {
    if widths == [] then []
    else [LeNat(bytes[..widths[0]])] + DecodeFields(bytes[widths[0]..], widths[1..])
  }

  lemma {:induction false} FieldsRoundTrip(values: seq<nat>, widths: seq<nat>)
    requires FieldsFit(values, widths)
    ensures DecodeFields(EncodeFields(values, widths), widths) == values
  {
    if values != [] {
      var head, rest := LeBytes(values[0], widths[0]), EncodeFields(values[1..], widths[1..]);
      assert (head + rest)[..widths[0]] == head && (head + rest)[widths[0]..] == rest;
      LeRoundTrip(values[0], widths[0]);
      FieldsRoundTrip(values[1..], widths[1..]);
    }
  }

  // ---------------------------------------------------------------- the header image

  /** How a header is laid out in bytes: its image has a fixed size and can be read back. */
  datatype Layout = Layout(
    size: nat,
    encode: RecordHeader -> seq<Byte>,
    decode: seq<Byte> -> RecordHeader)
  {
    ghost predicate RoundTrips(h: RecordHeader)
    {
      |encode(h)| == size && decode(encode(h)) == h
    }
  }

  const HEADER_WIDTHS: seq<nat> := [2, 1, 2, 8, 8, 1, 1, 1, 8, 1, 4, 4, 2, 2, 2]

  function Unsigned64(value: int): nat { value % 0x1_0000_0000_0000_0000 }

  function Signed64(value: nat): int
  {
    if value < 0x8000_0000_0000_0000 then value else value - 0x1_0000_0000_0000_0000
  }

  function Bit(on: bool): nat { if on then 1 else 0 }

  function FlagBits(f: Flags): nat
  {
    Bit(f.aggregated) + 2 * Bit(f.lostBefore) + 4 * Bit(f.critical) + 8 * Bit(f.recovery)
  }

  function FlagsOf(bits: nat): Flags
  {
    Flags(bits % 2 == 1, bits / 2 % 2 == 1, bits / 4 % 2 == 1, bits / 8 % 2 == 1)
  }

  function ContextCode(c: Context): nat
  {
    match c
    case ThreadContext => 0
    case IsrContext => 1
    case InfrastructureContext => 2
  }

  function ContextOf(code: nat): Context
  {
    if code == 0 then ThreadContext else if code == 1 then IsrContext else InfrastructureContext
  }

  function HeaderFields(h: RecordHeader): (r: seq<nat>)
    ensures |r| == |HEADER_WIDTHS|
  {
    [h.event, h.source.kind, h.source.component, h.sequence, Unsigned64(h.timestamp),
     ContextCode(h.context), h.quality, h.severity, h.correlation, h.logIntent, h.occurrences,
     h.lostBefore, h.payloadSize, h.schema, FlagBits(h.flags)]
  }

  function HeaderOf(f: seq<nat>): RecordHeader
    requires |f| == |HEADER_WIDTHS|
  {
    RecordHeader(f[0], Source(f[1], f[2]), f[3], Signed64(f[4]), ContextOf(f[5]), f[6], f[7], f[8],
                 f[9], f[10], f[11], f[12], f[13], FlagsOf(f[14]))
  }

  /** Every field lies in the range of its C++ type. */
  ghost predicate HeaderFits(h: RecordHeader)
  {
    && -0x8000_0000_0000_0000 <= h.timestamp < 0x8000_0000_0000_0000
    && FieldsFit(HeaderFields(h), HEADER_WIDTHS)
  }

  lemma FieldsReadBack(h: RecordHeader)
    requires -0x8000_0000_0000_0000 <= h.timestamp < 0x8000_0000_0000_0000
    ensures HeaderOf(HeaderFields(h)) == h
  {
    assert FlagsOf(FlagBits(h.flags)) == h.flags;
    assert Signed64(Unsigned64(h.timestamp)) == h.timestamp;
  }

  /** Fields in declaration order, little-endian, without padding. */
  function PackedLayout(): Layout
  {
    var size := Total(HEADER_WIDTHS);
    Layout(size,
           h => EncodeFields(HeaderFields(h), HEADER_WIDTHS),
           (b: seq<Byte>) =>
             HeaderOf(if |b| == size then DecodeFields(b, HEADER_WIDTHS)
                      else seq(|HEADER_WIDTHS|, _ => 0)))
  }

  lemma HeaderRoundTrip(h: RecordHeader)
    requires HeaderFits(h)
    ensures PackedLayout().RoundTrips(h)
  {
    FieldsRoundTrip(HeaderFields(h), HEADER_WIDTHS);
    FieldsReadBack(h);
  }
}
