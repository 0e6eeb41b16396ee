/** What the inspection encoders write for each record (the CborEncoder specialisations in
    include/solar/inspection/cbor.hpp), and what a CBOR reader makes of it.
 */
module CborRecords {
  import opened Basics
  import opened CborFormat

  type Integer = v: int | -0x8000_0000_0000_0000 <= v < 0x8000_0000_0000_0000

  /** A text as its bytes; std::string_view sizes are 64-bit. */
  type Text = t: seq<Byte> | |t| < 0x1_0000_0000_0000_0000

  /** A value an encoder hands to the writer. */
  datatype Token =
    | Unsigned(number: Word)
    | Signed(integer: Integer)
    | Boolean(flag: bool)
    | Floating(bits: Word)
    | Characters(text: Text)

  function Bytes(t: Token): seq<Byte>
  {
    match t
    case Unsigned(n) => Head(0, n)
    case Signed(v) => if v >= 0 then Head(0, v) else Head(1, -1 - v)
    case Boolean(flag) => [if flag then 0xf5 else 0xf4]
    case Floating(bits) => [0xfb] + BeBytes(bits, 8)
    case Characters(text) => Head(3, |text|) + text
  }

  // ---------------------------------------------------------------- reading data items

  datatype Item =
    | Number(value: int)
    | TextItem(text: seq<Byte>)
    | Flag(flag: bool)
    | Double(bits: nat)
    | Map(pairs: seq<(Item, Item)>)

  datatype Read<T> = Read(item: T, rest: seq<Byte>)

  /** One data item: an integer, a text string, a map, a boolean or a double. */
  function DecodeItem(s: seq<Byte>): (r: Option<Read<Item>>)
    ensures r.Some? ==> |r.value.rest| < |s|
    decreases |s|, 0
  {
    match DecodeHead(s)
    case None => None
    case Some(HeadRead(major, value, rest)) =>
      if major == 0 then Some(Read(Number(value), rest))
      else if major == 1 then Some(Read(Number(-1 - value), rest))
      else if major == 3 then
        if value > |rest| then None else Some(Read(TextItem(rest[..value]), rest[value..]))
      else if major == 5 then
        match DecodePairs(rest, value)
        case None => None
        case Some(r) => Some(Read(Map(r.item), r.rest))
      else if s[0] == 0xf4 then Some(Read(Flag(false), rest))
      else if s[0] == 0xf5 then Some(Read(Flag(true), rest))
      else if s[0] == 0xfb then Some(Read(Double(value), rest))
      else None
  }

  /** `n` pairs of items. */
  function DecodePairs(s: seq<Byte>, n: nat): (r: Option<Read<seq<(Item, Item)>>>)
    ensures r.Some? ==> |r.value.rest| <= |s|
    decreases |s|, 1
  {
    if n == 0 then Some(Read([], s))
    else
      match DecodeItem(s)
      case None => None
      case Some(key) =>
        match DecodeItem(key.rest)
        case None => None
        case Some(value) =>
          match DecodePairs(value.rest, n - 1)
          case None => None
          case Some(more) => Some(Read([(key.item, value.item)] + more.item, more.rest))
  }

  function Meaning(t: Token): Item
  {
    match t
    case Unsigned(n) => Number(n)
    case Signed(v) => Number(v)
    case Boolean(flag) => Flag(flag)
    case Floating(bits) => Double(bits)
    case Characters(text) => TextItem(text)
  }

  lemma NumberRoundTrip(major: Major, n: Word, rest: seq<Byte>)
    requires major == 0 || major == 1
    ensures DecodeItem(Head(major, n) + rest) == Some(Read(Number(if major == 0 then n else -1 - n), rest))
  {
    HeadRoundTrip(major, n, rest);
  }

  lemma TextRoundTrip(text: Text, rest: seq<Byte>)
    ensures DecodeItem(Head(3, |text|) + text + rest) == Some(Read(TextItem(text), rest))
  {
    HeadRoundTrip(3, |text|, text + rest);
    assert Head(3, |text|) + text + rest == Head(3, |text|) + (text + rest);
    assert (text + rest)[..|text|] == text && (text + rest)[|text|..] == rest;
  }

  lemma BooleanRoundTrip(flag: bool, rest: seq<Byte>)
    ensures DecodeItem(Bytes(Boolean(flag)) + rest) == Some(Read(Flag(flag), rest))
  {
    ReadDirect(if flag then 0xf5 else 0xf4, rest);
  }

  lemma DoubleRoundTrip(bits: Word, rest: seq<Byte>)
    ensures DecodeItem(Bytes(Floating(bits)) + rest) == Some(Read(Double(bits), rest))
  {
    Pow256Values();
    BeRoundTrip(bits, 8);
    ReadArgument(0xfb, BeBytes(bits, 8), rest);
  }

  /** Every value the writer can write reads back as itself, whatever follows it. */
  lemma {:induction false} TokenRoundTrip(t: Token, rest: seq<Byte>)
    ensures DecodeItem(Bytes(t) + rest) == Some(Read(Meaning(t), rest))
  {
    match t
    case Unsigned(n) => NumberRoundTrip(0, n, rest);
    case Signed(v) =>
      if v >= 0 {
        NumberRoundTrip(0, v, rest);
      } else {
        NumberRoundTrip(1, -1 - v, rest);
      }
    case Boolean(flag) => BooleanRoundTrip(flag, rest);
    case Floating(bits) => DoubleRoundTrip(bits, rest);
    case Characters(text) => TextRoundTrip(text, rest);
  }

  // ---------------------------------------------------------------- records

  /** The records that can be encoded, with the fields the encoders use; enumerations are numbers. */
  datatype Record =
    | Descriptor(localId: Word, name: Text, ownerKind: Word, owner: Word, origin: Word)
    | Component(localId: Word, state: Word, category: Word, lastStatus: Integer, lastOperation: Word,
                changes: Word, attempts: Word)
    | Registration(localId: Word, name: Text, kind: Word, availability: Word, lastStatus: Integer,
                   submissions: Word, completed: Word, failed: Word, pendingCount: Word)
    | Metric(metric: Word, view: Word, viewIndex: Word, scalar: Scalar, revision: Word, updatedAt: Integer,
             initialized: bool, metricOwner: Word)
    | Link(id: Word, session: Word, received: Word, transmitted: Word, protocolErrors: Word,
           subscriptions: Word, connected: bool)

  datatype Scalar = IntegerScalar(i: Integer) | WordScalar(w: Word) | DoubleScalar(bits: Word) | FlagScalar(b: bool)

  function ScalarToken(s: Scalar): Token
  {
    match s
    case IntegerScalar(i) => Signed(i)
    case WordScalar(w) => Unsigned(w)
    case DoubleScalar(bits) => Floating(bits)
    case FlagScalar(b) => Boolean(b)
  }

  /** One key with its value. */
  datatype Pair = Pair(key: Word, value: Token)

  function PairBytes(pairs: seq<Pair>): seq<Byte>
  {
    if pairs == [] then [] else Head(0, pairs[0].key) + (Bytes(pairs[0].value) + PairBytes(pairs[1..]))
  }

  /** The calls of CborEncoder<Record>::encode after the map head: a key and a value each time. */
  function Body(r: Record): seq<Pair>
  {
    match r
    case Descriptor(id, name, ownerKind, owner, origin) =>
      [Pair(0, Unsigned(id)), Pair(1, Characters(name)), Pair(2, Unsigned(ownerKind)),
       Pair(3, Unsigned(owner)), Pair(4, Unsigned(origin))]
    case Component(id, state, category, status, operation, changes, attempts) =>
      [Pair(0, Unsigned(id)), Pair(1, Unsigned(state)), Pair(2, Unsigned(category)),
       Pair(3, Signed(status)), Pair(4, Unsigned(operation)), Pair(5, Unsigned(changes)),
       Pair(6, Unsigned(attempts))]
    case Registration(id, name, kind, availability, status, submissions, completed, failed, pending) =>
      [Pair(0, Unsigned(id)), Pair(1, Characters(name)), Pair(2, Unsigned(kind)),
       Pair(3, Unsigned(availability)), Pair(4, Signed(status)), Pair(5, Unsigned(submissions)),
       Pair(6, Unsigned(completed)), Pair(7, Unsigned(failed)), Pair(8, Unsigned(pending))]
    case Metric(metric, view, index, scalar, revision, updated, initialized, owner) =>
      [Pair(0, Unsigned(metric)), Pair(1, Unsigned(view)), Pair(2, Unsigned(index)),
       Pair(3, ScalarToken(scalar)), Pair(4, Unsigned(revision)), Pair(5, Signed(updated)),
       Pair(6, Boolean(initialized)), Pair(7, Unsigned(owner))]
    case Link(id, session, received, transmitted, errors, subscriptions, connected) =>
      [Pair(0, Unsigned(id)), Pair(1, Unsigned(session)), Pair(2, Unsigned(received)),
       Pair(3, Unsigned(transmitted)), Pair(4, Unsigned(errors)), Pair(5, Unsigned(subscriptions)),
       Pair(6, Boolean(connected))]
  }

  /** The size each encoder announces. */
  function MapSize(r: Record): nat
  {
    match r
    case Descriptor(_, _, _, _, _) => 5
    case Component(_, _, _, _, _, _, _) => 7
    case Registration(_, _, _, _, _, _, _, _, _) => 9
    case Metric(_, _, _, _, _, _, _, _) => 8
    case Link(_, _, _, _, _, _, _) => 7
  }

  /** Everything an encoder writes: a map head, then keys and values. */
  function Encoding(r: Record): seq<Byte>
  {
    Head(5, MapSize(r)) + PairBytes(Body(r))
  }

  /** The fields of a record in key order, as a reader should see them. */
  function Fields(r: Record): seq<Item>
  {
    match r
    case Descriptor(id, name, ownerKind, owner, origin) =>
      [Number(id), TextItem(name), Number(ownerKind), Number(owner), Number(origin)]
    case Component(id, state, category, status, operation, changes, attempts) =>
      [Number(id), Number(state), Number(category), Number(status), Number(operation), Number(changes),
       Number(attempts)]
    case Registration(id, name, kind, availability, status, submissions, completed, failed, pending) =>
      [Number(id), TextItem(name), Number(kind), Number(availability), Number(status), Number(submissions),
       Number(completed), Number(failed), Number(pending)]
    case Metric(metric, view, index, scalar, revision, updated, initialized, owner) =>
      [Number(metric), Number(view), Number(index), Meaning(ScalarToken(scalar)), Number(revision),
       Number(updated), Flag(initialized), Number(owner)]
    case Link(id, session, received, transmitted, errors, subscriptions, connected) =>
      [Number(id), Number(session), Number(received), Number(transmitted), Number(errors), Number(subscriptions),
       Flag(connected)]
  }

  /** What a reader makes of key and value. */
  ghost function ItemsOf(pairs: seq<Pair>): seq<(Item, Item)>
  {
    seq(|pairs|, i requires 0 <= i < |pairs| => (Number(pairs[i].key), Meaning(pairs[i].value)))
  }

  /** Fields under the keys 0, 1, 2 and so on. */
  ghost function Keyed(fields: seq<Item>): seq<(Item, Item)>
  {
    seq(|fields|, i requires 0 <= i < |fields| => (Number(i), fields[i]))
  }

  /** Each encoder announces exactly the pairs it writes: its fields, under consecutive keys. */
  ghost predicate WritesFields(size: nat, pairs: seq<Pair>, fields: seq<Item>)
  {
    && size == |pairs| == |fields|
    && forall i :: 0 <= i < |pairs| ==> WritesField(pairs[i], i, fields[i])
  }

  ghost predicate WritesField(p: Pair, key: nat, field: Item)
  {
    p.key == key && Meaning(p.value) == field
  }

  lemma BodyWritesFields(r: Record)
    ensures WritesFields(MapSize(r), Body(r), Fields(r))
  {
    match r
    case Descriptor(_, _, _, _, _) =>
    case Component(_, _, _, _, _, _, _) =>
    case Registration(_, _, _, _, _, _, _, _, _) =>
    case Metric(_, _, _, _, _, _, _, _) =>
    case Link(_, _, _, _, _, _, _) =>
  }

  lemma {:induction false} PairStep(p: Pair, tail: seq<Byte>, n: nat, items: seq<(Item, Item)>, rest: seq<Byte>)
    requires DecodePairs(tail, n) == Some(Read(items, rest))
    ensures DecodePairs(Head(0, p.key) + (Bytes(p.value) + tail), n + 1)
         == Some(Read([(Number(p.key), Meaning(p.value))] + items, rest))
  {
    NumberRoundTrip(0, p.key, Bytes(p.value) + tail);
    TokenRoundTrip(p.value, tail);
  }

  lemma Reassociate(a: seq<Byte>, b: seq<Byte>, c: seq<Byte>, rest: seq<Byte>)
    ensures (a + (b + c)) + rest == a + (b + (c + rest))
  {
  }

  lemma Associate(a: seq<Byte>, b: seq<Byte>, c: seq<Byte>)
    ensures (a + b) + c == a + (b + c)
  {
  }

  lemma ItemsOfHead(pairs: seq<Pair>)
    requires pairs != []
    ensures ItemsOf(pairs) == [(Number(pairs[0].key), Meaning(pairs[0].value))] + ItemsOf(pairs[1..])
  {
  }

  /** Pairs read back as the same pairs. */
  lemma {:induction false} PairsRoundTrip(pairs: seq<Pair>, rest: seq<Byte>)
    ensures DecodePairs(PairBytes(pairs) + rest, |pairs|) == Some(Read(ItemsOf(pairs), rest))
  {
    if pairs == [] {
      assert PairBytes(pairs) + rest == rest && ItemsOf(pairs) == [];
    } else {
      var tail := pairs[1..];
      PairsRoundTrip(tail, rest);
      PairStep(pairs[0], PairBytes(tail) + rest, |tail|, ItemsOf(tail), rest);
      Reassociate(Head(0, pairs[0].key), Bytes(pairs[0].value), PairBytes(tail), rest);
      ItemsOfHead(pairs);
    }
  }

  lemma {:induction false} MapItem(n: Word, tail: seq<Byte>, pairs: seq<(Item, Item)>, rest: seq<Byte>)
    requires DecodePairs(tail, n) == Some(Read(pairs, rest))
    ensures DecodeItem(Head(5, n) + tail) == Some(Read(Map(pairs), rest))
  {
    HeadRoundTrip(5, n, tail);
  }

  /** A record reads back as one map: exactly its fields, under the keys 0, 1, 2 and so on. */
  lemma {:induction false} RecordRoundTrip(r: Record, rest: seq<Byte>)
    ensures DecodeItem(Encoding(r) + rest) == Some(Read(Map(Keyed(Fields(r))), rest))
  {
    BodyWritesFields(r);
    FieldsRoundTrip(MapSize(r), Body(r), Fields(r), rest);
  }

  lemma {:induction false} FieldsRoundTrip(size: Word, pairs: seq<Pair>, fields: seq<Item>, rest: seq<Byte>)
    requires WritesFields(size, pairs, fields)
    ensures DecodeItem((Head(5, size) + PairBytes(pairs)) + rest) == Some(Read(Map(Keyed(fields)), rest))
  {
    assert forall i :: 0 <= i < |pairs| ==> WritesField(pairs[i], i, fields[i]);
    PairsRoundTrip(pairs, rest);
    assert ItemsOf(pairs) == Keyed(fields);
    MapItem(size, PairBytes(pairs) + rest, Keyed(fields), rest);
    Associate(Head(5, size), PairBytes(pairs), rest);
  }
}
