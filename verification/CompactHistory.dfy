/** The byte-packed event log (CompactHistory in include/solar/events/runtime.hpp).

    Entries are packed oldest first: a two-byte size, the header image, the payload. The model
    proves that the bytes in use are always exactly the packing of a list of records, so the
    log behaves as that list.
 */
module CompactHistory {
  import opened Basics
  import opened EventRecords

  const PREFIX_SIZE: nat := 2

  /** A record the log can hold: header in range, payload of the declared size, size in 16 bits. */
  ghost predicate Storable(layout: Layout, r: StoredRecord)
  {
    && layout.RoundTrips(r.header)
    && |r.payload| == r.header.payloadSize
    && layout.size + r.header.payloadSize < 0x1_0000
  }

  ghost predicate AllStorable(layout: Layout, records: seq<StoredRecord>)
  {
    forall i :: 0 <= i < |records| ==> Storable(layout, records[i])
  }

  function EntrySize(layout: Layout, r: StoredRecord): nat { layout.size + r.header.payloadSize }

  function Footprint(layout: Layout, r: StoredRecord): nat { PREFIX_SIZE + EntrySize(layout, r) }

  function TotalFootprint(layout: Layout, records: seq<StoredRecord>): nat
  {
    if records == [] then 0 else Footprint(layout, records[0]) + TotalFootprint(layout, records[1..])
  }

  // ---------------------------------------------------------------- packing and parsing

  ghost function Pack(layout: Layout, r: StoredRecord): (bytes: seq<Byte>)
    requires Storable(layout, r)
    ensures |bytes| == Footprint(layout, r)
  {
    LeBytes(EntrySize(layout, r), PREFIX_SIZE) + layout.encode(r.header) + r.payload
  }

  ghost function PackAll(layout: Layout, records: seq<StoredRecord>): (bytes: seq<Byte>)
    requires AllStorable(layout, records)
    ensures |bytes| == TotalFootprint(layout, records)
  {
    if records == [] then [] else Pack(layout, records[0]) + PackAll(layout, records[1..])
  }

  function SizeAt(bytes: seq<Byte>): nat
    requires |bytes| >= PREFIX_SIZE
  {
    LeNat(bytes[..PREFIX_SIZE])
  }

  function RecordAt(layout: Layout, bytes: seq<Byte>, size: nat): StoredRecord
    requires layout.size <= size && PREFIX_SIZE + size <= |bytes|
  {
    StoredRecord(layout.decode(bytes[PREFIX_SIZE..PREFIX_SIZE + layout.size]),
                 bytes[PREFIX_SIZE + layout.size..PREFIX_SIZE + size])
  }

  /** The read loop: stop at a short prefix or at an entry that does not fit. */
  function Parse(layout: Layout, bytes: seq<Byte>): seq<StoredRecord>
  {
    if |bytes| < PREFIX_SIZE then []
    else
      var size := SizeAt(bytes);
      if size < layout.size || PREFIX_SIZE + size > |bytes| then []
      else [RecordAt(layout, bytes, size)] + Parse(layout, bytes[PREFIX_SIZE + size..])
  }

  lemma PackedHead(layout: Layout, r: StoredRecord, rest: seq<Byte>)
    requires Storable(layout, r)
    ensures SizeAt(Pack(layout, r) + rest) == EntrySize(layout, r)
    ensures RecordAt(layout, Pack(layout, r) + rest, EntrySize(layout, r)) == r
  {
    var prefix, header := LeBytes(EntrySize(layout, r), PREFIX_SIZE), layout.encode(r.header);
    var bytes := Pack(layout, r) + rest;
    assert bytes[..PREFIX_SIZE] == prefix;
    assert bytes[PREFIX_SIZE..PREFIX_SIZE + layout.size] == header;
    assert bytes[PREFIX_SIZE + layout.size..PREFIX_SIZE + EntrySize(layout, r)] == r.payload;
    assert Pow256(PREFIX_SIZE) == 0x1_0000;
    LeRoundTrip(EntrySize(layout, r), PREFIX_SIZE);
  }

  /** Parsing undoes packing: no entry is lost, split or merged. */
  lemma {:induction false} ParsePackAll(layout: Layout, records: seq<StoredRecord>)
    requires AllStorable(layout, records)
    ensures Parse(layout, PackAll(layout, records)) == records
  {
    if records != [] {
      var rest := PackAll(layout, records[1..]);
      PackedHead(layout, records[0], rest);
      ParsePackAll(layout, records[1..]);
      assert (Pack(layout, records[0]) + rest)[Footprint(layout, records[0])..] == rest;
    }
  }

  lemma {:induction false} PackAllAppend(layout: Layout, records: seq<StoredRecord>, r: StoredRecord)
    requires AllStorable(layout, records) && Storable(layout, r)
    ensures AllStorable(layout, records + [r])
    ensures PackAll(layout, records + [r]) == PackAll(layout, records) + Pack(layout, r)
  {
    if records == [] {
      assert [] + [r] == [r] && [r][1..] == [];
      assert PackAll(layout, [r][1..]) == [];
    } else {
      PackAllAppend(layout, records[1..], r);
      assert (records + [r])[1..] == records[1..] + [r];
    }
  }

  lemma {:induction false} PackAllSplit(layout: Layout, records: seq<StoredRecord>, n: nat)
    requires AllStorable(layout, records) && n <= |records|
    ensures TotalFootprint(layout, records[..n]) <= TotalFootprint(layout, records)
    ensures PackAll(layout, records)[TotalFootprint(layout, records[..n])..] == PackAll(layout, records[n..])
  {
    if n == 0 {
      assert records[..0] == [] && records[0..] == records;
    } else {
      PackAllSplit(layout, records[1..], n - 1);
      assert records[..n][1..] == records[1..][..n - 1];
      assert records[1..][n - 1..] == records[n..];
    }
  }

  lemma {:induction false} FootprintStep(layout: Layout, records: seq<StoredRecord>, n: nat)
    requires n < |records|
    ensures TotalFootprint(layout, records[..n + 1]) == TotalFootprint(layout, records[..n]) + Footprint(layout, records[n])
  {
    if n > 0 {
      FootprintStep(layout, records[1..], n - 1);
      assert records[..n + 1][1..] == records[1..][..n];
      assert records[..n][1..] == records[1..][..n - 1];
    } else {
      assert records[..1][1..] == [];
    }
  }

  // ---------------------------------------------------------------- eviction

  /** The least number of oldest records whose removal leaves at most `room` bytes. */
  function LeastDrop(layout: Layout, records: seq<StoredRecord>, room: nat): (k: nat)
    ensures k <= |records|
  {
    if TotalFootprint(layout, records) <= room then 0 else 1 + LeastDrop(layout, records[1..], room)
  }

  lemma {:induction false} LeastDropFits(layout: Layout, records: seq<StoredRecord>, room: nat)
    ensures TotalFootprint(layout, records[LeastDrop(layout, records, room)..]) <= room
  {
    if TotalFootprint(layout, records) <= room {
      assert records[0..] == records;
    } else {
      LeastDropFits(layout, records[1..], room);
      var k := LeastDrop(layout, records[1..], room);
      assert records[1..][k..] == records[1 + k..];
    }
  }

  lemma {:induction false} FewerDoNotFit(layout: Layout, records: seq<StoredRecord>, room: nat, j: nat)
    requires j < LeastDrop(layout, records, room)
    ensures TotalFootprint(layout, records[j..]) > room
  {
    if j == 0 {
      assert records[0..] == records;
    } else {
      FewerDoNotFit(layout, records[1..], room, j - 1);
      assert records[1..][j - 1..] == records[j..];
    }
  }

  /** What is left fits, and nothing fewer would do. */
  lemma LeastDropIsLeast(layout: Layout, records: seq<StoredRecord>, room: nat)
    ensures var k := LeastDrop(layout, records, room);
            && TotalFootprint(layout, records[k..]) <= room
            && forall j :: 0 <= j < k ==> TotalFootprint(layout, records[j..]) > room
  {
    LeastDropFits(layout, records, room);
    forall j | 0 <= j < LeastDrop(layout, records, room)
      ensures TotalFootprint(layout, records[j..]) > room
    {
      FewerDoNotFit(layout, records, room, j);
    }
  }

  /** One round of the eviction loop. */
  lemma LeastDropStep(layout: Layout, records: seq<StoredRecord>, room: nat)
    ensures LeastDrop(layout, records, room)
         == if TotalFootprint(layout, records) <= room then 0 else 1 + LeastDrop(layout, records[1..], room)
  {
  }

  predicate Matches(r: StoredRecord, from: nat, filter: Option<nat>)
  {
    r.header.sequence >= from && (filter.None? || r.header.event == filter.value)
  }

  /** The first record at or after `from` that passes the filter. */
  function FirstMatch(records: seq<StoredRecord>, from: nat, filter: Option<nat>): (r: Option<StoredRecord>)
    ensures r.None? ==> forall i :: 0 <= i < |records| ==> !Matches(records[i], from, filter)
    ensures r.Some? ==>
              exists i :: (0 <= i < |records| && records[i] == r.value
                           && Matches(records[i], from, filter)
                           && forall j :: 0 <= j < i ==> !Matches(records[j], from, filter))
  {
    if records == [] then None
    else if Matches(records[0], from, filter) then Some(records[0])
    else
      assert forall i :: 1 <= i < |records| ==> records[i] == records[1..][i - 1];
      FirstMatch(records[1..], from, filter)
  }

  /** The newest record that passes the filter. */
  function LastMatch(records: seq<StoredRecord>, filter: Option<nat>): (r: Option<StoredRecord>)
    ensures r.None? ==> forall i :: 0 <= i < |records| ==> !Matches(records[i], 0, filter)
    ensures r.Some? ==>
              exists i :: (0 <= i < |records| && records[i] == r.value
                           && Matches(records[i], 0, filter)
                           && forall j :: i < j < |records| ==> !Matches(records[j], 0, filter))
  {
    if records == [] then None
    else
      var last := |records| - 1;
      if Matches(records[last], 0, filter) then Some(records[last])
      else LastMatch(records[..last], filter)
  }

  class Log {
    const layout: Layout
    const bytes: array<Byte>
    var used: nat
    var evicted: nat

    /** The list of records the log stands for. */
    ghost var records: seq<StoredRecord>

    ghost predicate Valid()
      reads this, bytes
    {
      && used <= bytes.Length
      && AllStorable(layout, records)
      && bytes[..used] == PackAll(layout, records)
    }

    constructor (layout: Layout, capacity: nat)
      ensures Valid() && fresh(bytes) && bytes.Length == capacity && this.layout == layout
      ensures records == [] && evicted == 0
    {
      this.layout := layout;
      bytes := new Byte[capacity];
      used, evicted := 0, 0;
      records := [];
    }

    /** The used bytes parse to exactly the records: the read loop never meets a malformed entry. */
    lemma UsedBytesParse()
      requires Valid()
      ensures Parse(layout, bytes[..used]) == records
    {
      ParsePackAll(layout, records);
    }

    /** Drops the oldest entry by moving the others to the front. */
    method DropOldest()
      requires Valid() && records != []
      modifies this`used, this`evicted, this`records, bytes
      ensures Valid() && records == old(records)[1..]
      ensures evicted == old(evicted) + 1
    {
      PackedHead(layout, records[0], PackAll(layout, records[1..]));
      var oldestTotal := PREFIX_SIZE + SizeAt(bytes[..used]);
      // the two malformed-entry exits of the firmware loop are not taken
      assert used >= PREFIX_SIZE && oldestTotal <= used;
      MoveToFront(oldestTotal);
      used := used - oldestTotal;
      evicted := evicted + 1;
      records := records[1..];
    }

    /** The memmove of the eviction loop. */
    method MoveToFront(count: nat)
      requires count <= used <= bytes.Length
      modifies bytes
      ensures bytes[..used - count] == old(bytes[..used])[count..]
    {
      forall i | 0 <= i < used - count {
        bytes[i] := bytes[i + count];
      }
    }

    lemma UsedIsFootprint()
      requires Valid()
      ensures used == TotalFootprint(layout, records) && (used > 0 ==> records != [])
    {
    }

    /** Drops oldest entries until `total` more bytes fit. */
    method MakeRoom(total: nat) returns (dropped: nat)
      requires Valid() && total <= bytes.Length
      modifies this`used, this`evicted, this`records, bytes
      ensures Valid() && used + total <= bytes.Length
      ensures dropped == LeastDrop(layout, old(records), bytes.Length - total)
      ensures records == old(records)[dropped..]
      ensures evicted == old(evicted) + dropped
    {
      dropped := 0;
      ghost var before, room := records, bytes.Length - total;
      while used + total > bytes.Length
        invariant Valid() && dropped <= |before| && records == before[dropped..]
        invariant LeastDrop(layout, before, room) == dropped + LeastDrop(layout, records, room)
        invariant evicted == old(evicted) + dropped
        decreases |before| - dropped
      {
        UsedIsFootprint();
        LeastDropStep(layout, records, room);
        DropOldest();
        dropped := dropped + 1;
      }
      UsedIsFootprint();
      LeastDropStep(layout, records, room);
    }

    /** Appends a record, evicting the fewest oldest records that make room for it. */
    method Append(r: StoredRecord) returns (stored: bool, dropped: nat)
      requires Valid() && Storable(layout, r)
      modifies this`used, this`evicted, this`records, bytes
      ensures Valid()
      ensures stored <==> Footprint(layout, r) <= bytes.Length
      ensures !stored ==> dropped == 0 && records == old(records)
      ensures stored ==> dropped == LeastDrop(layout, old(records), bytes.Length - Footprint(layout, r))
      ensures stored ==> records == old(records)[dropped..] + [r]
      ensures evicted == old(evicted) + dropped
    {
      var total := PREFIX_SIZE + layout.size + r.header.payloadSize;
      if total > bytes.Length {
        return false, 0;
      }
      dropped := MakeRoom(total);
      Write(r);
      stored := true;
    }

    /** Copies a block to an offset, leaving every byte before it alone. */
    method Copy(offset: nat, block: seq<Byte>)
      requires offset + |block| <= bytes.Length
      modifies bytes
      ensures bytes[..offset] == old(bytes[..offset])
      ensures bytes[..offset + |block|] == old(bytes[..offset]) + block
    {
      forall i | 0 <= i < |block| {
        bytes[offset + i] := block[i];
      }
    }

    /** Writes the entry after the bytes in use. */
    method Write(r: StoredRecord)
      requires Valid() && Storable(layout, r) && used + Footprint(layout, r) <= bytes.Length
      modifies this`used, this`records, bytes
      ensures Valid() && records == old(records) + [r]
    {
      Copy(used, LeBytes(EntrySize(layout, r), PREFIX_SIZE));
      Copy(used + PREFIX_SIZE, layout.encode(r.header));
      Copy(used + PREFIX_SIZE + layout.size, r.payload);
      used := used + Footprint(layout, r);
      assert bytes[..used] == PackAll(layout, records) + Pack(layout, r);
      PackAllAppend(layout, records, r);
      records := records + [r];
    }

    /** Reads the entry at a record boundary; the malformed-entry exit is not taken there. */
    method EntryAt(offset: nat, ghost n: nat) returns (r: StoredRecord, next: nat)
      requires Valid() && n < |records|
      requires offset == TotalFootprint(layout, records[..n])
      ensures r == records[n]
      ensures offset < next == TotalFootprint(layout, records[..n + 1]) <= used
    {
      PackAllSplit(layout, records, n);
      PackAllSplit(layout, records, n + 1);
      FootprintStep(layout, records, n);
      ghost var rest := PackAll(layout, records[n + 1..]);
      assert records[n..][0] == records[n] && records[n..][1..] == records[n + 1..];
      PackedHead(layout, records[n], rest);
      assert bytes[offset..used] == bytes[..used][offset..];
      var size := SizeAt(bytes[offset..used]);
      r := RecordAt(layout, bytes[offset..used], size);
      next := offset + PREFIX_SIZE + size;
    }

    method Next(from: nat, filter: Option<nat>) returns (found: Option<StoredRecord>)
      requires Valid()
      ensures found == FirstMatch(records, from, filter)
    {
      var offset := 0;
      ghost var n := 0;
      AllUsed();
      while offset + PREFIX_SIZE <= used
        invariant n <= |records| && offset == TotalFootprint(layout, records[..n]) <= used
        invariant FirstMatch(records, from, filter) == FirstMatch(records[n..], from, filter)
        decreases used - offset
      {
        AtEnd(n);
        var r, next := EntryAt(offset, n);
        assert records[n..][1..] == records[n + 1..];
        if Matches(r, from, filter) {
          return Some(r);
        }
        offset := next;
        n := n + 1;
      }
      AtEnd(n);
      found := None;
    }

    method Latest(filter: Option<nat>) returns (found: Option<StoredRecord>)
      requires Valid()
      ensures found == LastMatch(records, filter)
    {
      var offset := 0;
      ghost var n := 0;
      found := None;
      AllUsed();
      while offset + PREFIX_SIZE <= used
        invariant n <= |records| && offset == TotalFootprint(layout, records[..n]) <= used
        invariant found == LastMatch(records[..n], filter)
        decreases used - offset
      {
        AtEnd(n);
        var r, next := EntryAt(offset, n);
        assert records[..n + 1][..n] == records[..n];
        if Matches(r, 0, filter) {
          found := Some(r);
        }
        offset := next;
        n := n + 1;
      }
      AtEnd(n);
      assert records[..n] == records;
    }

    lemma AllUsed()
      requires Valid()
      ensures TotalFootprint(layout, records[..0]) == 0 <= used
    {
    }

    /** A record boundary is the end of the log exactly when fewer than two bytes remain. */
    lemma AtEnd(n: nat)
      requires Valid() && n <= |records|
      ensures TotalFootprint(layout, records[..n]) + PREFIX_SIZE <= used <==> n < |records|
    {
      PackAllSplit(layout, records, n);
      assert |PackAll(layout, records[n..])| == used - TotalFootprint(layout, records[..n]);
      if n < |records| {
        assert records[n..] != [];
      }
    }
  }
}
