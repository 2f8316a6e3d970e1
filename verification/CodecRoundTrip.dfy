/** What the encoder writes, the framer, the walker and the parser read back. */
module CodecRoundTrip {
  import opened Bytes
  import opened Crc16
  import opened Framer
  import opened Walk
  import opened Extract
  import opened Parse
  import opened Encode
  import opened Options

  function Shape(extended: bool): (shape: RecordShape)
    ensures shape.Valid()
  {
    if extended then SHAPE_8E else SHAPE_8
  }

  // ----- an encoded record is one record of the walker -----

  lemma {:induction false} ElementsLength(items: seq<(nat, IoValue)>, size: nat, extended: bool)
    requires GroupFits(items, size, extended)
    ensures |Elements(items, size, extended)| == |items| * (Shape(extended).idSize + size)
  {
    if items != [] {
      hide GroupFits, EntryFits, Id, Fixed;
      ElementsStep(items, 0, size, extended);
      assert items[0..] == items;
      ElementsLength(items[1..], size, extended);
      OneMore(|items|, Shape(extended).idSize + size);
    }
  }

  lemma OneMore(n: nat, k: nat)
    requires n > 0
    ensures n * k == k + (n - 1) * k
  {
  }

  lemma WidthOfId(n: nat, rest: seq<byte>, extended: bool)
    requires n <= if extended then 0xFFFF else 0xFF
    ensures Width(Id(n, extended) + rest, Shape(extended).countSize) == n
  {
    SameWidth(Id(n, extended), Id(n, extended) + rest, Shape(extended).countSize);
  }

  lemma GroupRead(items: seq<(nat, IoValue)>, size: nat, extended: bool, rest: seq<byte>, sizes: seq<nat>)
    requires GroupFits(items, size, extended) && sizes != [] && sizes[0] == size
    ensures SkipGroups(GroupBytes(items, size, extended) + rest, Shape(extended), sizes) ==
            SkipGroups(rest, Shape(extended), sizes[1..]).Plus(|items|)
  {
    hide Elements, Id, Width;
    var shape := Shape(extended);
    var b := GroupBytes(items, size, extended);
    var s := b + rest;
    ElementsLength(items, size, extended);
    assert s == Id(|items|, extended) + (Elements(items, size, extended) + rest);
    WidthOfId(|items|, Elements(items, size, extended) + rest, extended);
    assert |b| == GroupLength(s, shape, size);
    assert s[|b|..] == rest;
  }

  lemma NxElementsStep(items: seq<(nat, seq<byte>)>, rest: seq<byte>)
    requires NxFits(items) && items != []
    ensures NxFits(items[1..])
    ensures NxElements(items) + rest == NxElement(items[0].0, items[0].1, NxElements(items[1..]) + rest)
  {
  }

  lemma {:induction false} NxRead(items: seq<(nat, seq<byte>)>, rest: seq<byte>)
    requires NxFits(items)
    ensures SkipNx(NxElements(items) + rest, |items|) == At(rest, |items|)
    ensures NxItems(NxElements(items) + rest, |items|) == Scan.Items(items, rest)
  {
    if items == [] {
      assert NxElements(items) + rest == rest;
    } else {
      hide SkipNx, NxItems, NxElements;
      NxReadStep(items, rest);
      NxRead(items[1..], rest);
      assert [items[0]] + items[1..] == items;
    }
  }

  lemma NxReadStep(items: seq<(nat, seq<byte>)>, rest: seq<byte>)
    requires NxFits(items) && items != []
    ensures NxFits(items[1..])
    ensures var s, more := NxElements(items) + rest, NxElements(items[1..]) + rest;
      && SkipNx(s, |items|) == SkipNx(more, |items| - 1).Plus(1)
      && NxItems(s, |items|) == After([items[0]], NxItems(more, |items| - 1))
  {
    hide NxElements, NxElement, U16;
    NxElementsStep(items, rest);
    NxElementRead(items[0].0, items[0].1, NxElements(items[1..]) + rest);
  }

  function NxElement(id: nat, buf: seq<byte>, more: seq<byte>): seq<byte>
    requires id <= 0xFFFF && |buf| <= 0xFFFF
  {
    W16(id) + W16(|buf|) + buf + more
  }

  lemma NxElementRead(id: nat, buf: seq<byte>, more: seq<byte>)
    requires id <= 0xFFFF && |buf| <= 0xFFFF
    ensures var s := NxElement(id, buf, more);
      && |s| >= 4 + |buf| && U16(s, 0) == id && U16(s, 2) == |buf|
      && s[4..4 + |buf|] == buf && s[4 + |buf|..] == more
  {
    hide W16;
    var s := NxElement(id, buf, more);
    assert s[0..2] == W16(id) && s[2..4] == W16(|buf|);
    SliceReads(s, 0, 2);
    SliceReads(s, 2, 4);
  }

  /** The element part of an encoded record. */
  function ElementBytes(r: Encodable, extended: bool): seq<byte>
    requires Fits(r, extended)
  {
    GroupOf(r, 1, extended) + (GroupOf(r, 2, extended)
    + (GroupOf(r, 4, extended) + (GroupOf(r, 8, extended) + Tail(r, extended))))
  }

  function FixedCount(r: Encodable, extended: bool): nat
    requires Fits(r, extended)
  {
    NxGroupFits(r.io, extended);
    |r.io| - |NxGroup(r.io)|
  }

  lemma FixedGroupsRead(r: Encodable, extended: bool)
    requires Fits(r, extended)
    ensures SkipGroups(ElementBytes(r, extended), Shape(extended), VALUE_SIZES) ==
            At(Tail(r, extended), FixedCount(r, extended))
  {
    hide GroupBytes, SkipGroups, Group, NxGroup;
    var io, shape := r.io, Shape(extended);
    GroupsFit(io, 1, extended);
    GroupsFit(io, 2, extended);
    GroupsFit(io, 4, extended);
    GroupsFit(io, 8, extended);
    var t8 := GroupOf(r, 8, extended) + Tail(r, extended);
    var t4 := GroupOf(r, 4, extended) + t8;
    var t2 := GroupOf(r, 2, extended) + t4;
    GroupRead(Group(io, 1), 1, extended, t2, [1, 2, 4, 8]);
    GroupRead(Group(io, 2), 2, extended, t4, [2, 4, 8]);
    GroupRead(Group(io, 4), 4, extended, t8, [4, 8]);
    GroupRead(Group(io, 8), 8, extended, Tail(r, extended), [8]);
    NoGroups(Tail(r, extended), shape);
    assert [1, 2, 4, 8][1..] == [2, 4, 8] && [2, 4, 8][1..] == [4, 8] && [4, 8][1..] == [8] && [8][1..] == [];
    GroupsPartition(io, extended);
  }

  lemma TailRead(r: Encodable, extended: bool)
    requires Fits(r, extended)
    ensures SkipNxGroup(Tail(r, extended), Shape(extended)) == At([], |NxGroup(r.io)|)
    ensures extended ==> |Tail(r, extended)| >= 2 && U16(Tail(r, extended), 0) == |NxGroup(r.io)|
    ensures extended ==> NxItems(Tail(r, extended)[2..], |NxGroup(r.io)|) == Scan.Items(NxGroup(r.io), [])
  {
    NxGroupFits(r.io, extended);
    if extended {
      var items := NxGroup(r.io);
      var t := Tail(r, extended);
      NxRead(items, []);
      assert NxElements(items) + [] == NxElements(items);
      assert t[..2] == W16(|items|) && t[2..] == NxElements(items);
      SliceReads(t, 0, 2);
    }
  }

  lemma EncodedRecordParts(r: Encodable, extended: bool)
    requires Fits(r, extended)
    ensures var s, o := EncodedRecord(r, extended), CountOffset(Shape(extended));
      var w := Shape(extended).countSize;
      && |s| >= o + w && s[..HEAD] == Head(r) && s[HEAD..o] == Id(r.eventIoId, extended)
      && s[o..o + w] == Id(|r.io|, extended) && s[o + w..] == ElementBytes(r, extended)
  {
    hide Head, Id, GroupOf, Tail;
  }

  lemma EncodedRecordIsRecord(r: Encodable, extended: bool)
    requires Fits(r, extended)
    ensures IsRecord(EncodedRecord(r, extended), Shape(extended))
  {
    hide EncodedRecord, ElementBytes, SkipGroups, SkipNxGroup, Tail, Width, Id, NxGroup;
    var s, shape := EncodedRecord(r, extended), Shape(extended);
    var o, w := CountOffset(shape), shape.countSize;
    EncodedRecordParts(r, extended);
    FixedGroupsRead(r, extended);
    TailRead(r, extended);
    assert s[o..] == Id(|r.io|, extended) + s[o + w..];
    WidthOfId(|r.io|, s[o + w..], extended);
    NxGroupFits(r.io, extended);
  }

  // ----- header fields -----

  /** Every header field of a buffer that starts with an encoded head. */
  lemma HeadRead(r: Encodable, s: seq<byte>)
    requires HeadFits(r) && |s| >= HEAD && s[..HEAD] == Head(r)
    ensures U64(s, 0) == r.tsMs && s[8] == r.priority
    ensures Signed(U32(s, 9), 0x1_0000_0000) == r.lon && Signed(U32(s, 13), 0x1_0000_0000) == r.lat
    ensures Signed(U16(s, 17), 0x1_0000) == r.altitude && U16(s, 19) == r.angle
    ensures s[21] == r.satellites && U16(s, 22) == r.speed
  {
    var h := Head(r);
    HeadFields(r);
    assert h[8] == s[8] && h[21] == s[21];
    Aligned(s, h, 0, 4);
    Aligned(s, h, 4, 8);
    Aligned(s, h, 9, 13);
    Aligned(s, h, 13, 17);
    Aligned(s, h, 17, 19);
    Aligned(s, h, 19, 21);
    Aligned(s, h, 22, 24);
    var ts := W64(r.tsMs);
    assert ts == h[0..8];
    Aligned(ts, h, 0, 4);
    Aligned(ts, h, 4, 8);
  }

  /** Equal bytes at equal offsets read as equal fields. */
  lemma Aligned(s: seq<byte>, t: seq<byte>, lo: nat, hi: nat)
    requires lo <= hi <= |s| && hi <= |t|
    requires forall k :: lo <= k < hi ==> s[k] == t[k]
    ensures hi == lo + 2 ==> U16(s, lo) == U16(t, lo)
    ensures hi == lo + 4 ==> U32(s, lo) == U32(t, lo)
  {
  }

  lemma HeadFields(r: Encodable)
    requires HeadFits(r)
    ensures var h := Head(r);
      && h[0..8] == W64(r.tsMs) && h[8] == r.priority
      && U32(h, 9) == Unsigned(r.lon, 0x1_0000_0000) && U32(h, 13) == Unsigned(r.lat, 0x1_0000_0000)
      && U16(h, 17) == Unsigned(r.altitude, 0x1_0000) && U16(h, 19) == r.angle
      && h[21] == r.satellites && U16(h, 22) == r.speed
  {
    hide W64, W32, W16, Unsigned;
    var h := Head(r);
    assert h[9..13] == W32(Unsigned(r.lon, 0x1_0000_0000)) && h[13..17] == W32(Unsigned(r.lat, 0x1_0000_0000));
    assert h[17..19] == W16(Unsigned(r.altitude, 0x1_0000)) && h[19..21] == W16(r.angle) && h[22..24] == W16(r.speed);
    SliceReads(h, 9, 13);
    SliceReads(h, 13, 17);
    SliceReads(h, 17, 19);
    SliceReads(h, 19, 21);
    SliceReads(h, 22, 24);
  }

  // ----- one record through the parser -----

  /** The NX entries of a record, as the map the application handed in. */
  function NxMap(r: Encodable): map<nat, seq<byte>> {
    ToMap(NxGroup(r.io))
  }

  lemma NxReadBack(r: Encodable)
    requires Fits(r, true)
    ensures Nx8e(EncodedRecord(r, true)) == Some(NxMap(r))
  {
    hide EncodedRecord, ElementBytes, SkipGroups, SkipNxGroup, Tail, NxItems, NxGroup, ToMap;
    EncodedRecordParts(r, true);
    FixedGroupsRead(r, true);
    TailRead(r, true);
  }

  /** With the ids of a map, the NX map holds exactly the variable-length entries. */
  lemma {:induction false} NxMapIsExact(io: seq<(nat, IoValue)>, id: nat, buf: seq<byte>)
    requires DistinctIds(io)
    ensures DistinctIds(NxGroup(io))
    ensures id in ToMap(NxGroup(io)) && ToMap(NxGroup(io))[id] == buf <==> (id, Raw(buf)) in io
  {
    var items := NxGroup(io);
    NxGroupMembers(io);
    ToMapKeys(items);
    if id in ToMap(items) {
      var i :| 0 <= i < |items| && items[i].0 == id;
      ToMapLookup(items, i);
      assert items[i] in items;
      if (id, Raw(buf)) in io {
        var a :| 0 <= a < |io| && io[a] == (id, Raw(buf));
        var b :| 0 <= b < |io| && io[b] == (id, Raw(items[i].1));
        assert a == b;
      }
    }
  }

  lemma {:induction false} NxGroupMembers(io: seq<(nat, IoValue)>)
    requires DistinctIds(io)
    ensures DistinctIds(NxGroup(io))
    ensures forall id, buf :: (id, buf) in NxGroup(io) <==> (id, Raw(buf)) in io
  {
    if io != [] {
      var rest := io[1..];
      assert DistinctIds(rest);
      NxGroupMembers(rest);
      assert io == [io[0]] + rest;
      assert NxGroup(io) == PickNx(io[0]) + NxGroup(rest);
      forall i, j | 0 <= i < j < |NxGroup(io)| ensures NxGroup(io)[i].0 != NxGroup(io)[j].0 {
        if io[0].1.Raw? {
          var x := NxGroup(io)[j];
          assert x == NxGroup(rest)[j - 1];
          assert (x.0, Raw(x.1)) in rest;
          if i > 0 { assert NxGroup(io)[i] == NxGroup(rest)[i - 1]; }
        }
      }
    }
  }

  lemma EventIdRead(r: Encodable, extended: bool)
    requires Fits(r, extended)
    ensures var s := EncodedRecord(r, extended);
      |s| >= HEAD + 2 && (if extended then U16(s, 24) else s[24]) == r.eventIoId
  {
    hide EncodedRecord, ElementBytes;
    EncodedRecordParts(r, extended);
    var s := EncodedRecord(r, extended);
    if extended {
      SliceReads(s, HEAD, HEAD + 2);
    } else {
      assert s[24] == s[HEAD..HEAD + 1][0];
    }
  }

  /** What the parser must report for `r`, given the wrapped parser's map for it. */
  function Expected(r: Encodable, extended: bool, io: map<nat, LibValue>): RecordResult
    requires Fits(r, extended)
  {
    var merged := if extended then io + Buffers(NxMap(r)) else io;
    if !(forall id :: id in merged ==> merged[id].Value?) then RecFailed(FrameError)
    else Rec(ReadBack(r, extended, Values(merged)))
  }

  function ReadBack(r: Encodable, extended: bool, io: map<nat, IoValue>): AvlRecord
    requires Fits(r, extended)
  {
    AvlRecord(r.tsMs, r.priority, r.lon, r.lat, r.altitude, r.angle, r.satellites, r.speed, r.eventIoId,
              None, io, EncodedRecord(r, extended))
  }

  lemma FieldsRoundTrip(r: Encodable, extended: bool, io: map<nat, IoValue>)
    requires Fits(r, extended)
    ensures var s := EncodedRecord(r, extended);
      |s| >= HEAD + 2 && s[8] <= 2 && RecordFrom(s, CodecId(extended), io) == ReadBack(r, extended, io)
  {
    FitsHead(r, extended);
    hide EncodedRecord, U64, U32, U16, Signed, Fits, Head;
    EncodedRecordParts(r, extended);
    HeadRead(r, EncodedRecord(r, extended));
    EventIdRead(r, extended);
  }

  function CodecId(extended: bool): byte {
    if extended then 0x8E else 0x08
  }

  lemma FitsHead(r: Encodable, extended: bool)
    requires Fits(r, extended)
    ensures HeadFits(r) && 0 <= r.priority <= 2
  {
  }

  lemma RecordRoundTrip(r: Encodable, extended: bool, io: map<nat, LibValue>)
    requires Fits(r, extended)
    ensures ParseRecord(EncodedRecord(r, extended), CodecId(extended), io) == Expected(r, extended, io)
  {
    hide EncodedRecord, NxMap, Nx8e, Fits, Buffers, Values, RecordFrom, ReadBack;
    FieldsRoundTrip(r, extended, map[]);
    var merged := if extended then io + Buffers(NxMap(r)) else io;
    if forall id :: id in merged ==> merged[id].Value? {
      FieldsRoundTrip(r, extended, Values(merged));
    }
    if extended {
      NxReadBack(r);
    }
  }

  // ----- whole packets -----

  lemma WrapRead(data: seq<byte>)
    requires |data| < 0x1_0000_0000
    ensures var p, n := WrapData(data), |data|;
      && |p| == n + 12 && U32(p, 0) == 0 && U32(p, 4) == n
      && p[8..8 + n] == data && U32(p, 8 + n) == Crc(data)
  {
    hide W32, Crc, U32;
    var p, n := WrapData(data), |data|;
    assert p[0..4] == W32(0) && p[4..8] == W32(n) && p[8 + n..12 + n] == W32(Crc(data));
    SliceReads(p, 0, 4);
    SliceReads(p, 4, 8);
    SliceReads(p, 8 + n, 12 + n);
  }

  /** A wrapped data field leaves the framer as exactly one frame and nothing else. */
  lemma WrapFramed(data: seq<byte>, maxDataLength: nat)
    requires 1 <= |data| <= maxDataLength && |data| < 0x1_0000_0000
    ensures Drain(WrapData(data), maxDataLength) == Drained([Frame(Avl, WrapData(data))], [], false)
  {
    hide WrapData, U32;
    var p := WrapData(data);
    WrapRead(data);
    assert p[..|p|] == p && p[|p|..] == [];
    assert TryExtract(p, maxDataLength) == Extracted(Frame(Avl, p), []);
  }

  function ExpectedRecords(records: seq<Encodable>, extended: bool, maps: seq<map<nat, LibValue>>): RecordsResult
    requires |maps| == |records| && PacketFits(records, extended)
  {
    if records == [] then Recs([])
    else
      match Expected(records[0], extended, maps[0])
      case RecFailed(o) => RecsFailed(o)
      case Rec(record) =>
        match ExpectedRecords(records[1..], extended, maps[1..])
        case RecsFailed(o) => RecsFailed(o)
        case Recs(more) => Recs([record] + more)
  }

  lemma {:induction false} RecordsRoundTrip(records: seq<Encodable>, extended: bool, maps: seq<map<nat, LibValue>>)
    requires |maps| == |records| && PacketFits(records, extended)
    ensures ParseRecords(EncodedRecords(records, extended), CodecId(extended), maps) ==
            ExpectedRecords(records, extended, maps)
  {
    hide ParseRecord, Expected, EncodedRecord, Fits;
    if records != [] {
      RecordRoundTrip(records[0], extended, maps[0]);
      RecordsRoundTrip(records[1..], extended, maps[1..]);
      assert EncodedRecords(records, extended)[1..] == EncodedRecords(records[1..], extended);
    }
  }

  lemma BodySplits(records: seq<Encodable>, extended: bool)
    requires PacketFits(records, extended)
    ensures Split(Concat(EncodedRecords(records, extended)), Shape(extended)) == Some(EncodedRecords(records, extended))
  {
    hide IsRecord, Split, Concat, EncodedRecord, Fits;
    var raws := EncodedRecords(records, extended);
    forall raw | raw in raws ensures IsRecord(raw, Shape(extended)) {
      var i :| 0 <= i < |raws| && raws[i] == raw;
      EncodedRecordIsRecord(records[i], extended);
    }
    SplitIsUnique(Concat(raws), Shape(extended), raws);
  }

  function ExpectedOutcome(lib: Lib, records: seq<Encodable>, extended: bool): Outcome
    requires PacketFits(records, extended) && |PacketData(records, extended)| < 0x1_0000_0000
  {
    var codec := if extended then 0x8E else 8;
    if records == [] then Parsed(AvlPacket(codec, []))
    else
      match DecodeIoWithLib(lib, EncodedPacket(records, extended), |records|)
      case IoFailed(o) => o
      case IoMaps(maps) =>
        if |maps| != |records| then FrameError
        else
          match ExpectedRecords(records, extended, maps)
          case RecsFailed(o) => o
          case Recs(parsed) => Parsed(AvlPacket(codec, parsed))
  }

  lemma PacketDataParts(records: seq<Encodable>, extended: bool)
    requires PacketFits(records, extended)
    ensures var d := PacketData(records, extended);
      && |d| >= 3 && d[0] == CodecId(extended) && d[1] == |records| && d[|d| - 1] == |records|
      && d[2..|d| - 1] == Concat(EncodedRecords(records, extended))
  {
    hide Concat, EncodedRecords;
  }

  /**
   * Encoding then framing then parsing. The framer yields the packet as one frame; its length, CRC
   * and both counts pass; the walker cuts it into the encodings of the single records; and every
   * field the codec reads itself comes back as it went in. Only the wrapped parser's own verdict is
   * left open, and it can only surface as itself.
   */
  lemma PacketRoundTrip(lib: Lib, records: seq<Encodable>, extended: bool, maxDataLength: nat)
    requires PacketFits(records, extended)
    requires |PacketData(records, extended)| <= maxDataLength && |PacketData(records, extended)| < 0x1_0000_0000
    ensures var p := EncodedPacket(records, extended);
      && Drain(p, maxDataLength) == Drained([Frame(Avl, p)], [], false)
      && ParseFrame(lib, Frame(Avl, p)) == ExpectedOutcome(lib, records, extended)
  {
    hide PacketData, WrapData, U32, Crc, Split, ParseRecords, ExpectedRecords, EncodedRecords, DecodeIoWithLib,
      Concat, PacketFits;
    var d := PacketData(records, extended);
    var p := EncodedPacket(records, extended);
    var n := |d|;
    PacketDataParts(records, extended);
    WrapRead(d);
    WrapFramed(d, maxDataLength);
    assert p[8] == d[0] && p[9] == d[1] && p[8 + n - 1] == d[n - 1];
    assert p[10..8 + n - 1] == d[2..n - 1];
    BodySplits(records, extended);
    forall maps: seq<map<nat, LibValue>> | |maps| == |records|
      ensures ParseRecords(EncodedRecords(records, extended), CodecId(extended), maps) ==
              ExpectedRecords(records, extended, maps)
    {
      RecordsRoundTrip(records, extended, maps);
    }
  }

  lemma {:induction false} CleanRecords(records: seq<Encodable>, extended: bool, maps: seq<map<nat, LibValue>>)
    requires |maps| == |records| && PacketFits(records, extended)
    requires forall i, id :: 0 <= i < |maps| && id in maps[i] ==> maps[i][id].Value?
    ensures var e := ExpectedRecords(records, extended, maps);
      && e.Recs? && |e.records| == |records|
      && forall i :: 0 <= i < |records| ==>
           Expected(records[i], extended, maps[i]).Rec? && e.records[i] == Expected(records[i], extended, maps[i]).record
  {
    hide Expected, Fits;
    if records != [] {
      CleanRecords(records[1..], extended, maps[1..]);
      CleanRecord(records[0], extended, maps[0]);
    }
  }

  lemma CleanRecord(r: Encodable, extended: bool, io: map<nat, LibValue>)
    requires Fits(r, extended) && forall id :: id in io ==> io[id].Value?
    ensures Expected(r, extended, io).Rec?
  {
    hide Fits, EncodedRecord, NxMap;
  }

  /** If the wrapped parser decodes every record, the packet comes back record for record. */
  lemma CleanPacketRoundTrip(lib: Lib, records: seq<Encodable>, extended: bool, maxDataLength: nat)
    requires PacketFits(records, extended)
    requires |PacketData(records, extended)| <= maxDataLength && |PacketData(records, extended)| < 0x1_0000_0000
    requires var answer := lib(EncodedPacket(records, extended));
      && answer.LibRecords? && |answer.datas| == |records|
      && forall i, id :: 0 <= i < |records| && id in answer.datas[i] ==> answer.datas[i][id].Value?
    ensures var o := ParseFrame(lib, Frame(Avl, EncodedPacket(records, extended)));
      && o.Parsed? && o.packet.AvlPacket? && |o.packet.records| == |records|
      && forall i :: 0 <= i < |records| ==>
           var r, back := records[i], o.packet.records[i];
           && back.raw == EncodedRecord(r, extended)
           && back.tsMs == r.tsMs && back.priority == r.priority && back.lon == r.lon && back.lat == r.lat
           && back.altitude == r.altitude && back.angle == r.angle && back.satellites == r.satellites
           && back.speed == r.speed && back.eventIoId == r.eventIoId
           && (extended ==> forall id :: id in NxMap(r) ==> id in back.io && back.io[id] == Raw(NxMap(r)[id]))
  {
    hide ParseFrame, EncodedPacket, PacketData, PacketFits, EncodedRecord, Fits, ExpectedRecords, NxMap;
    PacketRoundTrip(lib, records, extended, maxDataLength);
    var datas := lib(EncodedPacket(records, extended)).datas;
    PacketFitsEach(records, extended);
    CleanRecords(records, extended, datas);
  }

  lemma PacketFitsEach(records: seq<Encodable>, extended: bool)
    requires PacketFits(records, extended)
    ensures forall i :: 0 <= i < |records| ==> Fits(records[i], extended)
  {
  }

  // ----- the fixed-size values on the wire -----

  /** The elements of a fixed-size group as the Codec 8 and 8E documents lay them out: id, then the value, big-endian. */
  function ReadItems(s: seq<byte>, extended: bool, size: nat, cnt: nat): Scan<nat> {
    var w := if extended then 2 else 1;
    if cnt == 0 then Scan.Items([], s)
    else if |s| < w + size then Failed
    else After([(Width(s, w), Big(s[w..w + size]))], ReadItems(s[w + size..], extended, size, cnt - 1))
  }

  /** One group per size, each behind its count. */
  function ReadGroups(s: seq<byte>, extended: bool, sizes: seq<nat>): Scan<nat>
    decreases |sizes|
  {
    var w := if extended then 2 else 1;
    if sizes == [] then Scan.Items([], s)
    else if |s| < w then Failed
    else
      match ReadItems(s[w..], extended, sizes[0], Width(s, w))
      case Failed => Failed
      case Items(items, rest) => After(items, ReadGroups(rest, extended, sizes[1..]))
  }

  /** The ids and numbers of some entries. */
  function Numbered(items: seq<(nat, IoValue)>): seq<(nat, nat)> {
    if items == [] then []
    else (if items[0].1.Num? && items[0].1.n >= 0 then [(items[0].0, items[0].1.n)] else []) + Numbered(items[1..])
  }

  lemma FixedValue(v: nat, size: nat)
    requires ValueSize(v) == size != 0
    ensures Big(Fixed(v, size)) == v
  {
    hide Big;
    BigOfFields(Fixed(v, size));
  }

  lemma ItemReadBack(id: nat, v: nat, size: nat, extended: bool, more: seq<byte>, cnt: nat)
    requires id <= (if extended then 0xFFFF else 0xFF) && ValueSize(v) == size != 0 && cnt > 0
    ensures ReadItems(Id(id, extended) + Fixed(v, size) + more, extended, size, cnt) ==
            After([(id, v)], ReadItems(more, extended, size, cnt - 1))
  {
    hide Fixed, Id, Big, Width;
    var w := if extended then 2 else 1;
    var s := Id(id, extended) + Fixed(v, size) + more;
    assert s[..w] == Id(id, extended) && s[w..w + size] == Fixed(v, size) && s[w + size..] == more;
    SameWidth(Id(id, extended), s, w) by {
      assert Id(id, extended)[..w] == Id(id, extended);
    }
    FixedValue(v, size);
  }

  lemma {:induction false} ElementsReadBack(items: seq<(nat, IoValue)>, size: nat, extended: bool, rest: seq<byte>)
    requires GroupFits(items, size, extended)
    ensures ReadItems(Elements(items, size, extended) + rest, extended, size, |items|) == Scan.Items(Numbered(items), rest)
  {
    hide Elements, EntryFits, Id, Fixed, Big, Width;
    if items == [] {
      NoElements(size, extended);
      assert [] + rest == rest;
    } else {
      hide GroupFits, ReadItems, ValueSize;
      assert items[0..] == items;
      ElementsStep(items, 0, size, extended);
      var more := Elements(items[1..], size, extended) + rest;
      assert Elements(items, size, extended) + rest == Id(items[0].0, extended) + Fixed(items[0].1.n, size) + more;
      NumberIsNat(items[0].1.n);
      ItemReadBack(items[0].0, items[0].1.n, size, extended, more, |items|);
      ElementsReadBack(items[1..], size, extended, rest);
    }
  }

  lemma NumberIsNat(v: int)
    requires ValueSize(v) != 0
    ensures v >= 0
  {
  }

  lemma GroupReadBack(items: seq<(nat, IoValue)>, size: nat, extended: bool, rest: seq<byte>, sizes: seq<nat>)
    requires GroupFits(items, size, extended) && sizes != [] && sizes[0] == size
    ensures ReadGroups(GroupBytes(items, size, extended) + rest, extended, sizes) ==
            After(Numbered(items), ReadGroups(rest, extended, sizes[1..]))
  {
    hide Elements, Id, Width, ReadItems, Numbered;
    var w := if extended then 2 else 1;
    var s := GroupBytes(items, size, extended) + rest;
    assert s == Id(|items|, extended) + (Elements(items, size, extended) + rest);
    WidthOfId(|items|, Elements(items, size, extended) + rest, extended);
    assert s[w..] == Elements(items, size, extended) + rest;
    ElementsReadBack(items, size, extended, rest);
  }

  /** Read in wire order, the fixed-size groups of an encoded record are its numbers, group by group. */
  lemma FixedGroupsReadBack(r: Encodable, extended: bool)
    requires Fits(r, extended)
    ensures var o := CountOffset(Shape(extended)) + Shape(extended).countSize;
      var s := EncodedRecord(r, extended);
      && |s| >= o
      && ReadGroups(s[o..], extended, VALUE_SIZES) ==
         Scan.Items(Numbered(Group(r.io, 1)) + (Numbered(Group(r.io, 2)) + (Numbered(Group(r.io, 4)) + Numbered(Group(r.io, 8)))),
                    Tail(r, extended))
  {
    hide GroupBytes, ReadGroups, Group, NxGroup, Numbered, EncodedRecord;
    EncodedRecordParts(r, extended);
    var io := r.io;
    GroupsFit(io, 1, extended);
    GroupsFit(io, 2, extended);
    GroupsFit(io, 4, extended);
    GroupsFit(io, 8, extended);
    var t8 := GroupOf(r, 8, extended) + Tail(r, extended);
    var t4 := GroupOf(r, 4, extended) + t8;
    var t2 := GroupOf(r, 2, extended) + t4;
    GroupReadBack(Group(io, 1), 1, extended, t2, [1, 2, 4, 8]);
    GroupReadBack(Group(io, 2), 2, extended, t4, [2, 4, 8]);
    GroupReadBack(Group(io, 4), 4, extended, t8, [4, 8]);
    GroupReadBack(Group(io, 8), 8, extended, Tail(r, extended), [8]);
    NoReadGroups(Tail(r, extended), extended);
    assert [1, 2, 4, 8][1..] == [2, 4, 8] && [2, 4, 8][1..] == [4, 8] && [4, 8][1..] == [8] && [8][1..] == [];
    assert Numbered(Group(io, 8)) + [] == Numbered(Group(io, 8));
  }

  lemma NoReadGroups(s: seq<byte>, extended: bool)
    ensures ReadGroups(s, extended, []) == Scan.Items([], s)
  {
  }

  lemma {:induction false} NumberedMembers(io: seq<(nat, IoValue)>, size: nat)
    requires size != 0
    ensures forall id, n: nat :: (id, n) in Numbered(Group(io, size)) <==> (id, Num(n)) in io && ValueSize(n) == size
  {
    if io != [] {
      NumberedMembers(io[1..], size);
      NumberedSplits(Pick(io[0], size), Group(io[1..], size));
      assert forall e :: e in io <==> e == io[0] || e in io[1..];
    }
  }

  lemma {:induction false} NumberedSplits(a: seq<(nat, IoValue)>, b: seq<(nat, IoValue)>)
    ensures Numbered(a + b) == Numbered(a) + Numbered(b)
  {
    if a == [] {
      assert a + b == b;
    } else {
      assert (a + b)[1..] == a[1..] + b;
      NumberedSplits(a[1..], b);
    }
  }

  /** Whatever the wrapped parser makes of them, the fixed-size elements on the wire are exactly the numbers that
      went in, each under its id, and what follows them is the variable-length group. */
  lemma NumbersAreOnTheWire(r: Encodable, extended: bool)
    requires Fits(r, extended)
    ensures var s, o := EncodedRecord(r, extended), CountOffset(Shape(extended)) + Shape(extended).countSize;
      && |s| >= o && ReadGroups(s[o..], extended, VALUE_SIZES).Items?
      && (var read := ReadGroups(s[o..], extended, VALUE_SIZES);
          && read.rest == Tail(r, extended)
          && forall id, n: nat :: (id, n) in read.items <==> (id, Num(n)) in r.io)
  {
    hide EncodedRecord, Tail, ReadGroups, Group, Numbered;
    FixedGroupsReadBack(r, extended);
    NumberedMembers(r.io, 1);
    NumberedMembers(r.io, 2);
    NumberedMembers(r.io, 4);
    NumberedMembers(r.io, 8);
    forall id, n: nat | (id, Num(n)) in r.io ensures ValueSize(n) in {1, 2, 4, 8} {
      var i :| 0 <= i < |r.io| && r.io[i] == (id, Num(n));
      assert EntryFits(r.io[i], extended);
    }
  }
}
