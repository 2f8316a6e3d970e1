/** The Codec 8 / 8E packet encoder. */
module Encode {
  import opened Bytes
  import opened Crc16
  import opened Walk
  import opened Extract
  import opened Parse
  import opened Options

  /** A record to encode; coordinates are in units of 1e-7 degree, `io` lists the map's entries in order. */
  datatype Encodable = Encodable(
    tsMs: int, priority: int, lon: int, lat: int, altitude: int, angle: int, satellites: int,
    speed: int, eventIoId: int, io: seq<(nat, IoValue)>)

  /** The group a number belongs to; 0 for one that has none. */
  function ValueSize(v: int): nat {
    if v < 0 then 0
    else if v <= 0xFF then 1
    else if v <= 0xFFFF then 2
    else if v <= 0xFFFF_FFFF then 4
    else if v <= 0xFFFF_FFFF_FFFF_FFFF then 8
    else 0
  }

  /** The entry can be carried at all. */
  predicate EntryFits(e: (nat, IoValue), extended: bool) {
    && e.0 <= (if extended then 0xFFFF else 0xFF)
    && match e.1
       case Num(v) => ValueSize(v) != 0
       case Raw(buf) => extended && |buf| <= 0xFFFF
  }

  predicate HeadFits(r: Encodable) {
    && 0 <= r.tsMs < 0x1_0000_0000_0000_0000 && 0 <= r.priority <= 2
    && -0x8000_0000 <= r.lon < 0x8000_0000 && -0x8000_0000 <= r.lat < 0x8000_0000
    && -0x8000 <= r.altitude < 0x8000 && 0 <= r.angle < 0x1_0000
    && 0 <= r.satellites < 0x100 && 0 <= r.speed < 0x1_0000
  }

  /** Exactly the records the encoder does not throw on (the io of a map has distinct ids). */
  predicate Fits(r: Encodable, extended: bool) {
    var limit := if extended then 0xFFFF else 0xFF;
    && HeadFits(r) && 0 <= r.eventIoId <= limit && |r.io| <= limit
    && forall i :: 0 <= i < |r.io| ==> EntryFits(r.io[i], extended)
  }

  // ----- bytes of the parts -----

  function Head(r: Encodable): (s: seq<byte>)
    requires HeadFits(r)
    ensures |s| == HEAD
  {
    W64(r.tsMs) + [r.priority] + W32(Unsigned(r.lon, 0x1_0000_0000)) + W32(Unsigned(r.lat, 0x1_0000_0000))
    + W16(Unsigned(r.altitude, 0x1_0000)) + W16(r.angle) + [r.satellites] + W16(r.speed)
  }

  /** writeId: ids and counts take one byte, or two when extended. */
  function Id(id: nat, extended: bool): (s: seq<byte>)
    requires id <= if extended then 0xFFFF else 0xFF
    ensures |s| == if extended then 2 else 1
    ensures Width(s, |s|) == id
  {
    if extended then W16(id) else [id]
  }

  function Fixed(v: nat, size: nat): (s: seq<byte>)
    requires ValueSize(v) == size != 0
    ensures |s| == size
  {
    if size == 1 then [v] else if size == 2 then W16(v) else if size == 4 then W32(v) else W64(v)
  }

  /** The numbers of one group, in order. */
  function Group(io: seq<(nat, IoValue)>, size: nat): seq<(nat, IoValue)> {
    if io == [] then []
    else Pick(io[0], size) + Group(io[1..], size)
  }

  function Pick(e: (nat, IoValue), size: nat): seq<(nat, IoValue)> {
    if e.1.Num? && ValueSize(e.1.n) == size then [e] else []
  }

  /** The variable-length values, in order. */
  function NxGroup(io: seq<(nat, IoValue)>): seq<(nat, seq<byte>)> {
    if io == [] then []
    else PickNx(io[0]) + NxGroup(io[1..])
  }

  function PickNx(e: (nat, IoValue)): seq<(nat, seq<byte>)> {
    if e.1.Raw? then [(e.0, e.1.bytes)] else []
  }

  predicate GroupFits(items: seq<(nat, IoValue)>, size: nat, extended: bool) {
    && size != 0 && |items| <= (if extended then 0xFFFF else 0xFF)
    && forall i :: 0 <= i < |items| ==> EntryFits(items[i], extended) && items[i].1.Num? && ValueSize(items[i].1.n) == size
  }

  function Elements(items: seq<(nat, IoValue)>, size: nat, extended: bool): seq<byte>
    requires GroupFits(items, size, extended)
  {
    if items == [] then []
    else Id(items[0].0, extended) + Fixed(items[0].1.n, size) + Elements(items[1..], size, extended)
  }

  function GroupBytes(items: seq<(nat, IoValue)>, size: nat, extended: bool): seq<byte>
    requires GroupFits(items, size, extended)
  {
    Id(|items|, extended) + Elements(items, size, extended)
  }

  predicate NxFits(items: seq<(nat, seq<byte>)>) {
    |items| <= 0xFFFF && forall i :: 0 <= i < |items| ==> items[i].0 <= 0xFFFF && |items[i].1| <= 0xFFFF
  }

  function NxElements(items: seq<(nat, seq<byte>)>): seq<byte>
    requires NxFits(items)
  {
    if items == [] then []
    else W16(items[0].0) + W16(|items[0].1|) + items[0].1 + NxElements(items[1..])
  }

  function NxBytes(items: seq<(nat, seq<byte>)>): seq<byte>
    requires NxFits(items)
  {
    W16(|items|) + NxElements(items)
  }

  // ----- records -----

  lemma {:induction false} GroupsFit(io: seq<(nat, IoValue)>, size: nat, extended: bool)
    requires size != 0 && |io| <= if extended then 0xFFFF else 0xFF
    requires forall i :: 0 <= i < |io| ==> EntryFits(io[i], extended)
    ensures GroupFits(Group(io, size), size, extended) && |Group(io, size)| <= |io|
  {
    if io != [] {
      GroupsFit(io[1..], size, extended);
    }
  }

  lemma {:induction false} NxGroupFits(io: seq<(nat, IoValue)>, extended: bool)
    requires |io| <= 0xFFFF && forall i :: 0 <= i < |io| ==> EntryFits(io[i], extended)
    ensures NxFits(NxGroup(io)) && |NxGroup(io)| <= |io|
    ensures !extended ==> NxGroup(io) == []
  {
    if io != [] {
      assert EntryFits(io[0], extended);
      NxGroupFits(io[1..], extended);
    }
  }

  /** Every entry is in exactly one group. */
  lemma {:induction false} GroupsPartition(io: seq<(nat, IoValue)>, extended: bool)
    requires forall i :: 0 <= i < |io| ==> EntryFits(io[i], extended)
    ensures |Group(io, 1)| + |Group(io, 2)| + |Group(io, 4)| + |Group(io, 8)| + |NxGroup(io)| == |io|
  {
    if io != [] {
      assert EntryFits(io[0], extended);
      GroupsPartition(io[1..], extended);
    }
  }

  function Tail(r: Encodable, extended: bool): seq<byte>
    requires Fits(r, extended)
  {
    if extended then NxGroupFits(r.io, extended); NxBytes(NxGroup(r.io)) else []
  }

  function GroupOf(r: Encodable, size: nat, extended: bool): seq<byte>
    requires Fits(r, extended) && size != 0
  {
    GroupsFit(r.io, size, extended);
    GroupBytes(Group(r.io, size), size, extended)
  }

  function EncodedRecord(r: Encodable, extended: bool): seq<byte>
    requires Fits(r, extended)
  {
    Head(r) + Id(r.eventIoId, extended) + Id(|r.io|, extended)
    + (GroupOf(r, 1, extended) + (GroupOf(r, 2, extended)
    + (GroupOf(r, 4, extended) + (GroupOf(r, 8, extended) + Tail(r, extended)))))
  }

  datatype Groups = Groups(
    g1: seq<(nat, IoValue)>, g2: seq<(nat, IoValue)>, g4: seq<(nat, IoValue)>, g8: seq<(nat, IoValue)>,
    nx: seq<(nat, seq<byte>)>)

  /** What is collected so far and what the rest will still contribute make up the whole group. */
  ghost predicate Collected(g: seq<(nat, IoValue)>, io: seq<(nat, IoValue)>, i: nat, size: nat)
    requires i <= |io|
  {
    g + Group(io[i..], size) == Group(io, size)
  }

  ghost predicate CollectedNx(nx: seq<(nat, seq<byte>)>, io: seq<(nat, IoValue)>, i: nat)
    requires i <= |io|
  {
    nx + NxGroup(io[i..]) == NxGroup(io)
  }

  lemma CollectedStep(g: seq<(nat, IoValue)>, io: seq<(nat, IoValue)>, i: nat, size: nat)
    requires i < |io| && Collected(g, io, i, size)
    ensures Collected(g + Pick(io[i], size), io, i + 1, size)
  {
    assert io[i..][1..] == io[i + 1..];
    assert g + (Pick(io[i], size) + Group(io[i + 1..], size)) == (g + Pick(io[i], size)) + Group(io[i + 1..], size);
  }

  lemma CollectedNxStep(nx: seq<(nat, seq<byte>)>, io: seq<(nat, IoValue)>, i: nat)
    requires i < |io| && CollectedNx(nx, io, i)
    ensures CollectedNx(nx + PickNx(io[i]), io, i + 1)
  {
    assert io[i..][1..] == io[i + 1..];
    assert nx + (PickNx(io[i]) + NxGroup(io[i + 1..])) == (nx + PickNx(io[i])) + NxGroup(io[i + 1..]);
  }

  lemma CollectedEnds(io: seq<(nat, IoValue)>)
    ensures forall size :: Collected([], io, 0, size)
    ensures CollectedNx([], io, 0)
    ensures forall g, size :: Collected(g, io, |io|, size) ==> g == Group(io, size)
    ensures forall nx :: CollectedNx(nx, io, |io|) ==> nx == NxGroup(io)
  {
    assert io[0..] == io && io[|io|..] == [];
  }

  /** The loop that sorts the io entries into their groups; `None` is a throw. */
  method SortEntries(io: seq<(nat, IoValue)>, extended: bool) returns (r: Option<Groups>)
    ensures r.Some? <==> forall i :: 0 <= i < |io| ==> EntryFits(io[i], extended)
    ensures r.Some? ==>
      r.value == Groups(Group(io, 1), Group(io, 2), Group(io, 4), Group(io, 8), NxGroup(io))
  {
    hide Collected, CollectedNx, Group, NxGroup;
    var g1, g2, g4, g8 := [], [], [], [];
    var nx := [];
    CollectedEnds(io);
    for i := 0 to |io|
      invariant forall k :: 0 <= k < i ==> EntryFits(io[k], extended)
      invariant Collected(g1, io, i, 1) && Collected(g2, io, i, 2)
      invariant Collected(g4, io, i, 4) && Collected(g8, io, i, 8) && CollectedNx(nx, io, i)
    {
      if !EntryFits(io[i], extended) { return None; }
      CollectedStep(g1, io, i, 1);
      CollectedStep(g2, io, i, 2);
      CollectedStep(g4, io, i, 4);
      CollectedStep(g8, io, i, 8);
      CollectedNxStep(nx, io, i);
      assert g1 + [] == g1 && g2 + [] == g2 && g4 + [] == g4 && g8 + [] == g8 && nx + [] == nx;
      match io[i].1 {
        case Raw(buf) => nx := nx + [(io[i].0, buf)];
        case Num(v) =>
          var size := ValueSize(v);
          if size == 1 { g1 := g1 + [io[i]]; }
          else if size == 2 { g2 := g2 + [io[i]]; }
          else if size == 4 { g4 := g4 + [io[i]]; }
          else { g8 := g8 + [io[i]]; }
      }
    }
    r := Some(Groups(g1, g2, g4, g8, nx));
  }

  lemma ElementsStep(items: seq<(nat, IoValue)>, i: nat, size: nat, extended: bool)
    requires GroupFits(items, size, extended) && i < |items|
    ensures GroupFits(items[i..], size, extended) && GroupFits(items[i + 1..], size, extended)
    ensures EntryFits(items[i], extended) && items[i].1.Num? && ValueSize(items[i].1.n) == size != 0
    ensures items[i].0 <= if extended then 0xFFFF else 0xFF
    ensures Elements(items[i..], size, extended) ==
            Id(items[i].0, extended) + Fixed(items[i].1.n, size) + Elements(items[i + 1..], size, extended)
  {
    assert items[i..][1..] == items[i + 1..];
  }

  method WriteGroup(items: seq<(nat, IoValue)>, size: nat, extended: bool) returns (out: seq<byte>)
    requires GroupFits(items, size, extended)
    ensures out == GroupBytes(items, size, extended)
  {
    out := Id(|items|, extended);
    assert items[0..] == items;
    assert GroupBytes(items, size, extended) == out + Elements(items[0..], size, extended);
    hide GroupBytes, Elements, GroupFits, Id, Fixed, EntryFits, ValueSize;
    for i := 0 to |items|
      invariant GroupFits(items[i..], size, extended)
      invariant out + Elements(items[i..], size, extended) == GroupBytes(items, size, extended)
    {
      ElementsStep(items, i, size, extended);
      var id, value := Id(items[i].0, extended), Fixed(items[i].1.n, size);
      Regroup(out, id, value, Elements(items[i + 1..], size, extended));
      out := out + id + value;
    }
    assert items[|items|..] == [];
    NoElements(size, extended);
  }

  lemma Regroup(a: seq<byte>, b: seq<byte>, c: seq<byte>, d: seq<byte>)
    ensures a + (b + c + d) == a + b + c + d
  {
  }

  lemma NoElements(size: nat, extended: bool)
    requires GroupFits([], size, extended)
    ensures Elements([], size, extended) == []
  {
  }

  method WriteNx(items: seq<(nat, seq<byte>)>) returns (out: seq<byte>)
    requires NxFits(items)
    ensures out == NxBytes(items)
  {
    out := W16(|items|);
    for i := 0 to |items|
      invariant NxFits(items[i..])
      invariant out + NxElements(items[i..]) == NxBytes(items)
    {
      assert items[i..][1..] == items[i + 1..];
      out := out + W16(items[i].0) + W16(|items[i].1|) + items[i].1;
    }
  }

  method EncodeRecord(r: Encodable, extended: bool) returns (out: Option<seq<byte>>)
    ensures out == if Fits(r, extended) then Some(EncodedRecord(r, extended)) else None
  {
    hide Group, NxGroup, GroupBytes, NxBytes, Elements, NxElements, GroupFits, Head, Id;
    var limit := if extended then 0xFFFF else 0xFF;
    if !HeadFits(r) { return None; }
    var sorted := SortEntries(r.io, extended);
    if sorted.None? || !(0 <= r.eventIoId <= limit) || |r.io| > limit { return None; }
    var g := sorted.value;
    GroupsFit(r.io, 1, extended);
    GroupsFit(r.io, 2, extended);
    GroupsFit(r.io, 4, extended);
    GroupsFit(r.io, 8, extended);
    NxGroupFits(r.io, extended);
    GroupsPartition(r.io, extended);
    var total := |g.g1| + |g.g2| + |g.g4| + |g.g8| + |g.nx|;
    var b1 := WriteGroup(g.g1, 1, extended);
    var b2 := WriteGroup(g.g2, 2, extended);
    var b4 := WriteGroup(g.g4, 4, extended);
    var b8 := WriteGroup(g.g8, 8, extended);
    var tail := [];
    if extended {
      tail := WriteNx(g.nx);
    }
    out := Some(Head(r) + Id(r.eventIoId, extended) + Id(total, extended) + (b1 + (b2 + (b4 + (b8 + tail)))));
  }

  // ----- packets -----

  predicate PacketFits(records: seq<Encodable>, extended: bool) {
    |records| <= 0xFF && forall i :: 0 <= i < |records| ==> Fits(records[i], extended)
  }

  function EncodedRecords(records: seq<Encodable>, extended: bool): (out: seq<seq<byte>>)
    requires PacketFits(records, extended)
    ensures |out| == |records|
  {
    seq(|records|, i requires 0 <= i < |records| => EncodedRecord(records[i], extended))
  }

  /** Codec id, record count, records, record count. */
  function PacketData(records: seq<Encodable>, extended: bool): seq<byte>
    requires PacketFits(records, extended)
  {
    [if extended then 0x8E else 0x08, |records|] + Concat(EncodedRecords(records, extended)) + [|records|]
  }

  /** Preamble, length, data, CRC. */
  function WrapData(data: seq<byte>): seq<byte>
    requires |data| < 0x1_0000_0000
  {
    W32(0) + W32(|data|) + data + W32(Crc(data))
  }

  function EncodedPacket(records: seq<Encodable>, extended: bool): seq<byte>
    requires PacketFits(records, extended) && |PacketData(records, extended)| < 0x1_0000_0000
  {
    WrapData(PacketData(records, extended))
  }
}
