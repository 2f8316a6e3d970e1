/**
 * Parsing one complete frame. Structure and CRC are checked here; the values of the fixed-size IO
 * elements of Codec 8 and 8E come from a third-party parser, which is a parameter of the model.
 */
module Parse {
  import opened Bytes
  import opened Crc16
  import opened Framer
  import opened Walk
  import opened Extract
  import opened Options

  /** An IO value as the rest of the system sees it. */
  datatype IoValue = Num(n: int) | Raw(bytes: seq<byte>)

  /** What normalizeIoValue makes of one value of the wrapped parser: a value, `null`, or a throw. */
  datatype LibValue = Value(value: IoValue) | Null | Unsupported

  /** The wrapped parser's answer for a whole packet. */
  datatype LibAnswer = LibThrows(crc: bool) | LibRecords(datas: seq<map<nat, LibValue>>)

  type Lib = seq<byte> -> LibAnswer

  datatype AvlRecord = AvlRecord(
    tsMs: nat, priority: byte, lon: int, lat: int, altitude: int, angle: nat, satellites: byte,
    speed: nat, eventIoId: nat, generationType: Option<byte>, io: map<nat, IoValue>, raw: seq<byte>)

  datatype Packet =
    | ImeiPacket(imei: seq<byte>)
    | AvlPacket(codec: nat, records: seq<AvlRecord>)
    | CmdResponse(cmdCodec: nat, text: seq<byte>, nack: bool)

  /** How parsing ends. `Undecodable` is the FrameError that carries the declared record count;
      `RangeError` is a read past the end of a buffer. */
  datatype Outcome = Parsed(packet: Packet) | CrcError | FrameError | Undecodable(declared: nat) | RangeError

  // ----- IMEI -----

  /** `toString('ascii')` drops the high bit of every byte. */
  function Ascii(s: seq<byte>): (r: seq<byte>)
    ensures |r| == |s|
  {
    seq(|s|, i requires 0 <= i < |s| => s[i] % 128)
  }

  predicate IsImei(s: seq<byte>) {
    8 <= |s| <= 17 && forall i :: 0 <= i < |s| ==> 0x30 <= s[i] <= 0x39
  }

  // ----- AVL -----

  function ShapeOf(codecId: byte): (shape: RecordShape)
    ensures shape.Valid()
  {
    if codecId == 0x08 then SHAPE_8 else if codecId == 0x8E then SHAPE_8E else SHAPE_16
  }

  function CodecOf(codecId: byte): nat {
    if codecId == 0x08 then 8 else if codecId == 0x8E then 0x8E else 16
  }

  datatype IoMaps = IoMaps(maps: seq<map<nat, LibValue>>) | IoFailed(outcome: Outcome)

  /** decodeIoWithLib. */
  function DecodeIoWithLib(lib: Lib, bytes: seq<byte>, expected: nat): IoMaps {
    match lib(bytes)
    case LibThrows(crc) => IoFailed(if crc then CrcError else Undecodable(expected))
    case LibRecords(datas) =>
      if |datas| != expected then IoFailed(Undecodable(expected))
      else if exists i, id :: 0 <= i < |datas| && id in datas[i] && datas[i][id].Unsupported? then IoFailed(FrameError)
      else IoMaps(datas)
  }

  function Numbers(io: map<nat, nat>): map<nat, LibValue> {
    map id | id in io :: Value(Num(io[id]))
  }

  function Buffers(io: map<nat, seq<byte>>): map<nat, LibValue> {
    map id | id in io :: Value(Raw(io[id]))
  }

  /** `rawSlices.map(extractIo16)`. */
  function DecodeIo16(raws: seq<seq<byte>>): IoMaps {
    if raws == [] then IoMaps([])
    else
      match Io16(raws[0])
      case None => IoFailed(FrameError)
      case Some(io) =>
        match DecodeIo16(raws[1..])
        case IoFailed(o) => IoFailed(o)
        case IoMaps(maps) => IoMaps([Numbers(io)] + maps)
  }

  datatype RecordResult = Rec(record: AvlRecord) | RecFailed(outcome: Outcome)

  /** The IO map of a record: the NX elements of Codec 8E override the wrapped parser. */
  function MergedIo(raw: seq<byte>, codecId: byte, io: map<nat, LibValue>): Option<map<nat, LibValue>> {
    if codecId != 0x8E then Some(io)
    else
      match Nx8e(raw)
      case None => None
      case Some(nx) => Some(io + Buffers(nx))
  }

  function Values(io: map<nat, LibValue>): map<nat, IoValue>
    requires forall id :: id in io ==> io[id].Value?
  {
    map id | id in io :: io[id].value
  }

  /** The fields of a record at their fixed offsets. */
  function RecordFrom(raw: seq<byte>, codecId: byte, io: map<nat, IoValue>): AvlRecord
    requires |raw| >= HEAD + 2
  {
    AvlRecord(
      U64(raw, 0), raw[8],
      Signed(U32(raw, 9), 0x1_0000_0000), Signed(U32(raw, 13), 0x1_0000_0000),
      Signed(U16(raw, 17), 0x1_0000), U16(raw, 19), raw[21], U16(raw, 22),
      if codecId == 0x08 then raw[24] else U16(raw, 24),
      if codecId == 0x10 then GenerationTypeOf(raw) else None,
      io, raw)
  }

  function ParseRecord(raw: seq<byte>, codecId: byte, io: map<nat, LibValue>): RecordResult {
    if |raw| < HEAD + 2 then RecFailed(RangeError)
    else if raw[8] > 2 then RecFailed(FrameError)
    else
      match MergedIo(raw, codecId, io)
      case None => RecFailed(RangeError)
      case Some(merged) =>
        if !(forall id :: id in merged ==> merged[id].Value?) then RecFailed(FrameError)
        else if codecId == 0x10 && GenerationTypeOf(raw).None? then RecFailed(FrameError)
        else Rec(RecordFrom(raw, codecId, Values(merged)))
  }

  datatype RecordsResult = Recs(records: seq<AvlRecord>) | RecsFailed(outcome: Outcome)

  function ParseRecords(raws: seq<seq<byte>>, codecId: byte, maps: seq<map<nat, LibValue>>): RecordsResult
    requires |maps| == |raws|
  {
    if raws == [] then Recs([])
    else
      match ParseRecord(raws[0], codecId, maps[0])
      case RecFailed(o) => RecsFailed(o)
      case Rec(record) =>
        match ParseRecords(raws[1..], codecId, maps[1..])
        case RecsFailed(o) => RecsFailed(o)
        case Recs(records) => Recs([record] + records)
  }

  predicate AvlCodec(codecId: byte) {
    codecId == 0x08 || codecId == 0x8E || codecId == 0x10
  }

  function ParseAvl(lib: Lib, bytes: seq<byte>, dataLen: nat, codecId: byte): Outcome
    requires dataLen >= 1 && |bytes| == 8 + dataLen + 4 && AvlCodec(codecId)
  {
    var n1, n2 := bytes[9], bytes[8 + dataLen - 1];
    if n1 != n2 then FrameError
    else if n1 == 0 then Parsed(AvlPacket(CodecOf(codecId), []))
    else
      match Split(Subarray(bytes, 10, 8 + dataLen - 1), ShapeOf(codecId))
      case None => FrameError
      case Some(raws) =>
        if |raws| != n1 then FrameError
        else
          match (if codecId == 0x10 then DecodeIo16(raws) else DecodeIoWithLib(lib, bytes, n1))
          case IoFailed(o) => o
          case IoMaps(maps) =>
            if |maps| != |raws| then FrameError
            else
              match ParseRecords(raws, codecId, maps)
              case RecsFailed(o) => o
              case Recs(records) => Parsed(AvlPacket(CodecOf(codecId), records))
  }

  // ----- commands -----

  predicate CommandCodec(codecId: byte) {
    0x0C <= codecId <= 0x0E
  }

  function ParseCommandFrame(bytes: seq<byte>, dataLen: nat, codecId: byte): Outcome
    requires |bytes| == 8 + dataLen + 4 && CommandCodec(codecId)
  {
    if dataLen < 8 then FrameError
    else
      var kind, size := bytes[10], U32(bytes, 11);
      if 15 + size + 1 != 8 + dataLen then FrameError
      else
        var payload := bytes[15..15 + size];
        var codec: nat := codecId;
        if codec == 14 && kind == 0x11 then Parsed(CmdResponse(codec, [], true))
        else if kind != 0x05 && kind != 0x06 then FrameError
        else
          var textStart := if codec == 13 then 4 else if codec == 14 then 8 else 0;
          if size < textStart then FrameError
          else Parsed(CmdResponse(codec, payload[textStart..], false))
  }

  // ----- frames -----

  lemma EmptySpanHasNoCodec(bytes: seq<byte>)
    requires |bytes| >= 12
    ensures Crc(bytes[8..8]) == U32(bytes, 8) ==> bytes[8] == 0
  {
  }

  function ParseFrame(lib: Lib, frame: Frame): Outcome {
    var bytes := frame.bytes;
    if frame.kind == Imei then
      var imei := Ascii(Subarray(bytes, 2, |bytes|));
      if IsImei(imei) then Parsed(ImeiPacket(imei)) else FrameError
    else if |bytes| < 8 then RangeError
    else
      var dataLen := U32(bytes, 4);
      if |bytes| != 8 + dataLen + 4 then FrameError
      else if Crc(bytes[8..8 + dataLen]) != U32(bytes, 8 + dataLen) then CrcError
      else
        var codecId := bytes[8];
        if AvlCodec(codecId) then
          assert dataLen >= 1 by { EmptySpanHasNoCodec(bytes); }
          ParseAvl(lib, bytes, dataLen, codecId)
        else if CommandCodec(codecId) then ParseCommandFrame(bytes, dataLen, codecId)
        else FrameError
  }

  // ----- no read out of range -----

  lemma {:induction false} DecodeIo16Length(raws: seq<seq<byte>>)
    ensures var m := DecodeIo16(raws); if m.IoMaps? then |m.maps| == |raws| else m.outcome == FrameError
  {
    if raws != [] {
      DecodeIo16Length(raws[1..]);
    }
  }

  lemma ParseRecordInRange(raw: seq<byte>, codecId: byte, io: map<nat, LibValue>)
    requires AvlCodec(codecId) && IsRecord(raw, ShapeOf(codecId))
    ensures ParseRecord(raw, codecId, io) != RecFailed(RangeError)
  {
    RecordSuffix(raw, ShapeOf(codecId));
    if codecId == 0x8E {
      Nx8eOnRecord(raw);
    }
  }

  lemma {:induction false} ParseRecordsInRange(raws: seq<seq<byte>>, codecId: byte, maps: seq<map<nat, LibValue>>)
    requires |maps| == |raws| && AvlCodec(codecId)
    requires forall r :: r in raws ==> IsRecord(r, ShapeOf(codecId))
    ensures ParseRecords(raws, codecId, maps).RecsFailed? ==> ParseRecords(raws, codecId, maps).outcome == FrameError
  {
    hide ParseRecord, IsRecord;
    if raws != [] {
      ParseRecordInRange(raws[0], codecId, maps[0]);
      ParseRecordFailsAsFrame(raws[0], codecId, maps[0]);
      ParseRecordsInRange(raws[1..], codecId, maps[1..]);
    }
  }

  lemma ParseRecordFailsAsFrame(raw: seq<byte>, codecId: byte, io: map<nat, LibValue>)
    ensures ParseRecord(raw, codecId, io).Rec? || ParseRecord(raw, codecId, io).outcome in {RangeError, FrameError}
  {
  }

  lemma CommandInRange(frame: Frame)
    ensures |frame.bytes| >= 12 && CommandCodec(frame.bytes[8]) ==>
            ParseCommandFrame(frame.bytes, |frame.bytes| - 12, frame.bytes[8]).Parsed?
            || ParseCommandFrame(frame.bytes, |frame.bytes| - 12, frame.bytes[8]).FrameError?
  {
  }

  /** Whatever bytes a framed frame carries, parsing ends in a packet, a CrcError or a FrameError. */
  lemma ParsingStaysInRange(lib: Lib, frame: Frame, maxDataLength: nat)
    requires WellFramed(frame, maxDataLength)
    ensures !ParseFrame(lib, frame).RangeError?
    ensures ParseFrame(lib, frame).Undecodable? ==> ParseFrame(lib, frame).declared == frame.bytes[9]
  {
    hide ParseRecord, ParseRecords, DecodeIo16, Crc, Split, IsRecord, ParseCommandFrame;
    CommandInRange(frame);
    if frame.kind == Avl {
      var bytes := frame.bytes;
      var dataLen, codecId := U32(bytes, 4), bytes[8];
      if AvlCodec(codecId) {
        var region := Subarray(bytes, 10, 8 + dataLen - 1);
        var shape := ShapeOf(codecId);
        var split := Split(region, shape);
        if split.Some? {
          SplitIsUnique(region, shape, split.value);
          DecodeIo16Length(split.value);
          forall maps: seq<map<nat, LibValue>> | |maps| == |split.value|
            ensures ParseRecords(split.value, codecId, maps).RecsFailed? ==>
                    ParseRecords(split.value, codecId, maps).outcome == FrameError
          {
            ParseRecordsInRange(split.value, codecId, maps);
          }
        }
      }
    }
  }

  // ----- corruption -----

  /** A data frame whose CRC field matches its span. */
  ghost predicate CrcValid(bytes: seq<byte>) {
    && |bytes| >= 12
    && |bytes| == 8 + U32(bytes, 4) + 4
    && Crc(bytes[8..|bytes| - 4]) == U32(bytes, |bytes| - 4)
  }

  /** `bad` is `good` with some bytes of the data span replaced. */
  ghost predicate SpanDamaged(good: seq<byte>, bad: seq<byte>) {
    && CrcValid(good)
    && |bad| == |good|
    && bad[..8] == good[..8]
    && bad[|bad| - 4..] == good[|good| - 4..]
  }

  lemma DamagedSpanIsCrcError(lib: Lib, good: seq<byte>, bad: seq<byte>)
    requires SpanDamaged(good, bad)
    requires Crc(bad[8..|bad| - 4]) != Crc(good[8..|good| - 4])
    ensures ParseFrame(lib, Frame(Avl, bad)) == CrcError
  {
    var n := |bad|;
    SliceReads(bad[..8], 4, 8);
    SliceReads(good[..8], 4, 8);
    assert bad[..8][4..8] == bad[4..8] && good[..8][4..8] == good[4..8];
    SliceReads(bad, 4, 8);
    SliceReads(good, 4, 8);
    SliceReads(bad, n - 4, n);
    SliceReads(good, n - 4, n);
  }

  /** Damage inside two adjacent bytes of the data span never reaches the record parser. */
  lemma AdjacentDamageIsCrcError(lib: Lib, good: seq<byte>, bad: seq<byte>, i: nat)
    requires SpanDamaged(good, bad) && bad != good
    requires forall k :: 0 <= k < |good| && k != i && k != i + 1 ==> good[k] == bad[k]
    ensures ParseFrame(lib, Frame(Avl, bad)) == CrcError
  {
    var n := |good|;
    DamageLiesInSpan(good, bad, i);
    AdjacentDamageChangesCrc(good[8..n - 4], bad[8..n - 4], if i >= 8 then i - 8 else 0);
    hide Crc, ParseFrame;
    DamagedSpanIsCrcError(lib, good, bad);
  }

  /** The damaged bytes as the span sees them; of a pair that starts before the span it has at most the second. */
  lemma DamageLiesInSpan(good: seq<byte>, bad: seq<byte>, i: nat)
    requires SpanDamaged(good, bad) && bad != good
    requires forall k :: 0 <= k < |good| && k != i && k != i + 1 ==> good[k] == bad[k]
    ensures var a, b := good[8..|good| - 4], bad[8..|good| - 4];
      var at := if i >= 8 then i - 8 else 0;
      a != b && forall k :: 0 <= k < |a| && k != at && k != at + 1 ==> a[k] == b[k]
  {
    hide Crc, U32;
    var n := |good|;
    assert good == good[..8] + good[8..n - 4] + good[n - 4..];
    assert bad == bad[..8] + bad[8..n - 4] + bad[n - 4..];
  }

  /** An odd number of flipped bits in the data span never reaches the record parser. */
  lemma OddDamageIsCrcError(lib: Lib, good: seq<byte>, bad: seq<byte>)
    requires SpanDamaged(good, bad)
    requires OddFlips(good[8..|good| - 4], bad[8..|bad| - 4])
    ensures ParseFrame(lib, Frame(Avl, bad)) == CrcError
  {
    OddDamageChangesCrc(good[8..|good| - 4], bad[8..|bad| - 4]);
    DamagedSpanIsCrcError(lib, good, bad);
  }

  // ----- every record is read from its own bytes -----

  /** The part of a data frame between the two record counts. */
  function Region(bytes: seq<byte>): seq<byte>
    requires |bytes| >= 5
  {
    Subarray(bytes, 10, |bytes| - 5)
  }

  function RawsOf(records: seq<AvlRecord>): (raws: seq<seq<byte>>)
    ensures |raws| == |records|
  {
    seq(|records|, i requires 0 <= i < |records| => records[i].raw)
  }

  /** The fields every codec carries at the same offsets. */
  ghost predicate HeadOfRaw(rec: AvlRecord) {
    var raw := rec.raw;
    && |raw| >= HEAD + 2
    && rec.tsMs == U64(raw, 0) && rec.priority == raw[8] <= 2
    && rec.lon == Signed(U32(raw, 9), 0x1_0000_0000) && rec.lat == Signed(U32(raw, 13), 0x1_0000_0000)
    && rec.altitude == Signed(U16(raw, 17), 0x1_0000) && rec.angle == U16(raw, 19)
    && rec.satellites == raw[21] && rec.speed == U16(raw, 22)
  }

  /** A Codec 16 record carries the IO elements, event id and generation type of its own bytes. */
  ghost predicate ReadsOwnBytes16(rec: AvlRecord) {
    var io := Io16(rec.raw);
    && |rec.raw| >= 27
    && rec.eventIoId == U16(rec.raw, 24) && rec.generationType == Some(rec.raw[26])
    && io.Some? && rec.io.Keys == io.value.Keys
    && forall id :: id in rec.io ==> rec.io[id] == Num(io.value[id])
  }

  /** A Codec 8 record carries the wrapped parser's values for the position it stands at. */
  ghost predicate ReadsOwnBytes8(rec: AvlRecord, datas: map<nat, LibValue>) {
    && |rec.raw| >= HEAD + 2
    && rec.eventIoId == rec.raw[24] && rec.generationType == None
    && rec.io.Keys == datas.Keys
    && forall id :: id in rec.io ==> datas[id] == Value(rec.io[id])
  }

  /** In a Codec 8E record the variable-length elements of its own bytes come first. */
  ghost predicate ReadsOwnBytes8e(rec: AvlRecord, datas: map<nat, LibValue>) {
    var nx := Nx8e(rec.raw);
    && |rec.raw| >= HEAD + 2
    && rec.eventIoId == U16(rec.raw, 24) && rec.generationType == None
    && nx.Some? && rec.io.Keys == datas.Keys + nx.value.Keys
    && forall id :: id in rec.io ==>
         if id in nx.value then rec.io[id] == Raw(nx.value[id]) else datas[id] == Value(rec.io[id])
  }

  ghost predicate ReadsOwnBytes(lib: Lib, frame: Frame, rec: AvlRecord, i: nat)
    requires |frame.bytes| > 8
  {
    var codecId, answer := frame.bytes[8], lib(frame.bytes);
    && HeadOfRaw(rec) && IsRecord(rec.raw, ShapeOf(codecId))
    && if codecId == 0x10 then ReadsOwnBytes16(rec)
       else
         && answer.LibRecords? && i < |answer.datas|
         && if codecId == 0x08 then ReadsOwnBytes8(rec, answer.datas[i]) else ReadsOwnBytes8e(rec, answer.datas[i])
  }

  lemma {:induction false} DecodedMaps(raws: seq<seq<byte>>, i: nat)
    requires DecodeIo16(raws).IoMaps? && i < |raws|
    ensures |DecodeIo16(raws).maps| == |raws|
    ensures Io16(raws[i]).Some? && DecodeIo16(raws).maps[i] == Numbers(Io16(raws[i]).value)
  {
    hide Io16, Numbers;
    DecodeIo16Length(raws);
    DecodeIo16Length(raws[1..]);
    if i > 0 {
      DecodedMaps(raws[1..], i - 1);
    }
  }

  lemma {:induction false} ParsedRecordAt(raws: seq<seq<byte>>, codecId: byte, maps: seq<map<nat, LibValue>>, i: nat)
    requires |maps| == |raws| && ParseRecords(raws, codecId, maps).Recs? && i < |raws|
    ensures var records := ParseRecords(raws, codecId, maps).records;
      |records| == |raws| && ParseRecord(raws[i], codecId, maps[i]) == Rec(records[i])
  {
    hide ParseRecord;
    ParsedRecordCount(raws, codecId, maps);
    ParsedRecordCount(raws[1..], codecId, maps[1..]);
    if i > 0 {
      ParsedRecordAt(raws[1..], codecId, maps[1..], i - 1);
    }
  }

  lemma {:induction false} ParsedRecordCount(raws: seq<seq<byte>>, codecId: byte, maps: seq<map<nat, LibValue>>)
    requires |maps| == |raws| && ParseRecords(raws, codecId, maps).Recs?
    ensures |ParseRecords(raws, codecId, maps).records| == |raws|
  {
    hide ParseRecord;
    if raws != [] {
      ParsedRecordCount(raws[1..], codecId, maps[1..]);
    }
  }

  lemma ParsedFields(raw: seq<byte>, codecId: byte, io: map<nat, LibValue>)
    requires ParseRecord(raw, codecId, io).Rec? && AvlCodec(codecId)
    ensures var rec := ParseRecord(raw, codecId, io).record;
      && rec.raw == raw && HeadOfRaw(rec)
      && (codecId == 0x10 && Io16(raw).Some? && io == Numbers(Io16(raw).value) ==> ReadsOwnBytes16(rec))
      && (codecId == 0x08 ==> ReadsOwnBytes8(rec, io))
      && (codecId == 0x8E ==> ReadsOwnBytes8e(rec, io))
  {
    hide Io16, Nx8e, U64, U32, U16, Signed;
  }

  /** What a parsed data frame with records went through: its slices and their IO maps. */
  lemma ParsedParts(lib: Lib, bytes: seq<byte>, dataLen: nat, codecId: byte)
      returns (raws: seq<seq<byte>>, maps: seq<map<nat, LibValue>>)
    requires dataLen >= 1 && |bytes| == 8 + dataLen + 4 && AvlCodec(codecId)
    requires ParseAvl(lib, bytes, dataLen, codecId).Parsed? && bytes[9] != 0
    ensures Split(Region(bytes), ShapeOf(codecId)) == Some(raws) && |raws| == |maps| == bytes[9]
    ensures (if codecId == 0x10 then DecodeIo16(raws) else DecodeIoWithLib(lib, bytes, bytes[9])) == IoMaps(maps)
    ensures ParseRecords(raws, codecId, maps).Recs?
    ensures ParseAvl(lib, bytes, dataLen, codecId).packet == AvlPacket(CodecOf(codecId), ParseRecords(raws, codecId, maps).records)
  {
    hide Split, ParseRecords, DecodeIo16;
    assert Region(bytes) == Subarray(bytes, 10, 8 + dataLen - 1);
    raws := Split(Region(bytes), ShapeOf(codecId)).value;
    DecodeIo16Length(raws);
    var decoded := if codecId == 0x10 then DecodeIo16(raws) else DecodeIoWithLib(lib, bytes, bytes[9]);
    maps := decoded.maps;
    FailedRecordsDoNotParse(raws, codecId, maps);
  }

  lemma {:induction false} FailedRecordsDoNotParse(raws: seq<seq<byte>>, codecId: byte, maps: seq<map<nat, LibValue>>)
    requires |maps| == |raws|
    ensures ParseRecords(raws, codecId, maps).RecsFailed? ==> !ParseRecords(raws, codecId, maps).outcome.Parsed?
  {
    hide ParseRecord;
    if raws != [] {
      ParseRecordFailsAsFrame(raws[0], codecId, maps[0]);
      FailedRecordsDoNotParse(raws[1..], codecId, maps[1..]);
    }
  }

  /**
   * Every record of a parsed data frame is read from its own bytes: the records' bytes are, in order,
   * the whole region between the two counts, and each record's fields and IO values are those of its
   * own bytes, or of the wrapped parser's answer at its own position.
   */
  lemma ParsedRecordsReadTheirOwnBytes(lib: Lib, frame: Frame)
    requires frame.kind == Avl && ParseFrame(lib, frame).Parsed? && ParseFrame(lib, frame).packet.AvlPacket?
    ensures |frame.bytes| > 9
    ensures var records := ParseFrame(lib, frame).packet.records;
      && |records| == frame.bytes[9]
      && (records != [] ==> Concat(RawsOf(records)) == Region(frame.bytes))
      && forall i :: 0 <= i < |records| ==> ReadsOwnBytes(lib, frame, records[i], i)
  {
    hide Crc, Split, ParseRecord, ParseRecords, DecodeIo16, Concat, IsRecord, ReadsOwnBytes16, ReadsOwnBytes8,
      ReadsOwnBytes8e, HeadOfRaw, U32;
    var bytes := frame.bytes;
    var codecId, records := bytes[8], ParseFrame(lib, frame).packet.records;
    if bytes[9] != 0 {
      assert |bytes| > 12 by { EmptySpanHasNoCodec(bytes); }
      var raws, maps := ParsedParts(lib, bytes, U32(bytes, 4), codecId);
      SplitIsUnique(Region(bytes), ShapeOf(codecId), raws);
      ParsedRecordCount(raws, codecId, maps);
      forall i | 0 <= i < |records| ensures records[i].raw == raws[i] && ReadsOwnBytes(lib, frame, records[i], i) {
        ParsedRecordAt(raws, codecId, maps, i);
        ParsedFields(raws[i], codecId, maps[i]);
        if codecId == 0x10 {
          DecodedMaps(raws, i);
        }
        assert raws[i] in raws;
      }
      assert RawsOf(records) == raws;
    }
  }

  // ----- which Codec 16 frames parse -----

  /** A Codec 16 record the parser accepts. */
  ghost predicate Acceptable16(raw: seq<byte>) {
    && IsRecord(raw, SHAPE_16)
    && |raw| > 8 && raw[8] <= 2
    && Io16Scan(raw).Items? && DistinctIds(Io16Scan(raw).items)
  }

  ghost predicate AcceptableRegion16(region: seq<byte>, count: nat) {
    exists raws :: Concat(raws) == region && |raws| == count && forall r :: r in raws ==> Acceptable16(r)
  }

  lemma Acceptable16Iff(raw: seq<byte>, io: map<nat, LibValue>)
    requires IsRecord(raw, SHAPE_16)
    requires Io16(raw).Some? ==> io == Numbers(Io16(raw).value)
    ensures Acceptable16(raw) <==> Io16(raw).Some? && ParseRecord(raw, 0x10, io).Rec?
  {
    hide Io16, Io16Scan, U64, U32, U16, Signed, SkipRecord;
    RecordSuffix(raw, SHAPE_16);
    Io16OnRecord(raw);
  }

  /** With all records decoded, the records parse exactly when each of them is acceptable. */
  lemma {:induction false} Records16Iff(raws: seq<seq<byte>>)
    requires forall r :: r in raws ==> IsRecord(r, SHAPE_16)
    ensures (forall r :: r in raws ==> Acceptable16(r)) <==>
      DecodeIo16(raws).IoMaps? && |DecodeIo16(raws).maps| == |raws|
      && ParseRecords(raws, 0x10, DecodeIo16(raws).maps).Recs?
  {
    hide ParseRecord, Io16, IsRecord, Acceptable16, Numbers;
    DecodeIo16Length(raws);
    if raws != [] {
      var rest := raws[1..];
      Records16Iff(rest);
      DecodeIo16Length(rest);
      assert raws == [raws[0]] + rest;
      Acceptable16Iff(raws[0], if Io16(raws[0]).Some? then Numbers(Io16(raws[0]).value) else map[]);
      if DecodeIo16(raws).IoMaps? {
        assert DecodeIo16(raws).maps[1..] == DecodeIo16(rest).maps;
      }
    }
  }

  /** A Codec 16 frame with a matching CRC parses exactly when both counts agree and the region is that
      many records whose priority is known and whose IO ids are distinct; else it is a FrameError. */
  lemma Codec16ParsedIff(lib: Lib, frame: Frame)
    requires frame.kind == Avl && CrcValid(frame.bytes) && frame.bytes[8] == 0x10
    ensures var bytes := frame.bytes;
      ParseFrame(lib, frame).Parsed? <==>
      bytes[9] == bytes[|bytes| - 5] && (bytes[9] == 0 || AcceptableRegion16(Region(bytes), bytes[9]))
    ensures ParseFrame(lib, frame).Parsed? || ParseFrame(lib, frame) == FrameError
  {
    hide Crc, Split, ParseRecord, ParseRecords, DecodeIo16, Concat, IsRecord, Acceptable16, U32;
    var bytes := frame.bytes;
    if |bytes| == 12 {
      EmptySpanHasNoCodec(bytes);
    } else {
      var region := Region(bytes);
      var split := Split(region, SHAPE_16);
      forall raws | Concat(raws) == region && forall r :: r in raws ==> Acceptable16(r)
        ensures split == Some(raws)
      {
        AcceptableAreRecords(raws);
        SplitIsUnique(region, SHAPE_16, raws);
      }
      if split.Some? {
        SplitIsUnique(region, SHAPE_16, split.value);
        Records16Iff(split.value);
        DecodeIo16Length(split.value);
        Codec16FailsAsFrame(split.value);
      }
    }
  }

  lemma AcceptableAreRecords(raws: seq<seq<byte>>)
    requires forall r :: r in raws ==> Acceptable16(r)
    ensures forall r :: r in raws ==> IsRecord(r, SHAPE_16)
  {
  }

  lemma Codec16FailsAsFrame(raws: seq<seq<byte>>)
    requires forall r :: r in raws ==> IsRecord(r, SHAPE_16)
    ensures var d := DecodeIo16(raws);
      d.IoMaps? && |d.maps| == |raws| && ParseRecords(raws, 0x10, d.maps).RecsFailed? ==>
      ParseRecords(raws, 0x10, d.maps).outcome == FrameError
  {
    hide IsRecord, DecodeIo16, ParseRecords;
    var d := DecodeIo16(raws);
    if d.IoMaps? && |d.maps| == |raws| {
      ParseRecordsInRange(raws, 0x10, d.maps);
    }
  }

  // ----- which command frames and IMEI frames parse -----

  /** Bytes of a response ahead of its text: a timestamp in Codec 13, an IMEI in Codec 14. */
  function PrefixLength(codecId: byte): nat
    requires CommandCodec(codecId)
  {
    match codecId
    case 0x0C => 0
    case 0x0D => 4
    case _ => 8
  }

  /** The documented layout: codec, quantity, type, size, payload, quantity. */
  ghost predicate IsCommand(span: seq<byte>, codecId: byte, kind: byte, payload: seq<byte>) {
    && |payload| < 0x1_0000_0000 && |span| == 8 + |payload|
    && span == [codecId, span[1], kind] + W32(|payload|) + payload + [span[|span| - 1]]
  }

  /** A response of the kinds 5 or 6 with its mandatory prefix. */
  ghost predicate IsResponse(span: seq<byte>, codecId: byte, text: seq<byte>)
    requires CommandCodec(codecId)
  {
    exists kind: byte, payload ::
      IsCommand(span, codecId, kind, payload) && kind in {5, 6}
      && |payload| == PrefixLength(codecId) + |text| && payload[PrefixLength(codecId)..] == text
  }

  lemma CommandFields(bytes: seq<byte>, kind: byte, payload: seq<byte>)
    requires |bytes| >= 13 && |bytes| - 12 < 0x1_0000_0000
    ensures IsCommand(bytes[8..|bytes| - 4], bytes[8], kind, payload) <==>
      && |bytes| >= 20 && bytes[10] == kind && U32(bytes, 11) == |bytes| - 20 && payload == bytes[15..|bytes| - 5]
  {
    hide W32, U32;
    var span := bytes[8..|bytes| - 4];
    if |span| >= 8 {
      SliceOfSlice(bytes, 8, |bytes| - 4, 3, 7);
      SliceOfSlice(bytes, 8, |bytes| - 4, 7, |span| - 1);
      SliceReads(bytes, 11, 15);
      SliceReads(span, 3, 7);
      FieldIsUnique(bytes, 11);
      assert span == span[..3] + span[3..7] + span[7..|span| - 1] + span[|span| - 1..];
      assert span[..3] == [span[0], span[1], span[2]];
    }
    if IsCommand(span, bytes[8], kind, payload) {
      assert span[2] == kind && span[7..|span| - 1] == payload;
      assert span[3..7] == W32(|payload|);
      assert U32(span[3..7], 0) == |payload|;
    }
  }

  /** A command frame with a matching CRC parses exactly when it has the documented layout, and its text
      is what follows the prefix; a Codec 14 frame of type 0x11 is a refusal whatever it carries. */
  lemma CommandParsedIff(lib: Lib, frame: Frame, text: seq<byte>)
    requires frame.kind == Avl && CrcValid(frame.bytes) && CommandCodec(frame.bytes[8])
    ensures |frame.bytes| >= 13
    ensures var span, codecId := frame.bytes[8..|frame.bytes| - 4], frame.bytes[8];
      && (ParseFrame(lib, frame) == Parsed(CmdResponse(codecId, text, false)) <==> IsResponse(span, codecId, text))
      && (ParseFrame(lib, frame) == Parsed(CmdResponse(codecId, [], true)) <==>
           codecId == 0x0E && exists payload :: IsCommand(span, codecId, 0x11, payload))
  {
    hide Crc, U32, IsCommand;
    var bytes := frame.bytes;
    assert |bytes| > 12 by { EmptySpanHasNoCodec(bytes); }
    var codecId := bytes[8];
    var span := bytes[8..|bytes| - 4];
    forall kind: byte, payload
      ensures IsCommand(span, codecId, kind, payload) <==>
        |bytes| >= 20 && bytes[10] == kind && U32(bytes, 11) == |bytes| - 20 && payload == bytes[15..|bytes| - 5]
    {
      CommandFields(bytes, kind, payload);
    }
    if |bytes| >= 20 && U32(bytes, 11) == |bytes| - 20 {
      assert IsCommand(span, codecId, bytes[10], bytes[15..|bytes| - 5]);
    }
  }

  /** An IMEI frame gives back the IMEI it carries exactly when that is 8 to 17 digits. */
  lemma ImeiParsedIff(lib: Lib, imei: seq<byte>)
    requires |imei| < 0x1_0000
    ensures ParseFrame(lib, Frame(Imei, W16(|imei|) + imei)) == Parsed(ImeiPacket(imei)) <==>
      8 <= |imei| <= 17 && forall i :: 0 <= i < |imei| ==> '0' as int <= imei[i] <= '9' as int
  {
    var bytes := W16(|imei|) + imei;
    assert Subarray(bytes, 2, |bytes|) == imei;
    if IsImei(imei) {
      assert Ascii(imei) == imei;
    }
  }
}
