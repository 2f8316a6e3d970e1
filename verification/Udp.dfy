/** The UDP channel: header decode, and the AVL payload parsed through a synthetic TCP frame. */
module Udp {
  import opened Bytes
  import opened Crc16
  import opened Framer
  import opened Walk
  import opened Parse
  import opened Encode
  import opened CodecRoundTrip
  import opened Options

  datatype UdpHeader = UdpHeader(packetId: nat, avlPacketId: nat, imei: seq<byte>, avlData: seq<byte>)

  /** `None` is a FrameError: the datagram is dropped. */
  function DecodeUdpHeader(datagram: seq<byte>): Option<UdpHeader> {
    if |datagram| < 8 || U16(datagram, 0) != |datagram| - 2 then None
    else
      var imeiLen := U16(datagram, 6);
      var imeiEnd := 8 + imeiLen;
      if imeiLen == 0 || imeiLen > MAX_IMEI || |datagram| < imeiEnd then None
      else
        var imei := Ascii(datagram[8..imeiEnd]);
        if !IsImei(imei) then None
        else Some(UdpHeader(U16(datagram, 2), datagram[5], imei, datagram[imeiEnd..]))
  }

  /** The documented layout: length, packet id, one unused byte, AVL packet id, IMEI, AVL data. */
  function Datagram(h: UdpHeader, unused: byte): seq<byte>
    requires h.packetId < 0x1_0000 && h.avlPacketId < 0x100 && |h.imei| + |h.avlData| + 6 < 0x1_0000
  {
    W16(|h.imei| + |h.avlData| + 6) + W16(h.packetId) + [unused, h.avlPacketId] + W16(|h.imei|) + h.imei + h.avlData
  }

  /** A datagram laid out as documented, for a valid IMEI, is read back field by field. */
  lemma HeaderRoundTrip(h: UdpHeader, unused: byte)
    requires h.packetId < 0x1_0000 && h.avlPacketId < 0x100 && |h.imei| + |h.avlData| + 6 < 0x1_0000
    requires IsImei(h.imei)
    ensures DecodeUdpHeader(Datagram(h, unused)) == Some(h)
  {
    hide W16, IsImei;
    var d := Datagram(h, unused);
    assert d[0..2] == W16(|h.imei| + |h.avlData| + 6) && d[2..4] == W16(h.packetId) && d[6..8] == W16(|h.imei|);
    SliceReads(d, 0, 2);
    SliceReads(d, 2, 4);
    SliceReads(d, 6, 8);
    var end := 8 + |h.imei|;
    assert d[8..end] == h.imei && d[end..] == h.avlData;
    DigitsAreAscii(h.imei);
  }

  /** Whatever is decoded has that layout: the datagram is the decoded header laid out again, with the
      high bit of an IMEI byte and the unused byte as they came. */
  lemma DecodedIsDatagram(datagram: seq<byte>)
    requires DecodeUdpHeader(datagram).Some?
    ensures var h := DecodeUdpHeader(datagram).value;
      var imei := datagram[8..8 + |h.imei|];
      && IsImei(h.imei) && Ascii(imei) == h.imei
      && h.packetId < 0x1_0000 && h.avlPacketId < 0x100 && |imei| + |h.avlData| + 6 < 0x1_0000
      && datagram == Datagram(h.(imei := imei), datagram[4])
  {
    hide IsImei, W16;
    var h := DecodeUdpHeader(datagram).value;
    var end := 8 + |h.imei|;
    ShortFieldIsUnique(datagram, 0);
    ShortFieldIsUnique(datagram, 2);
    ShortFieldIsUnique(datagram, 6);
    assert datagram[8..end] + datagram[end..] == datagram[8..];
    assert datagram[..8] == datagram[0..2] + datagram[2..4] + [datagram[4], datagram[5]] + datagram[6..8];
    assert datagram == datagram[..8] + datagram[8..];
  }

  lemma DigitsAreAscii(imei: seq<byte>)
    requires IsImei(imei)
    ensures Ascii(imei) == imei && 8 <= |imei| <= 17
  {
  }

  /** wrapAsTcpFrame is the packet wrapper of the encoder. */
  function ParseUdpAvl(lib: Lib, avlData: seq<byte>): Outcome
    requires |avlData| < 0x1_0000_0000
  {
    if |avlData| < 3 then FrameError else ParseFrame(lib, Frame(Avl, WrapData(avlData)))
  }

  /** A CRC-valid data frame is the wrapping of its own span. */
  lemma ValidFrameIsWrapped(frame: Frame, maxDataLength: nat)
    requires frame.kind == Avl && WellFramed(frame, maxDataLength) && CrcValid(frame.bytes)
    ensures var span := frame.bytes[8..|frame.bytes| - 4];
      |span| < 0x1_0000_0000 && WrapData(span) == frame.bytes
  {
    hide W32, Crc, U32;
    var b := frame.bytes;
    FieldIsUnique(b, 0);
    FieldIsUnique(b, 4);
    FieldIsUnique(b, |b| - 4);
    WrapOfParts(b);
  }

  lemma WrapOfParts(b: seq<byte>)
    requires |b| >= 12 && |b| - 12 < 0x1_0000_0000
    requires W32(0) == b[0..4] && W32(|b| - 12) == b[4..8]
    requires W32(Crc(b[8..|b| - 4])) == b[|b| - 4..|b|]
    ensures WrapData(b[8..|b| - 4]) == b
  {
    hide W32, Crc;
    FourParts(b);
  }

  lemma FourParts(b: seq<byte>)
    requires |b| >= 12
    ensures b == b[0..4] + b[4..8] + b[8..|b| - 4] + b[|b| - 4..|b|]
  {
  }

  /** The two-byte data field of an AVL codec with zero records: the one shape TCP takes and UDP refuses. */
  ghost predicate EmptyTwoByteAvl(data: seq<byte>) {
    |data| == 2 && AvlCodec(data[0]) && data[1] == 0
  }

  /** A short data field parses only if it is the two-byte empty AVL field. */
  lemma ShortFrames(lib: Lib, frame: Frame, maxDataLength: nat)
    requires frame.kind == Avl && WellFramed(frame, maxDataLength) && CrcValid(frame.bytes)
    requires |frame.bytes| - 12 < 3
    ensures var span := frame.bytes[8..|frame.bytes| - 4];
      ParseFrame(lib, frame) ==
      if EmptyTwoByteAvl(span) then Parsed(AvlPacket(CodecOf(span[0]), [])) else FrameError
  {
    hide Crc;
    var b := frame.bytes;
    var n := |b| - 12;
    var span := b[8..8 + n];
    assert span[0] == b[8];
    if n == 1 {
      assert U32(b, 9) < 0x1_0000;
      assert b[9] == 0;
    } else {
      assert span[1] == b[9];
      assert Subarray(b, 10, 9) == [];
    }
  }

  /** UDP and TCP agree on every CRC-valid data field but one family, and there UDP refuses an empty packet. */
  lemma UdpAgreesWithTcp(lib: Lib, frame: Frame, maxDataLength: nat)
    requires frame.kind == Avl && WellFramed(frame, maxDataLength) && CrcValid(frame.bytes)
    ensures var span := frame.bytes[8..|frame.bytes| - 4];
      |span| < 0x1_0000_0000 &&
      (ParseUdpAvl(lib, span) == ParseFrame(lib, frame) <==> !EmptyTwoByteAvl(span))
  {
    hide ParseFrame, WrapData;
    ValidFrameIsWrapped(frame, maxDataLength);
    if |frame.bytes| - 12 < 3 {
      ShortFrames(lib, frame, maxDataLength);
    }
  }
}
