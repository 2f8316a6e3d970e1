/** The Codec 12 command frame: encoding a command and decoding a Codec 12 frame. */
module Codec12 {
  import opened Bytes
  import opened Crc16
  import opened Framer
  import opened Walk
  import opened Parse
  import opened Encode
  import opened CodecRoundTrip
  import opened Options

  /** A UTF-16 code unit of a JavaScript string. */
  type codeUnit = u: int | 0 <= u < 0x1_0000

  /** `Buffer.from(cmd, 'ascii')` keeps the low byte of every code unit. */
  function LowBytes(cmd: seq<codeUnit>): (s: seq<byte>)
    ensures |s| == |cmd|
  {
    seq(|cmd|, i requires 0 <= i < |cmd| => cmd[i] % 256)
  }

  /** `toString('latin1')`. */
  function Latin1(s: seq<byte>): (cmd: seq<codeUnit>)
    ensures |cmd| == |s|
  {
    seq(|s|, i requires 0 <= i < |s| => s[i] as int)
  }

  function CommandData(cmd: seq<codeUnit>): (d: seq<byte>)
    requires |cmd| < 0xFFFF_FFF8
    ensures |d| == |cmd| + 8
  {
    [0x0C, 0x01, 0x05] + W32(|cmd|) + LowBytes(cmd) + [0x01]
  }

  /** `None` is the FrameError of an empty command or the RangeError of a length field overflow. */
  function EncodeCodec12(cmd: seq<codeUnit>): Option<seq<byte>> {
    if |cmd| == 0 || |cmd| >= 0xFFFF_FFF8 then None else Some(WrapData(CommandData(cmd)))
  }

  /** `None` is a FrameError, a CrcError or a packet of another kind. */
  function DecodeCodec12(lib: Lib, frame: Frame): Option<seq<codeUnit>> {
    match ParseFrame(lib, frame)
    case Parsed(CmdResponse(12, text, _)) => Some(Latin1(text))
    case _ => None
  }

  lemma CommandDataRead(cmd: seq<codeUnit>)
    requires |cmd| < 0xFFFF_FFF8
    ensures var d := CommandData(cmd);
      d[0] == 0x0C && d[2] == 0x05 && U32(d, 3) == |cmd| && d[7..7 + |cmd|] == LowBytes(cmd)
  {
    hide W32, LowBytes;
    var d := CommandData(cmd);
    assert d[3..7] == W32(|cmd|);
    SliceReads(d, 3, 7);
  }

  /** Decoding what was encoded yields the low byte of every character. */
  lemma DecodeUndoesEncode(lib: Lib, cmd: seq<codeUnit>)
    requires EncodeCodec12(cmd).Some?
    ensures DecodeCodec12(lib, Frame(Avl, EncodeCodec12(cmd).value)) == Some(Latin1(LowBytes(cmd)))
  {
    hide WrapData, CommandData, U32, Crc, LowBytes, Latin1;
    var d := CommandData(cmd);
    var p := WrapData(d);
    var n := |d|;
    WrapRead(d);
    CommandDataRead(cmd);
    assert p[8] == d[0] && p[10] == d[2];
    SliceOfSlice(p, 8, 8 + n, 3, 7);
    SliceReads(p, 11, 15);
    SliceReads(d, 3, 7);
    SliceOfSlice(p, 8, 8 + n, 7, 7 + |cmd|);
    assert LowBytes(cmd)[0..] == LowBytes(cmd);
  }

  /** The command text survives exactly when every character fits one byte. */
  lemma RoundTripIffOneByteCharacters(lib: Lib, cmd: seq<codeUnit>)
    requires EncodeCodec12(cmd).Some?
    ensures DecodeCodec12(lib, Frame(Avl, EncodeCodec12(cmd).value)) == Some(cmd) <==>
            forall i :: 0 <= i < |cmd| ==> cmd[i] <= 0xFF
  {
    hide EncodeCodec12, DecodeCodec12;
    DecodeUndoesEncode(lib, cmd);
    var back := Latin1(LowBytes(cmd));
    if forall i :: 0 <= i < |cmd| ==> cmd[i] <= 0xFF {
      assert back == cmd;
    } else {
      var i :| 0 <= i < |cmd| && cmd[i] > 0xFF;
      assert back[i] == cmd[i] % 256 != cmd[i];
    }
  }

  /** A command that fits the length cap passes the framer as one frame. */
  lemma CommandFramed(cmd: seq<codeUnit>, maxDataLength: nat)
    requires EncodeCodec12(cmd).Some? && |cmd| + 8 <= maxDataLength
    ensures var p := EncodeCodec12(cmd).value;
      Drain(p, maxDataLength) == Drained([Frame(Avl, p)], [], false)
  {
    WrapFramed(CommandData(cmd), maxDataLength);
  }
}
