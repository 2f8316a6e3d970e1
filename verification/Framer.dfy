/**
 * The streaming framer of one TCP connection: bytes arrive in arbitrary chunks and leave as whole
 * IMEI or AVL/command frames. How the stream was cut into chunks must not matter.
 */
module Framer {
  import opened Bytes

  datatype Kind = Imei | Avl

  datatype Frame = Frame(kind: Kind, bytes: seq<byte>)

  const MAX_IMEI := 64

  /** One attempt to cut a frame off the front of the buffer. */
  datatype Extraction = Incomplete | Violation | Extracted(frame: Frame, rest: seq<byte>)

  function TryExtract(buf: seq<byte>, maxDataLength: nat): Extraction {
    if |buf| < 4 then Incomplete
    else if U32(buf, 0) != 0 then
      var len := U16(buf, 0);
      if len == 0 || len > MAX_IMEI then Violation
      else if |buf| < 2 + len then Incomplete
      else Extracted(Frame(Imei, buf[..2 + len]), buf[2 + len..])
    else if |buf| < 8 then Incomplete
    else
      var dataLen := U32(buf, 4);
      if dataLen == 0 || dataLen > maxDataLength then Violation
      else
        var total := 8 + dataLen + 4;
        if |buf| < total then Incomplete
        else Extracted(Frame(Avl, buf[..total]), buf[total..])
  }

  /** What a buffer yields when frames are cut off until none is left, or a length field is illegal. */
  datatype Drained = Drained(frames: seq<Frame>, rest: seq<byte>, violated: bool)

  function Drain(buf: seq<byte>, maxDataLength: nat): Drained
    decreases |buf|
  {
    match TryExtract(buf, maxDataLength)
    case Incomplete => Drained([], buf, false)
    case Violation => Drained([], buf, true)
    case Extracted(frame, rest) =>
      var d := Drain(rest, maxDataLength);
      d.(frames := [frame] + d.frames)
  }

  datatype FeedResult = Frames(frames: seq<Frame>) | Rejected

  class StreamFramer {
    var buf: seq<byte>
    const maxDataLength: nat

    constructor (maxDataLength: nat := 4096)
      ensures buf == [] && this.maxDataLength == maxDataLength
    {
      buf := [];
      this.maxDataLength := maxDataLength;
    }

    method Feed(chunk: seq<byte>) returns (r: FeedResult)
      modifies this
      ensures var d := Drain(old(buf) + chunk, maxDataLength);
        buf == d.rest && r == if d.violated then Rejected else Frames(d.frames)
    {
      buf := if |buf| == 0 then chunk else buf + chunk;
      assert buf == old(buf) + chunk;
      var frames := [];
      while true
        invariant var whole := Drain(old(buf) + chunk, maxDataLength);
          var left := Drain(buf, maxDataLength);
          whole == left.(frames := frames + left.frames)
        decreases |buf|
      {
        var e := TryExtract(buf, maxDataLength);
        match e {
          case Incomplete => return Frames(frames);
          case Violation => return Rejected;
          case Extracted(frame, rest) =>
            ghost var left := Drain(buf, maxDataLength);
            assert frames + left.frames == (frames + [frame]) + left.frames[1..];
            buf := rest;
            frames := frames + [frame];
        }
      }
    }
  }

  // ----- what is emitted, and what stays behind -----

  /** The shape of every frame the framer lets through. */
  ghost predicate WellFramed(f: Frame, maxDataLength: nat) {
    match f.kind
    case Imei => |f.bytes| >= 3 && 1 <= U16(f.bytes, 0) <= MAX_IMEI && |f.bytes| == 2 + U16(f.bytes, 0)
    case Avl =>
      && |f.bytes| >= 13
      && U32(f.bytes, 0) == 0
      && 1 <= U32(f.bytes, 4) <= maxDataLength
      && |f.bytes| == 8 + U32(f.bytes, 4) + 4
  }

  function BytesOf(frames: seq<Frame>): seq<byte> {
    if frames == [] then [] else frames[0].bytes + BytesOf(frames[1..])
  }

  lemma ExtractedShape(buf: seq<byte>, maxDataLength: nat)
    requires TryExtract(buf, maxDataLength).Extracted?
    ensures var e := TryExtract(buf, maxDataLength);
      buf == e.frame.bytes + e.rest && |e.rest| < |buf| && WellFramed(e.frame, maxDataLength)
  {
    var e := TryExtract(buf, maxDataLength);
    SliceReads(buf, 0, |e.frame.bytes|);
    if e.frame.kind == Avl {
      SliceReads(buf, 4, 8);
      SliceReads(e.frame.bytes, 4, 8);
      assert e.frame.bytes[4..8] == buf[4..8];
    }
  }

  /** Nothing is lost or invented: the frames and the leftover are the bytes that were fed. */
  lemma {:induction false} DrainConserves(buf: seq<byte>, maxDataLength: nat)
    ensures var d := Drain(buf, maxDataLength); BytesOf(d.frames) + d.rest == buf
    decreases |buf|
  {
    hide TryExtract, WellFramed;
    var e := TryExtract(buf, maxDataLength);
    if e.Extracted? {
      ExtractedShape(buf, maxDataLength);
      DrainConserves(e.rest, maxDataLength);
      var d := Drain(e.rest, maxDataLength);
      assert Drain(buf, maxDataLength).frames[1..] == d.frames;
    }
  }

  lemma {:induction false} EmittedFramesAreWellFramed(buf: seq<byte>, maxDataLength: nat)
    ensures forall f :: f in Drain(buf, maxDataLength).frames ==> WellFramed(f, maxDataLength)
    decreases |buf|
  {
    var e := TryExtract(buf, maxDataLength);
    if e.Extracted? {
      ExtractedShape(buf, maxDataLength);
      EmittedFramesAreWellFramed(e.rest, maxDataLength);
    }
  }

  /** An idle connection holds less than one frame: at most 65 bytes of a pending IMEI frame, at most
      the length cap plus 11 of a pending data frame. */
  lemma {:induction false} LeftoverBounded(buf: seq<byte>, maxDataLength: nat)
    requires !Drain(buf, maxDataLength).violated
    ensures var rest := Drain(buf, maxDataLength).rest;
      |rest| <= if |rest| >= 4 && U32(rest, 0) != 0 then 65 else maxDataLength + 11
    decreases |buf|
  {
    var e := TryExtract(buf, maxDataLength);
    if e.Extracted? {
      LeftoverBounded(e.rest, maxDataLength);
    }
  }

  // ----- exactly the framed streams are framed -----

  /** A well-framed frame in front of any bytes is the frame that is cut off. */
  lemma FrameIsCutOff(f: Frame, rest: seq<byte>, maxDataLength: nat)
    requires WellFramed(f, maxDataLength) && |f.bytes + rest| >= 4
    ensures TryExtract(f.bytes + rest, maxDataLength) == Extracted(f, rest)
  {
    var buf := f.bytes + rest;
    var n := |f.bytes|;
    assert buf[..n] == f.bytes && buf[n..] == rest;
    SliceReads(buf, 0, n);
    SliceReads(f.bytes, 0, n);
    if f.kind == Avl {
      assert buf[4..8] == f.bytes[4..8];
      SliceReads(buf, 4, 8);
      SliceReads(f.bytes, 4, 8);
    }
  }

  /** Frames sent one after the other come out as they went in, whatever follows them. Only a bare
      three-byte IMEI frame at the very end waits for the fourth byte. */
  lemma {:induction false} DrainUndoesBytesOf(frames: seq<Frame>, rest: seq<byte>, maxDataLength: nat)
    requires forall f :: f in frames ==> WellFramed(f, maxDataLength)
    requires frames == [] || rest != [] || |frames[|frames| - 1].bytes| >= 4
    ensures var more := Drain(rest, maxDataLength);
      Drain(BytesOf(frames) + rest, maxDataLength) == more.(frames := frames + more.frames)
  {
    hide Drain, WellFramed;
    var more := Drain(rest, maxDataLength);
    if frames == [] {
      assert [] + rest == rest && [] + more.frames == more.frames;
    } else {
      var f, tail := frames[0], frames[1..];
      var behind := BytesOf(tail) + rest;
      assert f in frames && forall g :: g in tail ==> g in frames;
      FramesAreNotEmpty(frames, maxDataLength);
      assert BytesOf(frames) + rest == f.bytes + behind;
      DrainFirst(f, behind, maxDataLength);
      DrainUndoesBytesOf(tail, rest, maxDataLength);
      assert frames == [f] + tail;
      assert [f] + (tail + more.frames) == frames + more.frames;
    }
  }

  lemma DrainFirst(f: Frame, behind: seq<byte>, maxDataLength: nat)
    requires WellFramed(f, maxDataLength) && |f.bytes + behind| >= 4
    ensures var d := Drain(behind, maxDataLength);
      Drain(f.bytes + behind, maxDataLength) == d.(frames := [f] + d.frames)
  {
    hide TryExtract;
    FrameIsCutOff(f, behind, maxDataLength);
  }

  lemma FramesAreNotEmpty(frames: seq<Frame>, maxDataLength: nat)
    requires frames != [] && forall f :: f in frames ==> WellFramed(f, maxDataLength)
    ensures |frames[0].bytes| >= 3
    ensures |frames| > 1 ==> |BytesOf(frames[1..])| >= 3
  {
    assert frames[0] in frames;
    if |frames| > 1 {
      assert frames[1..][0] in frames;
    }
  }

  /** Some continuation of `buf` starts with a well-framed frame. */
  ghost predicate CanBeFramed(buf: seq<byte>, maxDataLength: nat) {
    exists more, f, rest :: Starts(buf + more, f, rest) && WellFramed(f, maxDataLength)
  }

  ghost predicate Starts(s: seq<byte>, f: Frame, rest: seq<byte>) {
    s == f.bytes + rest
  }

  /** Once the length field is there, a stream is refused exactly when nothing that may follow could
      make its first bytes a frame. */
  lemma ViolationIff(buf: seq<byte>, maxDataLength: nat)
    requires |buf| >= 4 && (U32(buf, 0) == 0 ==> |buf| >= 8)
    ensures TryExtract(buf, maxDataLength).Violation? <==> !CanBeFramed(buf, maxDataLength)
  {
    var e := TryExtract(buf, maxDataLength);
    if CanBeFramed(buf, maxDataLength) {
      var more, f, rest :| Starts(buf + more, f, rest) && WellFramed(f, maxDataLength);
      FrameIsCutOff(f, rest, maxDataLength);
      ExtractionStable(buf, more, maxDataLength);
    }
    if !e.Violation? {
      var n := if U32(buf, 0) != 0 then 2 + U16(buf, 0) else 8 + U32(buf, 4) + 4;
      var more: seq<byte> := seq(n, _ => 0);
      var whole := buf + more;
      ExtendedFrame(buf, more, maxDataLength);
      var x := TryExtract(whole, maxDataLength);
      ExtractedShape(whole, maxDataLength);
      assert Starts(whole, x.frame, x.rest);
    }
  }

  lemma ExtendedFrame(buf: seq<byte>, more: seq<byte>, maxDataLength: nat)
    requires |buf| >= 4 && (U32(buf, 0) == 0 ==> |buf| >= 8)
    requires !TryExtract(buf, maxDataLength).Violation?
    requires |more| == if U32(buf, 0) != 0 then 2 + U16(buf, 0) else 8 + U32(buf, 4) + 4
    ensures TryExtract(buf + more, maxDataLength).Extracted?
  {
    assert (buf + more)[0..4] == buf[0..4];
    SliceReads(buf, 0, 4);
    SliceReads(buf + more, 0, 4);
    if |buf| >= 8 {
      assert (buf + more)[4..8] == buf[4..8];
      SliceReads(buf, 4, 8);
      SliceReads(buf + more, 4, 8);
    }
  }

  // ----- chunking -----

  function Flatten(chunks: seq<seq<byte>>): seq<byte> {
    if chunks == [] then [] else chunks[0] + Flatten(chunks[1..])
  }

  /** Feeding chunk after chunk into a framer whose buffer is `buf`, up to the first violation. */
  function FeedAll(buf: seq<byte>, chunks: seq<seq<byte>>, maxDataLength: nat): Drained
    decreases |chunks|
  {
    if chunks == [] then Drained([], buf, false)
    else
      var d := Drain(buf + chunks[0], maxDataLength);
      if d.violated then d
      else
        var r := FeedAll(d.rest, chunks[1..], maxDataLength);
        r.(frames := d.frames + r.frames)
  }

  /** A decision already taken is not revised by bytes that arrive later. */
  lemma ExtractionStable(buf: seq<byte>, more: seq<byte>, maxDataLength: nat)
    ensures TryExtract(buf, maxDataLength).Violation? ==> TryExtract(buf + more, maxDataLength).Violation?
    ensures var e := TryExtract(buf, maxDataLength);
      e.Extracted? ==> TryExtract(buf + more, maxDataLength) == Extracted(e.frame, e.rest + more)
  {
    if |buf| >= 4 {
      assert (buf + more)[0..4] == buf[0..4];
      SliceReads(buf, 0, 4);
      SliceReads(buf + more, 0, 4);
      if |buf| >= 8 {
        assert (buf + more)[4..8] == buf[4..8];
        SliceReads(buf, 4, 8);
        SliceReads(buf + more, 4, 8);
      }
      var e := TryExtract(buf, maxDataLength);
      if e.Extracted? {
        var n := |e.frame.bytes|;
        assert (buf + more)[..n] == buf[..n];
        assert (buf + more)[n..] == buf[n..] + more;
      }
    }
  }

  /** Draining early and then draining the rest with what came later equals draining everything. */
  lemma {:induction false} DrainInTwoSteps(buf: seq<byte>, more: seq<byte>, maxDataLength: nat)
    ensures var d := Drain(buf, maxDataLength);
      var whole := Drain(buf + more, maxDataLength);
      if d.violated then whole.violated
      else
        var r := Drain(d.rest + more, maxDataLength);
        whole == r.(frames := d.frames + r.frames)
    decreases |buf|
  {
    hide TryExtract;
    var e := TryExtract(buf, maxDataLength);
    ExtractionStable(buf, more, maxDataLength);
    if e.Extracted? {
      ExtractedShape(buf, maxDataLength);
      DrainInTwoSteps(e.rest, more, maxDataLength);
      var d := Drain(e.rest, maxDataLength);
      if !d.violated {
        var r := Drain(d.rest + more, maxDataLength);
        assert [e.frame] + (d.frames + r.frames) == ([e.frame] + d.frames) + r.frames;
      }
    } else if e.Incomplete? {
      var r := Drain(buf + more, maxDataLength);
      assert [] + r.frames == r.frames;
    }
  }

  lemma {:induction false} LeftoverIsIncomplete(buf: seq<byte>, maxDataLength: nat)
    requires !Drain(buf, maxDataLength).violated
    ensures TryExtract(Drain(buf, maxDataLength).rest, maxDataLength).Incomplete?
    decreases |buf|
  {
    var e := TryExtract(buf, maxDataLength);
    if e.Extracted? {
      LeftoverIsIncomplete(e.rest, maxDataLength);
    }
  }

  /** However a stream is cut into chunks, the same frames come out and the same bytes stay behind;
      and a stream that violates the protocol does so under every cut. */
  lemma {:induction false} ChunkingIrrelevant(buf: seq<byte>, chunks: seq<seq<byte>>, maxDataLength: nat)
    requires TryExtract(buf, maxDataLength).Incomplete?
    ensures var fed := FeedAll(buf, chunks, maxDataLength);
      var whole := Drain(buf + Flatten(chunks), maxDataLength);
      fed.violated == whole.violated && (!whole.violated ==> fed == whole)
    decreases |chunks|
  {
    if chunks == [] {
      assert buf + Flatten(chunks) == buf;
    } else {
      var tail := Flatten(chunks[1..]);
      assert buf + Flatten(chunks) == (buf + chunks[0]) + tail;
      DrainInTwoSteps(buf + chunks[0], tail, maxDataLength);
      var d := Drain(buf + chunks[0], maxDataLength);
      if !d.violated {
        LeftoverIsIncomplete(buf + chunks[0], maxDataLength);
        ChunkingIrrelevant(d.rest, chunks[1..], maxDataLength);
      }
    }
  }

  /** The whole promise for one connection, from its first byte. */
  lemma StreamFraming(chunks: seq<seq<byte>>, maxDataLength: nat)
    requires !Drain(Flatten(chunks), maxDataLength).violated
    ensures var fed := FeedAll([], chunks, maxDataLength);
      && fed == Drain(Flatten(chunks), maxDataLength)
      && BytesOf(fed.frames) + fed.rest == Flatten(chunks)
      && |fed.rest| <= (if |fed.rest| >= 4 && U32(fed.rest, 0) != 0 then 65 else maxDataLength + 11)
      && (forall f :: f in fed.frames ==> WellFramed(f, maxDataLength))
  {
    assert [] + Flatten(chunks) == Flatten(chunks);
    ChunkingIrrelevant([], chunks, maxDataLength);
    DrainConserves(Flatten(chunks), maxDataLength);
    LeftoverBounded(Flatten(chunks), maxDataLength);
    EmittedFramesAreWellFramed(Flatten(chunks), maxDataLength);
  }
}
