/** The storage format of a trace: a flat stream of 5-byte frames with no
    header, and the three ways the recorder turns bytes back into frames
    (the fixed-offset reader of loadAuton, the sequential reader of the
    playback prefetch, and the exact decoder both reduce to on a full file). */
module FrameCodec {
  import opened AutonHeader

  /** One byte of a file. */
  type Byte = x: int | 0 <= x < 256

  /** Bytes of a stored frame. */
  const FrameSize: nat := 5

  /** The byte a `signed char` is written as (two's complement). */
  function ToByte(v: SChar): (b: Byte)
    ensures b % 256 == v % 256
  {
    if v < 0 then v + 256 else v
  }

  /** The `signed char` a byte is read back as. */
  function FromByte(b: Byte): (v: SChar)
    ensures v % 256 == b % 256
  {
    if b < 128 then b else b - 256
  }

  /** Writing and reading a byte are inverse bijections. */
  lemma ByteRoundTrip(v: SChar, b: Byte)
    ensures FromByte(ToByte(v)) == v
    ensures ToByte(FromByte(b)) == b
  {
  }

  /** The five bytes written for one frame, in the order spd, horizontal,
      turn, sht, lift. */
  function EncodeFrame(f: JoyState): (r: seq<Byte>)
    ensures |r| == FrameSize
    ensures FromByte(r[0]) == f.spd && FromByte(r[1]) == f.horizontal && FromByte(r[2]) == f.turn
    ensures FromByte(r[3]) == f.sht && FromByte(r[4]) == f.lift
  {
    [ToByte(f.spd), ToByte(f.horizontal), ToByte(f.turn), ToByte(f.sht), ToByte(f.lift)]
  }

  /** The frame read from five bytes, in the same channel order. */
  function DecodeFrame(b: seq<Byte>): (f: JoyState)
    requires |b| == FrameSize
    ensures EncodeFrame(f) == b
  {
    JoyState(FromByte(b[0]), FromByte(b[1]), FromByte(b[2]), FromByte(b[3]), FromByte(b[4]))
  }

  /** Decoding undoes encoding. */
  lemma FrameRoundTrip(f: JoyState)
    ensures DecodeFrame(EncodeFrame(f)) == f
  {
  }

  /** The file contents written for a trace: its frames' bytes back to back. */
  function EncodeTrace(s: seq<JoyState>): (r: seq<Byte>)
    ensures |r| == FrameSize * |s|
  {
    if s == [] then [] else EncodeTrace(s[..|s| - 1]) + EncodeFrame(s[|s| - 1])
  }

  /** Frame i of a trace occupies bytes 5i .. 5i+4 of its encoding. */
  lemma {:induction false} EncodeTraceFrame(s: seq<JoyState>, i: nat)
    requires i < |s|
    ensures FrameSize * i + FrameSize <= |EncodeTrace(s)|
    ensures EncodeTrace(s)[FrameSize * i .. FrameSize * i + FrameSize] == EncodeFrame(s[i])
  {
    var p := s[..|s| - 1];
    assert EncodeTrace(s) == EncodeTrace(p) + EncodeFrame(s[|s| - 1]);
    if i < |s| - 1 {
      EncodeTraceFrame(p, i);
      assert p[i] == s[i];
    }
  }

  /** The frame stored at frame offset i of a file long enough to hold it. */
  function FrameAt(bytes: seq<Byte>, i: nat): (f: JoyState)
    requires FrameSize * i + FrameSize <= |bytes|
  {
    DecodeFrame(bytes[FrameSize * i .. FrameSize * i + FrameSize])
  }

  /** The frame read at offset i is the one frame whose encoding is the
      five bytes stored there. */
  lemma FrameAtEncodes(bytes: seq<Byte>, i: nat, f: JoyState)
    requires FrameSize * i + FrameSize <= |bytes|
    ensures EncodeFrame(FrameAt(bytes, i)) == bytes[FrameSize * i .. FrameSize * i + FrameSize]
    ensures EncodeFrame(f) == bytes[FrameSize * i .. FrameSize * i + FrameSize] ==> f == FrameAt(bytes, i)
  {
    FrameRoundTrip(f);
  }

  /** Reading frame i of an encoded trace gives frame i back. */
  lemma EncodedFrameAt(s: seq<JoyState>, i: nat)
    requires i < |s|
    ensures FrameSize * i + FrameSize <= |EncodeTrace(s)|
    ensures FrameAt(EncodeTrace(s), i) == s[i]
  {
    EncodeTraceFrame(s, i);
  }

  // ---------------------------------------------------------------------
  // Sequential reader (playback prefetch): `fread` of five bytes into a
  // zero-initialised buffer; past the end of the file the missing bytes
  // stay zero.

  /** Byte k of a file, or 0 past its end. */
  function PaddedByte(bytes: seq<Byte>, k: nat): Byte {
    if k < |bytes| then bytes[k] else 0
  }

  /** Frame i read sequentially from a file. */
  function StreamFrame(bytes: seq<Byte>, i: nat): (f: JoyState)
    ensures FrameSize * i + FrameSize <= |bytes| ==> f == FrameAt(bytes, i)
    ensures |bytes| <= FrameSize * i ==> f == Still
  {
    var window := seq<Byte>(FrameSize, j requires 0 <= j < FrameSize => PaddedByte(bytes, FrameSize * i + j));
    assert FrameSize * i + FrameSize <= |bytes| ==> window == bytes[FrameSize * i .. FrameSize * i + FrameSize] by {
      if FrameSize * i + FrameSize <= |bytes| {
        forall j | 0 <= j < FrameSize
          ensures window[j] == bytes[FrameSize * i .. FrameSize * i + FrameSize][j]
        {
          assert window[j] == PaddedByte(bytes, FrameSize * i + j);
        }
      }
    }
    assert |bytes| <= FrameSize * i ==> window == [0, 0, 0, 0, 0] by {
      if |bytes| <= FrameSize * i {
        forall j | 0 <= j < FrameSize
          ensures window[j] == 0
        {
          assert window[j] == PaddedByte(bytes, FrameSize * i + j);
        }
      }
    }
    DecodeFrame(window)
  }

  /** A whole trace read sequentially from a file. */
  function StreamTrace(bytes: seq<Byte>): (s: seq<JoyState>)
    ensures |s| == TraceLength
  {
    seq(TraceLength, i requires 0 <= i < TraceLength => StreamFrame(bytes, i))
  }

  /** A trace holding frame k as read in sequence at every k is the
      streamed trace. */
  lemma StreamTraceOfFrames(t: seq<JoyState>, bytes: seq<Byte>)
    requires |t| == TraceLength
    requires forall k :: 0 <= k < TraceLength ==> t[k] == StreamFrame(bytes, k)
    ensures t == StreamTrace(bytes)
  {
  }

  /** Streaming an encoded trace gives the trace back. */
  lemma StreamRoundTrip(s: seq<JoyState>)
    requires |s| == TraceLength
    ensures StreamTrace(EncodeTrace(s)) == s
  {
    var bytes := EncodeTrace(s);
    forall i | 0 <= i < TraceLength
      ensures s[i] == StreamFrame(bytes, i)
    {
      EncodedFrameAt(s, i);
    }
    StreamTraceOfFrames(s, bytes);
  }

  /** The five-byte buffer after `fread(read, 1, 5, f)` into a zeroed buffer
      with the stream at `pos`: the bytes that remain, then zeros. */
  function ReadFive(bytes: seq<Byte>, pos: nat): (r: seq<Byte>)
    requires pos <= |bytes|
    ensures |r| == FrameSize
  {
    var zeros: seq<Byte> := [0, 0, 0, 0, 0];
    var n := Min(FrameSize, |bytes| - pos);
    bytes[pos .. pos + n] + zeros[n..]
  }

  /** Byte j of the buffer that reads frame i in sequence is byte 5i+j of
      the file, or 0 past its end. */
  lemma SequentialReadByte(bytes: seq<Byte>, i: nat, j: nat)
    requires j < FrameSize
    ensures ReadFive(bytes, Min(FrameSize * i, |bytes|))[j] == PaddedByte(bytes, FrameSize * i + j)
  {
    var pos := Min(FrameSize * i, |bytes|);
    if j < Min(FrameSize, |bytes| - pos) {
      assert pos == FrameSize * i;
    }
  }

  /** Reading frames one after another from the start: before frame i the
      stream is at min(5i, |bytes|), reading it gives StreamFrame(bytes, i),
      and afterwards the stream is at min(5(i+1), |bytes|). */
  lemma SequentialRead(bytes: seq<Byte>, i: nat)
    ensures var pos := Min(FrameSize * i, |bytes|);
            && pos + Min(FrameSize, |bytes| - pos) == Min(FrameSize * (i + 1), |bytes|)
            && DecodeFrame(ReadFive(bytes, pos)) == StreamFrame(bytes, i)
  {
    var pos := Min(FrameSize * i, |bytes|);
    var r := ReadFive(bytes, pos);
    forall j | 0 <= j < FrameSize
      ensures r[j] == PaddedByte(bytes, FrameSize * i + j)
    {
      SequentialReadByte(bytes, i, j);
    }
    var window := seq<Byte>(FrameSize, j requires 0 <= j < FrameSize => PaddedByte(bytes, FrameSize * i + j));
    assert r == window;
  }

  // ---------------------------------------------------------------------
  // Fixed-offset reader (loadAuton): byte j of frame i is read with a seek
  // to 5i+j and a one-byte `fread` into a reused 5-byte buffer; a read past
  // the end leaves that buffer byte as it was: the byte with the same j of
  // the last frame that was complete enough, or the buffer's uninitialised
  // contents `uninit`.

  function Min(a: int, b: int): int {
    if a <= b then a else b
  }

  /** Buffer byte j after frame i has been read. */
  function StaleByte(bytes: seq<Byte>, uninit: seq<Byte>, i: nat, j: nat): (b: Byte)
    requires |uninit| == FrameSize && j < FrameSize
    ensures FrameSize * i + j < |bytes| ==> b == bytes[FrameSize * i + j]
    ensures |bytes| <= j ==> b == uninit[j]
  {
    if j < |bytes| then
      assert FrameSize * i + j < |bytes| ==> i <= (|bytes| - 1 - j) / FrameSize;
      var last := Min(i, (|bytes| - 1 - j) / FrameSize);
      bytes[FrameSize * last + j]
    else
      uninit[j]
  }

  /** Reading byte j of frame i: the byte at offset 5i+j if the file has it,
      otherwise what the buffer held after frame i-1 (or `uninit` for i = 0). */
  lemma StaleByteStep(bytes: seq<Byte>, uninit: seq<Byte>, i: nat, j: nat)
    requires |uninit| == FrameSize && j < FrameSize
    ensures StaleByte(bytes, uninit, i, j) ==
      if FrameSize * i + j < |bytes| then bytes[FrameSize * i + j]
      else if i == 0 then uninit[j]
      else StaleByte(bytes, uninit, i - 1, j)
  {
    if j < |bytes| {
      var q := (|bytes| - 1 - j) / FrameSize;
      assert FrameSize * q <= |bytes| - 1 - j < FrameSize * q + FrameSize;
      if FrameSize * i + j < |bytes| {
        assert i <= q;
      } else {
        assert q < i;
      }
    }
  }

  /** Buffer byte j before frame i is read. */
  function BufferBefore(bytes: seq<Byte>, uninit: seq<Byte>, i: nat, j: nat): Byte
    requires |uninit| == FrameSize && j < FrameSize
  {
    if i == 0 then uninit[j] else StaleByte(bytes, uninit, i - 1, j)
  }

  /** Frame i as loadAuton reads it. */
  function LoadedFrame(bytes: seq<Byte>, uninit: seq<Byte>, i: nat): (f: JoyState)
    requires |uninit| == FrameSize
    ensures FrameSize * i + FrameSize <= |bytes| ==> f == FrameAt(bytes, i)
    ensures |bytes| == 0 ==> f == DecodeFrame(uninit)
  {
    var buffer: seq<Byte> := seq(FrameSize, j requires 0 <= j < FrameSize => StaleByte(bytes, uninit, i, j));
    assert FrameSize * i + FrameSize <= |bytes| ==> buffer == bytes[FrameSize * i .. FrameSize * i + FrameSize] by {
      if FrameSize * i + FrameSize <= |bytes| {
        forall j | 0 <= j < FrameSize
          ensures buffer[j] == bytes[FrameSize * i + j]
        {
          StaleByteStep(bytes, uninit, i, j);
        }
      }
    }
    assert |bytes| == 0 ==> buffer == uninit;
    DecodeFrame(buffer)
  }

  /** A buffer holding byte j of frame i at every j decodes to frame i. */
  lemma DecodeLoadedBuffer(bytes: seq<Byte>, uninit: seq<Byte>, i: nat, read: seq<Byte>)
    requires |uninit| == FrameSize && |read| == FrameSize
    requires forall j :: 0 <= j < FrameSize ==> read[j] == StaleByte(bytes, uninit, i, j)
    ensures DecodeFrame(read) == LoadedFrame(bytes, uninit, i)
  {
    assert read == seq(FrameSize, j requires 0 <= j < FrameSize => StaleByte(bytes, uninit, i, j));
  }

  /** The whole trace as loadAuton reads it. */
  function LoadedTrace(bytes: seq<Byte>, uninit: seq<Byte>): (s: seq<JoyState>)
    requires |uninit| == FrameSize
    ensures |s| == TraceLength
  {
    seq(TraceLength, i requires 0 <= i < TraceLength => LoadedFrame(bytes, uninit, i))
  }

  /** A trace holding frame k as loadAuton reads it at every k is the loaded trace. */
  lemma LoadedTraceOfFrames(t: seq<JoyState>, bytes: seq<Byte>, uninit: seq<Byte>)
    requires |uninit| == FrameSize && |t| == TraceLength
    requires forall k :: 0 <= k < TraceLength ==> t[k] == LoadedFrame(bytes, uninit, k)
    ensures t == LoadedTrace(bytes, uninit)
  {
  }

  /** Loading an encoded trace gives the trace back, whatever the buffer
      held before. */
  lemma LoadRoundTrip(s: seq<JoyState>, uninit: seq<Byte>)
    requires |s| == TraceLength && |uninit| == FrameSize
    ensures LoadedTrace(EncodeTrace(s), uninit) == s
  {
    var bytes := EncodeTrace(s);
    forall i | 0 <= i < TraceLength
      ensures s[i] == LoadedFrame(bytes, uninit, i)
    {
      EncodedFrameAt(s, i);
    }
    LoadedTraceOfFrames(s, bytes, uninit);
  }

  /** A file of at least 3750 bytes is read the same way by both readers. */
  lemma FullFileReadersAgree(bytes: seq<Byte>, uninit: seq<Byte>)
    requires |uninit| == FrameSize && FrameSize * TraceLength <= |bytes|
    ensures LoadedTrace(bytes, uninit) == StreamTrace(bytes)
  {
    forall i | 0 <= i < TraceLength
      ensures LoadedTrace(bytes, uninit)[i] == StreamTrace(bytes)[i]
    {
      assert FrameSize * i + FrameSize <= FrameSize * TraceLength;
    }
  }
}
