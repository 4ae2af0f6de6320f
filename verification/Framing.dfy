/** Length-delimited framing over a byte stream. */
module Framing {
  import opened Wrappers
  import opened Bytes

  const MAX_FRAME: nat := 16 * 1024 * 1024

  /** The bytes of one frame on the wire. */
  function FrameBytes(payload: ByteString): (b: ByteString)
    requires |payload| <= MAX_FRAME
    ensures |b| == 4 + |payload|
  {
    Pow256Values();
    BigEndian(|payload|, 4) + payload
  }

  datatype ReadOutcome = Frame(payload: ByteString) | EndOfStream | FrameTooLarge | UnexpectedEof

  /** What one read finds at the front of the stream, and what it leaves. */
  function Read(b: ByteString): (r: (ReadOutcome, ByteString))
    ensures r.0.Frame? ==> |r.1| < |b|
  {
    if |b| < 4 then (EndOfStream, [])
    else
      var len := FromBigEndian(b[..4]);
      if len > MAX_FRAME then (FrameTooLarge, b[4..])
      else if |b| - 4 < len then (UnexpectedEof, [])
      else (Frame(b[4..4 + len]), b[4 + len..])
  }

  /** A frame's length stands before it in four bytes, most significant first. */
  lemma FrameBytesAre(payload: ByteString)
    requires |payload| <= MAX_FRAME
    ensures
      var n := |payload|;
      FrameBytes(payload) == [n / 0x100_0000, n / 0x1_0000 % 0x100, n / 0x100 % 0x100, n % 0x100] + payload
  {
    BigEndianDigits(|payload|);
    hide BigEndian, Pow256;
  }

  /** The length that four bytes announce. */
  lemma AnnouncedLength(b: ByteString)
    requires |b| == 4
    ensures FromBigEndian(b) == 0x100_0000 * (b[0] as int) + 0x1_0000 * (b[1] as int) + 0x100 * (b[2] as int) + b[3]
  {
    Pow256Values();
    assert Pow256(3) == 0x100_0000;
    MostSignificantFirst(b);
    MostSignificantFirst(b[1..]);
    MostSignificantFirst(b[2..]);
    MostSignificantFirst(b[3..]);
    assert b[1..][1..] == b[2..] && b[2..][1..] == b[3..] && b[3..][1..] == [];
  }

  /** Which outcome a read has: fewer than four bytes are a clean end; then the announced length is refused above
      16 MiB, and else that many bytes must follow. */
  lemma ReadOutcomes(b: ByteString)
    ensures Read(b).0 == EndOfStream <==> |b| < 4
    ensures |b| >= 4 ==>
      var n := 0x100_0000 * (b[0] as int) + 0x1_0000 * (b[1] as int) + 0x100 * (b[2] as int) + b[3];
      && (Read(b).0 == FrameTooLarge <==> n > 16777216)
      && (Read(b).0 == UnexpectedEof <==> n <= 16777216 && 4 + n > |b|)
      && (n <= 16777216 && 4 + n <= |b| ==> Read(b) == (Frame(b[4..4 + n]), b[4 + n..]))
  {
    if |b| >= 4 {
      AnnouncedLength(b[..4]);
    }
  }

  /** A byte stream: written at the back, read at the front. */
  class Wire {
    var bytes: ByteString

    constructor (bytes: ByteString)
      ensures this.bytes == bytes
    {
      this.bytes := bytes;
    }

    /** An oversized payload is refused and nothing is written. */
    method WriteFrame(payload: ByteString) returns (ok: bool)
      modifies this
      ensures ok <==> |payload| <= MAX_FRAME
      ensures bytes == if ok then old(bytes) + FrameBytes(payload) else old(bytes)
    {
      if |payload| > MAX_FRAME {
        return false;
      }
      Pow256Values();
      bytes := bytes + BigEndian(|payload|, 4);
      bytes := bytes + payload;
      return true;
    }

    method ReadExact(n: nat) returns (buf: Option<ByteString>)
      modifies this
      ensures buf == if n <= |old(bytes)| then Some(old(bytes)[..n]) else None
      ensures bytes == if n <= |old(bytes)| then old(bytes)[n..] else []
    {
      if n <= |bytes| {
        buf := Some(bytes[..n]);
        bytes := bytes[n..];
      } else {
        buf := None;
        bytes := [];
      }
    }

    /** A stream that ends before a complete header counts as cleanly ended. */
    method ReadFrame() returns (r: ReadOutcome)
      modifies this
      ensures (r, bytes) == Read(old(bytes))
    {
      var header := ReadExact(4);
      if header.None? {
        return EndOfStream;
      }
      var len := FromBigEndian(header.value);
      if len > MAX_FRAME {
        return FrameTooLarge;
      }
      var body := ReadExact(len);
      if body.None? {
        return UnexpectedEof;
      }
      assert old(bytes)[4..][..len] == old(bytes)[4..4 + len];
      assert old(bytes)[4..][len..] == old(bytes)[4 + len..];
      return Frame(body.value);
    }
  }

  // ----- Reading back what was written -----

  predicate Sendable(frames: seq<ByteString>) {
    forall i | 0 <= i < |frames| :: |frames[i]| <= MAX_FRAME
  }

  function WireBytes(frames: seq<ByteString>): ByteString
    requires Sendable(frames)
  {
    if frames == [] then [] else FrameBytes(frames[0]) + WireBytes(frames[1..])
  }

  /** All frames up to the first read that finds none, and what that read found. */
  function ReadAll(b: ByteString): (seq<ByteString>, ReadOutcome)
    decreases |b|
  {
    var (outcome, rest) := Read(b);
    if outcome.Frame? then
      var (frames, last) := ReadAll(rest);
      ([outcome.payload] + frames, last)
    else ([], outcome)
  }

  lemma ReadWritten(payload: ByteString, rest: ByteString)
    requires |payload| <= MAX_FRAME
    ensures Read(FrameBytes(payload) + rest) == (Frame(payload), rest)
  {
    Pow256Values();
    var b := FrameBytes(payload) + rest;
    assert b[..4] == BigEndian(|payload|, 4);
    assert b[4..4 + |payload|] == payload;
    assert b[4 + |payload|..] == rest;
  }

  /** Any concatenation of accepted frames reads back as those frames and then a clean end. */
  lemma {:induction false} FramesReadBack(frames: seq<ByteString>)
    requires Sendable(frames)
    ensures ReadAll(WireBytes(frames)) == (frames, EndOfStream)
  {
    if frames != [] {
      ReadWritten(frames[0], WireBytes(frames[1..]));
      FramesReadBack(frames[1..]);
      assert [frames[0]] + frames[1..] == frames;
    }
  }

  /** A stream cut anywhere reads back as a prefix of the frames: never as a frame that was not written. */
  lemma {:induction false} CutStreamReadsPrefix(frames: seq<ByteString>, cut: nat)
    requires Sendable(frames) && cut <= |WireBytes(frames)|
    ensures
      var (read, last) := ReadAll(WireBytes(frames)[..cut]);
      read <= frames && (last == EndOfStream || last == UnexpectedEof)
  {
    Pow256Values();
    var b := WireBytes(frames)[..cut];
    if frames != [] && cut >= 4 {
      var first := FrameBytes(frames[0]);
      assert b[..4] == first[..4] == BigEndian(|frames[0]|, 4);
      if cut >= |first| {
        var rest := WireBytes(frames[1..])[..cut - |first|];
        assert b == first + rest;
        ReadWritten(frames[0], rest);
        CutStreamReadsPrefix(frames[1..], cut - |first|);
      }
    }
  }
}
