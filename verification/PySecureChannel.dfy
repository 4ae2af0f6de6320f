/** The second implementation of the record layer (`secure.py`): same chunk layout, laxer parsing. */
module PySecureChannel {
  import opened Wrappers
  import opened Bytes
  import opened Cbor
  import opened SecureChannel

  // ----- Encrypting -----

  /** `plaintext[i : i + NOISE_MAX_PAYLOAD]` for `i` in steps of NOISE_MAX_PAYLOAD from `start` on. */
  function SlicesFrom(p: ByteString, start: nat): seq<ByteString>
    decreases if start < |p| then |p| - start else 0
  {
    if start >= |p| then [] else
    [Slice(p, start, start + NOISE_MAX_PAYLOAD)] + SlicesFrom(p, start + NOISE_MAX_PAYLOAD)
  }

  /** The two implementations cut a plaintext into the same chunks. */
  lemma {:induction false} SlicesAreChunks(p: ByteString, start: nat)
    requires start <= |p|
    ensures SlicesFrom(p, start) == Chunks(p[start..])
    decreases |p| - start
  {
    var rest := p[start..];
    if start < |p| {
      var next := start + NOISE_MAX_PAYLOAD;
      if next < |p| {
        assert rest[..NOISE_MAX_PAYLOAD] == p[start..next];
        assert rest[NOISE_MAX_PAYLOAD..] == p[next..];
        SlicesAreChunks(p, next);
      } else {
        assert Slice(p, start, next) == rest;
        assert SlicesFrom(p, next) == [];
        if |rest| == NOISE_MAX_PAYLOAD {
          assert Chunks(rest) == [rest];
        }
      }
    }
  }

  /** `None` stands for the overflow of a chunk count beyond 32 bits; the other implementation truncates it. */
  method EncryptFrame(t: Transport, p: ByteString) returns (out: Option<ByteString>)
    requires t.Valid()
    modifies t`sealed, t`sendNonce
    ensures t.Valid()
    ensures out.Some? <==> Countable(p)
    ensures out.Some? ==> out.value == Encrypted(t.cipher, old(t.sendNonce), p) && t.sealed == old(t.sealed) + Chunks(p)
    ensures out.None? ==> t.sealed == old(t.sealed)
  {
    hide Chunks, Layout, SlicesFrom, Item, CountBytes;
    var chunks := SlicesFrom(p, 0);
    SlicesAreChunks(p, 0);
    assert p[0..] == p;
    if |chunks| >= 0x1_0000_0000 {
      return None;
    }
    var bytes := CountBytes(|chunks|);
    ghost var n := t.sendNonce;
    NoLayout(t.cipher, n);
    for k := 0 to |chunks|
      invariant t.Valid() && t.sendNonce == n + k
      invariant t.sealed == old(t.sealed) + chunks[..k]
      invariant bytes == CountBytes(|chunks|) + Layout(t.cipher, n, chunks[..k])
    {
      NextItem(t.cipher, n, chunks, k);
      assert chunks[..k + 1] == chunks[..k] + [chunks[k]];
      var message := t.WriteMessage(chunks[k]);
      bytes := bytes + Item(message.value);
    }
    assert chunks[..|chunks|] == chunks;
    return Some(bytes);
  }

  // ----- Decrypting -----

  function Joined(p: ByteString, r: Option<ByteString>): Option<ByteString> {
    if r.None? then None else Some(p + r.value)
  }

  /** Opening `count` chunks from `pos` on; slices that run past the end are cut short. `None` is a failed message. */
  function OpenSlices(c: Cipher, sealed: seq<ByteString>, n: nat, frame: ByteString, pos: nat, count: nat)
    : Option<ByteString>
    decreases count
  {
    if count == 0 then Some([]) else
    var len := FromBigEndian(Slice(frame, pos, pos + 2));
    if !c.Opens(sealed, n, Slice(frame, pos + 2, pos + 2 + len)) then None else
    Joined(sealed[n], OpenSlices(c, sealed, n + 1, frame, pos + 2 + len, count - 1))
  }

  function PyDecrypted(c: Cipher, sealed: seq<ByteString>, n: nat, frame: ByteString): Option<ByteString> {
    OpenSlices(c, sealed, n, frame, 4, FromBigEndian(Slice(frame, 0, 4)))
  }

  lemma JoinedLaws(p: ByteString, q: ByteString, r: Option<ByteString>)
    ensures Joined([], r) == r && Joined(p, None) == None && Joined(p, Some([])) == Some(p)
    ensures Joined(p, Joined(q, r)) == Joined(p + q, r)
  {
    assert p + [] == p;
    if r.Some? {
      assert [] + r.value == r.value;
      assert p + (q + r.value) == p + q + r.value;
    }
  }

  method DecryptFrame(t: Transport, frame: ByteString) returns (r: Option<ByteString>)
    modifies t`receiveNonce
    ensures r == PyDecrypted(t.cipher, t.sealed, old(t.receiveNonce), frame)
  {
    hide Joined, Slice;
    var count := FromBigEndian(Slice(frame, 0, 4));
    var pos: nat := 4;
    var out: ByteString := [];
    ghost var whole := OpenSlices(t.cipher, t.sealed, t.receiveNonce, frame, 4, count);
    JoinedLaws([], [], whole);
    for k := 0 to count
      invariant whole == Joined(out, OpenSlices(t.cipher, t.sealed, t.receiveNonce, frame, pos, count - k))
    {
      var len := FromBigEndian(Slice(frame, pos, pos + 2));
      pos := pos + 2;
      ghost var rest := OpenSlices(t.cipher, t.sealed, t.receiveNonce + 1, frame, pos + len, count - k - 1);
      var p := t.ReadMessage(Slice(frame, pos, pos + len));
      JoinedLaws(out, p.GetOr([]), rest);
      if p.None? {
        return None;
      }
      out := out + p.value;
      pos := pos + len;
    }
    JoinedLaws(out, [], None);
    return Some(out);
  }

  // ----- The two decoders -----

  /** The announced chunks lie within the frame. */
  predicate ChunksInFrame(frame: ByteString, pos: nat, count: nat)
    decreases count
  {
    count == 0 ||
    (pos + 2 <= |frame| &&
     var next := pos + 2 + FromBigEndian(frame[pos..pos + 2]);
     next <= |frame| && ChunksInFrame(frame, next, count - 1))
  }

  predicate WellFramed(frame: ByteString) {
    |frame| >= 4 && ChunksInFrame(frame, 4, FromBigEndian(frame[..4]))
  }

  lemma {:induction false} OpeningsAgree(
    c: Cipher, sealed: seq<ByteString>, n: nat, frame: ByteString, pos: nat, count: nat)
    ensures
      var strict, lax := OpenChunks(c, sealed, n, frame, pos, count), OpenSlices(c, sealed, n, frame, pos, count);
      && (strict.out.Ok? <==> lax.Some? && ChunksInFrame(frame, pos, count))
      && (strict.out.Ok? ==> lax == Some(strict.out.value))
    decreases count
  {
    hide Cipher.Opens, FromBigEndian;
    if count > 0 && pos + 2 <= |frame| {
      var next := pos + 2 + FromBigEndian(frame[pos..pos + 2]);
      if next <= |frame| {
        OpeningsAgree(c, sealed, n + 1, frame, next, count - 1);
      }
    }
  }

  /** The strict decoder accepts exactly the well-framed inputs that the lax one accepts, with the same plaintext. */
  lemma StrictIsLaxAndWellFramed(c: Cipher, sealed: seq<ByteString>, n: nat, frame: ByteString)
    ensures
      var strict, lax := Decrypted(c, sealed, n, frame), PyDecrypted(c, sealed, n, frame);
      && (strict.out.Ok? <==> lax.Some? && WellFramed(frame))
      && (strict.out.Ok? ==> lax == Some(strict.out.value))
  {
    if |frame| >= 4 {
      assert Slice(frame, 0, 4) == frame[..4];
      OpeningsAgree(c, sealed, n, frame, 4, FromBigEndian(frame[..4]));
    }
  }

  /** `b` holds the items of `count` sealed chunks, but the last header announces more bytes than follow it. */
  ghost predicate LastCutShort(c: Cipher, sealed: seq<ByteString>, n: nat, b: ByteString, count: nat)
    requires c.Proper() && ChunkSized(sealed)
  {
    && count > 0 && n + count <= |sealed|
    && exists header: ByteString ::
         && |header| == 2 && FromBigEndian(header) > |c.seal(n + count - 1, sealed[n + count - 1])|
         && b == Layout(c, n, sealed[n..n + count - 1]) + header + c.seal(n + count - 1, sealed[n + count - 1])
  }

  lemma OnlyCutShort(c: Cipher, sealed: seq<ByteString>, n: nat, b: ByteString)
    requires c.Proper() && ChunkSized(sealed) && |b| >= 2
    ensures LastCutShort(c, sealed, n, b, 1) <==>
      n < |sealed| && b[2..] == c.seal(n, sealed[n]) && FromBigEndian(b[..2]) > |b| - 2
  {
    hide FromBigEndian;
    assert n < |sealed| ==> sealed[n..n] == [];
    if LastCutShort(c, sealed, n, b, 1) {
      var header: ByteString :|
        && |header| == 2 && FromBigEndian(header) > |c.seal(n, sealed[n])| && b == [] + header + c.seal(n, sealed[n]);
      assert b[..2] == header;
    } else if n < |sealed| && b[2..] == c.seal(n, sealed[n]) {
      assert b == [] + b[..2] + b[2..];
    }
  }

  lemma FirstOfCutShort(c: Cipher, sealed: seq<ByteString>, n: nat, b: ByteString, count: nat)
    requires c.Proper() && ChunkSized(sealed) && count > 1
    ensures n < |sealed| ==> |c.seal(n, sealed[n])| <= 0xFFFF
    ensures LastCutShort(c, sealed, n, b, count) <==>
      && n < |sealed|
      && Item(c.seal(n, sealed[n])) <= b
      && LastCutShort(c, sealed, n + 1, b[|Item(c.seal(n, sealed[n]))|..], count - 1)
  {
    hide FromBigEndian, Item;
    if n + count <= |sealed| {
      var message := c.seal(n, sealed[n]);
      assert |message| == |sealed[n]| + TAG;
      var last := c.seal(n + count - 1, sealed[n + count - 1]);
      var later := Layout(c, n + 1, sealed[n + 1..n + count - 1]);
      assert sealed[n..n + count - 1][1..] == sealed[n + 1..n + count - 1];
      assert Layout(c, n, sealed[n..n + count - 1]) == Item(message) + later;
      forall header: ByteString
        ensures b == Item(message) + later + header + last <==>
          Item(message) <= b && b[|Item(message)|..] == later + header + last
      {
        assert Item(message) + later + header + last == Item(message) + (later + header + last);
        if Item(message) <= b {
          assert b == Item(message) + b[|Item(message)|..];
        }
      }
    }
  }

  lemma NotCutShort(c: Cipher, sealed: seq<ByteString>, n: nat, b: ByteString, count: nat)
    requires c.Proper() && ChunkSized(sealed) && (count == 0 || |b| < 2)
    ensures !LastCutShort(c, sealed, n, b, count)
  {
  }

  lemma PastTheEnd(c: Cipher, sealed: seq<ByteString>, n: nat, frame: ByteString, pos: nat, count: nat)
    requires c.Proper() && pos + 2 > |frame|
    ensures OpenSlices(c, sealed, n, frame, pos, count) == if count == 0 then Some([]) else None
  {
    if n < |sealed| {
      assert |c.seal(n, sealed[n])| == |sealed[n]| + TAG;
    }
  }

  /** The lax reader opens what the strict one opens, and besides only a last chunk cut short. */
  lemma {:induction false} LaxOpensIff(
    c: Cipher, sealed: seq<ByteString>, n: nat, frame: ByteString, pos: nat, count: nat)
    requires c.Proper() && ChunkSized(sealed) && pos <= |frame| && n <= |sealed|
    ensures
      var strict, lax := OpenChunks(c, sealed, n, frame, pos, count), OpenSlices(c, sealed, n, frame, pos, count);
      && (lax.Some? <==> strict.out.Ok? || LastCutShort(c, sealed, n, frame[pos..], count))
      && (lax.Some? ==> n + count <= |sealed| && lax.value == Flatten(sealed[n..n + count]))
    decreases count
  {
    hide LastCutShort, Layout, Item, FromBigEndian;
    var b := frame[pos..];
    if count == 0 {
      assert sealed[n..n] == [];
      NotCutShort(c, sealed, n, b, count);
    } else if |b| < 2 {
      PastTheEnd(c, sealed, n, frame, pos, count);
      NotCutShort(c, sealed, n, b, count);
    } else {
      var len := FromBigEndian(b[..2]);
      assert b[..2] == frame[pos..pos + 2];
      var next := pos + 2 + len;
      if count == 1 {
        OnlyCutShort(c, sealed, n, b);
      } else {
        FirstOfCutShort(c, sealed, n, b, count);
      }
      if n < |sealed| {
        assert |c.seal(n, sealed[n])| == |sealed[n]| + TAG;
        BeginsWithItemIff(b, c.seal(n, sealed[n]));
      }
      if next <= |frame| {
        assert b[2..2 + len] == frame[pos + 2..next];
        if c.Opens(sealed, n, b[2..2 + len]) {
          LaxOpensIff(c, sealed, n + 1, frame, next, count - 1);
        }
      } else {
        assert Slice(frame, pos + 2, next) == b[2..];
        PastTheEnd(c, sealed, n + 1, frame, next, count - 1);
      }
    }
  }

  /** Exactly what the lax decoder accepts beyond the strict one: fewer than four bytes, all zero, and a frame whose
      last chunk announces more bytes than there are. It returns sealed plaintext in every case. */
  lemma LaxAcceptsIff(c: Cipher, sealed: seq<ByteString>, n: nat, frame: ByteString)
    requires c.Proper() && ChunkSized(sealed) && n <= |sealed|
    ensures
      var lax := PyDecrypted(c, sealed, n, frame);
      && (lax.Some? <==>
            || Decrypted(c, sealed, n, frame).out.Ok?
            || (|frame| < 4 && FromBigEndian(frame) == 0)
            || (|frame| >= 4 && LastCutShort(c, sealed, n, frame[4..], FromBigEndian(frame[..4]))))
      && (lax.Some? ==>
            var count := FromBigEndian(Slice(frame, 0, 4));
            n + count <= |sealed| && lax.value == Flatten(sealed[n..n + count]))
  {
    hide LastCutShort, FromBigEndian, OpenSlices, OpenChunks, Flatten, ChunkSized, Slice;
    if |frame| < 4 {
      LaxOnShort(c, sealed, n, frame);
    } else {
      LaxOpensIff(c, sealed, n, frame, 4, FromBigEndian(frame[..4]));
    }
  }

  lemma LaxOnShort(c: Cipher, sealed: seq<ByteString>, n: nat, frame: ByteString)
    requires c.Proper() && |frame| < 4 && n <= |sealed|
    ensures Slice(frame, 0, 4) == frame
    ensures PyDecrypted(c, sealed, n, frame) == if FromBigEndian(frame) == 0 then Some([]) else None
    ensures Flatten(sealed[n..n]) == []
  {
    hide OpenSlices;
    assert Slice(frame, 0, 4) == frame;
    PastTheEnd(c, sealed, n, frame, 4, FromBigEndian(frame));
  }

  /** Inputs that split the decoders: an empty frame, and a chunk that announces more bytes than there are. */
  lemma LaxAcceptsMore(c: Cipher, p: ByteString)
    requires c.Proper() && |p| <= NOISE_MAX_PAYLOAD - 1
    ensures PyDecrypted(c, [p], 0, []) == Some([]) && Decrypted(c, [p], 0, []).out == Err(ShortFrame)
    ensures |c.seal(0, p)| + 1 <= 0xFFFF
    ensures
      var frame := CountBytes(1) + BigEndianOf(|c.seal(0, p)| + 1) + c.seal(0, p);
      PyDecrypted(c, [p], 0, frame) == Some(p) && Decrypted(c, [p], 0, frame).out == Err(TruncatedChunk)
  {
    var message := c.seal(0, p);
    assert |message| == |p| + TAG;
    var header := BigEndianOf(|message| + 1);
    var frame := CountBytes(1) + header + message;
    assert frame[..4] == CountBytes(1) && frame[4..6] == header && frame[6..] == message;
    assert Slice(frame, 0, 4) == frame[..4];
    assert Slice(frame, 4, 6) == header;
    assert Slice(frame, 6, 6 + |message| + 1) == message;
    assert p + [] == p;
  }

  function BigEndianOf(n: nat): (b: ByteString)
    requires n <= 0xFFFF
    ensures |b| == 2 && FromBigEndian(b) == n
  {
    Pow256Values();
    BigEndian(n, 2)
  }
}
