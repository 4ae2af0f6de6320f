/** The encrypted record layer: frames cut into sealed chunks with nonces in lock step.
    The cipher is ideal: a message opens at nonce `n` exactly when it is what the sender sealed at nonce `n`. */
module SecureChannel {
  import opened Wrappers
  import opened Bytes
  import opened Framing

  const NOISE_MAX_PAYLOAD: nat := 65535 - 16

  const TAG: nat := 16

  /** What sealing a plaintext at a nonce gives: the plaintext's length and a tag of 16 bytes. */
  datatype Cipher = Cipher(seal: (nat, ByteString) -> ByteString) {
    ghost predicate Proper() {
      forall n, p :: |seal(n, p)| == |p| + TAG
    }

    /** The message opens at nonce `n` to what was sealed there. */
    predicate Opens(sealed: seq<ByteString>, n: nat, message: ByteString) {
      n < |sealed| && message == seal(n, sealed[n])
    }
  }

  /** One direction of a channel: the sender's state and the receiver's. */
  class Transport {
    const cipher: Cipher
    var sealed: seq<ByteString>   // the plaintexts sealed so far, by nonce
    var sendNonce: nat
    var receiveNonce: nat

    constructor (cipher: Cipher)
      ensures this.cipher == cipher && sealed == [] && sendNonce == receiveNonce == 0
    {
      this.cipher, sealed, sendNonce, receiveNonce := cipher, [], 0, 0;
    }

    ghost predicate Valid()
      reads this
    {
      cipher.Proper() && sendNonce == |sealed|
    }

    /** Seal one message; the library refuses an oversized one. */
    method WriteMessage(p: ByteString) returns (message: Option<ByteString>)
      requires Valid()
      modifies this`sealed, this`sendNonce
      ensures Valid()
      ensures message == if |p| <= NOISE_MAX_PAYLOAD then Some(cipher.seal(old(sendNonce), p)) else None
      ensures sealed == if |p| <= NOISE_MAX_PAYLOAD then old(sealed) + [p] else old(sealed)
    {
      if |p| > NOISE_MAX_PAYLOAD {
        return None;
      }
      message := Some(cipher.seal(sendNonce, p));
      sealed, sendNonce := sealed + [p], sendNonce + 1;
    }

    /** Open one message; the nonce moves only on success. */
    method ReadMessage(message: ByteString) returns (p: Option<ByteString>)
      modifies this`receiveNonce
      ensures p == if cipher.Opens(sealed, old(receiveNonce), message) then Some(sealed[old(receiveNonce)]) else None
      ensures receiveNonce == if p.Some? then old(receiveNonce) + 1 else old(receiveNonce)
    {
      if !cipher.Opens(sealed, receiveNonce, message) {
        return None;
      }
      p, receiveNonce := Some(sealed[receiveNonce]), receiveNonce + 1;
    }
  }

  // ----- Encrypting -----

  /** `plaintext.chunks(NOISE_MAX_PAYLOAD)`. */
  function Chunks(p: ByteString): (r: seq<ByteString>)
    ensures forall i | 0 <= i < |r| :: 0 < |r[i]| <= NOISE_MAX_PAYLOAD
  {
    if p == [] then []
    else if |p| <= NOISE_MAX_PAYLOAD then [p]
    else [p[..NOISE_MAX_PAYLOAD]] + Chunks(p[NOISE_MAX_PAYLOAD..])
  }

  predicate ChunkSized(chunks: seq<ByteString>) {
    forall i | 0 <= i < |chunks| :: |chunks[i]| <= NOISE_MAX_PAYLOAD
  }

  /** A 16-bit length and a message. */
  function Item(message: ByteString): (b: ByteString)
    requires |message| <= 0xFFFF
    ensures |b| == 2 + |message|
  {
    Pow256Values();
    BigEndian(|message|, 2) + message
  }

  /** The sealed chunks, the first one at nonce `n`. */
  function Layout(c: Cipher, n: nat, chunks: seq<ByteString>): ByteString
    requires c.Proper() && ChunkSized(chunks)
    decreases |chunks|
  {
    if chunks == [] then [] else
    assert |c.seal(n, chunks[0])| == |chunks[0]| + TAG;
    Item(c.seal(n, chunks[0])) + Layout(c, n + 1, chunks[1..])
  }

  /** The chunk count is cast to 32 bits. */
  function CountBytes(n: nat): (b: ByteString)
    ensures |b| == 4
    ensures n < 0x1_0000_0000 ==> FromBigEndian(b) == n
  {
    Pow256Values();
    BigEndian(n % 0x1_0000_0000, 4)
  }

  function Encrypted(c: Cipher, n: nat, p: ByteString): ByteString
    requires c.Proper()
  {
    CountBytes(|Chunks(p)|) + Layout(c, n, Chunks(p))
  }

  /** The chunks are the plaintext's consecutive pieces of 65519 bytes; only the last one may be shorter. */
  lemma {:induction false} ChunkIs(p: ByteString, i: nat)
    requires i < |Chunks(p)|
    ensures 65519 * i < |p|
    ensures Chunks(p)[i] == p[65519 * i..if 65519 * (i + 1) < |p| then 65519 * (i + 1) else |p|]
  {
    if |p| > NOISE_MAX_PAYLOAD && i > 0 {
      var rest := p[NOISE_MAX_PAYLOAD..];
      ChunkIs(rest, i - 1);
      var from := 65519 * (i - 1);
      var to := if 65519 * i < |rest| then 65519 * i else |rest|;
      SliceOfTail(p, NOISE_MAX_PAYLOAD, from, to);
    }
  }

  lemma SliceOfTail(p: ByteString, k: nat, from: nat, to: nat)
    requires k + to <= |p| && from <= to
    ensures p[k..][from..to] == p[k + from..k + to]
  {
  }

  /** The items of sealed chunks, the first one at nonce `n`. */
  function Items(c: Cipher, n: nat, chunks: seq<ByteString>): (items: seq<ByteString>)
    requires c.Proper() && ChunkSized(chunks)
    ensures |items| == |chunks|
  {
    seq(|chunks|, i requires 0 <= i < |chunks| =>
      assert |c.seal(n + i, chunks[i])| == |chunks[i]| + TAG; Item(c.seal(n + i, chunks[i])))
  }

  /** Behind the count come the items of the sealed chunks, in the order of their nonces. */
  lemma {:induction false} LayoutIs(c: Cipher, n: nat, chunks: seq<ByteString>)
    requires c.Proper() && ChunkSized(chunks)
    ensures Layout(c, n, chunks) == Flatten(Items(c, n, chunks))
    decreases |chunks|
  {
    hide Item;
    if chunks != [] {
      LayoutIs(c, n + 1, chunks[1..]);
      assert Items(c, n, chunks)[1..] == Items(c, n + 1, chunks[1..]);
    }
  }

  /** The chunk count in four bytes and a chunk's length in two, most significant first. */
  lemma CountAndLengthBytes(n: nat, message: ByteString)
    requires |message| <= 0xFFFF
    ensures n < 0x1_0000_0000 ==>
      CountBytes(n) == [n / 0x100_0000, n / 0x1_0000 % 0x100, n / 0x100 % 0x100, n % 0x100]
    ensures Item(message) == [|message| / 0x100, |message| % 0x100] + message
  {
    BigEndianDigits(n);
    BigEndianDigits(|message|);
    hide BigEndian, Pow256;
  }

  lemma {:induction false} LayoutSnoc(c: Cipher, n: nat, chunks: seq<ByteString>, chunk: ByteString)
    requires c.Proper() && ChunkSized(chunks) && |chunk| <= NOISE_MAX_PAYLOAD
    ensures |c.seal(n + |chunks|, chunk)| <= 0xFFFF
    ensures Layout(c, n, chunks + [chunk]) == Layout(c, n, chunks) + Item(c.seal(n + |chunks|, chunk))
    decreases |chunks|
  {
    assert |c.seal(n + |chunks|, chunk)| == |chunk| + TAG;
    if chunks == [] {
      assert [chunk][1..] == [];
    } else {
      assert (chunks + [chunk])[1..] == chunks[1..] + [chunk];
      LayoutSnoc(c, n + 1, chunks[1..], chunk);
    }
  }

  /** The layout grows by the item of the next chunk. */
  lemma NextItem(c: Cipher, n: nat, chunks: seq<ByteString>, k: nat)
    requires c.Proper() && ChunkSized(chunks) && k < |chunks|
    ensures |c.seal(n + k, chunks[k])| <= 0xFFFF
    ensures Layout(c, n, chunks[..k + 1]) == Layout(c, n, chunks[..k]) + Item(c.seal(n + k, chunks[k]))
  {
    hide Layout, Item;
    LayoutSnoc(c, n, chunks[..k], chunks[k]);
    assert chunks[..k] + [chunks[k]] == chunks[..k + 1];
  }

  method EncryptFrame(t: Transport, p: ByteString) returns (out: ByteString)
    requires t.Valid()
    modifies t`sealed, t`sendNonce
    ensures t.Valid()
    ensures out == Encrypted(t.cipher, old(t.sendNonce), p)
    ensures t.sealed == old(t.sealed) + Chunks(p)
  {
    hide Chunks, Layout, Item, CountBytes;
    var chunks := Chunks(p);
    out := CountBytes(|chunks|);
    ghost var n := t.sendNonce;
    NoLayout(t.cipher, n);
    for k := 0 to |chunks|
      invariant t.Valid() && t.sendNonce == n + k
      invariant t.sealed == old(t.sealed) + chunks[..k]
      invariant out == CountBytes(|chunks|) + Layout(t.cipher, n, chunks[..k])
    {
      NextItem(t.cipher, n, chunks, k);
      assert chunks[..k + 1] == chunks[..k] + [chunks[k]];
      var message := t.WriteMessage(chunks[k]);
      out := out + Item(message.value);
    }
    assert chunks[..|chunks|] == chunks;
  }

  lemma NoLayout(c: Cipher, n: nat)
    requires c.Proper()
    ensures Layout(c, n, []) == []
  {
  }

  // ----- Decrypting -----

  datatype CryptoError = ShortFrame | TruncatedHeader | TruncatedChunk | NotAuthentic

  /** The plaintext or the error, and the receiver's nonce afterwards. */
  datatype Opened = Opened(out: Result<ByteString, CryptoError>, nonce: nat)

  function Prefixed(p: ByteString, r: Opened): Opened {
    if r.out.Err? then r else Opened(Ok(p + r.out.value), r.nonce)
  }

  lemma PrefixedLaws(p: ByteString, q: ByteString, r: Opened)
    ensures Prefixed([], r) == r
    ensures r.out.Err? ==> Prefixed(p, r) == r
    ensures Prefixed(p, Prefixed(q, r)) == Prefixed(p + q, r)
    ensures Prefixed(p, Opened(Ok([]), r.nonce)) == Opened(Ok(p), r.nonce)
  {
    assert p + [] == p;
    if r.out.Ok? {
      assert [] + r.out.value == r.out.value;
      assert p + (q + r.out.value) == p + q + r.out.value;
    }
  }

  /** Opening `count` chunks of `frame` from `pos` on. */
  function OpenChunks(c: Cipher, sealed: seq<ByteString>, n: nat, frame: ByteString, pos: nat, count: nat): Opened
    decreases count
  {
    if count == 0 then Opened(Ok([]), n)
    else if pos + 2 > |frame| then Opened(Err(TruncatedHeader), n)
    else
      var len := FromBigEndian(frame[pos..pos + 2]);
      if pos + 2 + len > |frame| then Opened(Err(TruncatedChunk), n)
      else if !c.Opens(sealed, n, frame[pos + 2..pos + 2 + len]) then Opened(Err(NotAuthentic), n)
      else Prefixed(sealed[n], OpenChunks(c, sealed, n + 1, frame, pos + 2 + len, count - 1))
  }

  function Decrypted(c: Cipher, sealed: seq<ByteString>, n: nat, frame: ByteString): Opened {
    if |frame| < 4 then Opened(Err(ShortFrame), n)
    else OpenChunks(c, sealed, n, frame, 4, FromBigEndian(frame[..4]))
  }

  method DecryptFrame(t: Transport, frame: ByteString) returns (r: Result<ByteString, CryptoError>)
    modifies t`receiveNonce
    ensures Opened(r, t.receiveNonce) == Decrypted(t.cipher, t.sealed, old(t.receiveNonce), frame)
  {
    hide Prefixed;
    if |frame| < 4 {
      return Err(ShortFrame);
    }
    var count := FromBigEndian(frame[..4]);
    var pos: nat := 4;
    var out: ByteString := [];
    ghost var whole := OpenChunks(t.cipher, t.sealed, t.receiveNonce, frame, 4, count);
    PrefixedLaws([], [], whole);
    for k := 0 to count
      invariant whole == Prefixed(out, OpenChunks(t.cipher, t.sealed, t.receiveNonce, frame, pos, count - k))
    {
      ghost var here := OpenChunks(t.cipher, t.sealed, t.receiveNonce, frame, pos, count - k);
      PrefixedLaws(out, [], here);
      if pos + 2 > |frame| {
        return Err(TruncatedHeader);
      }
      var len := FromBigEndian(frame[pos..pos + 2]);
      pos := pos + 2;
      if pos + len > |frame| {
        return Err(TruncatedChunk);
      }
      ghost var rest := OpenChunks(t.cipher, t.sealed, t.receiveNonce + 1, frame, pos + len, count - k - 1);
      var p := t.ReadMessage(frame[pos..pos + len]);
      if p.None? {
        return Err(NotAuthentic);
      }
      PrefixedLaws(out, p.value, rest);
      out := out + p.value;
      pos := pos + len;
    }
    PrefixedLaws(out, [], Opened(Ok([]), t.receiveNonce));
    return Ok(out);
  }

  // ----- Exactly which frames are accepted -----

  /** `chunks` are the ones sealed from nonce `n` on. */
  predicate SealedAt(sealed: seq<ByteString>, n: nat, chunks: seq<ByteString>) {
    n + |chunks| <= |sealed| && sealed[n..n + |chunks|] == chunks
  }

  /** The bytes begin with the item of a message exactly when the length and the bytes behind it say so. */
  lemma BeginsWithItemIff(b: ByteString, message: ByteString)
    requires |message| <= 0xFFFF
    ensures
      Item(message) <= b <==>
        && 2 <= |b| && 2 + FromBigEndian(b[..2]) <= |b|
        && b[2..2 + FromBigEndian(b[..2])] == message
  {
    Pow256Values();
    var item := Item(message);
    assert item[..2] == BigEndian(|message|, 2) && item[2..] == message;
    if item <= b {
      assert b[..2] == item[..2] && b[2..2 + |message|] == item[2..];
    }
    if 2 <= |b| && 2 + FromBigEndian(b[..2]) <= |b| && b[2..2 + FromBigEndian(b[..2])] == message {
      BigEndianOfFrom(b[..2]);
      assert b == b[..2] + message + b[2 + |message|..];
    }
  }

  lemma PrefixOfConcat(x: ByteString, y: ByteString, b: ByteString)
    ensures x + y <= b <==> x <= b && y <= b[|x|..]
  {
    if x <= b && y <= b[|x|..] {
      assert b == x + b[|x|..];
    }
    if x + y <= b {
      assert b[|x|..|x| + |y|] == y;
    }
  }

  /** The layout of the next chunks at the front of `b`, item by item. */
  lemma BeginsWithLayout(c: Cipher, sealed: seq<ByteString>, n: nat, b: ByteString, count: nat)
    requires c.Proper() && ChunkSized(sealed) && count > 0 && n + count <= |sealed|
    ensures |c.seal(n, sealed[n])| <= 0xFFFF
    ensures
      var item := Item(c.seal(n, sealed[n]));
      Layout(c, n, sealed[n..n + count]) <= b <==>
        item <= b && Layout(c, n + 1, sealed[n + 1..n + count]) <= b[|item|..]
  {
    assert |c.seal(n, sealed[n])| == |sealed[n]| + TAG;
    var chunks := sealed[n..n + count];
    assert chunks[1..] == sealed[n + 1..n + count];
    PrefixOfConcat(Item(c.seal(n, sealed[n])), Layout(c, n + 1, chunks[1..]), b);
  }

  /** Opening succeeds exactly when the bytes begin with the layout of the next `count` sealed chunks;
      it returns them and moves the nonce past them. */
  lemma {:induction false} OpensIffLayout(
    c: Cipher, sealed: seq<ByteString>, n: nat, frame: ByteString, pos: nat, count: nat)
    requires c.Proper() && ChunkSized(sealed) && pos <= |frame| && n <= |sealed|
    ensures
      var r := OpenChunks(c, sealed, n, frame, pos, count);
      && (r.out.Ok? <==> n + count <= |sealed| && Layout(c, n, sealed[n..n + count]) <= frame[pos..])
      && (r.out.Ok? ==> r.nonce == n + count && r.out.value == Flatten(sealed[n..n + count]))
      && n <= r.nonce <= |sealed|
    decreases count
  {
    hide Layout, Item;
    var b := frame[pos..];
    if count == 0 {
      assert sealed[n..n] == [];
      NoLayout(c, n);
    } else if n < |sealed| {
      var message := c.seal(n, sealed[n]);
      assert |message| == |sealed[n]| + TAG;
      BeginsWithItemIff(b, message);
      if n + count <= |sealed| {
        BeginsWithLayout(c, sealed, n, b, count);
        assert sealed[n..n + count][1..] == sealed[n + 1..n + count];
      }
      if pos + 2 <= |frame| {
        assert b[..2] == frame[pos..pos + 2];
        var next := pos + 2 + FromBigEndian(b[..2]);
        if next <= |frame| {
          assert b[2..next - pos] == frame[pos + 2..next];
          assert b[next - pos..] == frame[next..];
          OpensIffLayout(c, sealed, n + 1, frame, next, count - 1);
        }
      }
    }
  }

  /** The receiver accepts a frame exactly when, behind the count, it begins with the layout of the next sealed
      chunks; then it returns their plaintext. */
  lemma AcceptsIffNextChunks(c: Cipher, sealed: seq<ByteString>, n: nat, frame: ByteString)
    requires c.Proper() && ChunkSized(sealed) && n <= |sealed|
    ensures
      var r := Decrypted(c, sealed, n, frame);
      && (r.out.Ok? <==>
            && |frame| >= 4
            && var count := FromBigEndian(frame[..4]);
               n + count <= |sealed| && Layout(c, n, sealed[n..n + count]) <= frame[4..])
      && (r.out.Ok? ==> r.nonce == n + FromBigEndian(frame[..4]) && r.out.value == Flatten(sealed[n..r.nonce]))
      && n <= r.nonce <= |sealed|
  {
    hide Layout, OpenChunks;
    if |frame| >= 4 {
      OpensIffLayout(c, sealed, n, frame, 4, FromBigEndian(frame[..4]));
    }
  }

  /** What is wrong with the next chunk, given the bytes from its header on and the receiver's nonce. */
  function Fault(c: Cipher, sealed: seq<ByteString>, n: nat, b: ByteString): Option<CryptoError> {
    if |b| < 2 then Some(TruncatedHeader)
    else if |b| < 2 + (0x100 * b[0] as int + b[1] as int) then Some(TruncatedChunk)
    else if n < |sealed| && b[2..2 + (0x100 * b[0] as int + b[1] as int)] == c.seal(n, sealed[n]) then None
    else Some(NotAuthentic)
  }

  lemma TwoBytes(b: ByteString)
    requires |b| == 2
    ensures FromBigEndian(b) == 0x100 * b[0] as int + b[1] as int
  {
    Pow256Values();
    MostSignificantFirst(b);
    MostSignificantFirst(b[1..]);
  }

  /** A rejected frame: some announced chunks are the next sealed ones, and the one behind them has the fault. */
  lemma {:induction false} RejectedAt(
    c: Cipher, sealed: seq<ByteString>, n: nat, frame: ByteString, pos: nat, count: nat) returns (k: nat)
    requires c.Proper() && ChunkSized(sealed) && pos <= |frame| && n <= |sealed|
    requires OpenChunks(c, sealed, n, frame, pos, count).out.Err?
    ensures k < count && n + k <= |sealed| && Layout(c, n, sealed[n..n + k]) <= frame[pos..]
    ensures OpenChunks(c, sealed, n, frame, pos, count).nonce == n + k
    ensures
      Some(OpenChunks(c, sealed, n, frame, pos, count).out.error)
        == Fault(c, sealed, n + k, frame[pos..][|Layout(c, n, sealed[n..n + k])|..])
    decreases count
  {
    hide Layout, Fault, OpenChunks;
    var b := frame[pos..];
    NoChunks(c, sealed, n, frame, pos);
    FirstChunk(c, sealed, n, frame, pos, count);
    if Fault(c, sealed, n, b).Some? {
      NothingLaidOut(c, sealed, n, b);
      return 0;
    }
    var next := pos + 2 + FromBigEndian(b[..2]);
    var later := RejectedAt(c, sealed, n + 1, frame, next, count - 1);
    assert frame[next..] == b[next - pos..];
    OneMoreItem(c, sealed, n, b, later);
    return later + 1;
  }

  lemma NoChunks(c: Cipher, sealed: seq<ByteString>, n: nat, frame: ByteString, pos: nat)
    ensures OpenChunks(c, sealed, n, frame, pos, 0).out.Ok?
  {
  }

  /** Opening stops at the first chunk if that has a fault, and goes on behind it otherwise. */
  lemma FirstChunk(c: Cipher, sealed: seq<ByteString>, n: nat, frame: ByteString, pos: nat, count: nat)
    requires pos <= |frame| && count > 0
    ensures
      var b := frame[pos..];
      var fault := Fault(c, sealed, n, b);
      && (fault.Some? ==> OpenChunks(c, sealed, n, frame, pos, count) == Opened(Err(fault.value), n))
      && (fault.None? ==>
            && 2 <= |b| && 2 + FromBigEndian(b[..2]) <= |b| && n < |sealed|
            && b[2..2 + FromBigEndian(b[..2])] == c.seal(n, sealed[n])
            && OpenChunks(c, sealed, n, frame, pos, count)
                 == Prefixed(sealed[n],
                      OpenChunks(c, sealed, n + 1, frame, pos + 2 + FromBigEndian(b[..2]), count - 1)))
  {
    hide FromBigEndian;
    var b := frame[pos..];
    if 2 <= |b| {
      assert b[..2] == frame[pos..pos + 2];
      TwoBytes(b[..2]);
      var next := pos + 2 + FromBigEndian(b[..2]);
      assert next <= |frame| ==> b[2..next - pos] == frame[pos + 2..next];
    }
  }

  lemma NothingLaidOut(c: Cipher, sealed: seq<ByteString>, n: nat, b: ByteString)
    requires c.Proper() && n <= |sealed|
    ensures sealed[n..n] == [] && Layout(c, n, []) == [] && b[0..] == b
  {
  }

  lemma OneMoreItem(c: Cipher, sealed: seq<ByteString>, n: nat, b: ByteString, k: nat)
    requires c.Proper() && ChunkSized(sealed) && n + 1 + k <= |sealed|
    requires |b| >= 2 && |b| >= 2 + FromBigEndian(b[..2])
    requires b[2..2 + FromBigEndian(b[..2])] == c.seal(n, sealed[n])
    requires Layout(c, n + 1, sealed[n + 1..n + 1 + k]) <= b[2 + FromBigEndian(b[..2])..]
    ensures Layout(c, n, sealed[n..n + k + 1]) <= b
    ensures
      b[|Layout(c, n, sealed[n..n + k + 1])|..]
        == b[2 + FromBigEndian(b[..2])..][|Layout(c, n + 1, sealed[n + 1..n + 1 + k])|..]
  {
    hide Item;
    var message := c.seal(n, sealed[n]);
    assert |message| == |sealed[n]| + TAG;
    BeginsWithItemIff(b, message);
    BeginsWithLayout(c, sealed, n, b, k + 1);
    assert sealed[n..n + k + 1][1..] == sealed[n + 1..n + 1 + k];
  }

  /** Why a frame is rejected: it is shorter than its count, or behind `k` of its chunks, which are the next sealed
      ones, comes one that is cut off or not the one sealed next. The nonce stays at that chunk. */
  lemma RejectionCause(c: Cipher, sealed: seq<ByteString>, n: nat, frame: ByteString) returns (k: nat)
    requires c.Proper() && ChunkSized(sealed) && n <= |sealed|
    requires Decrypted(c, sealed, n, frame).out.Err?
    ensures Decrypted(c, sealed, n, frame).nonce == n + k
    ensures Decrypted(c, sealed, n, frame).out.error == ShortFrame <==> |frame| < 4
    ensures |frame| >= 4 ==>
      && k < FromBigEndian(frame[..4]) && n + k <= |sealed|
      && Layout(c, n, sealed[n..n + k]) <= frame[4..]
      && Some(Decrypted(c, sealed, n, frame).out.error)
           == Fault(c, sealed, n + k, frame[4..][|Layout(c, n, sealed[n..n + k])|..])
  {
    hide OpenChunks, Layout;
    if |frame| < 4 {
      return 0;
    }
    k := RejectedAt(c, sealed, n, frame, 4, FromBigEndian(frame[..4]));
  }

  // ----- Honest delivery -----

  lemma {:induction false} ChunksMakePlaintext(p: ByteString)
    ensures Flatten(Chunks(p)) == p
    ensures ChunkSized(Chunks(p))
  {
    if |p| > NOISE_MAX_PAYLOAD {
      ChunksMakePlaintext(p[NOISE_MAX_PAYLOAD..]);
    } else if p != [] {
      assert [p][1..] == [];
    }
  }

  /** A plaintext short enough for a 32-bit chunk count. */
  predicate Countable(p: ByteString) {
    |Chunks(p)| < 0x1_0000_0000
  }

  /** Decrypting the next encrypted frame returns its plaintext and brings the nonces together behind it. */
  lemma DecryptUndoesEncrypt(c: Cipher, sealed: seq<ByteString>, n: nat, p: ByteString)
    requires c.Proper() && ChunkSized(sealed) && Countable(p) && SealedAt(sealed, n, Chunks(p))
    ensures Decrypted(c, sealed, n, Encrypted(c, n, p)) == Opened(Ok(p), n + |Chunks(p)|)
  {
    hide Layout, Chunks, Decrypted;
    var frame := Encrypted(c, n, p);
    assert frame[..4] == CountBytes(|Chunks(p)|);
    assert frame[4..] == Layout(c, n, Chunks(p));
    ChunksMakePlaintext(p);
    AcceptsIffNextChunks(c, sealed, n, frame);
  }

  function AllChunks(frames: seq<ByteString>): (r: seq<ByteString>)
    ensures ChunkSized(r)
  {
    if frames == [] then [] else Chunks(frames[0]) + AllChunks(frames[1..])
  }

  /** The frames as they are encrypted one after the other from nonce `n` on. */
  function EncryptAll(c: Cipher, n: nat, frames: seq<ByteString>): (r: seq<ByteString>)
    requires c.Proper()
    ensures |r| == |frames|
    decreases |frames|
  {
    if frames == [] then [] else [Encrypted(c, n, frames[0])] + EncryptAll(c, n + |Chunks(frames[0])|, frames[1..])
  }

  /** Decrypting frames in order, up to the first that is rejected. */
  function DecryptAll(c: Cipher, sealed: seq<ByteString>, n: nat, frames: seq<ByteString>): (seq<ByteString>, nat)
    decreases |frames|
  {
    if frames == [] then ([], n) else
    var first := Decrypted(c, sealed, n, frames[0]);
    if first.out.Err? then ([], first.nonce) else
    var (rest, last) := DecryptAll(c, sealed, first.nonce, frames[1..]);
    ([first.out.value] + rest, last)
  }

  /** Any sequence of frames, encrypted and delivered in order, comes out as it went in, with equal nonces. */
  lemma {:induction false} InOrderDelivery(c: Cipher, sealed: seq<ByteString>, n: nat, frames: seq<ByteString>)
    requires c.Proper() && ChunkSized(sealed) && SealedAt(sealed, n, AllChunks(frames))
    requires forall i | 0 <= i < |frames| :: Countable(frames[i])
    ensures DecryptAll(c, sealed, n, EncryptAll(c, n, frames)) == (frames, n + |AllChunks(frames)|)
    decreases |frames|
  {
    hide Chunks, Decrypted, Encrypted, ChunkSized;
    if frames != [] {
      var first, rest := Chunks(frames[0]), AllChunks(frames[1..]);
      var m := n + |first|;
      SplitSealed(sealed, n, first, rest);
      DecryptUndoesEncrypt(c, sealed, n, frames[0]);
      InOrderDelivery(c, sealed, m, frames[1..]);
      assert EncryptAll(c, n, frames)[1..] == EncryptAll(c, m, frames[1..]);
      assert [frames[0]] + frames[1..] == frames;
    }
  }

  lemma SplitSealed(sealed: seq<ByteString>, n: nat, first: seq<ByteString>, rest: seq<ByteString>)
    requires SealedAt(sealed, n, first + rest)
    ensures SealedAt(sealed, n, first) && SealedAt(sealed, n + |first|, rest)
  {
    var all := first + rest;
    var m := n + |first|;
    assert sealed[n..m] == all[..|first|] == first;
    assert sealed[m..m + |rest|] == all[|first|..] == rest;
  }

  // ----- Hostile delivery -----

  /** The sender sends a frame, or somebody delivers some bytes as a frame. */
  datatype Event = Send(p: ByteString) | Deliver(frame: ByteString)

  datatype Session = Session(
    sent: seq<ByteString>,     // the frames sent
    sealed: seq<ByteString>,   // their chunks
    nonce: nat,                // the receiver's nonce
    got: seq<ByteString>,      // the frames accepted
    reading: bool)             // the receiver stops at the first rejected frame

  function Step(c: Cipher, s: Session, e: Event): Session {
    match e
    case Send(p) => s.(sent := s.sent + [p], sealed := s.sealed + Chunks(p))
    case Deliver(frame) =>
      if !s.reading then s else
      var r := Decrypted(c, s.sealed, s.nonce, frame);
      if r.out.Err? then s.(nonce := r.nonce, reading := false)
      else s.(nonce := r.nonce, got := s.got + [r.out.value])
  }

  function After(c: Cipher, s: Session, events: seq<Event>): Session
    decreases |events|
  {
    if events == [] then s else After(c, Step(c, s, events[0]), events[1..])
  }

  const START := Session([], [], 0, [], true)

  /** What was accepted is the plaintext of a prefix of the sealed chunks, up to the nonce while reading. */
  ghost predicate SessionInv(s: Session, k: nat) {
    && ChunkSized(s.sealed) && Flatten(s.sealed) == Flatten(s.sent)
    && k <= s.nonce <= |s.sealed| && (s.reading ==> k == s.nonce)
    && Flatten(s.got) == Flatten(s.sealed[..k])
  }

  lemma StepKeepsInv(c: Cipher, s: Session, e: Event, k: nat) returns (k': nat)
    requires c.Proper() && SessionInv(s, k)
    ensures SessionInv(Step(c, s, e), k')
  {
    hide Decrypted, Chunks;
    k' := k;
    match e
    case Send(p) =>
      ChunksMakePlaintext(p);
      FlattenConcat(s.sealed, Chunks(p));
      FlattenSnoc(s.sent, p);
      assert (s.sealed + Chunks(p))[..k] == s.sealed[..k];
    case Deliver(frame) =>
      if s.reading {
        AcceptsIffNextChunks(c, s.sealed, s.nonce, frame);
        var r := Decrypted(c, s.sealed, s.nonce, frame);
        if r.out.Ok? {
          k' := r.nonce;
          FlattenSnoc(s.got, r.out.value);
          FlattenConcat(s.sealed[..k], s.sealed[k..k']);
          assert s.sealed[..k] + s.sealed[k..k'] == s.sealed[..k'];
        }
      }
  }

  lemma {:induction false} AfterKeepsInv(c: Cipher, s: Session, events: seq<Event>, k: nat) returns (k': nat)
    requires c.Proper() && SessionInv(s, k)
    ensures SessionInv(After(c, s, events), k')
    decreases |events|
  {
    hide Step, SessionInv;
    k' := k;
    if events != [] {
      k' := StepKeepsInv(c, s, events[0], k);
      k' := AfterKeepsInv(c, Step(c, s, events[0]), events[1..], k');
    }
  }

  lemma StartInv()
    ensures SessionInv(START, 0)
  {
  }

  /** Whatever is delivered (replayed, reordered, dropped, cut up or forged), the accepted bytes are a prefix of
      the bytes sent. */
  lemma AcceptedIsPrefixOfSent(c: Cipher, events: seq<Event>)
    requires c.Proper()
    ensures Flatten(After(c, START, events).got) <= Flatten(After(c, START, events).sent)
  {
    hide After, ChunkSized, Flatten;
    StartInv();
    var k := AfterKeepsInv(c, START, events, 0);
    var s := After(c, START, events);
    FlattenConcat(s.sealed[..k], s.sealed[k..]);
    assert s.sealed[..k] + s.sealed[k..] == s.sealed;
  }

  function Sends(frames: seq<ByteString>): (events: seq<Event>)
    ensures |events| == |frames|
  {
    seq(|frames|, i requires 0 <= i < |frames| => Send(frames[i]))
  }

  function Deliveries(frames: seq<ByteString>): (events: seq<Event>)
    ensures |events| == |frames|
  {
    seq(|frames|, i requires 0 <= i < |frames| => Deliver(frames[i]))
  }

  lemma {:induction false} AfterConcat(c: Cipher, s: Session, a: seq<Event>, b: seq<Event>)
    ensures After(c, s, a + b) == After(c, After(c, s, a), b)
    decreases |a|
  {
    hide Step;
    if a == [] {
      assert a + b == b;
    } else {
      assert (a + b)[1..] == a[1..] + b;
      AfterConcat(c, Step(c, s, a[0]), a[1..], b);
    }
  }

  lemma {:induction false} AfterSends(c: Cipher, s: Session, frames: seq<ByteString>)
    ensures After(c, s, Sends(frames)) == s.(sent := s.sent + frames, sealed := s.sealed + AllChunks(frames))
    decreases |frames|
  {
    hide Chunks, Step;
    if frames == [] {
      assert s.sent + [] == s.sent && s.sealed + [] == s.sealed;
    } else {
      var p := frames[0];
      OneSend(c, s, p);
      AfterSends(c, s.(sent := s.sent + [p], sealed := s.sealed + Chunks(p)), frames[1..]);
      assert Sends(frames)[0] == Send(p) && Sends(frames)[1..] == Sends(frames[1..]);
      assert s.sent + [p] + frames[1..] == s.sent + frames;
      assert s.sealed + Chunks(p) + AllChunks(frames[1..]) == s.sealed + AllChunks(frames);
    }
  }

  lemma OneSend(c: Cipher, s: Session, p: ByteString)
    ensures Step(c, s, Send(p)) == s.(sent := s.sent + [p], sealed := s.sealed + Chunks(p))
  {
  }

  lemma {:induction false} AfterDeliveries(c: Cipher, s: Session, frames: seq<ByteString>)
    requires s.reading && |DecryptAll(c, s.sealed, s.nonce, frames).0| == |frames|
    ensures
      var (got, nonce) := DecryptAll(c, s.sealed, s.nonce, frames);
      After(c, s, Deliveries(frames)) == s.(nonce := nonce, got := s.got + got)
    decreases |frames|
  {
    hide Decrypted;
    if frames == [] {
      assert s.got + [] == s.got;
    } else {
      var t := Step(c, s, Deliver(frames[0]));
      AfterDeliveries(c, t, frames[1..]);
      assert Deliveries(frames)[1..] == Deliveries(frames[1..]);
      var got := DecryptAll(c, s.sealed, s.nonce, frames).0;
      assert s.got + [got[0]] + got[1..] == s.got + got;
    }
  }

  /** Without interference the receiver accepts every frame, one for one. */
  lemma HonestSession(c: Cipher, frames: seq<ByteString>)
    requires c.Proper() && forall i | 0 <= i < |frames| :: Countable(frames[i])
    ensures
      var s := After(c, START, Sends(frames) + Deliveries(EncryptAll(c, 0, frames)));
      s.sent == frames && s.got == frames && s.reading && s.nonce == |s.sealed|
  {
    hide AllChunks, EncryptAll, DecryptAll, After;
    var wire := EncryptAll(c, 0, frames);
    AfterConcat(c, START, Sends(frames), Deliveries(wire));
    AfterSends(c, START, frames);
    assert [] + frames == frames && [] + AllChunks(frames) == AllChunks(frames);
    InOrderDelivery(c, AllChunks(frames), 0, frames);
    AfterDeliveries(c, After(c, START, Sends(frames)), wire);
  }

  /** Frame boundaries are not protected: two frames can be delivered as one. */
  lemma FramesCanBeMerged(c: Cipher, p: ByteString, q: ByteString)
    requires c.Proper() && 0 < |p| <= NOISE_MAX_PAYLOAD && 0 < |q| <= NOISE_MAX_PAYLOAD
    ensures After(c, START, [Send(p), Send(q), Deliver(CountBytes(2) + Layout(c, 0, [p, q]))]).got == [p + q]
  {
    hide Decrypted, Layout;
    var sealed := [p, q];
    var frame := CountBytes(2) + Layout(c, 0, sealed);
    assert frame[..4] == CountBytes(2) && frame[4..] == Layout(c, 0, sealed);
    assert sealed[0..2] == sealed;
    AcceptsIffNextChunks(c, sealed, 0, frame);
    assert Flatten([q]) == q by { assert [q][1..] == []; }
    assert sealed[1..] == [q];
    assert Chunks(p) == [p] && Chunks(q) == [q];
    var e1, e2, e3 := [Send(p), Send(q), Deliver(frame)], [Send(q), Deliver(frame)], [Deliver(frame)];
    assert e1[1..] == e2 && e2[1..] == e3 && e3[1..] == [];
    var s2 := Step(c, Step(c, START, Send(p)), Send(q));
    assert s2.sealed == sealed;
    assert After(c, START, e1) == After(c, s2, e3) == Step(c, s2, Deliver(frame));
  }

  // ----- Sizes -----

  function CeilDiv(n: nat, k: nat): nat
    requires k > 0
  {
    (n + k - 1) / k
  }

  lemma {:induction false} ChunkCount(p: ByteString)
    ensures |Chunks(p)| == CeilDiv(|p|, NOISE_MAX_PAYLOAD)
  {
    if |p| > NOISE_MAX_PAYLOAD {
      ChunkCount(p[NOISE_MAX_PAYLOAD..]);
    }
  }

  lemma {:induction false} LayoutLength(c: Cipher, n: nat, chunks: seq<ByteString>)
    requires c.Proper() && ChunkSized(chunks)
    ensures |Layout(c, n, chunks)| == |Flatten(chunks)| + (2 + TAG) * |chunks|
    decreases |chunks|
  {
    if chunks != [] {
      assert |c.seal(n, chunks[0])| == |chunks[0]| + TAG;
      LayoutLength(c, n + 1, chunks[1..]);
    }
  }

  /** The exact size of an encrypted frame, and the exact bound below which the framing accepts it. */
  lemma EncryptedSize(c: Cipher, n: nat, p: ByteString)
    requires c.Proper()
    ensures |Encrypted(c, n, p)| == 4 + |p| + 18 * CeilDiv(|p|, 65519)
    ensures |Encrypted(c, n, p)| <= MAX_FRAME <==> |p| <= 16772604
    ensures |p| <= 16772604 ==> Countable(p)
  {
    ChunkCount(p);
    ChunksMakePlaintext(p);
    LayoutLength(c, n, Chunks(p));
  }

  // ----- From frames to the wire and back -----

  /** The reader loop over a byte stream: read frames, decrypt them, stop at the first failure. */
  function ReaderLoop(c: Cipher, sealed: seq<ByteString>, wire: ByteString): (seq<ByteString>, nat) {
    DecryptAll(c, sealed, 0, ReadAll(wire).0)
  }

  lemma {:induction false} EncryptAllSendable(c: Cipher, n: nat, frames: seq<ByteString>)
    requires c.Proper() && forall i | 0 <= i < |frames| :: |frames[i]| <= 16772604
    ensures Sendable(EncryptAll(c, n, frames))
    decreases |frames|
  {
    if frames != [] {
      EncryptedSize(c, n, frames[0]);
      EncryptAllSendable(c, n + |Chunks(frames[0])|, frames[1..]);
    }
  }

  /** Frames of at most 16772604 bytes, encrypted, framed, read back and decrypted, arrive unchanged. */
  lemma EndToEnd(c: Cipher, frames: seq<ByteString>)
    requires c.Proper() && forall i | 0 <= i < |frames| :: |frames[i]| <= 16772604
    ensures Sendable(EncryptAll(c, 0, frames))
    ensures ReaderLoop(c, AllChunks(frames), WireBytes(EncryptAll(c, 0, frames))) == (frames, |AllChunks(frames)|)
  {
    hide Chunks, AllChunks, EncryptAll, DecryptAll, ReadAll, WireBytes, Encrypted;
    EncryptAllSendable(c, 0, frames);
    FramesReadBack(EncryptAll(c, 0, frames));
    forall i | 0 <= i < |frames| ensures Countable(frames[i]) {
      EncryptedSize(c, 0, frames[i]);
    }
    InOrderDelivery(c, AllChunks(frames), 0, frames);
  }
}
