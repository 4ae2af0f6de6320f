/** Identities and their two-level key chain, over ideal signatures. */
module Identity {
  import opened Wrappers
  import opened Bytes
  import opened Cbor
  import opened Signing
  import opened Fields

  // ----- Signatures -----

  /** A message and the key it is signed with. */
  datatype Signed = Signed(pub: Blob, message: ByteString)

  /** The signature scheme and the hash. A signature is what `sign` gives for a public key and a message. */
  datatype Crypto = Crypto(sign: (Blob, ByteString) -> Blob, hash: Blob -> Blob) {
    predicate Verifies(pub: Blob, msg: ByteString, sig: Blob) {
      |pub| == KEY_LENGTH && sig == sign(pub, msg)
    }

    /** No two of these keys and messages share a signature, and none has the empty one. Signatures are bounded, so no
        scheme can have this for all messages at once. */
    ghost predicate Separates(signed: set<Signed>) {
      && (forall s | s in signed :: sign(s.pub, s.message) != [])
      && (forall s, t | s in signed && t in signed && sign(s.pub, s.message) == sign(t.pub, t.message) :: s == t)
    }
  }

  const KEY_LENGTH := 32

  /** Whoever holds a working key signs under its public half. */
  datatype WorkingKey = WorkingKey(pub: Blob)

  /** Signing over `payload` under an ASCII domain tag. */
  function SigningBytes(domain: string, payload: Value): ByteString
    requires IsAscii(domain) && Encodable(payload)
  {
    SigningInput(Ascii(domain), payload)
  }

  lemma SigningBytesInjective(domain: string, p: Value, q: Value)
    requires IsAscii(domain) && (forall i | 0 <= i < |domain| :: domain[i] as int != 0)
    requires Wire(p) && Wire(q) && SigningBytes(domain, p) == SigningBytes(domain, q)
    ensures p == q
  {
    SigningInputInjective(Ascii(domain), p, Ascii(domain), q);
  }

  // ----- The key chain -----

  datatype CoreError =
    | BadKey
    | IdMismatch
    | NoValidEndorsement
    | BadEndorsement
    | EndorsementExpired
    | KeyRevoked
    | VerifyFailed

  datatype KeyEndorsement = KeyEndorsement(workingPub: Blob, notBefore: U64, notAfter: U64, rootSig: Blob)

  function EndorsementView(e: KeyEndorsement): (v: Value)
    ensures Wire(v)
  {
    var names := ["working_pub", "not_before", "not_after"];
    var fields := [Bytes(e.workingPub), Int(e.notBefore), Int(e.notAfter)];
    StructIsWire(names, fields);
    Struct(names, fields)
  }

  function EndorsementMessage(e: KeyEndorsement): ByteString {
    SigningBytes("thicket-endorsement-v1", EndorsementView(e))
  }

  /** What the root signs is the working key and its two times, under these names and in this order. */
  lemma EndorsementLayout(e: KeyEndorsement)
    ensures EndorsementMessage(e) == Ascii("thicket-endorsement-v1") + [0] + Enc(EndorsementView(e))
    ensures EndorsementView(e) ==
      Map([Named("working_pub", Bytes(e.workingPub)), Named("not_before", Int(e.notBefore)),
           Named("not_after", Int(e.notAfter))])
  {
    StructEntries(
      ["working_pub", "not_before", "not_after"], [Bytes(e.workingPub), Int(e.notBefore), Int(e.notAfter)],
      [Named("working_pub", Bytes(e.workingPub)), Named("not_before", Int(e.notBefore)),
       Named("not_after", Int(e.notAfter))]);
  }

  /** So the signed bytes determine the key and the times. */
  lemma EndorsementMessageInjective(e: KeyEndorsement, f: KeyEndorsement)
    requires EndorsementMessage(e) == EndorsementMessage(f)
    ensures e.workingPub == f.workingPub && e.notBefore == f.notBefore && e.notAfter == f.notAfter
  {
    hide EndorsementView, SigningBytes, Ascii;
    SigningBytesInjective("thicket-endorsement-v1", EndorsementView(e), EndorsementView(f));
    EndorsementLayout(e);
    EndorsementLayout(f);
    var a, b := EndorsementView(e).entries, EndorsementView(f).entries;
    assert a[0] == b[0] && a[1] == b[1] && a[2] == b[2];
  }

  predicate EndorsementSigned(c: Crypto, rootPub: Blob, e: KeyEndorsement) {
    c.Verifies(rootPub, EndorsementMessage(e), e.rootSig)
  }

  /** The identity of a root key. */
  function IdOf(c: Crypto, rootPub: Blob): Result<Blob, CoreError> {
    if |rootPub| != KEY_LENGTH then Err(BadKey) else Ok(c.hash(rootPub))
  }

  /** The first endorsement of `pub`. */
  function FindEndorsement(endorsements: seq<KeyEndorsement>, pub: Blob): (r: Option<KeyEndorsement>)
    ensures r.Some? ==> r.value in endorsements && r.value.workingPub == pub
    ensures r.None? ==> forall e | e in endorsements :: e.workingPub != pub
  {
    if endorsements == [] then None
    else if endorsements[0].workingPub == pub then Some(endorsements[0])
    else FindEndorsement(endorsements[1..], pub)
  }

  /** Is `signerPub` a currently valid working key of identity `id` rooted at `rootPub`? */
  function VerifyWorkingKey(
    c: Crypto, rootPub: Blob, id: Blob, endorsements: seq<KeyEndorsement>, signerPub: Blob, now: U64,
    revoked: set<Blob>)
    : Result<(), CoreError>
  {
    var expected := IdOf(c, rootPub);
    if expected.Err? then Err(expected.error)
    else if expected.value != id then Err(IdMismatch)
    else
      var found := FindEndorsement(endorsements, signerPub);
      if found.None? then Err(NoValidEndorsement)
      else if !EndorsementSigned(c, rootPub, found.value) then Err(BadEndorsement)
      else if now < found.value.notBefore || now > found.value.notAfter then Err(EndorsementExpired)
      else if signerPub in revoked then Err(KeyRevoked)
      else Ok(())
  }

  lemma {:induction false} FirstIsFound(endorsements: seq<KeyEndorsement>, pub: Blob, i: nat)
    requires i < |endorsements| && endorsements[i].workingPub == pub
    requires forall j | 0 <= j < i :: endorsements[j].workingPub != pub
    ensures FindEndorsement(endorsements, pub) == Some(endorsements[i])
  {
    if i > 0 {
      FirstIsFound(endorsements[1..], pub, i - 1);
    }
  }

  /** The verdict on a working key in every case. The root key must have its length and hash to the id. Without an
      endorsement of the key there is none; of several the first counts, here at `i`: the root's signature over its key
      and times, then the times, then the revocations. */
  lemma WorkingKeyVerdict(
    c: Crypto, rootPub: Blob, id: Blob, endorsements: seq<KeyEndorsement>, key: Blob, now: U64, revoked: set<Blob>,
    i: nat)
    ensures
      var r := VerifyWorkingKey(c, rootPub, id, endorsements, key, now, revoked);
      && (|rootPub| != 32 ==> r == Err(BadKey))
      && (|rootPub| == 32 && c.hash(rootPub) != id ==> r == Err(IdMismatch))
      && (|rootPub| == 32 && c.hash(rootPub) == id ==>
            && ((forall e | e in endorsements :: e.workingPub != key) ==> r == Err(NoValidEndorsement))
            && (i < |endorsements| && endorsements[i].workingPub == key
                && (forall j | 0 <= j < i :: endorsements[j].workingPub != key) ==>
                  var e := endorsements[i];
                  r == if e.rootSig != c.sign(rootPub, EndorsementMessage(e)) then
                         Err(BadEndorsement)
                       else if !(e.notBefore <= now <= e.notAfter) then Err(EndorsementExpired)
                       else if key in revoked then Err(KeyRevoked)
                       else Ok(())))
  {
    hide EndorsementMessage, FindEndorsement;
    if i < |endorsements| && endorsements[i].workingPub == key
      && forall j | 0 <= j < i :: endorsements[j].workingPub != key {
      FirstIsFound(endorsements, key, i);
    }
  }

  lemma {:induction false} FirstExists(endorsements: seq<KeyEndorsement>, pub: Blob) returns (i: nat)
    requires exists e | e in endorsements :: e.workingPub == pub
    ensures i < |endorsements| && endorsements[i].workingPub == pub
    ensures forall j | 0 <= j < i :: endorsements[j].workingPub != pub
  {
    if endorsements[0].workingPub == pub {
      i := 0;
    } else {
      i := FirstExists(endorsements[1..], pub);
      i := i + 1;
      assert forall j | 0 < j < |endorsements| :: endorsements[j] == endorsements[1..][j - 1];
    }
  }

  /** An accepted working key has an endorsement, its first, that the root signed and that holds now; and the root key
      is the one the id stands for. */
  lemma AcceptedKeyIsEndorsed(
    c: Crypto, rootPub: Blob, id: Blob, endorsements: seq<KeyEndorsement>, key: Blob, now: U64, revoked: set<Blob>)
    returns (i: nat)
    requires VerifyWorkingKey(c, rootPub, id, endorsements, key, now, revoked).Ok?
    ensures |rootPub| == 32 && c.hash(rootPub) == id && key !in revoked
    ensures i < |endorsements| && endorsements[i].workingPub == key
    ensures forall j | 0 <= j < i :: endorsements[j].workingPub != key
    ensures
      var e := endorsements[i];
      && e.rootSig == c.sign(rootPub, EndorsementMessage(e))
      && e.notBefore <= now <= e.notAfter
  {
    hide VerifyWorkingKey, EndorsementMessage;
    WorkingKeyVerdict(c, rootPub, id, endorsements, key, now, revoked, 0);
    i := FirstExists(endorsements, key);
    WorkingKeyVerdict(c, rootPub, id, endorsements, key, now, revoked, i);
  }
}
