/** Resource records: the signed document a resource publishes, its encoding and its verification. */
module Records {
  import opened Wrappers
  import opened Bytes
  import opened Cbor
  import opened Signing
  import opened Fields
  import opened Identity

  datatype Visibility = Public | Unlisted | Private

  datatype Lease = Lease(ttl: U64, issuedAt: U64, expiresAt: U64)

  datatype Locator = Locator(protocol: Label, endpoint: Label)

  datatype Io = Io(input: Label, output: Label)

  datatype Capability = Capability(
    kind: Label, description: Label, io: Option<Io>, tags: Labels, modalities: Labels, envelope: StringMap)

  datatype RecordPayload = RecordPayload(
    schema: Label,
    id: Blob,
    rootPub: Blob,
    keys: seq<KeyEndorsement>,
    kind: Label,
    locators: seq<Locator>,
    capabilities: seq<Capability>,
    profile: StringMap,
    supports: StringMap,
    visibility: Visibility,
    lease: Option<Lease>,
    version: U64,
    ext: StringMap)

  /** A payload, the working key that signed it, and the signature. */
  datatype SignedRecord = SignedRecord(payload: RecordPayload, signer: Blob, signature: Blob) {
    function Id(): Blob {
      payload.id
    }

    /** The same record with another lease, under the signature it has. */
    function WithLease(lease: Option<Lease>): SignedRecord {
      this.(payload := payload.(lease := lease))
    }
  }

  // ----- The signed encoding -----

  function EndorsementValue(e: KeyEndorsement): (v: Value)
    ensures Wire(v)
  {
    var names := ["working_pub", "not_before", "not_after", "root_sig"];
    var fields := [Bytes(e.workingPub), Int(e.notBefore), Int(e.notAfter), Bytes(e.rootSig)];
    StructIsWire(names, fields);
    Struct(names, fields)
  }

  function LocatorValue(l: Locator): (v: Value)
    ensures Wire(v)
  {
    StructIsWire(["protocol", "endpoint"], [Text(l.protocol), Text(l.endpoint)]);
    Struct(["protocol", "endpoint"], [Text(l.protocol), Text(l.endpoint)])
  }

  function IoValue(io: Io): (v: Value)
    ensures Wire(v)
  {
    StructIsWire(["input", "output"], [Text(io.input), Text(io.output)]);
    Struct(["input", "output"], [Text(io.input), Text(io.output)])
  }

  /** An absent `io` is left out of the map. */
  function CapabilityValue(c: Capability): (v: Value)
    ensures Wire(v)
  {
    var names := ["kind", "description"] + (if c.io.Some? then ["io"] else []) + ["tags", "modalities", "envelope"];
    var fields :=
      [Text(c.kind), Text(c.description)] + (if c.io.Some? then [IoValue(c.io.value)] else [])
      + [LabelArray(c.tags), LabelArray(c.modalities), StringMapValue(c.envelope)];
    StructIsWire(names, fields);
    Struct(names, fields)
  }

  function VisibilityName(v: Visibility): string {
    match v
    case Public => "Public"
    case Unlisted => "Unlisted"
    case Private => "Private"
  }

  function LeaseValue(l: Lease): (v: Value)
    ensures Wire(v)
  {
    StructIsWire(LEASE_FIELDS, LeaseFields(l));
    Struct(LEASE_FIELDS, LeaseFields(l))
  }

  const LEASE_FIELDS := ["ttl", "issued_at", "expires_at"]

  function LeaseFields(l: Lease): (fields: seq<Value>)
    ensures |fields| == 3
  {
    [Int(l.ttl), Int(l.issuedAt), Int(l.expiresAt)]
  }

  function EndorsementList(s: seq<KeyEndorsement>): (items: seq<Value>)
    ensures |items| == |s| && forall i | 0 <= i < |items| :: Wire(items[i])
  {
    if s == [] then [] else [EndorsementValue(s[0])] + EndorsementList(s[1..])
  }

  function LocatorList(s: seq<Locator>): (items: seq<Value>)
    ensures |items| == |s| && forall i | 0 <= i < |items| :: Wire(items[i])
  {
    if s == [] then [] else [LocatorValue(s[0])] + LocatorList(s[1..])
  }

  function CapabilityList(s: seq<Capability>): (items: seq<Value>)
    ensures |items| == |s| && forall i | 0 <= i < |items| :: Wire(items[i])
  {
    if s == [] then [] else [CapabilityValue(s[0])] + CapabilityList(s[1..])
  }

  lemma ArrayIsWire(items: seq<Value>)
    requires |items| < LIMIT && forall i | 0 <= i < |items| :: Wire(items[i])
    ensures Wire(Array(items))
  {
    hide Encodable, WellFormed;
    forall i | 0 <= i < |items| ensures Encodable(items[i]) && WellFormed(items[i]) {
      assert Wire(items[i]);
    }
    ArrayOfParts(items);
  }

  lemma ArrayOfParts(items: seq<Value>)
    requires |items| < LIMIT
    requires forall i | 0 <= i < |items| :: Encodable(items[i]) && WellFormed(items[i])
    ensures Wire(Array(items))
  {
    assert EncodableItems(items) && WellFormedItems(items);
  }

  /** Lists of a record fit the 64-bit array length. */
  predicate Sized(p: RecordPayload) {
    |p.keys| < LIMIT && |p.locators| < LIMIT && |p.capabilities| < LIMIT
  }

  const HEAD_FIELDS := [
    "schema", "id", "root_public_key", "keys", "kind", "locators", "capabilities", "profile", "supports", "visibility"]

  function HeadFields(p: RecordPayload): (fields: seq<Value>)
    requires Sized(p)
    ensures |fields| == 10 && forall i | 0 <= i < |fields| :: Wire(fields[i])
  {
    IdentityFields(p) + CatalogFields(p)
  }

  function IdentityFields(p: RecordPayload): (fields: seq<Value>)
    requires Sized(p)
    ensures |fields| == 5 && forall i | 0 <= i < |fields| :: Wire(fields[i])
  {
    hide EndorsementList;
    ArrayIsWire(EndorsementList(p.keys));
    [Text(p.schema), Bytes(p.id), Bytes(p.rootPub), Array(EndorsementList(p.keys)), Text(p.kind)]
  }

  function CatalogFields(p: RecordPayload): (fields: seq<Value>)
    requires Sized(p)
    ensures |fields| == 5 && forall i | 0 <= i < |fields| :: Wire(fields[i])
  {
    hide LocatorList, CapabilityList, StringMapValue;
    ArrayIsWire(LocatorList(p.locators));
    ArrayIsWire(CapabilityList(p.capabilities));
    [Array(LocatorList(p.locators)), Array(CapabilityList(p.capabilities)), StringMapValue(p.profile),
     StringMapValue(p.supports), VisibilityValue(p.visibility)]
  }

  function VisibilityValue(v: Visibility): (r: Value)
    ensures Wire(r)
  {
    AsciiIsUtf8(Ascii(VisibilityName(v)));
    Text(Ascii(VisibilityName(v)))
  }

  function PayloadNames(leased: bool): (names: seq<string>)
    ensures FieldNames(names) && |names| == if leased then 13 else 12
  {
    if leased then HEAD_FIELDS + ["lease", "version", "ext"] else HEAD_FIELDS + ["version", "ext"]
  }

  function PayloadFields(p: RecordPayload): (fields: seq<Value>)
    requires Sized(p)
    ensures |fields| == (if p.lease.Some? then 13 else 12) && forall i | 0 <= i < |fields| :: Wire(fields[i])
    ensures p.lease.Some? ==> fields[10] == LeaseValue(p.lease.value)
  {
    var tail := [Int(p.version), StringMapValue(p.ext)];
    if p.lease.Some? then HeadFields(p) + [LeaseValue(p.lease.value)] + tail else HeadFields(p) + tail
  }

  /** An absent lease is left out of the map. */
  function PayloadValue(p: RecordPayload): (v: Value)
    requires Sized(p)
    ensures Wire(v)
  {
    StructIsWire(PayloadNames(p.lease.Some?), PayloadFields(p));
    Struct(PayloadNames(p.lease.Some?), PayloadFields(p))
  }

  function RecordMessage(p: RecordPayload): ByteString
    requires Sized(p)
  {
    hide PayloadValue;
    SigningBytes("thicket-record-v1", PayloadValue(p))
  }

  /** The signed bytes determine the lease. */
  lemma LeaseIsSigned(p: RecordPayload, l: Lease, m: Lease)
    requires Sized(p)
    requires RecordMessage(p.(lease := Some(l))) == RecordMessage(p.(lease := Some(m)))
    ensures l == m
  {
    hide HeadFields, LeaseValue, Struct, SigningBytes, PayloadNames;
    var a, b := p.(lease := Some(l)), p.(lease := Some(m));
    SigningBytesInjective("thicket-record-v1", PayloadValue(a), PayloadValue(b));
    StructInjective(PayloadNames(true), PayloadFields(a), PayloadFields(b));
    LeaseValueInjective(l, m);
  }

  lemma LeaseValueInjective(l: Lease, m: Lease)
    requires LeaseValue(l) == LeaseValue(m)
    ensures l == m
  {
    StructInjective(LEASE_FIELDS, LeaseFields(l), LeaseFields(m));
    assert forall i | 0 <= i < 3 :: LeaseFields(l)[i] == LeaseFields(m)[i];
  }

  // ----- Signing and verifying -----

  function Sign(c: Crypto, p: RecordPayload, working: WorkingKey): SignedRecord
    requires Sized(p)
  {
    SignedRecord(p, working.pub, c.sign(working.pub, RecordMessage(p)))
  }

  /** Full verification: the signer is a valid working key of the identity, and the signature covers the payload. */
  function VerifyRecord(c: Crypto, r: SignedRecord, now: U64, revoked: set<Blob>): Result<(), CoreError> {
    if !Sized(r.payload) then Err(VerifyFailed) else
    var key := VerifyWorkingKey(c, r.payload.rootPub, r.payload.id, r.payload.keys, r.signer, now, revoked);
    if key.Err? then key
    else if !c.Verifies(r.signer, RecordMessage(r.payload), r.signature) then Err(VerifyFailed)
    else Ok(())
  }

  /** What a record's signature is for, and with which key. */
  function RecordSigned(r: SignedRecord): Signed
    requires Sized(r.payload)
  {
    Signed(r.signer, RecordMessage(r.payload))
  }

  /** The lease lies inside the signature: a verified record with another lease verifies exactly when the lease
      is the same. */
  lemma OnlySignedLeaseVerifies(c: Crypto, r: SignedRecord, l: Lease, now: U64, revoked: set<Blob>)
    requires r.payload.lease.Some? && VerifyRecord(c, r, now, revoked).Ok?
    requires c.Separates({RecordSigned(r), RecordSigned(r.WithLease(Some(l)))})
    ensures VerifyRecord(c, r.WithLease(Some(l)), now, revoked).Ok? <==> l == r.payload.lease.value
  {
    hide RecordMessage, VerifyWorkingKey;
    var m := r.payload.lease.value;
    assert r.payload.(lease := Some(m)) == r.payload;
    assert RecordSigned(r.WithLease(Some(l))) == Signed(r.signer, RecordMessage(r.payload.(lease := Some(l))));
    if RecordMessage(r.payload) == RecordMessage(r.payload.(lease := Some(l))) {
      LeaseIsSigned(r.payload, m, l);
    }
  }

  /** What its owner signs with an endorsed and unrevoked key verifies. */
  lemma SignedRecordVerifies(c: Crypto, p: RecordPayload, working: WorkingKey, now: U64, revoked: set<Blob>)
    requires Sized(p) && |working.pub| == KEY_LENGTH
    requires VerifyWorkingKey(c, p.rootPub, p.id, p.keys, working.pub, now, revoked).Ok?
    ensures VerifyRecord(c, Sign(c, p, working), now, revoked).Ok?
  {
  }
}
