/** What a record signs, and what its verification means, over its fields. */
module SignedRecords {
  import opened Wrappers
  import opened Bytes
  import opened Cbor
  import opened Signing
  import opened Fields
  import opened Identity
  import opened Records

  // ----- Layout -----

  lemma EndorsementEntryLayout(e: KeyEndorsement)
    ensures EndorsementValue(e) ==
      Map([Named("working_pub", Bytes(e.workingPub)), Named("not_before", Int(e.notBefore)),
           Named("not_after", Int(e.notAfter)), Named("root_sig", Bytes(e.rootSig))])
  {
    StructEntries(
      ["working_pub", "not_before", "not_after", "root_sig"],
      [Bytes(e.workingPub), Int(e.notBefore), Int(e.notAfter), Bytes(e.rootSig)],
      [Named("working_pub", Bytes(e.workingPub)), Named("not_before", Int(e.notBefore)),
       Named("not_after", Int(e.notAfter)), Named("root_sig", Bytes(e.rootSig))]);
  }

  lemma LocatorLayout(l: Locator)
    ensures LocatorValue(l) == Map([Named("protocol", Text(l.protocol)), Named("endpoint", Text(l.endpoint))])
  {
    StructEntries(["protocol", "endpoint"], [Text(l.protocol), Text(l.endpoint)],
      [Named("protocol", Text(l.protocol)), Named("endpoint", Text(l.endpoint))]);
  }

  lemma IoLayout(io: Io)
    ensures IoValue(io) == Map([Named("input", Text(io.input)), Named("output", Text(io.output))])
  {
    StructEntries(["input", "output"], [Text(io.input), Text(io.output)],
      [Named("input", Text(io.input)), Named("output", Text(io.output))]);
  }

  /** An absent `io` is left out. */
  lemma CapabilityLayout(c: Capability)
    ensures CapabilityValue(c) ==
      Map([Named("kind", Text(c.kind)), Named("description", Text(c.description))]
          + (if c.io.Some? then [Named("io", IoValue(c.io.value))] else [])
          + [Named("tags", LabelArray(c.tags)), Named("modalities", LabelArray(c.modalities)),
             Named("envelope", StringMapValue(c.envelope))])
  {
    hide IoValue, LabelArray, StringMapValue;
    var names := ["kind", "description"] + (if c.io.Some? then ["io"] else []) + ["tags", "modalities", "envelope"];
    var fields :=
      [Text(c.kind), Text(c.description)] + (if c.io.Some? then [IoValue(c.io.value)] else [])
      + [LabelArray(c.tags), LabelArray(c.modalities), StringMapValue(c.envelope)];
    StructEntries(names, fields,
      [Named("kind", Text(c.kind)), Named("description", Text(c.description))]
      + (if c.io.Some? then [Named("io", IoValue(c.io.value))] else [])
      + [Named("tags", LabelArray(c.tags)), Named("modalities", LabelArray(c.modalities)),
         Named("envelope", StringMapValue(c.envelope))]);
  }

  lemma LeaseLayout(l: Lease)
    ensures LeaseValue(l) ==
      Map([Named("ttl", Int(l.ttl)), Named("issued_at", Int(l.issuedAt)), Named("expires_at", Int(l.expiresAt))])
  {
    StructEntries(LEASE_FIELDS, LeaseFields(l),
      [Named("ttl", Int(l.ttl)), Named("issued_at", Int(l.issuedAt)), Named("expires_at", Int(l.expiresAt))]);
  }

  /** Labels are an array of texts, and a string map is a map of texts, both in the order they are in. */
  lemma TextsInOrder(labels: Labels, m: StringMap)
    ensures
      var v := LabelArray(labels);
      v.Array? && |v.items| == |labels| && forall i | 0 <= i < |labels| :: v.items[i] == Text(labels[i])
    ensures
      var v := StringMapValue(m);
      && v.Map? && |v.entries| == |m|
      && forall i | 0 <= i < |m| :: v.entries[i] == Entry(Text(m[i].key), Text(m[i].value))
  {
  }

  /** The lists of a payload keep their order. */
  lemma {:induction false} ListsInOrder(
    keys: seq<KeyEndorsement>, locators: seq<Locator>, capabilities: seq<Capability>, i: nat)
    ensures i < |keys| ==> EndorsementList(keys)[i] == EndorsementValue(keys[i])
    ensures i < |locators| ==> LocatorList(locators)[i] == LocatorValue(locators[i])
    ensures i < |capabilities| ==> CapabilityList(capabilities)[i] == CapabilityValue(capabilities[i])
    decreases i
  {
    hide EndorsementValue, LocatorValue, CapabilityValue;
    if i > 0 {
      ListsInOrder(
        if keys == [] then [] else keys[1..], if locators == [] then [] else locators[1..],
        if capabilities == [] then [] else capabilities[1..], i - 1);
    }
  }

  /** A record signs all of its payload, each field under its name and in this order; an absent lease is left out. */
  lemma PayloadFieldsAre(p: RecordPayload)
    requires Sized(p)
    ensures PayloadFields(p) ==
      [Text(p.schema), Bytes(p.id), Bytes(p.rootPub), Array(EndorsementList(p.keys)), Text(p.kind),
       Array(LocatorList(p.locators)), Array(CapabilityList(p.capabilities)), StringMapValue(p.profile),
       StringMapValue(p.supports), VisibilityValue(p.visibility)]
      + (if p.lease.Some? then [LeaseValue(p.lease.value)] else []) + [Int(p.version), StringMapValue(p.ext)]
  {
    hide EndorsementList, LocatorList, CapabilityList, StringMapValue, LeaseValue, VisibilityValue;
  }

  lemma PayloadIsStruct(p: RecordPayload)
    requires Sized(p)
    ensures PayloadValue(p) == Struct(PayloadNames(p.lease.Some?), PayloadFields(p))
  {
    hide Struct, PayloadNames, PayloadFields;
  }

  /** Before the payload stand the domain, `thicket-record-v1`, and a NUL. */
  const RECORD_DOMAIN: ByteString :=
    [0x74, 0x68, 0x69, 0x63, 0x6B, 0x65, 0x74, 0x2D, 0x72, 0x65, 0x63, 0x6F, 0x72, 0x64, 0x2D, 0x76, 0x31]

  lemma RecordDomainIs()
    ensures IsAscii("thicket-record-v1") && Ascii("thicket-record-v1") == RECORD_DOMAIN
  {
  }

  lemma RecordMessageIs(p: RecordPayload)
    requires Sized(p)
    ensures RecordMessage(p) == RECORD_DOMAIN + [0] + Enc(PayloadValue(p))
  {
    RecordDomainIs();
    hide PayloadValue, Ascii, IsAscii, Enc;
  }

  lemma PayloadNamesAre(leased: bool)
    ensures PayloadNames(leased) ==
      ["schema", "id", "root_public_key", "keys", "kind", "locators", "capabilities", "profile", "supports",
       "visibility"] + (if leased then ["lease"] else []) + ["version", "ext"]
  {
  }

  lemma VisibilityTexts(v: Visibility)
    ensures VisibilityValue(v) ==
      Text(Ascii(match v case Public => "Public" case Unlisted => "Unlisted" case Private => "Private"))
  {
  }

  // ----- The signed bytes determine the payload -----

  lemma VisibilityValueInjective(v: Visibility, w: Visibility)
    requires VisibilityValue(v) == VisibilityValue(w)
    ensures v == w
  {
    AsciiInjective(VisibilityName(v), VisibilityName(w));
  }

  lemma EndorsementValueInjective(e: KeyEndorsement, f: KeyEndorsement)
    requires EndorsementValue(e) == EndorsementValue(f)
    ensures e == f
  {
    var names := ["working_pub", "not_before", "not_after", "root_sig"];
    var a := [Bytes(e.workingPub), Int(e.notBefore), Int(e.notAfter), Bytes(e.rootSig)];
    var b := [Bytes(f.workingPub), Int(f.notBefore), Int(f.notAfter), Bytes(f.rootSig)];
    hide Struct;
    StructInjective(names, a, b);
    assert a[0] == b[0] && a[1] == b[1] && a[2] == b[2] && a[3] == b[3];
  }

  lemma LocatorValueInjective(l: Locator, m: Locator)
    requires LocatorValue(l) == LocatorValue(m)
    ensures l == m
  {
    var a, b := [Text(l.protocol), Text(l.endpoint)], [Text(m.protocol), Text(m.endpoint)];
    hide Struct;
    StructInjective(["protocol", "endpoint"], a, b);
    assert a[0] == b[0] && a[1] == b[1];
  }

  lemma IoValueInjective(l: Io, m: Io)
    requires IoValue(l) == IoValue(m)
    ensures l == m
  {
    var a, b := [Text(l.input), Text(l.output)], [Text(m.input), Text(m.output)];
    hide Struct;
    StructInjective(["input", "output"], a, b);
    assert a[0] == b[0] && a[1] == b[1];
  }

  function CapabilityNames(withIo: bool): (names: seq<string>)
    ensures FieldNames(names)
  {
    ["kind", "description"] + (if withIo then ["io"] else []) + ["tags", "modalities", "envelope"]
  }

  function CapabilityFields(c: Capability): (fields: seq<Value>)
    ensures |fields| == |CapabilityNames(c.io.Some?)|
  {
    [Text(c.kind), Text(c.description)] + (if c.io.Some? then [IoValue(c.io.value)] else [])
    + [LabelArray(c.tags), LabelArray(c.modalities), StringMapValue(c.envelope)]
  }

  lemma CapabilityIsStruct(c: Capability)
    ensures CapabilityValue(c) == Struct(CapabilityNames(c.io.Some?), CapabilityFields(c))
  {
    hide Struct, IoValue, LabelArray, StringMapValue;
  }

  lemma CapabilityValueInjective(c: Capability, d: Capability)
    requires CapabilityValue(c) == CapabilityValue(d)
    ensures c == d
  {
    hide CapabilityValue, Struct, IoValue, LabelArray, StringMapValue;
    CapabilityIsStruct(c);
    CapabilityIsStruct(d);
    assert |CapabilityNames(c.io.Some?)| == |CapabilityNames(d.io.Some?)|;
    assert c.io.Some? == d.io.Some?;
    StructInjective(CapabilityNames(c.io.Some?), CapabilityFields(c), CapabilityFields(d));
    CapabilityFieldsInjective(c, d);
  }

  lemma CapabilityFieldsInjective(c: Capability, d: Capability)
    requires c.io.Some? == d.io.Some? && CapabilityFields(c) == CapabilityFields(d)
    ensures c == d
  {
    hide IoValue, LabelArray, StringMapValue;
    var a, b := CapabilityFields(c), CapabilityFields(d);
    var n := |a|;
    assert a[0] == b[0] && a[1] == b[1] && a[2] == b[2];
    assert a[n - 3] == b[n - 3] && a[n - 2] == b[n - 2] && a[n - 1] == b[n - 1];
    if c.io.Some? {
      IoValueInjective(c.io.value, d.io.value);
    }
    LabelArrayInjective(c.tags, d.tags);
    LabelArrayInjective(c.modalities, d.modalities);
    StringMapValueInjective(c.envelope, d.envelope);
  }

  lemma {:induction false} EndorsementListInjective(s: seq<KeyEndorsement>, t: seq<KeyEndorsement>)
    requires EndorsementList(s) == EndorsementList(t)
    ensures s == t
  {
    hide EndorsementValue;
    if s != [] && t != [] {
      var a, b := EndorsementList(s), EndorsementList(t);
      assert a[0] == b[0] && a[1..] == b[1..];
      assert a[1..] == EndorsementList(s[1..]) && b[1..] == EndorsementList(t[1..]);
      EndorsementValueInjective(s[0], t[0]);
      EndorsementListInjective(s[1..], t[1..]);
      assert s == [s[0]] + s[1..] && t == [t[0]] + t[1..];
    }
  }

  lemma {:induction false} LocatorListInjective(s: seq<Locator>, t: seq<Locator>)
    requires LocatorList(s) == LocatorList(t)
    ensures s == t
  {
    hide LocatorValue;
    if s != [] && t != [] {
      var a, b := LocatorList(s), LocatorList(t);
      assert a[0] == b[0] && a[1..] == b[1..];
      assert a[1..] == LocatorList(s[1..]) && b[1..] == LocatorList(t[1..]);
      LocatorValueInjective(s[0], t[0]);
      LocatorListInjective(s[1..], t[1..]);
      assert s == [s[0]] + s[1..] && t == [t[0]] + t[1..];
    }
  }

  lemma {:induction false} CapabilityListInjective(s: seq<Capability>, t: seq<Capability>)
    requires CapabilityList(s) == CapabilityList(t)
    ensures s == t
  {
    hide CapabilityValue;
    if s != [] && t != [] {
      var a, b := CapabilityList(s), CapabilityList(t);
      assert a[0] == b[0] && a[1..] == b[1..];
      assert a[1..] == CapabilityList(s[1..]) && b[1..] == CapabilityList(t[1..]);
      CapabilityValueInjective(s[0], t[0]);
      CapabilityListInjective(s[1..], t[1..]);
      assert s == [s[0]] + s[1..] && t == [t[0]] + t[1..];
    }
  }

  lemma SameFieldValues(p: RecordPayload, q: RecordPayload)
    requires Sized(p) && Sized(q) && p.lease.Some? == q.lease.Some? && PayloadFields(p) == PayloadFields(q)
    ensures p.schema == q.schema && p.id == q.id && p.rootPub == q.rootPub && p.kind == q.kind && p.version == q.version
    ensures EndorsementList(p.keys) == EndorsementList(q.keys)
    ensures LocatorList(p.locators) == LocatorList(q.locators)
    ensures CapabilityList(p.capabilities) == CapabilityList(q.capabilities)
    ensures StringMapValue(p.profile) == StringMapValue(q.profile)
    ensures StringMapValue(p.supports) == StringMapValue(q.supports)
    ensures StringMapValue(p.ext) == StringMapValue(q.ext)
    ensures VisibilityValue(p.visibility) == VisibilityValue(q.visibility)
    ensures p.lease.Some? ==> LeaseValue(p.lease.value) == LeaseValue(q.lease.value)
  {
    hide EndorsementList, LocatorList, CapabilityList, StringMapValue, LeaseValue, VisibilityValue;
    PayloadFieldsAre(p);
    PayloadFieldsAre(q);
    hide PayloadFields;
    var a, b := PayloadFields(p), PayloadFields(q);
    var n := |a|;
    assert a[0] == b[0] && a[1] == b[1] && a[2] == b[2] && a[4] == b[4] && a[n - 2] == b[n - 2];
    assert Array(EndorsementList(p.keys)) == a[3] == b[3];
    assert Array(LocatorList(p.locators)) == a[5] == b[5];
    assert Array(CapabilityList(p.capabilities)) == a[6] == b[6];
    assert StringMapValue(p.profile) == a[7] == b[7] && StringMapValue(p.supports) == a[8] == b[8];
    assert VisibilityValue(p.visibility) == a[9] == b[9] && StringMapValue(p.ext) == a[n - 1] == b[n - 1];
    assert p.lease.Some? ==> LeaseValue(p.lease.value) == a[10] == b[10];
  }

  lemma PayloadFieldsInjective(p: RecordPayload, q: RecordPayload)
    requires Sized(p) && Sized(q) && p.lease.Some? == q.lease.Some? && PayloadFields(p) == PayloadFields(q)
    ensures p == q
  {
    hide EndorsementList, LocatorList, CapabilityList, StringMapValue, LeaseValue, VisibilityValue, PayloadFields;
    SameFieldValues(p, q);
    EndorsementListInjective(p.keys, q.keys);
    LocatorListInjective(p.locators, q.locators);
    CapabilityListInjective(p.capabilities, q.capabilities);
    StringMapValueInjective(p.profile, q.profile);
    StringMapValueInjective(p.supports, q.supports);
    StringMapValueInjective(p.ext, q.ext);
    VisibilityValueInjective(p.visibility, q.visibility);
    if p.lease.Some? {
      LeaseValueInjective(p.lease.value, q.lease.value);
    }
  }

  /** The signed bytes of a record determine all of its payload. */
  lemma RecordMessageInjective(p: RecordPayload, q: RecordPayload)
    requires Sized(p) && Sized(q) && RecordMessage(p) == RecordMessage(q)
    ensures p == q
  {
    SamePayloadValue(p, q);
    hide PayloadFields, PayloadValue, Struct, PayloadNames, RecordMessage;
    PayloadIsStruct(p);
    PayloadIsStruct(q);
    assert |PayloadNames(p.lease.Some?)| == |PayloadNames(q.lease.Some?)|;
    StructInjective(PayloadNames(p.lease.Some?), PayloadFields(p), PayloadFields(q));
    PayloadFieldsInjective(p, q);
  }

  lemma SamePayloadValue(p: RecordPayload, q: RecordPayload)
    requires Sized(p) && Sized(q) && RecordMessage(p) == RecordMessage(q)
    ensures PayloadValue(p) == PayloadValue(q)
  {
    hide PayloadValue, SigningBytes;
    SigningBytesInjective("thicket-record-v1", PayloadValue(p), PayloadValue(q));
  }

  /** So a verified record with any other payload under the same signature does not verify. */
  lemma OnlySignedPayloadVerifies(c: Crypto, r: SignedRecord, p: RecordPayload, now: U64, revoked: set<Blob>)
    requires VerifyRecord(c, r, now, revoked).Ok? && Sized(p)
    requires c.Separates({RecordSigned(r), RecordSigned(r.(payload := p))})
    ensures VerifyRecord(c, r.(payload := p), now, revoked).Ok? ==> p == r.payload
  {
    hide RecordMessage, VerifyWorkingKey;
    if VerifyRecord(c, r.(payload := p), now, revoked).Ok? {
      RecordMessageInjective(p, r.payload);
    }
  }

  // ----- Verification -----

  /** A verified record's signature is its signer's over its payload; and the signer has an endorsement in the record,
      its first, that the root key signed and that holds now, the root key being the one the id stands for. */
  lemma VerifiedRecordIsEndorsed(c: Crypto, r: SignedRecord, now: U64, revoked: set<Blob>) returns (i: nat)
    requires VerifyRecord(c, r, now, revoked).Ok?
    ensures
      var p := r.payload;
      && Sized(p) && |r.signer| == 32 && r.signature == c.sign(r.signer, RecordMessage(p)) && r.signer !in revoked
      && |p.rootPub| == 32 && c.hash(p.rootPub) == p.id
      && i < |p.keys| && p.keys[i].workingPub == r.signer
      && (forall j | 0 <= j < i :: p.keys[j].workingPub != r.signer)
      && p.keys[i].rootSig == c.sign(p.rootPub, EndorsementMessage(p.keys[i]))
      && p.keys[i].notBefore <= now <= p.keys[i].notAfter
  {
    hide RecordMessage, VerifyWorkingKey, EndorsementMessage;
    i := AcceptedKeyIsEndorsed(c, r.payload.rootPub, r.payload.id, r.payload.keys, r.signer, now, revoked);
  }

  /** Conversely such a record verifies. And what stands in the way of a record is answered in this order: its key as by
      `WorkingKeyVerdict`, then its signature. */
  lemma RecordVerdict(c: Crypto, r: SignedRecord, now: U64, revoked: set<Blob>, i: nat)
    requires Sized(r.payload) && |r.payload.rootPub| == 32 && c.hash(r.payload.rootPub) == r.payload.id
    requires i < |r.payload.keys| && r.payload.keys[i].workingPub == r.signer
    requires forall j | 0 <= j < i :: r.payload.keys[j].workingPub != r.signer
    ensures
      var e := r.payload.keys[i];
      VerifyRecord(c, r, now, revoked) ==
        if e.rootSig != c.sign(r.payload.rootPub, EndorsementMessage(e)) then Err(BadEndorsement)
        else if !(e.notBefore <= now <= e.notAfter) then Err(EndorsementExpired)
        else if r.signer in revoked then Err(KeyRevoked)
        else if |r.signer| != 32 || r.signature != c.sign(r.signer, RecordMessage(r.payload)) then Err(VerifyFailed)
        else Ok(())
  {
    hide RecordMessage, VerifyWorkingKey, EndorsementMessage;
    WorkingKeyVerdict(c, r.payload.rootPub, r.payload.id, r.payload.keys, r.signer, now, revoked, i);
  }
}
