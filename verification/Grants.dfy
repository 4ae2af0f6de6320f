/** Attenuable capability grants (`grant.rs`): issuing, attenuating and verifying a chain of signed links. */
module Grants {
  import opened Wrappers
  import opened Bytes
  import opened Cbor
  import opened Signing
  import opened Fields
  import opened Identity

  datatype Caveats = Caveats(capabilities: Labels, notAfter: U64, constraints: StringMap)

  datatype GrantLink = GrantLink(issuer: Blob, audience: Blob, caveats: Caveats, sig: Blob)

  datatype Grant = Grant(target: Blob, links: seq<GrantLink>)

  datatype GrantError =
    | EmptyGrant
    | TargetMismatch
    | BrokenChain
    | BadSignature
    | BadAttenuation
    | CapabilityNotAllowed
    | Expired
    | AudienceMismatch
    | NotHolder
    | Core(error: CoreError)

  // ----- Caveats -----

  const WILDCARD: Label := AnyCapability()

  function AnyCapability(): Label {
    AsciiIsUtf8(Ascii("*"));
    Ascii("*")
  }

  predicate AllowsCapability(c: Caveats, capability: Label) {
    WILDCARD in c.capabilities || capability in c.capabilities
  }

  /** `constraints.get(key)`. */
  function Lookup(m: seq<Pair>, key: Label): (r: Option<Label>)
    ensures r.Some? ==> Pair(key, r.value) in m
    ensures r.None? ==> forall e | e in m :: e.key != key
  {
    if m == [] then None
    else if m[0].key == key then Some(m[0].value)
    else Lookup(m[1..], key)
  }

  /** `child` only narrows `parent`. */
  predicate Narrows(child: Caveats, parent: Caveats) {
    && (WILDCARD !in parent.capabilities ==>
          forall cap | cap in child.capabilities :: cap != WILDCARD && cap in parent.capabilities)
    && child.notAfter <= parent.notAfter
    && forall e | e in parent.constraints :: Lookup(child.constraints, e.key) == Some(e.value)
  }

  /** Every constraint is matched exactly by the supplied attributes. */
  predicate Meets(constraints: seq<Pair>, attributes: map<Label, Label>) {
    forall e | e in constraints :: e.key in attributes && attributes[e.key] == e.value
  }

  // ----- What a link signs -----

  function CaveatsValue(c: Caveats): (v: Value)
    ensures Wire(v)
  {
    var names, fields := CAVEAT_FIELDS, CaveatFields(c);
    StructIsWire(names, fields);
    Struct(names, fields)
  }

  const CAVEAT_FIELDS := ["capabilities", "not_after", "constraints"]

  function CaveatFields(c: Caveats): (fields: seq<Value>)
    ensures |fields| == 3 && forall i | 0 <= i < |fields| :: Wire(fields[i])
  {
    [LabelArray(c.capabilities), Int(c.notAfter), StringMapValue(c.constraints)]
  }

  const LINK_FIELDS := ["target", "issuer_pub", "audience_pub", "caveats", "prev"]

  function LinkFields(target: Blob, issuer: Blob, audience: Blob, caveats: Caveats, prev: Blob): (fields: seq<Value>)
    ensures |fields| == 5 && forall i | 0 <= i < |fields| :: Wire(fields[i])
  {
    [Bytes(target), Bytes(issuer), Bytes(audience), CaveatsValue(caveats), Bytes(prev)]
  }

  function LinkView(target: Blob, issuer: Blob, audience: Blob, caveats: Caveats, prev: Blob): (v: Value)
    ensures Wire(v)
  {
    var fields := LinkFields(target, issuer, audience, caveats, prev);
    StructIsWire(LINK_FIELDS, fields);
    Struct(LINK_FIELDS, fields)
  }

  function LinkMessage(target: Blob, issuer: Blob, audience: Blob, caveats: Caveats, prev: Blob): ByteString {
    SigningBytes("thicket-grant-v1", LinkView(target, issuer, audience, caveats, prev))
  }

  lemma CaveatsValueInjective(a: Caveats, b: Caveats)
    requires CaveatsValue(a) == CaveatsValue(b)
    ensures a == b
  {
    hide LabelArray, StringMapValue, Struct;
    StructInjective(CAVEAT_FIELDS, CaveatFields(a), CaveatFields(b));
    assert forall i | 0 <= i < 3 :: CaveatFields(a)[i] == CaveatFields(b)[i];
    LabelArrayInjective(a.capabilities, b.capabilities);
    StringMapValueInjective(a.constraints, b.constraints);
  }

  /** The signed bytes determine everything a link says and the signature before it. */
  lemma LinkMessageInjective(
    t: Blob, i: Blob, a: Blob, c: Caveats, p: Blob,
    t': Blob, i': Blob, a': Blob, c': Caveats, p': Blob)
    requires LinkMessage(t, i, a, c, p) == LinkMessage(t', i', a', c', p')
    ensures t == t' && i == i' && a == a' && c == c' && p == p'
  {
    hide CaveatsValue, Struct, SigningBytes;
    SigningBytesInjective("thicket-grant-v1", LinkView(t, i, a, c, p), LinkView(t', i', a', c', p'));
    var fields, others := LinkFields(t, i, a, c, p), LinkFields(t', i', a', c', p');
    StructInjective(LINK_FIELDS, fields, others);
    assert forall k | 0 <= k < 5 :: fields[k] == others[k];
    CaveatsValueInjective(c, c');
  }

  // ----- Issuing and attenuating -----

  function SignedLink(c: Crypto, target: Blob, key: WorkingKey, audience: Blob, caveats: Caveats, prev: Blob)
    : GrantLink
  {
    GrantLink(key.pub, audience, caveats, c.sign(key.pub, LinkMessage(target, key.pub, audience, caveats, prev)))
  }

  /** The target resource authorizes `audience`. */
  function Issue(c: Crypto, target: Blob, targetKey: WorkingKey, audience: Blob, caveats: Caveats): Grant {
    Grant(target, [SignedLink(c, target, targetKey, audience, caveats, [])])
  }

  /** The current holder hands a narrower grant to a new delegate. */
  function Attenuate(c: Crypto, g: Grant, holder: WorkingKey, audience: Blob, caveats: Caveats)
    : Result<Grant, GrantError>
  {
    if g.links == [] then Err(EmptyGrant) else
    var last := g.links[|g.links| - 1];
    if holder.pub != last.audience then Err(NotHolder)
    else if !Narrows(caveats, last.caveats) then Err(BadAttenuation)
    else Ok(Grant(g.target, g.links + [SignedLink(c, g.target, holder, audience, caveats, last.sig)]))
  }

  // ----- Verifying -----

  /** What the resource knows when a grant is presented to it. */
  datatype Request = Request(
    rootPub: Blob, endorsements: seq<KeyEndorsement>, caller: Blob, capability: Label, now: U64, revoked: set<Blob>)

  /** The signature before link `i`, empty for the head. */
  function Prev(g: Grant, i: nat): Blob
    requires i < |g.links|
  {
    if i == 0 then [] else g.links[i - 1].sig
  }

  /** The first reason to reject link `i`, if there is one. */
  function LinkFault(c: Crypto, g: Grant, req: Request, i: nat): Option<GrantError>
    requires i < |g.links|
  {
    var link := g.links[i];
    var head := VerifyWorkingKey(c, req.rootPub, g.target, req.endorsements, link.issuer, req.now, req.revoked);
    var message := LinkMessage(g.target, link.issuer, link.audience, link.caveats, Prev(g, i));
    if link.issuer in req.revoked || link.audience in req.revoked then Some(Core(KeyRevoked))
    else if i == 0 && head.Err? then Some(Core(head.error))
    else if i > 0 && link.issuer != g.links[i - 1].audience then Some(BrokenChain)
    else if i > 0 && !Narrows(link.caveats, g.links[i - 1].caveats) then Some(BadAttenuation)
    else if !c.Verifies(link.issuer, message, link.sig) then Some(BadSignature)
    else if !AllowsCapability(link.caveats, req.capability) then Some(CapabilityNotAllowed)
    else if req.now > link.caveats.notAfter then Some(Expired)
    else None
  }

  /** The verdict once the links before `i` have passed. */
  function VerdictFrom(c: Crypto, g: Grant, req: Request, i: nat): Result<(), GrantError>
    requires i <= |g.links| && g.links != []
    decreases |g.links| - i
  {
    if i == |g.links| then
      if g.links[i - 1].audience != req.caller then Err(AudienceMismatch) else Ok(())
    else
      var fault := LinkFault(c, g, req, i);
      if fault.Some? then Err(fault.value) else VerdictFrom(c, g, req, i + 1)
  }

  function Verdict(c: Crypto, g: Grant, req: Request): Result<(), GrantError> {
    if g.links == [] then Err(EmptyGrant) else
    var id := IdOf(c, req.rootPub);
    if id.Err? then Err(Core(id.error))
    else if id.value != g.target then Err(TargetMismatch)
    else VerdictFrom(c, g, req, 0)
  }

  method Verify(c: Crypto, g: Grant, req: Request) returns (r: Result<(), GrantError>)
    ensures r == Verdict(c, g, req)
  {
    hide LinkMessage, Narrows, VerifyWorkingKey;
    if g.links == [] {
      return Err(EmptyGrant);
    }
    var id := IdOf(c, req.rootPub);
    if id.Err? {
      return Err(Core(id.error));
    }
    if id.value != g.target {
      return Err(TargetMismatch);
    }
    var prev: Blob := [];
    var parent: Option<Caveats> := None;
    for i := 0 to |g.links|
      invariant i > 0 ==> prev == g.links[i - 1].sig && parent == Some(g.links[i - 1].caveats)
      invariant i == 0 ==> prev == [] && parent == None
      invariant VerdictFrom(c, g, req, 0) == VerdictFrom(c, g, req, i)
    {
      var link := g.links[i];
      if link.issuer in req.revoked || link.audience in req.revoked {
        return Err(Core(KeyRevoked));
      }
      if i == 0 {
        var head := VerifyWorkingKey(c, req.rootPub, g.target, req.endorsements, link.issuer, req.now, req.revoked);
        if head.Err? {
          return Err(Core(head.error));
        }
      } else if link.issuer != g.links[i - 1].audience {
        return Err(BrokenChain);
      }
      if parent.Some? && !Narrows(link.caveats, parent.value) {
        return Err(BadAttenuation);
      }
      if !c.Verifies(link.issuer, LinkMessage(g.target, link.issuer, link.audience, link.caveats, prev), link.sig) {
        return Err(BadSignature);
      }
      if !AllowsCapability(link.caveats, req.capability) {
        return Err(CapabilityNotAllowed);
      }
      if req.now > link.caveats.notAfter {
        return Err(Expired);
      }
      prev := link.sig;
      parent := Some(link.caveats);
    }
    if g.links[|g.links| - 1].audience != req.caller {
      return Err(AudienceMismatch);
    }
    return Ok(());
  }

  /** The constraint check of the resource: the last link counts. */
  predicate Satisfies(g: Grant, attributes: map<Label, Label>) {
    g.links == [] || Meets(g.links[|g.links| - 1].caveats.constraints, attributes)
  }

  // ----- Narrowing along a chain -----

  lemma NarrowsIsTransitive(a: Caveats, b: Caveats, c: Caveats)
    requires Narrows(b, a) && Narrows(c, b)
    ensures Narrows(c, a)
  {
    forall e | e in a.constraints ensures Lookup(c.constraints, e.key) == Some(e.value) {
      assert Pair(e.key, e.value) in b.constraints;
    }
  }

  /** What the narrower caveats let through, the wider ones let through. */
  lemma NarrowerAllowsLess(child: Caveats, parent: Caveats, capability: Label, now: U64, attributes: map<Label, Label>)
    requires Narrows(child, parent)
    ensures AllowsCapability(child, capability) ==> AllowsCapability(parent, capability)
    ensures now <= child.notAfter ==> now <= parent.notAfter
    ensures Meets(child.constraints, attributes) ==> Meets(parent.constraints, attributes)
  {
    if Meets(child.constraints, attributes) {
      forall e | e in parent.constraints ensures e.key in attributes && attributes[e.key] == e.value {
        assert Pair(e.key, e.value) in child.constraints;
      }
    }
  }

  /** Each link narrows the one before it. */
  predicate NarrowingChain(g: Grant) {
    forall i | 0 < i < |g.links| :: Narrows(g.links[i].caveats, g.links[i - 1].caveats)
  }

  /** The grant as it was handed on with link `i` as its last. */
  function UpTo(g: Grant, i: nat): Grant
    requires i < |g.links|
  {
    Grant(g.target, g.links[..i + 1])
  }

  /** Along a chain, what a later link lets through every earlier one lets through: a capability, a time, and the
      attributes that satisfy the grant so far. */
  lemma {:induction false} LaterLinkIsNarrower(
    g: Grant, i: nat, j: nat, capability: Label, now: U64, attributes: map<Label, Label>)
    requires NarrowingChain(g) && i <= j < |g.links|
    ensures
      var early, late := g.links[i].caveats, g.links[j].caveats;
      && (i < j ==> Narrows(late, early))
      && (AllowsCapability(late, capability) ==> AllowsCapability(early, capability))
      && (now <= late.notAfter ==> now <= early.notAfter)
      && (Satisfies(UpTo(g, j), attributes) ==> Satisfies(UpTo(g, i), attributes))
    decreases j - i
  {
    hide Narrows, Meets, AllowsCapability;
    if i < j {
      LaterLinkIsNarrower(g, i, j - 1, capability, now, attributes);
      assert Narrows(g.links[j].caveats, g.links[j - 1].caveats);
      NarrowerAllowsLess(g.links[j].caveats, g.links[j - 1].caveats, capability, now, attributes);
      if i < j - 1 {
        NarrowsIsTransitive(g.links[i].caveats, g.links[j - 1].caveats, g.links[j].caveats);
      }
    }
  }

  // ----- Verification is exact -----

  /** The grant was made by one `Issue` followed by successful `Attenuate` calls, with keys of the right length. */
  ghost predicate Made(c: Crypto, g: Grant)
    decreases |g.links|
  {
    g.links != [] &&
    var n := |g.links| - 1;
    var last := g.links[n];
    |last.issuer| == KEY_LENGTH &&
    if n == 0 then
      g == Issue(c, g.target, WorkingKey(last.issuer), last.audience, last.caveats)
    else
      var before := Grant(g.target, g.links[..n]);
      Made(c, before) && Attenuate(c, before, WorkingKey(last.issuer), last.audience, last.caveats) == Ok(g)
  }

  /** Link `i` continues the chain: signed by the audience before it over the signature before it, and narrower. */
  predicate Linked(c: Crypto, g: Grant, i: nat)
    requires i < |g.links|
  {
    var link := g.links[i];
    && (i > 0 ==> link.issuer == g.links[i - 1].audience && Narrows(link.caveats, g.links[i - 1].caveats))
    && c.Verifies(link.issuer, LinkMessage(g.target, link.issuer, link.audience, link.caveats, Prev(g, i)), link.sig)
  }

  lemma {:induction false} MadeIffLinked(c: Crypto, g: Grant)
    ensures Made(c, g) <==> g.links != [] && forall i | 0 <= i < |g.links| :: Linked(c, g, i)
    decreases |g.links|
  {
    hide LinkMessage, Narrows;
    if g.links != [] {
      var n := |g.links| - 1;
      var last := g.links[n];
      var before := Grant(g.target, g.links[..n]);
      assert g.links == before.links + [last];
      assert forall i | 0 <= i < n :: Linked(c, g, i) <==> Linked(c, before, i);
      if n > 0 {
        MadeIffLinked(c, before);
      }
      assert Linked(c, g, n) ==>
        last == SignedLink(c, g.target, WorkingKey(last.issuer), last.audience, last.caveats, Prev(g, n));
    }
  }

  /** No key of the chain is revoked. */
  predicate NoKeyRevoked(g: Grant, revoked: set<Blob>) {
    forall i | 0 <= i < |g.links| :: g.links[i].issuer !in revoked && g.links[i].audience !in revoked
  }

  /** The conditions of the moment. Capability and expiry concern the last link only. */
  predicate Permitted(c: Crypto, g: Grant, req: Request)
    requires g.links != []
  {
    var last := g.links[|g.links| - 1];
    && VerifyWorkingKey(c, req.rootPub, g.target, req.endorsements, g.links[0].issuer, req.now, {}).Ok?
    && NoKeyRevoked(g, req.revoked)
    && AllowsCapability(last.caveats, req.capability)
    && req.now <= last.caveats.notAfter
    && last.audience == req.caller
  }

  lemma {:induction false} PassesIffFaultless(c: Crypto, g: Grant, req: Request, i: nat)
    requires i <= |g.links| && g.links != []
    ensures
      VerdictFrom(c, g, req, i).Ok? <==>
        g.links[|g.links| - 1].audience == req.caller && forall k | i <= k < |g.links| :: LinkFault(c, g, req, k).None?
    decreases |g.links| - i
  {
    hide LinkFault;
    if i < |g.links| {
      PassesIffFaultless(c, g, req, i + 1);
    }
  }

  /** Link by link: no fault exactly when the link continues the chain and the conditions of the moment hold at it. */
  lemma FaultlessIff(c: Crypto, g: Grant, req: Request, i: nat)
    requires i < |g.links|
    ensures
      var link := g.links[i];
      LinkFault(c, g, req, i).None? <==>
        && Linked(c, g, i)
        && (i == 0 ==> VerifyWorkingKey(c, req.rootPub, g.target, req.endorsements, link.issuer, req.now, {}).Ok?)
        && link.issuer !in req.revoked && link.audience !in req.revoked
        && AllowsCapability(link.caveats, req.capability)
        && req.now <= link.caveats.notAfter
  {
    hide LinkMessage, Narrows, AllowsCapability;
  }

  /** Only the last link's capability and expiry matter: the others follow from the narrowing. */
  lemma LastLinkDecides(c: Crypto, g: Grant, req: Request, i: nat)
    requires i < |g.links| && forall k | 0 <= k < |g.links| :: Linked(c, g, k)
    ensures
      var last := g.links[|g.links| - 1];
      && (AllowsCapability(last.caveats, req.capability) ==> AllowsCapability(g.links[i].caveats, req.capability))
      && (req.now <= last.caveats.notAfter ==> req.now <= g.links[i].caveats.notAfter)
  {
    hide LinkMessage, Narrows, AllowsCapability;
    forall k | 0 < k < |g.links| ensures Narrows(g.links[k].caveats, g.links[k - 1].caveats) {
      assert Linked(c, g, k);
    }
    LaterLinkIsNarrower(g, i, |g.links| - 1, req.capability, req.now, map[]);
  }

  /** A grant is accepted exactly when it was issued by an endorsed key of the target and then only attenuated,
      and the conditions of the moment hold. */
  lemma VerifyIsExact(c: Crypto, g: Grant, req: Request)
    ensures Verdict(c, g, req).Ok? <==> Made(c, g) && Permitted(c, g, req)
  {
    hide Linked, LinkFault, AllowsCapability, Made, FindEndorsement, EndorsementSigned;
    MadeIffLinked(c, g);
    if g.links != [] {
      PassesIffFaultless(c, g, req, 0);
      forall i | 0 <= i < |g.links|
        ensures Made(c, g) && Permitted(c, g, req) ==> LinkFault(c, g, req, i).None?
        ensures LinkFault(c, g, req, i).None? ==> Linked(c, g, i)
      {
        FaultlessIff(c, g, req, i);
        if Made(c, g) {
          LastLinkDecides(c, g, req, i);
        }
      }
      if Verdict(c, g, req).Ok? {
        forall i | 0 <= i < |g.links|
          ensures g.links[i].issuer !in req.revoked && g.links[i].audience !in req.revoked
        {
          FaultlessIff(c, g, req, i);
        }
        FaultlessIff(c, g, req, 0);
        FaultlessIff(c, g, req, |g.links| - 1);
      }
    }
  }

  /** What link `i` signs, and with which key. */
  function LinkSigned(g: Grant, i: nat): Signed
    requires i < |g.links|
  {
    var link := g.links[i];
    Signed(link.issuer, LinkMessage(g.target, link.issuer, link.audience, link.caveats, Prev(g, i)))
  }

  /** All that the links of a grant sign. */
  function AllSigned(g: Grant): set<Signed> {
    set i | 0 <= i < |g.links| :: LinkSigned(g, i)
  }

  lemma LinkIsSigned(g: Grant, i: nat)
    requires i < |g.links|
    ensures LinkSigned(g, i) in AllSigned(g)
  {
  }

  lemma PrefixSignsLess(g: Grant, n: nat)
    requires n <= |g.links|
    ensures AllSigned(Grant(g.target, g.links[..n])) <= AllSigned(g)
  {
    hide LinkMessage;
    var before := Grant(g.target, g.links[..n]);
    forall i | 0 <= i < n ensures LinkSigned(before, i) == LinkSigned(g, i) {
      assert g.links[..n][i] == g.links[i];
    }
  }

  /** Equal signatures come from equal links over the same target and the same signature before. */
  lemma EqualSignaturesEqualLinks(c: Crypto, g: Grant, i: nat, h: Grant, j: nat)
    requires i < |g.links| && j < |h.links| && Linked(c, g, i) && Linked(c, h, j)
    requires c.Separates({LinkSigned(g, i), LinkSigned(h, j)})
    requires g.links[i].sig == h.links[j].sig
    ensures g.target == h.target && g.links[i] == h.links[j] && Prev(g, i) == Prev(h, j)
  {
    hide LinkMessage, Narrows;
    var a, b := g.links[i], h.links[j];
    LinkMessageInjective(
      g.target, a.issuer, a.audience, a.caveats, Prev(g, i), h.target, b.issuer, b.audience, b.caveats, Prev(h, j));
  }

  /** The same for links of two grants whose signatures are all apart; and such signatures are not empty. */
  lemma EqualSignaturesOf(c: Crypto, g: Grant, i: nat, h: Grant, j: nat)
    requires i < |g.links| && j < |h.links| && Linked(c, g, i) && Linked(c, h, j)
    requires c.Separates(AllSigned(g) + AllSigned(h))
    ensures g.links[i].sig != [] && h.links[j].sig != []
    ensures g.links[i].sig == h.links[j].sig ==>
      g.target == h.target && g.links[i] == h.links[j] && Prev(g, i) == Prev(h, j)
  {
    hide LinkMessage, Narrows, AllSigned;
    LinkIsSigned(g, i);
    LinkIsSigned(h, j);
    if g.links[i].sig == h.links[j].sig {
      EqualSignaturesEqualLinks(c, g, i, h, j);
    }
  }

  /** The last signature of a made grant determines the grant. */
  lemma {:induction false} LastSignatureDeterminesGrant(c: Crypto, g: Grant, h: Grant)
    requires c.Separates(AllSigned(g) + AllSigned(h)) && Made(c, g) && Made(c, h)
    requires g.links[|g.links| - 1].sig == h.links[|h.links| - 1].sig
    ensures g == h
    decreases |g.links|
  {
    hide LinkMessage, Narrows, Linked, AllSigned, Crypto.Separates;
    var n, m := |g.links| - 1, |h.links| - 1;
    MadeIffLinked(c, g);
    MadeIffLinked(c, h);
    EqualSignaturesOf(c, g, n, h, m);
    assert g.links == g.links[..n] + [g.links[n]] && h.links == h.links[..m] + [h.links[m]];
    if n > 0 {
      EqualSignaturesOf(c, g, n - 1, h, m);
    }
    if m > 0 {
      EqualSignaturesOf(c, g, n, h, m - 1);
    }
    if n > 0 {
      PrefixesStayApart(c, g, n, h, m);
      LastSignatureDeterminesGrant(c, Grant(g.target, g.links[..n]), Grant(h.target, h.links[..m]));
    }
  }

  lemma PrefixesStayApart(c: Crypto, g: Grant, n: nat, h: Grant, m: nat)
    requires n <= |g.links| && m <= |h.links| && c.Separates(AllSigned(g) + AllSigned(h))
    ensures c.Separates(AllSigned(Grant(g.target, g.links[..n])) + AllSigned(Grant(h.target, h.links[..m])))
  {
    hide AllSigned;
    PrefixSignsLess(g, n);
    PrefixSignsLess(h, m);
  }

  /** There is a scheme and an accepted chain of two links whose signatures are all apart. */
  lemma SeparatedChainExists() returns (c: Crypto, g: Grant, req: Request)
    ensures |g.links| == 2 && Verdict(c, g, req).Ok? && c.Separates(AllSigned(g))
  {
    hide LinkMessage, SigningBytes, EndorsementView;
    var root, issuer, holder: Blob := seq(KEY_LENGTH, _ => 1), seq(KEY_LENGTH, _ => 2), seq(KEY_LENGTH, _ => 3);
    assert root[0] == 1 && issuer[0] == 2 && holder[0] == 3;
    c := Crypto((p: Blob, m: ByteString) => if p == [] then [0] else [p[0]], (b: Blob) => []);
    var caveats := Caveats([[0x61]], 10, []);
    var head := Issue(c, [], WorkingKey(issuer), holder, caveats);
    assert Narrows(caveats, caveats);
    g := Attenuate(c, head, WorkingKey(holder), root, caveats).value;
    req := Request(root, [KeyEndorsement(issuer, 0, 10, [1])], root, [0x61], 5, {});
    assert g.links[..1] == head.links;
    assert Made(c, head) && Made(c, g);
    VerifyIsExact(c, g, req);
  }

  /** So two accepted grants ending in the same signature agree in target and in every link. */
  lemma AcceptedGrantsAgree(c: Crypto, g: Grant, r: Request, h: Grant, s: Request)
    requires Verdict(c, g, r).Ok? && Verdict(c, h, s).Ok? && c.Separates(AllSigned(g) + AllSigned(h))
    requires g.links[|g.links| - 1].sig == h.links[|h.links| - 1].sig
    ensures g == h
  {
    VerifyIsExact(c, g, r);
    VerifyIsExact(c, h, s);
    LastSignatureDeterminesGrant(c, g, h);
  }
}
