/** What acceptance of a grant means, said over the fields of the grant and of the request, and what each error says. */
module AcceptedGrants {
  import opened Wrappers
  import opened Bytes
  import opened Cbor
  import opened Signing
  import opened Fields
  import opened Identity
  import opened Grants
  import PyGrants

  // ----- What is signed -----

  /** A link signs its target, its two keys, its caveats and the signature before it, under these names and in this
      order. */
  lemma LinkLayout(target: Blob, issuer: Blob, audience: Blob, caveats: Caveats, prev: Blob)
    ensures LINK_FIELDS == ["target", "issuer_pub", "audience_pub", "caveats", "prev"]
    ensures LinkFields(target, issuer, audience, caveats, prev) ==
      [Bytes(target), Bytes(issuer), Bytes(audience), CaveatsValue(caveats), Bytes(prev)]
    ensures LinkView(target, issuer, audience, caveats, prev) ==
      Struct(LINK_FIELDS, LinkFields(target, issuer, audience, caveats, prev))
    ensures LinkMessage(target, issuer, audience, caveats, prev) ==
      Ascii("thicket-grant-v1") + [0] + Enc(LinkView(target, issuer, audience, caveats, prev))
  {
    hide CaveatsValue, Struct;
  }

  lemma CaveatsLayout(caveats: Caveats)
    ensures CAVEAT_FIELDS == ["capabilities", "not_after", "constraints"]
    ensures CaveatFields(caveats) ==
      [LabelArray(caveats.capabilities), Int(caveats.notAfter), StringMapValue(caveats.constraints)]
    ensures CaveatsValue(caveats) == Struct(CAVEAT_FIELDS, CaveatFields(caveats))
  {
    hide LabelArray, StringMapValue, Struct;
  }

  // ----- Narrowing -----

  lemma {:induction false} LookupIs(m: seq<Pair>, e: Pair)
    requires forall i, j | 0 <= i < j < |m| :: m[i].key != m[j].key
    ensures Lookup(m, e.key) == Some(e.value) <==> e in m
  {
    if m != [] {
      LookupIs(m[1..], e);
      assert m == [m[0]] + m[1..];
      if m[0].key == e.key && e in m[1..] {
        assert false;
      }
    }
  }

  /** A child narrows its parent exactly when it adds no capability, unless the parent has the wildcard, ends no later,
      and has every constraint of the parent with the same value. */
  lemma NarrowsIff(child: Caveats, parent: Caveats)
    ensures Narrows(child, parent) <==>
      && (Ascii("*") in parent.capabilities
          || forall cap | cap in child.capabilities :: cap != Ascii("*") && cap in parent.capabilities)
      && child.notAfter <= parent.notAfter
      && (forall e | e in parent.constraints :: e in child.constraints)
  {
    hide Ascii, Lookup;
    forall e | e in parent.constraints
      ensures Lookup(child.constraints, e.key) == Some(e.value) <==> e in child.constraints
    {
      LookupIs(child.constraints, e);
    }
  }

  /** Why a holder's grant cannot be attenuated, and the one link it gets otherwise, signed by the holder over the
      signature before it. */
  lemma AttenuateOutcomes(c: Crypto, g: Grant, holder: WorkingKey, audience: Blob, caveats: Caveats)
    ensures
      var r := Attenuate(c, g, holder, audience, caveats);
      && (r == Err(EmptyGrant) <==> g.links == [])
      && (r == Err(NotHolder) <==> g.links != [] && holder.pub != g.links[|g.links| - 1].audience)
      && (r == Err(BadAttenuation) <==>
            g.links != [] && holder.pub == g.links[|g.links| - 1].audience
            && !Narrows(caveats, g.links[|g.links| - 1].caveats))
      && (r.Ok? ==>
            && r.value.target == g.target && r.value.links[..|r.value.links| - 1] == g.links
            && r.value.links[|r.value.links| - 1] ==
                 GrantLink(holder.pub, audience, caveats,
                   c.sign(holder.pub,
                     LinkMessage(g.target, holder.pub, audience, caveats, g.links[|g.links| - 1].sig))))
  {
    hide Narrows, LinkMessage;
  }

  // ----- Acceptance -----

  /** A grant is accepted exactly when all of this holds: the root key has its length and hashes to the target; the key
      of the head is endorsed, and its first endorsement is signed by the root and in force; every link is signed by its
      issuer, a key of the right length, over the signature before it, and no key of the chain is revoked; every
      further link is issued by the audience before it and narrows the caveats before it; and the last link allows the
      capability, has not run out, and names the caller. */
  lemma AcceptedIff(c: Crypto, g: Grant, req: Request)
    ensures Verdict(c, g, req).Ok? <==>
      && g.links != []
      && |req.rootPub| == 32 && c.hash(req.rootPub) == g.target
      && (exists i | 0 <= i < |req.endorsements| ::
            var e := req.endorsements[i];
            && e.workingPub == g.links[0].issuer
            && (forall j | 0 <= j < i :: req.endorsements[j].workingPub != g.links[0].issuer)
            && e.rootSig == c.sign(req.rootPub, EndorsementMessage(e))
            && e.notBefore <= req.now <= e.notAfter)
      && (forall k | 0 <= k < |g.links| ::
            g.links[k].issuer !in req.revoked && g.links[k].audience !in req.revoked)
      && (forall k | 0 <= k < |g.links| ::
            && |g.links[k].issuer| == 32
            && g.links[k].sig ==
                 c.sign(g.links[k].issuer,
                   LinkMessage(g.target, g.links[k].issuer, g.links[k].audience, g.links[k].caveats, Prev(g, k))))
      && (forall k | 0 < k < |g.links| ::
            g.links[k].issuer == g.links[k - 1].audience && Narrows(g.links[k].caveats, g.links[k - 1].caveats))
      && var last := g.links[|g.links| - 1];
         && (Ascii("*") in last.caveats.capabilities || req.capability in last.caveats.capabilities)
         && req.now <= last.caveats.notAfter
         && last.audience == req.caller
  {
    hide Made, Verdict, VerifyWorkingKey, EndorsementMessage, LinkMessage, Ascii, Narrows, Permitted, Linked;
    hide SignedLinkAt, FollowsLink, Prev;
    VerifyIsExact(c, g, req);
    MadeIffLinked(c, g);
    if g.links != [] {
      LinksInFields(c, g);
      PermittedInFields(c, g, req);
      SignedLinksInFields(c, g);
      FollowingLinksInFields(g);
    }
  }

  lemma SignedLinksInFields(c: Crypto, g: Grant)
    ensures (forall k | 0 <= k < |g.links| :: SignedLinkAt(c, g, k)) <==>
      (forall k | 0 <= k < |g.links| ::
         && |g.links[k].issuer| == 32
         && g.links[k].sig ==
              c.sign(g.links[k].issuer,
                LinkMessage(g.target, g.links[k].issuer, g.links[k].audience, g.links[k].caveats, Prev(g, k))))
  {
    hide LinkMessage, Prev;
    if forall k | 0 <= k < |g.links| :: SignedLinkAt(c, g, k) {
      forall k | 0 <= k < |g.links|
        ensures
          && |g.links[k].issuer| == 32
          && g.links[k].sig ==
               c.sign(g.links[k].issuer,
                 LinkMessage(g.target, g.links[k].issuer, g.links[k].audience, g.links[k].caveats, Prev(g, k)))
      {
        assert SignedLinkAt(c, g, k);
      }
    }
  }

  lemma FollowingLinksInFields(g: Grant)
    ensures (forall k | 0 < k < |g.links| :: FollowsLink(g, k)) <==>
      (forall k | 0 < k < |g.links| ::
         g.links[k].issuer == g.links[k - 1].audience && Narrows(g.links[k].caveats, g.links[k - 1].caveats))
  {
    hide Narrows;
    if forall k | 0 < k < |g.links| :: FollowsLink(g, k) {
      forall k | 0 < k < |g.links|
        ensures g.links[k].issuer == g.links[k - 1].audience && Narrows(g.links[k].caveats, g.links[k - 1].caveats)
      {
        assert FollowsLink(g, k);
      }
    }
  }

  lemma PermittedInFields(c: Crypto, g: Grant, req: Request)
    requires g.links != []
    ensures Permitted(c, g, req) <==>
      && |req.rootPub| == 32 && c.hash(req.rootPub) == g.target
      && (exists i | 0 <= i < |req.endorsements| ::
            var e := req.endorsements[i];
            && e.workingPub == g.links[0].issuer
            && (forall j | 0 <= j < i :: req.endorsements[j].workingPub != g.links[0].issuer)
            && e.rootSig == c.sign(req.rootPub, EndorsementMessage(e))
            && e.notBefore <= req.now <= e.notAfter)
      && (forall k | 0 <= k < |g.links| ::
            g.links[k].issuer !in req.revoked && g.links[k].audience !in req.revoked)
      && var last := g.links[|g.links| - 1];
         && (Ascii("*") in last.caveats.capabilities || req.capability in last.caveats.capabilities)
         && req.now <= last.caveats.notAfter
         && last.audience == req.caller
  {
    hide VerifyWorkingKey, EndorsementMessage;
    HeadIsEndorsedIff(c, req.rootPub, g.target, req.endorsements, g.links[0].issuer, req.now);
    WildcardIs();
    hide Ascii;
  }

  lemma WildcardIs()
    ensures WILDCARD == Ascii("*")
  {
  }

  predicate SignedLinkAt(c: Crypto, g: Grant, k: nat)
    requires k < |g.links|
  {
    && |g.links[k].issuer| == 32
    && g.links[k].sig ==
         c.sign(g.links[k].issuer,
           LinkMessage(g.target, g.links[k].issuer, g.links[k].audience, g.links[k].caveats, Prev(g, k)))
  }

  predicate FollowsLink(g: Grant, k: nat)
    requires 0 < k < |g.links|
  {
    g.links[k].issuer == g.links[k - 1].audience && Narrows(g.links[k].caveats, g.links[k - 1].caveats)
  }

  lemma LinksInFields(c: Crypto, g: Grant)
    ensures (forall k | 0 <= k < |g.links| :: Linked(c, g, k)) <==>
      && (forall k | 0 <= k < |g.links| :: SignedLinkAt(c, g, k))
      && (forall k | 0 < k < |g.links| :: FollowsLink(g, k))
  {
    hide Narrows, LinkMessage;
    forall k | 0 <= k < |g.links|
      ensures Linked(c, g, k) <==> SignedLinkAt(c, g, k) && (k > 0 ==> FollowsLink(g, k))
    {
    }
    if forall k | 0 <= k < |g.links| :: Linked(c, g, k) {
      forall k | 0 <= k < |g.links| ensures SignedLinkAt(c, g, k) && (k > 0 ==> FollowsLink(g, k)) {
        assert Linked(c, g, k);
      }
    }
  }

  lemma HeadIsEndorsedIff(
    c: Crypto, rootPub: Blob, id: Blob, endorsements: seq<KeyEndorsement>, key: Blob, now: U64)
    ensures VerifyWorkingKey(c, rootPub, id, endorsements, key, now, {}).Ok? <==>
      && |rootPub| == 32 && c.hash(rootPub) == id
      && exists i | 0 <= i < |endorsements| ::
           var e := endorsements[i];
           && e.workingPub == key
           && (forall j | 0 <= j < i :: endorsements[j].workingPub != key)
           && e.rootSig == c.sign(rootPub, EndorsementMessage(e))
           && e.notBefore <= now <= e.notAfter
  {
    hide VerifyWorkingKey, EndorsementMessage;
    WorkingKeyVerdict(c, rootPub, id, endorsements, key, now, {}, 0);
    if VerifyWorkingKey(c, rootPub, id, endorsements, key, now, {}).Ok? {
      var i := AcceptedKeyIsEndorsed(c, rootPub, id, endorsements, key, now, {});
    } else {
      forall i | 0 <= i < |endorsements| && endorsements[i].workingPub == key
                 && forall j | 0 <= j < i :: endorsements[j].workingPub != key
        ensures
          var e := endorsements[i];
          !(|rootPub| == 32 && c.hash(rootPub) == id
            && e.rootSig == c.sign(rootPub, EndorsementMessage(e))
            && e.notBefore <= now <= e.notAfter)
      {
        WorkingKeyVerdict(c, rootPub, id, endorsements, key, now, {}, i);
      }
    }
  }

  /** A head whose first endorsement carries anything but the root's signature is refused for it, by both verifiers. */
  lemma UnsignedEndorsementIsRefused(c: Crypto, g: Grant, req: Request, i: nat)
    requires g.links != [] && |req.rootPub| == 32 && c.hash(req.rootPub) == g.target
    requires g.links[0].issuer !in req.revoked && g.links[0].audience !in req.revoked
    requires i < |req.endorsements| && req.endorsements[i].workingPub == g.links[0].issuer
    requires forall j | 0 <= j < i :: req.endorsements[j].workingPub != g.links[0].issuer
    requires
      var e := req.endorsements[i];
      e.rootSig != c.sign(req.rootPub, EndorsementMessage(e))
    ensures Verdict(c, g, req) == Err(Core(BadEndorsement)) && !PyGrants.Accepts(c, g, req)
  {
    hide VerifyWorkingKey, EndorsementMessage, LinkMessage, Narrows, PyGrants.Accepts;
    WorkingKeyVerdict(c, req.rootPub, g.target, req.endorsements, g.links[0].issuer, req.now, req.revoked, i);
    PyGrants.OneVerdict(c, g, req);
  }

  // ----- Errors -----

  /** Link `k` is the first with a fault, and the verdict is that fault. */
  lemma {:induction false} FirstFault(c: Crypto, g: Grant, req: Request, i: nat) returns (k: nat)
    requires i <= |g.links| && g.links != []
    ensures i <= k <= |g.links| && forall j | i <= j < k :: LinkFault(c, g, req, j).None?
    ensures k < |g.links| ==>
      LinkFault(c, g, req, k).Some? && VerdictFrom(c, g, req, i) == Err(LinkFault(c, g, req, k).value)
    ensures k == |g.links| ==>
      VerdictFrom(c, g, req, i) ==
        if g.links[|g.links| - 1].audience != req.caller then Err(AudienceMismatch) else Ok(())
    decreases |g.links| - i
  {
    hide LinkFault;
    if i == |g.links| || LinkFault(c, g, req, i).Some? {
      k := i;
    } else {
      k := FirstFault(c, g, req, i + 1);
    }
  }

  /** What the fault of one link says about it. */
  lemma FaultNamesCause(c: Crypto, g: Grant, req: Request, k: nat)
    requires k < |g.links| && LinkFault(c, g, req, k).Some?
    ensures
      var link, why := g.links[k], LinkFault(c, g, req, k).value;
      && (why == Core(KeyRevoked) <==> link.issuer in req.revoked || link.audience in req.revoked)
      && (why.Core? && why.error != KeyRevoked ==>
            k == 0 && why.error.BadKey? == (|req.rootPub| != 32)
            && why.error.IdMismatch? == (|req.rootPub| == 32 && c.hash(req.rootPub) != g.target))
      && (why == BrokenChain ==> k > 0 && link.issuer != g.links[k - 1].audience)
      && (why == BadAttenuation ==>
            k > 0 && link.issuer == g.links[k - 1].audience && !Narrows(link.caveats, g.links[k - 1].caveats))
      && (why == BadSignature ==>
            |link.issuer| != 32
            || link.sig !=
                 c.sign(link.issuer, LinkMessage(g.target, link.issuer, link.audience, link.caveats, Prev(g, k))))
      && (why == CapabilityNotAllowed ==>
            Ascii("*") !in link.caveats.capabilities && req.capability !in link.caveats.capabilities)
      && (why == Expired ==> req.now > link.caveats.notAfter)
      && !why.EmptyGrant? && !why.TargetMismatch? && !why.AudienceMismatch? && !why.NotHolder?
  {
    hide VerifyWorkingKey, LinkMessage, Narrows;
    WildcardIs();
    hide Ascii;
    HeadVerdicts(c, req, g.target, g.links[k].issuer);
  }

  lemma HeadVerdicts(c: Crypto, req: Request, target: Blob, key: Blob)
    ensures
      var r := VerifyWorkingKey(c, req.rootPub, target, req.endorsements, key, req.now, req.revoked);
      && (r == Err(BadKey) <==> |req.rootPub| != 32)
      && (r == Err(IdMismatch) <==> |req.rootPub| == 32 && c.hash(req.rootPub) != target)
      && (r == Err(KeyRevoked) ==> key in req.revoked)
  {
    hide FindEndorsement;
  }

  /** Every rejection of a grant names its cause: an empty grant, a root key that is not the target's, the fault of the
      first faulty link, or, when no link has one, a caller that is not the last audience. */
  lemma RejectionNamesCause(c: Crypto, g: Grant, req: Request) returns (k: nat)
    requires Verdict(c, g, req).Err?
    ensures
      var why := Verdict(c, g, req).error;
      && (why == EmptyGrant <==> g.links == [])
      && (g.links != [] && |req.rootPub| != 32 ==> why == Core(BadKey))
      && (g.links != [] && |req.rootPub| == 32 ==> (why == TargetMismatch <==> c.hash(req.rootPub) != g.target))
      && (g.links != [] && |req.rootPub| == 32 && c.hash(req.rootPub) == g.target ==>
            && k <= |g.links| && (forall j | 0 <= j < k :: LinkFault(c, g, req, j).None?)
            && (k < |g.links| ==> LinkFault(c, g, req, k) == Some(why))
            && (k == |g.links| ==> why == AudienceMismatch && g.links[k - 1].audience != req.caller))
  {
    hide LinkFault, VerdictFrom;
    k := 0;
    if g.links != [] && |req.rootPub| == 32 && c.hash(req.rootPub) == g.target {
      k := FirstFault(c, g, req, 0);
      NoTargetFault(c, g, req);
    }
  }

  lemma NoTargetFault(c: Crypto, g: Grant, req: Request)
    ensures forall j | 0 <= j < |g.links| ::
      LinkFault(c, g, req, j) != Some(TargetMismatch) && LinkFault(c, g, req, j) != Some(EmptyGrant)
  {
    hide VerifyWorkingKey, LinkMessage, Narrows;
  }
}
