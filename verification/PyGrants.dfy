/** The second grant verifier (`grant.py`) and how its verdicts compare with the first one's. */
module PyGrants {
  import opened Wrappers
  import opened Bytes
  import opened Cbor
  import opened Signing
  import opened Fields
  import opened Identity
  import opened Grants

  // ----- The verifier -----

  predicate Endorsed(c: Crypto, rootPub: Blob, targetId: Blob, endorsements: seq<KeyEndorsement>, pub: Blob, now: U64) {
    if targetId != c.hash(rootPub) then false else
    var found := FindEndorsement(endorsements, pub);
    if found.None? then false
    else if !EndorsementSigned(c, rootPub, found.value) then false
    else found.value.notBefore <= now <= found.value.notAfter
  }

  /** Link `i` passes every check of the loop body. */
  predicate LinkPasses(c: Crypto, g: Grant, req: Request, i: nat)
    requires i < |g.links|
  {
    var link := g.links[i];
    && link.issuer !in req.revoked && link.audience !in req.revoked
    && (i == 0 ==> Endorsed(c, req.rootPub, g.target, req.endorsements, link.issuer, req.now))
    && (i > 0 ==> link.issuer == g.links[i - 1].audience && Narrows(link.caveats, g.links[i - 1].caveats))
    && c.Verifies(link.issuer, LinkMessage(g.target, link.issuer, link.audience, link.caveats, Prev(g, i)), link.sig)
    && AllowsCapability(link.caveats, req.capability)
    && req.now <= link.caveats.notAfter
  }

  predicate Accepts(c: Crypto, g: Grant, req: Request) {
    && g.links != []
    && g.target == c.hash(req.rootPub)
    && (forall i | 0 <= i < |g.links| :: LinkPasses(c, g, req, i))
    && g.links[|g.links| - 1].audience == req.caller
  }

  method Verify(c: Crypto, g: Grant, req: Request) returns (ok: bool)
    ensures ok <==> Accepts(c, g, req)
  {
    hide LinkMessage, Narrows, Endorsed, AllowsCapability;
    var links := g.links;
    if links == [] {
      return false;
    }
    if g.target != c.hash(req.rootPub) {
      return false;
    }
    var prev: Blob := [];
    var parent: Option<Caveats> := None;
    for i := 0 to |links|
      invariant i > 0 ==> prev == links[i - 1].sig && parent == Some(links[i - 1].caveats)
      invariant i == 0 ==> prev == [] && parent == None
      invariant forall k | 0 <= k < i :: LinkPasses(c, g, req, k)
    {
      var link := links[i];
      ghost var passes := LinkPasses(c, g, req, i);
      if link.issuer in req.revoked || link.audience in req.revoked {
        return false;
      }
      if i == 0 {
        if !Endorsed(c, req.rootPub, g.target, req.endorsements, link.issuer, req.now) {
          return false;
        }
      } else if link.issuer != links[i - 1].audience {
        return false;
      }
      if parent.Some? && !Narrows(link.caveats, parent.value) {
        return false;
      }
      if !c.Verifies(link.issuer, LinkMessage(g.target, link.issuer, link.audience, link.caveats, prev), link.sig) {
        return false;
      }
      if !AllowsCapability(link.caveats, req.capability) {
        return false;
      }
      if req.now > link.caveats.notAfter {
        return false;
      }
      prev := link.sig;
      parent := Some(link.caveats);
    }
    return links[|links| - 1].audience == req.caller;
  }

  // ----- The same grant in both hosts -----

  /** On one grant value the two verifiers always agree, also for root keys of the wrong length. */
  lemma OneVerdict(c: Crypto, g: Grant, req: Request)
    ensures Accepts(c, g, req) <==> Verdict(c, g, req).Ok?
  {
    hide LinkPasses, LinkFault, FindEndorsement, EndorsementSigned;
    if g.links != [] {
      PassesIffFaultless(c, g, req, 0);
      if |req.rootPub| != KEY_LENGTH {
        WrongLengthFails(c, g, req);
      } else if g.target == c.hash(req.rootPub) {
        forall i | 0 <= i < |g.links| ensures LinkPasses(c, g, req, i) <==> LinkFault(c, g, req, i).None? {
          LinksAgree(c, g, req, i);
        }
      }
    }
  }

  lemma WrongLengthFails(c: Crypto, g: Grant, req: Request)
    requires g.links != [] && |req.rootPub| != KEY_LENGTH
    ensures !LinkPasses(c, g, req, 0)
  {
    hide LinkMessage, Narrows, AllowsCapability;
  }

  lemma LinksAgree(c: Crypto, g: Grant, req: Request, i: nat)
    requires i < |g.links| && |req.rootPub| == KEY_LENGTH && g.target == c.hash(req.rootPub)
    ensures LinkPasses(c, g, req, i) <==> LinkFault(c, g, req, i).None?
  {
    hide LinkMessage, Narrows, AllowsCapability;
  }

  // ----- The same bytes in both hosts -----
  // One host keeps the capability list and the constraints as they came; the other holds them in ordered
  // collections and signs over the sorted form.

  /** Byte order. */
  predicate Less(a: Utf8Text, b: Utf8Text) {
    b != [] && (a == [] || a[0] < b[0] || (a[0] == b[0] && Less(a[1..], b[1..])))
  }

  lemma {:induction false} LessIsTotal(a: Utf8Text, b: Utf8Text)
    ensures a == b || Less(a, b) || Less(b, a)
    ensures !(a == b && Less(a, b)) && !(Less(a, b) && Less(b, a))
  {
    if a != [] && b != [] {
      LessIsTotal(a[1..], b[1..]);
      assert a == [a[0]] + a[1..] && b == [b[0]] + b[1..];
    }
  }

  /** The first difference decides, and a proper prefix comes first. */
  lemma {:induction false} FirstDifferenceDecides(a: Utf8Text, b: Utf8Text)
    ensures Less(a, b) <==>
      exists i | 0 <= i < |b| && i <= |a| :: a[..i] == b[..i] && (i == |a| || a[i] < b[i])
  {
    if a != [] && b != [] && a[0] == b[0] {
      FirstDifferenceDecides(a[1..], b[1..]);
      if Less(a, b) {
        var i :| 0 <= i < |b[1..]| && i <= |a[1..]| && a[1..][..i] == b[1..][..i]
          && (i == |a[1..]| || a[1..][i] < b[1..][i]);
        assert a[..i + 1] == [a[0]] + a[1..][..i] && b[..i + 1] == [b[0]] + b[1..][..i];
      }
      if i :| 0 <= i < |b| && i <= |a| && a[..i] == b[..i] && (i == |a| || a[i] < b[i]) {
        assert a[1..][..i - 1] == a[..i][1..] && b[1..][..i - 1] == b[..i][1..];
      }
    } else if b != [] && (a == [] || a[0] < b[0]) {
      assert a[..0] == b[..0];
    }
  }

  predicate StrictlySorted(s: seq<Label>) {
    forall i | 0 < i < |s| :: Less(s[i - 1], s[i])
  }

  function InsertLabel(x: Label, s: seq<Label>): (r: seq<Label>)
    ensures |r| <= |s| + 1
    ensures forall y :: y in r <==> y == x || y in s
  {
    if s == [] then [x]
    else if x == s[0] then s
    else if Less(x, s[0]) then [x] + s
    else [s[0]] + InsertLabel(x, s[1..])
  }

  function SortLabels(s: seq<Label>): (r: seq<Label>)
    ensures |r| <= |s|
    ensures forall y :: y in r <==> y in s
  {
    if s == [] then [] else InsertLabel(s[0], SortLabels(s[1..]))
  }

  lemma {:induction false} InsertKeepsSorted(x: Label, s: seq<Label>)
    requires StrictlySorted(s)
    ensures StrictlySorted(InsertLabel(x, s))
    ensures InsertLabel(x, s) != [] && (InsertLabel(x, s)[0] == x || (s != [] && InsertLabel(x, s)[0] == s[0]))
  {
    if s != [] {
      LessIsTotal(x, s[0]);
      InsertKeepsSorted(x, s[1..]);
    }
  }

  /** Sorting leaves a label list alone exactly when it is strictly sorted. */
  lemma {:induction false} SortedIffFixed(s: seq<Label>)
    ensures StrictlySorted(SortLabels(s))
    ensures SortLabels(s) == s <==> StrictlySorted(s)
  {
    if s != [] {
      SortedIffFixed(s[1..]);
      InsertKeepsSorted(s[0], SortLabels(s[1..]));
      if StrictlySorted(s) && |s| > 1 {
        LessIsTotal(s[0], s[1]);
      }
    }
  }

  function InsertConstraint(x: Pair, s: seq<Pair>): (r: seq<Pair>)
    requires forall e | e in s :: e.key != x.key
    requires forall i, j | 0 <= i < j < |s| :: s[i].key != s[j].key
    ensures |r| == |s| + 1
    ensures forall e :: e in r <==> e == x || e in s
    ensures forall i, j | 0 <= i < j < |r| :: r[i].key != r[j].key
  {
    if s == [] then [x]
    else if Less(x.key, s[0].key) then [x] + s
    else
      var rest := InsertConstraint(x, s[1..]);
      assert forall e | e in rest :: e.key != s[0].key;
      [s[0]] + rest
  }

  function SortConstraints(s: seq<Pair>): (r: seq<Pair>)
    requires forall i, j | 0 <= i < j < |s| :: s[i].key != s[j].key
    ensures |r| == |s|
    ensures forall e :: e in r <==> e in s
    ensures forall i, j | 0 <= i < j < |r| :: r[i].key != r[j].key
  {
    if s == [] then [] else InsertConstraint(s[0], SortConstraints(s[1..]))
  }

  predicate KeysSorted(s: seq<Pair>) {
    forall i | 0 < i < |s| :: Less(s[i - 1].key, s[i].key)
  }

  lemma {:induction false} InsertKeepsKeysSorted(x: Pair, s: seq<Pair>)
    requires KeysSorted(s) && forall e | e in s :: e.key != x.key
    requires forall i, j | 0 <= i < j < |s| :: s[i].key != s[j].key
    ensures KeysSorted(InsertConstraint(x, s))
    ensures InsertConstraint(x, s)[0] == x || (s != [] && InsertConstraint(x, s)[0] == s[0])
  {
    if s != [] {
      LessIsTotal(x.key, s[0].key);
      InsertKeepsKeysSorted(x, s[1..]);
    }
  }

  /** Constraints come out in the order of their keys. */
  lemma {:induction false} ConstraintsAreSorted(s: seq<Pair>)
    requires forall i, j | 0 <= i < j < |s| :: s[i].key != s[j].key
    ensures KeysSorted(SortConstraints(s))
  {
    if s != [] {
      ConstraintsAreSorted(s[1..]);
      InsertKeepsKeysSorted(s[0], SortConstraints(s[1..]));
    }
  }

  function ParsedCaveats(c: Caveats): Caveats {
    Caveats(SortLabels(c.capabilities), c.notAfter, SortConstraints(c.constraints))
  }

  function ParsedLink(l: GrantLink): GrantLink {
    l.(caveats := ParsedCaveats(l.caveats))
  }

  /** The grant as the host with ordered collections holds it after parsing. */
  function Parsed(g: Grant): Grant {
    Grant(g.target, seq(|g.links|, i requires 0 <= i < |g.links| => ParsedLink(g.links[i])))
  }

  /** The wire form the specification asks for: capabilities and constraints already sorted in every link. */
  predicate Canonical(g: Grant) {
    forall i | 0 <= i < |g.links| :: ParsedCaveats(g.links[i].caveats) == g.links[i].caveats
  }

  lemma CanonicalIffParsedSame(g: Grant)
    ensures Canonical(g) <==> Parsed(g) == g
  {
    hide ParsedCaveats;
    if Parsed(g) == g {
      forall i | 0 <= i < |g.links| ensures ParsedCaveats(g.links[i].caveats) == g.links[i].caveats {
        assert Parsed(g).links[i] == ParsedLink(g.links[i]);
      }
    }
    if Canonical(g) {
      assert Parsed(g).links == g.links;
    }
  }

  /** For the same bytes the verdicts agree on every canonical grant; another grant is never accepted by both. */
  lemma VerdictsOnTheSameBytes(c: Crypto, g: Grant, req: Request)
    ensures Canonical(g) ==> (Accepts(c, g, req) <==> Verdict(c, Parsed(g), req).Ok?)
    ensures c.Separates(AllSigned(g) + AllSigned(Parsed(g))) && !Canonical(g) ==>
      !(Accepts(c, g, req) && Verdict(c, Parsed(g), req).Ok?)
  {
    hide ParsedCaveats, Linked, AllSigned, Crypto.Separates, Verdict, Accepts, Made, Permitted;
    CanonicalIffParsedSame(g);
    OneVerdict(c, g, req);
    if c.Separates(AllSigned(g) + AllSigned(Parsed(g))) && Accepts(c, g, req) && Verdict(c, Parsed(g), req).Ok? {
      VerifyIsExact(c, g, req);
      VerifyIsExact(c, Parsed(g), req);
      MadeIffLinked(c, g);
      MadeIffLinked(c, Parsed(g));
      forall i | 0 <= i < |g.links| ensures ParsedCaveats(g.links[i].caveats) == g.links[i].caveats {
        EqualSignaturesOf(c, g, i, Parsed(g), i);
      }
    }
  }

  /** So on a made and permitted grant the first verifier agrees with the second exactly when the grant is canonical. */
  lemma UnsortedGrantSplits(c: Crypto, g: Grant, req: Request)
    requires c.Separates(AllSigned(g) + AllSigned(Parsed(g))) && Made(c, g) && Permitted(c, g, req)
    ensures Accepts(c, g, req) && (Verdict(c, Parsed(g), req).Ok? <==> Canonical(g))
  {
    hide Made, Permitted, Canonical, Parsed, Accepts, Verdict, Crypto.Separates;
    VerifyIsExact(c, g, req);
    OneVerdict(c, g, req);
    VerdictsOnTheSameBytes(c, g, req);
  }

  function Key(b: Byte): (key: Blob)
    ensures |key| == KEY_LENGTH && key[0] == b
  {
    seq(KEY_LENGTH, _ => b)
  }

  const B_AND_A: Labels := [[0x62], [0x61]]

  lemma NotSorted()
    ensures SortLabels(B_AND_A) != B_AND_A
  {
    assert !StrictlySorted(B_AND_A) by {
      assert !Less(B_AND_A[0], B_AND_A[1]);
    }
    SortedIffFixed(B_AND_A);
  }

  /** A grant for the capabilities "b" and "a", in this order, is such a grant that is not canonical. */
  lemma SplitGrantExists() returns (c: Crypto, g: Grant, req: Request)
    ensures c.Separates(AllSigned(g) + AllSigned(Parsed(g))) && Made(c, g) && Permitted(c, g, req) && !Canonical(g)
    ensures Accepts(c, g, req) && Verdict(c, Parsed(g), req).Err?
  {
    hide LinkMessage, SigningBytes, EndorsementView, ParsedCaveats, Made, Permitted, Accepts, Verdict, Canonical;
    var root, issuer, audience := Key(1), Key(2), Key(3);
    var caveats := Caveats(B_AND_A, 10, []);
    c := SplitCrypto(root, LinkMessage([], issuer, audience, caveats, []));
    g := Issue(c, [], WorkingKey(issuer), audience, caveats);
    req := Request(root, [KeyEndorsement(issuer, 0, 10, [3])], audience, [0x61], 5, {});
    SplitGrantIsMade(c, g, req);
    UnsortedIsNotCanonical(g);
    SplitGrantIsApart(c, g);
    UnsortedGrantSplits(c, g, req);
  }

  /** The root signs with one signature; this message has another one than everything else. */
  function SplitCrypto(root: Blob, message: ByteString): Crypto {
    Crypto((p: Blob, m: ByteString) => if p == root then [3] else if m == message then [1] else [2], (b: Blob) => [])
  }

  lemma SplitGrantIsMade(c: Crypto, g: Grant, req: Request)
    requires
      var caveats := Caveats(B_AND_A, 10, []);
      && c == SplitCrypto(Key(1), LinkMessage([], Key(2), Key(3), caveats, []))
      && g == Issue(c, [], WorkingKey(Key(2)), Key(3), caveats)
      && req == Request(Key(1), [KeyEndorsement(Key(2), 0, 10, [3])], Key(3), [0x61], 5, {})
    ensures Made(c, g) && Permitted(c, g, req)
  {
    hide LinkMessage, SigningBytes, EndorsementView;
  }

  lemma UnsortedIsNotCanonical(g: Grant)
    requires |g.links| == 1 && g.links[0].caveats.capabilities == B_AND_A
    ensures !Canonical(g) && ParsedCaveats(g.links[0].caveats) != g.links[0].caveats
  {
    NotSorted();
  }

  /** The link as it came and as it was parsed are signed apart. */
  lemma SplitGrantIsApart(c: Crypto, g: Grant)
    requires |g.links| == 1 && ParsedCaveats(g.links[0].caveats) != g.links[0].caveats
    requires g.links[0].issuer != Key(1) && c == SplitCrypto(Key(1), LinkSigned(g, 0).message)
    ensures c.Separates(AllSigned(g) + AllSigned(Parsed(g)))
  {
    hide LinkMessage, ParsedCaveats, AllSigned;
    OneLinkSigns(g);
    OneLinkSigns(Parsed(g));
    var l, q := g.links[0], Parsed(g).links[0];
    assert q == ParsedLink(l);
    if LinkSigned(Parsed(g), 0) == LinkSigned(g, 0) {
      LinkMessageInjective(
        g.target, l.issuer, l.audience, l.caveats, [], g.target, q.issuer, q.audience, q.caveats, []);
    }
  }

  lemma OneLinkSigns(g: Grant)
    requires |g.links| == 1
    ensures AllSigned(g) == {LinkSigned(g, 0)}
  {
    hide LinkMessage;
  }

  // ----- Constraints -----

  const NONE_TEXT: Label := NoneText()

  function NoneText(): Label {
    AsciiIsUtf8(Ascii("None"));
    Ascii("None")
  }

  /** `str(attributes.get(k)) == v`: a missing attribute reads as the text of a missing value. */
  predicate PyMeets(constraints: seq<Pair>, attributes: map<Label, Label>) {
    forall e | e in constraints :: (if e.key in attributes then attributes[e.key] else NONE_TEXT) == e.value
  }

  /** Attributes that meet every constraint but the one on `skip`, which they leave out. */
  function AttributesBut(m: seq<Pair>, skip: Label): (r: map<Label, Label>)
    requires forall i, j | 0 <= i < j < |m| :: m[i].key != m[j].key
    ensures skip !in r
    ensures forall e | e in m && e.key != skip :: e.key in r && r[e.key] == e.value
  {
    if m == [] then map[] else
    var rest := AttributesBut(m[1..], skip);
    assert forall e | e in m[1..] :: e.key != m[0].key;
    if m[0].key == skip then rest else rest[m[0].key := m[0].value]
  }

  /** The two constraint checks agree for all attributes exactly when no constraint demands that text. */
  lemma ConstraintChecksAgreeIff(constraints: StringMap)
    ensures (forall attributes :: PyMeets(constraints, attributes) <==> Meets(constraints, attributes)) <==>
            (forall e | e in constraints :: e.value != NONE_TEXT)
  {
    hide NoneText;
    if e :| e in constraints && e.value == NONE_TEXT {
      var attributes := AttributesBut(constraints, e.key);
      assert forall f | f in constraints && f.key == e.key :: f == e;
      assert PyMeets(constraints, attributes) && !Meets(constraints, attributes);
    }
  }
}
