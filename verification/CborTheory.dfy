/** What the codec is for: decoding undoes encoding at any offset, and encoding is injective and prefix-free. */
module CborTheory {
  import opened Wrappers
  import opened Bytes
  import opened Cbor
  import opened CborReference

  // ----- Parsing undoes encoding -----

  lemma ParseHead(major: nat, n: nat, rest: ByteString)
    requires major < 7 && n < LIMIT
    ensures
      var b := Head(major, n) + rest;
      && b[0] / 32 == major
      && ParseArgument(b[1..], b[0] % 32) == Some((n, rest))
  {
    Pow256Values();
    var h := Head(major, n);
    var b := h + rest;
    assert b[0] == h[0];
    var k := |h| - 1;
    assert b[1..] == h[1..] + rest;
    assert b[1..][k..] == rest && b[1..][..k] == h[1..];
    if k == 1 {
      assert h[1..] == [n] && [n][..0] == [];
      assert FromBigEndian(h[1..]) == n;
    } else if k > 1 {
      assert h[1..] == BigEndian(n, k);
    }
  }

  lemma {:induction false} ParseEnc(v: Value, rest: ByteString)
    requires Wire(v)
    ensures Parse(Enc(v) + rest) == Some((v, rest))
    decreases v, 0
  {
    hide Parse, EncItems, EncEntries, Head;
    match v
    case Null => ParseSimple(v, rest);
    case Bool(_) => ParseSimple(v, rest);
    case Int(_) => ParseSimple(v, rest);
    case Bytes(b) =>
      ParseString(2, b, rest);
    case Text(b) =>
      ParseString(3, b, rest);
    case Array(items) =>
      ParseEncArray(v, rest);
    case Map(entries) =>
      ParseEncMap(v, rest);
  }

  lemma {:induction false} ParseEncArray(v: Value, rest: ByteString)
    requires v.Array? && Wire(v)
    ensures Parse(Enc(v) + rest) == Some((v, rest))
    decreases v.items, 2
  {
    hide EncItems, ParseItems, Head;
    var body := EncItems(v.items) + rest;
    ParseHead(4, |v.items|, body);
    assert Enc(v) + rest == Head(4, |v.items|) + body;
    ParseEncItems(v.items, rest);
  }

  lemma {:induction false} ParseEncMap(v: Value, rest: ByteString)
    requires v.Map? && Wire(v)
    ensures Parse(Enc(v) + rest) == Some((v, rest))
    decreases v.entries, 2
  {
    hide EncEntries, ParseEntries, Head, DistinctKeys;
    var body := EncEntries(v.entries) + rest;
    ParseHead(5, |v.entries|, body);
    assert Enc(v) + rest == Head(5, |v.entries|) + body;
    assert [] + v.entries == v.entries;
    ParseEncEntries(v.entries, [], rest);
  }

  lemma ParseSimple(v: Value, rest: ByteString)
    requires v.Null? || v.Bool? || (v.Int? && 0 <= v.n < LIMIT)
    ensures Parse(Enc(v) + rest) == Some((v, rest))
  {
    if v.Int? {
      ParseHead(0, v.n, rest);
    } else {
      assert (Enc(v) + rest)[1..] == rest;
    }
  }

  lemma ParseString(major: nat, s: ByteString, rest: ByteString)
    requires major == 2 || (major == 3 && Utf8(s))
    requires |s| < LIMIT
    ensures Parse(Head(major, |s|) + s + rest) == Some((if major == 2 then Bytes(s) else Text(s), rest))
  {
    ParseHead(major, |s|, s + rest);
    assert Head(major, |s|) + s + rest == Head(major, |s|) + (s + rest);
    assert (s + rest)[..|s|] == s && (s + rest)[|s|..] == rest;
  }

  lemma {:induction false} ParseEncItems(items: seq<Value>, rest: ByteString)
    requires WireItems(items)
    ensures ParseItems(EncItems(items) + rest, |items|) == Some((items, rest))
    decreases items, 1
  {
    hide Enc, Parse;
    if items == [] {
      assert EncItems(items) + rest == rest;
    } else {
      var tail := EncItems(items[1..]) + rest;
      assert EncItems(items) + rest == Enc(items[0]) + tail;
      ParseEnc(items[0], tail);
      ParseEncItems(items[1..], rest);
      assert [items[0]] + items[1..] == items;
    }
  }

  lemma {:induction false} ParseEncEntry(e: Entry, rest: ByteString)
    requires WireEntry(e)
    ensures Parse(EncEntry(e) + rest) == Some((e.key, Enc(e.value) + rest))
    ensures Parse(Enc(e.value) + rest) == Some((e.value, rest))
    decreases e, 1
  {
    hide Enc, Parse;
    assert EncEntry(e) + rest == Enc(e.key) + (Enc(e.value) + rest);
    ParseEnc(e.key, Enc(e.value) + rest);
    ParseEnc(e.value, rest);
  }

  lemma {:induction false} ParseEncEntries(entries: seq<Entry>, d: seq<Entry>, rest: ByteString)
    requires WireEntries(entries) && DistinctKeys(d + entries)
    ensures ParseEntries(EncEntries(entries) + rest, |entries|, d) == Some((d + entries, rest))
    decreases entries, 1
  {
    hide Enc, EncEntry, Parse, Encodable, WellFormed;
    if entries == [] {
      assert EncEntries(entries) + rest == rest && d + entries == d;
    } else {
      var e := entries[0];
      var tail := EncEntries(entries[1..]) + rest;
      assert EncEntries(entries) + rest == EncEntry(e) + tail;
      assert EncodableEntry(e) && WellFormedEntry(e);
      ParseEncEntry(e, tail);
      var all := d + entries;
      assert all[|d|] == e;
      assert forall i | 0 <= i < |d| :: all[i] == d[i];
      AssignFresh(d, e.key, e.value);
      assert d + [e] + entries[1..] == all;
      ParseEncEntries(entries[1..], d + [e], rest);
    }
  }

  lemma {:induction false} AssignFresh(d: seq<Entry>, k: Value, v: Value)
    requires forall i | 0 <= i < |d| :: !SameKey(d[i].key, k)
    ensures Assign(d, k, v) == d + [Entry(k, v)]
  {
    if d != [] {
      AssignFresh(d[1..], k, v);
    }
  }

  // ----- The promises of the codec -----

  /** Decoding undoes encoding wherever the encoding stands in the input. */
  lemma DecodesAtAnyOffset(pre: ByteString, v: Value, post: ByteString)
    requires Wire(v)
    ensures Dec(pre + Enc(v) + post, |pre|) == Read(v, |pre| + |Enc(v)|)
  {
    var data := pre + Enc(v) + post;
    assert data[|pre|..] == Enc(v) + post;
    ParseEnc(v, post);
    DecIsParse(data, |pre|);
    assert |data| - |post| == |pre| + |Enc(v)|;
  }

  lemma DecodeUndoesEncode(v: Value)
    requires Wire(v)
    ensures Decode(Enc(v)) == Ok(v)
  {
    assert [] + Enc(v) + [] == Enc(v);
    DecodesAtAnyOffset([], v, []);
  }

  /** Injective and prefix-free: no encoding is another one followed by something. */
  lemma EncPrefixFree(u: Value, x: ByteString, v: Value, y: ByteString)
    requires Wire(u) && Wire(v)
    requires Enc(u) + x == Enc(v) + y
    ensures u == v && x == y
  {
    ParseEnc(u, x);
    ParseEnc(v, y);
  }
}
