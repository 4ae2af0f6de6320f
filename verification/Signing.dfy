/** The bytes a signature covers, and structs as maps in declaration order. */
module Signing {
  import opened Bytes
  import opened Cbor
  import opened CborTheory

  /** `domain`, a NUL byte, then the encoded payload. */
  function SigningInput(domain: Utf8Text, payload: Value): ByteString
    requires Encodable(payload)
  {
    domain + [0] + Enc(payload)
  }

  /** Domains without NUL separate: equal signing inputs have equal domains and payloads. */
  lemma {:induction false} SigningInputInjective(d: Utf8Text, p: Value, e: Utf8Text, q: Value)
    requires 0 !in d && 0 !in e
    requires Wire(p) && Wire(q)
    requires SigningInput(d, p) == SigningInput(e, q)
    ensures d == e && p == q
  {
    hide Enc, Encodable, WellFormed;
    var s := SigningInput(d, p);
    assert s[|d|] == 0 && s[|e|] == 0;
    assert forall i | 0 <= i < |d| :: s[i] == d[i];
    assert forall i | 0 <= i < |e| :: s[i] == e[i];
    assert |d| == |e|;
    assert d == s[..|d|] == e;
    assert Enc(p) == s[|d| + 1..] == Enc(q);
    assert Enc(p) + [] == Enc(p) && Enc(q) + [] == Enc(q);
    EncPrefixFree(p, [], q, []);
  }

  /** A NUL in the domain breaks the separation. */
  lemma NulInDomainCollides()
    ensures
      var d, p := [0x61], Bytes([0, 0xF6]);
      var e, q := [0x61, 0, 0x42], Null;
      Wire(p) && Wire(q) && d != e && SigningInput(d, p) == SigningInput(e, q)
  {
    assert Enc(Bytes([0, 0xF6])) == [0x42, 0, 0xF6];
  }

  // ----- Structs -----

  predicate IsAscii(s: string) {
    forall i | 0 <= i < |s| :: s[i] as int < 0x80
  }

  function Ascii(s: string): (r: Utf8Text)
    requires IsAscii(s)
    ensures |r| == |s| && forall i | 0 <= i < |s| :: r[i] == s[i] as int
  {
    seq(|s|, i requires 0 <= i < |s| => s[i] as int)
  }

  lemma {:induction false} AsciiIsUtf8(b: ByteString)
    requires forall i | 0 <= i < |b| :: b[i] < 0x80
    ensures Utf8(b)
  {
    if b != [] {
      AsciiIsUtf8(b[1..]);
    }
  }

  /** The field names of a struct. */
  ghost predicate FieldNames(names: seq<string>) {
    && |names| < LIMIT
    && (forall i | 0 <= i < |names| :: IsAscii(names[i]) && |names[i]| < LIMIT)
    && (forall i, j | 0 <= i < j < |names| :: names[i] != names[j])
  }

  /** A struct is a map from its field names, in declaration order. */
  function Struct(names: seq<string>, fields: seq<Value>): (v: Value)
    requires |names| == |fields| && FieldNames(names)
    ensures v.Map? && |v.entries| == |names|
  {
    Map(seq(|names|, i requires 0 <= i < |names| => Entry(Text(Ascii(names[i])), fields[i])))
  }

  lemma StructIsWire(names: seq<string>, fields: seq<Value>)
    requires |names| == |fields| && FieldNames(names)
    ensures Wire(Struct(names, fields)) <==> forall i | 0 <= i < |fields| :: Wire(fields[i])
  {
    hide Encodable, WellFormed;
    var v := Struct(names, fields);
    var entries := v.entries;
    forall i | 0 <= i < |names| ensures WireEntry(entries[i]) <==> Wire(fields[i]) {
      FieldNameIsWire(names[i]);
    }
    forall i, j | 0 <= i < j < |entries| ensures !SameKey(entries[i].key, entries[j].key) {
      AsciiInjective(names[i], names[j]);
    }
    assert DistinctKeys(entries);
    MapIsWire(entries);
    if WireEntries(entries) {
      forall i | 0 <= i < |fields| ensures Wire(fields[i]) {
        assert EncodableEntry(entries[i]) && WellFormedEntry(entries[i]);
        assert WireEntry(entries[i]);
      }
    }
    if forall i | 0 <= i < |fields| :: Wire(fields[i]) {
      forall i | 0 <= i < |entries| ensures EncodableEntry(entries[i]) && WellFormedEntry(entries[i]) {
        assert Wire(fields[i]);
        assert WireEntry(entries[i]);
      }
    }
  }

  lemma MapIsWire(entries: seq<Entry>)
    ensures Wire(Map(entries)) <==> |entries| < LIMIT && DistinctKeys(entries) && WireEntries(entries)
  {
  }

  lemma FieldNameIsWire(name: string)
    requires IsAscii(name) && |name| < LIMIT
    ensures Wire(Text(Ascii(name)))
  {
    AsciiIsUtf8(Ascii(name));
  }

  lemma AsciiInjective(a: string, b: string)
    requires IsAscii(a) && IsAscii(b)
    ensures Ascii(a) == Ascii(b) ==> a == b
  {
    if Ascii(a) == Ascii(b) {
      forall i | 0 <= i < |a| ensures a[i] == b[i] {
        assert Ascii(a)[i] == a[i] as int && Ascii(b)[i] == b[i] as int;
      }
    }
  }

  lemma StructInjective(names: seq<string>, fields: seq<Value>, others: seq<Value>)
    requires |names| == |fields| == |others| && FieldNames(names)
    requires Struct(names, fields) == Struct(names, others)
    ensures fields == others
  {
    var entries := Struct(names, fields).entries;
    forall i | 0 <= i < |fields| ensures fields[i] == others[i] {
      assert entries[i].value == fields[i];
      assert Struct(names, others).entries[i].value == others[i];
    }
  }

  /** A field of a struct as an entry of its map. */
  function Named(name: string, value: Value): Entry
    requires IsAscii(name)
  {
    Entry(Text(Ascii(name)), value)
  }

  lemma StructEntries(names: seq<string>, fields: seq<Value>, entries: seq<Entry>)
    requires |names| == |fields| == |entries| && FieldNames(names)
    requires forall i | 0 <= i < |names| :: entries[i] == Named(names[i], fields[i])
    ensures Struct(names, fields) == Map(entries)
  {
    hide Ascii;
    var v := Struct(names, fields);
    assert forall i | 0 <= i < |names| :: v.entries[i] == entries[i];
    assert v.entries == entries;
  }
}
