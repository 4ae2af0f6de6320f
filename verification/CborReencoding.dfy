/** What is accepted re-encodes to something no longer, which decodes to the same value. */
module CborReencoding {
  import opened Wrappers
  import opened Bytes
  import opened Cbor
  import opened CborReference
  import opened CborTheory

  // ----- Re-encoding what was parsed -----

  /** `enc` followed by `rest` is no longer than `b`, and equal to it when as long. */
  ghost predicate Shrinks(b: ByteString, enc: ByteString, rest: ByteString) {
    && |enc| + |rest| <= |b|
    && (|enc| + |rest| == |b| ==> b == enc + rest)
  }

  lemma ShrinksTwice(b: ByteString, enc0: ByteString, mid: ByteString, enc1: ByteString, rest: ByteString)
    requires Shrinks(b, enc0, mid) && Shrinks(mid, enc1, rest)
    ensures Shrinks(b, enc0 + enc1, rest)
  {
    assert enc0 + (enc1 + rest) == enc0 + enc1 + rest;
  }

  lemma ShrinksChain(b: ByteString, mid: ByteString, enc: ByteString, rest: ByteString)
    requires Shrinks(b, mid, []) && Shrinks(mid, enc, rest)
    ensures Shrinks(b, enc, rest)
    ensures |enc| + |rest| == |b| ==> |mid| == |b|
  {
    assert mid + [] == mid;
  }

  lemma ExactShrinks(enc: ByteString, rest: ByteString)
    ensures Shrinks(enc + rest, enc, rest)
  {
  }

  /** `enc` is read from `b` and added to `pre`, which gives `post`, or less than that. */
  lemma ShrinksBehind(pre: ByteString, post: ByteString, b: ByteString, enc: ByteString, rest: ByteString)
    requires Shrinks(b, enc, rest)
    requires |post| <= |pre| + |enc| && (|post| == |pre| + |enc| ==> post == pre + enc)
    ensures Shrinks(pre + b, post + rest, [])
    ensures |post| + |rest| == |pre| + |b| ==> |post| == |pre| + |enc|
  {
    assert pre + (enc + rest) == pre + enc + rest;
    assert post + rest + [] == post + rest;
  }

  lemma HeadMonotone(major: nat, m: nat, n: nat)
    requires major < 8 && m <= n < LIMIT
    ensures |Head(major, m)| <= |Head(major, n)|
  {
  }

  /** The head that was read is at least as long as the shortest one, and equal to it when as long. */
  lemma ParsedHead(b: ByteString)
    requires b != [] && b[0] / 32 < 7
    requires ParseArgument(b[1..], b[0] % 32).Some?
    ensures
      var (n, rest) := ParseArgument(b[1..], b[0] % 32).value;
      Shrinks(b, Head(b[0] / 32, n), rest)
  {
    Pow256Values();
    var info := b[0] % 32;
    var (n, rest) := ParseArgument(b[1..], info).value;
    var h := Head(b[0] / 32, n);
    if info >= 24 {
      var k := [1, 2, 4, 8][info - 24];
      var digits := b[1..][..k];
      assert b == [b[0]] + digits + rest;
      BigEndianOfFrom(digits);
      if k == 1 {
        assert digits == [b[1]] && [b[1]][..0] == [];
        assert n == b[1];
      }
      assert |h| == k + 1 ==> h == [b[0]] + digits;
    } else {
      assert b == [b[0]] + rest;
    }
  }

  lemma {:induction false} ParsedReencodes(b: ByteString)
    requires Parse(b).Some?
    ensures var (v, rest) := Parse(b).value; Wire(v) && Shrinks(b, Enc(v), rest)
    decreases |b|, 0, 0
  {
    hide ParseBody, ParseArgument, Head;
    var major := b[0] / 32;
    if major == 7 {
      assert b == [b[0]] + b[1..];
    } else {
      ParsedHead(b);
      var (n, body) := ParseArgument(b[1..], b[0] % 32).value;
      ParsedBody(b, major, n, body);
    }
  }

  /** `b` starts with a head for `major` and `n`, and `body` is what follows it. */
  lemma {:induction false} ParsedBody(b: ByteString, major: nat, n: nat, body: ByteString)
    requires major < 7 && n < LIMIT && Shrinks(b, Head(major, n), body) && |body| < |b|
    requires ParseBody(major, n, body).Some?
    ensures var (v, rest) := ParseBody(major, n, body).value; Wire(v) && Shrinks(b, Enc(v), rest)
    decreases |body|, 5, 0
  {
    hide ParseItems, ParseEntries, Parse, EncItems, EncEntries, Head, Shrinks;
    var (v, rest) := ParseBody(major, n, body).value;
    match major
    case 0 =>
    case 2 =>
      SplitShrinks(body, n);
      ShrinksTwice(b, Head(2, n), body, body[..n], rest);
    case 3 =>
      SplitShrinks(body, n);
      ShrinksTwice(b, Head(3, n), body, body[..n], rest);
    case 4 =>
      ParsedItems(body, n);
      ShrinksTwice(b, Head(4, n), body, EncItems(v.items), rest);
    case 5 =>
      ParsedMap(b, n, body);
  }

  lemma SplitShrinks(b: ByteString, n: nat)
    requires n <= |b|
    ensures Shrinks(b, b[..n], b[n..])
  {
    assert b == b[..n] + b[n..];
  }

  lemma NoEntries()
    ensures DistinctKeys([]) && WireEntries([]) && EncEntries([]) == []
  {
  }

  lemma {:induction false} ParsedMap(b: ByteString, n: nat, body: ByteString)
    requires n < LIMIT && Shrinks(b, Head(5, n), body) && |body| < |b|
    requires ParseEntries(body, n, []).Some?
    ensures
      var (entries, rest) := ParseEntries(body, n, []).value;
      Wire(Map(entries)) && Shrinks(b, Enc(Map(entries)), rest)
    decreases |body|, 4, 0
  {
    hide ParseEntries, Parse, EncEntries, Head, DistinctKeys;
    NoEntries();
    assert EncEntries([]) + body == body;
    ParsedEntries(body, n, []);
    var (entries, rest) := ParseEntries(body, n, []).value;
    HeadMonotone(5, |entries|, n);
    var h := Head(5, n);
    ShrinksTwice(b, h, body, EncEntries(entries), rest);
  }

  lemma {:induction false} ParsedItems(b: ByteString, n: nat)
    requires ParseItems(b, n).Some?
    ensures
      var (items, rest) := ParseItems(b, n).value;
      |items| == n && WireItems(items) && Shrinks(b, EncItems(items), rest)
    decreases |b|, 2, n
  {
    hide Parse, Enc, Encodable, WellFormed;
    if n == 0 {
      assert b == [] + b;
    } else {
      ParsedReencodes(b);
      var (v, mid) := Parse(b).value;
      ParsedItems(mid, n - 1);
      var (tail, rest) := ParseItems(mid, n - 1).value;
      assert ([v] + tail)[1..] == tail;
      ShrinksTwice(b, Enc(v), mid, EncItems(tail), rest);
    }
  }

  lemma {:induction false} ParsedEntries(b: ByteString, n: nat, d: seq<Entry>)
    requires ParseEntries(b, n, d).Some?
    requires DistinctKeys(d) && WireEntries(d)
    ensures
      var (entries, rest) := ParseEntries(b, n, d).value;
      && DistinctKeys(entries) && WireEntries(entries)
      && |entries| <= |d| + n
      && Shrinks(EncEntries(d) + b, EncEntries(entries), rest)
      && (|EncEntries(entries)| + |rest| == |EncEntries(d)| + |b| ==> |entries| == |d| + n)
    decreases |b|, 2, n
  {
    hide Parse, Enc, EncEntries, EncodableEntries, WellFormedEntries, DistinctKeys, Assign, Shrinks;
    if n == 0 {
      ExactShrinks(EncEntries(d), b);
    } else {
      ParsedReencodes(b);
      var (k, b1) := Parse(b).value;
      ParsedReencodes(b1);
      var (v, b2) := Parse(b1).value;
      var d' := Assign(d, k, v);
      AssignDistinct(d, k, v);
      AssignShrinks(d, k, v);
      ShrinksTwice(b, Enc(k), b1, Enc(v), b2);
      ShrinksBehind(EncEntries(d), EncEntries(d'), b, Enc(k) + Enc(v), b2);
      ParsedEntries(b2, n - 1, d');
      var (entries, rest) := ParseEntries(b, n, d).value;
      ShrinksChain(EncEntries(d) + b, EncEntries(d') + b2, EncEntries(entries), rest);
    }
  }

  lemma {:induction false} AssignDistinct(d: seq<Entry>, k: Value, v: Value)
    requires DistinctKeys(d) && Hashable(k)
    ensures DistinctKeys(Assign(d, k, v))
    ensures forall e | e in Assign(d, k, v) :: SameKey(e.key, k) || exists f | f in d :: f.key == e.key
  {
    hide DistinctKeys;
    NoEntries();
    if d == [] {
      DistinctCons(Entry(k, v), []);
      assert [Entry(k, v)] + [] == [Entry(k, v)];
    } else {
      assert d == [d[0]] + d[1..];
      DistinctCons(d[0], d[1..]);
      if SameKey(d[0].key, k) {
        DistinctCons(Entry(d[0].key, v), d[1..]);
      } else {
        AssignDistinct(d[1..], k, v);
        DistinctCons(d[0], Assign(d[1..], k, v));
      }
    }
  }

  lemma DistinctCons(e: Entry, tail: seq<Entry>)
    ensures DistinctKeys([e] + tail) <==>
      Hashable(e.key) && DistinctKeys(tail) && forall f | f in tail :: !SameKey(e.key, f.key)
  {
    hide Hashable, SameKey;
    var all := [e] + tail;
    assert all[0] == e && forall i | 0 <= i < |tail| :: all[i + 1] == tail[i];
    if DistinctKeys(all) {
      forall i | 0 <= i < |tail| ensures Hashable(tail[i].key) && !SameKey(e.key, tail[i].key) {
        assert Hashable(all[i + 1].key) && !SameKey(all[0].key, all[i + 1].key);
      }
      forall i, j | 0 <= i < j < |tail| ensures !SameKey(tail[i].key, tail[j].key) {
        assert !SameKey(all[i + 1].key, all[j + 1].key);
      }
    }
  }

  lemma WireCons(e: Entry, tail: seq<Entry>)
    ensures WireEntries([e] + tail) <==> WireEntry(e) && WireEntries(tail)
  {
    hide Encodable, WellFormed;
    var all := [e] + tail;
    assert all[0] == e && all[1..] == tail;
    if WireEntries(all) {
      assert EncodableEntry(all[0]) && WellFormedEntry(all[0]);
      forall i | 0 <= i < |tail| ensures EncodableEntry(tail[i]) && WellFormedEntry(tail[i]) {
        assert EncodableEntry(all[i + 1]) && WellFormedEntry(all[i + 1]);
      }
    }
    if WireEntry(e) && WireEntries(tail) {
      forall i | 0 <= i < |all| ensures EncodableEntry(all[i]) && WellFormedEntry(all[i]) {
        if i > 0 {
          assert EncodableEntry(tail[i - 1]) && WellFormedEntry(tail[i - 1]);
        }
      }
    }
  }

  lemma {:induction false} AssignWire(d: seq<Entry>, k: Value, v: Value)
    requires WireEntries(d) && Wire(k) && Wire(v)
    ensures WireEntries(Assign(d, k, v))
  {
    hide Wire, WireEntries;
    NoEntries();
    if d == [] {
      WireCons(Entry(k, v), []);
      assert [Entry(k, v)] + [] == [Entry(k, v)];
    } else {
      assert d == [d[0]] + d[1..];
      WireCons(d[0], d[1..]);
      if SameKey(d[0].key, k) {
        WireCons(Entry(d[0].key, v), d[1..]);
      } else {
        AssignWire(d[1..], k, v);
        WireCons(d[0], Assign(d[1..], k, v));
      }
    }
  }

  lemma {:induction false} AssignShrinks(d: seq<Entry>, k: Value, v: Value)
    requires WireEntries(d) && Wire(k) && Wire(v)
    ensures
      var d' := Assign(d, k, v);
      && WireEntries(d')
      && |EncEntries(d')| <= |EncEntries(d)| + |Enc(k) + Enc(v)|
      && (|EncEntries(d')| == |EncEntries(d)| + |Enc(k) + Enc(v)| ==>
            |d'| == |d| + 1 && EncEntries(d') == EncEntries(d) + (Enc(k) + Enc(v)))
  {
    hide Encodable, WellFormed, Enc;
    AssignWire(d, k, v);
    var d' := Assign(d, k, v);
    if d == [] {
      assert EncEntries(d') == EncEntry(Entry(k, v)) + EncEntries(d'[1..]);
    } else if SameKey(d[0].key, k) {
      assert d'[1..] == d[1..];
    } else {
      AssignShrinks(d[1..], k, v);
      assert d'[1..] == Assign(d[1..], k, v);
    }
  }

  /** An accepted input is never shorter than the encoding of its value, which decodes to the same value;
      the input is that encoding exactly when the two are equally long. */
  lemma AcceptedReencodes(data: ByteString)
    requires Decode(data).Ok?
    ensures
      var v := Decode(data).value;
      && Wire(v)
      && |Enc(v)| <= |data|
      && Decode(Enc(v)) == Ok(v)
      && (Enc(v) == data <==> |Enc(v)| == |data|)
  {
    var v := Decode(data).value;
    AcceptedIsReadInBounds(data, v);
    ParsedReencodes(data);
    DecodeUndoesEncode(v);
    assert Enc(v) + [] == Enc(v);
  }
}
