/** The encoding byte by byte: heads by division (section 3 of RFC 8949, the shortest form of section 4.1), and the
    parts of arrays and maps one after the other; and what each head and its contents are read as. */
module CborBytes {
  import opened Wrappers
  import opened Bytes
  import opened Cbor
  import opened CborReference

  /** A major type and its argument in the fewest bytes, most significant byte first. */
  function Shortest(major: nat, n: nat): ByteString
    requires major < 8 && n < 0x1_0000_0000_0000_0000
  {
    var m := 32 * major;
    if n < 24 then [m + n]
    else if n <= 0xFF then [m + 24, n]
    else if n <= 0xFFFF then [m + 25, n / 0x100, n % 0x100]
    else if n <= 0xFFFF_FFFF then
      [m + 26, n / 0x100_0000, n / 0x1_0000 % 0x100, n / 0x100 % 0x100, n % 0x100]
    else
      [m + 27, n / 0x100_0000_0000_0000, n / 0x1_0000_0000_0000 % 0x100, n / 0x100_0000_0000 % 0x100,
       n / 0x1_0000_0000 % 0x100, n / 0x100_0000 % 0x100, n / 0x1_0000 % 0x100, n / 0x100 % 0x100, n % 0x100]
  }

  lemma HeadIsShortest(major: nat, n: nat)
    requires major < 8 && n < LIMIT
    ensures Head(major, n) == Shortest(major, n)
  {
    BigEndianDigits(n);
    hide BigEndian, Pow256;
  }

  /** The values that are a head and no more. */
  lemma SimpleBytes(n: nat)
    requires n < LIMIT
    ensures Enc(Bool(false)) == [0xF4] && Enc(Bool(true)) == [0xF5] && Enc(Null) == [0xF6]
    ensures n < 24 ==> Enc(Int(n)) == [n]
    ensures 24 <= n < 0x100 ==> Enc(Int(n)) == [0x18, n]
    ensures 0x100 <= n < 0x1_0000 ==> Enc(Int(n)) == [0x19, n / 0x100, n % 0x100]
    ensures 0x1_0000 <= n < 0x1_0000_0000 ==>
      Enc(Int(n)) == [0x1A, n / 0x100_0000, n / 0x1_0000 % 0x100, n / 0x100 % 0x100, n % 0x100]
    ensures 0x1_0000_0000 <= n ==>
      Enc(Int(n)) ==
        [0x1B, n / 0x100_0000_0000_0000, n / 0x1_0000_0000_0000 % 0x100, n / 0x100_0000_0000 % 0x100,
         n / 0x1_0000_0000 % 0x100, n / 0x100_0000 % 0x100, n / 0x1_0000 % 0x100, n / 0x100 % 0x100, n % 0x100]
  {
    hide Head;
    HeadIsShortest(0, n);
  }

  /** The encodings of the items, and of the entries' keys and values. */
  function ItemBytes(items: seq<Value>): (r: seq<ByteString>)
    requires EncodableItems(items)
    ensures |r| == |items| && forall i | 0 <= i < |r| :: r[i] == Enc(items[i])
  {
    seq(|items|, i requires 0 <= i < |items| => Enc(items[i]))
  }

  function EntryBytes(entries: seq<Entry>): (r: seq<ByteString>)
    requires EncodableEntries(entries)
    ensures |r| == |entries| && forall i | 0 <= i < |r| ::
      EncodableEntry(entries[i]) && r[i] == Enc(entries[i].key) + Enc(entries[i].value)
  {
    seq(|entries|, i requires 0 <= i < |entries| =>
      assert EncodableEntry(entries[i]); Enc(entries[i].key) + Enc(entries[i].value))
  }

  lemma {:induction false} ItemsInOrder(items: seq<Value>)
    requires EncodableItems(items)
    ensures EncItems(items) == Flatten(ItemBytes(items))
  {
    hide Enc, Encodable;
    if items != [] {
      ItemsInOrder(items[1..]);
      assert ItemBytes(items)[1..] == ItemBytes(items[1..]);
    }
  }

  lemma {:induction false} EntriesInOrder(entries: seq<Entry>)
    requires EncodableEntries(entries)
    ensures EncEntries(entries) == Flatten(EntryBytes(entries))
  {
    hide Enc, Encodable;
    if entries != [] {
      EntriesInOrder(entries[1..]);
      assert EntryBytes(entries)[1..] == EntryBytes(entries[1..]);
    }
  }

  /** Strings behind a head with their length; arrays and maps behind a head with their count, part by part. */
  lemma CompoundBytes(v: Value)
    requires Encodable(v)
    ensures v.Bytes? ==> Enc(v) == Shortest(2, |v.bytes|) + v.bytes
    ensures v.Text? ==> Enc(v) == Shortest(3, |v.utf8|) + v.utf8
    ensures v.Array? ==> Enc(v) == Shortest(4, |v.items|) + Flatten(ItemBytes(v.items))
    ensures v.Map? ==> Enc(v) == Shortest(5, |v.entries|) + Flatten(EntryBytes(v.entries))
  {
    hide Head, Shortest, EncItems, EncEntries;
    match v
    case Bytes(b) => HeadIsShortest(2, |b|);
    case Text(b) => HeadIsShortest(3, |b|);
    case Array(items) =>
      HeadIsShortest(4, |items|);
      ItemsInOrder(items);
    case Map(entries) =>
      HeadIsShortest(5, |entries|);
      EntriesInOrder(entries);
    case _ =>
  }

  // ----- What the decoder reads -----

  /** A head whose argument takes `width` bytes, whether or not it would fit in fewer. */
  function WideHead(major: nat, n: nat, width: nat): ByteString
    requires major < 8 && width in {1, 2, 4, 8}
    requires n < 0x1_0000_0000_0000_0000
    requires (width == 1 ==> n <= 0xFF) && (width == 2 ==> n <= 0xFFFF) && (width == 4 ==> n <= 0xFFFF_FFFF)
  {
    var m := 32 * major;
    match width
    case 1 => [m + 24, n]
    case 2 => [m + 25, n / 0x100, n % 0x100]
    case 4 => [m + 26, n / 0x100_0000, n / 0x1_0000 % 0x100, n / 0x100 % 0x100, n % 0x100]
    case _ =>
      [m + 27, n / 0x100_0000_0000_0000, n / 0x1_0000_0000_0000 % 0x100, n / 0x100_0000_0000 % 0x100,
       n / 0x1_0000_0000 % 0x100, n / 0x100_0000 % 0x100, n / 0x1_0000 % 0x100, n / 0x100 % 0x100, n % 0x100]
  }

  lemma WideDigits(n: nat, width: nat)
    requires width in {1, 2, 4, 8} && n < 0x1_0000_0000_0000_0000
    requires (width == 1 ==> n <= 0xFF) && (width == 2 ==> n <= 0xFFFF) && (width == 4 ==> n <= 0xFFFF_FFFF)
    ensures n < Pow256(width) && FromBigEndian(BigEndian(n, width)) == n
    ensures WideHead(0, n, width)[1..] == BigEndian(n, width)
  {
    Pow256Values();
    BigEndianDigits(n);
    hide FromBigEndian;
  }

  lemma ReadsArgument(argument: ByteString, rest: ByteString)
    requires |argument| in {1, 2, 4, 8}
    ensures
      var info := match |argument| case 1 => 24 case 2 => 25 case 4 => 26 case _ => 27;
      ParseArgument(argument + rest, info) == Some((FromBigEndian(argument), rest))
  {
    hide FromBigEndian;
    assert (argument + rest)[..|argument|] == argument && (argument + rest)[|argument|..] == rest;
  }

  /** Every head is read, also one longer than need be. */
  lemma ReadsEveryHead(major: nat, n: nat, width: nat, rest: ByteString)
    requires major < 7 && width in {1, 2, 4, 8} && n < 0x1_0000_0000_0000_0000
    requires (width == 1 ==> n <= 0xFF) && (width == 2 ==> n <= 0xFFFF) && (width == 4 ==> n <= 0xFFFF_FFFF)
    ensures Parse(WideHead(major, n, width) + rest) == ParseBody(major, n, rest)
  {
    hide FromBigEndian;
    WideDigits(n, width);
    ReadsArgument(BigEndian(n, width), rest);
    var head := WideHead(major, n, width);
    assert head[1..] == WideHead(0, n, width)[1..];
    assert (head + rest)[1..] == head[1..] + rest;
    hide BigEndian, WideHead, Pow256, ParseBody;
  }

  lemma ReadsShortHead(major: nat, n: nat, rest: ByteString)
    requires major < 7 && n < 24
    ensures Parse([32 * major + n] + rest) == ParseBody(major, n, rest)
  {
    hide ParseBody;
    assert ([32 * major + n] + rest)[1..] == rest;
  }

  /** Behind its head an integer has nothing, and a string as many bytes as the head says; a text must be UTF-8. */
  lemma ReadsContents(n: nat, s: ByteString, rest: ByteString)
    ensures ParseBody(0, n, rest) == Some((Int(n), rest))
    ensures ParseBody(2, |s|, s + rest) == Some((Bytes(s), rest))
    ensures ParseBody(3, |s|, s + rest) == if Utf8(s) then Some((Text(s), rest)) else None
    ensures |rest| < n ==> ParseBody(2, n, rest) == None && ParseBody(3, n, rest) == None
  {
    assert (s + rest)[..|s|] == s && (s + rest)[|s|..] == rest;
  }

  /** Nothing at all, negative integers, tags, open lengths, and simple values but false, true and null are refused. */
  lemma RefusedHeads(b: ByteString)
    requires
      || b == []
      || 0x20 <= b[0] < 0x40
      || 0xC0 <= b[0] < 0xE0
      || b[0] % 0x20 >= 28
      || (0xE0 <= b[0] && b[0] !in {0xF4, 0xF5, 0xF6})
    ensures Parse(b) == None
  {
  }

  /** A map's key is read before its value, and a key that is an array or a map is refused. */
  lemma ReadsEntry(b: ByteString, n: nat, d: seq<Entry>)
    requires Parse(b).Some? && Parse(Parse(b).value.1).Some?
    ensures
      var (key, behindKey) := Parse(b).value;
      var (value, behindValue) := Parse(behindKey).value;
      ParseEntries(b, n + 1, d) ==
        if key.Array? || key.Map? then None else ParseEntries(behindValue, n, Assign(d, key, value))
  {
    hide Parse, Assign;
  }

  /** No negative integer and nothing beyond 64 bits is encoded, wherever it stands. */
  lemma {:induction false} WhatIsEncoded(v: Value, w: Value)
    requires Within(v, w) && Encodable(w)
    ensures v.Int? ==> 0 <= v.n < 0x1_0000_0000_0000_0000
    ensures v.Bytes? ==> |v.bytes| < 0x1_0000_0000_0000_0000
    ensures v.Text? ==> |v.utf8| < 0x1_0000_0000_0000_0000
    decreases w
  {
    if v != w {
      match w
      case Array(items) =>
        var i :| 0 <= i < |items| && Within(v, items[i]);
        WhatIsEncoded(v, items[i]);
      case Map(entries) =>
        var i :| 0 <= i < |entries| && (Within(v, entries[i].key) || Within(v, entries[i].value));
        assert EncodableEntry(entries[i]);
        WhatIsEncoded(v, if Within(v, entries[i].key) then entries[i].key else entries[i].value);
    }
  }

  /** `v` stands somewhere in `w`. */
  predicate Within(v: Value, w: Value) {
    v == w ||
    match w
    case Array(items) => exists i | 0 <= i < |items| :: Within(v, items[i])
    case Map(entries) => exists i | 0 <= i < |entries| :: Within(v, entries[i].key) || Within(v, entries[i].value)
    case _ => false
  }

  /** Integers that are not negative and fit 64 bits are encoded. */
  lemma IntegersEncodedIff(n: int)
    ensures Encodable(Int(n)) <==> 0 <= n < 0x1_0000_0000_0000_0000
  {
  }

  // ----- Assigning to a dictionary that is being read -----

  /** A key that is there keeps its place and its spelling and gets the new value. */
  lemma {:induction false} AssignReplaces(d: seq<Entry>, k: Value, v: Value, i: nat)
    requires i < |d| && SameKey(d[i].key, k) && forall j | 0 <= j < i :: !SameKey(d[j].key, k)
    ensures Assign(d, k, v) == d[i := Entry(d[i].key, v)]
  {
    if i > 0 {
      AssignReplaces(d[1..], k, v, i - 1);
      assert d == [d[0]] + d[1..];
    }
  }

  /** To the host dictionary `True` is the key 1 and `False` the key 0, and no other different keys are equal. */
  lemma TrueIsOne(a: Value, b: Value)
    ensures SameKey(a, b) <==>
      || a == b
      || (a == Bool(true) && b == Int(1)) || (a == Int(1) && b == Bool(true))
      || (a == Bool(false) && b == Int(0)) || (a == Int(0) && b == Bool(false))
  {
  }
}
