/** The CBOR subset of the wire format (section 3.1 of RFC 8949): values, the encoder and the decoder.
    `Enc` and `Dec` say what the two routines compute; the methods below them are the routines. */
module Cbor {
  import opened Wrappers
  import opened Bytes

  datatype Value =
    | Null
    | Bool(b: bool)
    | Int(n: int)
    | Bytes(bytes: ByteString)
    | Text(utf8: Utf8Text)
    | Array(items: seq<Value>)
    | Map(entries: seq<Entry>)

  /** One key/value pair of a map; a map keeps the insertion order of its entries. */
  datatype Entry = Entry(key: Value, value: Value)

  const LIMIT: nat := 0x1_0000_0000_0000_0000

  /** What the encoder accepts: no negative integer, every integer and length in 64 bits. */
  predicate Encodable(v: Value) {
    match v
    case Null => true
    case Bool(_) => true
    case Int(n) => 0 <= n < LIMIT
    case Bytes(b) => |b| < LIMIT
    case Text(b) => |b| < LIMIT
    case Array(items) => |items| < LIMIT && EncodableItems(items)
    case Map(entries) => |entries| < LIMIT && EncodableEntries(entries)
  }

  predicate EncodableItems(items: seq<Value>) {
    forall i | 0 <= i < |items| :: Encodable(items[i])
  }

  predicate EncodableEntry(e: Entry) {
    Encodable(e.key) && Encodable(e.value)
  }

  predicate EncodableEntries(entries: seq<Entry>) {
    forall i | 0 <= i < |entries| :: EncodableEntry(entries[i])
  }

  /** Only immutable objects can be keys. */
  predicate Hashable(v: Value) {
    !v.Array? && !v.Map?
  }

  /** Key equality as the host dictionary sees it: `False == 0` and `True == 1`. */
  function KeyClass(v: Value): Value {
    if v.Bool? then Int(if v.b then 1 else 0) else v
  }

  predicate SameKey(a: Value, b: Value) {
    KeyClass(a) == KeyClass(b)
  }

  ghost predicate DistinctKeys(entries: seq<Entry>) {
    && (forall i | 0 <= i < |entries| :: Hashable(entries[i].key))
    && (forall i, j | 0 <= i < j < |entries| :: !SameKey(entries[i].key, entries[j].key))
  }

  /** The invariants of the host objects: text is valid, dictionary keys are hashable and distinct. */
  ghost predicate WellFormed(v: Value) {
    match v
    case Text(b) => Utf8(b)
    case Array(items) => WellFormedItems(items)
    case Map(entries) => DistinctKeys(entries) && WellFormedEntries(entries)
    case _ => true
  }

  ghost predicate WellFormedItems(items: seq<Value>) {
    forall i | 0 <= i < |items| :: WellFormed(items[i])
  }

  ghost predicate WellFormedEntry(e: Entry) {
    WellFormed(e.key) && WellFormed(e.value)
  }

  ghost predicate WellFormedEntries(entries: seq<Entry>) {
    forall i | 0 <= i < |entries| :: WellFormedEntry(entries[i])
  }

  ghost predicate Wire(v: Value) {
    Encodable(v) && WellFormed(v)
  }

  ghost predicate WireItems(items: seq<Value>) {
    EncodableItems(items) && WellFormedItems(items)
  }

  ghost predicate WireEntry(e: Entry) {
    Wire(e.key) && Wire(e.value)
  }

  ghost predicate WireEntries(entries: seq<Entry>) {
    EncodableEntries(entries) && WellFormedEntries(entries)
  }

  // ----- What encoding computes -----

  function Head(major: nat, n: nat): (r: ByteString)
    requires major < 8 && n < LIMIT
    ensures 1 <= |r| <= 9
  {
    Pow256Values();
    var m := 32 * major;
    if n < 24 then [m + n]
    else if n < 0x100 then [m + 24, n]
    else if n < 0x1_0000 then [m + 25] + BigEndian(n, 2)
    else if n < 0x1_0000_0000 then [m + 26] + BigEndian(n, 4)
    else [m + 27] + BigEndian(n, 8)
  }

  function Enc(v: Value): (r: ByteString)
    requires Encodable(v)
    ensures |r| >= 1
    decreases v, 0
  {
    match v
    case Null => [0xF6]
    case Bool(b) => if b then [0xF5] else [0xF4]
    case Int(n) => Head(0, n)
    case Bytes(b) => Head(2, |b|) + b
    case Text(b) => Head(3, |b|) + b
    case Array(items) => Head(4, |items|) + EncItems(items)
    case Map(entries) => Head(5, |entries|) + EncEntries(entries)
  }

  function EncItems(items: seq<Value>): ByteString
    requires EncodableItems(items)
    decreases items, 1
  {
    if items == [] then [] else Enc(items[0]) + EncItems(items[1..])
  }

  function EncEntries(entries: seq<Entry>): ByteString
    requires EncodableEntries(entries)
    decreases entries, 1
  {
    if entries == [] then [] else EncEntry(entries[0]) + EncEntries(entries[1..])
  }

  function EncEntry(e: Entry): ByteString
    requires EncodableEntry(e)
    decreases e, 1
  {
    Enc(e.key) + Enc(e.value)
  }

  // ----- What decoding computes -----

  datatype DecodeError = EndOfInput | Unsupported | BadText | UnhashableKey | TrailingBytes

  /** A decoded item and the cursor behind it. */
  datatype Decoded<+T> = Read(value: T, next: nat) | Fail(error: DecodeError)

  /** `data[lo:hi]`: a slice that runs past the end is cut short, without an error. */
  function Slice(data: ByteString, lo: nat, hi: nat): (r: ByteString)
    requires lo <= hi
    ensures |r| <= hi - lo
    ensures hi <= |data| ==> r == data[lo..hi]
  {
    var n := |data|;
    data[if lo < n then lo else n..if hi < n then hi else n]
  }

  /** The length or value that follows an initial byte; `i` is the cursor behind that byte. */
  function Argument(data: ByteString, i: nat, info: nat): (r: Decoded<nat>)
    ensures r.Read? ==> i <= r.next && (info < LIMIT ==> r.value < LIMIT)
  {
    Pow256Values();
    if info < 24 then Read(info, i)
    else if info == 24 then (if i < |data| then Read(data[i], i + 1) else Fail(EndOfInput))
    else if info == 25 then FromSlice(data, i, 2)
    else if info == 26 then FromSlice(data, i, 4)
    else if info == 27 then FromSlice(data, i, 8)
    else Fail(Unsupported)
  }

  function FromSlice(data: ByteString, i: nat, k: nat): (r: Decoded<nat>)
    requires k <= 8
    ensures r.Read? && r.next == i + k && r.value < LIMIT
  {
    Pow256Values();
    PowMonotone(|Slice(data, i, i + k)|, 8);
    Read(FromBigEndian(Slice(data, i, i + k)), i + k)
  }

  lemma PowMonotone(a: nat, b: nat)
    requires a <= b
    ensures Pow256(a) <= Pow256(b)
    decreases b - a
  {
    if a < b { PowMonotone(a, b - 1); }
  }

  function Remaining(data: ByteString, i: nat): nat {
    if i < |data| then |data| - i else 0
  }

  function Dec(data: ByteString, i: nat): (r: Decoded<Value>)
    ensures r.Read? ==> i < |data| && i < r.next
    decreases Remaining(data, i), 0, 0
  {
    if i >= |data| then Fail(EndOfInput) else
    var major, info := data[i] / 32, data[i] % 32;
    if major == 7 then
      if info == 20 then Read(Bool(false), i + 1)
      else if info == 21 then Read(Bool(true), i + 1)
      else if info == 22 then Read(Null, i + 1)
      else Fail(Unsupported)
    else
      var arg := Argument(data, i + 1, info);
      if arg.Fail? then Fail(arg.error) else DecBody(data, major, arg.value, arg.next)
  }

  /** The part of an item behind its head. */
  function DecBody(data: ByteString, major: nat, n: nat, i: nat): (r: Decoded<Value>)
    requires 0 < i
    ensures r.Read? ==> i <= r.next
    decreases Remaining(data, i), 3, 0
  {
    match major
    case 0 => Read(Int(n), i)
    case 2 => Read(Bytes(Slice(data, i, i + n)), i + n)
    case 3 => var t := Slice(data, i, i + n); if Utf8(t) then Read(Text(t), i + n) else Fail(BadText)
    case 4 =>
      var r := DecItems(data, i, n);
      if r.Fail? then Fail(r.error) else Read(Array(r.value), r.next)
    case 5 =>
      var r := DecEntries(data, i, n, []);
      if r.Fail? then Fail(r.error) else Read(Map(r.value), r.next)
    case _ => Fail(Unsupported)
  }

  function DecItems(data: ByteString, i: nat, n: nat): (r: Decoded<seq<Value>>)
    ensures r.Read? ==> i <= r.next
    decreases Remaining(data, i), 2, n
  {
    if n == 0 then Read([], i) else
    var first := Dec(data, i);
    if first.Fail? then Fail(first.error) else
    var rest := DecItems(data, first.next, n - 1);
    if rest.Fail? then Fail(rest.error) else Read([first.value] + rest.value, rest.next)
  }

  /** `d` holds the entries read so far; a repeated key overwrites. */
  function DecEntries(data: ByteString, i: nat, n: nat, d: seq<Entry>): (r: Decoded<seq<Entry>>)
    ensures r.Read? ==> i <= r.next
    decreases Remaining(data, i), 2, n
  {
    if n == 0 then Read(d, i) else
    var k := Dec(data, i);
    if k.Fail? then Fail(k.error) else
    var v := Dec(data, k.next);
    if v.Fail? then Fail(v.error) else
    if !Hashable(k.value) then Fail(UnhashableKey) else
    DecEntries(data, v.next, n - 1, Assign(d, k.value, v.value))
  }

  /** `d[k] = v`: an equal key keeps its place (and its first spelling), a new key goes last. */
  function Assign(d: seq<Entry>, k: Value, v: Value): (r: seq<Entry>)
    ensures |d| <= |r| <= |d| + 1
  {
    if d == [] then [Entry(k, v)]
    else if SameKey(d[0].key, k) then [Entry(d[0].key, v)] + d[1..]
    else [d[0]] + Assign(d[1..], k, v)
  }

  function Decode(data: ByteString): Result<Value, DecodeError> {
    var r := Dec(data, 0);
    if r.Fail? then Err(r.error)
    else if r.next != |data| then Err(TrailingBytes)
    else Ok(r.value)
  }

  // ----- The encoder -----

  /** The shared output of one encoding run. */
  class Output {
    var bytes: ByteString

    constructor ()
      ensures bytes == []
    {
      bytes := [];
    }
  }

  method AppendHead(major: nat, n: int, out: Output) returns (ok: bool)
    requires major < 8 && 0 <= n
    modifies out
    ensures ok <==> n < LIMIT
    ensures ok ==> out.bytes == old(out.bytes) + Head(major, n)
  {
    Pow256Values();
    var m := 32 * major;
    ok := true;
    if n < 24 {
      out.bytes := out.bytes + [m + n];
    } else if n < 0x100 {
      out.bytes := out.bytes + [m + 24];
      out.bytes := out.bytes + [n];
    } else if n < 0x1_0000 {
      out.bytes := out.bytes + [m + 25];
      out.bytes := out.bytes + BigEndian(n, 2);
    } else if n < 0x1_0000_0000 {
      out.bytes := out.bytes + [m + 26];
      out.bytes := out.bytes + BigEndian(n, 4);
    } else {
      out.bytes := out.bytes + [m + 27];
      if n >= LIMIT {
        return false;
      }
      out.bytes := out.bytes + BigEndian(n, 8);
    }
  }

  method Append(v: Value, out: Output) returns (ok: bool)
    modifies out
    ensures ok <==> Encodable(v)
    ensures ok ==> out.bytes == old(out.bytes) + Enc(v)
    decreases v, 1
  {
    match v {
      case Null =>
        out.bytes := out.bytes + [0xF6];
        return true;
      case Bool(b) =>
        out.bytes := out.bytes + [if b then 0xF5 else 0xF4];
        return true;
      case Int(n) =>
        if n < 0 {
          return false;
        }
        ok := AppendHead(0, n, out);
      case Bytes(b) =>
        ok := AppendString(2, b, out);
      case Text(b) =>
        ok := AppendString(3, b, out);
      case Array(_) =>
        ok := AppendArray(v, out);
      case Map(_) =>
        ok := AppendMap(v, out);
    }
  }

  method AppendString(major: nat, b: ByteString, out: Output) returns (ok: bool)
    requires major < 8
    modifies out
    ensures ok <==> |b| < LIMIT
    ensures ok ==> out.bytes == old(out.bytes) + (Head(major, |b|) + b)
  {
    ok := AppendHead(major, |b|, out);
    if ok {
      out.bytes := out.bytes + b;
    }
  }

  method AppendArray(v: Value, out: Output) returns (ok: bool)
    requires v.Array?
    modifies out
    ensures ok <==> Encodable(v)
    ensures ok ==> out.bytes == old(out.bytes) + Enc(v)
    decreases v, 0
  {
    hide Head;
    ok := AppendHead(4, |v.items|, out);
    if ok {
      ok := AppendItems(v.items, out);
    }
  }

  method AppendItems(items: seq<Value>, out: Output) returns (ok: bool)
    modifies out
    ensures ok <==> EncodableItems(items)
    ensures ok ==> out.bytes == old(out.bytes) + EncItems(items)
    decreases items, 2
  {
    ghost var start := out.bytes;
    for k := 0 to |items|
      invariant EncodableItems(items[..k])
      invariant out.bytes == start + EncItems(items[..k])
    {
      ok := Append(items[k], out);
      if !ok {
        return;
      }
      EncItemsSnoc(items[..k], items[k]);
      assert items[..k] + [items[k]] == items[..k + 1];
    }
    assert items[..|items|] == items;
    return true;
  }

  method AppendMap(v: Value, out: Output) returns (ok: bool)
    requires v.Map?
    modifies out
    ensures ok <==> Encodable(v)
    ensures ok ==> out.bytes == old(out.bytes) + Enc(v)
    decreases v, 0
  {
    hide Head;
    ok := AppendHead(5, |v.entries|, out);
    if ok {
      ok := AppendEntries(v.entries, out);
    }
  }

  method AppendEntries(entries: seq<Entry>, out: Output) returns (ok: bool)
    modifies out
    ensures ok <==> EncodableEntries(entries)
    ensures ok ==> out.bytes == old(out.bytes) + EncEntries(entries)
    decreases entries, 2
  {
    hide Enc, Encodable;
    ghost var start := out.bytes;
    for k := 0 to |entries|
      invariant EncodableEntries(entries[..k])
      invariant out.bytes == start + EncEntries(entries[..k])
    {
      ok := AppendEntry(entries[k], out);
      if !ok {
        return;
      }
      EncEntriesSnoc(entries[..k], entries[k]);
      assert entries[..k] + [entries[k]] == entries[..k + 1];
    }
    assert entries[..|entries|] == entries;
    return true;
  }

  method AppendEntry(e: Entry, out: Output) returns (ok: bool)
    modifies out
    ensures ok <==> EncodableEntry(e)
    ensures ok ==> out.bytes == old(out.bytes) + EncEntry(e)
    decreases e, 1
  {
    hide Enc, Encodable;
    ok := Append(e.key, out);
    if ok {
      ok := Append(e.value, out);
    }
  }

  lemma {:induction false} EncItemsSnoc(items: seq<Value>, v: Value)
    requires EncodableItems(items)
    requires Encodable(v)
    ensures EncItems(items + [v]) == EncItems(items) + Enc(v)
  {
    if items == [] {
      assert [v][1..] == [];
    } else {
      assert (items + [v])[1..] == items[1..] + [v];
      EncItemsSnoc(items[1..], v);
    }
  }

  lemma {:induction false} EncEntriesSnoc(entries: seq<Entry>, e: Entry)
    requires EncodableEntries(entries)
    requires EncodableEntry(e)
    ensures EncEntries(entries + [e]) == EncEntries(entries) + EncEntry(e)
  {
    if entries == [] {
      assert [e][1..] == [];
    } else {
      assert (entries + [e])[1..] == entries[1..] + [e];
      EncEntriesSnoc(entries[1..], e);
    }
  }

  method Encode(v: Value) returns (r: Option<ByteString>)
    ensures r.Some? <==> Encodable(v)
    ensures r.Some? ==> r.value == Enc(v)
  {
    var out := new Output();
    var ok := Append(v, out);
    return if ok then Some(out.bytes) else None;
  }

  // ----- The decoder -----

  method Get(data: ByteString, start: nat) returns (r: Decoded<Value>)
    ensures r == Dec(data, start)
    decreases Remaining(data, start), 0
  {
    var i := start;
    if i >= |data| {
      return Fail(EndOfInput);
    }
    var b := data[i];
    i := i + 1;
    var major, info := b / 32, b % 32;
    if major == 7 {
      if info == 20 {
        return Read(Bool(false), i);
      }
      if info == 21 {
        return Read(Bool(true), i);
      }
      if info == 22 {
        return Read(Null, i);
      }
      return Fail(Unsupported);
    }
    var arg := Argument(data, i, info);
    if arg.Fail? {
      return Fail(arg.error);
    }
    var n := arg.value;
    i := arg.next;
    match major {
      case 0 => return Read(Int(n), i);
      case 2 => return Read(Bytes(Slice(data, i, i + n)), i + n);
      case 3 =>
        var t := Slice(data, i, i + n);
        return if Utf8(t) then Read(Text(t), i + n) else Fail(BadText);
      case 4 => r := GetItems(data, i, n);
      case 5 => r := GetEntries(data, i, n);
      case _ => return Fail(Unsupported);
    }
  }

  ghost function Prepend(arr: seq<Value>, rest: Decoded<seq<Value>>): Decoded<seq<Value>> {
    if rest.Fail? then rest else Read(arr + rest.value, rest.next)
  }

  method GetItems(data: ByteString, start: nat, n: nat) returns (r: Decoded<Value>)
    requires 0 < start
    ensures r == DecBody(data, 4, n, start)
    decreases Remaining(data, start), 1
  {
    var arr, i := [], start;
    ghost var whole := DecItems(data, start, n);
    assert whole.Read? ==> [] + whole.value == whole.value;
    for k := 0 to n
      invariant start <= i
      invariant whole == Prepend(arr, DecItems(data, i, n - k))
    {
      var item := Get(data, i);
      if item.Fail? {
        return Fail(item.error);
      }
      ghost var rest := DecItems(data, item.next, n - k - 1);
      assert rest.Read? ==> arr + ([item.value] + rest.value) == arr + [item.value] + rest.value;
      i := item.next;
      arr := arr + [item.value];
    }
    assert arr + [] == arr;
    return Read(Array(arr), i);
  }

  method GetEntries(data: ByteString, start: nat, n: nat) returns (r: Decoded<Value>)
    requires 0 < start
    ensures r == DecBody(data, 5, n, start)
    decreases Remaining(data, start), 1
  {
    var d, i := [], start;
    for k := 0 to n
      invariant start <= i
      invariant DecEntries(data, start, n, []) == DecEntries(data, i, n - k, d)
    {
      var key := Get(data, i);
      if key.Fail? {
        return Fail(key.error);
      }
      var value := Get(data, key.next);
      if value.Fail? {
        return Fail(value.error);
      }
      if !Hashable(key.value) {
        return Fail(UnhashableKey);
      }
      d := Assign(d, key.value, value.value);
      i := value.next;
    }
    return Read(Map(d), i);
  }

  method DecodeAll(data: ByteString) returns (r: Result<Value, DecodeError>)
    ensures r == Decode(data)
  {
    var item := Get(data, 0);
    if item.Fail? {
      return Err(item.error);
    }
    if item.next != |data| {
      return Err(TrailingBytes);
    }
    return Ok(item.value);
  }
}
