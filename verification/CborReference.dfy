/** The codec's reference: a reader that consumes its input and checks every bound; the cursor decoder refines it. */
module CborReference {
  import opened Wrappers
  import opened Bytes
  import opened Cbor

  // ----- The reference reader -----

  /** A value and the unread rest of the input. */
  type Parsed<+T> = Option<(T, ByteString)>

  function ParseArgument(b: ByteString, info: nat): (r: Parsed<nat>)
    ensures r.Some? ==> |r.value.1| <= |b|
    ensures r.Some? && info < 32 ==> r.value.0 < LIMIT
  {
    if info < 24 then Some((info, b))
    else if info > 27 then None
    else
      var k := [1, 2, 4, 8][info - 24];
      if k > |b| then None else
      assert FromBigEndian(b[..k]) < LIMIT by { Pow256Values(); PowMonotone(k, 8); }
      Some((FromBigEndian(b[..k]), b[k..]))
  }

  function Parse(b: ByteString): (r: Parsed<Value>)
    ensures r.Some? ==> |r.value.1| < |b|
    decreases |b|, 0, 0
  {
    if b == [] then None else
    var major, info := b[0] / 32, b[0] % 32;
    if major == 7 then
      if info == 20 then Some((Bool(false), b[1..]))
      else if info == 21 then Some((Bool(true), b[1..]))
      else if info == 22 then Some((Null, b[1..]))
      else None
    else
      var arg := ParseArgument(b[1..], info);
      if arg.None? then None else ParseBody(major, arg.value.0, arg.value.1)
  }

  function ParseBody(major: nat, n: nat, b: ByteString): (r: Parsed<Value>)
    ensures r.Some? ==> |r.value.1| <= |b|
    decreases |b|, 3, 0
  {
    match major
    case 0 => Some((Int(n), b))
    case 2 => if n <= |b| then Some((Bytes(b[..n]), b[n..])) else None
    case 3 => if n <= |b| && Utf8(b[..n]) then Some((Text(b[..n]), b[n..])) else None
    case 4 => var r := ParseItems(b, n); if r.None? then None else Some((Array(r.value.0), r.value.1))
    case 5 => var r := ParseEntries(b, n, []); if r.None? then None else Some((Map(r.value.0), r.value.1))
    case _ => None
  }

  function ParseItems(b: ByteString, n: nat): (r: Parsed<seq<Value>>)
    ensures r.Some? ==> |r.value.1| <= |b|
    decreases |b|, 2, n
  {
    if n == 0 then Some(([], b)) else
    var first := Parse(b);
    if first.None? then None else
    var rest := ParseItems(first.value.1, n - 1);
    if rest.None? then None else Some(([first.value.0] + rest.value.0, rest.value.1))
  }

  function ParseEntries(b: ByteString, n: nat, d: seq<Entry>): (r: Parsed<seq<Entry>>)
    ensures r.Some? ==> |r.value.1| <= |b|
    decreases |b|, 2, n
  {
    if n == 0 then Some((d, b)) else
    var k := Parse(b);
    if k.None? then None else
    var v := Parse(k.value.1);
    if v.None? || !Hashable(k.value.0) then None else
    ParseEntries(v.value.1, n - 1, Assign(d, k.value.0, v.value.0))
  }

  // ----- The cursor decoder refines the reference -----

  /** A result whose cursor stayed within the data, as the reference would report it. */
  function InBounds<T>(data: ByteString, r: Decoded<T>): Parsed<T> {
    if r.Read? && r.next <= |data| then Some((r.value, data[r.next..])) else None
  }

  lemma {:induction false} DecIsParse(data: ByteString, i: nat)
    ensures i <= |data| ==> InBounds(data, Dec(data, i)) == Parse(data[i..])
    decreases Remaining(data, i), 0, 0
  {
    if i < |data| {
      var b := data[i..];
      var major, info := b[0] / 32, b[0] % 32;
      assert b[1..] == data[i + 1..];
      if major != 7 {
        ArgumentIsParse(data, i + 1, info);
        var arg := Argument(data, i + 1, info);
        if arg.Read? {
          DecBodyIsParse(data, major, arg.value, arg.next);
        }
      }
    }
  }

  lemma ArgumentIsParse(data: ByteString, i: nat, info: nat)
    requires i <= |data| && info < 32
    ensures InBounds(data, Argument(data, i, info)) == ParseArgument(data[i..], info)
  {
    if 24 <= info <= 27 {
      var k := [1, 2, 4, 8][info - 24];
      if i + k <= |data| {
        assert data[i..][..k] == data[i..i + k];
        assert data[i..][k..] == data[i + k..];
        if k == 1 {
          assert data[i..i + 1] == [data[i]] && [data[i]][..0] == [];
          assert FromBigEndian(data[i..i + 1]) == data[i];
        }
      }
    }
  }

  lemma {:induction false} DecBodyIsParse(data: ByteString, major: nat, n: nat, i: nat)
    requires 0 < i
    ensures i <= |data| ==> InBounds(data, DecBody(data, major, n, i)) == ParseBody(major, n, data[i..])
    ensures i > |data| ==> InBounds(data, DecBody(data, major, n, i)).None?
    decreases Remaining(data, i), 3, 0
  {
    if major == 4 {
      DecItemsIsParse(data, i, n);
    } else if major == 5 {
      DecEntriesIsParse(data, i, n, []);
    } else if i + n <= |data| {
      assert data[i..][..n] == data[i..i + n];
      assert data[i..][n..] == data[i + n..];
    }
  }

  lemma {:induction false} DecItemsIsParse(data: ByteString, i: nat, n: nat)
    ensures i <= |data| ==> InBounds(data, DecItems(data, i, n)) == ParseItems(data[i..], n)
    ensures i > |data| ==> InBounds(data, DecItems(data, i, n)).None?
    decreases Remaining(data, i), 2, n
  {
    hide Dec, Parse;
    if n > 0 {
      DecIsParse(data, i);
      var first := Dec(data, i);
      if first.Read? {
        DecItemsIsParse(data, first.next, n - 1);
      }
    }
  }

  lemma {:induction false} DecEntriesIsParse(data: ByteString, i: nat, n: nat, d: seq<Entry>)
    ensures i <= |data| ==> InBounds(data, DecEntries(data, i, n, d)) == ParseEntries(data[i..], n, d)
    ensures i > |data| ==> InBounds(data, DecEntries(data, i, n, d)).None?
    decreases Remaining(data, i), 2, n
  {
    hide Dec, Parse, Assign, Hashable;
    if n > 0 {
      DecIsParse(data, i);
      var k := Dec(data, i);
      if k.Read? {
        DecIsParse(data, k.next);
        var v := Dec(data, k.next);
        if v.Read? && Hashable(k.value) {
          DecEntriesIsParse(data, v.next, n - 1, Assign(d, k.value, v.value));
        }
      }
    }
  }

  /** Slices may over-run on the way, but whatever is accepted was read wholly in bounds. */
  lemma AcceptedIsReadInBounds(data: ByteString, v: Value)
    ensures Decode(data) == Ok(v) <==> Parse(data) == Some((v, []))
  {
    DecIsParse(data, 0);
    assert data[0..] == data;
  }
}
