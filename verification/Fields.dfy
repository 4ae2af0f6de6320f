/** Field types of the signed structs and their encodings. */
module Fields {
  import opened Bytes
  import opened Cbor
  import opened Signing

  type U64 = n: int | 0 <= n < LIMIT

  /** Addition in 64 bits, as an optimized build does it. */
  function WrappingAdd(a: U64, b: U64): (r: U64)
    ensures r <= a + b && r == if a + b < LIMIT then a + b else a + b - LIMIT
  {
    (a + b) % LIMIT
  }

  type Blob = b: ByteString | |b| < LIMIT

  type Label = t: Utf8Text | |t| < LIMIT && Utf8(t)

  type Labels = s: seq<Label> | |s| < LIMIT

  function LabelArray(labels: Labels): (v: Value)
    ensures Wire(v)
  {
    var items := seq(|labels|, i requires 0 <= i < |labels| => Text(labels[i]));
    assert EncodableItems(items) && WellFormedItems(items);
    Array(items)
  }

  lemma LabelArrayInjective(a: Labels, b: Labels)
    requires LabelArray(a) == LabelArray(b)
    ensures a == b
  {
    assert |a| == |LabelArray(a).items| == |LabelArray(b).items| == |b|;
    forall i | 0 <= i < |a| ensures a[i] == b[i] {
      assert LabelArray(a).items[i] == Text(a[i]) && LabelArray(b).items[i] == Text(b[i]);
    }
  }

  datatype Pair = Pair(key: Label, value: Label)

  /** A string map in its encoding order: no key twice. */
  type StringMap = m: seq<Pair> | |m| < LIMIT && forall i, j | 0 <= i < j < |m| :: m[i].key != m[j].key

  function StringMapValue(m: StringMap): (v: Value)
    ensures Wire(v)
  {
    var entries := seq(|m|, i requires 0 <= i < |m| => Entry(Text(m[i].key), Text(m[i].value)));
    assert WireEntries(entries) by {
      forall i | 0 <= i < |m| ensures EncodableEntry(entries[i]) && WellFormedEntry(entries[i]) {
        assert entries[i] == Entry(Text(m[i].key), Text(m[i].value));
      }
    }
    assert DistinctKeys(entries);
    MapIsWire(entries);
    Map(entries)
  }

  lemma StringMapValueInjective(a: StringMap, b: StringMap)
    requires StringMapValue(a) == StringMapValue(b)
    ensures a == b
  {
    assert |a| == |StringMapValue(a).entries| == |StringMapValue(b).entries| == |b|;
    forall i | 0 <= i < |a| ensures a[i] == b[i] {
      assert StringMapValue(a).entries[i] == Entry(Text(a[i].key), Text(a[i].value));
      assert StringMapValue(b).entries[i] == Entry(Text(b[i].key), Text(b[i].value));
    }
  }
}
