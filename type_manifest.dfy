/**
 * `GetTypeManifest`: the version-tolerant header, one count byte followed by each field
 * name as a 4-byte little-endian length and the name's bytes, in input order.
 */
module TypeManifest {
  import opened Wrappers
  import opened Errors
  import opened Bytes

  /** One length-prefixed record: `BitConverter.GetBytes(name.Length)` followed by the name. */
  function FieldRecord(name: ByteArray): (r: seq<byte>)
    ensures |r| == 4 + |name|
    ensures BytesToInt32(r[..4]) == |name| && r[4..] == name
  {
    assert (Int32ToBytes(|name|) + name)[..4] == Int32ToBytes(|name|);
    Int32ToBytes(|name|) + name
  }

  /** The records of `names`, built the way the loop builds them: the last one is appended last. */
  function FieldRecords(names: seq<ByteArray>): seq<byte>
  {
    if names == [] then []
    else FieldRecords(names[..|names| - 1]) + FieldRecord(names[|names| - 1])
  }

  /** The header the encoder writes: the count truncated to a byte by `(byte)`, then the records. */
  function ManifestBytes(names: seq<ByteArray>): seq<byte>
  {
    [|names| % 0x100] + FieldRecords(names)
  }

  /** `GetTypeManifest`: concatenates the count byte and each field's record in order. */
  method GetTypeManifest(fieldNames: seq<ByteArray>) returns (header: seq<byte>)
    ensures header == ManifestBytes(fieldNames)
  {
    header := [|fieldNames| % 0x100];
    for i := 0 to |fieldNames|
      invariant header == [|fieldNames| % 0x100] + FieldRecords(fieldNames[..i])
    {
      var name := fieldNames[i];
      var encodedLength := Int32ToBytes(|name|);
      header := header + encodedLength;
      header := header + name;
      assert fieldNames[..i + 1][..i] == fieldNames[..i];
    }
    assert fieldNames[..|fieldNames|] == fieldNames;
  }

  /** The total length of the records, summed from the first field on. */
  function RecordsLength(names: seq<ByteArray>): nat {
    if names == [] then 0 else 4 + |names[0]| + RecordsLength(names[1..])
  }

  /** Records of a concatenation are the concatenation of the records. */
  lemma {:induction false} FieldRecordsAppend(a: seq<ByteArray>, b: seq<ByteArray>)
    ensures FieldRecords(a + b) == FieldRecords(a) + FieldRecords(b)
    decreases |b|
  {
    if b != [] {
      var b', last := b[..|b| - 1], FieldRecord(b[|b| - 1]);
      assert (a + b)[..|a + b| - 1] == a + b';
      assert (a + b)[|a + b| - 1] == b[|b| - 1];
      assert FieldRecords(a + b) == FieldRecords(a + b') + last;
      FieldRecordsAppend(a, b');
      assert FieldRecords(b) == FieldRecords(b') + last;
      assert FieldRecords(a) + FieldRecords(b') + last == FieldRecords(a) + (FieldRecords(b') + last);
    } else {
      assert a + b == a;
    }
  }

  /** Records read from the front: the first field's record, then the others'. */
  lemma FieldRecordsCons(names: seq<ByteArray>)
    requires names != []
    ensures FieldRecords(names) == FieldRecord(names[0]) + FieldRecords(names[1..])
  {
    assert names == [names[0]] + names[1..];
    FieldRecordsAppend([names[0]], names[1..]);
    assert FieldRecords([names[0]]) == FieldRecord(names[0]);
  }

  lemma {:induction false} FieldRecordsLength(names: seq<ByteArray>)
    ensures |FieldRecords(names)| == RecordsLength(names)
    decreases |names|
  {
    if names != [] {
      FieldRecordsCons(names);
      FieldRecordsLength(names[1..]);
    }
  }

  /** The header is one byte longer than the sum of `4 + |name|` over all fields. */
  lemma ManifestLength(names: seq<ByteArray>)
    ensures |ManifestBytes(names)| == 1 + RecordsLength(names)
  {
    FieldRecordsLength(names);
  }

  /** A record placed after `c` and `p` is read back at `offset`, where it starts. */
  lemma RecordAt(d: seq<byte>, c: seq<byte>, p: seq<byte>, name: ByteArray, q: seq<byte>, offset: nat)
    requires d == c + (p + FieldRecord(name) + q)
    requires offset == |c| + |p|
    ensures offset + 4 + |name| <= |d| &&
      BytesToInt32(d[offset..offset + 4]) == |name| &&
      d[offset + 4..offset + 4 + |name|] == name
  {
    var r := FieldRecord(name);
    assert d[offset..offset + |r|] == r;
    assert d[offset..offset + 4] == r[..4];
    assert d[offset + 4..offset + |r|] == r[4..];
  }

  /**
   * Field `i`'s record follows the records of the fields before it. The proof is direct;
   * automatic induction on `names` is switched off because it only adds solver cost.
   */
  lemma {:induction false} RecordPosition(names: seq<ByteArray>, i: nat)
    requires i < |names|
    ensures FieldRecords(names) ==
            FieldRecords(names[..i]) + FieldRecord(names[i]) + FieldRecords(names[i + 1..])
  {
    var before, mid, after := names[..i], names[i..], names[i + 1..];
    assert names == before + mid;
    assert FieldRecords(names) == FieldRecords(before) + FieldRecords(mid) by { FieldRecordsAppend(before, mid); }
    assert mid[0] == names[i] && mid[1..] == after;
    assert FieldRecords(mid) == FieldRecord(names[i]) + FieldRecords(after) by { FieldRecordsCons(mid); }
  }

  /**
   * Layout: byte 0 is the field count modulo 256, and field `i` sits after the records of
   * the fields before it, as its 4-byte little-endian length followed by its bytes.
   */
  lemma ManifestLayout(names: seq<ByteArray>, i: nat)
    requires i < |names|
    ensures ManifestBytes(names)[0] == |names| % 0x100
    ensures var offset := 1 + RecordsLength(names[..i]);
      offset + 4 + |names[i]| <= |ManifestBytes(names)| &&
      BytesToInt32(ManifestBytes(names)[offset..offset + 4]) == |names[i]| &&
      ManifestBytes(names)[offset + 4..offset + 4 + |names[i]|] == names[i]
  {
    var count, pre, post := [|names| % 0x100], FieldRecords(names[..i]), FieldRecords(names[i + 1..]);
    var records := FieldRecords(names);
    assert ManifestBytes(names) == count + records;
    assert records == pre + FieldRecord(names[i]) + post by { RecordPosition(names, i); }
    assert |pre| == RecordsLength(names[..i]) by { FieldRecordsLength(names[..i]); }
    RecordAt(ManifestBytes(names), count, pre, names[i], post, 1 + RecordsLength(names[..i]));
  }

  /** Two small headers: no fields, and the single field "id". */
  lemma ManifestExamples()
    ensures ManifestBytes([]) == [0]
    ensures ManifestBytes([[105, 100]]) == [1, 2, 0, 0, 0, 105, 100]  // the field "id"
  {
  }

  /**
   * The encoder as the one-byte count intends it: a field list too long to be counted
   * in one byte is refused instead of having its count truncated.
   */
  function CheckedManifest(names: seq<ByteArray>): (r: Result<seq<byte>, Error>)
    ensures r.Success? <==> |names| <= 0xFF
    ensures r.Success? ==> |r.value| >= 1 && r.value[0] == |names| && r.value[1..] == FieldRecords(names)
    ensures r.Failure? ==> r.error == TooManyFields(|names|)
  {
    if |names| > 0xFF then Failure(TooManyFields(|names|)) else Success(ManifestBytes(names))
  }
}
