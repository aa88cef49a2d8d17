/**
 * The stream readers the type resolver consumes: `ReadByte`, `ReadUInt16` and
 * `ReadLengthEncodedByteArray`, over an immutable byte sequence and a cursor.
 * The length-encoded reader is taken to read a 4-byte little-endian `int` length and
 * then that many bytes, the record layout the manifest encoder writes.
 */
module WireStream {
  import opened Wrappers
  import opened Errors
  import opened Bytes
  import opened TypeManifest

  /** What a read yields, and where the cursor is afterwards. */
  datatype Read<T> = Read(result: Result<T, Error>, pos: nat)

  /** `Stream.ReadByte`: the next byte, or -1 at the end of the stream. */
  function ReadByteAt(data: seq<byte>, pos: nat): (r: (int, nat))
    requires pos <= |data|
    ensures r.0 == -1 <==> pos == |data|
    ensures r.0 == -1 ==> r.1 == pos
    ensures r.0 != -1 ==> 0 <= r.0 < 0x100 && r.0 == data[pos] && r.1 == pos + 1
  {
    if pos < |data| then (data[pos] as int, pos + 1) else (-1, pos)
  }

  /** `ReadUInt16`: two bytes, low byte first. */
  function ReadUInt16At(data: seq<byte>, pos: nat): (r: Read<nat>)
    requires pos <= |data|
    ensures pos <= r.pos <= |data|
    ensures r.result.Success? <==> pos + 2 <= |data|
    ensures r.result.Success? ==> r.pos == pos + 2 && r.result.value < 0x1_0000 &&
                                  UInt16ToBytes(r.result.value) == data[pos..pos + 2]
  {
    if |data| - pos < 2 then Read(Failure(EndOfStream), |data|)
    else Read(Success(BytesToUInt16(data[pos..pos + 2])), pos + 2)
  }

  /**
   * `ReadLengthEncodedByteArray`: what a successful read consumes is exactly one record
   * as the manifest encoder writes it, and its result is that record's name bytes.
   */
  function ReadLengthEncodedAt(data: seq<byte>, pos: nat): (r: Read<ByteArray>)
    requires pos <= |data|
    ensures pos <= r.pos <= |data|
    ensures r.result.Success? ==> r.pos == pos + 4 + |r.result.value| &&
                                  data[pos..r.pos] == FieldRecord(r.result.value)
  {
    if |data| - pos < 4 then Read(Failure(EndOfStream), |data|)
    else
      var length := BytesToInt32(data[pos..pos + 4]);
      if length < 0 then Read(Failure(NegativeLength(length)), pos + 4)
      else if |data| - (pos + 4) < length then Read(Failure(EndOfStream), |data|)
      else
        var bytes: ByteArray := data[pos + 4..pos + 4 + length];
        BytesToInt32Inverse(data[pos..pos + 4]);
        assert data[pos..pos + 4 + length] == data[pos..pos + 4] + bytes;
        Read(Success(bytes), pos + 4 + length)
  }

  /** A record the encoder wrote is read back as the same name, and the cursor lands right after it. */
  lemma ReadRecord(data: seq<byte>, pos: nat, name: ByteArray)
    requires pos + 4 + |name| <= |data|
    requires data[pos..pos + 4 + |name|] == FieldRecord(name)
    ensures ReadLengthEncodedAt(data, pos) == Read(Success(name), pos + 4 + |name|)
  {
    assert data[pos..pos + 4] == FieldRecord(name)[..4];
    assert data[pos + 4..pos + 4 + |name|] == FieldRecord(name)[4..];
  }

  /** The loop of the version-tolerant reader: `count` records read and discarded (none if `count <= 0`). */
  function SkipRecords(data: seq<byte>, pos: nat, count: int): (r: Read<()>)
    requires pos <= |data|
    ensures pos <= r.pos <= |data|
    ensures count <= 0 ==> r == Read(Success(()), pos)
    decreases count
  {
    if count <= 0 then Read(Success(()), pos)
    else
      var field := ReadLengthEncodedAt(data, pos);
      if field.result.Failure? then Read(Failure(field.result.error), field.pos)
      else SkipRecords(data, field.pos, count - 1)
  }

  /** A record the encoder wrote, read back in the middle of a stream. */
  lemma ReadRecordAt(before: seq<byte>, name: ByteArray, after: seq<byte>)
    ensures ReadLengthEncodedAt(before + FieldRecord(name) + after, |before|) ==
            Read(Success(name), |before| + 4 + |name|)
  {
    var data := before + FieldRecord(name) + after;
    assert data[|before|..|before| + 4 + |name|] == FieldRecord(name);
    ReadRecord(data, |before|, name);
  }

  /** Skipping the records of a field list the encoder wrote lands exactly after them, whatever the names. */
  lemma {:induction false} SkipFieldRecords(before: seq<byte>, names: seq<ByteArray>, after: seq<byte>)
    ensures SkipRecords(before + FieldRecords(names) + after, |before|, |names|) ==
            Read(Success(()), |before| + |FieldRecords(names)|)
    decreases |names|
  {
    if names != [] {
      FieldRecordsCons(names);
      var first, rest := FieldRecord(names[0]), FieldRecords(names[1..]);
      var data := before + FieldRecords(names) + after;
      assert data == before + first + (rest + after);
      ReadRecordAt(before, names[0], rest + after);
      assert data == (before + first) + rest + after;
      SkipFieldRecords(before + first, names[1..], after);
    }
  }

  /** A readable byte stream: fixed contents and a read position. */
  class Stream {
    const data: seq<byte>
    var position: nat

    ghost predicate Valid()
      reads this
    {
      position <= |data|
    }

    constructor (data: seq<byte>)
      ensures Valid() && this.data == data && position == 0
    {
      this.data := data;
      position := 0;
    }

    method ReadByte() returns (b: int)
      requires Valid()
      modifies this
      ensures Valid()
      ensures (b, position) == ReadByteAt(data, old(position))
    {
      if position < |data| {
        b := data[position];
        position := position + 1;
      } else {
        b := -1;
      }
    }

    method ReadUInt16() returns (r: Result<nat, Error>)
      requires Valid()
      modifies this
      ensures Valid()
      ensures Read(r, position) == ReadUInt16At(data, old(position))
    {
      var read := ReadUInt16At(data, position);
      r, position := read.result, read.pos;
    }

    method ReadLengthEncodedByteArray() returns (r: Result<ByteArray, Error>)
      requires Valid()
      modifies this
      ensures Valid()
      ensures Read(r, position) == ReadLengthEncodedAt(data, old(position))
    {
      var read := ReadLengthEncodedAt(data, position);
      r, position := read.result, read.pos;
    }
  }
}
