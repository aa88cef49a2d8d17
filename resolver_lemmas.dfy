/**
 * Properties of the four readers of a type reference, stated about the functions that
 * specify them: how far each reader advances over bytes the encoder wrote, what it
 * returns, what it does to the name cache and to the session type table.
 */
module ResolverLemmas {
  import opened Wrappers
  import opened Errors
  import opened Bytes
  import opened Strings
  import opened NameCompression
  import opened TypeManifest
  import opened WireStream
  import opened Session
  import opened TypeCache
  import opened TypeResolver

  /** The name record at the cursor is read back as the encoder wrote it. */
  lemma NameRecordRead(before: seq<byte>, name: ByteArray, after: seq<byte>, s: ReaderState, rt: Runtime)
    requires s.position == |before|
    ensures var data := before + FieldRecord(name) + after;
      var lookup := GetOrAddSpec(s.entries, name, rt);
      ManifestName(data, s, rt) ==
        Outcome(lookup.result, s.(position := |before| + 4 + |name|, entries := lookup.entries))
  {
    ReadRecordAt(before, name, after);
  }

  /**
   * Version-tolerant advancement: over a name record and a header from the manifest
   * encoder, the reader stops exactly after the header, whatever the field names, and
   * returns what the full reader returns for the same bytes.
   */
  lemma VersionedReadsWholeHeader(
    before: seq<byte>, name: ByteArray, fields: seq<ByteArray>, header: seq<byte>, after: seq<byte>,
    s: ReaderState, rt: Runtime)
    requires CheckedManifest(fields) == Success(header)
    requires s.position == |before|
    ensures var data := before + FieldRecord(name) + (header + after);
      var o := ManifestVersion(data, s, rt);
      var full := ManifestFull(data, s, rt);
      o.result == full.result &&
      o.state.entries == full.state.entries &&
      (o.result.Success? ==>
        o.state.position == |before| + 4 + |name| + |header| &&
        o.state.tracked == s.tracked + [TrackedWithVersion(o.result.value, None)])
  {
    HeaderSkipped(before + FieldRecord(name), fields, header, after);
    VersionedReadsCountedRecords(before, name, |fields|, header, after, s, rt);
  }

  /**
   * The reader over a name record followed by `header`, given that the count byte of
   * `header` reads as `count` and that `count` records fill the rest of it.
   */
  lemma VersionedReadsCountedRecords(
    before: seq<byte>, name: ByteArray, count: nat, header: seq<byte>, after: seq<byte>, s: ReaderState, rt: Runtime)
    requires s.position == |before|
    requires var lead := before + FieldRecord(name);
      var data := lead + (header + after);
      |lead| < |data| && ReadByteAt(data, |lead|) == (count, |lead| + 1) &&
      SkipRecords(data, |lead| + 1, count) == Read(Success(()), |lead| + |header|)
    ensures var data := before + FieldRecord(name) + (header + after);
      var o := ManifestVersion(data, s, rt);
      var full := ManifestFull(data, s, rt);
      o.result == full.result &&
      o.state.entries == full.state.entries &&
      (o.result.Success? ==>
        o.state.position == |before| + 4 + |name| + |header| &&
        o.state.tracked == s.tracked + [TrackedWithVersion(o.result.value, None)])
  {
    var lead := before + FieldRecord(name);
    var data := lead + (header + after);
    NameRecordRead(before, name, header + after, s, rt);
    VersionedSkipsTo(data, s, rt, |lead| + |header|);
  }

  /**
   * Once the count byte and the records after a found name are skipped up to `end`, the
   * reader stops there and agrees with the full reader.
   */
  lemma VersionedSkipsTo(data: seq<byte>, s: ReaderState, rt: Runtime, end: nat)
    requires s.position <= |data|
    requires var named := ManifestName(data, s, rt);
      named.result.Success? ==>
        var (count, afterCount) := ReadByteAt(data, named.state.position);
        SkipRecords(data, afterCount, count) == Read(Success(()), end)
    ensures var o := ManifestVersion(data, s, rt);
      var full := ManifestFull(data, s, rt);
      o.result == full.result &&
      o.state.entries == full.state.entries &&
      (o.result.Success? ==>
        o.state.position == end &&
        o.state.tracked == s.tracked + [TrackedWithVersion(o.result.value, None)])
  {
  }

  /**
   * After any prefix, an encoded header yields its exact count and its records are skipped
   * to its end. The proof is direct; automatic induction is switched off because it only
   * adds solver cost.
   */
  lemma {:induction false} HeaderSkipped(lead: seq<byte>, fields: seq<ByteArray>, header: seq<byte>, after: seq<byte>)
    requires CheckedManifest(fields) == Success(header)
    ensures var data := lead + (header + after);
      |lead| < |data| &&
      ReadByteAt(data, |lead|) == (|fields|, |lead| + 1) &&
      SkipRecords(data, |lead| + 1, |fields|) == Read(Success(()), |lead| + |header|)
  {
    var data := lead + (header + after);
    var prefix := lead + [header[0]];
    assert header == [header[0]] + FieldRecords(fields);
    assert data == prefix + FieldRecords(fields) + after;
    SkipFieldRecords(prefix, fields, after);
  }

  /** At the end of the stream the count read is -1, so no field record is read. */
  lemma VersionedAtEndOfStream(before: seq<byte>, name: ByteArray, s: ReaderState, rt: Runtime)
    requires s.position == |before|
    ensures var data := before + FieldRecord(name);
      var o := ManifestVersion(data, s, rt);
      o.result == ManifestName(data, s, rt).result &&
      o.state.position == |data| &&
      (o.result.Success? ==> o.state.tracked == s.tracked + [TrackedWithVersion(o.result.value, None)])
  {
    var data := before + FieldRecord(name);
    NameRecordRead(before, name, [], s, rt);
    assert data == before + FieldRecord(name) + [];
  }

  /**
   * The source as written: with 256 fields the `(byte)` cast writes a count of 0, so the
   * version-tolerant reader stops one byte after the name, inside the header.
   */
  lemma TruncatedFieldCountDesynchronises(
    before: seq<byte>, name: ByteArray, fields: seq<ByteArray>, after: seq<byte>, s: ReaderState, rt: Runtime)
    requires |fields| == 0x100
    requires s.position == |before|
    requires GetOrAddSpec(s.entries, name, rt).result.Success?
    ensures var data := before + FieldRecord(name) + ManifestBytes(fields) + after;
      var o := ManifestVersion(data, s, rt);
      o.result.Success? &&
      o.state.position == |before| + 4 + |name| + 1 &&
      o.state.position < |before| + 4 + |name| + |ManifestBytes(fields)|
  {
    var data := before + FieldRecord(name) + ManifestBytes(fields) + after;
    NameRecordRead(before, name, ManifestBytes(fields) + after, s, rt);
    assert data == before + FieldRecord(name) + (ManifestBytes(fields) + after);
    assert data[|before| + 4 + |name|] == ManifestBytes(fields)[0] == 0;
    ManifestLength(fields);
    assert fields == [fields[0]] + fields[1..];
  }

  /**
   * Ids are assigned in first-seen order: a type read in full mode is found again by an
   * indexed reference to the next id.
   */
  lemma FullThenIndex(before: seq<byte>, name: ByteArray, after: seq<byte>, s: ReaderState, rt: Runtime)
    requires s.position == |before|
    requires |s.tracked| < 0x1_0000
    ensures var data := before + FieldRecord(name) + UInt16ToBytes(|s.tracked|) + after;
      var full := ManifestFull(data, s, rt);
      full.result.Success? ==>
        ManifestIndex(data, full.state.position, full.state.tracked) ==
        Read(full.result, full.state.position + 2)
  {
    var id := UInt16ToBytes(|s.tracked|);
    var data := before + FieldRecord(name) + id + after;
    NameRecordRead(before, name, id + after, s, rt);
    assert data == before + FieldRecord(name) + (id + after);
    var at := |before| + 4 + |name|;
    assert data[at..at + 2] == id;
  }

  /** An indexed reference before any type has been tracked fails. */
  lemma IndexBeforeRegistrationFails(data: seq<byte>, pos: nat)
    requires pos <= |data|
    ensures ManifestIndex(data, pos, []).result.Failure?
    ensures pos + 2 <= |data| ==>
      ManifestIndex(data, pos, []).result == Failure(TypeIdOutOfRange(BytesToUInt16(data[pos..pos + 2])))
  {
  }

  /**
   * Reading the same name twice in full mode gives the same type; the second read is a
   * cache hit that leaves the cache as the first read left it. Every call tracks the type.
   */
  lemma FullTwiceSameType(before: seq<byte>, name: ByteArray, after: seq<byte>, s: ReaderState, rt: Runtime)
    requires s.position == |before|
    ensures var data := before + FieldRecord(name) + FieldRecord(name) + after;
      var first := ManifestFull(data, s, rt);
      var second := ManifestFull(data, first.state, rt);
      first.result.Success? ==>
        second.result == first.result &&
        second.state.entries == first.state.entries &&
        second.state.tracked == s.tracked + [Tracked(first.result.value), Tracked(first.result.value)]
  {
    var data := before + FieldRecord(name) + FieldRecord(name) + after;
    NameRecordRead(before, name, FieldRecord(name) + after, s, rt);
    assert data == before + FieldRecord(name) + (FieldRecord(name) + after);
    var first := ManifestFull(data, s, rt);
    if first.result.Success? {
      NameRecordRead(before + FieldRecord(name), name, after, first.state, rt);
    }
  }

  /**
   * End to end: a name the encoder compressed, written as one record and read in full
   * mode through a consistent cache, resolves to what the runtime finds for the original
   * assembly-qualified name, and leaves the cache consistent.
   */
  lemma FullResolvesCompressedName(
    before: seq<byte>, name: ByteArray, after: seq<byte>, assemblyQualifiedName: string, s: ReaderState, rt: Runtime)
    requires s.position == |before|
    requires ValidCoreAssemblyName(rt.coreAssemblyName)
    requires rt.fromUtf8(name) == GetShortAssemblyQualifiedName(rt.coreAssemblyName, assemblyQualifiedName)
    requires !Contains(assemblyQualifiedName, CorePlaceholder)
    requires CleanOutsideCore(rt.coreAssemblyName, assemblyQualifiedName)
    requires Consistent(s.entries, rt)
    ensures var full := ManifestFull(before + FieldRecord(name) + after, s, rt);
      Consistent(full.state.entries, rt) &&
      (full.result.Success? <==> rt.getType(assemblyQualifiedName).Some?) &&
      (full.result.Success? ==> rt.getType(assemblyQualifiedName) == Some(full.result.value))
  {
    NameRecordRead(before, name, after, s, rt);
    GetOrAddTransparent(s.entries, name, rt);
    CompressionRoundTrip(rt.coreAssemblyName, assemblyQualifiedName);
  }

  /**
   * For any stream contents, the name reader keeps a consistent cache consistent, and a
   * type it returns is what the runtime gives for the expanded name it read.
   */
  lemma NameReaderKeepsCacheConsistent(data: seq<byte>, s: ReaderState, rt: Runtime)
    requires s.position <= |data|
    requires Consistent(s.entries, rt)
    ensures var o := ManifestName(data, s, rt);
      Consistent(o.state.entries, rt) &&
      (o.result.Success? ==>
        rt.getType(QualifiedNameOf(rt, data[s.position + 4..o.state.position])) == Some(o.result.value))
  {
    var read := ReadLengthEncodedAt(data, s.position);
    if read.result.Success? {
      GetOrAddTransparent(s.entries, read.result.value, rt);
    }
  }
}
