/**
 * The four readers of a type reference: by name (shared), full, version-tolerant and
 * indexed. Each reader method is tied to a function of the stream contents, the old
 * cursor, the old cache and the old session table. The properties of those functions
 * are in `ResolverLemmas`.
 */
module TypeResolver {
  import opened Wrappers
  import opened Errors
  import opened Bytes
  import opened Strings
  import opened NameCompression
  import opened TypeClassifiers
  import opened TypeManifest
  import opened WireStream
  import opened Session
  import opened TypeCache

  /** The state a reader sees and changes: cursor, name cache and session type table. */
  datatype ReaderState = ReaderState(
    position: nat,
    entries: map<seq<byte>, TypeHandle>,
    tracked: seq<TrackedType>)

  datatype Outcome = Outcome(result: Result<TypeHandle, Error>, state: ReaderState)

  /**
   * `GetTypeFromManifestName`: one length-prefixed name is read and resolved through the
   * cache. On success the name's bytes are cached with the returned type; the session is
   * never touched and no cached entry changes.
   */
  function ManifestName(data: seq<byte>, s: ReaderState, rt: Runtime): (o: Outcome)
    requires s.position <= |data|
    ensures s.position <= o.state.position <= |data|
    ensures o.state.tracked == s.tracked
    ensures Extends(s.entries, o.state.entries)
    ensures o.result.Success? ==>
      s.position + 4 <= o.state.position &&
      data[s.position + 4..o.state.position] in o.state.entries &&
      o.state.entries[data[s.position + 4..o.state.position]] == o.result.value
  {
    var read := ReadLengthEncodedAt(data, s.position);
    match read.result
    case Failure(e) => Outcome(Failure(e), s.(position := read.pos))
    case Success(bytes) =>
      var lookup := GetOrAddSpec(s.entries, bytes, rt);
      Outcome(lookup.result, s.(position := read.pos, entries := lookup.entries))
  }

  /**
   * `GetTypeFromManifestFull`: the type the name lookup returns, tracked once in the
   * session per call.
   */
  function ManifestFull(data: seq<byte>, s: ReaderState, rt: Runtime): (o: Outcome)
    requires s.position <= |data|
    ensures var named := ManifestName(data, s, rt);
      o.result == named.result &&
      o.state.position == named.state.position &&
      o.state.entries == named.state.entries &&
      o.state.tracked == if o.result.Success? then s.tracked + [Tracked(o.result.value)] else s.tracked
  {
    var named := ManifestName(data, s, rt);
    if named.result.Failure? then named
    else named.(state := named.state.(tracked := named.state.tracked + [Tracked(named.result.value)]))
  }

  /**
   * `GetTypeFromManifestVersion`: after the name, one count byte (-1 at the end of the
   * stream, so no field), then that many field records read and discarded. A success
   * returns the type of the name lookup and tracks it with null field metadata.
   */
  function ManifestVersion(data: seq<byte>, s: ReaderState, rt: Runtime): (o: Outcome)
    requires s.position <= |data|
    ensures var named := ManifestName(data, s, rt);
      o.state.entries == named.state.entries &&
      named.state.position <= o.state.position <= |data| &&
      (named.result.Failure? ==> o == named) &&
      (o.result.Success? ==> o.result == named.result &&
                             o.state.tracked == s.tracked + [TrackedWithVersion(o.result.value, None)]) &&
      (o.result.Failure? ==> o.state.tracked == s.tracked)
  {
    var named := ManifestName(data, s, rt);
    if named.result.Failure? then named
    else
      var (fieldCount, afterCount) := ReadByteAt(data, named.state.position);
      var skipped := SkipRecords(data, afterCount, fieldCount);
      var moved := named.state.(position := skipped.pos);
      if skipped.result.Failure? then Outcome(Failure(skipped.result.error), moved)
      else Outcome(named.result, moved.(tracked := moved.tracked + [TrackedWithVersion(named.result.value, None)]))
  }

  /**
   * `GetTypeFromManifestIndex`: a 16-bit id, looked up in the session table. Neither the
   * name cache nor the table takes part in anything but that lookup.
   */
  function ManifestIndex(data: seq<byte>, pos: nat, tracked: seq<TrackedType>): (r: Read<TypeHandle>)
    requires pos <= |data|
    ensures pos <= r.pos <= |data|
    ensures pos + 2 <= |data| ==>
      r.pos == pos + 2 && r.result == TypeFromTypeId(tracked, BytesToUInt16(data[pos..pos + 2]))
    ensures pos + 2 > |data| ==> r.result == Failure(EndOfStream)
  {
    var read := ReadUInt16At(data, pos);
    match read.result
    case Failure(e) => Read(Failure(e), read.pos)
    case Success(typeId) => Read(TypeFromTypeId(tracked, typeId), read.pos)
  }

  method GetTypeFromManifestName(stream: Stream, session: DeserializerSession, lookup: TypeNameLookup, rt: Runtime)
    returns (r: Result<TypeHandle, Error>)
    requires stream.Valid()
    modifies stream, lookup
    ensures stream.Valid()
    ensures Outcome(r, ReaderState(stream.position, lookup.entries, session.tracked)) ==
            ManifestName(stream.data, ReaderState(old(stream.position), old(lookup.entries), session.tracked), rt)
  {
    var bytes := stream.ReadLengthEncodedByteArray();
    if bytes.Failure? {
      r := Failure(bytes.error);
      return;
    }
    r := lookup.GetOrAdd(bytes.value, rt);
  }

  method GetTypeFromManifestFull(stream: Stream, session: DeserializerSession, lookup: TypeNameLookup, rt: Runtime)
    returns (r: Result<TypeHandle, Error>)
    requires stream.Valid()
    modifies stream, session, lookup
    ensures stream.Valid()
    ensures Outcome(r, ReaderState(stream.position, lookup.entries, session.tracked)) ==
            ManifestFull(stream.data, ReaderState(old(stream.position), old(lookup.entries), old(session.tracked)), rt)
  {
    r := GetTypeFromManifestName(stream, session, lookup, rt);
    if r.Failure? {
      return;
    }
    session.TrackDeserializedType(r.value);
  }

  method GetTypeFromManifestVersion(stream: Stream, session: DeserializerSession, lookup: TypeNameLookup, rt: Runtime)
    returns (r: Result<TypeHandle, Error>)
    requires stream.Valid()
    modifies stream, session, lookup
    ensures stream.Valid()
    ensures Outcome(r, ReaderState(stream.position, lookup.entries, session.tracked)) ==
            ManifestVersion(stream.data, ReaderState(old(stream.position), old(lookup.entries), old(session.tracked)), rt)
  {
    ghost var start := ReaderState(stream.position, lookup.entries, session.tracked);
    r := GetTypeFromManifestName(stream, session, lookup, rt);
    if r.Failure? {
      return;
    }
    ghost var named := ManifestName(stream.data, start, rt);
    assert named == Outcome(r, ReaderState(stream.position, lookup.entries, session.tracked));
    var t := r.value;
    var fieldCount := stream.ReadByte();
    ghost var afterCount := stream.position;
    ghost var skipped := SkipRecords(stream.data, afterCount, fieldCount);
    var i := 0;
    while i < fieldCount
      modifies stream
      invariant stream.Valid()
      invariant SkipRecords(stream.data, stream.position, fieldCount - i) == skipped
      decreases fieldCount - i
    {
      var fieldName := stream.ReadLengthEncodedByteArray();
      if fieldName.Failure? {
        r := Failure(fieldName.error);
        assert skipped == Read(Failure(fieldName.error), stream.position);
        assert ManifestVersion(stream.data, start, rt) ==
               Outcome(r, named.state.(position := stream.position));
        return;
      }
      i := i + 1;
    }
    assert skipped == Read(Success(()), stream.position);
    session.TrackDeserializedTypeWithVersion(t, None);
  }

  method GetTypeFromManifestIndex(stream: Stream, session: DeserializerSession) returns (r: Result<TypeHandle, Error>)
    requires stream.Valid()
    modifies stream
    ensures stream.Valid()
    ensures Read(r, stream.position) == ManifestIndex(stream.data, old(stream.position), session.tracked)
  {
    var typeId := stream.ReadUInt16();
    if typeId.Failure? {
      r := Failure(typeId.error);
      return;
    }
    r := session.GetTypeFromTypeId(typeId.value);
  }
}
