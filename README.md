# Wire type identity, modelled in Dafny

This project models the type-identity helpers of the Wire binary serializer
(`Wire/Extensions/TypeEx.cs`). These helpers decide how a .NET type is named on the
wire and how a deserializer turns those bytes back into a type:

- **Type classifiers.** `IsWirePrimitive`, `IsFixedSizeType`, `GetTypeSize`,
  `IsOneDimensionalArray` and `IsOneDimensionalPrimitiveArray`, over a `TypeHandle`
  datatype. It has the sixteen primitive kinds, `Array(elem, rank)` and `Other(name)`.
- **The version-tolerant manifest encoder** `GetTypeManifest`. It writes one count byte,
  then each field name as a 4-byte little-endian length followed by the name's bytes.
- **The name compressor.** `GetShortAssemblyQualifiedName` turns the core-runtime
  qualifier suffix into `,%core%` and drops three default fragments.
  `ToQualifiedAssemblyName` expands the placeholder again. `GetCoreAssemblyName`
  computes that suffix from the name of `int`. String `Replace` is .NET's ordinal,
  left-to-right, non-overlapping replacement over `seq<char>`.
- **The four manifest readers.** `GetTypeFromManifestName`, `Full`, `Version` and
  `Index` read from a byte stream with a cursor (a `Stream` class). They resolve names
  through the shared content-keyed name cache (a `TypeNameLookup` class over a `map`)
  and record types in the session's type table (a `DeserializerSession` class over a
  `seq`).

Each imperative operation is a method proved equal to a specification function of the
old state. The encoder is a `for` loop over the fields, and the version-tolerant reader
is a `while` loop over the stream. The properties are lemmas about those functions.
They cover the byte layout, the compression round trip, cache monotonicity and
transparency, how far each reader advances the cursor, and id assignment in the session.

The running process is a parameter, the `Runtime` datatype. It supplies the core
qualifier suffix, UTF-8 decoding as an uninterpreted function, and `Type.GetType(name,
true)` as a partial function, with `None` standing for the exception. Thrown exceptions
are `Failure` values of the `Errors.Error` datatype.

## Model

| member | source | states |
|---|---|---|
| TypeClassifiers.IsWirePrimitive | Wire/Extensions/TypeEx.cs:36-55 | A type is a wire primitive exactly when it is one of the sixteen scalar kinds, never an array or any other type. |
| TypeClassifiers.IsFixedSizeType | Wire/Extensions/TypeEx.cs:156-164 | Every fixed-size type (int, long, bool, ushort, uint, ulong) is also a wire primitive. |
| TypeClassifiers.GetTypeSize | Wire/Extensions/TypeEx.cs:166-182 | Returns normally exactly for the fixed-size types. The size is then the least number of bytes that holds every value of the type. Every other type fails with NotSupported. |
| TypeClassifiers.LeastWidthUnique | Wire/Extensions/TypeEx.cs:166-182 | The least width is unique, so GetTypeSize's contract determines each size. |
| TypeClassifiers.Pow256Monotonic | Wire/Extensions/TypeEx.cs:166-182 | Wider byte counts hold at least as many values: the helper fact behind LeastWidthUnique. |
| TypeClassifiers.GetTypeSizeTable | Wire/Extensions/TypeEx.cs:168-179 | The size table: int 4, long 8, bool 1, ushort 2, uint 4, ulong 8. |
| TypeClassifiers.IsOneDimensionalArray | Wire/Extensions/TypeEx.cs:79-82 | An array type of rank one. Such a type is never a wire primitive or a fixed-size type. |
| TypeClassifiers.IsOneDimensionalPrimitiveArray | Wire/Extensions/TypeEx.cs:79-87 | True exactly for a one-dimensional array whose element type is a wire primitive. |
| Bytes.Int32ToBytes | Wire/Extensions/TypeEx.cs:97 | The 4-byte little-endian two's-complement encoding of an int decodes back to the int. |
| Bytes.BytesToInt32Inverse | Wire/Extensions/TypeEx.cs:97 | Decoding four bytes and encoding the result gives the bytes back, so the layouts are inverse bijections. |
| Bytes.UInt16ToBytes | Wire/Extensions/TypeEx.cs:141 | A 16-bit id written low byte first is read back as the same id. |
| TypeManifest.FieldRecord | Wire/Extensions/TypeEx.cs:97-99 | One field record is 4 + length bytes long. Its first four bytes decode to the name's length and the rest is the name. |
| TypeManifest.GetTypeManifest | Wire/Extensions/TypeEx.cs:92-103 | The loop's result is the count byte, the field count modulo 256, followed by every field's record in input order. |
| TypeManifest.FieldRecordsAppend | Wire/Extensions/TypeEx.cs:95-100 | The records of a concatenated field list are the concatenation of the records. |
| TypeManifest.FieldRecordsCons | Wire/Extensions/TypeEx.cs:95-100 | The records start with the first field's record, followed by the records of the rest. |
| TypeManifest.FieldRecordsLength | Wire/Extensions/TypeEx.cs:95-100 | The records are as long as the sum of 4 plus the name length over the fields. |
| TypeManifest.ManifestLength | Wire/Extensions/TypeEx.cs:92-103 | The header's length is 1 plus the sum of 4 plus the name length over the fields. |
| TypeManifest.RecordPosition | Wire/Extensions/TypeEx.cs:95-100 | Field i's record follows the records of the fields before it and precedes those after it. |
| TypeManifest.RecordAt | Wire/Extensions/TypeEx.cs:97-100 | A record placed after any bytes is read back at the offset where it starts: its 4-byte length, then the name. |
| TypeManifest.ManifestLayout | Wire/Extensions/TypeEx.cs:92-103 | Byte 0 is the count modulo 256. Field i sits at offset 1 + the records before it, as its 4-byte length then its bytes. |
| TypeManifest.ManifestExamples | Wire/Extensions/TypeEx.cs:92-103 | No fields give [0]. The field "id" gives [1, 2, 0, 0, 0, 'i', 'd']. |
| TypeManifest.CheckedManifest | Wire/Extensions/TypeEx.cs:94 | The corrected encoder refuses more than 255 fields. Otherwise byte 0 is the exact count and the rest are the records. |
| Strings.Replace | Wire/Extensions/TypeEx.cs:196-205 | .NET's ordinal, left-to-right, non-overlapping replacement of every occurrence. Replacing a value by itself changes nothing, and a same-length replacement keeps the length. Its partner lemmas are ReplaceAbsent and ReplaceNotLonger. |
| Strings.ReplaceAbsent | Wire/Extensions/TypeEx.cs:196-205 | Replacing a value that does not occur leaves the string unchanged. |
| Strings.ReplaceNotLonger | Wire/Extensions/TypeEx.cs:196-199 | Replacing by a value no longer than the old value never lengthens the string. |
| Strings.IndexOf | Wire/Extensions/TypeEx.cs:189 | Returns -1 exactly when the value does not occur. Otherwise it is the first position where the value occurs. |
| Strings.ContainsDrop | Wire/Extensions/TypeEx.cs:196-205 | A value absent from a string is absent from each of its suffixes. |
| NameCompression.CoreAssemblyNameOf | Wire/Extensions/TypeEx.cs:186-191 | The core suffix is the part of int's name from the first ", Version" on. It starts with ", Version", is a suffix of the name, and no earlier position of the name holds ", Version". Without a marker it fails, where Substring throws. |
| NameCompression.GetShortAssemblyQualifiedName | Wire/Extensions/TypeEx.cs:193-201 | Substitutes the placeholder for the core suffix, then drops the three default fragments. A name holding neither the suffix nor any fragment is kept unchanged. Its partner is ToQualifiedAssemblyName, through CompressionRoundTrip. |
| NameCompression.ToQualifiedAssemblyName | Wire/Extensions/TypeEx.cs:203-207 | Turns every placeholder back into the core suffix. It leaves any string without ",%core%" unchanged, and it inverts the compression (CompressionRoundTrip). |
| NameCompression.SubstitutionCopiesCommaFreePrefix | Wire/Extensions/TypeEx.cs:196 | A comma-free prefix of the substituted name is copied from the original, because each inserted placeholder starts with a comma. |
| NameCompression.PlaceholderNotInserted | Wire/Extensions/TypeEx.cs:196 | If the substituted name starts with the placeholder but the name does not start with the core suffix, the placeholder was already in the name. |
| NameCompression.SubstitutionRoundTrip | Wire/Extensions/TypeEx.cs:193-207 | Substituting the placeholder for any non-empty suffix and expanding again gives back every name that holds no placeholder of its own. |
| NameCompression.CompressionRoundTrip | Wire/Extensions/TypeEx.cs:193-207 | A name with no ",%core%" and none of the three dropped fragments outside its core occurrences expands back to itself from its short name. |
| NameCompression.CompressionNeverLengthens | Wire/Extensions/TypeEx.cs:193-201 | A short name is never longer than the name it came from. |
| WireStream.ReadByteAt | Wire/Extensions/TypeEx.cs:128 | Returns -1 exactly at the end of the stream, without moving. Otherwise it returns the next byte and advances one. |
| WireStream.ReadUInt16At | Wire/Extensions/TypeEx.cs:141 | Succeeds exactly when two bytes remain, advances by two, and returns the id whose low-byte-first encoding is those bytes. |
| WireStream.ReadLengthEncodedAt | Wire/Extensions/TypeEx.cs:107 | A successful read consumes exactly one record as the encoder writes it and returns its name bytes. |
| WireStream.ReadRecord | Wire/Extensions/TypeEx.cs:97-107 | A record the encoder wrote is read back as the same name, and the cursor lands right after it. |
| WireStream.ReadRecordAt | Wire/Extensions/TypeEx.cs:97-107 | The same holds for a record anywhere in a stream. |
| WireStream.SkipRecords | Wire/Extensions/TypeEx.cs:129-133 | Reads and discards count records; a count of zero or less (the -1 at the end of the stream) reads none. The cursor never moves back or past the end. Its partner lemma is SkipFieldRecords. |
| WireStream.SkipFieldRecords | Wire/Extensions/TypeEx.cs:129-133 | Skipping the records of an encoded field list lands exactly after them, whatever the names. |
| WireStream.Stream.ReadByte | Wire/Extensions/TypeEx.cs:128 | Returns the next byte and advances one, or returns -1 at the end of the stream without moving. |
| WireStream.Stream.ReadUInt16 | Wire/Extensions/TypeEx.cs:141 | Agrees with ReadUInt16At on the old cursor. |
| WireStream.Stream.ReadLengthEncodedByteArray | Wire/Extensions/TypeEx.cs:107 | Agrees with ReadLengthEncodedAt on the old cursor. |
| Session.TypeFromTypeId | Wire/Extensions/TypeEx.cs:142 | Succeeds exactly for ids below the number of tracked types, with the type tracked at that position. Otherwise it fails with TypeIdOutOfRange. |
| Session.TrackingAssignsNextId | Wire/Extensions/TypeEx.cs:117-144 | A newly tracked type gets the next id, and every earlier id still names the same type. |
| Session.DeserializerSession.TrackDeserializedType | Wire/Extensions/TypeEx.cs:120 | Appends the type to the table. |
| Session.DeserializerSession.TrackDeserializedTypeWithVersion | Wire/Extensions/TypeEx.cs:135 | Appends the type with its field metadata to the table. |
| Session.DeserializerSession.GetTypeFromTypeId | Wire/Extensions/TypeEx.cs:142 | Agrees with TypeFromTypeId on the current table and changes nothing. |
| TypeCache.GetOrAddSpec | Wire/Extensions/TypeEx.cs:109-114 | A present key is answered with its cached type and leaves the cache unchanged. No present key loses or changes its type, and only the looked-up key can be added. A success maps the key to the result. A failure adds nothing and reports the expanded name. On a miss it succeeds exactly when the runtime finds the expanded name, and then returns the type the runtime found. |
| TypeCache.CacheHitIgnoresRuntime | Wire/Extensions/TypeEx.cs:109 | A key already present is answered from the cache whatever the runtime does, and the cache is left unchanged. |
| TypeCache.GetOrAddTransparent | Wire/Extensions/TypeEx.cs:109-114 | From a consistent cache, a lookup answers exactly what the runtime answers for the expanded name, and the cache stays consistent. |
| TypeCache.IndependentCachesAgree | Wire/Extensions/TypeEx.cs:109-114 | Two consistent caches resolve equal name bytes to the same type. |
| TypeCache.TypeNameLookup.GetOrAdd | Wire/Extensions/TypeEx.cs:109-114 | Agrees with GetOrAddSpec on the old entries. |
| TypeResolver.ManifestName | Wire/Extensions/TypeEx.cs:105-115 | The cursor only moves forward, the session is untouched and the cache only grows. On success the name bytes read are cached with the returned type. |
| TypeResolver.ManifestFull | Wire/Extensions/TypeEx.cs:117-122 | Returns the name lookup's result at the same cursor with the same cache, and on success tracks that type once per call. |
| TypeResolver.ManifestVersion | Wire/Extensions/TypeEx.cs:124-137 | Leaves the cache as the name lookup left it and moves no further back than it. A failed name lookup is returned as is. A success returns the named type and tracks it with null metadata. A failure tracks nothing. |
| TypeResolver.ManifestIndex | Wire/Extensions/TypeEx.cs:139-144 | With two bytes left it advances two and returns the session lookup of the id they encode. Otherwise it fails with EndOfStream. |
| TypeResolver.GetTypeFromManifestName | Wire/Extensions/TypeEx.cs:105-115 | Result, cursor and cache agree with ManifestName on the old state. |
| TypeResolver.GetTypeFromManifestFull | Wire/Extensions/TypeEx.cs:117-122 | Result, cursor, cache and session agree with ManifestFull on the old state. |
| TypeResolver.GetTypeFromManifestVersion | Wire/Extensions/TypeEx.cs:124-137 | Result, cursor, cache and session agree with ManifestVersion on the old state. The loop reads the counted records. |
| TypeResolver.GetTypeFromManifestIndex | Wire/Extensions/TypeEx.cs:139-144 | Result and cursor agree with ManifestIndex. Only the stream is modified, so neither the cache nor the session changes. |
| ResolverLemmas.NameRecordRead | Wire/Extensions/TypeEx.cs:105-115 | Over an encoded record, the name reader returns the cache lookup of exactly that name and stops after the record. |
| ResolverLemmas.VersionedReadsWholeHeader | Wire/Extensions/TypeEx.cs:124-137 | Over a name record and an encoded header of at most 255 fields, the reader stops exactly after the header, whatever the field names. It returns what Full mode returns, with the same cache, and tracks the type with null metadata. |
| ResolverLemmas.VersionedReadsCountedRecords | Wire/Extensions/TypeEx.cs:124-137 | When the count byte after a name record reads as n and n records fill the rest of the header, the reader stops at the header's end. It agrees with Full mode on result and cache. |
| ResolverLemmas.VersionedSkipsTo | Wire/Extensions/TypeEx.cs:124-137 | For any stream contents, once the records after a found name are skipped up to some offset, the reader stops there and agrees with Full mode. |
| ResolverLemmas.HeaderSkipped | Wire/Extensions/TypeEx.cs:92-103 | After any prefix, an encoded header's count byte reads as its field count, and skipping that many records ends exactly at the header's end. |
| ResolverLemmas.VersionedAtEndOfStream | Wire/Extensions/TypeEx.cs:128-129 | When the name record ends the stream, the count read is -1 and no field is read. The reader returns the named type and stops at the end. |
| ResolverLemmas.TruncatedFieldCountDesynchronises | Wire/Extensions/TypeEx.cs:92-137 | With 256 fields as written, the reader stops one byte after the name, inside the header. |
| ResolverLemmas.FullThenIndex | Wire/Extensions/TypeEx.cs:117-144 | A type read in full mode is found again by an indexed reference to the next id. |
| ResolverLemmas.IndexBeforeRegistrationFails | Wire/Extensions/TypeEx.cs:139-144 | An indexed reference fails while no type is tracked. |
| ResolverLemmas.FullTwiceSameType | Wire/Extensions/TypeEx.cs:105-122 | Reading the same name twice gives the same type. The second read hits the cache and leaves it unchanged, and each read tracks the type. |
| ResolverLemmas.FullResolvesCompressedName | Wire/Extensions/TypeEx.cs:105-122 | A compressed name read in full mode through a consistent cache resolves to what the runtime gives for the original name. The cache stays consistent. |
| ResolverLemmas.NameReaderKeepsCacheConsistent | Wire/Extensions/TypeEx.cs:105-115 | For any stream contents, the name reader keeps a consistent cache consistent. It returns what the runtime gives for the expanded name it read. |

## Left out

- `GetEmptyObject` and its uninitialised-object reflection delegate: these allocate through runtime reflection, so there is nothing to state about them.
- `IsNullable` and `GetNullableElement`: thin reflection calls, and `TypeHandle` has no case for generic types.
- The static `Type` fields: they become the constructors of `TypeHandle`.
- `Type.GetType`, `StringEx.FromUtf8Bytes` and the runtime's own core qualifier string: these depend on the running runtime. They are fields of the `Runtime` parameter, with no properties assumed beyond the ", Version" prefix of the core string.
- Thread safety of the concurrent dictionary: the cache is a sequential map, and a factory racing with a concurrent insert is not modelled.
- The stream extension readers and `DeserializerSession` are defined outside TypeEx.cs, in Wire's stream extensions and session class. `ReadLengthEncodedByteArray` is taken to read a 4-byte little-endian `int` length and then that many bytes, matching what `GetTypeManifest` writes. The cursor position after a failed read (the end of the data, or just past a negative length) is an assumption too. Of the session, only an append-only type table is modelled.
- `BitConverter` endianness: fixed to little-endian.
- `GetTypeFromManifestName` passes the session to the stream reader, which does not use it here, so the session parameter has no effect in the model.
- `TypeResolver.ManifestFull`: a reading of full mode as tracking each type once does not hold for the code, which calls `TrackDeserializedType` on every full-mode read, so the model appends once per call, as `FullTwiceSameType` shows.
- `NameCompression.GetShortAssemblyQualifiedName`: the compression is proved for arbitrary names, not evaluated on concrete assembly-qualified names.
- `Strings.Replace` requires a non-empty old value, where .NET throws. Every call in the source passes a non-empty constant or the core suffix, which starts with ", Version".

## Findings

| source | as written | input that shows it | evidently intended | confidence | as-written member | corrected member |
|---|---|---|---|---|---|---|
| Wire/Extensions/TypeEx.cs:94 | The field count is written as `(byte)fieldNames.Count`, which silently drops everything above the low 8 bits. | A type with 256 field names: the header starts with the count byte 0, so the version-tolerant reader reads no field records and stops inside the header. | A count that round-trips: field lists longer than one byte can count are refused, never truncated. | not executed | ResolverLemmas.TruncatedFieldCountDesynchronises | TypeManifest.CheckedManifest (with ResolverLemmas.VersionedReadsWholeHeader) |
