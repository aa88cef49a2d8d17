/**
 * `TypeNameLookup`: the process-wide cache from the bytes of a short type name to the
 * resolved type. Keys compare by content. On a miss the bytes are decoded as UTF-8, the
 * name is expanded and the runtime looks the type up; a failed lookup throws and adds
 * nothing.
 */
module TypeCache {
  import opened Wrappers
  import opened Errors
  import opened Bytes
  import opened TypeClassifiers
  import opened NameCompression

  /**
   * What the running process provides: the core-runtime qualifier suffix, UTF-8 decoding
   * (`StringEx.FromUtf8Bytes`) and `Type.GetType(name, true)`, `None` standing for the throw.
   */
  datatype Runtime = Runtime(
    coreAssemblyName: string,
    fromUtf8: seq<byte> -> string,
    getType: string -> Option<TypeHandle>)

  /** The name a cache miss hands to the runtime lookup. */
  function QualifiedNameOf(rt: Runtime, key: seq<byte>): string {
    ToQualifiedAssemblyName(rt.coreAssemblyName, rt.fromUtf8(key))
  }

  /** No key that was present has lost its entry or changed its type. */
  predicate Extends(before: map<seq<byte>, TypeHandle>, after: map<seq<byte>, TypeHandle>) {
    forall k | k in before :: k in after && after[k] == before[k]
  }

  datatype Lookup = Lookup(result: Result<TypeHandle, Error>, entries: map<seq<byte>, TypeHandle>)

  /**
   * `GetOrAdd` with the resolving factory: a present key answers from the cache; a miss
   * adds the resolved type under the key; a failed resolution propagates and adds nothing.
   */
  function GetOrAddSpec(entries: map<seq<byte>, TypeHandle>, key: seq<byte>, rt: Runtime): (r: Lookup)
    ensures Extends(entries, r.entries)
    ensures r.entries.Keys <= entries.Keys + {key}
    ensures r.result.Success? ==> key in r.entries && r.entries[key] == r.result.value
    ensures r.result.Failure? ==> r.entries == entries && r.result.error == TypeLoad(QualifiedNameOf(rt, key))
    ensures key in entries ==> r == Lookup(Success(entries[key]), entries)
    ensures key !in entries ==> r.result.Success? == rt.getType(QualifiedNameOf(rt, key)).Some?
    ensures key !in entries && r.result.Success? ==> rt.getType(QualifiedNameOf(rt, key)) == Some(r.result.value)
  {
    if key in entries then Lookup(Success(entries[key]), entries)
    else
      var name := QualifiedNameOf(rt, key);
      match rt.getType(name)
      case None => Lookup(Failure(TypeLoad(name)), entries)
      case Some(t) => Lookup(Success(t), entries[key := t])
  }

  /** A hit is answered without the runtime: any two runtimes give the same answer and the same cache. */
  lemma CacheHitIgnoresRuntime(entries: map<seq<byte>, TypeHandle>, key: seq<byte>, rt1: Runtime, rt2: Runtime)
    requires key in entries
    ensures GetOrAddSpec(entries, key, rt1) == GetOrAddSpec(entries, key, rt2)
    ensures GetOrAddSpec(entries, key, rt1) == Lookup(Success(entries[key]), entries)
  {
  }

  /** Every cached entry is what the runtime lookup gives for its expanded name. */
  predicate Consistent(entries: map<seq<byte>, TypeHandle>, rt: Runtime) {
    forall k | k in entries :: rt.getType(QualifiedNameOf(rt, k)) == Some(entries[k])
  }

  /**
   * Caching is transparent: from a consistent cache, a lookup answers exactly what the
   * runtime lookup of the expanded name answers, and leaves the cache consistent.
   */
  lemma GetOrAddTransparent(entries: map<seq<byte>, TypeHandle>, key: seq<byte>, rt: Runtime)
    requires Consistent(entries, rt)
    ensures var r := GetOrAddSpec(entries, key, rt);
      Consistent(r.entries, rt) &&
      (r.result.Success? <==> rt.getType(QualifiedNameOf(rt, key)).Some?) &&
      (r.result.Success? ==> rt.getType(QualifiedNameOf(rt, key)) == Some(r.result.value))
  {
    var r := GetOrAddSpec(entries, key, rt);
    if key !in entries && r.result.Success? {
      forall k | k in r.entries
        ensures rt.getType(QualifiedNameOf(rt, k)) == Some(r.entries[k])
      {
        if k != key {
          assert k in entries;
        }
      }
    }
  }

  /** Two independent caches, each consistent, resolve equal name bytes to the same type. */
  lemma IndependentCachesAgree(
    entries1: map<seq<byte>, TypeHandle>, entries2: map<seq<byte>, TypeHandle>, key: seq<byte>, rt: Runtime)
    requires Consistent(entries1, rt) && Consistent(entries2, rt)
    ensures GetOrAddSpec(entries1, key, rt).result == GetOrAddSpec(entries2, key, rt).result
  {
    GetOrAddTransparent(entries1, key, rt);
    GetOrAddTransparent(entries2, key, rt);
  }

  /** The shared, content-keyed name cache. */
  class TypeNameLookup {
    var entries: map<seq<byte>, TypeHandle>

    constructor ()
      ensures entries == map[]
    {
      entries := map[];
    }

    method GetOrAdd(key: seq<byte>, rt: Runtime) returns (r: Result<TypeHandle, Error>)
      modifies this
      ensures Lookup(r, entries) == GetOrAddSpec(old(entries), key, rt)
    {
      var lookup := GetOrAddSpec(entries, key, rt);
      r, entries := lookup.result, lookup.entries;
    }
  }
}
