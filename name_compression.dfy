/**
 * The name compressor of `TypeEx`: the core-runtime qualifier suffix of an
 * assembly-qualified type name is replaced by a placeholder and three default
 * fragments are dropped; expansion puts the suffix back.
 */
module NameCompression {
  import opened Wrappers
  import opened Strings

  const VersionMarker: string := ", Version"
  const CorePlaceholder: string := ",%core%"
  const CultureNeutral: string := ", Culture=neutral"
  const NullPublicKeyToken: string := ", PublicKeyToken=null"
  const DefaultVersion: string := ", Version=1.0.0.0"

  /** What the static initialiser guarantees of the cached core suffix: it starts with ", Version". */
  predicate ValidCoreAssemblyName(core: string) {
    |core| >= |VersionMarker| && core[..|VersionMarker|] == VersionMarker
  }

  /**
   * `GetCoreAssemblyName`, given the assembly-qualified name of `int`: the part from the
   * first ", Version" on. Without one, `Substring(-1)` throws.
   */
  function CoreAssemblyNameOf(intTypeName: string): (core: Option<string>)
    ensures core.None? <==> !Contains(intTypeName, VersionMarker)
    ensures core.Some? ==> ValidCoreAssemblyName(core.value)
    ensures core.Some? ==> |core.value| <= |intTypeName| &&
                           intTypeName[|intTypeName| - |core.value|..] == core.value
    ensures core.Some? ==> forall j: nat :: j < |intTypeName| - |core.value| ==> !OccursAt(intTypeName, VersionMarker, j)
  {
    var i := IndexOf(intTypeName, VersionMarker);
    if i < 0 then None else Some(intTypeName[i..])
  }

  /**
   * `GetShortAssemblyQualifiedName`, applied to the type's assembly-qualified name. A name
   * holding neither the core suffix nor any of the three dropped fragments is kept as is.
   */
  function GetShortAssemblyQualifiedName(core: string, assemblyQualifiedName: string): (shortName: string)
    requires ValidCoreAssemblyName(core)
    ensures !Contains(assemblyQualifiedName, core) && !Contains(assemblyQualifiedName, CultureNeutral) &&
            !Contains(assemblyQualifiedName, NullPublicKeyToken) && !Contains(assemblyQualifiedName, DefaultVersion)
            ==> shortName == assemblyQualifiedName
  {
    var name := assemblyQualifiedName;
    var withPlaceholder := Replace(name, core, CorePlaceholder);
    var noCulture := Replace(withPlaceholder, CultureNeutral, "");
    var noKeyToken := Replace(noCulture, NullPublicKeyToken, "");
    var shortName := Replace(noKeyToken, DefaultVersion, "");
    assert (!Contains(name, core) && !Contains(name, CultureNeutral) &&
            !Contains(name, NullPublicKeyToken) && !Contains(name, DefaultVersion)) ==> shortName == name by {
      if !Contains(name, core) && !Contains(name, CultureNeutral) &&
         !Contains(name, NullPublicKeyToken) && !Contains(name, DefaultVersion) {
        ReplaceAbsent(name, core, CorePlaceholder);
        ReplaceAbsent(name, CultureNeutral, "");
        ReplaceAbsent(name, NullPublicKeyToken, "");
        ReplaceAbsent(name, DefaultVersion, "");
      }
    }
    shortName
  }

  /**
   * `ToQualifiedAssemblyName`: every placeholder becomes the core suffix again, so a name
   * holding no placeholder is expanded to itself.
   */
  function ToQualifiedAssemblyName(core: string, shortName: string): (name: string)
    ensures !Contains(shortName, CorePlaceholder) ==> name == shortName
  {
    var name := Replace(shortName, CorePlaceholder, core);
    assert !Contains(shortName, CorePlaceholder) ==> name == shortName by {
      if !Contains(shortName, CorePlaceholder) {
        ReplaceAbsent(shortName, CorePlaceholder, core);
      }
    }
    name
  }

  /**
   * Where the core substitution produced a comma-free prefix it copied that prefix from
   * its input: a placeholder it inserts starts with a comma.
   */
  lemma {:induction false} SubstitutionCopiesCommaFreePrefix(s: string, core: string, k: nat)
    requires core != ""
    requires k <= |Replace(s, core, CorePlaceholder)|
    requires forall j | 0 <= j < k :: Replace(s, core, CorePlaceholder)[j] != ','
    ensures k <= |s| && s[..k] == Replace(s, core, CorePlaceholder)[..k]
    decreases |s|
  {
    var x := Replace(s, core, CorePlaceholder);
    if |s| < |core| {
    } else if s[..|core|] == core {
      assert x[0] == ',';
    } else if k > 0 {
      var x' := Replace(s[1..], core, CorePlaceholder);
      assert x == [s[0]] + x';
      forall j | 0 <= j < k - 1
        ensures x'[j] != ','
      {
        assert x'[j] == x[j + 1];
      }
      SubstitutionCopiesCommaFreePrefix(s[1..], core, k - 1);
      assert s[..k] == [s[0]] + s[1..][..k - 1];
      assert x[..k] == [s[0]] + x'[..k - 1];
    }
  }

  /**
   * A placeholder at the head of the substituted name that the substitution did not
   * insert there was copied from the name itself.
   */
  lemma PlaceholderNotInserted(s: string, core: string)
    requires core != ""
    requires |s| >= |core| && s[..|core|] != core
    requires |Replace(s, core, CorePlaceholder)| >= |CorePlaceholder|
    requires Replace(s, core, CorePlaceholder)[..|CorePlaceholder|] == CorePlaceholder
    ensures OccursAt(s, CorePlaceholder, 0)
  {
    var t := CorePlaceholder;
    var x := Replace(s, core, t);
    var rest := Replace(s[1..], core, t);
    assert x == [s[0]] + rest;
    forall j | 0 <= j < |t| - 1
      ensures rest[j] != ','
    {
      assert rest[j] == x[j + 1] == t[j + 1];
    }
    SubstitutionCopiesCommaFreePrefix(s[1..], core, |t| - 1);
    assert s[..|t|] == [s[0]] + s[1..][..|t| - 1];
  }

  /**
   * Substituting the placeholder for the core suffix and expanding again gives back any
   * name that holds no placeholder of its own, whatever the (non-empty) suffix is.
   */
  lemma {:induction false} SubstitutionRoundTrip(s: string, core: string)
    requires core != ""
    requires !Contains(s, CorePlaceholder)
    ensures Replace(Replace(s, core, CorePlaceholder), CorePlaceholder, core) == s
    decreases |s|
  {
    var t := CorePlaceholder;
    var x := Replace(s, core, t);
    if |s| < |core| {
      ReplaceAbsent(s, t, core);
    } else if s[..|core|] == core {
      var rest := Replace(s[|core|..], core, t);
      assert x == t + rest;
      assert x[..|t|] == t && x[|t|..] == rest;
      ContainsDrop(s, t, |core|);
      SubstitutionRoundTrip(s[|core|..], core);
      assert s == core + s[|core|..];
    } else {
      var rest := Replace(s[1..], core, t);
      assert x == [s[0]] + rest;
      ContainsTail(s, t);
      SubstitutionRoundTrip(s[1..], core);
      if |x| < |t| {
        ReplaceAbsent(s[1..], t, core);
        assert [s[0]] + s[1..] == s;
      } else if x[..|t|] == t {
        PlaceholderNotInserted(s, core);
        assert false;
      } else {
        assert x[1..] == rest;
        assert [s[0]] + s[1..] == s;
      }
    }
  }

  /**
   * The name has none of the three dropped fragments outside its occurrences of the
   * core suffix (each occurrence standing in as the placeholder).
   */
  predicate CleanOutsideCore(core: string, name: string)
    requires core != ""
  {
    var withPlaceholder := Replace(name, core, CorePlaceholder);
    !Contains(withPlaceholder, CultureNeutral) &&
    !Contains(withPlaceholder, NullPublicKeyToken) &&
    !Contains(withPlaceholder, DefaultVersion)
  }

  /** Compression round trip: expanding the short name of a clean name gives the name back. */
  lemma CompressionRoundTrip(core: string, name: string)
    requires ValidCoreAssemblyName(core)
    requires !Contains(name, CorePlaceholder)
    requires CleanOutsideCore(core, name)
    ensures ToQualifiedAssemblyName(core, GetShortAssemblyQualifiedName(core, name)) == name
  {
    var withPlaceholder := Replace(name, core, CorePlaceholder);
    ReplaceAbsent(withPlaceholder, CultureNeutral, "");
    ReplaceAbsent(withPlaceholder, NullPublicKeyToken, "");
    ReplaceAbsent(withPlaceholder, DefaultVersion, "");
    SubstitutionRoundTrip(name, core);
  }

  /** The short name is never longer than the name: the core suffix is longer than the placeholder. */
  lemma CompressionNeverLengthens(core: string, name: string)
    requires ValidCoreAssemblyName(core)
    ensures |GetShortAssemblyQualifiedName(core, name)| <= |name|
  {
    var withPlaceholder := Replace(name, core, CorePlaceholder);
    var noCulture := Replace(withPlaceholder, CultureNeutral, "");
    var noKeyToken := Replace(noCulture, NullPublicKeyToken, "");
    ReplaceNotLonger(name, core, CorePlaceholder);
    ReplaceNotLonger(withPlaceholder, CultureNeutral, "");
    ReplaceNotLonger(noCulture, NullPublicKeyToken, "");
    ReplaceNotLonger(noKeyToken, DefaultVersion, "");
  }
}
