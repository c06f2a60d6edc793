/** The registration record that ties a collection class name to the JDK
    versions it applies to and the extractor that reads it.  Its three
    fields are final and checked for null on construction. */
module CollectionExtractionInfo {
  import opened Wrappers

  /** A JDK family.  The JdkVersion enumeration is not part of this model;
      a version is known by its constant's name. */
  datatype JdkVersion = JdkVersion(name: string)

  /** An extractor.  ICollectionExtractor is not part of this model; an
      extractor is known by an identity. */
  datatype Extractor = Extractor(id: int)

  /** The exceptions the constructors can raise. */
  datatype Error = IllegalArgument | NullPointer

  /** The constructed object.  The version set is kept in enumeration order,
      as an `EnumSet` iterates. */
  datatype Info = Info(className: string, version: seq<JdkVersion>, extractor: Extractor)

  /** The three-argument constructor: any null argument raises
      IllegalArgumentException, otherwise the fields are the arguments. */
  function New(className: Option<string>, version: Option<seq<JdkVersion>>, extractor: Option<Extractor>)
    : (r: Result<Info, Error>)
    ensures r.Success? <==> className.Some? && version.Some? && extractor.Some?
    ensures r.Success? ==> r.value == Info(className.value, version.value, extractor.value)
    ensures r.Failure? ==> r.error == IllegalArgument
  {
    if className.None? then Failure(IllegalArgument)
    else if version.None? then Failure(IllegalArgument)
    else if extractor.None? then Failure(IllegalArgument)
    else Success(Info(className.value, version.value, extractor.value))
  }

  /** The two-argument constructor: every JDK version.  `all` stands for
      `JdkVersion.ALL`. */
  function NewForAllVersions(className: Option<string>, extractor: Option<Extractor>, all: seq<JdkVersion>)
    : (r: Result<Info, Error>)
    ensures r.Success? <==> className.Some? && extractor.Some?
    ensures r.Success? ==> r.value.version == all && r.value.className == className.value
                           && r.value.extractor == extractor.value
  {
    New(className, Some(all), extractor)
  }

  /** The single-version constructor: `JdkVersion.of(version)`, a one-element
      set.  A null version fails inside `JdkVersion.of`, before the null
      checks, as `EnumSet.of` rejects null. */
  function NewForVersion(className: Option<string>, version: Option<JdkVersion>, extractor: Option<Extractor>)
    : (r: Result<Info, Error>)
    ensures version.None? ==> r == Failure(NullPointer)
    ensures version.Some? ==> (r.Success? <==> className.Some? && extractor.Some?)
    ensures r.Success? ==> r.value.version == [version.value]
  {
    if version.None? then Failure(NullPointer) else New(className, Some([version.value]), extractor)
  }

  function Join(parts: seq<string>, separator: string): string
  {
    if parts == [] then "" else if |parts| == 1 then parts[0] else parts[0] + separator + Join(parts[1..], separator)
  }

  /** `AbstractCollection.toString`: the elements between brackets,
      separated by ", ". */
  function VersionsText(versions: seq<JdkVersion>): string
  {
    "[" + Join(seq(|versions|, i requires 0 <= i < |versions| => versions[i].name), ", ") + "]"
  }

  const Prefix := "CollectionExtractionInfo for "
  const VersionsTag := " on versions:"

  function ToString(info: Info): string
  {
    Prefix + info.className + VersionsTag + VersionsText(info.version)
  }

  /** The debugging text names the class right after the prefix, then
      the version list in brackets. */
  lemma ToStringLayout(info: Info)
    ensures var s := ToString(info);
      var n := |Prefix| + |info.className|;
      |s| > n + |VersionsTag| &&
      s[..|Prefix|] == Prefix && s[|Prefix|..n] == info.className &&
      s[n..n + |VersionsTag|] == VersionsTag && s[n + |VersionsTag|] == '[' && s[|s| - 1] == ']'
  {
  }

  /** Constructing through the two-argument form and through the general
      form with `JdkVersion.ALL` give the same object. */
  lemma AllVersionsIsGeneralForm(className: string, extractor: Extractor, all: seq<JdkVersion>)
    ensures NewForAllVersions(Some(className), Some(extractor), all) == Success(Info(className, all, extractor))
  {
  }
}
