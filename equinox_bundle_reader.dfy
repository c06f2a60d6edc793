/** The reader that rebuilds the OSGi model of an Equinox runtime from a
    heap dump: bundle descriptors (cached by bundle id), their states and
    names, the service maps, fragment hosts and dependencies, and the
    linking of the extension registry. */
module EquinoxBundleReader {
  import opened Wrappers
  import opened Heap
  import opened Text

  datatype BundleType = Bundle | Fragment

  datatype BundleDescriptor =
    BundleDescriptor(objectId: int, bundleId: Option<int>, bundleName: Option<string>, state: string, bundleType: BundleType)

  /** A service: its identity, the bundle that registered it and the
      bundles using it (`None` for a null list). */
  datatype Service = Service(serviceId: int, contributedBy: BundleDescriptor, bundlesUsing: Option<seq<BundleDescriptor>>)

  datatype ExtensionPoint = ExtensionPoint(name: string, contributedBy: BundleDescriptor)

  /** An extension; `name` is the name of the extension point it extends. */
  datatype Extension = Extension(extensionId: int, name: string, contributedBy: BundleDescriptor)

  datatype ConfigurationElement = ConfigurationElement(elementId: int, parentId: int)

  /** The exceptions the reader lets escape: a null dereference, a failed
      cast, an address or object id the snapshot does not know, and
      cancellation. */
  datatype Error = NullPointer | ClassCast | UnknownObject | Canceled

  const FragmentClass := "org.eclipse.osgi.framework.internal.core.BundleFragment"

  // ---------------------------------------------------------------------
  // Duplicate-free multimaps
  // ---------------------------------------------------------------------

  predicate NoDuplicates<T(==)>(s: seq<T>) {
    forall i, j :: 0 <= i < j < |s| ==> s[i] != s[j]
  }

  predicate DuplicateFreeLists<K, V(==)>(m: map<K, seq<V>>) {
    forall k :: k in m ==> NoDuplicates(m[k])
  }

  /** `doUpdate`: add `v` to the list under `key`, creating a singleton list
      for a new key and leaving a list that already holds `v` alone. */
  function AddUnique<K, V(==)>(m: map<K, seq<V>>, key: K, v: V): (r: map<K, seq<V>>)
    ensures key in r && v in r[key]
    ensures key !in m ==> r[key] == [v]
    ensures key in m ==> m[key] <= r[key] && |r[key]| <= |m[key]| + 1
    ensures forall x :: x in r[key] ==> x == v || (key in m && x in m[key])
    ensures forall k :: k in m ==> k in r
    ensures forall k :: k in r && k != key ==> k in m
    ensures forall k :: k != key && k in m ==> r[k] == m[k]
    ensures DuplicateFreeLists(m) ==> DuplicateFreeLists(r)
  {
    if key !in m then m[key := [v]]
    else if v in m[key] then m
    else m[key := m[key] + [v]]
  }

  // ---------------------------------------------------------------------
  // Bundle states and names
  // ---------------------------------------------------------------------

  datatype BundleState = BundleState(name: string, value: int)

  /** The `BundleState` constants in declaration order. */
  const BundleStates: seq<BundleState> := [
    BundleState("active", 32), BundleState("installed", 2), BundleState("resolved", 4),
    BundleState("starting", 8), BundleState("stopping", 16), BundleState("uninstalled", 1)]

  /** The label of the first state in `states` whose value is `code`. */
  function LabelIn(states: seq<BundleState>, code: int): string
  {
    if states == [] then "N/A"
    else if states[0].value == code then states[0].name
    else LabelIn(states[1..], code)
  }

  function StateLabel(code: int): string {
    LabelIn(BundleStates, code)
  }

  lemma StateLabels()
    ensures StateLabel(1) == "uninstalled" && StateLabel(2) == "installed" && StateLabel(4) == "resolved"
    ensures StateLabel(8) == "starting" && StateLabel(16) == "stopping" && StateLabel(32) == "active"
  {
  }

  lemma {:induction false} LabelInMissing(states: seq<BundleState>, code: int)
    requires forall i :: 0 <= i < |states| ==> states[i].value != code
    ensures LabelIn(states, code) == "N/A"
  {
    if states != [] {
      LabelInMissing(states[1..], code);
    }
  }

  /** Any other code reads as "N/A". */
  lemma StateLabelOther(code: int)
    requires code != 1 && code != 2 && code != 4 && code != 8 && code != 16 && code != 32
    ensures StateLabel(code) == "N/A"
  {
    LabelInMissing(BundleStates, code);
  }

  /** `getState`: the label of the `state` field of `bundledata.bundle`;
      "N/A" when there is no such field or no state has that code.  A null
      value in the field fails when it is unboxed. */
  function GetState(snap: Snapshot, obj: int): Result<string, Error>
  {
    match ResolveObject(snap, obj, ["bundledata", "bundle"])
    case None => Failure(NullPointer)
    case Some(host) =>
      match Field(snap, host, "state")
      case None => Success("N/A")
      case Some(Prim(code)) => Success(StateLabel(code))
      case Some(NullRef) => Failure(NullPointer)
      case Some(Ref(_)) => Failure(ClassCast)
  }

  /** The bundle name as the source computes it: the symbolic name itself
      (null included) when the version is null, otherwise the symbolic
      name followed by the version in parentheses.  Its test for an empty
      version compares references with the literal "", which a version
      read from the heap never is, so an empty version still gets its
      parentheses. */
  function BundleNameAsWritten(symbolicName: Option<string>, version: Option<string>): Option<string>
  {
    if version.None? then symbolicName
    else Some(JavaText(symbolicName) + " (" + version.value + ")")
  }

  /** The bundle name as intended: the symbolic name, followed by the
      version in parentheses unless the version is null or empty. */
  function BundleName(symbolicName: Option<string>, version: Option<string>): Option<string>
  {
    if version.None? || version.value == "" then symbolicName
    else Some(JavaText(symbolicName) + " (" + version.value + ")")
  }

  /** An empty version yields an empty pair of parentheses as written. */
  lemma EmptyVersionShown()
    ensures BundleNameAsWritten(Some("org.eclipse.core.runtime"), Some("")) == Some("org.eclipse.core.runtime ()")
    ensures BundleName(Some("org.eclipse.core.runtime"), Some("")) == Some("org.eclipse.core.runtime")
  {
    assert "org.eclipse.core.runtime" + " (" + "" + ")" == "org.eclipse.core.runtime ()";
  }

  /** The intended name is the symbolic name unless there is a non-empty
      version; then it starts with the symbolic name (printed as "null"
      when there is none) and the version sits between the parentheses at
      its end. */
  lemma BundleNameShowsVersion(symbolicName: Option<string>, version: Option<string>)
    ensures var name, sym := BundleName(symbolicName, version), JavaText(symbolicName);
            (name != symbolicName <==> version.Some? && version.value != "") &&
            (name != symbolicName ==>
               name.Some? && sym <= name.value && name.value[|sym|..|sym| + 2] == " (" &&
               name.value[|name.value| - 1] == ')' && name.value[|sym| + 2..|name.value| - 1] == version.value)
  {
    var name, sym := BundleName(symbolicName, version), JavaText(symbolicName);
    if version.Some? && version.value != "" {
      assert name.value == sym + " (" + version.value + ")";
      assert |name.value| > |sym|;
    }
  }

  /** The name as written agrees with the intended one except for an empty
      version, where it keeps the parentheses the intended name drops. */
  lemma AsWrittenDiffersOnlyOnEmptyVersion(symbolicName: Option<string>, version: Option<string>)
    ensures BundleNameAsWritten(symbolicName, version) == BundleName(symbolicName, version) <==> version != Some("")
  {
    if version == Some("") {
      var written := BundleNameAsWritten(symbolicName, version);
      assert |written.value| == |JavaText(symbolicName)| + 3;
      assert symbolicName.Some? ==> written.value != symbolicName.value;
    }
  }

  /** `extractBundleName`: the class-specific names of `symbolicName` and
      of `version.qualifier.value`, joined as the source writes them. */
  function ExtractBundleName(snap: Snapshot, bundleData: int): Result<Option<string>, Error>
  {
    match ResolveObject(snap, bundleData, ["symbolicName"])
    case None => Failure(NullPointer)
    case Some(name) =>
      var version :=
        match ResolveObject(snap, bundleData, ["version", "qualifier", "value"])
        case Some(v) => ClassSpecificName(snap, v)
        case None => None;
      Success(BundleNameAsWritten(ClassSpecificName(snap, name), version))
  }

  /** The cache key of a bundle host object: the `id` field of its
      `bundledata`, `None` when the field is missing or null. */
  function BundleKey(snap: Snapshot, obj: int): Result<Option<int>, Error>
  {
    match ResolveObject(snap, obj, ["bundledata"])
    case None => Failure(NullPointer)
    case Some(data) =>
      match Field(snap, data, "id")
      case None => Success(None)
      case Some(NullRef) => Success(None)
      case Some(Prim(n)) => Success(Some(n))
      case Some(Ref(_)) => Failure(ClassCast)
  }

  /** A new descriptor for a bundle host object: its id, the name of its
      `bundledata` as `extractBundleName` writes it, and its state label. */
  function BuildDescriptor(snap: Snapshot, obj: int, bundleType: BundleType, id: Option<int>)
    : (r: Result<BundleDescriptor, Error>)
    ensures r.Success? <==> (ResolveObject(snap, obj, ["bundledata"]).Some? &&
                             ResolveObject(snap, ResolveObject(snap, obj, ["bundledata"]).value, ["symbolicName"]).Some? &&
                             GetState(snap, obj).Success?)
    ensures r.Success? ==>
              var data := ResolveObject(snap, obj, ["bundledata"]).value;
              r.value.objectId == obj && r.value.bundleId == id && r.value.bundleType == bundleType &&
              r.value.bundleName == ExtractBundleName(snap, data).value && r.value.state == GetState(snap, obj).value
  {
    match ResolveObject(snap, obj, ["bundledata"])
    case None => Failure(NullPointer)
    case Some(data) =>
      match ExtractBundleName(snap, data)
      case Failure(e) => Failure(e)
      case Success(name) =>
        match GetState(snap, obj)
        case Failure(e) => Failure(e)
        case Success(state) => Success(BundleDescriptor(obj, id, name, state, bundleType))
  }

  /** `getBundleDescriptor` against a cache: the cached descriptor for the
      bundle's id, or a new one. */
  function DescriptorFor(snap: Snapshot, cache: map<Option<int>, BundleDescriptor>, obj: int, bundleType: BundleType)
    : Result<BundleDescriptor, Error>
  {
    match BundleKey(snap, obj)
    case Failure(e) => Failure(e)
    case Success(id) => if id in cache then Success(cache[id]) else BuildDescriptor(snap, obj, bundleType, id)
  }

  /** The cache after `getBundleDescriptor`: a miss that builds a
      descriptor inserts it under the bundle id. */
  function CacheAfter(snap: Snapshot, cache: map<Option<int>, BundleDescriptor>, obj: int, bundleType: BundleType)
    : map<Option<int>, BundleDescriptor>
  {
    match BundleKey(snap, obj)
    case Failure(_) => cache
    case Success(id) =>
      if id in cache then cache
      else match BuildDescriptor(snap, obj, bundleType, id)
        case Failure(_) => cache
        case Success(d) => cache[id := d]
  }

  /** Every cached descriptor sits under its own bundle id. */
  predicate KeyedById(cache: map<Option<int>, BundleDescriptor>) {
    forall id :: id in cache ==> cache[id].bundleId == id
  }

  /** `d` is the descriptor cached under the bundle id of `obj`. */
  predicate CachedAs(snap: Snapshot, cache: map<Option<int>, BundleDescriptor>, obj: int, d: BundleDescriptor)
  {
    BundleKey(snap, obj).Success? && BundleKey(snap, obj).value in cache && cache[BundleKey(snap, obj).value] == d
  }

  /** The k-th descriptor is the one cached for the k-th object. */
  predicate DescribedAs(snap: Snapshot, cache: map<Option<int>, BundleDescriptor>, objs: seq<int>, found: seq<BundleDescriptor>)
  {
    |found| == |objs| && forall k :: 0 <= k < |objs| ==> CachedAs(snap, cache, objs[k], found[k])
  }

  /** How a caller types the bundles it asks descriptors for:
      `getBundleDescriptors` and `getDependencies` by class name,
      `getFragmentHost` always as a plain bundle. */
  datatype Typing = ByClassName | AlwaysBundle

  function TypeFor(snap: Snapshot, obj: int, typing: Typing): BundleType
    requires obj in snap.objects
  {
    match typing
    case ByClassName => TypeOf(snap, obj)
    case AlwaysBundle => Bundle
  }

  /** Every entry that `after` adds to `before` was built for an object
      carrying that bundle id, typed as `typing` says. */
  predicate BuiltTyped(snap: Snapshot, before: map<Option<int>, BundleDescriptor>, after: map<Option<int>, BundleDescriptor>,
                       typing: Typing)
  {
    forall id :: id in after && id !in before ==>
      after[id].objectId in snap.objects && BundleKey(snap, after[id].objectId) == Success(id) &&
      BuildDescriptor(snap, after[id].objectId, TypeFor(snap, after[id].objectId, typing), id) == Success(after[id])
  }

  /** A descriptor typed `bundleType` can be built for `obj`: its bundle id
      reads and building succeeds. */
  predicate Describable(snap: Snapshot, obj: int, bundleType: BundleType)
  {
    BundleKey(snap, obj).Success? && BuildDescriptor(snap, obj, bundleType, BundleKey(snap, obj).value).Success?
  }

  /** Every object of the list is known and describable typed by its class
      name. */
  predicate DescribableByClass(snap: Snapshot, objs: seq<int>)
  {
    forall o :: o in objs ==> o in snap.objects && Describable(snap, o, TypeOf(snap, o))
  }

  /** A known repository whose install-order array, when it has one, is an
      array of known addresses whose bundles are all describable. */
  predicate RepositoryReadable(snap: Snapshot, repository: int)
  {
    repository in snap.objects &&
    match InstallOrder(snap, repository)
    case None => true
    case Some(a) =>
      snap.objects[a].isArray && BundleObjects(snap, snap.objects[a].elements).Some? &&
      DescribableByClass(snap, BundleObjects(snap, snap.objects[a].elements).value)
  }

  /** The cache memoises: asking again returns the same descriptor and
      changes nothing, and the cache stays keyed by bundle id. */
  lemma CacheMemoises(snap: Snapshot, cache: map<Option<int>, BundleDescriptor>, obj: int,
                      bundleType: BundleType, again: BundleType)
    requires KeyedById(cache)
    ensures var after := CacheAfter(snap, cache, obj, bundleType);
            KeyedById(after) &&
            (forall id :: id in cache ==> id in after && after[id] == cache[id]) &&
            (DescriptorFor(snap, cache, obj, bundleType).Success? ==>
               DescriptorFor(snap, after, obj, again) == DescriptorFor(snap, cache, obj, bundleType) &&
               CacheAfter(snap, after, obj, again) == after)
  {
  }

  /** Two bundles without an id share one cache entry: the second gets the
      descriptor built for the first. */
  lemma BundlesWithoutIdShareDescriptor(snap: Snapshot, cache: map<Option<int>, BundleDescriptor>,
                                        first: int, second: int, bundleType: BundleType)
    requires BundleKey(snap, first) == Success(None) && BundleKey(snap, second) == Success(None)
    requires DescriptorFor(snap, cache, first, bundleType).Success?
    ensures DescriptorFor(snap, CacheAfter(snap, cache, first, bundleType), second, bundleType)
            == DescriptorFor(snap, cache, first, bundleType)
  {
  }

  /** `getBundleDescriptors` types a bundle as a fragment by its class name. */
  function TypeOf(snap: Snapshot, obj: int): BundleType
    requires obj in snap.objects
  {
    if snap.objects[obj].className == FragmentClass then Fragment else Bundle
  }

  /** The non-zero entries of an address array, in order. */
  function NonZero(addresses: seq<int>): (r: seq<int>)
    ensures |r| <= |addresses|
    ensures forall a :: a in r <==> a in addresses && a != 0
  {
    if addresses == [] then []
    else NonZero(addresses[..|addresses| - 1]) + (if addresses[|addresses| - 1] == 0 then [] else [addresses[|addresses| - 1]])
  }

  /** A repository without an install-order array leaves the addresses of
      every longer list of repositories undefined. */
  lemma {:induction false} BundleAddressesMissing(snap: Snapshot, repositories: seq<int>, n: nat)
    requires n <= |repositories| && BundleAddresses(snap, repositories[..n]).None?
    ensures BundleAddresses(snap, repositories).None?
    decreases |repositories| - n
  {
    if n < |repositories| {
      assert repositories[..n + 1][..n] == repositories[..n];
      BundleAddressesMissing(snap, repositories, n + 1);
    } else {
      assert repositories[..n] == repositories;
    }
  }

  /** The `bundlesByInstallOrder.elementData` array of a repository. */
  function InstallOrder(snap: Snapshot, repository: int): Option<int>
  {
    ResolveObject(snap, repository, ["bundlesByInstallOrder", "elementData"])
  }

  /** The non-zero bundle addresses of all repositories, in order; `None`
      when some repository has no install-order array. */
  function BundleAddresses(snap: Snapshot, repositories: seq<int>): Option<seq<int>>
  {
    if repositories == [] then Some([])
    else
      match BundleAddresses(snap, repositories[..|repositories| - 1])
      case None => None
      case Some(before) =>
        match InstallOrder(snap, repositories[|repositories| - 1])
        case None => None
        case Some(a) => Some(before + NonZero(snap.objects[a].elements))
  }

  /** The objects at the non-zero addresses of an array, in order; `None`
      when one of them is unknown. */
  function BundleObjects(snap: Snapshot, addresses: seq<int>): Option<seq<int>>
  {
    if addresses == [] then Some([])
    else
      match BundleObjects(snap, addresses[..|addresses| - 1])
      case None => None
      case Some(before) =>
        var a := addresses[|addresses| - 1];
        if a == 0 then Some(before)
        else if a !in snap.addresses || snap.addresses[a] !in snap.objects then None
        else Some(before + [snap.addresses[a]])
  }

  /** The bundle objects of all repositories' install-order arrays, in
      order. */
  function RepositoryObjects(snap: Snapshot, repositories: seq<int>): Option<seq<int>>
  {
    if repositories == [] then Some([])
    else
      match RepositoryObjects(snap, repositories[..|repositories| - 1])
      case None => None
      case Some(before) =>
        match InstallOrder(snap, repositories[|repositories| - 1])
        case None => None
        case Some(a) =>
          match BundleObjects(snap, snap.objects[a].elements)
          case None => None
          case Some(objs) => Some(before + objs)
  }

  /** The `userObject.bundle` objects behind an array of bundle
      descriptions, skipping null ones, in order; `None` when an address
      is unknown. */
  function DependencyHosts(snap: Snapshot, addresses: seq<int>): Option<seq<int>>
  {
    if addresses == [] then Some([])
    else
      match DependencyHosts(snap, addresses[..|addresses| - 1])
      case None => None
      case Some(before) =>
        var a := addresses[|addresses| - 1];
        if a !in snap.addresses || snap.addresses[a] !in snap.objects then None
        else
          match ResolveObject(snap, snap.addresses[a], ["userObject", "bundle"])
          case None => Some(before)
          case Some(host) => Some(before + [host])
  }

  // ---------------------------------------------------------------------
  // Extension registry linking
  // ---------------------------------------------------------------------

  /** `v` is in the list under `key`. */
  predicate Listed<K, V(==)>(m: map<K, seq<V>>, key: K, v: V) {
    key in m && v in m[key]
  }

  /** Configuration elements attach to the extension whose id is their
      parent id, failing that to the configuration element with that id,
      and are otherwise dropped.  The result maps a parent id to the ids of
      the elements attached to it. */
  method LinkConfigurationElements(configElements: map<int, ConfigurationElement>, extensions: map<int, Extension>)
    returns (toExtension: map<int, seq<int>>, toElement: map<int, seq<int>>)
    ensures forall c {:trigger configElements[c]} :: c in configElements && configElements[c].parentId in extensions ==>
              Listed(toExtension, configElements[c].parentId, c)
    ensures forall c {:trigger configElements[c]} ::
              c in configElements && configElements[c].parentId !in extensions && configElements[c].parentId in configElements ==>
              Listed(toElement, configElements[c].parentId, c)
    ensures forall p, c :: Listed(toExtension, p, c) ==>
              p in extensions && c in configElements && configElements[c].parentId == p
    ensures forall p, c :: Listed(toElement, p, c) ==>
              p !in extensions && p in configElements && c in configElements && configElements[c].parentId == p
    ensures DuplicateFreeLists(toExtension) && DuplicateFreeLists(toElement)
  {
    toExtension, toElement := map[], map[];
    var remaining := configElements.Keys;
    while remaining != {}
      invariant remaining <= configElements.Keys
      invariant forall c {:trigger configElements[c]} :: c in configElements && c !in remaining && configElements[c].parentId in extensions ==>
                  Listed(toExtension, configElements[c].parentId, c)
      invariant forall c {:trigger configElements[c]} ::
                  c in configElements && c !in remaining && configElements[c].parentId !in extensions &&
                  configElements[c].parentId in configElements ==>
                  Listed(toElement, configElements[c].parentId, c)
      invariant forall p, c :: Listed(toExtension, p, c) ==>
                  p in extensions && c in configElements && c !in remaining && configElements[c].parentId == p
      invariant forall p, c :: Listed(toElement, p, c) ==>
                  p !in extensions && p in configElements && c in configElements && c !in remaining && configElements[c].parentId == p
      invariant DuplicateFreeLists(toExtension) && DuplicateFreeLists(toElement)
      decreases remaining
    {
      var k := Pick(remaining);
      var parent := configElements[k].parentId;
      if parent in extensions {
        ghost var before := toExtension;
        toExtension := toExtension[parent := (if parent in toExtension then toExtension[parent] else []) + [k]];
        forall p, c | Listed(before, p, c) ensures c != k {
          assert c !in remaining;
        }
        AppendFresh(before, toExtension, parent, k);
        forall p, c | Listed(toExtension, p, c)
          ensures p in extensions && c in configElements && c !in remaining - {k} && configElements[c].parentId == p
        {
          if p != parent || c != k {
            assert Listed(before, p, c);
          }
        }
      } else if parent in configElements {
        ghost var before := toElement;
        toElement := toElement[parent := (if parent in toElement then toElement[parent] else []) + [k]];
        forall p, c | Listed(before, p, c) ensures c != k {
          assert c !in remaining;
        }
        AppendFresh(before, toElement, parent, k);
        forall p, c | Listed(toElement, p, c)
          ensures p !in extensions && p in configElements && c in configElements && c !in remaining - {k} && configElements[c].parentId == p
        {
          if p != parent || c != k {
            assert Listed(before, p, c);
          }
        }
      }
      remaining := remaining - {k};
    }
  }

  /** Each extension attaches to the extension point of the same name; the
      result maps a point name to the ids of its extensions. */
  method LinkExtensions(extensions: map<int, Extension>, extensionPoints: map<string, ExtensionPoint>)
    returns (attached: map<string, seq<int>>)
    ensures forall e :: e in extensions && extensions[e].name in extensionPoints ==>
              Listed(attached, extensions[e].name, e)
    ensures forall p, e :: Listed(attached, p, e) ==>
              p in extensionPoints && e in extensions && extensions[e].name == p
    ensures DuplicateFreeLists(attached)
  {
    attached := map[];
    var remaining := extensions.Keys;
    while remaining != {}
      invariant remaining <= extensions.Keys
      invariant forall e :: e in extensions && e !in remaining && extensions[e].name in extensionPoints ==>
                  Listed(attached, extensions[e].name, e)
      invariant forall p, e :: Listed(attached, p, e) ==>
                  p in extensionPoints && e in extensions && e !in remaining && extensions[e].name == p
      invariant DuplicateFreeLists(attached)
      decreases remaining
    {
      var k := Pick(remaining);
      var name := extensions[k].name;
      if name in extensionPoints {
        ghost var before := attached;
        attached := attached[name := (if name in attached then attached[name] else []) + [k]];
        AppendFresh(before, attached, name, k);
        forall p, e | Listed(attached, p, e)
          ensures p in extensionPoints && e in extensions && e !in remaining - {k} && extensions[e].name == p
        {
          if p != name || e != k {
            assert Listed(before, p, e);
          }
        }
      }
      remaining := remaining - {k};
    }
  }

  /** Appending an element that no list holds yet keeps every list
      duplicate-free and keeps what was listed before. */
  lemma AppendFresh<K, V>(before: map<K, seq<V>>, after: map<K, seq<V>>, key: K, v: V)
    requires after == before[key := (if key in before then before[key] else []) + [v]]
    requires forall k, x :: Listed(before, k, x) ==> x != v
    requires DuplicateFreeLists(before)
    ensures DuplicateFreeLists(after)
    ensures forall k, x :: Listed(before, k, x) ==> Listed(after, k, x)
  {
    if key in before {
      assert !Listed(before, key, v);
    }
    forall k, x | Listed(before, k, x) ensures Listed(after, k, x) {
      if k == key {
        assert x in before[key];
      }
    }
  }

  /** Lists every item of `items` under its owning bundle, adding it only
      when that bundle's list does not hold it yet. */
  method GroupByBundle<I, V(==)>(start: map<BundleDescriptor, seq<V>>, items: map<I, V>, owner: V -> BundleDescriptor)
    returns (r: map<BundleDescriptor, seq<V>>)
    ensures forall i :: i in items ==> owner(items[i]) in r && items[i] in r[owner(items[i])]
    ensures forall b, x :: b in r && x in r[b] ==> (b in start && x in start[b]) || (x in items.Values && owner(x) == b)
    ensures forall b :: b in start ==> b in r && start[b] <= r[b]
    ensures DuplicateFreeLists(start) ==> DuplicateFreeLists(r)
  {
    r := start;
    var remaining := items.Keys;
    while remaining != {}
      invariant remaining <= items.Keys
      invariant forall i :: i in items && i !in remaining ==> owner(items[i]) in r && items[i] in r[owner(items[i])]
      invariant forall b, x :: b in r && x in r[b] ==> (b in start && x in start[b]) || (x in items.Values && owner(x) == b)
      invariant forall b :: b in start ==> b in r && start[b] <= r[b]
      invariant DuplicateFreeLists(start) ==> DuplicateFreeLists(r)
      decreases remaining
    {
      var i :| i in remaining;
      var item := items[i];
      ghost var before := r;
      r := AddUnique(r, owner(item), item);
      KeptLists(before, r);
      remaining := remaining - {i};
    }
  }

  // ---------------------------------------------------------------------
  // The reader
  // ---------------------------------------------------------------------

  /** Which of the two service maps `doUpdate` is given. */
  datatype ServiceMap = RegisteredMap | UsedMap

  /** The registered-services map after `updateServiceMap`. */
  function Registered(m: map<BundleDescriptor, seq<Service>>, services: seq<Service>): map<BundleDescriptor, seq<Service>>
  {
    if services == [] then m
    else
      var s := services[|services| - 1];
      AddUnique(Registered(m, services[..|services| - 1]), s.contributedBy, s)
  }

  /** `s` added under each of `bundles`. */
  function UsedBy(m: map<BundleDescriptor, seq<Service>>, s: Service, bundles: seq<BundleDescriptor>)
    : map<BundleDescriptor, seq<Service>>
  {
    if bundles == [] then m
    else AddUnique(UsedBy(m, s, bundles[..|bundles| - 1]), bundles[|bundles| - 1], s)
  }

  /** The used-services map after `updateServiceMap`. */
  function Used(m: map<BundleDescriptor, seq<Service>>, services: seq<Service>): map<BundleDescriptor, seq<Service>>
  {
    if services == [] then m
    else
      var s := services[|services| - 1];
      var before := Used(m, services[..|services| - 1]);
      match s.bundlesUsing
      case None => before
      case Some(bundles) => UsedBy(before, s, bundles)
  }

  /** After `updateServiceMap` every service is listed under the bundle
      that registered it; earlier lists are only extended; lists stay
      duplicate-free. */
  lemma {:induction false} RegisteredContents(m: map<BundleDescriptor, seq<Service>>, services: seq<Service>)
    ensures var r := Registered(m, services);
            (forall i :: 0 <= i < |services| ==> services[i].contributedBy in r && services[i] in r[services[i].contributedBy]) &&
            (forall b :: b in m ==> b in r && m[b] <= r[b]) &&
            (DuplicateFreeLists(m) ==> DuplicateFreeLists(r))
  {
    RegisteredListsAll(m, services);
    RegisteredExtends(m, services);
    if DuplicateFreeLists(m) {
      RegisteredDuplicateFree(m, services);
    }
  }

  lemma {:induction false} RegisteredListsAll(m: map<BundleDescriptor, seq<Service>>, services: seq<Service>)
    ensures forall i :: 0 <= i < |services| ==>
              services[i].contributedBy in Registered(m, services) &&
              services[i] in Registered(m, services)[services[i].contributedBy]
  {
    if services != [] {
      var init, last := services[..|services| - 1], services[|services| - 1];
      RegisteredListsAll(m, init);
      var before := Registered(m, init);
      var r := Registered(m, services);
      assert r == AddUnique(before, last.contributedBy, last);
      forall i | 0 <= i < |services| ensures services[i].contributedBy in r && services[i] in r[services[i].contributedBy] {
        if i < |init| {
          assert services[i] == init[i];
          if services[i].contributedBy == last.contributedBy {
            assert before[last.contributedBy] <= r[last.contributedBy];
          }
        }
      }
    }
  }

  lemma {:induction false} RegisteredExtends(m: map<BundleDescriptor, seq<Service>>, services: seq<Service>)
    ensures forall b :: b in m ==> b in Registered(m, services) && m[b] <= Registered(m, services)[b]
  {
    if services != [] {
      var init, last := services[..|services| - 1], services[|services| - 1];
      RegisteredExtends(m, init);
      var before := Registered(m, init);
      var r := Registered(m, services);
      assert r == AddUnique(before, last.contributedBy, last);
      forall b | b in m ensures b in r && m[b] <= r[b] {
        assert m[b] <= before[b] <= r[b];
      }
    }
  }

  lemma {:induction false} RegisteredDuplicateFree(m: map<BundleDescriptor, seq<Service>>, services: seq<Service>)
    requires DuplicateFreeLists(m)
    ensures DuplicateFreeLists(Registered(m, services))
  {
    if services != [] {
      RegisteredDuplicateFree(m, services[..|services| - 1]);
    }
  }

  /** Nothing else is registered: a listed service was listed before or
      is one of `services`, under the bundle that registered it. */
  lemma {:induction false} RegisteredOnly(m: map<BundleDescriptor, seq<Service>>, services: seq<Service>)
    ensures forall b, x :: Listed(Registered(m, services), b, x) ==>
              Listed(m, b, x) || (x in services && x.contributedBy == b)
  {
    if services != [] {
      var init := services[..|services| - 1];
      RegisteredOnly(m, init);
      var last := services[|services| - 1];
      var r := Registered(m, services);
      forall b, x | Listed(r, b, x) ensures Listed(m, b, x) || (x in services && x.contributedBy == b) {
        if !(x == last && b == last.contributedBy) {
          assert Listed(Registered(m, init), b, x);
          if x in init {
            var i :| 0 <= i < |init| && init[i] == x;
            assert services[i] == x;
          }
        }
      }
    }
  }

  lemma {:induction false} UsedByContents(m: map<BundleDescriptor, seq<Service>>, s: Service, bundles: seq<BundleDescriptor>)
    ensures var r := UsedBy(m, s, bundles);
            (forall j :: 0 <= j < |bundles| ==> bundles[j] in r && s in r[bundles[j]]) &&
            (forall b :: b in m ==> b in r && m[b] <= r[b]) &&
            (forall b, x :: b in r && x in r[b] ==> (b in m && x in m[b]) || (x == s && b in bundles)) &&
            (DuplicateFreeLists(m) ==> DuplicateFreeLists(r))
  {
    UsedByListsService(m, s, bundles);
    UsedByExtends(m, s, bundles);
    UsedByAddsOnlyService(m, s, bundles);
    if DuplicateFreeLists(m) {
      UsedByDuplicateFree(m, s, bundles);
    }
  }

  lemma {:induction false} UsedByListsService(m: map<BundleDescriptor, seq<Service>>, s: Service, bundles: seq<BundleDescriptor>)
    ensures forall j :: 0 <= j < |bundles| ==> bundles[j] in UsedBy(m, s, bundles) && s in UsedBy(m, s, bundles)[bundles[j]]
  {
    if bundles != [] {
      var init, last := bundles[..|bundles| - 1], bundles[|bundles| - 1];
      UsedByListsService(m, s, init);
      var before := UsedBy(m, s, init);
      var r := UsedBy(m, s, bundles);
      assert r == AddUnique(before, last, s);
      forall j | 0 <= j < |bundles| ensures Listed(r, bundles[j], s) {
        if j < |init| {
          assert bundles[j] == init[j] && Listed(before, bundles[j], s);
          if bundles[j] == last {
            assert before[last] <= r[last];
          }
        }
      }
    }
  }

  lemma {:induction false} UsedByExtends(m: map<BundleDescriptor, seq<Service>>, s: Service, bundles: seq<BundleDescriptor>)
    ensures forall b :: b in m ==> b in UsedBy(m, s, bundles) && m[b] <= UsedBy(m, s, bundles)[b]
  {
    if bundles != [] {
      var init, last := bundles[..|bundles| - 1], bundles[|bundles| - 1];
      UsedByExtends(m, s, init);
      var before := UsedBy(m, s, init);
      var r := UsedBy(m, s, bundles);
      assert r == AddUnique(before, last, s);
      forall b | b in m ensures b in r && m[b] <= r[b] {
        assert m[b] <= before[b] <= r[b];
      }
    }
  }

  lemma {:induction false} UsedByAddsOnlyService(m: map<BundleDescriptor, seq<Service>>, s: Service, bundles: seq<BundleDescriptor>)
    ensures forall b, x :: b in UsedBy(m, s, bundles) && x in UsedBy(m, s, bundles)[b] ==>
              (b in m && x in m[b]) || (x == s && b in bundles)
  {
    if bundles != [] {
      var init, last := bundles[..|bundles| - 1], bundles[|bundles| - 1];
      UsedByAddsOnlyService(m, s, init);
      var before := UsedBy(m, s, init);
      var r := UsedBy(m, s, bundles);
      assert r == AddUnique(before, last, s);
      forall b, x | Listed(r, b, x) ensures Listed(m, b, x) || (x == s && b in bundles) {
        if !(x == s && b == last) {
          assert Listed(before, b, x);
          if b in init {
            var j :| 0 <= j < |init| && init[j] == b;
            assert bundles[j] == b;
          }
        }
      }
    }
  }

  lemma {:induction false} UsedByDuplicateFree(m: map<BundleDescriptor, seq<Service>>, s: Service, bundles: seq<BundleDescriptor>)
    requires DuplicateFreeLists(m)
    ensures DuplicateFreeLists(UsedBy(m, s, bundles))
  {
    if bundles != [] {
      UsedByDuplicateFree(m, s, bundles[..|bundles| - 1]);
    }
  }

  /** After `updateServiceMap` every service is listed under each bundle
      using it; earlier lists are only extended; lists stay duplicate-free. */
  lemma {:induction false} UsedContents(m: map<BundleDescriptor, seq<Service>>, services: seq<Service>)
    ensures var r := Used(m, services);
            (forall i, j :: 0 <= i < |services| && services[i].bundlesUsing.Some? &&
                            0 <= j < |services[i].bundlesUsing.value| ==>
               services[i].bundlesUsing.value[j] in r && services[i] in r[services[i].bundlesUsing.value[j]]) &&
            (forall b :: b in m ==> b in r && m[b] <= r[b]) &&
            (DuplicateFreeLists(m) ==> DuplicateFreeLists(r))
  {
    if services != [] {
      var init := services[..|services| - 1];
      var s := services[|services| - 1];
      UsedContents(m, init);
      assert forall i :: 0 <= i < |init| ==> init[i] == services[i];
      var before := Used(m, init);
      if s.bundlesUsing.Some? {
        UsedByContents(before, s, s.bundlesUsing.value);
        var after := Used(m, services);
        forall b | b in m ensures b in after && m[b] <= after[b] {
          assert m[b] <= before[b] <= after[b];
        }
      }
    }
  }

  class BundleReader {
    const snap: Snapshot
    var bundleDescriptors: map<Option<int>, BundleDescriptor>
    var registeredServices: map<BundleDescriptor, seq<Service>>
    var usedServices: map<BundleDescriptor, seq<Service>>
    var extensionPointsByBundle: map<BundleDescriptor, seq<ExtensionPoint>>
    var extensionsByBundle: map<BundleDescriptor, seq<Extension>>

    /** The descriptor cache is keyed by bundle id and no multimap list
        holds an element twice. */
    ghost predicate Valid()
      reads this
    {
      KeyedById(bundleDescriptors) &&
      DuplicateFreeLists(registeredServices) && DuplicateFreeLists(usedServices) &&
      DuplicateFreeLists(extensionPointsByBundle) && DuplicateFreeLists(extensionsByBundle)
    }

    constructor (snap: Snapshot)
      ensures Valid() && this.snap == snap
      ensures bundleDescriptors == map[] && registeredServices == map[] && usedServices == map[]
      ensures extensionPointsByBundle == map[] && extensionsByBundle == map[]
    {
      this.snap := snap;
      bundleDescriptors := map[];
      registeredServices := map[];
      usedServices := map[];
      extensionPointsByBundle := map[];
      extensionsByBundle := map[];
    }

    /** `doUpdate` on one of the two service maps. */
    method DoUpdate(service: Service, bundle: BundleDescriptor, which: ServiceMap)
      requires Valid()
      modifies this
      ensures Valid()
      ensures which == RegisteredMap ==>
                registeredServices == AddUnique(old(registeredServices), bundle, service) &&
                usedServices == old(usedServices)
      ensures which == UsedMap ==>
                usedServices == AddUnique(old(usedServices), bundle, service) &&
                registeredServices == old(registeredServices)
      ensures bundleDescriptors == old(bundleDescriptors)
      ensures extensionPointsByBundle == old(extensionPointsByBundle) && extensionsByBundle == old(extensionsByBundle)
    {
      if which == RegisteredMap {
        registeredServices := AddUnique(registeredServices, bundle, service);
      } else {
        usedServices := AddUnique(usedServices, bundle, service);
      }
    }

    /** `updateServiceMap`. */
    method UpdateServiceMap(services: seq<Service>)
      requires Valid()
      modifies this
      ensures Valid()
      ensures registeredServices == Registered(old(registeredServices), services)
      ensures usedServices == Used(old(usedServices), services)
      ensures bundleDescriptors == old(bundleDescriptors)
      ensures extensionPointsByBundle == old(extensionPointsByBundle) && extensionsByBundle == old(extensionsByBundle)
    {
      for i := 0 to |services|
        invariant Valid()
        invariant registeredServices == Registered(old(registeredServices), services[..i])
        invariant usedServices == Used(old(usedServices), services[..i])
        invariant bundleDescriptors == old(bundleDescriptors)
        invariant extensionPointsByBundle == old(extensionPointsByBundle) && extensionsByBundle == old(extensionsByBundle)
      {
        assert services[..i + 1][..i] == services[..i];
        var service := services[i];
        DoUpdate(service, service.contributedBy, RegisteredMap);
        if service.bundlesUsing.Some? {
          var bundles := service.bundlesUsing.value;
          ghost var before := usedServices;
          for j := 0 to |bundles|
            invariant Valid()
            invariant usedServices == UsedBy(before, service, bundles[..j])
            invariant registeredServices == Registered(old(registeredServices), services[..i + 1])
            invariant bundleDescriptors == old(bundleDescriptors)
            invariant extensionPointsByBundle == old(extensionPointsByBundle) && extensionsByBundle == old(extensionsByBundle)
          {
            assert bundles[..j + 1][..j] == bundles[..j];
            DoUpdate(service, bundles[j], UsedMap);
          }
          assert bundles[..|bundles|] == bundles;
        }
      }
      assert services[..|services|] == services;
    }

    /** `getBundleDescriptor`: the cached descriptor for the bundle's id,
        or a new one, which is then cached under that id. */
    method GetBundleDescriptor(obj: int, bundleType: BundleType) returns (r: Result<BundleDescriptor, Error>)
      requires Valid()
      modifies this
      ensures Valid()
      ensures r == DescriptorFor(snap, old(bundleDescriptors), obj, bundleType)
      ensures Describable(snap, obj, bundleType) ==> r.Success?
      ensures r.Failure? ==> r.error != Canceled
      ensures bundleDescriptors == CacheAfter(snap, old(bundleDescriptors), obj, bundleType)
      ensures r.Success? ==> BundleKey(snap, obj).Success? && BundleKey(snap, obj).value in bundleDescriptors &&
                             bundleDescriptors[BundleKey(snap, obj).value] == r.value
      ensures forall id :: id in old(bundleDescriptors) ==> id in bundleDescriptors && bundleDescriptors[id] == old(bundleDescriptors)[id]
      ensures registeredServices == old(registeredServices) && usedServices == old(usedServices)
      ensures extensionPointsByBundle == old(extensionPointsByBundle) && extensionsByBundle == old(extensionsByBundle)
    {
      var key := BundleKey(snap, obj);
      if key.Failure? {
        return Failure(key.error);
      }
      var id := key.value;
      if id in bundleDescriptors {
        return Success(bundleDescriptors[id]);
      }
      r := BuildDescriptor(snap, obj, bundleType, id);
      if r.Success? {
        bundleDescriptors := bundleDescriptors[id := r.value];
      }
    }

    /** The cache key reached from a host address: the loader object at
        that address, its `bundle`, that bundle's id. */
    ghost function HostKey(address: int): Option<Option<int>>
    {
      if address !in snap.addresses then None
      else
        var loader := snap.addresses[address];
        if loader !in snap.objects then None
        else match ResolveObject(snap, loader, ["bundle"])
          case None => None
          case Some(bundle) => if BundleKey(snap, bundle).Success? then Some(BundleKey(snap, bundle).value) else None
    }

    /** A host address that leads to a loader whose `bundle` is describable
        as a plain bundle. */
    ghost predicate HostReadable(address: int)
    {
      address in snap.addresses && snap.addresses[address] in snap.objects &&
      ResolveObject(snap, snap.addresses[address], ["bundle"]).Some? &&
      Describable(snap, ResolveObject(snap, snap.addresses[address], ["bundle"]).value, Bundle)
    }

    /** The `hosts` array of a fragment, `None` when it is null or not an
        array. */
    function HostsArray(obj: int): Option<seq<int>>
    {
      match ResolveObject(snap, obj, ["hosts"])
      case None => None
      case Some(h) => if snap.objects[h].isArray then Some(snap.objects[h].elements) else None
    }

    /** `getFragmentHost`: the descriptor of the last host in the `hosts`
        array, or none when the array is null, not an array, or empty. */
    method GetFragmentHost(obj: int) returns (r: Result<Option<BundleDescriptor>, Error>)
      requires Valid()
      modifies this
      ensures Valid()
      ensures HostsArray(obj).None? ==> r == Success(None)
      ensures HostsArray(obj).Some? && (forall a :: a in HostsArray(obj).value ==> HostReadable(a)) ==> r.Success?
      ensures BuiltTyped(snap, old(bundleDescriptors), bundleDescriptors, AlwaysBundle)
      ensures r.Success? && r.value.None? ==> HostsArray(obj).None? || HostsArray(obj).value == []
      ensures r.Success? && r.value.Some? ==>
                HostsArray(obj).Some? && HostsArray(obj).value != [] &&
                var last := HostsArray(obj).value[|HostsArray(obj).value| - 1];
                HostKey(last).Some? && HostKey(last).value in bundleDescriptors &&
                bundleDescriptors[HostKey(last).value] == r.value.value
      ensures forall id :: id in old(bundleDescriptors) ==> id in bundleDescriptors && bundleDescriptors[id] == old(bundleDescriptors)[id]
      ensures registeredServices == old(registeredServices) && usedServices == old(usedServices)
      ensures extensionPointsByBundle == old(extensionPointsByBundle) && extensionsByBundle == old(extensionsByBundle)
    {
      var hosts := HostsArray(obj);
      if hosts.None? {
        return Success(None);
      }
      var addresses := hosts.value;
      var host: Option<BundleDescriptor> := None;
      for i := 0 to |addresses|
        invariant Valid()
        invariant host.None? <==> i == 0
        invariant BuiltTyped(snap, old(bundleDescriptors), bundleDescriptors, AlwaysBundle)
        invariant host.Some? ==> HostKey(addresses[i - 1]).Some? && HostKey(addresses[i - 1]).value in bundleDescriptors &&
                                 bundleDescriptors[HostKey(addresses[i - 1]).value] == host.value
        invariant forall id :: id in old(bundleDescriptors) ==> id in bundleDescriptors && bundleDescriptors[id] == old(bundleDescriptors)[id]
        invariant registeredServices == old(registeredServices) && usedServices == old(usedServices)
        invariant extensionPointsByBundle == old(extensionPointsByBundle) && extensionsByBundle == old(extensionsByBundle)
      {
        var address := addresses[i];
        assert address in addresses;
        if address !in snap.addresses || snap.addresses[address] !in snap.objects {
          return Failure(UnknownObject);
        }
        var loader := snap.addresses[address];
        var bundle := ResolveObject(snap, loader, ["bundle"]);
        if bundle.None? {
          return Failure(NullPointer);
        }
        ghost var cache := bundleDescriptors;
        var d := GetBundleDescriptor(bundle.value, Bundle);
        if d.Failure? {
          return Failure(d.error);
        }
        CacheAfterBuilt(snap, cache, bundle.value, AlwaysBundle);
        BuiltTypedTrans(snap, old(bundleDescriptors), cache, bundleDescriptors, AlwaysBundle);
        host := Some(d.value);
      }
      return Success(host);
    }

    /** `getDependencies`: the descriptors of the bundles behind an array
        of bundle descriptions (`userObject.bundle`), skipping those
        without one, each typed as a fragment by its class name when it is
        built; `None` when the array is null. */
    method GetDependencies(descriptions: Option<int>) returns (r: Result<Option<seq<BundleDescriptor>>, Error>)
      requires Valid()
      requires descriptions.Some? ==> descriptions.value in snap.objects
      modifies this
      ensures Valid()
      ensures r.Success? ==> (r.value.None? <==> descriptions.None?)
      ensures r.Success? && r.value.Some? ==>
                snap.objects[descriptions.value].isArray &&
                DependencyHosts(snap, snap.objects[descriptions.value].elements).Some? &&
                DescribedAs(snap, bundleDescriptors, DependencyHosts(snap, snap.objects[descriptions.value].elements).value, r.value.value)
      ensures descriptions.None? ==> r == Success(None)
      ensures descriptions.Some? && snap.objects[descriptions.value].isArray &&
              DependencyHosts(snap, snap.objects[descriptions.value].elements).Some? &&
              DescribableByClass(snap, DependencyHosts(snap, snap.objects[descriptions.value].elements).value) ==>
                r.Success?
      ensures BuiltTyped(snap, old(bundleDescriptors), bundleDescriptors, ByClassName)
      ensures forall id :: id in old(bundleDescriptors) ==> id in bundleDescriptors && bundleDescriptors[id] == old(bundleDescriptors)[id]
      ensures registeredServices == old(registeredServices) && usedServices == old(usedServices)
      ensures extensionPointsByBundle == old(extensionPointsByBundle) && extensionsByBundle == old(extensionsByBundle)
    {
      if descriptions.None? {
        return Success(None);
      }
      if !snap.objects[descriptions.value].isArray {
        return Failure(ClassCast);
      }
      var addresses := snap.objects[descriptions.value].elements;
      var found: seq<BundleDescriptor> := [];
      for i := 0 to |addresses|
        invariant Valid()
        invariant DependencyHosts(snap, addresses[..i]).Some? &&
                  DescribedAs(snap, bundleDescriptors, DependencyHosts(snap, addresses[..i]).value, found)
        invariant BuiltTyped(snap, old(bundleDescriptors), bundleDescriptors, ByClassName)
        invariant forall id :: id in old(bundleDescriptors) ==> id in bundleDescriptors && bundleDescriptors[id] == old(bundleDescriptors)[id]
        invariant registeredServices == old(registeredServices) && usedServices == old(usedServices)
        invariant extensionPointsByBundle == old(extensionPointsByBundle) && extensionsByBundle == old(extensionsByBundle)
      {
        var address := addresses[i];
        assert addresses[..i + 1][..i] == addresses[..i];
        DependencyHostsPrefix(snap, addresses, i + 1);
        if address !in snap.addresses || snap.addresses[address] !in snap.objects {
          return Failure(UnknownObject);
        }
        var description := snap.addresses[address];
        var host := ResolveObject(snap, description, ["userObject", "bundle"]);
        if host.None? {
          continue;
        }
        ghost var cache := bundleDescriptors;
        var d := GetBundleDescriptor(host.value, TypeOf(snap, host.value));
        if d.Failure? {
          assert host.value in DependencyHosts(snap, addresses[..i + 1]).value;
          return Failure(d.error);
        }
        CacheAfterBuilt(snap, cache, host.value, ByClassName);
        BuiltTypedTrans(snap, old(bundleDescriptors), cache, bundleDescriptors, ByClassName);
        KeptDescribed(snap, cache, bundleDescriptors, DependencyHosts(snap, addresses[..i]).value, found);
        DescribedAppend(snap, bundleDescriptors, DependencyHosts(snap, addresses[..i]).value, found, [host.value], [d.value]);
        found := found + [d.value];
      }
      assert addresses[..|addresses|] == addresses;
      return Success(Some(found));
    }

    /** `getBundleDescriptors`: the descriptor of every non-zero entry of
        every repository's install-order array, in order, each typed as a
        fragment by its class name when it is built; `None` as soon as a
        repository has no such array; `repositories` are the instances of
        the first `BundleRepository` class (`None` when there is none). */
    method GetBundleDescriptors(repositories: Option<seq<int>>, cancel: Option<nat>)
      returns (r: Result<Option<seq<BundleDescriptor>>, Error>)
      requires Valid()
      modifies this
      ensures Valid()
      ensures repositories.None? ==> r == Success(Some([]))
      ensures r.Success? && r.value.Some? && repositories.Some? ==>
                cancel.None? || |repositories.value| <= cancel.value
      ensures r.Success? && r.value.None? ==> repositories.Some? && BundleAddresses(snap, repositories.value).None?
      ensures r.Success? && r.value.Some? && repositories.Some? ==>
                BundleAddresses(snap, repositories.value).Some? &&
                |r.value.value| == |BundleAddresses(snap, repositories.value).value| &&
                RepositoryObjects(snap, repositories.value).Some? &&
                DescribedAs(snap, bundleDescriptors, RepositoryObjects(snap, repositories.value).value, r.value.value)
      ensures r == Failure(Canceled) ==> repositories.Some? && cancel.Some? && cancel.value < |repositories.value|
      ensures repositories.Some? && (cancel.None? || |repositories.value| <= cancel.value) &&
              (forall repository :: repository in repositories.value ==> RepositoryReadable(snap, repository)) ==>
                r.Success?
      ensures BuiltTyped(snap, old(bundleDescriptors), bundleDescriptors, ByClassName)
      ensures forall id :: id in old(bundleDescriptors) ==> id in bundleDescriptors && bundleDescriptors[id] == old(bundleDescriptors)[id]
      ensures registeredServices == old(registeredServices) && usedServices == old(usedServices)
      ensures extensionPointsByBundle == old(extensionPointsByBundle) && extensionsByBundle == old(extensionsByBundle)
    {
      if repositories.None? {
        return Success(Some([]));
      }
      var objs := repositories.value;
      var descriptors: seq<BundleDescriptor> := [];
      for i := 0 to |objs|
        invariant Valid()
        invariant cancel.None? || i <= cancel.value
        invariant BundleAddresses(snap, objs[..i]).Some? && |descriptors| == |BundleAddresses(snap, objs[..i]).value|
        invariant RepositoryObjects(snap, objs[..i]).Some? &&
                  DescribedAs(snap, bundleDescriptors, RepositoryObjects(snap, objs[..i]).value, descriptors)
        invariant BuiltTyped(snap, old(bundleDescriptors), bundleDescriptors, ByClassName)
        invariant forall id :: id in old(bundleDescriptors) ==> id in bundleDescriptors && bundleDescriptors[id] == old(bundleDescriptors)[id]
        invariant registeredServices == old(registeredServices) && usedServices == old(usedServices)
        invariant extensionPointsByBundle == old(extensionPointsByBundle) && extensionsByBundle == old(extensionsByBundle)
      {
        if cancel.Some? && cancel.value <= i {
          return Failure(Canceled);
        }
        assert objs[i] in objs;
        if objs[i] !in snap.objects {
          assert !RepositoryReadable(snap, objs[i]);
          return Failure(UnknownObject);
        }
        assert objs[..i + 1][..i] == objs[..i];
        var bundlesArray := InstallOrder(snap, objs[i]);
        if bundlesArray.None? {
          BundleAddressesMissing(snap, objs, i + 1);
          return Success(None);
        }
        if !snap.objects[bundlesArray.value].isArray {
          return Failure(ClassCast);
        }
        var addresses := snap.objects[bundlesArray.value].elements;
        ghost var cache := bundleDescriptors;
        var found := DescriptorsOf(addresses);
        if found.Failure? {
          return Failure(found.error);
        }
        BuiltTypedTrans(snap, old(bundleDescriptors), cache, bundleDescriptors, ByClassName);
        KeptDescribed(snap, cache, bundleDescriptors, RepositoryObjects(snap, objs[..i]).value, descriptors);
        DescribedAppend(snap, bundleDescriptors, RepositoryObjects(snap, objs[..i]).value, descriptors,
                        BundleObjects(snap, addresses).value, found.value);
        descriptors := descriptors + found.value;
      }
      assert objs[..|objs|] == objs;
      return Success(Some(descriptors));
    }

    /** The inner loop of `getBundleDescriptors`: the descriptor of every
        non-zero address of one install-order array, in order, each typed
        as a fragment by its class name when it is built. */
    method DescriptorsOf(addresses: seq<int>) returns (r: Result<seq<BundleDescriptor>, Error>)
      requires Valid()
      modifies this
      ensures Valid()
      ensures r.Success? ==> |r.value| == |NonZero(addresses)|
      ensures r.Failure? ==> r.error != Canceled
      ensures r.Success? ==> BundleObjects(snap, addresses).Some? &&
                             DescribedAs(snap, bundleDescriptors, BundleObjects(snap, addresses).value, r.value)
      ensures BundleObjects(snap, addresses).Some? && DescribableByClass(snap, BundleObjects(snap, addresses).value) ==>
                r.Success?
      ensures BuiltTyped(snap, old(bundleDescriptors), bundleDescriptors, ByClassName)
      ensures forall id :: id in old(bundleDescriptors) ==> id in bundleDescriptors && bundleDescriptors[id] == old(bundleDescriptors)[id]
      ensures registeredServices == old(registeredServices) && usedServices == old(usedServices)
      ensures extensionPointsByBundle == old(extensionPointsByBundle) && extensionsByBundle == old(extensionsByBundle)
    {
      var descriptors: seq<BundleDescriptor> := [];
      for j := 0 to |addresses|
        invariant Valid()
        invariant |descriptors| == |NonZero(addresses[..j])|
        invariant BundleObjects(snap, addresses[..j]).Some? &&
                  DescribedAs(snap, bundleDescriptors, BundleObjects(snap, addresses[..j]).value, descriptors)
        invariant BuiltTyped(snap, old(bundleDescriptors), bundleDescriptors, ByClassName)
        invariant forall id :: id in old(bundleDescriptors) ==> id in bundleDescriptors && bundleDescriptors[id] == old(bundleDescriptors)[id]
        invariant registeredServices == old(registeredServices) && usedServices == old(usedServices)
        invariant extensionPointsByBundle == old(extensionPointsByBundle) && extensionsByBundle == old(extensionsByBundle)
      {
        var address := addresses[j];
        assert addresses[..j + 1][..j] == addresses[..j];
        if address == 0 {
          continue;
        }
        BundleObjectsPrefix(snap, addresses, j + 1);
        if address !in snap.addresses || snap.addresses[address] !in snap.objects {
          return Failure(UnknownObject);
        }
        var bundleObject := snap.addresses[address];
        ghost var cache := bundleDescriptors;
        var d := GetBundleDescriptor(bundleObject, TypeOf(snap, bundleObject));
        if d.Failure? {
          assert bundleObject in BundleObjects(snap, addresses[..j + 1]).value;
          return Failure(d.error);
        }
        CacheAfterBuilt(snap, cache, bundleObject, ByClassName);
        BuiltTypedTrans(snap, old(bundleDescriptors), cache, bundleDescriptors, ByClassName);
        KeptDescribed(snap, cache, bundleDescriptors, BundleObjects(snap, addresses[..j]).value, descriptors);
        DescribedAppend(snap, bundleDescriptors, BundleObjects(snap, addresses[..j]).value, descriptors, [bundleObject], [d.value]);
        descriptors := descriptors + [d.value];
      }
      assert addresses[..|addresses|] == addresses;
      return Success(descriptors);
    }

    /** The first byBundle loop of `collectExtensionsInfo`. */
    method FillExtensionsByBundle(extensions: map<int, Extension>)
      requires Valid()
      modifies this
      ensures Valid()
      ensures forall k :: k in extensions ==>
                extensions[k].contributedBy in extensionsByBundle &&
                extensions[k] in extensionsByBundle[extensions[k].contributedBy]
      ensures forall b, x :: b in extensionsByBundle && x in extensionsByBundle[b] ==>
                (b in old(extensionsByBundle) && x in old(extensionsByBundle)[b]) ||
                (x in extensions.Values && x.contributedBy == b)
      ensures forall b :: b in old(extensionsByBundle) ==> b in extensionsByBundle && old(extensionsByBundle)[b] <= extensionsByBundle[b]
      ensures extensionPointsByBundle == old(extensionPointsByBundle) && bundleDescriptors == old(bundleDescriptors)
      ensures registeredServices == old(registeredServices) && usedServices == old(usedServices)
    {
      var owner := (e: Extension) => e.contributedBy;
      extensionsByBundle := GroupByBundle(extensionsByBundle, extensions, owner);
      forall b, x | b in extensionsByBundle && x in extensionsByBundle[b] && !(b in old(extensionsByBundle) && x in old(extensionsByBundle)[b])
        ensures x in extensions.Values && x.contributedBy == b
      {
        assert owner(x) == x.contributedBy;
      }
    }

    /** The second byBundle loop of `collectExtensionsInfo`. */
    method FillExtensionPointsByBundle(extensionPoints: map<string, ExtensionPoint>)
      requires Valid()
      modifies this
      ensures Valid()
      ensures forall n :: n in extensionPoints ==>
                extensionPoints[n].contributedBy in extensionPointsByBundle &&
                extensionPoints[n] in extensionPointsByBundle[extensionPoints[n].contributedBy]
      ensures forall b, x :: b in extensionPointsByBundle && x in extensionPointsByBundle[b] ==>
                (b in old(extensionPointsByBundle) && x in old(extensionPointsByBundle)[b]) ||
                (x in extensionPoints.Values && x.contributedBy == b)
      ensures forall b :: b in old(extensionPointsByBundle) ==>
                b in extensionPointsByBundle && old(extensionPointsByBundle)[b] <= extensionPointsByBundle[b]
      ensures extensionsByBundle == old(extensionsByBundle) && bundleDescriptors == old(bundleDescriptors)
      ensures registeredServices == old(registeredServices) && usedServices == old(usedServices)
    {
      var owner := (p: ExtensionPoint) => p.contributedBy;
      extensionPointsByBundle := GroupByBundle(extensionPointsByBundle, extensionPoints, owner);
      forall b, x | b in extensionPointsByBundle && x in extensionPointsByBundle[b] &&
                    !(b in old(extensionPointsByBundle) && x in old(extensionPointsByBundle)[b])
        ensures x in extensionPoints.Values && x.contributedBy == b
      {
        assert owner(x) == x.contributedBy;
      }
    }

    /** The list `collectExtensionsInfo` returns: every extension point
        listed under some bundle, each once. */
    method ExtensionPointList() returns (points: seq<ExtensionPoint>)
      ensures NoDuplicates(points)
      ensures forall p :: p in points <==> exists b :: b in extensionPointsByBundle && p in extensionPointsByBundle[b]
    {
      points := [];
      var remaining := extensionPointsByBundle.Keys;
      while remaining != {}
        invariant remaining <= extensionPointsByBundle.Keys
        invariant NoDuplicates(points)
        invariant forall p :: p in points ==> exists b :: b in extensionPointsByBundle && p in extensionPointsByBundle[b]
        invariant forall b, p :: b in extensionPointsByBundle && b !in remaining && p in extensionPointsByBundle[b] ==> p in points
        decreases remaining
      {
        var b :| b in remaining;
        var list := extensionPointsByBundle[b];
        for i := 0 to |list|
          invariant NoDuplicates(points)
          invariant forall p :: p in points ==> exists b :: b in extensionPointsByBundle && p in extensionPointsByBundle[b]
          invariant forall b, p :: b in extensionPointsByBundle && b !in remaining && p in extensionPointsByBundle[b] ==> p in points
          invariant forall j :: 0 <= j < i ==> list[j] in points
        {
          if list[i] !in points {
            points := points + [list[i]];
          }
        }
        remaining := remaining - {b};
      }
    }
  }

  /** Descriptors matched to objects in an old cache stay matched in a
      cache that kept every old entry. */
  lemma KeptDescribed(snap: Snapshot, before: map<Option<int>, BundleDescriptor>,
                      after: map<Option<int>, BundleDescriptor>, objs: seq<int>, found: seq<BundleDescriptor>)
    requires DescribedAs(snap, before, objs, found)
    requires forall id :: id in before ==> id in after && after[id] == before[id]
    ensures DescribedAs(snap, after, objs, found)
  {
    forall k | 0 <= k < |objs| ensures CachedAs(snap, after, objs[k], found[k]) {
      assert CachedAs(snap, before, objs[k], found[k]);
    }
  }

  /** Matched descriptors of two object lists concatenate. */
  lemma DescribedAppend(snap: Snapshot, cache: map<Option<int>, BundleDescriptor>,
                        objs: seq<int>, found: seq<BundleDescriptor>, more: seq<int>, moreFound: seq<BundleDescriptor>)
    requires DescribedAs(snap, cache, objs, found) && DescribedAs(snap, cache, more, moreFound)
    ensures DescribedAs(snap, cache, objs + more, found + moreFound)
  {
    forall k | 0 <= k < |objs + more| ensures CachedAs(snap, cache, (objs + more)[k], (found + moreFound)[k]) {
      if k < |objs| {
        assert CachedAs(snap, cache, objs[k], found[k]);
      } else {
        assert CachedAs(snap, cache, more[k - |objs|], moreFound[k - |objs|]);
      }
    }
  }

  /** Entries built with one typing over two steps were built with it over
      both. */
  lemma BuiltTypedTrans(snap: Snapshot, first: map<Option<int>, BundleDescriptor>,
                        mid: map<Option<int>, BundleDescriptor>, last: map<Option<int>, BundleDescriptor>, typing: Typing)
    requires BuiltTyped(snap, first, mid, typing) && BuiltTyped(snap, mid, last, typing)
    requires forall id :: id in mid ==> id in last && last[id] == mid[id]
    ensures BuiltTyped(snap, first, last, typing)
  {
  }

  /** A lookup typed as `typing` says adds only an entry built with that
      typing. */
  lemma CacheAfterBuilt(snap: Snapshot, cache: map<Option<int>, BundleDescriptor>, obj: int, typing: Typing)
    requires obj in snap.objects
    ensures BuiltTyped(snap, cache, CacheAfter(snap, cache, obj, TypeFor(snap, obj, typing)), typing)
  {
  }

  /** The objects of a prefix of an address array are a prefix of the
      objects of the whole array. */
  lemma {:induction false} BundleObjectsPrefix(snap: Snapshot, addresses: seq<int>, n: nat)
    requires n <= |addresses|
    ensures BundleObjects(snap, addresses).Some? ==>
              BundleObjects(snap, addresses[..n]).Some? &&
              BundleObjects(snap, addresses[..n]).value <= BundleObjects(snap, addresses).value
    decreases |addresses| - n
  {
    if n < |addresses| {
      BundleObjectsPrefix(snap, addresses, n + 1);
      assert addresses[..n + 1][..n] == addresses[..n];
    } else {
      assert addresses[..n] == addresses;
    }
  }

  /** The hosts of a prefix of a description array are a prefix of the
      hosts of the whole array. */
  lemma {:induction false} DependencyHostsPrefix(snap: Snapshot, addresses: seq<int>, n: nat)
    requires n <= |addresses|
    ensures DependencyHosts(snap, addresses).Some? ==>
              DependencyHosts(snap, addresses[..n]).Some? &&
              DependencyHosts(snap, addresses[..n]).value <= DependencyHosts(snap, addresses).value
    decreases |addresses| - n
  {
    if n < |addresses| {
      DependencyHostsPrefix(snap, addresses, n + 1);
      assert addresses[..n + 1][..n] == addresses[..n];
    } else {
      assert addresses[..n] == addresses;
    }
  }

  /** A multimap whose lists were only extended still holds every element
      of the older one. */
  lemma KeptLists<K, V>(before: map<K, seq<V>>, after: map<K, seq<V>>)
    requires forall k :: k in before ==> k in after && before[k] <= after[k]
    ensures forall k, x :: k in before && x in before[k] ==> x in after[k]
  {
    forall k, x | k in before && x in before[k] ensures x in after[k] {
      var i :| 0 <= i < |before[k]| && before[k][i] == x;
      assert after[k][i] == x;
    }
  }
}
