/** The "Extract Hash Set Values" query: the elements of a `HashSet` (or of
    a custom hash set class) read from the heap by walking the entry chains
    of its backing table. */
module HashSetValues {
  import opened Wrappers
  import opened Heap

  /** Where a hash set keeps its table and, in each table entry, its key.
      CollectionUtil's lookup of these names for the JDK classes is not part
      of this model; its answer is an input. */
  datatype CollectionInfo = CollectionInfo(backingArrayField: string, entryKeyField: string)

  /** The query's arguments. */
  datatype Arguments = Arguments(hashSet: int, collection: Option<string>, arrayAttribute: Option<string>,
                                 keyAttribute: Option<string>)

  /** What the query reads beside the heap: the dump format, the set's
      display name, and CollectionUtil's info for the set (`None` for null). */
  datatype Environment = Environment(format: string, displayName: string, jdkInfo: Option<CollectionInfo>)

  /** How the query fails: an unsupported dump format, the two argument
      errors with their messages, a null or mistyped reference on the way to
      the entries, cancellation, and an entry chain that runs in a cycle. */
  datatype Error =
    | UnsupportedFormat
    | SnapshotError(message: string)
    | IllegalArgument(message: string)
    | BrokenReference
    | Canceled
    | Cyclic

  const CustomCollectionMessage: string :=
    "If the collection argument is set to a custom (e.g. non-JDK) collection class, "
    + "the array_attribute and key_attribute arguments must be set. "
    + "Otherwise, the query cannot determine the contents of the hash set."

  function NotAHashSetMessage(displayName: string): string {
    "Not a hash set: " + displayName
  }

  /** Which table layout applies: the custom class when the set extends it
      (both attribute names are then required), else the JDK layout for a
      `java.util.HashSet`, else an error. */
  function SelectInfo(snap: Snapshot, args: Arguments, env: Environment): (r: Result<CollectionInfo, Error>)
    ensures r.Failure? && r.error == SnapshotError(CustomCollectionMessage) <==>
              args.collection.Some? && DoesExtend(snap, args.hashSet, args.collection.value) &&
              (args.arrayAttribute.None? || args.keyAttribute.None?)
    ensures r.Failure? && r.error.IllegalArgument? ==>
              !DoesExtend(snap, args.hashSet, "java.util.HashSet") && r.error.message == "Not a hash set: " + env.displayName
    ensures args.collection.Some? && DoesExtend(snap, args.hashSet, args.collection.value) &&
            args.arrayAttribute.Some? && args.keyAttribute.Some? ==>
              r == Success(CollectionInfo(args.arrayAttribute.value, args.keyAttribute.value))
    ensures !(args.collection.Some? && DoesExtend(snap, args.hashSet, args.collection.value)) ==>
              (DoesExtend(snap, args.hashSet, "java.util.HashSet") ==>
                 (r.Success? <==> env.jdkInfo.Some?) && (r.Success? ==> r.value == env.jdkInfo.value) &&
                 (r.Failure? ==> r.error == BrokenReference)) &&
              (!DoesExtend(snap, args.hashSet, "java.util.HashSet") ==>
                 r == Failure(IllegalArgument(NotAHashSetMessage(env.displayName))))
  {
    if args.collection.Some? && DoesExtend(snap, args.hashSet, args.collection.value) then
      if args.arrayAttribute.None? || args.keyAttribute.None? then Failure(SnapshotError(CustomCollectionMessage))
      else Success(CollectionInfo(args.arrayAttribute.value, args.keyAttribute.value))
    else if DoesExtend(snap, args.hashSet, "java.util.HashSet") then
      match env.jdkInfo
      case None => Failure(BrokenReference)
      case Some(info) => Success(info)
    else Failure(IllegalArgument(NotAHashSetMessage(env.displayName)))
  }

  // ---------------------------------------------------------------------
  // The path to the table
  // ---------------------------------------------------------------------

  /** `String.lastIndexOf(c)`: the last position of `c`, or -1. */
  function LastIndexOf(s: string, c: char): (r: int)
    ensures -1 <= r < |s|
    ensures r >= 0 ==> s[r] == c
    ensures forall j :: r < j < |s| ==> s[j] != c
  {
    if s == [] then -1
    else if s[|s| - 1] == c then |s| - 1
    else LastIndexOf(s[..|s| - 1], c)
  }

  /** A dotted path cut into its segments. */
  function SplitDots(s: string): (r: seq<string>)
    ensures |r| >= 1
    decreases |s|
  {
    var p := LastIndexOf(s, '.');
    if p < 0 then [s] else SplitDots(s[..p]) + [s[p + 1..]]
  }

  function JoinDots(segments: seq<string>): string
    requires |segments| >= 1
  {
    if |segments| == 1 then segments[0]
    else JoinDots(segments[..|segments| - 1]) + "." + segments[|segments| - 1]
  }

  /** Cutting a path at its dots loses nothing, and no segment holds a dot. */
  lemma {:induction false} SplitDotsRoundTrip(s: string)
    ensures JoinDots(SplitDots(s)) == s
    ensures forall k :: 0 <= k < |SplitDots(s)| ==> '.' !in SplitDots(s)[k]
    decreases |s|
  {
    var p := LastIndexOf(s, '.');
    if p >= 0 {
      var head := SplitDots(s[..p]);
      SplitDotsRoundTrip(s[..p]);
      assert (head + [s[p + 1..]])[..|head|] == head;
      assert s == s[..p] + "." + s[p + 1..];
      forall k | 0 <= k < |SplitDots(s)| ensures '.' !in SplitDots(s)[k] {
        if k == |head| {
          var tail := s[p + 1..];
          forall j | 0 <= j < |tail| ensures tail[j] != '.' {
            assert tail[j] == s[p + 1 + j];
          }
        }
      }
    }
  }

  /** The table field, read as `execute` reads it: a path without a dot
      names a field of the set; otherwise the part before the last dot is
      resolved from the set and the part after it is read there.  `None`
      stands for the null the lookup ends in. */
  function TableField(snap: Snapshot, hashSet: int, arrayField: string): Option<FieldValue>
  {
    var p := LastIndexOf(arrayField, '.');
    if p < 0 then Field(snap, hashSet, arrayField)
    else match ResolveObject(snap, hashSet, SplitDots(arrayField[..p]))
      case Some(m) => Field(snap, m, arrayField[p + 1..])
      case None => None
  }

  /** Splitting at the last dot reads the same field as resolving the whole
      dotted path from the set. */
  lemma TableFieldResolvesPath(snap: Snapshot, hashSet: int, arrayField: string)
    ensures TableField(snap, hashSet, arrayField) == Resolve(snap, hashSet, SplitDots(arrayField))
  {
    var p := LastIndexOf(arrayField, '.');
    if p >= 0 {
      ResolveSplit(snap, hashSet, SplitDots(arrayField[..p]), [arrayField[p + 1..]]);
    }
  }

  /** The id of the table object. */
  function TableId(snap: Snapshot, hashSet: int, arrayField: string): (r: Result<int, Error>)
    ensures r.Success? ==> r.value in snap.objects
  {
    match TableField(snap, hashSet, arrayField)
    case Some(Ref(t)) => if t in snap.objects then Success(t) else Failure(BrokenReference)
    case _ => Failure(BrokenReference)
  }

  // ---------------------------------------------------------------------
  // The chain walk
  // ---------------------------------------------------------------------

  /** How a walk ends: the chain is done, a reference on it is null or
      mistyped, or it has visited more entries than the heap has objects,
      which only a cycle allows. */
  datatype End = Done | Broken | Looping

  /** The keys a walk collects, in chain order, and how it ends. */
  datatype Chain = Chain(keys: seq<int>, end: End)

  /** The id `next` refers to, -1 for null; `None` when the field is
      missing or not a reference. */
  function NextOf(snap: Snapshot, id: int): Option<int>
  {
    match Field(snap, id, "next")
    case Some(NullRef) => Some(-1)
    case Some(Ref(n)) => Some(n)
    case _ => None
  }

  /** The id the key field refers to; `None` when it is null, missing or
      not a reference. */
  function KeyOf(snap: Snapshot, id: int, keyField: string): Option<int>
  {
    match Field(snap, id, keyField)
    case Some(Ref(k)) => Some(k)
    case _ => None
  }

  /** `collectEntry`: from entry `id`, append each entry's key and follow
      `next` until it is null; a class id (the table's pseudo reference to
      its class) ends the walk without a key.  `fuel` bounds the number of
      entries visited. */
  function Walk(snap: Snapshot, id: int, keyField: string, fuel: nat): (c: Chain)
    ensures |c.keys| <= fuel
    decreases fuel
  {
    if id < 0 then Chain([], Done)
    else if id !in snap.objects then Chain([], Broken)
    else if snap.objects[id].isClass then Chain([], Done)
    else if fuel == 0 then Chain([], Looping)
    else match (NextOf(snap, id), KeyOf(snap, id, keyField))
      case (Some(next), Some(key)) =>
        var rest := Walk(snap, next, keyField, fuel - 1);
        Chain([key] + rest.keys, rest.end)
      case _ => Chain([], Broken)
  }

  /** Every key a walk collects is the key of some entry of the heap. */
  lemma {:induction false} WalkKeysAreEntryKeys(snap: Snapshot, id: int, keyField: string, fuel: nat)
    ensures forall k :: k in Walk(snap, id, keyField, fuel).keys ==>
              exists e :: e in snap.objects && !snap.objects[e].isClass && KeyOf(snap, e, keyField) == Some(k)
    decreases fuel
  {
    if id >= 0 && id in snap.objects && !snap.objects[id].isClass && fuel > 0 {
      match NextOf(snap, id) {
        case Some(next) =>
          WalkKeysAreEntryKeys(snap, next, keyField, fuel - 1);
        case None =>
      }
    }
  }

  /** More fuel changes nothing once a walk has finished. */
  lemma {:induction false} WalkFuelMonotone(snap: Snapshot, id: int, keyField: string, fuel: nat, more: nat)
    requires fuel <= more && Walk(snap, id, keyField, fuel).end != Looping
    ensures Walk(snap, id, keyField, more) == Walk(snap, id, keyField, fuel)
    decreases fuel
  {
    if id >= 0 && id in snap.objects && !snap.objects[id].isClass && fuel > 0 {
      match (NextOf(snap, id), KeyOf(snap, id, keyField)) {
        case (Some(next), Some(key)) =>
          WalkFuelMonotone(snap, next, keyField, fuel - 1, more - 1);
        case _ =>
      }
    }
  }

  /** The walks of the table's outbound references, in their order,
      stopping at the first that does not end normally. */
  function CollectAll(snap: Snapshot, outbounds: seq<int>, keyField: string): (c: Chain)
  {
    if outbounds == [] then Chain([], Done)
    else
      var before := CollectAll(snap, outbounds[..|outbounds| - 1], keyField);
      if before.end != Done then before
      else
        var w := Walk(snap, outbounds[|outbounds| - 1], keyField, |snap.objects|);
        Chain(before.keys + w.keys, w.end)
  }

  /** The keys collected from a prefix of the outbound references are a
      prefix of all the keys, and a walk that breaks ends the collection. */
  lemma {:induction false} CollectAllPrefix(snap: Snapshot, outbounds: seq<int>, keyField: string, n: nat)
    requires n <= |outbounds|
    ensures CollectAll(snap, outbounds[..n], keyField).keys <= CollectAll(snap, outbounds, keyField).keys
    ensures CollectAll(snap, outbounds[..n], keyField).end != Done ==>
              CollectAll(snap, outbounds, keyField) == CollectAll(snap, outbounds[..n], keyField)
    decreases |outbounds| - n
  {
    if n == |outbounds| {
      assert outbounds[..n] == outbounds;
    } else {
      CollectAllPrefix(snap, outbounds, keyField, n + 1);
      assert outbounds[..n + 1][..n] == outbounds[..n];
    }
  }

  /** The outcome given the listener: `cancel == Some(k)` raises the
      cancel flag before the `k`-th test.  There is a test after every
      collected key and a final one, so a canceled query never returns. */
  function Final(c: Chain, cancel: Option<nat>): Result<seq<int>, Error>
  {
    match cancel
    case Some(k) =>
      if k < |c.keys| || c.end != Broken then Failure(Canceled) else Failure(BrokenReference)
    case None =>
      match c.end
      case Done => Success(c.keys)
      case Broken => Failure(BrokenReference)
      case Looping => Failure(Cyclic)
  }

  /** The whole query. */
  function HashSetValuesResult(snap: Snapshot, args: Arguments, env: Environment, cancel: Option<nat>)
    : Result<seq<int>, Error>
  {
    if env.format == "phd" then Failure(UnsupportedFormat)
    else match SelectInfo(snap, args, env)
      case Failure(e) => Failure(e)
      case Success(info) =>
        match TableId(snap, args.hashSet, info.backingArrayField)
        case Failure(e) => Failure(e)
        case Success(t) => Final(CollectAll(snap, snap.objects[t].outbound, info.entryKeyField), cancel)
  }

  /** A canceled query raises; an uncanceled one that succeeds returns the
      keys of all chains of the table, in order. */
  lemma CancellationRaises(snap: Snapshot, args: Arguments, env: Environment, cancel: Option<nat>)
    ensures cancel.Some? ==> HashSetValuesResult(snap, args, env, cancel).Failure?
    ensures var r := HashSetValuesResult(snap, args, env, cancel);
            r.Success? ==>
              (cancel.None? && env.format != "phd" &&
               exists info, t :: SelectInfo(snap, args, env) == Success(info) &&
                                 TableId(snap, args.hashSet, info.backingArrayField) == Success(t) &&
                                 CollectAll(snap, snap.objects[t].outbound, info.entryKeyField) == Chain(r.value, Done))
  {
  }

  /** What `collectEntry` leaves behind. */
  datatype Status = Running | Broke | CanceledNow | Looped

  function StatusOf(end: End): Status {
    match end
    case Done => Running
    case Broken => Broke
    case Looping => Looped
  }

  /** `collectEntry`: the walk from `entryId`, appending to `entries` and
      testing the cancel flag after each key. */
  method CollectEntry(snap: Snapshot, entryId: int, keyField: string, cancel: Option<nat>, entries: seq<int>)
    returns (result: seq<int>, status: Status)
    requires cancel.None? || cancel.value >= |entries|
    ensures var c := Walk(snap, entryId, keyField, |snap.objects|);
            if cancel.Some? && cancel.value < |entries| + |c.keys| then
              status == CanceledNow && result == entries + c.keys[..cancel.value - |entries| + 1]
            else
              result == entries + c.keys && status == StatusOf(c.end)
  {
    ghost var whole := Walk(snap, entryId, keyField, |snap.objects|);
    var id := entryId;
    var fuel: nat := |snap.objects|;
    ghost var collected: seq<int> := [];
    ghost var here := whole;
    result := entries;
    while id >= 0
      invariant result == entries + collected
      invariant cancel.None? || cancel.value >= |result|
      invariant here == Walk(snap, id, keyField, fuel)
      invariant whole == Chain(collected + here.keys, here.end)
      decreases fuel, if id >= 0 then 1 else 0
    {
      if id !in snap.objects {
        assert here == Chain([], Broken);
        assert collected + [] == collected;
        return result, Broke;
      }
      if snap.objects[id].isClass {
        assert here == Chain([], Done);
        assert collected + [] == collected;
        return result, Running;
      }
      if fuel == 0 {
        assert here == Chain([], Looping);
        assert collected + [] == collected;
        return result, Looped;
      }
      var next := NextOf(snap, id);
      var key := KeyOf(snap, id, keyField);
      if next.None? || key.None? {
        assert here == Chain([], Broken);
        assert collected + [] == collected;
        return result, Broke;
      }
      ghost var rest := Walk(snap, next.value, keyField, fuel - 1);
      assert here == Chain([key.value] + rest.keys, rest.end);
      assert collected + here.keys == (collected + [key.value]) + rest.keys;
      result := result + [key.value];
      collected := collected + [key.value];
      here := rest;
      if cancel.Some? && cancel.value < |result| {
        assert whole.keys[..cancel.value - |entries| + 1] == collected;
        return result, CanceledNow;
      }
      id := next.value;
      fuel := fuel - 1;
    }
    assert here == Chain([], Done);
    assert collected + [] == collected;
    status := Running;
  }

  /** The loop of `execute` over the table's outbound references and the
      final cancellation test. */
  method CollectAllEntries(snap: Snapshot, outbounds: seq<int>, keyField: string, cancel: Option<nat>)
    returns (r: Result<seq<int>, Error>)
    ensures r == Final(CollectAll(snap, outbounds, keyField), cancel)
  {
    var entries: seq<int> := [];
    for ii := 0 to |outbounds|
      invariant CollectAll(snap, outbounds[..ii], keyField) == Chain(entries, Done)
      invariant cancel.None? || cancel.value >= |entries|
    {
      assert outbounds[..ii + 1][..ii] == outbounds[..ii];
      var status;
      entries, status := CollectEntry(snap, outbounds[ii], keyField, cancel, entries);
      if status != Running {
        CollectAllPrefix(snap, outbounds, keyField, ii + 1);
        if status == CanceledNow {
          return Failure(Canceled);
        }
        return if status == Broke then Final(Chain(entries, Broken), cancel) else Final(Chain(entries, Looping), cancel);
      }
    }
    assert outbounds[..|outbounds|] == outbounds;
    if cancel.Some? {
      return Failure(Canceled);
    }
    return Success(entries);
  }

  /** `execute`. */
  method Execute(snap: Snapshot, args: Arguments, env: Environment, cancel: Option<nat>) returns (r: Result<seq<int>, Error>)
    ensures r == HashSetValuesResult(snap, args, env, cancel)
  {
    if env.format == "phd" {
      return Failure(UnsupportedFormat);
    }
    var info: CollectionInfo;
    if args.collection.Some? && DoesExtend(snap, args.hashSet, args.collection.value) {
      if args.arrayAttribute.None? || args.keyAttribute.None? {
        return Failure(SnapshotError(CustomCollectionMessage));
      }
      info := CollectionInfo(args.arrayAttribute.value, args.keyAttribute.value);
    } else if DoesExtend(snap, args.hashSet, "java.util.HashSet") {
      if env.jdkInfo.None? {
        return Failure(BrokenReference);
      }
      info := env.jdkInfo.value;
    } else {
      return Failure(IllegalArgument(NotAHashSetMessage(env.displayName)));
    }

    var arrayField := info.backingArrayField;
    var p := LastIndexOf(arrayField, '.');
    var table: Option<FieldValue>;
    if p < 0 {
      table := Field(snap, args.hashSet, arrayField);
    } else {
      var owner := ResolveObject(snap, args.hashSet, SplitDots(arrayField[..p]));
      if owner.None? {
        return Failure(BrokenReference);
      }
      table := Field(snap, owner.value, arrayField[p + 1..]);
    }
    if !(table.Some? && table.value.Ref? && table.value.id in snap.objects) {
      return Failure(BrokenReference);
    }
    assert TableId(snap, args.hashSet, info.backingArrayField) == Success(table.value.id);
    r := CollectAllEntries(snap, snap.objects[table.value.id].outbound, info.entryKeyField, cancel);
  }
}
