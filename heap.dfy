/** The abstract snapshot the inspections read: a map from object id to an
    object record.  It stands for the snapshot interface, whose
    implementation is not part of this model: `getObject`, `isClass`,
    `isArray`, `isClassLoader`, `getOutboundReferentIds`, `mapAddressToId`,
    `IObject.resolveValue`, `IInstance.getField`, `IClass.doesExtend` and
    `getClassSpecificName` all become lookups in this map. */
module Heap {
  import opened Wrappers

  /** What a field holds: a reference to another object, Java `null`, or a
      primitive (integral) value. */
  datatype FieldValue = Ref(id: int) | NullRef | Prim(n: int)

  /** One object of the snapshot.  `ancestors` holds the names of its class
      and of every superclass (what `doesExtend` consults); `specificName`
      is what the class-specific name resolvers report (a String's text, for
      instance); `elements` is the address list of an object array and
      `outbound` the outbound referent ids, the class pseudo-reference first. */
  datatype HeapObject = HeapObject(
    className: string,
    classId: int,
    ancestors: set<string>,
    isClass: bool,
    isArray: bool,
    isClassLoader: bool,
    fields: map<string, FieldValue>,
    specificName: Option<string>,
    elements: seq<int>,
    outbound: seq<int>)

  /** `objects` maps object ids to records; `addresses` maps an object's
      address to its id. */
  datatype Snapshot = Snapshot(objects: map<int, HeapObject>, addresses: map<int, int>)

  /** `IInstance.getField(name).getValue()`; `None` when the object or the
      field does not exist. */
  function Field(snap: Snapshot, id: int, name: string): Option<FieldValue>
  {
    if id in snap.objects && name in snap.objects[id].fields then Some(snap.objects[id].fields[name]) else None
  }

  /** `resolveValue` along a dotted path, given as its segments: every
      segment but the last must hold a reference to an existing object. */
  function Resolve(snap: Snapshot, id: int, path: seq<string>): Option<FieldValue>
    decreases |path|
  {
    if path == [] then None
    else if |path| == 1 then Field(snap, id, path[0])
    else match Field(snap, id, path[0])
      case Some(Ref(next)) => if next in snap.objects then Resolve(snap, next, path[1..]) else None
      case _ => None
  }

  /** `(IObject) resolveValue(path)`: the id of the object at the end of the
      path, or `None` for Java `null` and for a path that ends anywhere
      else (a missing field, a primitive, an unknown object). */
  function ResolveObject(snap: Snapshot, id: int, path: seq<string>): (r: Option<int>)
    ensures r.Some? ==> r.value in snap.objects
  {
    match Resolve(snap, id, path)
    case Some(Ref(x)) => if x in snap.objects then Some(x) else None
    case _ => None
  }

  /** `(Integer) resolveValue(path)`: the primitive at the end of the path,
      `None` when the path ends anywhere else. */
  function ResolveInt(snap: Snapshot, id: int, path: seq<string>): Option<int>
  {
    match Resolve(snap, id, path)
    case Some(Prim(n)) => Some(n)
    case _ => None
  }

  /** `IObject.getClassSpecificName()`. */
  function ClassSpecificName(snap: Snapshot, id: int): Option<string>
  {
    if id in snap.objects then snap.objects[id].specificName else None
  }

  /** `IClass.doesExtend(name)` for the class of object `id`. */
  predicate DoesExtend(snap: Snapshot, id: int, name: string)
  {
    id in snap.objects && name in snap.objects[id].ancestors
  }

  /** Resolving a path in two steps, the head to an object and then the
      tail from there, is resolving the whole path. */
  lemma {:induction false} ResolveSplit(snap: Snapshot, id: int, head: seq<string>, tail: seq<string>)
    requires head != [] && tail != []
    ensures Resolve(snap, id, head + tail) ==
              match ResolveObject(snap, id, head)
              case Some(mid) => Resolve(snap, mid, tail)
              case None => None
    decreases |head|
  {
    var path := head + tail;
    assert path[0] == head[0];
    if |head| == 1 {
      assert path[1..] == tail;
    } else {
      assert path[1..] == head[1..] + tail;
      match Field(snap, id, head[0])
      case Some(Ref(next)) =>
        if next in snap.objects {
          ResolveSplit(snap, next, head[1..], tail);
        }
      case _ =>
    }
  }
}
