/** Class-specific name resolvers for Jetty web-application class loaders
    and Jasper JSP class loaders. */
module JettyNameResolvers {
  import opened Wrappers
  import opened Heap
  import opened Text

  /** `org.mortbay.jetty.webapp.WebAppClassLoader`: the name of `_name`
      when that object exists, otherwise the name of
      `_context._contextPath`, otherwise `None`. */
  function ResolveWebAppClassLoader(snap: Snapshot, obj: int): Option<string>
  {
    match ResolveObject(snap, obj, ["_name"])
    case Some(name) => ClassSpecificName(snap, name)
    case None =>
      match ResolveObject(snap, obj, ["_context", "_contextPath"])
      case Some(path) => ClassSpecificName(snap, path)
      case None => None
  }

  /** `org.apache.jasper.servlet.JasperLoader`: "JSPs of " and the name of
      the parent loader, or `None` without a parent. */
  function ResolveJasperLoader(snap: Snapshot, obj: int): Option<string>
  {
    match ResolveObject(snap, obj, ["parent"])
    case Some(parent) => Some("JSPs of " + JavaText(ClassSpecificName(snap, parent)))
    case None => None
  }

  /** `_name` wins whenever it refers to an object, even one without a
      name: the context path is then not consulted. */
  lemma WebAppNameFirst(snap: Snapshot, obj: int, name: int)
    requires Field(snap, obj, "_name") == Some(Ref(name)) && name in snap.objects
    ensures ResolveWebAppClassLoader(snap, obj) == ClassSpecificName(snap, name)
  {
  }

  /** Without `_name` the loader is named after `_context._contextPath`. */
  lemma WebAppContextPathFallback(snap: Snapshot, obj: int, context: int, path: int)
    requires forall n :: Field(snap, obj, "_name") == Some(Ref(n)) ==> n !in snap.objects
    requires Field(snap, obj, "_context") == Some(Ref(context)) && context in snap.objects
    requires Field(snap, context, "_contextPath") == Some(Ref(path)) && path in snap.objects
    ensures ResolveWebAppClassLoader(snap, obj) == ClassSpecificName(snap, path)
  {
  }

  /** Neither field resolves: no name. */
  lemma WebAppNoName(snap: Snapshot, obj: int)
    requires ResolveObject(snap, obj, ["_name"]).None?
    requires ResolveObject(snap, obj, ["_context", "_contextPath"]).None?
    ensures ResolveWebAppClassLoader(snap, obj) == None
  {
  }

  /** A Jasper loader with a parent is labelled "JSPs of " followed by the
      parent's name, or by "null" when the parent has none. */
  lemma JasperLabel(snap: Snapshot, obj: int, parent: int)
    requires Field(snap, obj, "parent") == Some(Ref(parent)) && parent in snap.objects
    ensures var r := ResolveJasperLoader(snap, obj);
      r.Some? && |r.value| >= 8 && r.value[..8] == "JSPs of " &&
      r.value[8..] == JavaText(ClassSpecificName(snap, parent))
  {
  }

  lemma JasperWithoutParent(snap: Snapshot, obj: int)
    requires forall p :: Field(snap, obj, "parent") == Some(Ref(p)) ==> p !in snap.objects
    ensures ResolveJasperLoader(snap, obj) == None
  {
  }
}
