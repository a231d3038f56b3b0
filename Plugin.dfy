/** src/Plugins/Plugin.cs: the information a plugin carries and how plugins
    compare. Its fields are set once, at construction, so a plugin is a
    value; `ty` is its runtime type. */
module Plugins {
  import opened Wrappers
  import opened Runtime

  datatype Plugin = Plugin(
    ty: TypeId,
    Name: string,
    Title: Option<string>,
    Author: Option<string>,
    Version: Option<Version>)

  /** The constructor (lines 25-40): the runtime type must carry the plugin
      info attribute; the name is the type's short name and the rest is read
      from the attribute. */
  function CreatePlugin(ts: TypeSystem, ty: TypeId): (r: Result<Plugin>)
    ensures r.Failure? <==> ts.info(ty).pluginInfo.None?
    ensures r.Failure? ==> r.error == NullReference
    ensures r.Success? ==>
      var info := ts.info(ty).pluginInfo.value;
      && r.value.ty == ty && r.value.Name == ts.info(ty).name
      && r.value.Title == info.title && r.value.Author == info.author && r.value.Version == info.version
  {
    match ts.info(ty).pluginInfo
    case None => Failure(NullReference)
    case Some(info) => Success(Plugin(ty, ts.info(ty).name, info.title, info.author, info.version))
  }

  /** `CompareTo` (lines 44-64): a null plugin sorts first; otherwise the
      short type names decide, and a tie falls back to the full type names. */
  function CompareTo(ts: TypeSystem, me: Plugin, other: Option<Plugin>, collate: Collation): int
  {
    if other.None? then 1
    else
      var con := collate(ts.info(me.ty).name, ts.info(other.value.ty).name);
      if con == 0 then collate(ts.info(me.ty).fullName, ts.info(other.value.ty).fullName) else con
  }

  /** `Equals` (lines 66-77): a plugin equals exactly the plugins of its own
      runtime type, and never null. */
  predicate Equals(me: Plugin, other: Option<Plugin>)
  {
    other.Some? && me.ty == other.value.ty
  }

  /** `Equals` is an equivalence on plugins, and with a well-behaved
      collation it agrees with `CompareTo`: equal plugins compare as 0. */
  lemma EqualsMeaning(ts: TypeSystem, a: Plugin, b: Plugin, c: Plugin, collate: Collation)
    requires WellBehaved(collate)
    ensures !Equals(a, None)
    ensures Equals(a, Some(a))
    ensures Equals(a, Some(b)) ==> Equals(b, Some(a))
    ensures Equals(a, Some(b)) && Equals(b, Some(c)) ==> Equals(a, Some(c))
    ensures Equals(a, Some(b)) ==> CompareTo(ts, a, Some(b), collate) == 0
  {
    assert collate(ts.info(a.ty).name, ts.info(a.ty).name) == 0;
    assert collate(ts.info(a.ty).fullName, ts.info(a.ty).fullName) == 0;
  }

  /** With a well-behaved collation, `CompareTo` is sign-antisymmetric and
      transitive between plugins. */
  lemma CompareToOrder(ts: TypeSystem, a: Plugin, b: Plugin, c: Plugin, collate: Collation)
    requires WellBehaved(collate)
    ensures Sign(CompareTo(ts, a, Some(b), collate)) == -Sign(CompareTo(ts, b, Some(a), collate))
    ensures CompareTo(ts, a, Some(b), collate) <= 0 && CompareTo(ts, b, Some(c), collate) <= 0 ==>
      CompareTo(ts, a, Some(c), collate) <= 0
  {
    var na, nb, nc := ts.info(a.ty).name, ts.info(b.ty).name, ts.info(c.ty).name;
    var fa, fb, fc := ts.info(a.ty).fullName, ts.info(b.ty).fullName, ts.info(c.ty).fullName;
    assert Sign(collate(na, nb)) == -Sign(collate(nb, na));
    assert Sign(collate(fa, fb)) == -Sign(collate(fb, fa));
    CollationSteps(collate, na, nb, nc);
    CollationSteps(collate, fa, fb, fc);
  }
}
