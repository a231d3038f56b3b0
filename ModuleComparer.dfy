/** src/Modules/ModuleComparer.cs: the order in which the loader keeps its
    loaded modules. Null sorts first; otherwise modules are ordered by short
    type name (culture-sensitive), then by version, then by author. */
module ModuleComparers {
  import opened Runtime
  import opened Modules

  /** `Version.CompareTo` of two versions: field by field, -1, 0 or 1. An
      undefined build or revision (-1) sorts before every defined one. */
  function CompareVersion(a: Version, b: Version): (r: int)
    ensures -1 <= r <= 1
    ensures r == 0 <==> a == b
  {
    if a.major != b.major then (if a.major > b.major then 1 else -1)
    else if a.minor != b.minor then (if a.minor > b.minor then 1 else -1)
    else if a.build != b.build then (if a.build > b.build then 1 else -1)
    else if a.revision != b.revision then (if a.revision > b.revision then 1 else -1)
    else 0
  }

  /** `ModuleComparer.Compare` (lines 12-42). */
  function Compare(x: Module?, y: Module?, collate: Collation): int
  {
    if x == null && y == null then 0
    else if x != null && y == null then 1
    else if x == null then -1
    else
      var byName := collate(x.TypeName, y.TypeName);
      if byName != 0 then byName
      else
        var byVersion := CompareVersion(x.Version, y.Version);
        if byVersion != 0 then byVersion else collate(x.Author, y.Author)
  }

  /** Versions are totally ordered. */
  lemma VersionOrder(a: Version, b: Version, d: Version)
    ensures CompareVersion(a, a) == 0
    ensures CompareVersion(a, b) == -CompareVersion(b, a)
    ensures CompareVersion(a, b) <= 0 && CompareVersion(b, d) <= 0 ==> CompareVersion(a, d) <= 0
  {
  }

  /** With a well-behaved collation the comparer is a total preorder, which
      is what `List.Sort` requires of it: reflexive, sign-antisymmetric and
      transitive, with null below every module. */
  lemma CompareReflexive(x: Module?, collate: Collation)
    requires WellBehaved(collate)
    ensures Compare(x, x, collate) == 0
  {
    if x != null {
      assert collate(x.TypeName, x.TypeName) == 0;
      assert collate(x.Author, x.Author) == 0;
    }
  }

  lemma CompareAntisymmetric(x: Module?, y: Module?, collate: Collation)
    requires WellBehaved(collate)
    ensures Sign(Compare(x, y, collate)) == -Sign(Compare(y, x, collate))
  {
    if x != null && y != null {
      assert Sign(collate(x.TypeName, y.TypeName)) == -Sign(collate(y.TypeName, x.TypeName));
      assert Sign(collate(x.Author, y.Author)) == -Sign(collate(y.Author, x.Author));
      VersionOrder(x.Version, y.Version, y.Version);
    }
  }

  lemma CompareTransitive(x: Module?, y: Module?, z: Module?, collate: Collation)
    requires WellBehaved(collate)
    requires Compare(x, y, collate) <= 0 && Compare(y, z, collate) <= 0
    ensures Compare(x, z, collate) <= 0
  {
    if x != null && y != null && z != null {
      CollationSteps(collate, x.TypeName, y.TypeName, z.TypeName);
      CollationSteps(collate, x.Author, y.Author, z.Author);
      VersionOrder(x.Version, y.Version, z.Version);
      VersionOrder(x.Version, z.Version, y.Version);
    }
  }

  lemma NullFirst(y: Module?, collate: Collation)
    ensures Compare(null, y, collate) <= 0
    ensures y != null ==> Compare(null, y, collate) < 0 && Compare(y, null, collate) > 0
  {
  }
}
