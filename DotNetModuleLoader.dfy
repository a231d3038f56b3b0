/** src/Modules/DotNetModuleLoader.cs: the module loader. It keeps the records
    of modules being loaded, the loaded modules in comparer order, and the
    records of unloaded modules. Loading finds the module file, stages it,
    constructs the module through the activation factory, runs its `Init`
    hook and files it among the loaded modules; unloading removes it and runs
    its `Unload` hook. The lists' locks only serialise access and are left out. */
module DotNetModuleLoaders {
  import opened Wrappers
  import opened Runtime
  import opened ActivationUtility
  import opened ModuleInfos
  import opened Modules
  import opened ModuleComparers

  /** Every pair of loaded modules is in comparer order. */
  predicate SortedBy(s: seq<Module>, collate: Collation)
  {
    forall i, j :: 0 <= i < j < |s| ==> Compare(s[i], s[j], collate) <= 0
  }

  /** No two modules are `Equals`: their short type names differ. */
  predicate DistinctNames(s: seq<Module>)
  {
    forall i, j :: 0 <= i < j < |s| ==> s[i].TypeName != s[j].TypeName
  }

  /** `List<Module>.Contains`, which goes through `Module.Equals`. */
  predicate ContainsEqual(s: seq<Module>, m: Module)
  {
    exists i :: 0 <= i < |s| && s[i].Equals(m)
  }

  /** The index of the first module whose short type name equals `name`
      ignoring case, or `|s|` when there is none. */
  function FirstNamed(s: seq<Module>, name: string): (r: nat)
    ensures r <= |s|
    ensures r < |s| ==> EqualsIgnoreCase(s[r].TypeName, name)
    ensures forall k :: 0 <= k < r ==> !EqualsIgnoreCase(s[k].TypeName, name)
  {
    if s == [] then 0
    else if EqualsIgnoreCase(s[0].TypeName, name) then 0
    else 1 + FirstNamed(s[1..], name)
  }

  /** `Add` followed by `Sort`: the new module goes before the first module
      it does not come after. `List.Sort` is not stable, so only the
      properties proved below (sorted, a permutation) are the source's. */
  function InsertByOrder(m: Module, s: seq<Module>, collate: Collation): (r: seq<Module>)
    ensures multiset(r) == multiset(s) + multiset{m}
  {
    if s == [] then [m]
    else if Compare(m, s[0], collate) <= 0 then [m] + s
    else
      assert s == [s[0]] + s[1..];
      [s[0]] + InsertByOrder(m, s[1..], collate)
  }

  /** Every module of the result is the new one or an old one. */
  lemma InsertByOrderMember(m: Module, s: seq<Module>, collate: Collation, x: Module)
    requires x in InsertByOrder(m, s, collate)
    ensures x == m || x in s
  {
    assert x in multiset(InsertByOrder(m, s, collate));
    assert x != m ==> x in multiset(s);
  }

  /** Inserting into a list in comparer order keeps it in order. */
  lemma {:induction false} InsertByOrderSorted(m: Module, s: seq<Module>, collate: Collation)
    requires WellBehaved(collate) && SortedBy(s, collate)
    ensures SortedBy(InsertByOrder(m, s, collate), collate)
  {
    if s == [] {
    } else if Compare(m, s[0], collate) <= 0 {
      forall j | 0 <= j < |s| ensures Compare(m, s[j], collate) <= 0 {
        if j > 0 {
          CompareTransitive(m, s[0], s[j], collate);
        }
      }
      SortedCons(m, s, collate);
    } else {
      var tail := s[1..];
      assert SortedBy(tail, collate);
      InsertByOrderSorted(m, tail, collate);
      var rest := InsertByOrder(m, tail, collate);
      CompareAntisymmetric(m, s[0], collate);
      forall j | 0 <= j < |rest| ensures Compare(s[0], rest[j], collate) <= 0 {
        if rest[j] != m {
          InsertByOrderMember(m, tail, collate, rest[j]);
          var k :| 0 <= k < |tail| && tail[k] == rest[j];
          assert tail[k] == s[k + 1];
        }
      }
      SortedCons(s[0], rest, collate);
    }
  }

  /** A module that sorts before every module of a sorted list may head it. */
  lemma SortedCons(x: Module, t: seq<Module>, collate: Collation)
    requires SortedBy(t, collate) && forall j :: 0 <= j < |t| ==> Compare(x, t[j], collate) <= 0
    ensures SortedBy([x] + t, collate)
  {
    var r := [x] + t;
    forall i, j | 0 <= i < j < |r| ensures Compare(r[i], r[j], collate) <= 0 {
      assert r[j] == t[j - 1];
      if i > 0 {
        assert r[i] == t[i - 1];
      }
    }
  }

  /** Inserting a module whose name is new keeps the names distinct. */
  lemma {:induction false} InsertByOrderDistinct(m: Module, s: seq<Module>, collate: Collation)
    requires DistinctNames(s) && forall k :: 0 <= k < |s| ==> s[k].TypeName != m.TypeName
    ensures DistinctNames(InsertByOrder(m, s, collate))
  {
    if s != [] && Compare(m, s[0], collate) > 0 {
      var tail := s[1..];
      assert DistinctNames(tail);
      InsertByOrderDistinct(m, tail, collate);
      var rest := InsertByOrder(m, tail, collate);
      assert InsertByOrder(m, s, collate) == [s[0]] + rest;
      forall j | 0 <= j < |rest| ensures rest[j].TypeName != s[0].TypeName {
        if rest[j] != m {
          InsertByOrderMember(m, tail, collate, rest[j]);
          var k :| 0 <= k < |tail| && tail[k] == rest[j];
          assert tail[k] == s[k + 1];
        }
      }
    }
  }

  /** Removing one module keeps the list sorted and its names distinct. */
  lemma RemoveAtKeepsOrder(s: seq<Module>, i: nat, collate: Collation)
    requires i < |s|
    requires SortedBy(s, collate) && DistinctNames(s)
    ensures SortedBy(s[..i] + s[i + 1..], collate) && DistinctNames(s[..i] + s[i + 1..])
  {
    var r := s[..i] + s[i + 1..];
    forall k | 0 <= k < |r| ensures r[k] == if k < i then s[k] else s[k + 1] {}
  }

  /** `List<ModuleInfo>.Remove`: drops the first occurrence (records
      compare by reference). */
  function RemoveInfo(s: seq<ModuleInfo>, x: ModuleInfo): (r: seq<ModuleInfo>)
    ensures multiset(r) == multiset(s) - multiset{x}
    ensures x !in s ==> r == s
  {
    if s == [] then []
    else if s[0] == x then
      assert s == [s[0]] + s[1..];
      s[1..]
    else
      assert s == [s[0]] + s[1..];
      [s[0]] + RemoveInfo(s[1..], x)
  }

  /** What loading a module's record depends on beyond the loader's state.
      `moduleType` is the outcome of staging (`EnsureStructure`,
      `CreateShadowFile`, `LoadShadowFile`): a file-system or loading
      exception, or the module class found in the assembly (`None` when it
      has none). `identity` names the constructed object, and `body` is the
      derived constructor's own code: an exception, or the methods it
      subscribes to. */
  datatype Staging = Staging(
    moduleType: Result<Option<TypeId>>,
    identity: nat,
    body: Result<seq<MethodRef>>)

  /** The outcome of a load up to the `Init` hook (lines 193-199): staging,
      the factory for the module type with the loader as explicit argument,
      the assembly of the constructor's arguments from the core service
      provider, the `Module` constructor and the derived constructor's body.
      The first exception is the outcome. The last two stages run inside
      `constructor.Invoke` (ActivationUtility.cs:54), so their exceptions
      arrive wrapped in a `TargetInvocationException`. */
  function Prepare(ts: TypeSystem, loaderSelf: Value, st: Staging, provider: Resolver, engine: Value): Outcome
  {
    match st.moduleType
    case Failure(e) => Fail(e)
    case Success(t) =>
      match FactoryFor(ts, t, Some([loaderSelf]))
      case Failure(e) => Fail(e)
      case Success(f) =>
        match Assigned(ts, provider, f.ctor.params, f.provided, |f.ctor.params|)
        case Failure(e) => Fail(e)
        case Success(_) =>
          match Module.CreateError(ts, t.value, engine)
          case Some(e) => Fail(TargetInvocation(e))
          case None => if st.body.Failure? then Fail(TargetInvocation(st.body.error)) else Pass
  }

  /** A load gets as far as the `Init` hook only for a staged, non-abstract
      module class carrying a complete `[ModuleInfo]` attribute, with the
      loader non-null, an execution engine available and a derived
      constructor that returns. An assembly without a module class fails
      with `ArgumentNullException`, and a null loader with a null dereference.
      A module class without the attribute, once its constructor is invoked,
      fails with the `InvalidConstraintException` wrapped by reflection. */
  lemma PrepareMeaning(ts: TypeSystem, loaderSelf: Value, st: Staging, provider: Resolver, engine: Value)
    ensures Prepare(ts, loaderSelf, st, provider, engine).Pass? ==>
      && st.moduleType.Success? && st.moduleType.value.Some?
      && var t := st.moduleType.value.value;
         var attribute := ts.info(t).moduleInfo;
         && !ts.info(t).isAbstract && loaderSelf.Obj? && engine.Obj? && st.body.Success?
         && attribute.Some? && attribute.value.title.Some? && attribute.value.author.Some? && attribute.value.version.Some?
    ensures st.moduleType == Success(None) ==>
      Prepare(ts, loaderSelf, st, provider, engine) == Fail(ArgumentNull("implementationType"))
    ensures st.moduleType.Success? && st.moduleType.value.Some? && !ts.info(st.moduleType.value.value).isAbstract
            && loaderSelf.Null? ==>
      Prepare(ts, loaderSelf, st, provider, engine) == Fail(NullReference)
    ensures && st.moduleType.Success? && st.moduleType.value.Some? && ts.info(st.moduleType.value.value).moduleInfo.None?
            && FactoryFor(ts, st.moduleType.value, Some([loaderSelf])).Success?
            && (var f := FactoryFor(ts, st.moduleType.value, Some([loaderSelf])).value;
                Assigned(ts, provider, f.ctor.params, f.provided, |f.ctor.params|).Success?) ==>
      Prepare(ts, loaderSelf, st, provider, engine) == Fail(TargetInvocation(InvalidConstraint))
  {
    FactoryForMeaning(ts, if st.moduleType.Success? then st.moduleType.value else None, Some([loaderSelf]));
    if loaderSelf.Null? {
      assert exists i :: 0 <= i < |[loaderSelf]| && [loaderSelf][i].Null? by { assert [loaderSelf][0].Null?; }
    }
  }

  class DotNetModuleLoader {
    const ts: TypeSystem
    /** The loader itself as a value, passed to every module constructor. */
    const Self: Value
    /** The culture-sensitive `string.CompareTo` the comparer uses. */
    const collate: Collation
    /** `Interface.CoreModule.ModuleDirectory`. */
    const ModuleDirectory: string
    var loading: seq<ModuleInfo>
    var loaded: seq<Module>
    var unloaded: seq<ModuleInfo?>

    /** The loader's own value is an object (it is `this` at line 198), and
        the loaded modules stay sorted under the comparer and no two of them
        are equal. */
    ghost predicate Valid()
      reads this
    {
      Self.Obj? && WellBehaved(collate) && SortedBy(loaded, collate) && DistinctNames(loaded)
    }

    /** The constructor (lines 20-25); the comparer needs a well-behaved
        string comparison, and the loader's own value is an object. */
    constructor(ts: TypeSystem, self: Value, collate: Collation, moduleDirectory: string)
      requires self.Obj? && WellBehaved(collate)
      ensures this.ts == ts && Self == self && this.collate == collate && ModuleDirectory == moduleDirectory
      ensures loading == [] && loaded == [] && unloaded == []
      ensures Valid()
    {
      this.ts := ts;
      Self := self;
      this.collate := collate;
      ModuleDirectory := moduleDirectory;
      loading := [];
      loaded := [];
      unloaded := [];
    }

    /** `FinalizeModuleLoad` (lines 29-40): a module not yet loaded (under
        `Equals`) joins the loaded modules, which are then in comparer
        order; a module already loaded changes nothing. */
    method FinalizeModuleLoad(mod: Module)
      requires Valid()
      modifies this
      ensures Valid()
      ensures ContainsEqual(old(loaded), mod) ==> loaded == old(loaded)
      ensures !ContainsEqual(old(loaded), mod) ==> multiset(loaded) == multiset(old(loaded)) + multiset{mod}
      ensures loading == old(loading) && unloaded == old(unloaded)
    {
      if !(exists i :: 0 <= i < |loaded| && loaded[i].Equals(mod)) {
        InsertByOrderSorted(mod, loaded, collate);
        InsertByOrderDistinct(mod, loaded, collate);
        loaded := InsertByOrder(mod, loaded, collate);
      }
    }

    /** `GetModule` (lines 42-64): the first loaded module whose short type
        name equals the given name ignoring case, or null. */
    method GetModule(moduleName: Option<string>) returns (r: Module?)
      ensures IsNullOrEmpty(moduleName) ==> r == null
      ensures !IsNullOrEmpty(moduleName) ==>
        var i := FirstNamed(loaded, moduleName.value);
        r == if i < |loaded| then loaded[i] else null
    {
      if IsNullOrEmpty(moduleName) {
        return null;
      }
      var name := moduleName.value;
      for i := 0 to |loaded|
        invariant i <= FirstNamed(loaded, name)
      {
        var mod := loaded[i];
        if EqualsIgnoreCase(mod.TypeName, name) {
          return mod;
        }
      }
      return null;
    }

    /** The search loop of `UnloadModule` (lines 164-176): the position of
        the first loaded module with the given name ignoring case, or the
        list length. */
    method IndexOfLoaded(name: string) returns (index: nat)
      ensures index == FirstNamed(loaded, name)
    {
      for i := 0 to |loaded|
        invariant i <= FirstNamed(loaded, name)
      {
        if EqualsIgnoreCase(loaded[i].TypeName, name) {
          return i;
        }
      }
      return |loaded|;
    }

    /** `IsModuleLoaded` (lines 66-88). */
    method IsModuleLoaded(moduleName: Option<string>) returns (b: bool)
      ensures b <==>
        && !IsNullOrEmpty(moduleName)
        && exists i :: 0 <= i < |loaded| && EqualsIgnoreCase(loaded[i].TypeName, moduleName.value)
    {
      if IsNullOrEmpty(moduleName) {
        return false;
      }
      var name := moduleName.value;
      for i := 0 to |loaded|
        invariant forall k :: 0 <= k < i ==> !EqualsIgnoreCase(loaded[k].TypeName, name)
      {
        if EqualsIgnoreCase(loaded[i].TypeName, name) {
          return true;
        }
      }
      return false;
    }

    /** `IsModuleLoading` (lines 90-110). */
    method IsModuleLoading(moduleName: Option<string>) returns (b: bool)
      ensures b <==>
        && !IsNullOrEmpty(moduleName)
        && exists i :: 0 <= i < |loading| && EqualsIgnoreCase(loading[i].Name, moduleName.value)
    {
      if IsNullOrEmpty(moduleName) {
        return false;
      }
      var name := moduleName.value;
      for i := 0 to |loading|
        invariant forall k :: 0 <= k < i ==> !EqualsIgnoreCase(loading[k].Name, name)
      {
        if EqualsIgnoreCase(loading[i].Name, name) {
          return true;
        }
      }
      return false;
    }

    /** The module file for a name (lines 129-140): the first existing one of
        `<name>.dll` and `<name>/<name>.dll`, each combined with the module
        directory, else none. */
    function ModuleFile(name: string, fileExists: string -> bool): Option<string>
    {
      var direct := Combine(ModuleDirectory, name + ".dll");
      var nested := Combine(Combine(ModuleDirectory, name), name + ".dll");
      if fileExists(direct) then Some(direct)
      else if fileExists(nested) then Some(nested)
      else None
    }

    /** A name holding no separator is looked up in the module directory. */
    lemma RelativeModuleFile(name: string, fileExists: string -> bool)
      requires |ModuleDirectory| > 0 && !IsSeparator(ModuleDirectory[|ModuleDirectory| - 1])
      requires |name| > 0 && forall k :: 0 <= k < |name| ==> !IsSeparator(name[k])
      ensures var direct := ModuleDirectory + "/" + name + ".dll";
              var nested := ModuleDirectory + "/" + name + "/" + name + ".dll";
              ModuleFile(name, fileExists) ==
                if fileExists(direct) then Some(direct) else if fileExists(nested) then Some(nested) else None
    {
      var leaf := name + ".dll";
      assert !IsRooted(leaf) by { assert leaf[0] == name[0]; }
      assert !IsRooted(name);
      var sub := ModuleDirectory + "/" + name;
      assert sub[|sub| - 1] == name[|name| - 1];
      assert ModuleDirectory + "/" + leaf == ModuleDirectory + "/" + name + ".dll";
      assert sub + "/" + leaf == ModuleDirectory + "/" + name + "/" + name + ".dll";
    }

    /** A rooted name ignores the module directory: both candidates are the
        same file, `<name>.dll`. */
    lemma RootedModuleFile(name: string, fileExists: string -> bool)
      requires IsRooted(name)
      ensures ModuleFile(name, fileExists) == if fileExists(name + ".dll") then Some(name + ".dll") else None
    {
      assert IsRooted(name + ".dll") by { assert (name + ".dll")[0] == name[0]; }
    }

    /** Whether `LoadModule(string, bool)` stops before building a record
        (lines 114-140), given the loading and loaded lists it finds: no
        name, a module of that name already loading or loaded (ignoring
        ASCII case), or no module file. */
    ghost predicate LoadSkipped(moduleName: Option<string>, fileExists: string -> bool,
                                loading: seq<ModuleInfo>, loaded: seq<Module>)
    {
      || IsNullOrEmpty(moduleName)
      || (exists i :: 0 <= i < |loading| && EqualsIgnoreCase(loading[i].Name, moduleName.value))
      || (exists i :: 0 <= i < |loaded| && EqualsIgnoreCase(loaded[i].TypeName, moduleName.value))
      || ModuleFile(moduleName.value, fileExists).None?
    }

    /** The state a load leaves, given the loading list `before` it began
        activating `info` and the loaded and unloaded lists it found: a failure before the `Init` hook changes nothing;
        a failing `Init` hook leaves the record among the loading ones and the
        module unloaded; otherwise the record leaves the loading list and the
        module is finalized. */
    ghost predicate Activated(before: seq<ModuleInfo>, loadedBefore: seq<Module>, unloadedBefore: seq<ModuleInfo?>,
                              info: ModuleInfo, st: Staging, provider: Resolver,
                              engine: Value, call: Invoker, r: Outcome, mod: Module?)
      reads this, mod
    {
      var prepared := Prepare(ts, Self, st, provider, engine);
      && unloaded == unloadedBefore
      && (prepared.Fail? ==> r == prepared && mod == null && loading == before && loaded == loadedBefore)
      && (prepared.Pass? ==>
        && st.moduleType.Success? && st.moduleType.value.Some?
        && mod != null
        && mod.ModuleType == st.moduleType.value.value
        && mod.TypeName == ts.info(st.moduleType.value.value).name
        && mod.Self == Obj(st.moduleType.value.value, st.identity)
        && mod.ModuleInfo == info
        && mod.Valid() && mod.hooks == mod.SubscribeAll(map[], st.body.value)
        && match mod.HookDispatch(Some("Init"), [], provider, call).0
           case Failure(e) => r == Fail(e) && loading == before && loaded == loadedBefore
           case Success(_) =>
             && r == Pass && loading == RemoveInfo(before, info)
             && (ContainsEqual(loadedBefore, mod) ==> loaded == loadedBefore)
             && (!ContainsEqual(loadedBefore, mod) ==> multiset(loaded) == multiset(loadedBefore) + multiset{mod}))
    }

    /** Lines 193-198: staging and the factory's construction of the module. */
    method Construct(st: Staging, provider: Resolver, engine: Value) returns (r: Result<Module>)
      ensures Prepare(ts, Self, st, provider, engine).Fail? ==> r == Failure(Prepare(ts, Self, st, provider, engine).error)
      ensures Prepare(ts, Self, st, provider, engine).Pass? ==>
        && st.moduleType.Success? && st.moduleType.value.Some?
        && r.Success? && fresh(r.value)
        && r.value.ModuleType == st.moduleType.value.value
        && r.value.TypeName == ts.info(st.moduleType.value.value).name
        && r.value.Self == Obj(st.moduleType.value.value, st.identity)
        && r.value.ModuleInfo == null
        && r.value.Valid() && r.value.hooks == r.value.SubscribeAll(map[], st.body.value)
    {
      if st.moduleType.Failure? {
        return Failure(st.moduleType.error);
      }
      var moduleType := st.moduleType.value;
      var factory := CreateFactory(ts, moduleType, Some([Self]));
      if factory.Failure? {
        return Failure(factory.error);
      }
      var f := factory.value;
      var arguments := new Value[|f.ctor.params|](_ => Null);
      var error := AssignParameters(ts, arguments, f.ctor.params, f.provided, provider);
      if error.Some? {
        return Failure(error.value);
      }
      var t := moduleType.value;
      var created := Module.Create(ts, t, Obj(t, st.identity), engine);
      if created.Failure? {
        return Failure(TargetInvocation(created.error));
      }
      if st.body.Failure? {
        return Failure(TargetInvocation(st.body.error));
      }
      var mod := created.value;
      mod.SubscribeTo(Some(st.body.value));
      return Success(mod);
    }

    /** `LoadModule(object)` (lines 191-208) for a record already among the
        loading ones. */
    method Activate(info: ModuleInfo, st: Staging, provider: Resolver, engine: Value, call: Invoker)
      returns (r: Outcome, mod: Module?)
      requires Valid()
      modifies this
      ensures Valid()
      ensures mod != null ==> fresh(mod)
      ensures Activated(old(loading), old(loaded), old(unloaded), info, st, provider, engine, call, r, mod)
    {
      var created := Construct(st, provider, engine);
      if created.Failure? {
        return Fail(created.error), null;
      }
      mod := created.value;
      mod.ModuleInfo := info;
      var hookArguments := new Value[0];
      assert hookArguments[..] == [];
      var init := mod.ExecuteHook(Some("Init"), hookArguments, provider, call);
      if init.Failure? {
        return Fail(init.error), mod;
      }
      loading := RemoveInfo(loading, info);
      FinalizeModuleLoad(mod);
      r := Pass;
    }

    /** `LoadModule(string, bool)` (lines 112-152); the unused `immediately`
        flag is dropped. A null or empty name, a name already loading or
        loaded (ignoring case) and a missing file change nothing. Otherwise a
        fresh record for the file joins the loading list and is activated. */
    method LoadModule(moduleName: Option<string>, fileExists: string -> bool, st: Staging, provider: Resolver,
                      engine: Value, call: Invoker)
      returns (r: Outcome, info: ModuleInfo?, mod: Module?)
      requires Valid()
      modifies this
      ensures Valid()
      ensures LoadSkipped(moduleName, fileExists, old(loading), old(loaded)) ==>
        r == Pass && info == null && mod == null && unchanged(this)
      ensures !LoadSkipped(moduleName, fileExists, old(loading), old(loaded)) ==>
        var file := ModuleFile(moduleName.value, fileExists).value;
        && info != null && fresh(info)
        && info.ParentFile == file && info.Name == FileNameWithoutExtension(file)
        && (mod != null ==> fresh(mod))
        && Activated(old(loading) + [info], old(loaded), old(unloaded), info, st, provider, engine, call, r, mod)
    {
      var file := LocateModule(moduleName, fileExists);
      if file.None? {
        return Pass, null, null;
      }
      r, info, mod := LoadFile(file.value, st, provider, engine, call);
    }

    /** Lines 142-151: a record of the module file, enlisted as loading and
        activated. */
    method LoadFile(file: string, st: Staging, provider: Resolver, engine: Value, call: Invoker)
      returns (r: Outcome, info: ModuleInfo, mod: Module?)
      requires Valid()
      modifies this
      ensures Valid()
      ensures fresh(info) && info.ParentFile == file && info.Name == FileNameWithoutExtension(file)
      ensures mod != null ==> fresh(mod)
      ensures Activated(old(loading) + [info], old(loaded), old(unloaded), info, st, provider, engine, call, r, mod)
    {
      info := Enlist(file);
      r, mod := Activate(info, st, provider, engine, call);
    }

    /** Lines 142-149: the record of the module file, added to the loading
        list (a new record is never already on it). */
    method Enlist(file: string) returns (info: ModuleInfo)
      requires Valid()
      modifies this
      ensures Valid()
      ensures fresh(info) && info.ParentFile == file && info.Name == FileNameWithoutExtension(file)
      ensures loading == old(loading) + [info] && loaded == old(loaded) && unloaded == old(unloaded)
    {
      info := new ModuleInfo(file);
      if info !in loading {
        loading := loading + [info];
      }
    }

    /** The checks of `LoadModule(string, bool)` before the record is built
        (lines 114-140): the module file to load, or none when the load
        stops early. */
    method LocateModule(moduleName: Option<string>, fileExists: string -> bool) returns (file: Option<string>)
      requires Valid()
      ensures file.None? <==> LoadSkipped(moduleName, fileExists, loading, loaded)
      ensures file.Some? ==> file == ModuleFile(moduleName.value, fileExists)
    {
      var loadingNow := IsModuleLoading(moduleName);
      if IsNullOrEmpty(moduleName) || loadingNow {
        return None;
      }
      var loadedNow := IsModuleLoaded(moduleName);
      if loadedNow {
        return None;
      }
      var name := moduleName.value;
      var path := Combine(ModuleDirectory, name + ".dll");
      if !fileExists(path) {
        path := Combine(ModuleDirectory, name);
        path := Combine(path, name + ".dll");
        if !fileExists(path) {
          return None;
        }
      }
      return Some(path);
    }

    /** `UnloadModule` as written (lines 154-189). The first module whose short
        type name equals the name ignoring case is removed (`List.Remove`
        removes the first module `Equals` to it, which is that one, since
        names are distinct), its record joins the unloaded ones unless
        already there, and its `Unload` hook runs; a hook exception
        propagates after those changes. When no module matches, the
        variable holding the module is null when its `ModuleInfo` is read,
        which throws `NullReferenceException`. */
    method UnloadModule(moduleName: Option<string>, provider: Resolver, call: Invoker) returns (r: Outcome)
      requires Valid()
      modifies this
      ensures Valid()
      ensures loading == old(loading)
      ensures IsNullOrEmpty(moduleName) ==> r == Pass && unchanged(this)
      ensures !IsNullOrEmpty(moduleName) ==>
        var i := FirstNamed(old(loaded), moduleName.value);
        && (i == |old(loaded)| ==> r == Fail(NullReference) && unchanged(this))
        && (i < |old(loaded)| ==>
              var m := old(loaded)[i];
              && loaded == old(loaded)[..i] + old(loaded)[i + 1..]
              && unloaded == (if m.ModuleInfo in old(unloaded) then old(unloaded) else old(unloaded) + [m.ModuleInfo])
              && r == match m.HookDispatch(Some("Unload"), [], provider, call).0
                      case Failure(e) => Fail(e)
                      case Success(_) => Pass)
    {
      if IsNullOrEmpty(moduleName) {
        return Pass;
      }
      var index := IndexOfLoaded(moduleName.value);
      if index == |loaded| {
        return Fail(NullReference);
      }
      var mod := loaded[index];
      RemoveAtKeepsOrder(loaded, index, collate);
      loaded := loaded[..index] + loaded[index + 1..];
      if mod.ModuleInfo !in unloaded {
        unloaded := unloaded + [mod.ModuleInfo];
      }
      var hookArguments := new Value[0];
      assert hookArguments[..] == [];
      var unload := mod.ExecuteHook(Some("Unload"), hookArguments, provider, call);
      if unload.Failure? {
        return Fail(unload.error);
      }
      return Pass;
    }

    /** `UnloadModule` as evidently intended: a name that matches no loaded
        module changes nothing and throws nothing. */
    method UnloadModuleCorrected(moduleName: Option<string>, provider: Resolver, call: Invoker) returns (r: Outcome)
      requires Valid()
      modifies this
      ensures Valid()
      ensures loading == old(loading)
      ensures IsNullOrEmpty(moduleName) ==> r == Pass && unchanged(this)
      ensures !IsNullOrEmpty(moduleName) ==>
        var i := FirstNamed(old(loaded), moduleName.value);
        && (i == |old(loaded)| ==> r == Pass && unchanged(this))
        && (i < |old(loaded)| ==>
              var m := old(loaded)[i];
              && loaded == old(loaded)[..i] + old(loaded)[i + 1..]
              && unloaded == (if m.ModuleInfo in old(unloaded) then old(unloaded) else old(unloaded) + [m.ModuleInfo])
              && r == match m.HookDispatch(Some("Unload"), [], provider, call).0
                      case Failure(e) => Fail(e)
                      case Success(_) => Pass)
    {
      var present := IsModuleLoaded(moduleName);
      if !present {
        return Pass;
      }
      r := UnloadModule(moduleName, provider, call);
    }
  }
}
