/** src/Modules/Module.cs: a module's hook subscription table, its dispatch
    of hook calls through the execution engine, and its identity. The table
    maps a hook name (compared ordinally) to a list of subscribed methods. */
module Modules {
  import opened Wrappers
  import opened Runtime
  import opened ExecutionEngine
  import opened ModuleInfos

  predicate NoDuplicateMethods(s: seq<MethodRef>)
  {
    forall a, b :: 0 <= a < b < |s| ==> s[a] != s[b]
  }

  /** The list subscribed under `n`, or none. */
  function Subscriptions(h: map<string, seq<MethodRef>>, n: string): seq<MethodRef>
  {
    if n in h then h[n] else []
  }

  /** `List.Remove`: drops the first occurrence of `x`. */
  function RemoveFirst(s: seq<MethodRef>, x: MethodRef): (r: seq<MethodRef>)
    ensures NoDuplicateMethods(s) ==> NoDuplicateMethods(r) && forall y :: y in r <==> y in s && y != x
  {
    if s == [] then []
    else if s[0] == x then
      assert NoDuplicateMethods(s) ==> x !in s[1..] by {
        if NoDuplicateMethods(s) {
          forall b | 0 <= b < |s[1..]| ensures s[1..][b] != x { assert s[1..][b] == s[b + 1]; }
        }
      }
      s[1..]
    else
      var rest := RemoveFirst(s[1..], x);
      assert NoDuplicateMethods(s) ==> NoDuplicateMethods(s[1..]) && s[0] !in s[1..] by {
        if NoDuplicateMethods(s) {
          forall a, b | 0 <= a < b < |s[1..]| ensures s[1..][a] != s[1..][b] {
            assert s[1..][a] == s[a + 1] && s[1..][b] == s[b + 1];
          }
          forall b | 0 <= b < |s[1..]| ensures s[1..][b] != s[0] { assert s[1..][b] == s[b + 1]; }
        }
      }
      [s[0]] + rest
  }

  /** The methods of `ms` with the given name that satisfy `signature`
      (the `Where` over `GetMethods`, with `HasMatchingSignature` as `signature`). */
  function Named(ms: seq<MethodRef>, methodName: string, signature: MethodRef -> bool): (r: seq<MethodRef>)
    ensures forall x :: x in r <==> x in ms && x.name == methodName && signature(x)
  {
    if ms == [] then []
    else (if ms[0].name == methodName && signature(ms[0]) then [ms[0]] else []) + Named(ms[1..], methodName, signature)
  }

  class Module {
    const ts: TypeSystem
    /** The module's runtime type, its short name, and the value `this` is when passed on. */
    const ModuleType: TypeId
    const TypeName: string
    const Self: Value
    const Title: string
    const Author: string
    const Version: Version
    var ModuleInfo: ModuleInfo?
    var hooks: map<string, seq<MethodRef>>

    /** The method's declaring type is an ancestor of this module's type. */
    predicate DeclaredByAncestor(m: MethodRef)
    {
      ts.assignable(m.declaringType, ModuleType)
    }

    predicate Subscribable(m: MethodRef)
    {
      DeclaredByAncestor(m) && !m.isConstructor
    }

    /** Every list is duplicate-free and holds subscribable methods of its own name. */
    predicate ValidTable(h: map<string, seq<MethodRef>>)
    {
      forall n :: n in h ==> NoDuplicateMethods(h[n]) && forall m :: m in h[n] ==> m.name == n && Subscribable(m)
    }

    ghost predicate Valid()
      reads this
    {
      ValidTable(hooks)
    }

    constructor Init(ts: TypeSystem, moduleType: TypeId, self: Value, title: string, author: string, version: Version)
      ensures this.ts == ts && ModuleType == moduleType && TypeName == ts.info(moduleType).name && Self == self
      ensures Title == title && Author == author && Version == version
      ensures ModuleInfo == null && hooks == map[]
      ensures Valid()
    {
      this.ts := ts;
      ModuleType := moduleType;
      TypeName := ts.info(moduleType).name;
      Self := self;
      Title := title;
      Author := author;
      Version := version;
      ModuleInfo := null;
      hooks := map[];
    }

    /** The exception the constructor (lines 33-49) throws, if any: the
        type's `[ModuleInfo]` attribute must exist and carry a title, an author
        and a version, checked in that order, and the service provider must
        supply an execution engine (`engine`). */
    static function CreateError(ts: TypeSystem, moduleType: TypeId, engine: Value): (r: Option<Error>)
      ensures var attribute := ts.info(moduleType).moduleInfo;
        r.None? <==>
          && attribute.Some? && attribute.value.title.Some? && attribute.value.author.Some?
          && attribute.value.version.Some? && engine.Obj?
      ensures r.Some? ==>
        r.value in {InvalidConstraint, ArgumentNull("Title"), ArgumentNull("Author"), ArgumentNull("Version"), NullReference}
      ensures ts.info(moduleType).moduleInfo.None? ==> r == Some(InvalidConstraint)
      ensures engine.Null? && ts.info(moduleType).moduleInfo.Some? ==> r != Some(InvalidConstraint)
    {
      match ts.info(moduleType).moduleInfo
      case None => Some(InvalidConstraint)
      case Some(a) =>
        if a.title.None? then Some(ArgumentNull("Title"))
        else if a.author.None? then Some(ArgumentNull("Author"))
        else if a.version.None? then Some(ArgumentNull("Version"))
        else if engine.Null? then Some(NullReference)
        else None
    }

    /** The constructor: on success the module carries the attribute's
        title, author and version and an empty subscription table. */
    static method Create(ts: TypeSystem, moduleType: TypeId, self: Value, engine: Value) returns (r: Result<Module>)
      ensures CreateError(ts, moduleType, engine).Some? ==> r == Failure(CreateError(ts, moduleType, engine).value)
      ensures CreateError(ts, moduleType, engine).None? ==>
        var attribute := ts.info(moduleType).moduleInfo.value;
        && r.Success? && fresh(r.value)
        && r.value.ts == ts && r.value.ModuleType == moduleType && r.value.Self == self
        && r.value.TypeName == ts.info(moduleType).name
        && r.value.Title == attribute.title.value
        && r.value.Author == attribute.author.value
        && r.value.Version == attribute.version.value
        && r.value.ModuleInfo == null && r.value.hooks == map[] && r.value.Valid()
    {
      var attribute := ts.info(moduleType).moduleInfo;
      if attribute.None? {
        return Failure(InvalidConstraint);
      }
      var a := attribute.value;
      if a.title.None? {
        return Failure(ArgumentNull("Title"));
      }
      if a.author.None? {
        return Failure(ArgumentNull("Author"));
      }
      if a.version.None? {
        return Failure(ArgumentNull("Version"));
      }
      if engine.Null? {
        return Failure(NullReference);
      }
      var m := new Module.Init(ts, moduleType, self, a.title.value, a.author.value, a.version.value);
      return Success(m);
    }

    // -------------------------------------------------------------------------
    // Subscriptions
    // -------------------------------------------------------------------------

    /** One iteration of the subscription loop (lines 88-115). */
    function SubscribeOne(h: map<string, seq<MethodRef>>, m: MethodRef): map<string, seq<MethodRef>>
    {
      if !Subscribable(m) then h
      else if m in Subscriptions(h, m.name) then h
      else h[m.name := Subscriptions(h, m.name) + [m]]
    }

    function SubscribeAll(h: map<string, seq<MethodRef>>, ms: seq<MethodRef>): map<string, seq<MethodRef>>
    {
      if ms == [] then h else SubscribeOne(SubscribeAll(h, ms[..|ms| - 1]), ms[|ms| - 1])
    }

    /** One iteration of the unsubscription loop (lines 125-149). */
    function UnsubscribeOne(h: map<string, seq<MethodRef>>, m: MethodRef): map<string, seq<MethodRef>>
    {
      if !DeclaredByAncestor(m) || m.name !in h then h
      else if m in h[m.name] then h[m.name := RemoveFirst(h[m.name], m)]
      else h
    }

    function UnsubscribeAll(h: map<string, seq<MethodRef>>, ms: seq<MethodRef>): map<string, seq<MethodRef>>
    {
      if ms == [] then h else UnsubscribeOne(UnsubscribeAll(h, ms[..|ms| - 1]), ms[|ms| - 1])
    }

    lemma SubscribeOneMeaning(p: map<string, seq<MethodRef>>, m: MethodRef)
      requires ValidTable(p)
      ensures var r := SubscribeOne(p, m);
        && ValidTable(r)
        && (forall n :: n in r <==> n in p || (Subscribable(m) && m.name == n))
        && (forall n, x :: x in Subscriptions(r, n) <==>
              x in Subscriptions(p, n) || (x == m && Subscribable(m) && m.name == n))
        && (forall n :: n in p ==> p[n] <= r[n])
    {
      if Subscribable(m) && m !in Subscriptions(p, m.name) {
        var list := Subscriptions(p, m.name);
        assert NoDuplicateMethods(list + [m]);
      }
    }

    lemma {:induction false} SubscribeAllValid(h: map<string, seq<MethodRef>>, ms: seq<MethodRef>)
      requires ValidTable(h)
      ensures ValidTable(SubscribeAll(h, ms))
      ensures forall n :: n in h ==> n in SubscribeAll(h, ms) && h[n] <= SubscribeAll(h, ms)[n]
    {
      if ms != [] {
        var init := ms[..|ms| - 1];
        SubscribeAllValid(h, init);
        SubscribeOneMeaning(SubscribeAll(h, init), ms[|ms| - 1]);
      }
    }

    lemma {:induction false} SubscribeAllName(h: map<string, seq<MethodRef>>, ms: seq<MethodRef>, n: string)
      requires ValidTable(h)
      ensures n in SubscribeAll(h, ms) <==> n in h || exists m :: m in ms && Subscribable(m) && m.name == n
    {
      if ms != [] {
        var init := ms[..|ms| - 1];
        var m := ms[|ms| - 1];
        assert ms == init + [m];
        SubscribeAllName(h, init, n);
        SubscribeAllValid(h, init);
        SubscribeOneMeaning(SubscribeAll(h, init), m);
        if exists y :: y in ms && Subscribable(y) && y.name == n {
          var y :| y in ms && Subscribable(y) && y.name == n;
          if y != m { assert y in init; }
        }
      }
    }

    lemma {:induction false} SubscribeAllMember(h: map<string, seq<MethodRef>>, ms: seq<MethodRef>, n: string, x: MethodRef)
      requires ValidTable(h)
      ensures x in Subscriptions(SubscribeAll(h, ms), n) <==>
        x in Subscriptions(h, n) || (x in ms && Subscribable(x) && x.name == n)
    {
      if ms != [] {
        var init := ms[..|ms| - 1];
        var m := ms[|ms| - 1];
        assert ms == init + [m];
        SubscribeAllMember(h, init, n, x);
        SubscribeAllValid(h, init);
        SubscribeOneMeaning(SubscribeAll(h, init), m);
      }
    }

    /** Subscribing keeps the table valid. A name is present afterwards iff it
        was before or is the name of a subscribable method given; a method is
        listed under a name iff it was before or it is a given subscribable
        method of that name; and every existing list keeps its order, new
        methods being appended. */
    lemma SubscribeAllMeaning(h: map<string, seq<MethodRef>>, ms: seq<MethodRef>)
      requires ValidTable(h)
      ensures var r := SubscribeAll(h, ms);
        && ValidTable(r)
        && (forall n :: n in r <==> n in h || exists m :: m in ms && Subscribable(m) && m.name == n)
        && (forall n, x :: x in Subscriptions(r, n) <==>
              x in Subscriptions(h, n) || (x in ms && Subscribable(x) && x.name == n))
        && (forall n :: n in h ==> h[n] <= r[n])
    {
      SubscribeAllValid(h, ms);
      forall n: string {
        SubscribeAllName(h, ms, n);
      }
      forall n: string, x: MethodRef {
        SubscribeAllMember(h, ms, n, x);
      }
    }

    lemma UnsubscribeOneMeaning(p: map<string, seq<MethodRef>>, m: MethodRef)
      requires ValidTable(p)
      ensures var r := UnsubscribeOne(p, m);
        && ValidTable(r)
        && (forall n :: n in r <==> n in p)
        && (forall n, x :: x in Subscriptions(r, n) <==> x in Subscriptions(p, n) && x != m)
    {
    }

    lemma {:induction false} UnsubscribeAllValid(h: map<string, seq<MethodRef>>, ms: seq<MethodRef>)
      requires ValidTable(h)
      ensures ValidTable(UnsubscribeAll(h, ms))
      ensures forall n :: n in UnsubscribeAll(h, ms) <==> n in h
    {
      if ms != [] {
        UnsubscribeAllValid(h, ms[..|ms| - 1]);
        UnsubscribeOneMeaning(UnsubscribeAll(h, ms[..|ms| - 1]), ms[|ms| - 1]);
      }
    }

    lemma {:induction false} UnsubscribeAllMember(h: map<string, seq<MethodRef>>, ms: seq<MethodRef>, n: string, x: MethodRef)
      requires ValidTable(h)
      ensures x in Subscriptions(UnsubscribeAll(h, ms), n) <==> x in Subscriptions(h, n) && x !in ms
    {
      if ms != [] {
        var init := ms[..|ms| - 1];
        var m := ms[|ms| - 1];
        UnsubscribeAllMember(h, init, n, x);
        UnsubscribeAllValid(h, init);
        assert ms == init + [m];
        UnsubscribeOneMeaning(UnsubscribeAll(h, init), m);
      }
    }

    /** Unsubscribing keeps the table valid and creates no name; a method stays
        listed under a name iff it was listed there and is not among the
        methods given. */
    lemma UnsubscribeAllMeaning(h: map<string, seq<MethodRef>>, ms: seq<MethodRef>)
      requires ValidTable(h)
      ensures ValidTable(UnsubscribeAll(h, ms))
      ensures forall n :: n in UnsubscribeAll(h, ms) <==> n in h
      ensures forall n, x :: x in Subscriptions(UnsubscribeAll(h, ms), n) ==> x in Subscriptions(h, n)
      ensures forall n, x :: x in Subscriptions(UnsubscribeAll(h, ms), n) ==> x !in ms
      ensures forall n, x :: x in Subscriptions(h, n) && x !in ms ==> x in Subscriptions(UnsubscribeAll(h, ms), n)
    {
      UnsubscribeAllValid(h, ms);
      forall n: string, x: MethodRef {
        UnsubscribeAllMember(h, ms, n, x);
      }
    }

    /** `SubscribeTo` over a method sequence (lines 81-116); a null sequence is ignored. */
    method SubscribeTo(methods: Option<seq<MethodRef>>)
      requires Valid()
      modifies this
      ensures Valid()
      ensures hooks == (if methods.None? then old(hooks) else SubscribeAll(old(hooks), methods.value))
      ensures ModuleInfo == old(ModuleInfo)
    {
      if methods.None? {
        return;
      }
      var ms := methods.value;
      for i := 0 to |ms|
        invariant hooks == SubscribeAll(old(hooks), ms[..i])
        invariant ModuleInfo == old(ModuleInfo)
      {
        assert ms[..i + 1][..i] == ms[..i];
        var base := ms[i];
        if !ts.assignable(base.declaringType, ModuleType) || base.isConstructor {
          continue;
        }
        var name := base.name;
        var subscriptions: seq<MethodRef>;
        if name in hooks {
          subscriptions := hooks[name];
        } else {
          subscriptions := [];
          hooks := hooks[name := subscriptions];
        }
        if base in subscriptions {
          continue;
        }
        hooks := hooks[name := subscriptions + [base]];
      }
      assert ms[..|ms|] == ms;
      SubscribeAllMeaning(old(hooks), ms);
    }

    /** `UnsubscribeFrom` over a method sequence (lines 118-150); a null sequence is ignored. */
    method UnsubscribeFrom(methods: Option<seq<MethodRef>>)
      requires Valid()
      modifies this
      ensures Valid()
      ensures hooks == (if methods.None? then old(hooks) else UnsubscribeAll(old(hooks), methods.value))
      ensures ModuleInfo == old(ModuleInfo)
    {
      if methods.None? {
        return;
      }
      var ms := methods.value;
      for i := 0 to |ms|
        invariant hooks == UnsubscribeAll(old(hooks), ms[..i])
        invariant ModuleInfo == old(ModuleInfo)
      {
        assert ms[..i + 1][..i] == ms[..i];
        var base := ms[i];
        if !ts.assignable(base.declaringType, ModuleType) {
          continue;
        }
        var name := base.name;
        if name !in hooks {
          continue;
        }
        var subscriptions := hooks[name];
        if base in subscriptions {
          hooks := hooks[name := RemoveFirst(subscriptions, base)];
        }
      }
      assert ms[..|ms|] == ms;
      UnsubscribeAllMeaning(old(hooks), ms);
    }

    /** The public methods of this module's type with the given name whose
        signature matches. */
    function MethodsNamed(methodName: string, signature: MethodRef -> bool): seq<MethodRef>
    {
      Named(ts.info(ModuleType).methods, methodName, signature)
    }

    /** `SubscribeTo(methodName, ...)` (lines 55-66); `signature` stands for
        `HasMatchingSignature` with the given parameter and return types. */
    method SubscribeToName(methodName: Option<string>, signature: MethodRef -> bool)
      requires Valid()
      modifies this
      ensures Valid()
      ensures IsNullOrEmpty(methodName) ==> hooks == old(hooks)
      ensures !IsNullOrEmpty(methodName) ==> hooks == SubscribeAll(old(hooks), MethodsNamed(methodName.value, signature))
      ensures ModuleInfo == old(ModuleInfo)
    {
      if IsNullOrEmpty(methodName) {
        return;
      }
      SubscribeTo(Some(MethodsNamed(methodName.value, signature)));
    }

    /** `UnsubscribeFrom(methodName, ...)` (lines 68-79). */
    method UnsubscribeFromName(methodName: Option<string>, signature: MethodRef -> bool)
      requires Valid()
      modifies this
      ensures Valid()
      ensures IsNullOrEmpty(methodName) ==> hooks == old(hooks)
      ensures !IsNullOrEmpty(methodName) ==> hooks == UnsubscribeAll(old(hooks), MethodsNamed(methodName.value, signature))
      ensures ModuleInfo == old(ModuleInfo)
    {
      if IsNullOrEmpty(methodName) {
        return;
      }
      UnsubscribeFrom(Some(MethodsNamed(methodName.value, signature)));
    }

    // -------------------------------------------------------------------------
    // Dispatch
    // -------------------------------------------------------------------------

    /** What `ExecuteHook` returns and leaves in the caller's arguments. No
        name, an unknown name or no mapping candidate gives null and leaves the
        arguments alone. Otherwise the candidate `FindBestMethod` picks, the
        last one that maps (lines 217-261 of ExecutionEngine.cs), is invoked
        on this module with its mapped arguments; an invocation error
        propagates with the arguments untouched; on success the result is
        returned and out/by-ref values are written back. */
    function HookDispatch(methodName: Option<string>, args: seq<Value>, provider: Resolver, call: Invoker): (Result<Value>, seq<Value>)
      reads this
    {
      if IsNullOrEmpty(methodName) || methodName.value !in hooks then (Success(Null), args)
      else
        var methods := hooks[methodName.value];
        match LastMapped(ts, provider, methods, args)
        case None => (Success(Null), args)
        case Some(k) =>
          var m := methods[k];
          var pm := ParameterMap(ts, provider, Some(m.params), args).pm;
          match call(m, Self, pm.newArgs)
          case Failure(e) => (Failure(e), args)
          case Success(inv) =>
            var after := AfterInvoke(m.params, pm.newArgs, inv.argsAfter);
            MappedShape(ts, provider, m.params, args, |m.params|);
            WriteBackAfterMapping(ts, provider, m.params, args, after);
            (Success(inv.value), ByRefs(ts, m.params, after, args, pm.mapping, |pm.mapping|))
    }

    /** `ExecuteHook` (lines 154-195); `provider` is the core module's service
        provider and `call` the reflective invocation. */
    method ExecuteHook(methodName: Option<string>, arguments: array<Value>, provider: Resolver, call: Invoker)
      returns (r: Result<Value>)
      modifies arguments
      ensures r == HookDispatch(methodName, old(arguments[..]), provider, call).0
      ensures arguments[..] == HookDispatch(methodName, old(arguments[..]), provider, call).1
    {
      if IsNullOrEmpty(methodName) {
        return Success(Null);
      }
      if methodName.value !in hooks {
        return Success(Null);
      }
      var methods := hooks[methodName.value];
      var bestMethod, newArgs, mapping, parameters := FindBestMethod(ts, provider, methods, arguments);
      if bestMethod.None? {
        return Success(Null);
      }
      ghost var k := LastMapped(ts, provider, methods, arguments[..]).value;
      MappedShape(ts, provider, methods[k].params, arguments[..], |methods[k].params|);
      var value := ExecuteMethod(call, bestMethod.value, newArgs, Self);
      if value.Failure? {
        return value;
      }
      WriteBackAfterMapping(ts, provider, methods[k].params, arguments[..], newArgs[..]);
      ProcessByRefs(ts, parameters.value, newArgs[..], arguments, mapping[..]);
      return value;
    }

    // -------------------------------------------------------------------------
    // Identity (lines 199-237)
    // -------------------------------------------------------------------------

    /** `Equals(IModule)`: the same short type name, compared ordinally. */
    predicate Equals(other: Module?)
    {
      other != null && TypeName == other.TypeName
    }

    /** `CompareTo`: the culture-sensitive comparison of short type names. */
    function CompareTo(other: Module?, collate: Collation): int
    {
      if other == null then 1 else collate(TypeName, other.TypeName)
    }

    function GetHashCode(hash: string -> int): int
    {
      hash(TypeName)
    }
  }

  /** Module equality is an equivalence that never holds of null; equal
      modules hash alike and, under a well-behaved collation, compare equal;
      `CompareTo(null)` is 1. */
  lemma ModuleIdentity(a: Module, b: Module, c: Module, collate: Collation, hash: string -> int)
    ensures a.Equals(a) && !a.Equals(null)
    ensures a.Equals(b) <==> b.Equals(a)
    ensures a.Equals(b) && b.Equals(c) ==> a.Equals(c)
    ensures a.Equals(b) ==> a.GetHashCode(hash) == b.GetHashCode(hash)
    ensures WellBehaved(collate) && a.Equals(b) ==> a.CompareTo(b, collate) == 0
    ensures a.CompareTo(null, collate) == 1
  {
  }

  /** Subscribing by name lists a method under the name exactly when it was
      already listed there, or it is a public method of the module's type with
      that name and a matching signature that is subscribable. */
  lemma SubscribeByNameMeaning(m: Module, h: map<string, seq<MethodRef>>, methodName: string,
                               signature: MethodRef -> bool, n: string, x: MethodRef)
    requires m.ValidTable(h)
    ensures var r := m.SubscribeAll(h, m.MethodsNamed(methodName, signature));
      x in Subscriptions(r, n) <==>
        x in Subscriptions(h, n)
        || (x in m.ts.info(m.ModuleType).methods && x.name == methodName && n == methodName
            && signature(x) && m.Subscribable(x))
  {
    m.SubscribeAllMeaning(h, m.MethodsNamed(methodName, signature));
  }
}
