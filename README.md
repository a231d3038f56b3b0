# LiteLoader core, modelled in Dafny

LiteLoader is a .NET plugin host. It finds module assemblies for a name, builds
each module's root object through a small dependency-injection container, and
dispatches named "hooks" to whichever of a module's methods best fits the
arguments of a call. This project models the core of that host:

- `ExecutionEngine.dfy`: the dispatch engine. It covers how arguments are
  mapped onto a method's parameters, which candidate method is picked, and how
  by-ref and out results are copied back into the caller's arguments.
- `ActivationUtility.dfy`: how a construction factory is chosen. It covers the
  preference order of constructors and how their arguments are assembled from
  explicit values and from the service provider.
- `ServiceDescriptor.dfy` and `DynamicServiceProvider.dfy`: the service
  registry. It covers registration, lookup by exact or assignable type,
  singleton caching and disposal on removal.
- `Module.dfy`: a loaded module. It covers the hook subscription table, hook
  execution, and module identity (equality, ordering, hashing).
- `ModuleComparer.dfy`: the order of the loader's loaded-modules list.
- `ModuleInfo.dfy`: the per-module file record. Only its naming is modelled.
- `DotNetModuleLoader.dfy`: the loader's loading, loaded and unloaded
  collections.
- `ArrayPool.dfy`: the pool of reusable arrays.
- `CompoundLogger.dfy`: the fan-out logger.
- `Plugin.dfy`: plugin identity and ordering.

`Runtime.dfy` and `Wrappers.dfy` hold the shared vocabulary:
- Types, values, parameters, members and their reflection data.
- `Option`, `Result` and `Outcome`.
- The exception kinds as an `Error` datatype.

Reflection, `TypeDescriptor` conversion, service lookups, invoked members and
culture-sensitive string comparison are foreign code. The model receives them
as parameters:
- a `TypeSystem` of oracles;
- a `Resolver`, standing for `IServiceProvider` or null;
- an `Invoker`, standing for `MethodBase.Invoke` followed by awaiting any task;
- a `Collation`, standing for `string.CompareTo`.

Exceptions become `Failure`/`Fail` results that carry the exception kind and,
where the code names one, the parameter. An exception thrown by code that
reflection invokes arrives wrapped, as `TargetInvocation` around the inner
kind: this applies to a module constructor's errors and to its derived
constructor's subscriptions.

Objects whose members the code updates in place are classes. These are the
module, the loader, the service provider, the service descriptor, the array
pool, the compound logger and the module file record. Their methods are proved
against specification functions, such as `SubscribeAll`, `HookDispatch`,
`Added`, `Removed`, `Prepare`, `ParameterMap` and `Assigned`. Properties of
those functions are stated as lemmas. Loops of the code are `while`/`for`
loops with invariants.

Where the code's evident intent and its behaviour differ, the model follows
the code:
- A module whose activation fails stays in the loader's loading list, because
  `LoadModule(object)` has no cleanup path.
- Unloading an unknown module dereferences null instead of being a no-op (see
  Findings).
- Hooks are dispatched to the candidate `FindBestMethod` picks as written: the
  last one that maps, not the one that uses the most arguments (see Findings).

Two places depart from the code on purpose. Each of them would otherwise
make every call of the operations above throw, and nothing beyond that throw
could be stated.
- As written, the `ModuleInfo` constructor throws for every file (see
  Findings), so no load of an existing module file gets past it. `LoadModule`
  builds its record with the corrected constructor instead.
- Pooled arrays are taken to come from the corrected helper pool
  (`Pooling.HelperPoolGetCorrected`). As written, the static `Pool` registry's
  helper pool has no queue for length 1 (see Findings), so every `Pool.Array`
  call throws an index error at src/Pooling/Pool.cs:147. `Pool.Free` throws the
  same way at src/Pooling/Pool.cs:108 once it finds a pool for the object's
  type. The model's pooled arrays are fresh null-filled arrays of the requested
  length, and freeing one changes nothing.

## Model

| member | source | states |
|---|---|---|
| Runtime.TryConvert | src/DependencyInjection/ExecutionEngine.cs:185-191 | a null value never converts |
| ExecutionEngine.BindSlot | src/DependencyInjection/ExecutionEngine.cs:76-115 | the argument scan for one parameter, which only ever examines the argument at the cursor: a null argument binds only an out parameter, an out parameter binds nothing else, an assignable argument binds as itself and a convertible one as its conversion; characterised by `ScanArguments` and `MappedShape` |
| ExecutionEngine.MapStep | src/DependencyInjection/ExecutionEngine.cs:76-127 | one parameter's entry: the bound argument, else the provider's service for the parameter type, else failure; characterised by `RejectedSticks`, `RejectedNeedsMissingService` and `ServicesAvailableMeansMapped` |
| ExecutionEngine.ParameterMap | src/DependencyInjection/ExecutionEngine.cs:46-133 | the map of a whole parameter list; a null list fails and an empty one maps trivially; characterised by the lemmas below |
| ExecutionEngine.CreateParameterMap | src/DependencyInjection/ExecutionEngine.cs:46-133 | succeeds exactly when every parameter is bound to the next argument or to a service; on success the returned fresh map and argument arrays and the count of used arguments are those of the specification function, on failure both arrays are null |
| ExecutionEngine.ScanArguments | src/DependencyInjection/ExecutionEngine.cs:76-115 | the scan over the arguments from the cursor finds a value exactly when the specification binds the parameter to an argument, and the value found is that argument; otherwise it reports null |
| ExecutionEngine.TrivialParameterLists | src/DependencyInjection/ExecutionEngine.cs:51-61 | a null parameter list never maps; an empty one maps with empty arrays and no arguments used |
| ExecutionEngine.MappedShape | src/DependencyInjection/ExecutionEngine.cs:66-130 | a successful map has one entry and one new argument per parameter, uses at most as many arguments as there are, and each slot is bound as the scan rule dictates given the arguments used before it |
| ExecutionEngine.BoundIndicesIncrease | src/DependencyInjection/ExecutionEngine.cs:77-115 | argument indices bound by successive parameters strictly increase and all lie below the number of used arguments, which equals the number of bound slots |
| ExecutionEngine.RejectedSticks | src/DependencyInjection/ExecutionEngine.cs:117-127 | once a parameter cannot be satisfied the map fails, whatever follows |
| ExecutionEngine.RejectedNeedsMissingService | src/DependencyInjection/ExecutionEngine.cs:117-127 | a failed map implies some parameter type has no service |
| ExecutionEngine.ServicesAvailableMeansMapped | src/DependencyInjection/ExecutionEngine.cs:117-129 | when the provider yields a service for every parameter type the map succeeds |
| ExecutionEngine.NullProviderBindsEverySlot | src/DependencyInjection/ExecutionEngine.cs:77-127 | without a provider a successful map binds parameter *i* to argument *i* for every *i* |
| ExecutionEngine.CountBoundPrefix | src/DependencyInjection/ExecutionEngine.cs:77-115 | the used-argument count never decreases along the parameter list and grows at every bound slot |
| ExecutionEngine.LastMapped | src/DependencyInjection/ExecutionEngine.cs:217-261 | the candidate the loop as written ends with: none iff no candidate maps, else the last candidate that maps |
| ExecutionEngine.BestMapped | src/DependencyInjection/ExecutionEngine.cs:217-261 | the evidently intended choice: none iff no candidate maps, else a mapping candidate using the most arguments, the earliest among ties |
| ExecutionEngine.FindBestMethod | src/DependencyInjection/ExecutionEngine.cs:217-261 | returns the candidate `LastMapped` picks, with its parameters and fresh arrays holding its map and arguments; all null when none maps |
| ExecutionEngine.FindBestMethodCorrected | src/DependencyInjection/ExecutionEngine.cs:217-261 | the same with `usedArguments` updated, returning the `BestMapped` candidate |
| ExecutionEngine.LastMappedIgnoresArgumentCount | src/DependencyInjection/ExecutionEngine.cs:220-251 | with candidates taking two and one matching arguments and two arguments given, the loop as written picks the one-parameter candidate while the best fit is the other |
| ExecutionEngine.AfterInvoke | src/DependencyInjection/ExecutionEngine.cs:16-44 | after an invocation by-ref slots hold what the callee left there and every other slot keeps its value |
| ExecutionEngine.ExecuteMethod | src/DependencyInjection/ExecutionEngine.cs:16-44 | an invocation error propagates and leaves the arguments as they were; otherwise the result is returned and by-ref arguments are updated |
| ExecutionEngine.ByRefs | src/DependencyInjection/ExecutionEngine.cs:135-183 | write-back keeps the length of the caller's argument array |
| ExecutionEngine.ProcessByRefs | src/DependencyInjection/ExecutionEngine.cs:135-183 | the caller's array afterwards is the write-back function of its old contents |
| ExecutionEngine.ByRefsFrame | src/DependencyInjection/ExecutionEngine.cs:137-162 | a caller slot that no by-ref or out parameter is mapped to is left unchanged |
| ExecutionEngine.ByRefsWritten | src/DependencyInjection/ExecutionEngine.cs:162-181 | a slot a by-ref parameter is mapped to receives that parameter's value, converted to the type of the slot's old value when it is not an instance of it and a conversion exists |
| ExecutionEngine.WriteBackAfterMapping | src/DependencyInjection/ExecutionEngine.cs:135-183 | after a successful map, write-back is well defined; by-ref slots receive the produced values (verbatim when the old value was null) and all other slots are untouched |
| ActivationUtility.HasMatchingParameters | src/DependencyInjection/ActivationUtility.cs:101-117 | true exactly when every argument from the start index matches the parameter at its position |
| ActivationUtility.IsMatchingParameter | src/DependencyInjection/ActivationUtility.cs:81-99 | a missing argument type matches an optional or defaulted parameter; a present one must be assignable to the parameter type, which a by-ref type never is; used by `HasMatchingParameters` |
| ActivationUtility.EligibleBelow | src/DependencyInjection/ActivationUtility.cs:62-63 | collects exactly the constructors below a bound whose parameters accept the argument types, without repetition |
| ActivationUtility.SortDescSorted | src/DependencyInjection/ActivationUtility.cs:64 | the sort by descending parameter count yields a sorted list of the same constructors |
| ActivationUtility.FilterConstructors | src/DependencyInjection/ActivationUtility.cs:60-74 | the chosen constructor: of the accepting ones sorted by descending arity, the first `[Factory]` one, else the first; characterised by `FilterConstructorsChoice` |
| ActivationUtility.FilterConstructorsChoice | src/DependencyInjection/ActivationUtility.cs:60-74 | no constructor is chosen iff none accepts the argument types; otherwise the chosen one accepts them, is a `[Factory]` constructor when any accepting one is, and has at least as many parameters as every other candidate of its kind, earlier on ties |
| ActivationUtility.Assigned | src/DependencyInjection/ActivationUtility.cs:119-167 | a successful assembly has one value per parameter |
| ActivationUtility.CanAssignNull | src/DependencyInjection/ActivationUtility.cs:169-177 | true for by-ref, reference and `Nullable<T>` types |
| ActivationUtility.SourceValue | src/DependencyInjection/ActivationUtility.cs:126-134 | a slot's source: the explicit argument while some are left, else the provider's service for the declared parameter type (`T&` for a by-ref parameter); a null argument array or provider is a null dereference |
| ActivationUtility.ByRefSlot | src/DependencyInjection/ActivationUtility.cs:126-163 | a by-ref slot is asked of the provider as `T&` and keeps no non-null value: one fails as a wrong assignment, and a null one survives only for an optional or defaulted parameter |
| ActivationUtility.AssignedMeaning | src/DependencyInjection/ActivationUtility.cs:119-167 | assembly succeeds iff every slot's source (the explicit argument, or the service for the declared type) exists and is acceptable; a non-null source is kept and fits the parameter type; a null source is allowed only for optional or defaulted parameters and becomes the default stand-in; an error names a parameter or is a null dereference |
| ActivationUtility.AssignedFailureSticks | src/DependencyInjection/ActivationUtility.cs:119-167 | the first failing slot decides the error; later slots are not considered |
| ActivationUtility.AssignParameters | src/DependencyInjection/ActivationUtility.cs:119-167 | fills the array with the assembled values, or returns the assembly's error |
| ActivationUtility.FactoryFor | src/DependencyInjection/ActivationUtility.cs:12-58 | a factory exists only for a given type and captures the explicit arguments |
| ActivationUtility.FactoryForMeaning | src/DependencyInjection/ActivationUtility.cs:12-58 | a factory needs a concrete type and non-null explicit arguments, and holds a constructor that accepts their types; a null explicit argument is a null dereference, and a missing member means no constructor accepts them |
| ActivationUtility.CreateFactory | src/DependencyInjection/ActivationUtility.cs:12-58 | the method computes the specified factory or error |
| ActivationUtility.InvokeActivation | src/DependencyInjection/ActivationUtility.cs:48-57 | the factory's closure reports an assembly error, or constructs with the assembled values |
| ServiceDescriptors.ServiceDescriptor.constructor | src/DependencyInjection/ServiceDescriptor.cs:17-24 | every argument is stored in its property |
| DynamicServiceProviders.FirstAssignable | src/DependencyInjection/DynamicServiceProvider.cs:59-66 | the first key in enumeration order assignable from the request, or none when no key is |
| DynamicServiceProviders.Without | src/DependencyInjection/DynamicServiceProvider.cs:109 | removing a key from the enumeration drops exactly that key and keeps it duplicate-free |
| DynamicServiceProviders.DynamicServiceProvider.constructor | src/DependencyInjection/DynamicServiceProvider.cs:10 | an empty registry |
| DynamicServiceProviders.DynamicServiceProvider.Lookup | src/DependencyInjection/DynamicServiceProvider.cs:53-73 | a request is served by its own key when registered, else by the first key assignable from it, else by none, in which case no key is assignable |
| DynamicServiceProviders.DynamicServiceProvider.AddService | src/DependencyInjection/DynamicServiceProvider.cs:12-39 | a missing service type, a duplicate or a factory error fails and changes nothing; otherwise exactly one fresh descriptor is added under the service type, enumerated last, with the derived factory when none was given |
| DynamicServiceProviders.DynamicServiceProvider.GetService | src/DependencyInjection/DynamicServiceProvider.cs:41-86 | a null type fails; a provider type yields the provider; an unserved type yields null; a transient descriptor invokes its factory every time; a singleton invokes it only while nothing is cached and caches the result; no other descriptor changes, where the factory is an opaque result (its own effects are not modelled) |
| DynamicServiceProviders.DynamicServiceProvider.RemoveService | src/DependencyInjection/DynamicServiceProvider.cs:88-115 | returns true exactly for a registered type, which is removed from the map and the enumeration, disposing its cached instance if that is disposable; otherwise nothing changes |
| ModuleInfos.LastIndex | src/Modules/ModuleInfo.cs:32 | the index of the last separator (or dot), with none of them after it |
| ModuleInfos.NameOfModuleFile | src/Modules/DotNetModuleLoader.cs:129-142 | the record name of either candidate module file is the requested module name, for any name without a path separator, dotted names included |
| ModuleInfos.ModuleInfo.constructor | src/Modules/ModuleInfo.cs:29-37 | corrected: the record keeps the file and is named after it without extension |
| ModuleInfos.ConstructAsWritten | src/Modules/ModuleInfo.cs:29-33 | the constructor as written, field by field from a record whose fields are all null, up to the module directory |
| ModuleInfos.ConstructAsWrittenAlwaysFails | src/Modules/ModuleInfo.cs:32-33 | as written, the name is computed from the unset name, so `Path.Combine` always throws `ArgumentNullException`; reading the file instead gives the corrected name |
| Modules.RemoveFirst | src/Modules/Module.cs:144-147 | removing from a duplicate-free subscription list takes out exactly that method and keeps it duplicate-free |
| Modules.Named | src/Modules/Module.cs:62-63 | exactly the type's methods of that name accepted by the signature filter |
| Modules.Module.Init | src/Modules/Module.cs:33-49 | a module with the given identity and info, no file record and an empty hook table |
| Modules.Module.CreateError | src/Modules/Module.cs:33-49 | construction succeeds iff the `[ModuleInfo]` attribute exists with title, author and version and an execution engine is present; otherwise the error is the first failing check, a missing attribute being an invalid-constraint error |
| Modules.Module.Create | src/Modules/Module.cs:33-49 | the error of `CreateError`, or a fresh module populated from the attribute with an empty hook table |
| Modules.Module.SubscribeOneMeaning | src/Modules/Module.cs:88-115 | one subscription adds the method under its name exactly when it is subscribable and not yet listed, keeping every list duplicate-free and in order |
| Modules.Module.SubscribeAllMeaning | src/Modules/Module.cs:81-116 | after subscribing a list, a method is listed under a name iff it was before or it is a subscribable method of that name from the list; existing lists only grow at the end |
| Modules.Module.SubscribeAllValid | src/Modules/Module.cs:81-116 | subscribing a list keeps the hook table well formed and every existing list is a prefix of its new list |
| Modules.Module.SubscribeAllName | src/Modules/Module.cs:81-116 | a name has a list after subscribing iff it had one before or some subscribable method in the list carries that name |
| Modules.Module.SubscribeAllMember | src/Modules/Module.cs:81-116 | a method is in a name's list after subscribing iff it was before or it is a subscribable method of that name from the list |
| Modules.Module.UnsubscribeOneMeaning | src/Modules/Module.cs:125-149 | one unsubscription removes exactly that method from its name's list and keeps every name |
| Modules.Module.UnsubscribeAllMember | src/Modules/Module.cs:118-150 | after unsubscribing a list, a method stays listed under a name iff it was listed and is not in the list |
| Modules.Module.UnsubscribeAllMeaning | src/Modules/Module.cs:118-150 | unsubscribing keeps the table valid and its names; what remains was listed before, is not among the removed methods, and every other listed method remains |
| Modules.Module.SubscribeTo | src/Modules/Module.cs:81-116 | a null list is ignored; otherwise the table becomes the specified subscription of the list |
| Modules.Module.UnsubscribeFrom | src/Modules/Module.cs:118-150 | a null list is ignored; otherwise the table becomes the specified unsubscription of the list |
| Modules.Module.SubscribeToName | src/Modules/Module.cs:55-66 | a null or empty name is ignored; otherwise the type's methods of that name passing the filter are subscribed |
| Modules.Module.UnsubscribeFromName | src/Modules/Module.cs:68-79 | a null or empty name is ignored; otherwise those methods are unsubscribed |
| Modules.SubscribeByNameMeaning | src/Modules/Module.cs:55-66 | after subscribing by name, a method is listed iff it was before or it is a subscribable method of the type with that name passing the filter |
| Modules.Module.HookDispatch | src/Modules/Module.cs:154-195 | the specification of hook execution: no name, no such hook or no mapping candidate gives null and the arguments as they were; otherwise the last candidate that maps is invoked, an invocation error leaves the arguments alone, and a result comes with by-ref values written back |
| Modules.Module.ExecuteHook | src/Modules/Module.cs:154-195 | result and caller arguments are those of `HookDispatch` on the old arguments, with `FindBestMethod` as written choosing the candidate |
| Modules.Module.Equals | src/Modules/Module.cs:212-232 | two modules are equal when their short type names are equal ordinally; never equal to null; its properties are stated by `ModuleIdentity` |
| Modules.Module.CompareTo | src/Modules/Module.cs:199-210 | null compares as 1, otherwise the collation of the short type names; its properties are stated by `ModuleIdentity` |
| Modules.Module.GetHashCode | src/Modules/Module.cs:234-237 | the hash of the short type name; agreement with `Equals` is stated by `ModuleIdentity` |
| Modules.ModuleIdentity | src/Modules/Module.cs:199-237 | `Equals` is an equivalence that never holds for null, equal modules hash alike and compare as 0, and every module sorts after null |
| ModuleComparers.Compare | src/Modules/ModuleComparer.cs:12-42 | the loaded-modules order: null first, then the collation of the type names, then the versions, then the collation of the authors; its order properties are stated by the lemmas below |
| ModuleComparers.CompareVersion | src/Modules/ModuleComparer.cs:33 | version comparison yields -1, 0 or 1, and 0 exactly for equal versions |
| ModuleComparers.CompareReflexive | src/Modules/ModuleComparer.cs:12-42 | every module compares equal to itself |
| ModuleComparers.CompareAntisymmetric | src/Modules/ModuleComparer.cs:12-42 | swapping the arguments flips the sign |
| ModuleComparers.CompareTransitive | src/Modules/ModuleComparer.cs:12-42 | the order is transitive, so sorting by it is well defined |
| ModuleComparers.NullFirst | src/Modules/ModuleComparer.cs:14-27 | null sorts before every module and equal to null |
| DotNetModuleLoaders.FirstNamed | src/Modules/DotNetModuleLoader.cs:51-60 | the position of the first loaded module whose short type name equals the name ignoring case, or the list length when there is none |
| DotNetModuleLoaders.InsertByOrder | src/Modules/DotNetModuleLoader.cs:35-36 | inserting adds exactly the module to the list's contents |
| DotNetModuleLoaders.InsertByOrderSorted | src/Modules/DotNetModuleLoader.cs:35-36 | inserting into a sorted list keeps it sorted under the module comparer |
| DotNetModuleLoaders.InsertByOrderDistinct | src/Modules/DotNetModuleLoader.cs:33-36 | inserting a module of a new type name keeps type names distinct |
| DotNetModuleLoaders.RemoveAtKeepsOrder | src/Modules/DotNetModuleLoader.cs:174 | removing one module keeps the list sorted and its names distinct |
| DotNetModuleLoaders.RemoveInfo | src/Modules/DotNetModuleLoader.cs:204 | removing a record takes out one occurrence, or nothing when absent |
| DotNetModuleLoaders.Prepare | src/Modules/DotNetModuleLoader.cs:193-199 | the outcome of a load up to the `Init` hook, the first exception deciding. The module constructor's errors and the derived constructor's errors are raised inside `constructor.Invoke` (src/DependencyInjection/ActivationUtility.cs:54), so they arrive wrapped in `TargetInvocation`; staging and factory errors arrive unwrapped. Characterised by `PrepareMeaning` |
| DotNetModuleLoaders.PrepareMeaning | src/Modules/DotNetModuleLoader.cs:193-198 | a load reaches the `Init` hook only for a staged concrete module type with a complete attribute, a non-null loader and an engine; no module type fails with a null argument, a null loader with a null dereference (the loader passes itself, which `Valid` keeps non-null); a module class without the attribute whose constructor arguments are all supplied fails with `InvalidConstraintException` wrapped in `TargetInvocation` |
| DotNetModuleLoaders.DotNetModuleLoader.constructor | src/Modules/DotNetModuleLoader.cs:20-25 | all three collections start empty |
| DotNetModuleLoaders.DotNetModuleLoader.FinalizeModuleLoad | src/Modules/DotNetModuleLoader.cs:29-40 | a module equal to a loaded one is not added; otherwise it is added, keeping the list sorted with distinct type names |
| DotNetModuleLoaders.DotNetModuleLoader.GetModule | src/Modules/DotNetModuleLoader.cs:42-64 | null for a null or empty name, else the first loaded module with that name ignoring case, or null |
| DotNetModuleLoaders.DotNetModuleLoader.IsModuleLoaded | src/Modules/DotNetModuleLoader.cs:66-88 | true iff the name is non-empty and some loaded module has it, ignoring case |
| DotNetModuleLoaders.DotNetModuleLoader.IsModuleLoading | src/Modules/DotNetModuleLoader.cs:90-110 | true iff the name is non-empty and some loading record has it, ignoring case |
| DotNetModuleLoaders.DotNetModuleLoader.Construct | src/Modules/DotNetModuleLoader.cs:193-198 | fails with the first staging or construction error, with the module constructor's and the derived constructor's errors wrapped in `TargetInvocation`; else yields a fresh module of the staged type subscribed to its derived constructor's hooks |
| DotNetModuleLoaders.DotNetModuleLoader.Activate | src/Modules/DotNetModuleLoader.cs:191-208 | a failure before or in the `Init` hook leaves the collections as they were, the record staying among the loading ones; otherwise the record leaves the loading list and the module is finalized |
| DotNetModuleLoaders.DotNetModuleLoader.LoadModule | src/Modules/DotNetModuleLoader.cs:112-152 | a null or empty name, a name loading or loaded already, or no module file changes nothing; otherwise a fresh record named after the file (by the corrected record constructor) is added to the loading list and activated |
| DotNetModuleLoaders.DotNetModuleLoader.LocateModule | src/Modules/DotNetModuleLoader.cs:114-140 | no file exactly when the name is null or empty, already loading or loaded ignoring case, or neither candidate file of `ModuleFile` exists; otherwise the first candidate file that exists |
| DotNetModuleLoaders.DotNetModuleLoader.ModuleFile | src/Modules/DotNetModuleLoader.cs:129-140 | `<name>.dll`, else `<name>/<name>.dll`, each combined with the module directory by `Path.Combine`, else none; characterised by `RelativeModuleFile` and `RootedModuleFile` |
| DotNetModuleLoaders.DotNetModuleLoader.RelativeModuleFile | src/Modules/DotNetModuleLoader.cs:129-140 | a name without separators is looked up as `<directory>/<name>.dll`, then `<directory>/<name>/<name>.dll` |
| DotNetModuleLoaders.DotNetModuleLoader.RootedModuleFile | src/Modules/DotNetModuleLoader.cs:129-140 | a rooted name ignores the module directory, since `Path.Combine` returns a rooted second path unchanged: both candidates are `<name>.dll` |
| DotNetModuleLoaders.DotNetModuleLoader.LoadFile | src/Modules/DotNetModuleLoader.cs:142-151 | a fresh record named after the file (by the corrected record constructor) joins the end of the loading list and is activated, as `Activated` describes |
| DotNetModuleLoaders.DotNetModuleLoader.Enlist | src/Modules/DotNetModuleLoader.cs:142-149 | a fresh record named after the file (by the corrected record constructor) joins the end of the loading list; the loaded and unloaded lists stay as they were |
| DotNetModuleLoaders.DotNetModuleLoader.UnloadModule | src/Modules/DotNetModuleLoader.cs:154-189 | as written: a null or empty name does nothing; an unknown name is a null dereference; otherwise the first module of that name is removed, its record joins the unloaded ones once, and the `Unload` hook's error, if any, is the outcome |
| DotNetModuleLoaders.DotNetModuleLoader.IndexOfLoaded | src/Modules/DotNetModuleLoader.cs:164-176 | the search returns the index of the first loaded module with the given name, or the number of loaded modules when none has it |
| DotNetModuleLoaders.DotNetModuleLoader.UnloadModuleCorrected | src/Modules/DotNetModuleLoader.cs:154-189 | corrected: an unknown name is a no-op; otherwise as above |
| Pooling.ArrayPool.Init | src/Pooling/ArrayPool.cs:30-66 | a pool with the given limits and the given number of queues, each holding the initial number of arrays of its length |
| Pooling.ArrayPool.Setup | src/Pooling/ArrayPool.cs:133-139 | a queue is topped up with fresh arrays of its length to the initial count and its existing arrays stay in front |
| Pooling.ArrayPool.Get | src/Pooling/ArrayPool.cs:69-98 | a negative length is rejected, 0 gives the shared empty array, a length over the maximum a fresh array; a length without a queue is an index error; otherwise the queue's front array is taken, refilling an empty queue first, and an empty queue with no initial items fails; any array returned has the requested length |
| Pooling.ArrayPool.Free | src/Pooling/ArrayPool.cs:101-131 | null and empty arrays are ignored; any other array is cleared; it rejoins its length's queue unless that queue is full; a length without a queue is an index error |
| Pooling.ConstructionError | src/Pooling/ArrayPool.cs:32-50 | construction is accepted iff the maximum length is positive, at least five arrays may be pooled and the initial count lies between 0 and that limit |
| Pooling.Create | src/Pooling/ArrayPool.cs:30-66 | as written: argument errors in the documented order, else a pool with one queue fewer than the maximum length |
| Pooling.CreateCorrected | src/Pooling/ArrayPool.cs:30-66 | corrected: one queue for every length up to the maximum |
| Pooling.HelperPoolGetFails | src/Pooling/Pool.cs:22 | the helper pool built with maximum length 1 has no queue, so asking it for a length-1 array is an index error |
| Pooling.HelperPoolGetCorrected | src/Pooling/Pool.cs:22 | with the corrected constructor the same request returns an array of length 1 |
| CompoundLoggers.Added | src/Logging/CompoundLogger.cs:36-50 | adding keeps the existing loggers in order, adds the logger iff it is not null, not the compound logger and not present, and never creates a duplicate |
| CompoundLoggers.RemoveFirst | src/Logging/CompoundLogger.cs:63 | `List.Remove` takes out one occurrence when present and otherwise changes nothing |
| CompoundLoggers.Removed | src/Logging/CompoundLogger.cs:52-66 | removing ignores null, the compound logger and absent loggers, and otherwise shortens the list by one |
| CompoundLoggers.RemovedMeaning | src/Logging/CompoundLogger.cs:59-64 | in a duplicate-free list removal takes out exactly that logger and keeps the list duplicate-free |
| CompoundLoggers.AddThenRemove | src/Logging/CompoundLogger.cs:45-64 | adding an absent logger and then removing it restores the list exactly |
| CompoundLoggers.CompoundLogger.constructor | src/Logging/CompoundLogger.cs:12-16 | no sub-loggers, with the core module's level |
| CompoundLoggers.CompoundLogger.Log | src/Logging/CompoundLogger.cs:18-34 | every sub-logger is called once with the message, in list order, whatever earlier calls did |
| CompoundLoggers.CompoundLogger.AddLogger | src/Logging/CompoundLogger.cs:36-50 | the list becomes `Added` of the old one, keeping it free of null, self and duplicates |
| CompoundLoggers.CompoundLogger.RemoveLogger | src/Logging/CompoundLogger.cs:52-66 | the list becomes `Removed` of the old one, keeping it free of null, self and duplicates |
| Plugins.CreatePlugin | src/Plugins/Plugin.cs:25-40 | fails with a null dereference iff the type lacks the plugin info attribute; otherwise the plugin is named after the type's short name and carries the attribute's title, author and version |
| Plugins.CompareTo | src/Plugins/Plugin.cs:44-64 | null compares as 1; differing short names decide; equal short names fall back to the full names; its order properties are stated by `CompareToOrder` and `EqualsMeaning` |
| Plugins.Equals | src/Plugins/Plugin.cs:66-77 | a plugin equals exactly the plugins of its runtime type, never null; its properties are stated by `EqualsMeaning` |
| Plugins.EqualsMeaning | src/Plugins/Plugin.cs:66-77 | `Equals` is false for null and an equivalence on plugins (same runtime type), and equal plugins compare as 0 |
| Plugins.CompareToOrder | src/Plugins/Plugin.cs:51-63 | with a well-behaved string comparison the plugin order is sign-antisymmetric and transitive |

## Left out

- Locks: every operation is modelled as atomic and sequential. The singleton factory running outside the registry lock (src/DependencyInjection/DynamicServiceProvider.cs:80-83) is not modelled.
- Reflection, `TypeDescriptor` conversion and `MethodBase.Invoke` are oracles in `TypeSystem` and `Invoker`. Awaiting a returned task and the cancellation token are part of the invoker.
- Culture-sensitive `string.CompareTo` is the abstract `Collation`. The loader assumes it is well behaved.
- `Dictionary` enumeration order is modelled as insertion order.
- `List.Sort` is unstable. `FinalizeModuleLoad` is stated as the sorted insertion of the module: same contents, still sorted. The position among modules that compare equal is left open.
- Module staging (`EnsureStructure`, the shadow copy, `Assembly.LoadFrom`) is file-system I/O. The model receives its outcome as `Staging`. The directory layout and the move of the parent file are not modelled.
- Which hooks a derived module constructor subscribes is not visible either. `Staging.body` gives the methods passed to `SubscribeTo`, or the exception the constructor raises.
- `LoadModule`'s `immediately` flag is unused by the code, so it is not a parameter.
- Log messages and `Console.WriteLine` output have no modelled effect.
- src/Pooling/Pool.cs is not part of this model apart from its helper pool's construction. `Pool.Array<T>(n)` is a fresh null-filled array and `Pool.Free` is a no-op. As written, each of the following throws an index error from the helper pool before doing anything else, and the model does not capture that throw:
  - `ActivationUtility.CreateFactory` (src/DependencyInjection/ActivationUtility.cs:25);
  - every activation closure (src/DependencyInjection/ActivationUtility.cs:50);
  - `ExecutionEngine.ExecuteMethod` with null arguments (src/DependencyInjection/ExecutionEngine.cs:20);
  - `ExecutionEngine.CreateParameterMap` (src/DependencyInjection/ExecutionEngine.cs:58-59, 63-64), and with it `FindBestMethod` and `ExecuteHook`;
  - `Interface`'s hook shortcuts (src/Interface.cs:59, 73 and the like);
  - the loader's `Init` and `Unload` hook calls (src/Modules/DotNetModuleLoader.cs:200, 187), so every `Activate` and `UnloadModule`.
- The logging sinks (file, threaded, callback, core and base loggers) are not part of this model. The message and level reach a sub-logger through `deliver`, which returns that call's outcome.
- `Plugins.CompareTo` and `Plugins.Equals` take a `Plugin` as the other side. A foreign `IPlugin` implementation is not modelled.
- `Pooling.ArrayPool.Get`: when an empty queue is refilled, the contract does not say that the refill arrays are fresh. It states only the queue's length and the arrays' lengths.
- `DotNetModuleLoaders.DotNetModuleLoader.LoadModule`: builds its record with the corrected `ModuleInfo` constructor. As written, line 142 always throws `ArgumentNullException` (src/Modules/ModuleInfo.cs:33), so no load of an existing file would reach the loading list.
- `ExecutionEngine.BindSlot`: a `TypeConverter` that throws on a value it claims to accept (src/DependencyInjection/ExecutionEngine.cs:199, 209) is not modelled. The `convert` oracle either converts or declines, so the exception that would leave `FindBestMethod` and `ExecuteHook` is lost.
- `ExecutionEngine.MapStep`: the service lookup at src/DependencyInjection/ExecutionEngine.cs:119 is a `Resolver` that always returns. A lookup that throws, for instance a factory that throws, and the singleton caching the lookup performs are not modelled.
- `ActivationUtility.SourceValue`: the same holds for the service lookup at src/DependencyInjection/ActivationUtility.cs:133. Its exceptions and side effects are not modelled.
- `DynamicServiceProviders.DynamicServiceProvider.GetService`: the factory's outcome is the opaque `produced`. A factory's own effects are not modelled. An activation factory resolves its constructor's parameters through the same provider, which can fill other singletons' caches. So the clause that leaves every other descriptor unchanged holds only of the model.
- `Runtime.EqualsIgnoreCase`: folds case for the ASCII letters only. `OrdinalIgnoreCase` also folds other letters (such as "Ä" and "ä"), so module lookups by name (src/Modules/DotNetModuleLoader.cs:56, 80, 102, 168) may treat different non-ASCII names as equal where the model does not.
- `ExecutionEngine.ExecuteMethod`: takes a non-null argument array. When the argument array is null, the code replaces it with an empty pooled array (src/DependencyInjection/ExecutionEngine.cs:18-21). That path is not modelled, because every caller in the core passes an array.
- `Modules.Module.ExecuteHook`: takes a non-null argument array. The public `Module.ExecuteHook` (src/Modules/Module.cs:154) also accepts null: a candidate without parameters then still dispatches, and any other candidate throws at src/DependencyInjection/ExecutionEngine.cs:77. That path is not modelled, because every caller in the core passes an array (src/Modules/DotNetModuleLoader.cs:187, 200).
- `ModuleInfos.Combine`: treats only a path starting with `/` or `\` as rooted. A drive-qualified Windows path (`C:...`) and the volume separator in file names are not modelled.
- `ModuleInfos.ModuleInfo.constructor`: models only `ParentFile` and `Name`. The derived directory paths are left out.

## Findings

| source | as written | input that shows it | evidently intended | confidence | as-written member | corrected member |
|---|---|---|---|---|---|---|
| src/DependencyInjection/ExecutionEngine.cs:220-252 | `usedArguments` is never updated, so every later candidate that maps replaces the earlier one and the last mapping candidate wins | candidates `OnChat(string, string)` then `OnChat(string)`, called with two strings: the one-parameter overload is picked | pick the candidate that uses the most arguments, the first among ties | not executed | ExecutionEngine.LastMappedIgnoresArgumentCount | ExecutionEngine.FindBestMethodCorrected |
| src/Pooling/ArrayPool.cs:60-65 | the set-up loop runs for lengths 1 to `MaxArrayLength - 1`, so there is no queue for the maximum length that `Get` and `Free` index | `new ArrayPool<object>(1, 1, 20)` (src/Pooling/Pool.cs:22) then `Get(1)`: index out of range. Every `Pool.Array` call makes that request (src/Pooling/Pool.cs:147), so factory creation, parameter mapping, hook execution and the loader's `Init` and `Unload` calls all throw | one queue for every length from 1 to `MaxArrayLength` | not executed | Pooling.HelperPoolGetFails | Pooling.HelperPoolGetCorrected |
| src/Modules/DotNetModuleLoader.cs:161-187 | when no loaded module has the name, `module` is null and `module.ModuleInfo` is dereferenced | `UnloadModule("Missing")` with no module of that name loaded | unloading an unknown module is a no-op | not executed | DotNetModuleLoaders.DotNetModuleLoader.UnloadModule | DotNetModuleLoaders.DotNetModuleLoader.UnloadModuleCorrected |
| src/Modules/ModuleInfo.cs:32-33 | the name is computed from the still-null `Name` instead of `moduleFile`; `Path.Combine` then receives null and throws | `new ModuleInfo("Modules/Foo.dll")` | the record is named after the module file without extension | not executed | ModuleInfos.ConstructAsWrittenAlwaysFails | ModuleInfos.ModuleInfo.constructor |
