/** The host runtime as plain data: types, values, parameter slots, members and
    the reflection facts the modelled code asks for. Reflection, type
    conversion and the behaviour of invoked members are foreign library code;
    the model receives them as the oracles gathered in `TypeSystem`. */
module Runtime {
  import opened Wrappers

  /** A runtime type, identified abstractly. */
  type TypeId = nat

  /** A runtime value: null, or an object with a runtime type and an identity. */
  datatype Value = Null | Obj(ty: TypeId, id: nat)

  /** A parameter slot (`ParameterInfo`). `ty` is the parameter type with any
      by-ref wrapper removed; `isByRef` says that `ParameterType.IsByRef` holds
      (true for `ref` and `out` parameters). `defaultValue` is `None` when
      `DefaultValue` is `DBNull.Value`. `ParameterInfo.Position` is always the
      slot's index in the member's parameter list, so the model uses the index. */
  datatype Param = Param(
    name: string,
    ty: TypeId,
    isByRef: bool,
    isOut: bool,
    isOptional: bool,
    defaultValue: Option<Value>)

  /** A public instance constructor; `isFactory` says it carries `[Factory]`. */
  datatype Ctor = Ctor(id: nat, params: seq<Param>, isFactory: bool)

  /** A method or constructor (`MethodBase`) that a hook name can refer to. */
  datatype MethodRef = MethodRef(
    id: nat,
    name: string,
    declaringType: TypeId,
    isConstructor: bool,
    params: seq<Param>)

  /** `System.Version`: build and revision are -1 when undefined. */
  datatype Version = Version(major: int, minor: int, build: int, revision: int)

  /** The Title/Author/Version attribute on a module or plugin type; each
      property may be null. */
  datatype InfoAttribute = InfoAttribute(
    title: Option<string>,
    author: Option<string>,
    version: Option<Version>)

  /** What reflection reports about one runtime type. */
  datatype TypeInfo = TypeInfo(
    name: string,                        // Type.Name, the short name
    fullName: string,                    // Type.FullName
    isAbstract: bool,
    isValueType: bool,
    isNullable: bool,                    // Nullable.GetUnderlyingType(t) != null
    ctors: seq<Ctor>,                    // public instance constructors, in declaration order
    methods: seq<MethodRef>,             // public instance methods
    moduleInfo: Option<InfoAttribute>,   // [ModuleInfo] attribute, if any
    pluginInfo: Option<InfoAttribute>)   // [PluginInfo] attribute, if any

  /** The facts about types that the modelled code obtains from the runtime. */
  datatype TypeSystem = TypeSystem(
    assignable: (TypeId, TypeId) -> bool,   // assignable(t, s) is t.IsAssignableFrom(s)
    convert: (Value, TypeId) -> Option<Value>,  // TypeDescriptor-based conversion of a non-null value
    info: TypeId -> TypeInfo,
    byRefType: TypeId -> TypeId,            // byRefType(t) is t.MakeByRefType(), the type `t&`
    defaultInstance: TypeId -> Value,       // Activator.CreateInstance of a value type
    serviceProviderType: TypeId,            // typeof(IServiceProvider)
    disposableType: TypeId)                 // typeof(IDisposable)

  /** `t.IsInstanceOfType(v)`: false for null. */
  predicate IsInstanceOf(ts: TypeSystem, t: TypeId, v: Value)
  {
    v.Obj? && ts.assignable(t, v.ty)
  }

  /** `ExecutionEngine.TryConvert`: a null value never converts. */
  function TryConvert(ts: TypeSystem, v: Value, t: TypeId): (r: Option<Value>)
    ensures v.Null? ==> r.None?
  {
    if v.Null? then None else ts.convert(v, t)
  }

  /** A service provider as a lookup (`GetService`); `None` is a null provider. */
  type Resolver = Option<TypeId -> Value>

  /** `provider?.GetService(t)`: a null provider yields null. */
  function Resolve(provider: Resolver, t: TypeId): Value
  {
    match provider
    case None => Null
    case Some(f) => f(t)
  }

  /** What an invoked member returns: its value and the contents of the
      argument array afterwards (reflection copies by-ref results into it). */
  datatype Invocation = Invocation(value: Value, argsAfter: seq<Value>)

  /** `MethodBase.Invoke(instance, args)` with any returned task awaited. */
  type Invoker = (MethodRef, Value, seq<Value>) -> Result<Invocation>

  /** A construction strategy held by a service descriptor: a caller-supplied
      delegate, or the closure `ActivationUtility.CreateFactory` returns
      (the chosen constructor and the explicit arguments it captured). */
  datatype Factory =
    | Delegate(id: nat)
    | Activation(ctor: Ctor, provided: Option<seq<Value>>)

  /** Culture-sensitive `string.CompareTo`, as an abstract three-way comparison. */
  type Collation = (string, string) -> int

  function Sign(x: int): int
  {
    if x < 0 then -1 else if x > 0 then 1 else 0
  }

  /** A comparison that is reflexive, sign-antisymmetric and transitive. */
  ghost predicate WellBehaved(c: Collation)
  {
    && (forall a :: c(a, a) == 0)
    && (forall a, b :: Sign(c(a, b)) == -Sign(c(b, a)))
    && (forall a, b, d :: c(a, b) <= 0 && c(b, d) <= 0 ==> c(a, d) <= 0)
  }

  /** What a well-behaved collation gives beyond its definition: "compares
      equal" is transitive, and a strict step followed by a weak one is strict. */
  lemma {:induction false} CollationSteps(c: Collation, a: string, b: string, d: string)
    requires WellBehaved(c)
    ensures c(a, b) == 0 ==> c(b, a) == 0
    ensures c(a, b) == 0 && c(b, d) == 0 ==> c(a, d) == 0
    ensures c(a, b) < 0 && c(b, d) <= 0 ==> c(a, d) < 0
    ensures c(a, b) <= 0 && c(b, d) < 0 ==> c(a, d) < 0
  {
    assert Sign(c(a, b)) == -Sign(c(b, a));
    assert Sign(c(b, d)) == -Sign(c(d, b));
    assert Sign(c(a, d)) == -Sign(c(d, a));
    if c(a, b) <= 0 && c(b, d) <= 0 {
      assert c(a, d) <= 0;
      if c(a, d) == 0 {
        assert c(d, a) == 0;
        // then a, b and d all compare equal
        assert c(d, a) <= 0 && c(a, b) <= 0 ==> c(d, b) <= 0;
        assert c(b, d) <= 0 && c(d, a) <= 0 ==> c(b, a) <= 0;
      }
    }
  }

  /** `Char.ToUpperInvariant` restricted to ASCII letters. */
  function Upper(ch: char): char
  {
    if 'a' <= ch <= 'z' then (ch as int - 32) as char else ch
  }

  /** `string.Equals(a, b, StringComparison.OrdinalIgnoreCase)`, with case
      folded for the ASCII letters only (see `Upper`). */
  predicate EqualsIgnoreCase(a: string, b: string)
  {
    |a| == |b| && forall i :: 0 <= i < |a| ==> Upper(a[i]) == Upper(b[i])
  }

  lemma EqualsIgnoreCaseIsEquivalence(a: string, b: string, d: string)
    ensures EqualsIgnoreCase(a, a)
    ensures EqualsIgnoreCase(a, b) ==> EqualsIgnoreCase(b, a)
    ensures EqualsIgnoreCase(a, b) && EqualsIgnoreCase(b, d) ==> EqualsIgnoreCase(a, d)
  {
  }
}
