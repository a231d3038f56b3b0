/** Constructor selection and argument assembly of
    src/DependencyInjection/ActivationUtility.cs. */
module ActivationUtility {
  import opened Wrappers
  import opened Runtime

  // ---------------------------------------------------------------------------
  // Matching explicit argument types against parameters
  // ---------------------------------------------------------------------------

  /** `IsMatchingParameter` (lines 81-99). A missing argument type matches an
      optional parameter or one with a default; a present type must be
      assignable to the parameter type, which a by-ref parameter type never is. */
  predicate IsMatchingParameter(ts: TypeSystem, p: Param, argument: Option<TypeId>)
  {
    match argument
    case None => p.isOptional || p.defaultValue.Some?
    case Some(t) => !p.isByRef && ts.assignable(p.ty, t)
  }

  /** The arguments fit the parameters from `startIndex` on: there are enough
      such parameters and each argument matches the parameter at its offset. */
  predicate MatchesFrom(ts: TypeSystem, parameters: seq<Param>, arguments: seq<Option<TypeId>>, startIndex: nat)
  {
    && |parameters| - startIndex >= |arguments|
    && forall i :: 0 <= i < |arguments| ==> IsMatchingParameter(ts, parameters[startIndex + i], arguments[i])
  }

  /** `HasMatchingParameters` (lines 101-117). */
  method HasMatchingParameters(ts: TypeSystem, parameters: seq<Param>, arguments: seq<Option<TypeId>>, startIndex: nat)
    returns (b: bool)
    ensures b <==> MatchesFrom(ts, parameters, arguments, startIndex)
  {
    if |parameters| - startIndex < |arguments| {
      return false;
    }
    for i := 0 to |arguments|
      invariant forall k :: 0 <= k < i ==> IsMatchingParameter(ts, parameters[startIndex + k], arguments[k])
    {
      if !IsMatchingParameter(ts, parameters[startIndex + i], arguments[i]) {
        return false;
      }
    }
    return true;
  }

  // ---------------------------------------------------------------------------
  // Choosing a constructor (FilterConstructors)
  // ---------------------------------------------------------------------------

  function Arity(ctors: seq<Ctor>, i: nat): nat
  {
    if i < |ctors| then |ctors[i].params| else 0
  }

  /** The order of the filtered constructors: more parameters first and, since
      `OrderByDescending` is a stable sort, declaration order among equal counts. */
  predicate Before(ctors: seq<Ctor>, i: nat, j: nat)
  {
    Arity(ctors, i) > Arity(ctors, j) || (Arity(ctors, i) == Arity(ctors, j) && i < j)
  }

  predicate Eligible(ts: TypeSystem, ctors: seq<Ctor>, types: seq<Option<TypeId>>, i: nat)
  {
    i < |ctors| && MatchesFrom(ts, ctors[i].params, types, 0)
  }

  /** The `Where` filter over the first `n` constructors, as positions in
      declaration order. */
  function EligibleBelow(ts: TypeSystem, ctors: seq<Ctor>, types: seq<Option<TypeId>>, n: nat): (r: seq<nat>)
    requires n <= |ctors|
    ensures forall x: nat :: x in r <==> x < n && Eligible(ts, ctors, types, x)
    ensures Distinct(r)
  {
    if n == 0 then []
    else
      var prefix := EligibleBelow(ts, ctors, types, n - 1);
      assert forall x :: x in prefix ==> x < n - 1;
      prefix + (if Eligible(ts, ctors, types, n - 1) then [n - 1] else [])
  }

  predicate Sorted(ctors: seq<Ctor>, s: seq<nat>)
  {
    forall a, b :: 0 <= a < b < |s| ==> Before(ctors, s[a], s[b])
  }

  predicate Distinct(s: seq<nat>)
  {
    forall a, b :: 0 <= a < b < |s| ==> s[a] != s[b]
  }

  function Insert(ctors: seq<Ctor>, x: nat, s: seq<nat>): (r: seq<nat>)
    ensures forall y :: y in r <==> y == x || y in s
    ensures |r| == |s| + 1
  {
    if s == [] then [x]
    else if Before(ctors, x, s[0]) then [x] + s
    else [s[0]] + Insert(ctors, x, s[1..])
  }

  lemma {:induction false} InsertSorted(ctors: seq<Ctor>, x: nat, s: seq<nat>)
    requires Sorted(ctors, s) && x !in s
    ensures Sorted(ctors, Insert(ctors, x, s))
  {
    if s != [] && !Before(ctors, x, s[0]) {
      InsertSorted(ctors, x, s[1..]);
      var r := Insert(ctors, x, s);
      var t := Insert(ctors, x, s[1..]);
      assert r == [s[0]] + t;
      forall b | 0 < b < |r| ensures Before(ctors, s[0], r[b]) {
        assert r[b] in t;
      }
    }
  }

  /** `OrderByDescending` on the parameter count. */
  function SortDesc(ctors: seq<Ctor>, s: seq<nat>): (r: seq<nat>)
    ensures forall y :: y in r <==> y in s
    ensures |r| == |s|
  {
    if s == [] then [] else Insert(ctors, s[0], SortDesc(ctors, s[1..]))
  }

  lemma {:induction false} SortDescSorted(ctors: seq<Ctor>, s: seq<nat>)
    requires Distinct(s)
    ensures Sorted(ctors, SortDesc(ctors, s))
  {
    if s != [] {
      assert s[0] !in s[1..] by {
        forall b | 0 <= b < |s[1..]| ensures s[1..][b] != s[0] { assert s[1..][b] == s[b + 1]; }
      }
      SortDescSorted(ctors, s[1..]);
      InsertSorted(ctors, s[0], SortDesc(ctors, s[1..]));
    }
  }

  /** `FirstOrDefault`, with `factoryOnly` selecting the `[Factory]` predicate. */
  function FirstSat(ctors: seq<Ctor>, s: seq<nat>, factoryOnly: bool): (r: Option<nat>)
    ensures r.Some? ==> r.value in s && (!factoryOnly || (r.value < |ctors| && ctors[r.value].isFactory))
    ensures r.None? ==> forall x :: x in s && x < |ctors| ==> factoryOnly && !ctors[x].isFactory
  {
    if s == [] then None
    else if !factoryOnly || (s[0] < |ctors| && ctors[s[0]].isFactory) then Some(s[0])
    else FirstSat(ctors, s[1..], factoryOnly)
  }

  /** `FilterConstructors` (lines 60-74) as the position of the chosen constructor. */
  function FilterConstructorIndex(ts: TypeSystem, ctors: seq<Ctor>, types: seq<Option<TypeId>>): Option<nat>
  {
    var filtered := SortDesc(ctors, EligibleBelow(ts, ctors, types, |ctors|));
    var attribute := FirstSat(ctors, filtered, true);
    if attribute.Some? then attribute else FirstSat(ctors, filtered, false)
  }

  function FilterConstructors(ts: TypeSystem, ctors: seq<Ctor>, types: seq<Option<TypeId>>): Option<Ctor>
  {
    match FilterConstructorIndex(ts, ctors, types)
    case None => None
    case Some(i) => if i < |ctors| then Some(ctors[i]) else None
  }

  /** Any element of a sorted sequence satisfying the predicate comes no
      earlier in the order than the first element that does. */
  lemma {:induction false} FirstSatIsLeast(ctors: seq<Ctor>, s: seq<nat>, factoryOnly: bool, y: nat)
    requires Sorted(ctors, s)
    requires y in s && y < |ctors| && (!factoryOnly || ctors[y].isFactory)
    ensures FirstSat(ctors, s, factoryOnly).Some?
    ensures var x := FirstSat(ctors, s, factoryOnly).value;
      x < |ctors| && (!factoryOnly || ctors[x].isFactory) && (x == y || Before(ctors, x, y))
  {
    if !(!factoryOnly || (s[0] < |ctors| && ctors[s[0]].isFactory)) {
      assert s[0] != y;
      assert y in s[1..];
      FirstSatIsLeast(ctors, s[1..], factoryOnly, y);
      var x := FirstSat(ctors, s[1..], factoryOnly).value;
    } else if s[0] != y {
      var b :| 0 <= b < |s| && s[b] == y;
      assert Before(ctors, s[0], s[b]);
    }
  }

  /** Constructor `i` is preferred to constructor `j`: more parameters, or as
      many and declared no later. */
  predicate Dominates(ctors: seq<Ctor>, i: nat, j: nat)
    requires i < |ctors| && j < |ctors|
  {
    |ctors[j].params| < |ctors[i].params| || (|ctors[j].params| == |ctors[i].params| && i <= j)
  }

  lemma FilteredContents(ts: TypeSystem, ctors: seq<Ctor>, types: seq<Option<TypeId>>)
    ensures var filtered := SortDesc(ctors, EligibleBelow(ts, ctors, types, |ctors|));
      Sorted(ctors, filtered) && forall x: nat :: x in filtered <==> Eligible(ts, ctors, types, x)
  {
    SortDescSorted(ctors, EligibleBelow(ts, ctors, types, |ctors|));
  }

  /** With an accepting `[Factory]` constructor, the chosen one carries
      `[Factory]` and is preferred to every accepting `[Factory]` constructor. */
  lemma {:induction false} ChoiceWithFactory(ts: TypeSystem, ctors: seq<Ctor>, types: seq<Option<TypeId>>, j0: nat)
    requires Eligible(ts, ctors, types, j0) && ctors[j0].isFactory
    ensures FilterConstructorIndex(ts, ctors, types).Some?
    ensures var i := FilterConstructorIndex(ts, ctors, types).value;
      && Eligible(ts, ctors, types, i) && ctors[i].isFactory
      && forall j: nat :: Eligible(ts, ctors, types, j) && ctors[j].isFactory ==> Dominates(ctors, i, j)
  {
    var filtered := SortDesc(ctors, EligibleBelow(ts, ctors, types, |ctors|));
    FilteredContents(ts, ctors, types);
    FirstSatIsLeast(ctors, filtered, true, j0);
    var i := FirstSat(ctors, filtered, true).value;
    forall j: nat | Eligible(ts, ctors, types, j) && ctors[j].isFactory
      ensures Dominates(ctors, i, j)
    {
      FirstSatIsLeast(ctors, filtered, true, j);
    }
  }

  /** With no accepting `[Factory]` constructor, the chosen one accepts the
      argument types and is preferred to every accepting constructor. */
  lemma {:induction false} ChoiceWithoutFactory(ts: TypeSystem, ctors: seq<Ctor>, types: seq<Option<TypeId>>, j0: nat)
    requires Eligible(ts, ctors, types, j0)
    requires forall j: nat :: Eligible(ts, ctors, types, j) ==> !ctors[j].isFactory
    ensures FilterConstructorIndex(ts, ctors, types).Some?
    ensures var i := FilterConstructorIndex(ts, ctors, types).value;
      && Eligible(ts, ctors, types, i)
      && forall j: nat :: Eligible(ts, ctors, types, j) ==> Dominates(ctors, i, j)
  {
    var filtered := SortDesc(ctors, EligibleBelow(ts, ctors, types, |ctors|));
    FilteredContents(ts, ctors, types);
    var attribute := FirstSat(ctors, filtered, true);
    if attribute.Some? {
      assert false;
    }
    FirstSatIsLeast(ctors, filtered, false, j0);
    var i := FirstSat(ctors, filtered, false).value;
    forall j: nat | Eligible(ts, ctors, types, j)
      ensures Dominates(ctors, i, j)
    {
      FirstSatIsLeast(ctors, filtered, false, j);
    }
  }

  /** No constructor is chosen exactly when none accepts the argument types. */
  lemma ChoiceNone(ts: TypeSystem, ctors: seq<Ctor>, types: seq<Option<TypeId>>)
    ensures FilterConstructorIndex(ts, ctors, types).None? <==> forall j: nat :: !Eligible(ts, ctors, types, j)
  {
    var filtered := SortDesc(ctors, EligibleBelow(ts, ctors, types, |ctors|));
    FilteredContents(ts, ctors, types);
    var r := FilterConstructorIndex(ts, ctors, types);
    if r.Some? {
      assert r.value in filtered;
    } else {
      forall j: nat | Eligible(ts, ctors, types, j) ensures false {
        FirstSatIsLeast(ctors, filtered, false, j);
      }
    }
  }

  /** The constructor `FilterConstructors` chooses: one accepting the explicit
      argument types; when any accepting constructor carries `[Factory]`, the
      chosen one does and has the most parameters among those that do (the
      first declared among equals); otherwise it is the accepting constructor
      with the most parameters, the first declared among equals. There is a
      choice exactly when some constructor accepts the argument types. */
  lemma FilterConstructorsChoice(ts: TypeSystem, ctors: seq<Ctor>, types: seq<Option<TypeId>>)
    ensures FilterConstructorIndex(ts, ctors, types).None? <==> forall j: nat :: !Eligible(ts, ctors, types, j)
    ensures FilterConstructorIndex(ts, ctors, types).Some? ==>
      var i := FilterConstructorIndex(ts, ctors, types).value;
      && Eligible(ts, ctors, types, i)
      && FilterConstructors(ts, ctors, types) == Some(ctors[i])
      && ((exists j: nat :: Eligible(ts, ctors, types, j) && ctors[j].isFactory) ==>
            && ctors[i].isFactory
            && forall j: nat :: Eligible(ts, ctors, types, j) && ctors[j].isFactory ==> Dominates(ctors, i, j))
      && ((forall j: nat :: Eligible(ts, ctors, types, j) ==> !ctors[j].isFactory) ==>
            forall j: nat :: Eligible(ts, ctors, types, j) ==> Dominates(ctors, i, j))
  {
    ChoiceNone(ts, ctors, types);
    if exists j: nat :: Eligible(ts, ctors, types, j) && ctors[j].isFactory {
      var j0: nat :| Eligible(ts, ctors, types, j0) && ctors[j0].isFactory;
      ChoiceWithFactory(ts, ctors, types, j0);
    } else if exists j: nat :: Eligible(ts, ctors, types, j) {
      var j0: nat :| Eligible(ts, ctors, types, j0);
      ChoiceWithoutFactory(ts, ctors, types, j0);
    }
  }

  // ---------------------------------------------------------------------------
  // Assembling constructor arguments (AssignParameters, CanAssignNull)
  // ---------------------------------------------------------------------------

  /** `CanAssignNull` (lines 169-177) for a parameter's type: any reference
      type (a by-ref type included) and any nullable value type. */
  predicate CanAssignNull(ts: TypeSystem, p: Param)
  {
    p.isByRef || !ts.info(p.ty).isValueType || ts.info(p.ty).isNullable
  }

  /** `p.ParameterType.IsInstanceOfType(v)`: never true of a by-ref type. */
  predicate Accepts(ts: TypeSystem, p: Param, v: Value)
  {
    !p.isByRef && IsInstanceOf(ts, p.ty, v)
  }

  /** `p.ParameterType` as declared: `T&` for a by-ref parameter of type `T`. */
  function DeclaredType(ts: TypeSystem, p: Param): TypeId
  {
    if p.isByRef then ts.byRefType(p.ty) else p.ty
  }

  /** The value slot `i` starts from: the explicit argument at `i` while there
      are explicit arguments left, the provider's service for the declared
      parameter type otherwise. Reading the length of a null argument array,
      or asking a null provider, is a null dereference. */
  function SourceValue(ts: TypeSystem, provider: Resolver, p: Param, provided: Option<seq<Value>>, i: nat): Result<Value>
  {
    match provided
    case None => Failure(NullReference)
    case Some(a) =>
      if i < |a| then Success(a[i])
      else match provider
        case None => Failure(NullReference)
        case Some(f) => Success(f(DeclaredType(ts, p)))
  }

  /** What a null value is replaced by for an optional or defaulted parameter. */
  function NullStandIn(ts: TypeSystem, p: Param): Value
  {
    if p.defaultValue.Some? then p.defaultValue.value
    else if !CanAssignNull(ts, p) then ts.defaultInstance(p.ty)
    else Null
  }

  /** The checks of lines 136-163 on one slot's value. */
  function SlotValue(ts: TypeSystem, p: Param, value: Value): Result<Value>
  {
    if value.Null? then
      if p.isOptional || p.defaultValue.Some? then Success(NullStandIn(ts, p))
      else Failure(ArgumentNull(p.name))
    else if !Accepts(ts, p, value) then Failure(Argument(p.name))
    else Success(value)
  }

  /** A by-ref slot never keeps a non-null value: `IsInstanceOfType` fails on
      `T&`, so an explicit argument or a service yields an `ArgumentException`,
      and only an optional or defaulted parameter survives a null one. When
      the explicit arguments are used up, the provider is asked for `T&`. */
  lemma ByRefSlot(ts: TypeSystem, provider: Resolver, p: Param, provided: Option<seq<Value>>, i: nat, v: Value)
    requires p.isByRef
    ensures SlotValue(ts, p, v).Success? <==> v.Null? && (p.isOptional || p.defaultValue.Some?)
    ensures v.Obj? ==> SlotValue(ts, p, v) == Failure(Argument(p.name))
    ensures provided.Some? && i >= |provided.value| && provider.Some? ==>
      SourceValue(ts, provider, p, provided, i) == Success(provider.value(ts.byRefType(p.ty)))
  {
  }

  /** The values of the first `k` slots, or the first error. */
  function Assigned(ts: TypeSystem, provider: Resolver, ps: seq<Param>, provided: Option<seq<Value>>, k: nat): (r: Result<seq<Value>>)
    requires k <= |ps|
    ensures r.Success? ==> |r.value| == k
  {
    if k == 0 then Success([])
    else match Assigned(ts, provider, ps, provided, k - 1)
      case Failure(e) => Failure(e)
      case Success(vs) =>
        match SourceValue(ts, provider, ps[k - 1], provided, k - 1)
        case Failure(e) => Failure(e)
        case Success(v) =>
          match SlotValue(ts, ps[k - 1], v)
          case Failure(e) => Failure(e)
          case Success(w) => Success(vs + [w])
  }

  /** Assignment succeeds exactly when every slot has a source value that
      passes the checks. Then a slot with a non-null source holds exactly that
      value, which is an instance of the parameter type, and a slot with a null
      source belongs to an optional or defaulted parameter and holds its
      default, a default instance of its value type, or null. A failure is a
      null dereference or names a parameter: a required one without a value,
      or one whose value has the wrong type. */
  lemma {:induction false} AssignedMeaning(ts: TypeSystem, provider: Resolver, ps: seq<Param>, provided: Option<seq<Value>>, k: nat)
    requires k <= |ps|
    ensures Assigned(ts, provider, ps, provided, k).Success? <==>
      forall i :: 0 <= i < k ==>
        SourceValue(ts, provider, ps[i], provided, i).Success?
        && SlotValue(ts, ps[i], SourceValue(ts, provider, ps[i], provided, i).value).Success?
    ensures Assigned(ts, provider, ps, provided, k).Success? ==>
      var vals := Assigned(ts, provider, ps, provided, k).value;
      forall i :: 0 <= i < k ==>
        var source := SourceValue(ts, provider, ps[i], provided, i).value;
        && (source.Obj? ==> vals[i] == source && Accepts(ts, ps[i], vals[i]))
        && (source.Null? ==> (ps[i].isOptional || ps[i].defaultValue.Some?) && vals[i] == NullStandIn(ts, ps[i]))
    ensures Assigned(ts, provider, ps, provided, k).Failure? ==>
      var e := Assigned(ts, provider, ps, provided, k).error;
      e == NullReference || exists i :: 0 <= i < k && (e == ArgumentNull(ps[i].name) || e == Argument(ps[i].name))
  {
    if k > 0 {
      AssignedMeaning(ts, provider, ps, provided, k - 1);
      var prev := Assigned(ts, provider, ps, provided, k - 1);
      if prev.Success? {
        var source := SourceValue(ts, provider, ps[k - 1], provided, k - 1);
        if source.Success? && SlotValue(ts, ps[k - 1], source.value).Success? {
          var vals := Assigned(ts, provider, ps, provided, k).value;
          forall i | 0 <= i < k - 1 ensures vals[i] == prev.value[i] {}
        }
      }
    }
  }

  lemma {:induction false} AssignedFailureSticks(ts: TypeSystem, provider: Resolver, ps: seq<Param>, provided: Option<seq<Value>>, i: nat, k: nat)
    requires i <= k <= |ps|
    requires Assigned(ts, provider, ps, provided, i).Failure?
    ensures Assigned(ts, provider, ps, provided, k) == Assigned(ts, provider, ps, provided, i)
    decreases k - i
  {
    if i < k { AssignedFailureSticks(ts, provider, ps, provided, i, k - 1); }
  }

  /** `AssignParameters` (lines 119-167): fills `values` slot by slot; `pi`
      counts the explicit arguments consumed. An exception leaves the array
      partly filled, which no caller observes. */
  method AssignParameters(ts: TypeSystem, values: array<Value>, parameters: seq<Param>, provided: Option<seq<Value>>, provider: Resolver)
    returns (error: Option<Error>)
    requires values.Length == |parameters|
    modifies values
    ensures error.None? <==> Assigned(ts, provider, parameters, provided, |parameters|).Success?
    ensures error.None? ==> values[..] == Assigned(ts, provider, parameters, provided, |parameters|).value
    ensures error.Some? ==> error.value == Assigned(ts, provider, parameters, provided, |parameters|).error
  {
    var pi := 0;
    for i := 0 to |parameters|
      invariant Assigned(ts, provider, parameters, provided, i).Success?
      invariant values[..i] == Assigned(ts, provider, parameters, provided, i).value
      invariant provided.Some? ==> pi == if i < |provided.value| then i else |provided.value|
    {
      var p := parameters[i];
      var value := Null;
      if provided.None? {
        AssignedFailureSticks(ts, provider, parameters, provided, i + 1, |parameters|);
        return Some(NullReference);
      }
      if pi < |provided.value| {
        value := provided.value[pi];
        pi := pi + 1;
      } else {
        if provider.None? {
          AssignedFailureSticks(ts, provider, parameters, provided, i + 1, |parameters|);
          return Some(NullReference);
        }
        value := provider.value(DeclaredType(ts, p));
      }

      if value.Null? {
        if p.isOptional || p.defaultValue.Some? {
          if p.defaultValue.Some? {
            value := p.defaultValue.value;
          } else {
            if !CanAssignNull(ts, p) {
              value := ts.defaultInstance(p.ty);
            }
          }
        } else {
          AssignedFailureSticks(ts, provider, parameters, provided, i + 1, |parameters|);
          return Some(ArgumentNull(p.name));
        }
      } else {
        if !Accepts(ts, p, value) {
          AssignedFailureSticks(ts, provider, parameters, provided, i + 1, |parameters|);
          return Some(Argument(p.name));
        }
      }

      values[i] := value;
      assert values[..i + 1] == values[..i] + [value];
    }
    assert values[..] == values[..|parameters|];
    return None;
  }

  // ---------------------------------------------------------------------------
  // CreateFactory and the factory it returns
  // ---------------------------------------------------------------------------

  /** The runtime types of the explicit arguments, or `None` when one of them
      is null (its `GetType()` dereferences null). */
  function ArgumentTypes(optionalArguments: Option<seq<Value>>): Option<seq<Option<TypeId>>>
  {
    match optionalArguments
    case None => Some([])
    case Some(a) =>
      if exists i :: 0 <= i < |a| && a[i].Null? then None
      else Some(seq(|a|, i requires 0 <= i < |a| => if a[i].Obj? then Some(a[i].ty) else None))
  }

  /** The outcome of `CreateFactory` (lines 12-58): a null or abstract type
      is rejected, a null explicit argument is a null dereference, and with
      no constructor accepting the explicit argument types the member is
      missing; otherwise the factory captures the constructor
      `FilterConstructors` chose and the explicit arguments. */
  function FactoryFor(ts: TypeSystem, implementationType: Option<TypeId>, optionalArguments: Option<seq<Value>>): (r: Result<Factory>)
    ensures r.Success? ==> implementationType.Some? && r.value.Activation? && r.value.provided == optionalArguments
  {
    if implementationType.None? then Failure(ArgumentNull("implementationType"))
    else if ts.info(implementationType.value).isAbstract then Failure(Argument("implementationType"))
    else match ArgumentTypes(optionalArguments)
      case None => Failure(NullReference)
      case Some(types) =>
        match FilterConstructors(ts, ts.info(implementationType.value).ctors, types)
        case None => Failure(MissingMember)
        case Some(c) => Success(Activation(c, optionalArguments))
  }

  /** A factory is created only for a non-null, non-abstract type whose
      explicit arguments are all non-null, and it captures one of the type's
      constructors that accepts their runtime types, together with the
      arguments themselves. The member is missing exactly when no constructor
      accepts them, and a null dereference happens exactly when some explicit
      argument is null. */
  lemma FactoryForMeaning(ts: TypeSystem, implementationType: Option<TypeId>, optionalArguments: Option<seq<Value>>)
    ensures FactoryFor(ts, implementationType, optionalArguments).Success? ==>
      && implementationType.Some? && !ts.info(implementationType.value).isAbstract
      && ArgumentTypes(optionalArguments).Some?
      && (optionalArguments.Some? ==> forall i :: 0 <= i < |optionalArguments.value| ==> optionalArguments.value[i].Obj?)
      && var f := FactoryFor(ts, implementationType, optionalArguments).value;
         var ctors := ts.info(implementationType.value).ctors;
         && f.Activation? && f.provided == optionalArguments
         && exists i: nat :: Eligible(ts, ctors, ArgumentTypes(optionalArguments).value, i) && ctors[i] == f.ctor
    ensures implementationType.Some? && !ts.info(implementationType.value).isAbstract ==>
      && (FactoryFor(ts, implementationType, optionalArguments) == Failure(NullReference) <==>
            optionalArguments.Some? && exists i :: 0 <= i < |optionalArguments.value| && optionalArguments.value[i].Null?)
      && (FactoryFor(ts, implementationType, optionalArguments) == Failure(MissingMember) <==>
            && ArgumentTypes(optionalArguments).Some?
            && forall j: nat :: !Eligible(ts, ts.info(implementationType.value).ctors, ArgumentTypes(optionalArguments).value, j))
  {
    if implementationType.Some? && !ts.info(implementationType.value).isAbstract && ArgumentTypes(optionalArguments).Some? {
      var ctors := ts.info(implementationType.value).ctors;
      var types := ArgumentTypes(optionalArguments).value;
      FilterConstructorsChoice(ts, ctors, types);
      if FilterConstructorIndex(ts, ctors, types).Some? {
        var i := FilterConstructorIndex(ts, ctors, types).value;
        assert Eligible(ts, ctors, types, i) && ctors[i] == FactoryFor(ts, implementationType, optionalArguments).value.ctor;
      }
    }
  }

  /** `CreateFactory` (lines 12-58). */
  method CreateFactory(ts: TypeSystem, implementationType: Option<TypeId>, optionalArguments: Option<seq<Value>>)
    returns (r: Result<Factory>)
    ensures r == FactoryFor(ts, implementationType, optionalArguments)
  {
    if implementationType.None? {
      return Failure(ArgumentNull("implementationType"));
    }
    var info := ts.info(implementationType.value);
    if info.isAbstract {
      return Failure(Argument("implementationType"));
    }
    var constructors := info.ctors;
    var parameters := new Option<TypeId>[0];
    if optionalArguments.Some? && |optionalArguments.value| > 0 {
      var a := optionalArguments.value;
      parameters := new Option<TypeId>[|a|](_ => None);
      for i := 0 to |a|
        invariant forall k :: 0 <= k < i ==> a[k].Obj? && parameters[k] == Some(a[k].ty)
      {
        if a[i].Null? {
          return Failure(NullReference);
        }
        parameters[i] := Some(a[i].ty);
      }
      assert parameters[..] == ArgumentTypes(optionalArguments).value;
    }
    var chosen := FilterConstructors(ts, constructors, parameters[..]);
    if chosen.None? {
      return Failure(MissingMember);
    }
    return Success(Activation(chosen.value, optionalArguments));
  }

  /** The factory `CreateFactory` returns (lines 48-57), applied to a
      provider: assemble the arguments, then invoke the constructor through
      `construct`. An assembly error propagates and `construct` is not called. */
  method InvokeActivation(ts: TypeSystem, construct: (Ctor, seq<Value>) -> Result<Value>,
                          ctor: Ctor, provided: Option<seq<Value>>, provider: Resolver)
    returns (r: Result<Value>)
    ensures match Assigned(ts, provider, ctor.params, provided, |ctor.params|)
      case Failure(e) => r == Failure(e)
      case Success(vals) => r == construct(ctor, vals)
  {
    var arguments := new Value[|ctor.params|](_ => Null);
    var error := AssignParameters(ts, arguments, ctor.params, provided, provider);
    if error.Some? {
      return Failure(error.value);
    }
    r := construct(ctor, arguments[..]);
  }
}
