/** src/DependencyInjection/DynamicServiceProvider.cs: a registry of services
    keyed by type. The dictionary is a map from service type to descriptor,
    and `order` records its enumeration order. The provider never calls
    invoked factories itself: each call to `GetService` receives the outcome
    the descriptor's factory would produce, and a ghost log records every
    factory invocation and every disposal. */
module DynamicServiceProviders {
  import opened Wrappers
  import opened Runtime
  import opened ServiceDescriptors
  import ActivationUtility

  predicate NoDuplicates(order: seq<TypeId>)
  {
    forall a, b :: 0 <= a < b < |order| ==> order[a] != order[b]
  }

  /** The first key of the enumeration that is assignable from `t`. */
  function FirstAssignable(ts: TypeSystem, order: seq<TypeId>, t: TypeId): (r: Option<nat>)
    ensures r.Some? ==>
      && r.value < |order| && ts.assignable(order[r.value], t)
      && forall j :: 0 <= j < r.value ==> !ts.assignable(order[j], t)
    ensures r.None? ==> forall j :: 0 <= j < |order| ==> !ts.assignable(order[j], t)
  {
    if |order| == 0 then None
    else if ts.assignable(order[0], t) then Some(0)
    else match FirstAssignable(ts, order[1..], t)
      case None => None
      case Some(j) => Some(j + 1)
  }

  /** `order` without the key `k`. */
  function Without(order: seq<TypeId>, k: TypeId): (r: seq<TypeId>)
    ensures forall x :: x in r <==> x in order && x != k
    ensures NoDuplicates(order) ==> NoDuplicates(r)
    ensures k !in order ==> r == order
  {
    if |order| == 0 then []
    else if order[0] == k then Without(order[1..], k)
    else
      var rest := Without(order[1..], k);
      assert NoDuplicates(order) ==> order[0] !in order[1..] by {
        if NoDuplicates(order) {
          forall b | 0 <= b < |order[1..]| ensures order[1..][b] != order[0] {
            assert order[1..][b] == order[b + 1];
          }
        }
      }
      assert NoDuplicates(order) ==> NoDuplicates(order[1..]) by {
        if NoDuplicates(order) {
          forall a, b | 0 <= a < b < |order[1..]| ensures order[1..][a] != order[1..][b] {
            assert order[1..][a] == order[a + 1] && order[1..][b] == order[b + 1];
          }
        }
      }
      [order[0]] + rest
  }

  /** The effective implementation type (lines 14-17): the declared one, or
      the runtime type of the given instance. */
  function EffectiveImplementation(implementationType: Option<TypeId>, implementation: Value): Option<TypeId>
  {
    if implementationType.None? && implementation.Obj? then Some(implementation.ty) else implementationType
  }

  /** The effective service type (lines 19-22): the declared one, or the
      effective implementation type. */
  function EffectiveService(serviceType: Option<TypeId>, implementationType: Option<TypeId>, implementation: Value): Option<TypeId>
  {
    if serviceType.None? then EffectiveImplementation(implementationType, implementation) else serviceType
  }

  class DynamicServiceProvider {
    /** The value `this` stands for when the provider returns itself. */
    const Self: Value
    const ts: TypeSystem
    var services: map<TypeId, ServiceDescriptor>
    var order: seq<TypeId>
    /** The key of each descriptor whose factory was invoked, in call order. */
    ghost var factoryCalls: seq<TypeId>
    /** Each instance disposed on removal, in order. */
    ghost var disposed: seq<Value>

    /** Every key is enumerated exactly once and indexes the descriptor
        registered for it; so no two keys share a descriptor. */
    ghost predicate Valid()
      reads this
    {
      && NoDuplicates(order)
      && (forall k :: k in services <==> k in order)
      && (forall k :: k in services ==> services[k].ServiceType == k)
    }

    constructor(ts: TypeSystem, self: Value)
      ensures Valid() && this.ts == ts && Self == self
      ensures services == map[] && order == [] && factoryCalls == [] && disposed == []
    {
      this.ts := ts;
      Self := self;
      services := map[];
      order := [];
      factoryCalls := [];
      disposed := [];
    }

    /** The key whose descriptor serves a request for `t`: `t` itself when
        registered, otherwise the first key in enumeration order that is
        assignable from `t`. */
    function Lookup(t: TypeId): (r: Option<TypeId>)
      reads this
      requires Valid()
      ensures r.Some? ==> r.value in services && (r.value == t || (t !in services && ts.assignable(r.value, t)))
      ensures r.None? ==> t !in services && forall k :: k in services ==> !ts.assignable(k, t)
    {
      if t in services then Some(t)
      else match FirstAssignable(ts, order, t)
        case None => None
        case Some(j) => Some(order[j])
    }

    /** `AddService` (lines 12-39). The effective service type must be non-null
        and unregistered. Without a factory or an instance, a factory is
        created for the effective implementation type, and an error doing so
        propagates. On success a fresh descriptor is registered under the
        service type and enumerated last; on failure nothing changes. */
    method AddService(serviceType: Option<TypeId>, implementationType: Option<TypeId>,
                      implementationFactory: Option<Factory>, isTransient: bool, implementation: Value)
      returns (r: Outcome)
      requires Valid()
      modifies this
      ensures Valid()
      ensures factoryCalls == old(factoryCalls) && disposed == old(disposed)
      ensures var implType := EffectiveImplementation(implementationType, implementation);
        var svc := EffectiveService(serviceType, implementationType, implementation);
        var created := ActivationUtility.FactoryFor(ts, implType, Some([]));
        var needsFactory := implementationFactory.None? && implementation.Null?;
        && (svc.None? ==> r == Fail(ArgumentNull("key")))
        && (svc.Some? && svc.value in old(services) ==> r == Fail(InvalidOperation))
        && (svc.Some? && svc.value !in old(services) && needsFactory && created.Failure? ==>
              r == Fail(created.error))
        && (r.Fail? ==> services == old(services) && order == old(order))
        && (svc.Some? && svc.value !in old(services) && (!needsFactory || created.Success?) ==>
              && r == Pass
              && svc.value in services && fresh(services[svc.value])
              && services == old(services)[svc.value := services[svc.value]]
              && order == old(order) + [svc.value]
              && services[svc.value].ImplementationType == implType
              && services[svc.value].ImplementationFactory ==
                   (if needsFactory then Some(created.value) else implementationFactory)
              && services[svc.value].Implementation == implementation
              && services[svc.value].IsTransient == isTransient)
    {
      var implType := implementationType;
      var svc := serviceType;
      if implType.None? && implementation.Obj? {
        implType := Some(implementation.ty);
      }
      if svc.None? && implType.Some? {
        svc := implType;
      }
      if svc.None? {
        // Dictionary.ContainsKey(null)
        return Fail(ArgumentNull("key"));
      }
      if svc.value in services {
        return Fail(InvalidOperation);
      }
      var factory := implementationFactory;
      if factory.None? && implementation.Null? {
        var created := ActivationUtility.CreateFactory(ts, implType, Some([]));
        if created.Failure? {
          return Fail(created.error);
        }
        factory := Some(created.value);
      }
      var descriptor := new ServiceDescriptor(svc.value, implType, factory, implementation, isTransient);
      services := services[svc.value := descriptor];
      order := order + [svc.value];
      r := Pass;
    }

    /** `GetService` (lines 41-86) when the requested type is registered or
        covered: `produced` is what the descriptor's factory yields if it is
        invoked now. A transient descriptor invokes its factory on every
        request. A singleton invokes it only while no instance is cached and
        caches what it returns. A missing factory is a null dereference. */
    method GetService(serviceType: Option<TypeId>, produced: Result<Value>) returns (r: Result<Value>)
      requires Valid()
      modifies this, services.Values
      ensures Valid()
      ensures services == old(services) && order == old(order) && disposed == old(disposed)
      ensures forall k :: k in services && (serviceType.None? || Lookup(serviceType.value) != Some(k)) ==>
                services[k].Implementation == old(services[k].Implementation)
      ensures serviceType.None? ==> r == Failure(ArgumentNull("serviceType")) && factoryCalls == old(factoryCalls)
      ensures serviceType.Some? && ts.assignable(ts.serviceProviderType, serviceType.value) ==>
        r == Success(Self) && factoryCalls == old(factoryCalls) && unchanged(services.Values)
      ensures serviceType.Some? && !ts.assignable(ts.serviceProviderType, serviceType.value) ==>
        match Lookup(serviceType.value)
        case None => r == Success(Null) && factoryCalls == old(factoryCalls) && unchanged(services.Values)
        case Some(k) =>
          var d := services[k];
          var invokes := d.IsTransient || old(d.Implementation).Null?;
          && (!invokes ==> r == Success(old(d.Implementation)) && factoryCalls == old(factoryCalls) && unchanged(d))
          && (invokes && d.ImplementationFactory.None? ==>
                r == Failure(NullReference) && factoryCalls == old(factoryCalls) && unchanged(d))
          && (invokes && d.ImplementationFactory.Some? ==>
                && r == produced && factoryCalls == old(factoryCalls) + [k]
                && d.Implementation ==
                     (if !d.IsTransient && produced.Success? then produced.value else old(d.Implementation)))
    {
      if serviceType.None? {
        return Failure(ArgumentNull("serviceType"));
      }
      var t := serviceType.value;
      if ts.assignable(ts.serviceProviderType, t) {
        return Success(Self);
      }
      var descriptor: ServiceDescriptor;
      if t in services {
        descriptor := services[t];
      } else {
        var found: Option<ServiceDescriptor> := None;
        var keys, entries := order, services;
        for i := 0 to |keys|
          invariant found.None? ==> forall j :: 0 <= j < i ==> !ts.assignable(keys[j], t)
          modifies {}
        {
          if ts.assignable(keys[i], t) {
            found := Some(entries[keys[i]]);
            break;
          }
        }
        if found.None? {
          return Success(Null);
        }
        descriptor := found.value;
      }
      if descriptor.IsTransient {
        if descriptor.ImplementationFactory.None? {
          return Failure(NullReference);
        }
        factoryCalls := factoryCalls + [descriptor.ServiceType];
        return produced;
      }
      if descriptor.Implementation.Null? {
        if descriptor.ImplementationFactory.None? {
          return Failure(NullReference);
        }
        factoryCalls := factoryCalls + [descriptor.ServiceType];
        if produced.Failure? {
          return produced;
        }
        descriptor.Implementation := produced.value;
      }
      return Success(descriptor.Implementation);
    }

    /** `RemoveService` (lines 88-115): only an exact key is removed. A cached
        disposable instance is disposed first, and any error it raises is
        swallowed. */
    method RemoveService(serviceType: Option<TypeId>) returns (removed: bool)
      requires Valid()
      modifies this
      ensures Valid()
      ensures factoryCalls == old(factoryCalls)
      ensures removed <==> serviceType.Some? && serviceType.value in old(services)
      ensures !removed ==> services == old(services) && order == old(order) && disposed == old(disposed)
      ensures removed ==>
        var k := serviceType.value;
        var instance := old(services[k].Implementation);
        && services == old(services) - {k}
        && order == Without(old(order), k)
        && disposed == old(disposed) + (if instance.Obj? && ts.assignable(ts.disposableType, instance.ty) then [instance] else [])
    {
      if serviceType.None? {
        return false;
      }
      var k := serviceType.value;
      if k in services {
        var descriptor := services[k];
        var instance := descriptor.Implementation;
        if instance.Obj? && IsInstanceOf(ts, ts.disposableType, instance) {
          disposed := disposed + [instance];
        }
        services := services - {k};
        order := Without(order, k);
        return true;
      }
      return false;
    }
  }
}
