/** src/DependencyInjection/ServiceDescriptor.cs: one registration held by the
    service provider. Only the cached singleton instance is mutable. */
module ServiceDescriptors {
  import opened Wrappers
  import opened Runtime

  class ServiceDescriptor {
    const ServiceType: TypeId
    const ImplementationType: Option<TypeId>
    const IsTransient: bool
    const ImplementationFactory: Option<Factory>
    var Implementation: Value

    /** The constructor stores each argument in its property (lines 17-24). */
    constructor(serviceType: TypeId, implementationType: Option<TypeId>, factory: Option<Factory>,
                implementation: Value, isTransient: bool)
      ensures ServiceType == serviceType && ImplementationType == implementationType
      ensures ImplementationFactory == factory && Implementation == implementation
      ensures IsTransient == isTransient
    {
      ServiceType := serviceType;
      ImplementationType := implementationType;
      Implementation := implementation;
      ImplementationFactory := factory;
      IsTransient := isTransient;
    }
  }
}
