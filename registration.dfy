/**
 * Registration dispatch: `register_di_service` (a singleton built once and
 * published, or a per-request factory), the `service` decorator's scope
 * check, and the scan callback that forwards a declaration to the former.
 */
module Registration {
  import opened Objects
  import opened Naming
  import opened ServiceTable

  /** A service factory (usually the service class), called with keyword arguments. */
  type Factory = map<string, Value> -> Result<Value>

  /** A call made on `pyramid_services`: `register_service` or `register_service_factory`. */
  datatype ServiceRegistration =
    | InstanceService(service: Value, iface: Interface, context: Interface, name: string)
    | FactoryService(wraps: Factory, iface: Interface, context: Interface, name: string)

  /** What one call of `register_di_service` did. */
  datatype Outcome =
    | Constructed(instance: Value)  // global scope: the factory ran and its instance was published
    | AlreadyRegistered             // global scope: a utility was already there, nothing happened
    | Deferred                      // any other scope: a per-request factory was registered
    | Failed(error: Error)          // global scope: the factory raised; nothing was changed

  /**
   * `wrapped_factory(context, request)`, the per-request factory registered
   * for a service: it ignores the context and calls `factory(request=request)`.
   */
  function WrappedFactory(factory: Factory, context: Value, request: Value): Result<Value>
  {
    factory(map["request" := request])
  }

  const GlobalScope: string := "global"
  const RequestScope: string := "request"

  /** The Pyramid configurator: the application registry and the `pyramid_services` calls made so far. */
  class Configurator {
    const registry: HostRegistry
    var registrations: seq<ServiceRegistration>

    constructor (registry: HostRegistry)
      ensures this.registry == registry && registrations == []
    {
      this.registry := registry;
      registrations := [];
    }

    /** The registry, its utilities and its service table are as they were. */
    twostate predicate RegistryUnchanged()
      reads this, registry, registry.services
    {
      registry.utilities == old(registry.utilities) &&
      registry.services == old(registry.services) &&
      registry.Table() == old(registry.Table()) &&
      registry.TableAttrs() == old(registry.TableAttrs())
    }

    /**
     * The effect of `register_di_service(config, factory, scope=scope,
     * interface=iface, name=name, context_iface=context)`.
     */
    twostate predicate RegisterEffect(factory: Factory, scope: string, iface: Interface, name: string,
                                      context: Interface, new outcome: Outcome)
      reads this, registry, registry.services
    {
      if scope == GlobalScope then
        if old(registry.QueryUtility(iface, name)) != NoneValue then
          outcome == AlreadyRegistered && registrations == old(registrations) && RegistryUnchanged()
        else
          var made := factory(map["registry" := Ref(registry)]);
          if made.Err? then
            outcome == Failed(made.error) && registrations == old(registrations) && RegistryUnchanged()
          else
            outcome == Constructed(made.value) &&
            registry.services != null &&
            (old(registry.services) != null ==> registry.services == old(registry.services)) &&
            (old(registry.services) == null ==> fresh(registry.services)) &&
            registry.Table() == old(registry.Table()) + [(made.value, iface)] &&
            registry.TableAttrs() == old(registry.TableAttrs())[AttrName(iface.name) := made.value] &&
            (old(registry.TableValid()) ==> registry.TableValid()) &&
            registry.utilities ==
              (if iface.isInterfaceClass then old(registry.utilities)[(iface, name) := made.value]
               else old(registry.utilities)) &&
            registrations == old(registrations) + [InstanceService(made.value, iface, context, name)]
      else
        outcome == Deferred && RegistryUnchanged() &&
        |registrations| == |old(registrations)| + 1 &&
        registrations[..|old(registrations)|] == old(registrations) &&
        var reg := registrations[|old(registrations)|];
        reg == FactoryService(factory, iface, context, name)
    }

    /** `register_di_service`, with its keyword-only parameters and their defaults. */
    method RegisterDiService(factory: Factory, nameonly scope: string := GlobalScope,
                             nameonly iface: Interface := BaseInterface, nameonly name: string := "",
                             nameonly context: Interface := BaseInterface)
      returns (outcome: Outcome)
      modifies this, registry, registry.services
      ensures RegisterEffect(factory, scope, iface, name, context, outcome)
    {
      if scope == GlobalScope {
        if registry.QueryUtility(iface, name) == NoneValue {
          var made := factory(map["registry" := Ref(registry)]);
          if made.Err? {
            return Failed(made.error);
          }
          var instance := made.value;
          var table := GetServiceRegistry(registry);
          table.RegisterService(instance, iface);
          if iface.isInterfaceClass {
            registry.utilities := registry.utilities[(iface, name) := instance];
          }
          registrations := registrations + [InstanceService(instance, iface, context, name)];
          outcome := Constructed(instance);
        } else {
          outcome := AlreadyRegistered;
        }
      } else {
        registrations := registrations + [FactoryService(factory, iface, context, name)];
        outcome := Deferred;
      }
    }

    /** The scan callback of a `@service` declaration: register the decorated class as declared. */
    method RegisterDeclared(decl: ServiceDecl, ob: Factory) returns (outcome: Outcome)
      modifies this, registry, registry.services
      ensures RegisterEffect(ob, decl.scope, decl.iface, decl.name, decl.context, outcome)
    {
      outcome := RegisterDiService(ob, scope := decl.scope, iface := decl.iface, name := decl.name,
                                 context := decl.context);
    }

    /**
     * Registering the same global service twice.  With an InterfaceClass key
     * the second call finds the utility the first one stored and builds
     * nothing; with any other key no utility is stored, so the factory runs
     * again and the table gets a second entry.
     */
    method RegisterGlobalTwice(factory: Factory, iface: Interface, name: string, context: Interface)
      returns (first: Outcome, second: Outcome)
      modifies this, registry, registry.services
      ensures first.Constructed? && first.instance != NoneValue && iface.isInterfaceClass ==>
                second == AlreadyRegistered &&
                registrations == old(registrations) + [InstanceService(first.instance, iface, context, name)] &&
                registry.Table() == old(registry.Table()) + [(first.instance, iface)]
      ensures first.Constructed? && !iface.isInterfaceClass ==>
                second.Constructed? &&
                registry.Table() == old(registry.Table()) + [(first.instance, iface), (second.instance, iface)]
    {
      first := RegisterDiService(factory, iface := iface, name := name, context := context);
      second := RegisterDiService(factory, iface := iface, name := name, context := context);
    }
  }

  /** What a `@service(...)` declaration holds once its scope has been checked. */
  datatype ServiceDecl = ServiceDecl(iface: Interface, name: string, context: Interface, scope: string)

  function InvalidScopeMessage(scope: string): string
  {
    "Invalid scope " + scope + ", must be either 'global' or 'request'"
  }

  /**
   * `service(interface, name, context_iface, scope)`: the scope is checked
   * before the decorator is returned.
   */
  function Service(iface: Interface := BaseInterface, name: string := "", context: Interface := BaseInterface,
                   scope: string := GlobalScope): (r: Result<ServiceDecl>)
    ensures r.Ok? <==> scope == GlobalScope || scope == RequestScope
    ensures r.Ok? ==> r.value == ServiceDecl(iface, name, context, scope)
    ensures r.Err? ==> r.error.ValueError? && r.error.message == InvalidScopeMessage(scope)
  {
    if scope != GlobalScope && scope != RequestScope then Err(ValueError(InvalidScopeMessage(scope)))
    else Ok(ServiceDecl(iface, name, context, scope))
  }

  /** `service()` with every default: global scope, the base interface, no name. */
  lemma ServiceDefaults()
    ensures Service() == Ok(ServiceDecl(BaseInterface, "", BaseInterface, "global"))
    ensures Service(scope := "application").Err?
  {
  }
}
